/** Sequence vocabulary shared by the list-shaped parts of the state:
    duplicate-freedom, order-preserving filters and the "newest n" window. */
module Seqs {

  /** No element occurs twice. */
  predicate NoDup<T(==)>(s: seq<T>) {
    forall i, j :: 0 <= i < j < |s| ==> s[i] != s[j]
  }

  /** `a` is obtained from `b` by deleting elements, keeping the order of the rest. */
  predicate IsSubseq<T(==)>(a: seq<T>, b: seq<T>)
    decreases |b|
  {
    |a| == 0 || (|b| > 0 && ((a[0] == b[0] && IsSubseq(a[1..], b[1..])) || IsSubseq(a, b[1..])))
  }

  /** Every sequence is a subsequence of itself. */
  lemma {:induction false} SubseqRefl<T>(s: seq<T>)
    ensures IsSubseq(s, s)
    decreases |s|
  {
    if |s| > 0 {
      SubseqRefl(s[1..]);
    }
  }

  /** `a` is a trailing segment of `b`. */
  predicate IsSuffix<T(==)>(a: seq<T>, b: seq<T>) {
    |a| <= |b| && forall i :: 0 <= i < |a| ==> a[i] == b[|b| - |a| + i]
  }

  function Min(a: int, b: int): int {
    if a <= b then a else b
  }

  /** The elements satisfying `p`, in their original order. */
  function Filter<T(==,!new)>(s: seq<T>, p: T -> bool): (r: seq<T>)
    ensures forall x :: x in r <==> x in s && p(x)
    ensures IsSubseq(r, s)
    ensures NoDup(s) ==> NoDup(r)
    ensures |r| <= |s|
  {
    if |s| == 0 then []
    else
      var rest := Filter(s[1..], p);
      assert s[1..] + [] == s[1..];
      if p(s[0]) then
        assert ([s[0]] + rest)[1..] == rest;
        [s[0]] + rest
      else
        rest
  }

  /** A sequence without members is empty. */
  lemma NoMembersEmpty<T>(s: seq<T>)
    ensures (forall x :: x !in s) ==> |s| == 0
  {
    if |s| > 0 {
      assert s[0] in s;
    }
  }

  /** Every element of `s` except `x`, in order. */
  function Without<T(==,!new)>(s: seq<T>, x: T): (r: seq<T>)
    ensures forall y :: y in r <==> y in s && y != x
    ensures IsSubseq(r, s)
    ensures NoDup(s) ==> NoDup(r)
  {
    Filter(s, y => y != x)
  }

  /** The newest `n` elements of `s`: its last `n`, or all of it when it is shorter. */
  function Newest<T>(s: seq<T>, n: nat): (r: seq<T>)
    requires n > 0
    ensures |r| == Min(|s|, n)
    ensures IsSuffix(r, s)
  {
    if |s| > n then s[|s| - n..] else s
  }

  /** Windowing twice is windowing once: keeping the newest `n` of (newest `n` of `a`)
      followed by `b` keeps the newest `n` of `a + b`. */
  lemma NewestAppend<T>(a: seq<T>, b: seq<T>, n: nat)
    requires n > 0
    ensures Newest(Newest(a, n) + b, n) == Newest(a + b, n)
  {
    var w := Newest(a, n);
    var lhs := Newest(w + b, n);
    var rhs := Newest(a + b, n);
    assert |lhs| == |rhs|;
    forall k | 0 <= k < |lhs|
      ensures lhs[k] == rhs[k]
    {
      var i := |w + b| - |lhs| + k;
      var j := |a + b| - |rhs| + k;
      if i < |w| {
        assert lhs[k] == w[i] == a[|a| - |w| + i];
        assert j == |a| - |w| + i;
      } else {
        assert lhs[k] == b[i - |w|];
        assert j - |a| == i - |w|;
      }
    }
  }
}
