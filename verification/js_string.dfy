/** The JavaScript string operations the core relies on, over strings of code points. */
module JsString {
  import opened Seqs

  /** How `String.prototype.slice` resolves one index argument against a string
      of length `len`: negative values count from the end, and the result is
      clamped to `0..len`. */
  function RelativeIndex(i: int, len: nat): (r: nat)
    ensures r <= len
    ensures 0 <= i <= len ==> r == i
    ensures i < 0 && len + i >= 0 ==> r == len + i
    ensures i + len < 0 ==> r == 0
    ensures i > len ==> r == len
  {
    if i < 0 then (if len + i < 0 then 0 else len + i)
    else if i > len then len
    else i
  }

  /** `String.prototype.slice` with both indices: the code points between the
      resolved start and end, or the empty string when the range is empty. */
  function Slice(s: string, start: int, end: int): (r: string)
    ensures |r| <= |s|
    ensures RelativeIndex(start, |s|) < RelativeIndex(end, |s|) ==>
              r == s[RelativeIndex(start, |s|)..RelativeIndex(end, |s|)]
    ensures RelativeIndex(start, |s|) >= RelativeIndex(end, |s|) ==> r == ""
  {
    var from := RelativeIndex(start, |s|);
    var to := RelativeIndex(end, |s|);
    if from < to then s[from..to] else ""
  }

  /** `String.prototype.slice` with only a start index: the suffix of `s` that
      begins at the resolved start. */
  function SliceFrom(s: string, start: int): (r: string)
    ensures |r| == |s| - RelativeIndex(start, |s|)
    ensures IsSuffix(r, s)
  {
    Slice(s, start, |s|)
  }

  /** Slicing from index -4 gives the last four code points, or all of `s` when
      it is shorter. */
  lemma LastFour(s: string)
    ensures |s| >= 4 ==> SliceFrom(s, -4) == s[|s| - 4..]
    ensures |s| < 4 ==> SliceFrom(s, -4) == s
  {
  }

  /** Removes every `#` from `s`, keeping all other code points in order. */
  function StripHashes(s: string): (r: string)
    ensures forall i :: 0 <= i < |r| ==> r[i] != '#'
    ensures forall c :: c != '#' ==> (c in r <==> c in s)
    ensures |r| <= |s|
    ensures (forall i :: 0 <= i < |s| ==> s[i] != '#') ==> r == s
  {
    if |s| == 0 then ""
    else (if s[0] == '#' then "" else [s[0]]) + StripHashes(s[1..])
  }

  /** Removing hashes distributes over concatenation. */
  lemma {:induction false} StripHashesAppend(a: string, b: string)
    ensures StripHashes(a + b) == StripHashes(a) + StripHashes(b)
  {
    if |a| == 0 {
      assert a + b == b;
    } else {
      assert (a + b)[1..] == a[1..] + b;
      StripHashesAppend(a[1..], b);
    }
  }
}
