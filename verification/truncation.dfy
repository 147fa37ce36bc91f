/** `truncateMiddle`: shorten a long string to its head and tail around an ellipsis. */
module Truncation {
  import opened Seqs
  import opened JsString

  const Ellipsis := "..."

  /** The bound used when the caller gives none. */
  const DefaultMaxLength := 20

  /** The source as written: the head and the tail each get half of what the
      bound leaves after the ellipsis, rounded down, and the tail is taken with
      a negative slice index. Dafny's `/` rounds towards negative infinity for a
      positive divisor, as `Math.floor` does. */
  function TruncateMiddle(s: string, maxLength: int): (r: string)
    ensures |s| <= maxLength ==> r == s
    ensures maxLength >= 5 && |s| > maxLength ==>
              var h := (maxLength - 3) / 2;
              0 < h <= |s| && r == s[..h] + Ellipsis + s[|s| - h..]
    ensures maxLength >= 5 ==> |r| <= maxLength
  {
    if |s| <= maxLength then s
    else
      var half := (maxLength - 3) / 2;
      Slice(s, 0, half) + Ellipsis + SliceFrom(s, -half)
  }

  /** For a sensible bound the output keeps a prefix and a suffix of the input,
      of equal length, around the ellipsis, and never exceeds the bound. */
  lemma TruncateKeepsEnds(s: string, maxLength: int)
    requires maxLength >= 5 && |s| > maxLength
    ensures var r := TruncateMiddle(s, maxLength);
            var h := (maxLength - 3) / 2;
            |r| == 2 * h + 3 && |r| <= maxLength
            && r[..h] == s[..h]
            && r[h..h + 3] == Ellipsis
            && IsSuffix(r[h + 3..], s) && |r[h + 3..]| == h
  {
    var r := TruncateMiddle(s, maxLength);
    var h := (maxLength - 3) / 2;
    assert r == s[..h] + Ellipsis + s[|s| - h..];
    assert r[h + 3..] == s[|s| - h..];
  }

  /** With a bound of 3 or 4 the half-length is 0, `slice(-0)` is `slice(0)`, and
      the "truncated" string is the ellipsis followed by the whole input: longer
      than the input itself. */
  lemma TruncateMiddleOverlong(s: string, maxLength: int)
    requires maxLength == 3 || maxLength == 4
    requires |s| > maxLength
    ensures TruncateMiddle(s, maxLength) == Ellipsis + s
    ensures |TruncateMiddle(s, maxLength)| > |s|
  {
    assert Slice(s, 0, 0) == "";
    assert SliceFrom(s, 0) == s;
  }

  lemma TruncateMiddleOverlongExample()
    ensures TruncateMiddle("abcdef", 4) == "...abcdef"
  {
    TruncateMiddleOverlong("abcdef", 4);
  }

  /** The evidently intended behaviour: a zero-length tail is empty, so every
      bound of at least 3 (the ellipsis itself) is respected. */
  function TruncateMiddleBounded(s: string, maxLength: int): (r: string)
    ensures |s| <= maxLength ==> r == s
    ensures maxLength >= 3 ==> |r| <= maxLength
    ensures maxLength >= 3 && |s| > maxLength ==>
              var h := (maxLength - 3) / 2;
              r == s[..h] + Ellipsis + s[|s| - h..]
  {
    if |s| <= maxLength then s
    else
      var half := (maxLength - 3) / 2;
      var tail := if half > 0 then SliceFrom(s, -half) else "";
      Slice(s, 0, half) + Ellipsis + tail
  }

  /** The correction changes nothing for bounds of 5 and above. */
  lemma BoundedAgreesFromFive(s: string, maxLength: int)
    requires maxLength >= 5
    ensures TruncateMiddleBounded(s, maxLength) == TruncateMiddle(s, maxLength)
  {
  }

  /** The one-argument form, with the default bound of 20: short strings are
      kept, longer ones become their first 8 and last 8 code points around the
      ellipsis, 19 code points in all. */
  lemma TruncateDefault(s: string)
    ensures |s| <= DefaultMaxLength ==> TruncateMiddle(s, DefaultMaxLength) == s
    ensures |s| > DefaultMaxLength ==>
              var r := TruncateMiddle(s, DefaultMaxLength);
              |r| == 19 && r[..8] == s[..8] && r[8..11] == Ellipsis && r[11..] == s[|s| - 8..]
  {
    if |s| > DefaultMaxLength {
      TruncateKeepsEnds(s, DefaultMaxLength);
    }
  }
}
