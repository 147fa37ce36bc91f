/** `validChannelName`: a channel name is the lone default name `_`, or one to
    twelve code points each of which is a Unicode letter or number. */
module ChannelNames {

  /** ASCII letters and digits: exactly the code points below 128 that belong to
      the Unicode classes L (letter) and N (number). */
  predicate AsciiLetterOrDigit(c: char) {
    ('a' <= c <= 'z') || ('A' <= c <= 'Z') || ('0' <= c <= '9')
  }

  predicate AgreesOnAscii(isLN: char -> bool) {
    forall c: char :: (c as int) < 128 ==> (isLN(c) <==> AsciiLetterOrDigit(c))
  }

  /** The regex class `[\p{L}\p{N}]`. Which non-ASCII code points belong to it is
      left abstract; on ASCII it is pinned down exactly. */
  type CharClass = isLN: char -> bool | AgreesOnAscii(isLN) witness AsciiLetterOrDigit

  const MaxNameLength := 12
  const DefaultName := "_"

  /** How many leading code points of `s` belong to the class: the extent of a
      greedy `[\p{L}\p{N}]*` match anchored at the start. */
  function ClassRun(s: string, isLN: CharClass): (n: nat)
    ensures n <= |s|
    ensures forall i :: 0 <= i < n ==> isLN(s[i])
    ensures n < |s| ==> !isLN(s[n])
  {
    if |s| == 0 || !isLN(s[0]) then 0 else 1 + ClassRun(s[1..], isLN)
  }

  /** The whole-string pattern: either one to twelve code points of the class,
      or the lone default name. The class run is matched greedily and must
      reach the end of the name. */
  predicate MatchesNamePattern(name: string, isLN: CharClass): (m: bool)
    ensures m <==> name == DefaultName
                   || (1 <= |name| <= MaxNameLength && forall i :: 0 <= i < |name| ==> isLN(name[i]))
  {
    var run := ClassRun(name, isLN);
    (run == |name| && 1 <= run <= MaxNameLength) || name == DefaultName
  }

  function ValidChannelName(name: string, isLN: CharClass): (ok: bool)
    ensures ok <==> name == DefaultName
                    || (1 <= |name| <= MaxNameLength && forall i :: 0 <= i < |name| ==> isLN(name[i]))
  {
    if |name| == 1 && name == DefaultName then true
    else MatchesNamePattern(name, isLN)
  }

  lemma EmptyNameRejected(isLN: CharClass)
    ensures !ValidChannelName("", isLN)
  {
  }

  lemma LongNameRejected(name: string, isLN: CharClass)
    requires |name| > MaxNameLength
    ensures !ValidChannelName(name, isLN)
  {
  }

  /** Any ASCII code point other than a letter or digit -- `#`, `_`, a space, any
      punctuation -- disqualifies a name, except for the lone default name `_`. */
  lemma AsciiSymbolRejected(name: string, i: nat, isLN: CharClass)
    requires i < |name| && (name[i] as int) < 128 && !AsciiLetterOrDigit(name[i])
    requires name != DefaultName
    ensures !ValidChannelName(name, isLN)
  {
  }

  /** A name containing `_` is valid only when it is exactly `_`. */
  lemma UnderscoreOnlyAlone(name: string, isLN: CharClass)
    requires '_' in name
    ensures ValidChannelName(name, isLN) <==> name == DefaultName
  {
    var i :| 0 <= i < |name| && name[i] == '_';
    if name != DefaultName {
      AsciiSymbolRejected(name, i, isLN);
    }
  }

  /** A one-to-twelve code point name made of ASCII letters and digits is valid
      whatever the class does beyond ASCII. */
  lemma AsciiNameAccepted(name: string, isLN: CharClass)
    requires 1 <= |name| <= MaxNameLength
    requires forall i :: 0 <= i < |name| ==> AsciiLetterOrDigit(name[i])
    ensures ValidChannelName(name, isLN)
  {
    forall i | 0 <= i < |name|
      ensures isLN(name[i])
    {
      assert AsciiLetterOrDigit(name[i]);
    }
  }

  lemma NameExamples(isLN: CharClass)
    ensures ValidChannelName("general", isLN)
    ensures ValidChannelName("zone1", isLN)
    ensures !ValidChannelName("bad!name", isLN)
    ensures !ValidChannelName("#general", isLN)
  {
    AsciiNameAccepted("general", isLN);
    AsciiNameAccepted("zone1", isLN);
    AsciiSymbolRejected("bad!name", 3, isLN);
    AsciiSymbolRejected("#general", 0, isLN);
  }
}
