/** Character classes of Python's `str` and a few string helpers. */
module Text {
  /** Python's `\d`, `\w` and `str.strip` follow the Unicode tables, which grow with every Python
      release.  The model is proved for every table that agrees with ASCII on ASCII. */
  datatype Table = Table(digit: char -> bool, word: char -> bool, space: char -> bool)

  predicate AsciiDigit(c: char) {
    '0' <= c <= '9'
  }

  predicate AsciiWord(c: char) {
    AsciiDigit(c) || 'a' <= c <= 'z' || 'A' <= c <= 'Z' || c == '_'
  }

  predicate AsciiSpace(c: char) {
    '\t' <= c <= '\r' || '\U{1c}' <= c <= ' '
  }

  ghost predicate AgreesWithAscii(t: Table) {
    forall c: char :: c < '\U{80}' ==>
      t.digit(c) == AsciiDigit(c) && t.word(c) == AsciiWord(c) && t.space(c) == AsciiSpace(c)
  }

  type CharTable = t: Table | AgreesWithAscii(t) witness Table(AsciiDigit, AsciiWord, AsciiSpace)

  /** `str.strip`. */
  function Strip(t: CharTable, s: string): string {
    StripRight(t, StripLeft(t, s))
  }

  function StripLeft(t: CharTable, s: string): string {
    if s != "" && t.space(s[0]) then StripLeft(t, s[1..]) else s
  }

  function StripRight(t: CharTable, s: string): string {
    if s != "" && t.space(s[|s| - 1]) then StripRight(t, s[..|s| - 1]) else s
  }

  predicate StartsWith(s: string, prefix: string) {
    |prefix| <= |s| && s[..|prefix|] == prefix
  }

  /** Python's `s.replace(needle, repl)`: left to right, not overlapping. */
  function Replace(s: string, needle: string, repl: string): string
    requires needle != ""
  {
    if s == "" then ""
    else if StartsWith(s, needle) then repl + Replace(s[|needle|..], needle, repl)
    else [s[0]] + Replace(s[1..], needle, repl)
  }

  predicate Occurs(s: string, needle: string) {
    StartsWith(s, needle) || (s != "" && Occurs(s[1..], needle))
  }

  /** It stands somewhere in `s`. */
  lemma {:induction false} OccursIff(s: string, needle: string)
    ensures Occurs(s, needle) <==> exists i :: 0 <= i <= |s| && StartsWith(s[i..], needle)
  {
    assert s[0..] == s;
    if s != "" {
      OccursIff(s[1..], needle);
      forall i | 1 <= i <= |s|
        ensures s[1..][i - 1..] == s[i..]
      {
      }
      if Occurs(s[1..], needle) {
        var i :| 0 <= i <= |s[1..]| && StartsWith(s[1..][i..], needle);
        assert StartsWith(s[i + 1..], needle);
      }
      if i :| 1 <= i <= |s| && StartsWith(s[i..], needle) {
        assert StartsWith(s[1..][i - 1..], needle);
      }
    }
  }

  /** `strip` cuts white space at both ends and nothing else. */
  lemma {:induction false} StripTrims(t: CharTable, s: string)
    ensures var r := Strip(t, s);
            && (r != "" ==> !t.space(r[0]) && !t.space(r[|r| - 1]))
            && exists i, j :: 0 <= i <= j <= |s| && r == s[i..j]
                 && (forall k :: 0 <= k < i || j <= k < |s| ==> t.space(s[k]))
  {
    var i := StripLeftCuts(t, s);
    var left := StripLeft(t, s);
    var j := StripRightCuts(t, left);
    var r := Strip(t, s);
    assert r == s[i..i + j];
    if r != "" {
      assert r[0] == left[0];
    }
    forall k | i + j <= k < |s|
      ensures t.space(s[k])
    {
      assert left[k - i] == s[k];
    }
  }

  lemma {:induction false} StripLeftCuts(t: CharTable, s: string) returns (i: nat)
    ensures i <= |s| && StripLeft(t, s) == s[i..] && (forall k :: 0 <= k < i ==> t.space(s[k]))
    ensures i < |s| ==> !t.space(s[i])
  {
    i := 0;
    if s != "" && t.space(s[0]) {
      var j := StripLeftCuts(t, s[1..]);
      i := j + 1;
      assert forall k :: 1 <= k < |s| ==> s[k] == s[1..][k - 1];
    }
  }

  lemma {:induction false} StripRightCuts(t: CharTable, s: string) returns (j: nat)
    ensures j <= |s| && StripRight(t, s) == s[..j] && (forall k :: j <= k < |s| ==> t.space(s[k]))
    ensures j > 0 ==> !t.space(s[j - 1])
  {
    j := |s|;
    if s != "" && t.space(s[|s| - 1]) {
      j := StripRightCuts(t, s[..|s| - 1]);
    }
  }

  function CountChar(c: char, s: string): nat {
    if s == "" then 0 else (if s[0] == c then 1 else 0) + CountChar(c, s[1..])
  }

  lemma {:induction false} CountIsMultiplicity(c: char, s: string)
    ensures CountChar(c, s) == multiset(s)[c]
  {
    if s != "" {
      CountIsMultiplicity(c, s[1..]);
      assert s == [s[0]] + s[1..];
    }
  }

  lemma {:induction false} CountAppend(c: char, a: string, b: string)
    ensures CountChar(c, a + b) == CountChar(c, a) + CountChar(c, b)
  {
    if a == "" {
      assert a + b == b;
    } else {
      assert (a + b)[1..] == a[1..] + b;
      CountAppend(c, a[1..], b);
    }
  }
}
