/** Quoting text for `adb shell input text`: `_encode_adb_text` of framework/cli/daemon_commands.py,
    read back by the device shell (sections 2.2.1 and 2.2.2 of the POSIX.1-2017 Shell Command Language)
    and by `input text`. */
module AdbText {
  import opened Wrappers
  import opened Text

  const QUOTE := '\''

  function SpacesToPercentS(text: string): string {
    Replace(text, " ", "%s")
  }

  function EscapeQuotes(s: string): string {
    Replace(s, "'", "'\\''")
  }

  function Encode(text: string): string {
    "'" + EscapeQuotes(SpacesToPercentS(text)) + "'"
  }

  /** What `input text` does with its argument: every `%s`, left to right, becomes a space. */
  function DecodePercentS(s: string): string {
    Replace(s, "%s", " ")
  }

  /** Characters with no meaning to the shell outside quotes. */
  predicate PlainUnquoted(c: char) {
    AsciiWord(c) || c in "-./:@,+"
  }

  /** The words of a command line.  `word` is the word being read, if one has begun.  Inside single
      quotes every character stands for itself; a backslash outside quotes preserves the next
      character and, before a newline, disappears with it.  An unterminated quote, a trailing
      backslash or an unquoted character with a meaning of its own is no answer. */
  function Words(s: string, word: Option<string>, quoted: bool): Option<seq<string>>
    requires quoted ==> word.Some?
    decreases |s|
  {
    if s == "" then
      if quoted then None else Some(if word.Some? then [word.value] else [])
    else if quoted then
      if s[0] == QUOTE then Words(s[1..], word, false) else Words(s[1..], Some(word.value + [s[0]]), true)
    else if s[0] == QUOTE then Words(s[1..], Some(Begun(word)), true)
    else if s[0] == '\\' then
      if |s| == 1 then None
      else if s[1] == '\n' then Words(s[2..], word, false)
      else Words(s[2..], Some(Begun(word) + [s[1]]), false)
    else if s[0] == ' ' || s[0] == '\t' then
      var rest := Words(s[1..], None, false);
      if word.None? || rest.None? then rest else Some([word.value] + rest.value)
    else if PlainUnquoted(s[0]) then Words(s[1..], Some(Begun(word) + [s[0]]), false)
    else None
  }

  function Begun(word: Option<string>): string {
    if word.Some? then word.value else ""
  }

  /** The quoted body: read to the closing quote, it adds exactly the original characters. */
  lemma {:induction false} QuotedBody(e: string, word: string, rest: string)
    ensures Words(EscapeQuotes(e) + "'" + rest, Some(word), true) == Words(rest, Some(word + e), false)
    decreases |e|
  {
    var s := EscapeQuotes(e) + "'" + rest;
    if e == "" {
      assert s == "'" + rest && s[1..] == rest && word + e == word;
    } else {
      var tail := EscapeQuotes(e[1..]) + "'" + rest;
      assert e[..1] == [e[0]];
      QuotedBody(e[1..], word + [e[0]], rest);
      assert word + [e[0]] + e[1..] == word + e;
      if e[0] == QUOTE {
        assert StartsWith(e, "'");
        assert s == "'\\''" + tail;
        QuoteReads(word, tail);
      } else {
        assert s == [e[0]] + tail && s[1..] == tail;
      }
    }
  }

  /** Close, an escaped quote, reopen. */
  lemma QuoteReads(word: string, tail: string)
    ensures Words("'\\''" + tail, Some(word), true) == Words(tail, Some(word + ['\'']), true)
  {
    var s := "'\\''" + tail;
    var s1, s3 := s[1..], s[1..][2..];
    assert s1[0] == '\\' && s1[1] == QUOTE && s3[0] == QUOTE && s3[1..] == tail;
    assert Words(s, Some(word), true) == Words(s1, Some(word), false);
    assert Words(s1, Some(word), false) == Words(s3, Some(word + [QUOTE]), false);
  }

  /** What the first step does, said without `replace`: no space is left, text without a space is kept,
      and each space in between becomes %s. */
  lemma {:induction false} SpacesBecomePercentS(a: string, b: string)
    ensures ' ' !in SpacesToPercentS(a)
    ensures ' ' !in a ==> SpacesToPercentS(a) == a
    ensures SpacesToPercentS(a + " " + b) == SpacesToPercentS(a) + "%s" + SpacesToPercentS(b)
    decreases |a|
  {
    var s := a + " " + b;
    if a == "" {
      assert s == " " + b && s[..1] == " " && s[1..] == b;
      assert StartsWith(s, " ");
    } else {
      SpacesBecomePercentS(a[1..], b);
      assert s[1..] == a[1..] + " " + b;
      assert s[..1] == a[..1] == [a[0]];
      assert StartsWith(a, " ") <==> a[0] == ' ';
    }
  }

  /** Every text is read as exactly one word, the text with its spaces written %s; the word holds no
      space, and it is the text itself if that held none. */
  lemma {:induction false} EncodedIsOneWord(text: string)
    ensures Words(Encode(text), None, false) == Some([SpacesToPercentS(text)])
    ensures exists w :: Words(Encode(text), None, false) == Some([w]) && ' ' !in w && (' ' !in text ==> w == text)
  {
    SpacesBecomePercentS(text, "");
    var e := SpacesToPercentS(text);
    var s := Encode(text);
    assert s[1..] == EscapeQuotes(e) + "'" + "";
    QuotedBody(e, "", "");
    assert "" + e == e;
  }

  /** So is it as the last argument of the command line that adb hands to the device. */
  lemma {:induction false} CommandLineWords(text: string)
    ensures Words("input text " + Encode(text), None, false) == Some(["input", "text", SpacesToPercentS(text)])
  {
    EncodedIsOneWord(text);
    var tail := "text" + " " + Encode(text);
    WordThenRest("text", None, Encode(text));
    var e := SpacesToPercentS(text);
    assert Begun(None) + "text" == "text" && Begun(None) + "input" == "input";
    assert ["text"] + [e] == ["text", e];
    assert Words(tail, None, false).value == ["text"] + [e];
    WordThenRest("input", None, tail);
    assert "input text " + Encode(text) == "input" + " " + tail;
    assert ["input"] + ["text", e] == ["input", "text", e];
  }

  lemma {:induction false} WordThenRest(w: string, word: Option<string>, rest: string)
    requires w != "" || word.Some?
    requires forall i :: 0 <= i < |w| ==> AsciiWord(w[i])
    requires Words(rest, None, false).Some?
    ensures Words(w + " " + rest, word, false) == Some([Begun(word) + w] + Words(rest, None, false).value)
    decreases |w|
  {
    var s := w + " " + rest;
    if w == "" {
      assert s[1..] == rest && Begun(word) + w == Begun(word);
    } else {
      var longer := Begun(word) + [w[0]];
      WordThenRest(w[1..], Some(longer), rest);
      assert s[1..] == w[1..] + " " + rest;
      assert longer + w[1..] == Begun(word) + w;
      assert AsciiWord(s[0]);
    }
  }

  /** Decoding what was encoded is decoding the text: the spaces come back, and so does a space for
      each %s the text itself contained. */
  lemma {:induction false} DecodeOfSpaces(text: string)
    ensures DecodePercentS(SpacesToPercentS(text)) == DecodePercentS(text)
    decreases |text|
  {
    if text != "" {
      var s, tail := SpacesToPercentS(text), SpacesToPercentS(text[1..]);
      assert text[..1] == [text[0]];
      if text[0] == ' ' {
        DecodeOfSpaces(text[1..]);
        assert StartsWith(text, " ") && s == "%s" + tail;
        assert s[..2] == "%s" && s[2..] == tail;
        assert !StartsWith(text, "%s") by {
          if |text| >= 2 {
            assert text[..2][0] == ' ';
          }
        }
      } else {
        assert !StartsWith(text, " ") && s == [text[0]] + tail;
        if StartsWith(text, "%s") {
          PercentSKept(text);
          DecodeOfSpaces(text[2..]);
          assert s == "%s" + SpacesToPercentS(text[2..]);
          assert s[..2] == "%s" && s[2..] == SpacesToPercentS(text[2..]);
        } else {
          DecodeOfSpaces(text[1..]);
          NoNewPercentS(text);
          assert s[1..] == tail;
        }
      }
    }
  }

  lemma PercentSKept(text: string)
    requires StartsWith(text, "%s")
    ensures SpacesToPercentS(text) == "%s" + SpacesToPercentS(text[2..])
  {
    assert text[..2][0] == '%' && text[..2][1] == 's';
    assert text[..1] == "%" && text[1..][..1] == "s" && text[1..][1..] == text[2..];
    assert SpacesToPercentS(text[1..]) == "s" + SpacesToPercentS(text[2..]);
    assert "%" + ("s" + SpacesToPercentS(text[2..])) == "%s" + SpacesToPercentS(text[2..]);
  }

  lemma NoNewPercentS(text: string)
    requires text != "" && text[0] != ' ' && !StartsWith(text, "%s")
    ensures !StartsWith(SpacesToPercentS(text), "%s")
  {
    var s, tail := SpacesToPercentS(text), SpacesToPercentS(text[1..]);
    assert text[..1] == [text[0]];
    assert s == [text[0]] + tail;
    if |s| >= 2 {
      assert s[..2][0] == text[0] && s[..2][1] == tail[0];
      assert text[1..][..1] == [text[1]];
      assert tail[0] == if text[1] == ' ' then '%' else text[1];
      assert text[..2][0] == text[0] && text[..2][1] == text[1];
      assert text[..2] == [text[0], text[1]];
    }
  }

  /** `input text` types the text back exactly when it contains no literal %s. */
  lemma {:induction false} RoundTrip(text: string)
    ensures DecodePercentS(SpacesToPercentS(text)) == text <==> !Occurs(text, "%s")
  {
    DecodeOfSpaces(text);
    ReplaceShortens(text);
  }

  lemma {:induction false} ReplaceShortens(text: string)
    ensures if Occurs(text, "%s") then |DecodePercentS(text)| < |text| else DecodePercentS(text) == text
    decreases |text|
  {
    if text != "" {
      if StartsWith(text, "%s") {
        ReplaceShortens(text[2..]);
      } else {
        ReplaceShortens(text[1..]);
      }
    }
  }
}
