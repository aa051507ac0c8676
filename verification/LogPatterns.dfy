/** Message normalisation and its inverse, the pattern generator, of
    framework/api_analyzer/api_log_analyzer.py (class LogAnalyzer). */
module LogPatterns {
  import opened Wrappers
  import opened Text
  import opened Regex

  datatype Slot = Number | HexAddress | Time | Uuid

  /** The name that stands for the slot in a normalised message, without its braces. */
  function SlotName(k: Slot): string {
    match k
    case Number => "number"
    case HexAddress => "hex"
    case Time => "time"
    case Uuid => "uuid"
  }

  function Placeholder(k: Slot): (p: string)
    ensures p == "{" + SlotName(k) + "}"
  {
    match k
    case Number => "{number}"
    case HexAddress => "{hex}"
    case Time => "{time}"
    case Uuid => "{uuid}"
  }

  /** The pattern the normaliser looks for, and the generator puts back, as text. */
  function SlotRegex(k: Slot): string {
    match k
    case Number => "\\d+"
    case HexAddress => "0x[0-9a-fA-F]+"
    case Time => "\\d{2}:\\d{2}:\\d{2}"
    case Uuid => "[a-f0-9-]{36}"
  }

  function Lit(c: char): Item {
    Item(Literal(c), Times(1))
  }

  /** The same pattern, parsed. */
  function SlotItems(k: Slot): seq<Item> {
    match k
    case Number => [Item(Digit, OneOrMore)]
    case HexAddress => [Lit('0'), Lit('x'), Item(Hex, OneOrMore)]
    case Time => [Item(Digit, Times(2)), Lit(':'), Item(Digit, Times(2)), Lit(':'), Item(Digit, Times(2))]
    case Uuid => [Item(HexDash, Times(36))]
  }

  /** Which texts the four patterns match. */
  lemma SlotLanguage(t: CharTable, s: string)
    ensures FullMatch(t, SlotItems(Number), s) <==> s != "" && AllIn(t, Digit, s)
    ensures FullMatch(t, SlotItems(HexAddress), s) <==> |s| >= 3 && s[0] == '0' && s[1] == 'x' && AllIn(t, Hex, s[2..])
    ensures FullMatch(t, SlotItems(Time), s) <==>
            && |s| == 8 && s[2] == ':' && s[5] == ':'
            && t.digit(s[0]) && t.digit(s[1]) && t.digit(s[3]) && t.digit(s[4]) && t.digit(s[6]) && t.digit(s[7])
    ensures FullMatch(t, SlotItems(Uuid), s) <==> |s| == 36 && AllIn(t, HexDash, s)
  {
    OpenMatch(t, Digit, s);
    OpenMatch(t, HexDash, s);
    HexLanguage(t, s);
    TimeLanguage(t, s);
    assert s[..|s|] == s;
    assert SlotItems(Uuid)[1..] == [];
  }

  lemma OpenMatch(t: CharTable, cls: Class, s: string)
    ensures FullMatch(t, [Item(cls, OneOrMore)], s) <==> s != "" && AllIn(t, cls, s)
  {
    var items := [Item(cls, OneOrMore)];
    assert items[1..] == [] && s[..|s|] == s;
    if FullMatch(t, items, s) {
      var n := FullMatchHead(t, items, s);
      assert n == |s|;
    } else if s != "" && AllIn(t, cls, s) {
      FullMatchFrom(t, items, s, |s|);
    }
  }

  lemma HexLanguage(t: CharTable, s: string)
    ensures FullMatch(t, SlotItems(HexAddress), s) <==> |s| >= 3 && s[0] == '0' && s[1] == 'x' && AllIn(t, Hex, s[2..])
  {
    var items := SlotItems(HexAddress);
    assert items[1..] == [Lit('x'), Item(Hex, OneOrMore)] && items[1..][1..] == [Item(Hex, OneOrMore)];
    if |s| >= 2 {
      assert s[1..][1..] == s[2..] && s[..1] == [s[0]] && s[1..][..1] == [s[1]];
      OpenMatch(t, Hex, s[2..]);
    }
  }

  lemma TimeLanguage(t: CharTable, s: string)
    ensures FullMatch(t, SlotItems(Time), s) <==>
            && |s| == 8 && s[2] == ':' && s[5] == ':'
            && t.digit(s[0]) && t.digit(s[1]) && t.digit(s[3]) && t.digit(s[4]) && t.digit(s[6]) && t.digit(s[7])
  {
    var two, colon := Item(Digit, Times(2)), Lit(':');
    var i0 := SlotItems(Time);
    var i1, i2, i3, i4 := [colon, two, colon, two], [two, colon, two], [colon, two], [two];
    assert i0[1..] == i1 && i1[1..] == i2 && i2[1..] == i3 && i3[1..] == i4 && i4[1..] == [];
    TwoDigits(t, i0, s);
    if |s| >= 2 {
      Colon(t, i1, s[2..]);
    }
    if |s| >= 3 {
      TwoDigits(t, i2, s[3..]);
      assert s[2..][1..] == s[3..];
    }
    if |s| >= 5 {
      Colon(t, i3, s[5..]);
      assert s[3..][2..] == s[5..];
    }
    if |s| >= 6 {
      TwoDigits(t, i4, s[6..]);
      assert s[5..][1..] == s[6..];
    }
    if |s| >= 8 {
      assert s[6..][2..] == s[8..];
    }
  }

  lemma TwoDigits(t: CharTable, items: seq<Item>, s: string)
    requires items != [] && items[0] == Item(Digit, Times(2))
    ensures FullMatch(t, items, s) <==> |s| >= 2 && t.digit(s[0]) && t.digit(s[1]) && FullMatch(t, items[1..], s[2..])
  {
    if |s| >= 2 {
      assert s[..2] == [s[0], s[1]];
    }
  }

  lemma Colon(t: CharTable, items: seq<Item>, s: string)
    requires items != [] && items[0] == Lit(':')
    ensures FullMatch(t, items, s) <==> |s| >= 1 && s[0] == ':' && FullMatch(t, items[1..], s[1..])
  {
    if |s| >= 1 {
      assert s[..1] == [s[0]];
    }
  }

  // ---------------------------------------------------------------- _normalize_message

  function SubSlot(t: CharTable, k: Slot, s: string): string {
    Sub(t, SlotItems(k), Placeholder(k), s)
  }

  function NormalizeMessage(t: CharTable, message: string): string {
    SubSlot(t, Uuid, SubSlot(t, Time, SubSlot(t, HexAddress, SubSlot(t, Number, message))))
  }

  // ---------------------------------------------------------------- _create_regex

  /** The characters `re.escape` puts a backslash in front of. */
  predicate Special(c: char) {
    c in {'(', ')', '[', ']', '{', '}', '?', '*', '+', '-', '|', '^', '$', '\\', '.', '&', '~', '#',
          ' ', '\t', '\n', '\r', '\U{0b}', '\U{0c}'}
  }

  lemma SpecialListed(c: char)
    ensures Special(c) <==> c in "()[]{}?*+-|^$\\.&~# \t\n\r\U{0b}\U{0c}"
  {
  }

  function EscapeChar(c: char): string {
    if Special(c) then ['\\', c] else [c]
  }

  function Escape(s: string): string {
    if s == "" then "" else EscapeChar(s[0]) + Escape(s[1..])
  }

  function EscapedPlaceholder(k: Slot): string {
    "\\{" + SlotName(k) + "\\}"
  }

  function PutBack(k: Slot, pattern: string): string {
    Replace(pattern, EscapedPlaceholder(k), SlotRegex(k))
  }

  function CreateRegex(normalized: string): string {
    PutBack(Uuid, PutBack(Time, PutBack(HexAddress, PutBack(Number, Escape(normalized)))))
  }

  // ---------------------------------------------------------------- reading a pattern text

  predicate Quantifier(c: char) {
    c == '+' || c == '*' || c == '?' || c == '{'
  }

  /** The quantifier at the head of `p` and its length: `+`, `{2}` and `{36}` are the ones generated;
      another one is outside the fragment. */
  function ReadRepeat(p: string): Option<(Repeat, nat)> {
    if p == "" || !Quantifier(p[0]) then Some((Times(1), 0))
    else if p[0] == '+' then Some((OneOrMore, 1))
    else if StartsWith(p, "{2}") then Some((Times(2), 3))
    else if StartsWith(p, "{36}") then Some((Times(36), 4))
    else None
  }

  /** The character class at the head of `p` and its length. */
  function ReadClass(p: string): Option<(Class, nat)>
    requires p != ""
  {
    if p[0] == '\\' then
      if |p| == 1 then None
      else if p[1] == 'd' then Some((Digit, 2))
      else if AsciiWord(p[1]) then None
      else Some((Literal(p[1]), 2))
    else if StartsWith(p, "[0-9a-fA-F]") then Some((Hex, 11))
    else if StartsWith(p, "[a-f0-9-]") then Some((HexDash, 9))
    else if p[0] in {'(', ')', '[', ']', '{', '}', '?', '*', '+', '|', '^', '$', '.'} then None
    else Some((Literal(p[0]), 1))
  }

  /** One class with its quantifier at the head of `p`, and the text after them. */
  function ReadItem(p: string): (r: Option<(Item, string)>)
    requires p != ""
    ensures r.Some? ==> |r.value.1| < |p|
  {
    var cls := ReadClass(p);
    if cls.None? || cls.value.1 > |p| || cls.value.1 == 0 then None
    else
      var q := p[cls.value.1..];
      var rep := ReadRepeat(q);
      if rep.None? || rep.value.1 > |q| then None
      else Some((Item(cls.value.0, rep.value.0), q[rep.value.1..]))
  }

  /** A pattern text as Python's `re` compiles it, on the fragment. */
  function Parse(p: string): Option<seq<Item>>
    decreases |p|
  {
    if p == "" then Some([])
    else
      var head := ReadItem(p);
      if head.None? then None
      else
        var tail := Parse(head.value.1);
        if tail.None? then None else Some([head.value.0] + tail.value)
  }

  // ---------------------------------------------------------------- tokens of a normalised message

  datatype Token = Char(c: char) | Hole(slot: Slot)

  /** The placeholder at the head of `s`; at most one can be there. */
  function HeadSlot(s: string): (r: Option<Slot>)
    ensures r.Some? ==> StartsWith(s, Placeholder(r.value))
    ensures r.None? ==> forall k :: !StartsWith(s, Placeholder(k))
  {
    if StartsWith(s, "{number}") then Some(Number)
    else if StartsWith(s, "{hex}") then Some(HexAddress)
    else if StartsWith(s, "{time}") then Some(Time)
    else if StartsWith(s, "{uuid}") then Some(Uuid)
    else None
  }

  function Tokens(s: string): seq<Token>
    decreases |s|
  {
    if s == "" then []
    else if HeadSlot(s).Some? then
      var k := HeadSlot(s).value;
      [Hole(k)] + Tokens(s[|Placeholder(k)|..])
    else [Char(s[0])] + Tokens(s[1..])
  }

  // ---------------------------------------------------------------- the pattern of a normalised message

  function TokenItems(tok: Token): seq<Item> {
    match tok
    case Char(c) => [Lit(c)]
    case Hole(k) => SlotItems(k)
  }

  function Items(toks: seq<Token>): seq<Item> {
    if toks == [] then []
    else TokenItems(toks[0]) + Items(toks[1..])
  }

  /** The escaped text while the slots in `done` have been put back. */
  function RenderToken(done: set<Slot>, tok: Token): (r: string)
    ensures r != "" && !Quantifier(r[0])
    ensures 'a' <= r[0] <= 'z' ==> tok == Char(r[0]) && r == [r[0]]
    ensures |r| >= 2 && r[0] == '\\' && r[1] == '}' ==> tok == Char('}')
  {
    match tok
    case Char(c) => EscapeChar(c)
    case Hole(k) => if k in done then SlotRegex(k) else EscapedPlaceholder(k)
  }

  function Render(done: set<Slot>, toks: seq<Token>): (r: string)
    ensures r != "" ==> !Quantifier(r[0])
  {
    if toks == [] then "" else RenderToken(done, toks[0]) + Render(done, toks[1..])
  }

  lemma HeadSlotUnique(s: string, k: Slot)
    requires StartsWith(s, Placeholder(k))
    ensures HeadSlot(s) == Some(k)
  {
    var j := HeadSlot(s).value;
    assert s[..|Placeholder(j)|][1] == Placeholder(j)[1] == s[1];
    assert s[..|Placeholder(k)|][1] == Placeholder(k)[1];
  }

  lemma {:induction false} EscapeAppend(a: string, b: string)
    ensures Escape(a + b) == Escape(a) + Escape(b)
  {
    if a == "" {
      assert a + b == b;
    } else {
      assert (a + b)[1..] == a[1..] + b;
      EscapeAppend(a[1..], b);
    }
  }

  predicate Letters(s: string) {
    forall i :: 0 <= i < |s| ==> 'a' <= s[i] <= 'z'
  }

  /** Letters are not escaped. */
  lemma {:induction false} EscapeLetters(s: string)
    requires Letters(s)
    ensures Escape(s) == s
  {
    if s != "" {
      EscapeLetters(s[1..]);
    }
  }

  lemma EscapePlaceholder(k: Slot)
    ensures Escape(Placeholder(k)) == EscapedPlaceholder(k)
  {
    EscapeBraced(SlotName(k));
  }

  lemma EscapeBraced(name: string)
    requires Letters(name)
    ensures Escape("{" + name + "}") == "\\{" + name + "\\}"
  {
    EscapeAppend("{" + name, "}");
    EscapeAppend("{", name);
    EscapeLetters(name);
    EscapeOne('{');
    EscapeOne('}');
  }

  lemma EscapeOne(c: char)
    ensures Escape([c]) == EscapeChar(c)
  {
    assert [c][1..] == "";
  }

  lemma {:induction false} EscapeIsRender(s: string)
    ensures Escape(s) == Render({}, Tokens(s))
    decreases |s|
  {
    if s != "" {
      if HeadSlot(s).Some? {
        var k := HeadSlot(s).value;
        EscapeIsRender(s[|Placeholder(k)|..]);
        EscapeHead(k, s);
      } else {
        EscapeIsRender(s[1..]);
      }
    }
  }

  lemma EscapeHead(k: Slot, s: string)
    requires StartsWith(s, Placeholder(k))
    ensures Escape(s) == EscapedPlaceholder(k) + Escape(s[|Placeholder(k)|..])
  {
    var p := Placeholder(k);
    EscapePlaceholder(k);
    EscapeAppend(p, s[|p|..]);
    assert s == p + s[|p|..];
  }

  /** Text in which no occurrence of the needle starts is copied by `replace`. */
  lemma {:induction false} ReplaceCopies(w: string, rest: string, needle: string, repl: string)
    requires needle != ""
    requires forall i :: 0 <= i < |w| ==> !StartsWith(w[i..] + rest, needle)
    ensures Replace(w + rest, needle, repl) == w + Replace(rest, needle, repl)
  {
    if w == "" {
      assert w + rest == rest;
    } else {
      assert w[0..] == w;
      assert (w + rest)[1..] == w[1..] + rest;
      forall i | 0 <= i < |w[1..]|
        ensures !StartsWith(w[1..][i..] + rest, needle)
      {
        assert w[1..][i..] == w[i + 1..];
      }
      ReplaceCopies(w[1..], rest, needle, repl);
    }
  }

  /** A rendering that spells a name and a closing brace comes from a text that does. */
  lemma {:induction false} SpelledOut(done: set<Slot>, s: string, name: string)
    requires Letters(name)
    requires StartsWith(Render(done, Tokens(s)), name + "\\}")
    ensures StartsWith(s, name + "}")
    decreases |name|
  {
    var r, p := Render(done, Tokens(s)), name + "\\}";
    assert r[0] == r[..|p|][0] == p[0];
    var head := RenderToken(done, Tokens(s)[0]);
    if name == "" {
      assert r[1] == r[..|p|][1] == '}';
      assert |head| >= 2;
      assert r[1] == head[1];
      assert Tokens(s)[0] == Char('}');
      assert s[..1] == "}";
    } else {
      assert r[0] == head[0] && head == [name[0]];
      assert Tokens(s)[0] == Char(name[0]) && s[0] == name[0];
      assert r[1..] == Render(done, Tokens(s[1..]));
      assert p[1..] == name[1..] + "\\}";
      assert r[1..][..|p| - 1] == r[..|p|][1..];
      SpelledOut(done, s[1..], name[1..]);
      PrefixCons(s, name[1..] + "}");
      assert name + "}" == [name[0]] + (name[1..] + "}");
    }
  }

  /** Putting back one slot replaces exactly its own placeholders. */
  lemma {:induction false} PutBackRender(k: Slot, done: set<Slot>, s: string)
    requires k !in done
    ensures PutBack(k, Render(done, Tokens(s))) == Render(done + {k}, Tokens(s))
    decreases |s|
  {
    if s != "" {
      var tok := Tokens(s)[0];
      var tail := if HeadSlot(s).Some? then s[|Placeholder(HeadSlot(s).value)|..] else s[1..];
      assert Tokens(s)[1..] == Tokens(tail);
      PutBackRender(k, done, tail);
      var w, rest, needle := RenderToken(done, tok), Render(done, Tokens(tail)), EscapedPlaceholder(k);
      if tok == Hole(k) {
        assert (w + rest)[..|needle|] == needle && (w + rest)[|needle|..] == rest;
      } else {
        forall i | 0 <= i < |w|
          ensures !StartsWith(w[i..] + rest, needle)
        {
          NoNeedleInside(k, done, s, i);
        }
        ReplaceCopies(w, rest, needle, SlotRegex(k));
        assert RenderToken(done + {k}, tok) == w;
      }
    }
  }

  /** A slot's own text, escaped or put back, holds no other slot's escaped placeholder. */
  lemma NoBraceEscape(j: Slot, i: nat)
    requires i < |SlotRegex(j)|
    ensures SlotRegex(j)[i] == '\\' ==> i + 1 < |SlotRegex(j)| && SlotRegex(j)[i + 1] == 'd'
  {
    match j {
      case Number => assert i == 0 || i == 1 || i == 2;
      case HexAddress =>
      case Time =>
      case Uuid =>
    }
  }

  lemma NoNeedleInHole(k: Slot, j: Slot, w: string, rest: string, i: nat)
    requires w == SlotRegex(j) || (w == EscapedPlaceholder(j) && j != k)
    requires i < |w|
    ensures !StartsWith(w[i..] + rest, EscapedPlaceholder(k))
  {
    NeedleParts(w[i..] + rest, SlotName(k));
    if w == SlotRegex(j) {
      NoNeedleInRegex(j, i, rest);
    } else {
      NoNeedleInName(SlotName(k), SlotName(j), i, rest);
    }
  }

  lemma NoNeedleInRegex(j: Slot, i: nat, rest: string)
    requires i < |SlotRegex(j)|
    ensures var x := SlotRegex(j)[i..] + rest; !(|x| >= 2 && x[0] == '\\' && x[1] == '{')
  {
    var w := SlotRegex(j);
    var x := w[i..] + rest;
    NoBraceEscape(j, i);
    if w[i] == '\\' {
      assert x[1] == w[i + 1];
    }
  }

  lemma FirstOfPrefix(x: string, p: string)
    ensures StartsWith(x, p) && p != "" ==> x[0] == p[0]
  {
    if StartsWith(x, p) && p != "" {
      assert x[..|p|][0] == x[0];
    }
  }

  /** Two names with different first letters cannot be read for each other. */
  lemma NoNeedleInName(name: string, other: string, i: nat, rest: string)
    requires Letters(name) && Letters(other) && name != "" && other != "" && name[0] != other[0]
    requires i < |"\\{" + other + "\\}"|
    ensures !StartsWith(("\\{" + other + "\\}")[i..] + rest, "\\{" + name + "\\}")
  {
    var w := "\\{" + other + "\\}";
    var x := w[i..] + rest;
    NeedleParts(x, name);
    if i == 0 {
      assert x[2] == other[0];
      FirstOfPrefix(x[2..], name + "\\}");
    } else if i == |w| - 2 {
      assert x[1] == '}';
    }
  }

  lemma NoNeedleInside(k: Slot, done: set<Slot>, s: string, i: nat)
    requires s != "" && Tokens(s)[0] != Hole(k)
    requires i < |RenderToken(done, Tokens(s)[0])|
    ensures !StartsWith(RenderToken(done, Tokens(s)[0])[i..] + Render(done, Tokens(s)[1..]), EscapedPlaceholder(k))
  {
    match Tokens(s)[0] {
      case Hole(j) => NoNeedleInHole(k, j, RenderToken(done, Hole(j)), Render(done, Tokens(s)[1..]), i);
      case Char(c) =>
        assert !StartsWith(s, Placeholder(k));
        NoNeedleInChar(done, s, i, SlotName(k));
    }
  }

  lemma NoNeedleInChar(done: set<Slot>, s: string, i: nat, name: string)
    requires s != "" && Tokens(s)[0].Char? && i < |EscapeChar(s[0])|
    requires Letters(name) && !StartsWith(s, "{" + name + "}")
    ensures !StartsWith(EscapeChar(s[0])[i..] + Render(done, Tokens(s)[1..]), "\\{" + name + "\\}")
  {
    var w, rest := EscapeChar(s[0]), Render(done, Tokens(s)[1..]);
    var x := w[i..] + rest;
    NeedleParts(x, name);
    if |x| >= 2 && x[0] == '\\' && x[1] == '{' {
      if i == 0 && |w| == 2 {
        assert x[2..] == rest;
        SpelledAfterBrace(name, done, s);
      }
    }
  }

  lemma NeedleParts(x: string, name: string)
    ensures StartsWith(x, "\\{" + name + "\\}") ==>
              |x| >= 2 && x[0] == '\\' && x[1] == '{' && StartsWith(x[2..], name + "\\}")
  {
    var needle, tail := "\\{" + name + "\\}", name + "\\}";
    if StartsWith(x, needle) {
      assert x[..|needle|][0] == x[0] && x[..|needle|][1] == x[1];
      assert needle[2..] == tail;
      assert x[..|needle|][2..] == x[2..][..|tail|];
    }
  }

  lemma SpelledAfterBrace(name: string, done: set<Slot>, s: string)
    requires s != "" && s[0] == '{' && Tokens(s)[0].Char? && Letters(name)
    ensures StartsWith(Render(done, Tokens(s)[1..]), name + "\\}") ==> StartsWith(s, "{" + name + "}")
  {
    if StartsWith(Render(done, Tokens(s[1..])), name + "\\}") {
      SpelledOut(done, s[1..], name);
      PrefixCons(s, name + "}");
      assert "{" + name + "}" == ['{'] + (name + "}");
    }
  }

  lemma PrefixCons(s: string, q: string)
    requires s != "" && StartsWith(s[1..], q)
    ensures StartsWith(s, [s[0]] + q)
  {
    assert s[..1 + |q|] == [s[0]] + s[1..][..|q|];
  }

  const ALL_SLOTS := {Number, HexAddress, Time, Uuid}

  lemma {:induction false} CreateRegexIsRender(s: string)
    ensures CreateRegex(s) == Render(ALL_SLOTS, Tokens(s))
  {
    var d0: set<Slot> := {};
    var d1 := d0 + {Number};
    var d2 := d1 + {HexAddress};
    var d3 := d2 + {Time};
    EscapeIsRender(s);
    PutBackRender(Number, d0, s);
    PutBackRender(HexAddress, d1, s);
    PutBackRender(Time, d2, s);
    PutBackRender(Uuid, d3, s);
    assert d3 + {Uuid} == ALL_SLOTS;
  }

  /** The quantifier texts the generator writes. */
  predicate RepeatText(rep: string, r: Repeat) {
    match r
    case OneOrMore => rep == "+"
    case Times(n) => (n == 1 && rep == "") || (n == 2 && rep == "{2}") || (n == 36 && rep == "{36}")
  }

  lemma ReadRepeatText(rep: string, r: Repeat, rest: string)
    requires rest == "" || !Quantifier(rest[0])
    requires RepeatText(rep, r)
    ensures ReadRepeat(rep + rest) == Some((r, |rep|))
  {
    var p := rep + rest;
    if rep == "" {
      assert p == rest;
    } else {
      assert p[0] == rep[0] && p[..|rep|] == rep;
      if rep == "{36}" {
        assert p[..3][1] == '3';
      }
    }
  }

  /** One class and its quantifier, in front of a text that starts with no quantifier. */
  lemma ParseItem(cls: string, item: Class, rep: string, r: Repeat, rest: string)
    requires cls != "" && ReadClass(cls + (rep + rest)) == Some((item, |cls|))
    requires rest == "" || !Quantifier(rest[0])
    requires RepeatText(rep, r)
    requires Parse(rest).Some?
    ensures Parse(cls + (rep + rest)) == Some([Item(item, r)] + Parse(rest).value)
  {
    var p, q := cls + (rep + rest), rep + rest;
    ReadRepeatText(rep, r, rest);
    assert p[|cls|..] == q;
    assert q[|rep|..] == rest;
    assert ReadItem(p) == Some((Item(item, r), rest));
  }

  lemma ParseChar(c: char, rest: string)
    requires rest == "" || !Quantifier(rest[0])
    requires Parse(rest).Some?
    ensures Parse(EscapeChar(c) + rest) == Some([Lit(c)] + Parse(rest).value)
  {
    var w := EscapeChar(c);
    assert "" + rest == rest;
    ReadEscaped(c, rest);
    ParseItem(w, Literal(c), "", Times(1), rest);
  }

  lemma ReadEscaped(c: char, rest: string)
    ensures ReadClass(EscapeChar(c) + rest) == Some((Literal(c), |EscapeChar(c)|))
  {
    var p := EscapeChar(c) + rest;
    if Special(c) {
      assert p[0] == '\\' && p[1] == c;
    } else {
      assert p[0] == c;
      NotAClass(p, "[0-9a-fA-F]");
      NotAClass(p, "[a-f0-9-]");
    }
  }

  lemma NotAClass(p: string, cls: string)
    requires p != "" && cls != "" && p[0] != cls[0]
    ensures !StartsWith(p, cls)
  {
    if |cls| <= |p| {
      assert p[..|cls|][0] == p[0];
    }
  }

  lemma ParseDigit(rep: string, r: Repeat, rest: string)
    requires rest == "" || !Quantifier(rest[0])
    requires RepeatText(rep, r)
    requires Parse(rest).Some?
    ensures Parse("\\d" + (rep + rest)) == Some([Item(Digit, r)] + Parse(rest).value)
  {
    var p := "\\d" + (rep + rest);
    assert p[0] == '\\' && p[1] == 'd';
    ParseItem("\\d", Digit, rep, r, rest);
  }

  lemma ParseHex(rest: string)
    requires rest == "" || !Quantifier(rest[0])
    requires Parse(rest).Some?
    ensures Parse("[0-9a-fA-F]" + ("+" + rest)) == Some([Item(Hex, OneOrMore)] + Parse(rest).value)
  {
    var hex := "[0-9a-fA-F]";
    assert (hex + ("+" + rest))[..|hex|] == hex;
    ParseItem(hex, Hex, "+", OneOrMore, rest);
  }

  lemma ParseHexDash(rest: string)
    requires rest == "" || !Quantifier(rest[0])
    requires Parse(rest).Some?
    ensures Parse("[a-f0-9-]" + ("{36}" + rest)) == Some([Item(HexDash, Times(36))] + Parse(rest).value)
  {
    var dash, hex := "[a-f0-9-]", "[0-9a-fA-F]";
    var p := dash + ("{36}" + rest);
    assert p[..|dash|] == dash && p[1] == 'a' && hex[1] == '0';
    assert !StartsWith(p, hex) by {
      if |hex| <= |p| {
        assert p[..|hex|][1] == 'a';
      }
    }
    ParseItem(dash, HexDash, "{36}", Times(36), rest);
  }

  /** `w` reads as `items` in front of any text that starts with no quantifier. */
  ghost predicate Reads(w: string, items: seq<Item>) {
    forall rest: string | (rest == "" || !Quantifier(rest[0])) && Parse(rest).Some? ::
      Parse(w + rest) == Some(items + Parse(rest).value)
  }

  lemma ReadsAppend(a: string, x: seq<Item>, b: string, y: seq<Item>)
    requires Reads(a, x) && Reads(b, y)
    requires b != "" && !Quantifier(b[0])
    ensures Reads(a + b, x + y)
  {
    forall rest: string | (rest == "" || !Quantifier(rest[0])) && Parse(rest).Some?
      ensures Parse(a + b + rest) == Some(x + y + Parse(rest).value)
    {
      var tail := b + rest;
      assert Parse(tail) == Some(y + Parse(rest).value) && tail[0] == b[0];
      assert Parse(a + tail) == Some(x + Parse(tail).value);
      Regrouped(a, b, rest, x, y, Parse(rest).value);
    }
  }

  lemma Regrouped(a: string, b: string, c: string, x: seq<Item>, y: seq<Item>, z: seq<Item>)
    ensures a + b + c == a + (b + c) && x + y + z == x + (y + z)
  {
  }

  lemma CharReads(c: char)
    ensures Reads(EscapeChar(c), [Lit(c)])
  {
    forall rest: string | (rest == "" || !Quantifier(rest[0])) && Parse(rest).Some?
      ensures Parse(EscapeChar(c) + rest) == Some([Lit(c)] + Parse(rest).value)
    {
      ParseChar(c, rest);
    }
  }

  lemma DigitReads(rep: string, r: Repeat)
    requires RepeatText(rep, r)
    ensures Reads("\\d" + rep, [Item(Digit, r)])
  {
    forall rest: string | (rest == "" || !Quantifier(rest[0])) && Parse(rest).Some?
      ensures Parse("\\d" + rep + rest) == Some([Item(Digit, r)] + Parse(rest).value)
    {
      ParseDigit(rep, r, rest);
      Regrouped("\\d", rep, rest, [], [], []);
    }
  }

  lemma HexText(rest: string)
    ensures "[0-9a-fA-F]+" + rest == "[0-9a-fA-F]" + ("+" + rest)
  {
    assert "[0-9a-fA-F]+" == "[0-9a-fA-F]" + "+";
  }

  lemma HexDashText(rest: string)
    ensures "[a-f0-9-]{36}" + rest == "[a-f0-9-]" + ("{36}" + rest)
  {
    assert "[a-f0-9-]{36}" == "[a-f0-9-]" + "{36}";
  }

  lemma HexReads()
    ensures Reads("[0-9a-fA-F]+", [Item(Hex, OneOrMore)])
  {
    forall rest: string | (rest == "" || !Quantifier(rest[0])) && Parse(rest).Some?
      ensures Parse("[0-9a-fA-F]+" + rest) == Some([Item(Hex, OneOrMore)] + Parse(rest).value)
    {
      HexText(rest);
      ParseHex(rest);
    }
  }

  lemma HexDashReads()
    ensures Reads("[a-f0-9-]{36}", [Item(HexDash, Times(36))])
  {
    forall rest: string | (rest == "" || !Quantifier(rest[0])) && Parse(rest).Some?
      ensures Parse("[a-f0-9-]{36}" + rest) == Some([Item(HexDash, Times(36))] + Parse(rest).value)
    {
      HexDashText(rest);
      ParseHexDash(rest);
    }
  }

  lemma PlainReads(c: char)
    requires !Special(c)
    ensures Reads([c], [Lit(c)])
  {
    CharReads(c);
  }

  lemma ThreeRead(a: string, x: seq<Item>, b: string, y: seq<Item>, c: string, z: seq<Item>)
    requires Reads(a, x) && Reads(b, y) && Reads(c, z)
    requires b != "" && !Quantifier(b[0]) && c != "" && !Quantifier(c[0])
    ensures Reads(a + b + c, x + y + z)
  {
    ReadsAppend(a, x, b, y);
    ReadsAppend(a + b, x + y, c, z);
  }

  lemma TimeReads(two: string, colon: string, d: seq<Item>, c: seq<Item>)
    requires Reads(two, d) && Reads(colon, c)
    requires two != "" && !Quantifier(two[0]) && colon != "" && !Quantifier(colon[0])
    ensures Reads(two + colon + two + colon + two, d + c + d + c + d)
  {
    ThreeRead(two, d, colon, c, two, d);
    ThreeRead(two + colon + two, d + c + d, colon, c, two, d);
  }

  /** How the pattern texts of the slots are put together. */
  lemma SlotTexts()
    ensures SlotRegex(Number) == "\\d" + "+" && SlotItems(Number) == [Item(Digit, OneOrMore)]
    ensures SlotRegex(HexAddress) == ['0'] + ['x'] + "[0-9a-fA-F]+"
    ensures SlotItems(HexAddress) == [Lit('0')] + [Lit('x')] + [Item(Hex, OneOrMore)]
    ensures SlotRegex(Time) == ("\\d" + "{2}") + [':'] + ("\\d" + "{2}") + [':'] + ("\\d" + "{2}")
    ensures SlotItems(Time) == [Item(Digit, Times(2))] + [Lit(':')] + [Item(Digit, Times(2))] + [Lit(':')]
                               + [Item(Digit, Times(2))]
    ensures SlotRegex(Uuid) == "[a-f0-9-]{36}" && SlotItems(Uuid) == [Item(HexDash, Times(36))]
  {
  }

  lemma SlotReads(k: Slot)
    ensures Reads(SlotRegex(k), SlotItems(k))
  {
    SlotTexts();
    if k == Number {
      DigitReads("+", OneOrMore);
    } else if k == HexAddress {
      PlainReads('0');
      PlainReads('x');
      HexReads();
      ThreeRead(['0'], [Lit('0')], ['x'], [Lit('x')], "[0-9a-fA-F]+", [Item(Hex, OneOrMore)]);
    } else if k == Time {
      DigitReads("{2}", Times(2));
      PlainReads(':');
      TimeReads("\\d" + "{2}", [':'], [Item(Digit, Times(2))], [Lit(':')]);
    } else {
      HexDashReads();
    }
  }

  lemma RenderedSlot(tok: Token)
    ensures RenderToken(ALL_SLOTS, tok) == if tok.Char? then EscapeChar(tok.c) else SlotRegex(tok.slot)
    ensures TokenItems(tok) == if tok.Char? then [Lit(tok.c)] else SlotItems(tok.slot)
  {
    if tok.Hole? {
      assert tok.slot == Number || tok.slot == HexAddress || tok.slot == Time || tok.slot == Uuid;
    }
  }

  lemma TokenReads(tok: Token)
    ensures Reads(RenderToken(ALL_SLOTS, tok), TokenItems(tok))
  {
    RenderedSlot(tok);
    if tok.Char? {
      CharReads(tok.c);
    } else {
      SlotReads(tok.slot);
    }
  }

  lemma {:induction false} ParseRender(toks: seq<Token>)
    ensures Parse(Render(ALL_SLOTS, toks)) == Some(Items(toks))
  {
    if toks != [] {
      ParseRender(toks[1..]);
      TokenReads(toks[0]);
      assert Parse(RenderToken(ALL_SLOTS, toks[0]) + Render(ALL_SLOTS, toks[1..])).Some?;
    }
  }

  /** The generated text is a pattern: it compiles, to the normalised message read token by token. */
  lemma {:induction false} CreateRegexCompiles(normalized: string)
    ensures Parse(CreateRegex(normalized)) == Some(Items(Tokens(normalized)))
  {
    CreateRegexIsRender(normalized);
    ParseRender(Tokens(normalized));
  }
}
