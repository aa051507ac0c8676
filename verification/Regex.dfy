/** The fragment of Python's `re` that api_log_analyzer.py uses: sequences of character classes, each
    taken a fixed number of times or one or more times. */
module Regex {
  import opened Wrappers
  import opened Text

  datatype Class =
    | Literal(c: char)
    | Digit     // \d
    | Hex       // [0-9a-fA-F]
    | HexDash   // [a-f0-9-]

  datatype Repeat = Times(n: nat) | OneOrMore

  datatype Item = Item(cls: Class, rep: Repeat)

  predicate InClass(t: CharTable, cls: Class, c: char) {
    match cls
    case Literal(l) => c == l
    case Digit => t.digit(c)
    case Hex => AsciiDigit(c) || 'a' <= c <= 'f' || 'A' <= c <= 'F'
    case HexDash => AsciiDigit(c) || 'a' <= c <= 'f' || c == '-'
  }

  predicate AllIn(t: CharTable, cls: Class, s: string) {
    forall i :: 0 <= i < |s| ==> InClass(t, cls, s[i])
  }

  /** `re.fullmatch`: the whole of `s` splits into one part per item. */
  ghost predicate FullMatch(t: CharTable, items: seq<Item>, s: string) {
    if items == [] then s == ""
    else
      match items[0].rep
      case Times(n) => n <= |s| && AllIn(t, items[0].cls, s[..n]) && FullMatch(t, items[1..], s[n..])
      case OneOrMore =>
        exists k :: 1 <= k <= |s| && AllIn(t, items[0].cls, s[..k]) && FullMatch(t, items[1..], s[k..])
  }

  /** Length of the longest prefix of `s` inside the class. */
  function RunLength(t: CharTable, cls: Class, s: string): (n: nat)
    ensures n <= |s| && AllIn(t, cls, s[..n])
    ensures n < |s| ==> !InClass(t, cls, s[n])
  {
    if s == "" || !InClass(t, cls, s[0]) then 0
    else
      var n := 1 + RunLength(t, cls, s[1..]);
      assert s[..n] == [s[0]] + s[1..][..n - 1];
      n
  }

  /** A run followed by something outside the class is read whole. */
  lemma {:induction false} RunOf(t: CharTable, cls: Class, run: string, rest: string)
    requires AllIn(t, cls, run) && (rest == "" || !InClass(t, cls, rest[0]))
    ensures RunLength(t, cls, run + rest) == |run|
  {
    if run == "" {
      assert run + rest == rest;
    } else {
      assert (run + rest)[1..] == run[1..] + rest;
      RunOf(t, cls, run[1..], rest);
    }
  }

  /** The classes with ranges, spelled out. */
  lemma ClassMembers(t: CharTable, c: char)
    ensures InClass(t, Hex, c) <==> c in "0123456789abcdefABCDEF"
    ensures InClass(t, HexDash, c) <==> c in "0123456789abcdef-"
    ensures c < '\U{80}' ==> (InClass(t, Digit, c) <==> c in "0123456789")
  {
    CharsUpTo('0', "0123456789");
    CharsUpTo('a', "abcdef");
    CharsUpTo('A', "ABCDEF");
    assert "0123456789abcdefABCDEF" == "0123456789" + "abcdef" + "ABCDEF";
    assert "0123456789abcdef-" == "0123456789" + "abcdef" + "-";
  }

  lemma CharsUpTo(first: char, s: string)
    requires forall i :: 0 <= i < |s| ==> s[i] as int == first as int + i
    ensures forall c: char :: c in s <==> first as int <= c as int < first as int + |s|
  {
    forall c: char | first as int <= c as int < first as int + |s|
      ensures c in s
    {
      assert s[c as int - first as int] == c;
    }
  }

  /** Greedy match at the head of `s`: how much is consumed. */
  function MatchLen(t: CharTable, items: seq<Item>, s: string): (r: Option<nat>)
    ensures r.Some? ==> r.value <= |s|
  {
    if items == [] then Some(0)
    else
      var n := match items[0].rep
        case Times(n) => if n <= |s| && AllIn(t, items[0].cls, s[..n]) then Some(n) else None
        case OneOrMore =>
          var run := RunLength(t, items[0].cls, s);
          if run >= 1 then Some(run) else None;
      if n.None? then None
      else
        var rest := MatchLen(t, items[1..], s[n.value..]);
        if rest.None? then None else Some(n.value + rest.value)
  }

  lemma MatchSingle(t: CharTable, item: Item, s: string)
    ensures item.rep.OneOrMore? ==>
              MatchLen(t, [item], s) == var n := RunLength(t, item.cls, s); if n >= 1 then Some(n) else None
    ensures item.rep.Times? ==>
              MatchLen(t, [item], s) == var n := item.rep.n; if n <= |s| && AllIn(t, item.cls, s[..n]) then Some(n) else None
  {
    assert [item][1..] == [];
  }

  /** `re.sub`: leftmost matches, left to right, not overlapping. */
  function Sub(t: CharTable, items: seq<Item>, repl: string, s: string): string
    decreases |s|
  {
    if s == "" then ""
    else
      var m := MatchLen(t, items, s);
      if m.Some? && m.value > 0 then repl + Sub(t, items, repl, s[m.value..])
      else [s[0]] + Sub(t, items, repl, s[1..])
  }

  /** Patterns whose only open-ended item is the last: the greedy match needs no backtracking. */
  predicate OpenEndedLast(items: seq<Item>) {
    forall i :: 0 <= i < |items| - 1 ==> items[i].rep.Times?
  }

  /** `n` characters at the head of `s` are what one item matches. */
  predicate HeadMatch(t: CharTable, item: Item, s: string, n: nat) {
    && n <= |s| && AllIn(t, item.cls, s[..n])
    && match item.rep
       case Times(k) => n == k
       case OneOrMore => n >= 1
  }

  /** A full match splits after its first item, and nothing else is a full match. */
  lemma FullMatchHead(t: CharTable, items: seq<Item>, s: string) returns (n: nat)
    requires items != [] && FullMatch(t, items, s)
    ensures HeadMatch(t, items[0], s, n) && FullMatch(t, items[1..], s[n..])
  {
    match items[0].rep {
      case Times(k) => n := k;
      case OneOrMore =>
        var k :| 1 <= k <= |s| && AllIn(t, items[0].cls, s[..k]) && FullMatch(t, items[1..], s[k..]);
        n := k;
    }
  }

  lemma FullMatchFrom(t: CharTable, items: seq<Item>, s: string, n: nat)
    requires items != [] && HeadMatch(t, items[0], s, n) && FullMatch(t, items[1..], s[n..])
    ensures FullMatch(t, items, s)
  {
  }

  /** The greedy match is the longest matching prefix, and it fails only if no prefix matches. */
  lemma {:induction false} MatchLenIsLongest(t: CharTable, items: seq<Item>, s: string)
    requires OpenEndedLast(items)
    ensures var m := MatchLen(t, items, s);
            && (m.Some? ==> FullMatch(t, items, s[..m.value]))
            && forall k :: 0 <= k <= |s| && FullMatch(t, items, s[..k]) ==> m.Some? && k <= m.value
    decreases |items|
  {
    if items != [] {
      match items[0].rep {
        case Times(n) =>
          if n <= |s| {
            MatchLenIsLongest(t, items[1..], s[n..]);
          }
          FixedItemLongest(t, items, s);
        case OneOrMore => OpenItemLongest(t, items, s);
      }
    }
  }

  lemma FixedItemLongest(t: CharTable, items: seq<Item>, s: string)
    requires items != [] && items[0].rep.Times?
    requires var n := items[0].rep.n; n <= |s| ==>
               var m := MatchLen(t, items[1..], s[n..]);
               && (m.Some? ==> FullMatch(t, items[1..], s[n..][..m.value]))
               && forall k :: 0 <= k <= |s[n..]| && FullMatch(t, items[1..], s[n..][..k]) ==> m.Some? && k <= m.value
    ensures var m := MatchLen(t, items, s);
            && (m.Some? ==> FullMatch(t, items, s[..m.value]))
            && forall k :: 0 <= k <= |s| && FullMatch(t, items, s[..k]) ==> m.Some? && k <= m.value
  {
    var n, m := items[0].rep.n, MatchLen(t, items, s);
    if m.Some? {
      var w := s[..m.value];
      assert w[..n] == s[..n] && w[n..] == s[n..][..m.value - n];
    }
    forall k | 0 <= k <= |s| && FullMatch(t, items, s[..k])
      ensures m.Some? && k <= m.value
    {
      assert s[..k][..n] == s[..n] && s[..k][n..] == s[n..][..k - n];
    }
  }

  lemma OpenItemLongest(t: CharTable, items: seq<Item>, s: string)
    requires |items| == 1 && items[0].rep.OneOrMore?
    ensures var m := MatchLen(t, items, s);
            && (m.Some? ==> FullMatch(t, items, s[..m.value]))
            && forall k :: 0 <= k <= |s| && FullMatch(t, items, s[..k]) ==> m.Some? && k <= m.value
  {
    var run := RunLength(t, items[0].cls, s);
    assert items[1..] == [] && items == [items[0]];
    MatchSingle(t, items[0], s);
    if run >= 1 {
      var w := s[..run];
      assert w[..run] == w && w[run..] == "";
      FullMatchFrom(t, items, w, run);
    }
    forall k | run < k <= |s|
      ensures !AllIn(t, items[0].cls, s[..k])
    {
      assert s[..k][run] == s[run];
    }
    forall k | 0 <= k <= |s| && FullMatch(t, items, s[..k])
      ensures 1 <= k <= run
    {
      var j := FullMatchHead(t, items, s[..k]);
      assert j == k && s[..k][..k] == s[..k];
    }
  }

  /** Matches compose: patterns side by side match texts side by side. */
  lemma {:induction false} FullMatchAppend(t: CharTable, a: seq<Item>, b: seq<Item>, x: string, y: string)
    requires FullMatch(t, a, x) && FullMatch(t, b, y)
    ensures FullMatch(t, a + b, x + y)
    decreases |a|
  {
    if a == [] {
      assert a + b == b && x + y == y;
    } else {
      var n := FullMatchHead(t, a, x);
      FullMatchAppend(t, a[1..], b, x[n..], y);
      FirstItemAppend(t, a, b, x, y, n);
    }
  }

  lemma FirstItemAppend(t: CharTable, a: seq<Item>, b: seq<Item>, x: string, y: string, n: nat)
    requires a != [] && HeadMatch(t, a[0], x, n) && FullMatch(t, a[1..] + b, x[n..] + y)
    ensures FullMatch(t, a + b, x + y)
  {
    assert (a + b)[1..] == a[1..] + b && (a + b)[0] == a[0];
    assert (x + y)[n..] == x[n..] + y && (x + y)[..n] == x[..n];
    FullMatchFrom(t, a + b, x + y, n);
  }

  /** How many `{` a pattern spells out. */
  function LiteralBraces(items: seq<Item>): nat {
    if items == [] then 0
    else (if items[0].cls == Literal('{') && items[0].rep.Times? then items[0].rep.n else 0)
         + LiteralBraces(items[1..])
  }

  lemma {:induction false} LiteralBracesAppend(a: seq<Item>, b: seq<Item>)
    ensures LiteralBraces(a + b) == LiteralBraces(a) + LiteralBraces(b)
  {
    if a == [] {
      assert a + b == b;
    } else {
      assert (a + b)[1..] == a[1..] + b;
      LiteralBracesAppend(a[1..], b);
    }
  }

  lemma {:induction false} RunCount(t: CharTable, cls: Class, s: string)
    requires AllIn(t, cls, s)
    ensures CountChar('{', s) == if cls == Literal('{') then |s| else 0
  {
    if s != "" {
      assert InClass(t, cls, s[0]);
      RunCount(t, cls, s[1..]);
    }
  }

  /** A matched text has exactly the `{` that the pattern spells out: no class contains one. */
  lemma {:induction false} MatchedBraces(t: CharTable, items: seq<Item>, s: string)
    requires FullMatch(t, items, s)
    requires forall i :: 0 <= i < |items| ==> items[i].rep.OneOrMore? ==> items[i].cls != Literal('{')
    ensures CountChar('{', s) == LiteralBraces(items)
    decreases |items|
  {
    if items != [] {
      var n := FullMatchHead(t, items, s);
      RunCount(t, items[0].cls, s[..n]);
      MatchedBraces(t, items[1..], s[n..]);
      CountAppend('{', s[..n], s[n..]);
      assert s == s[..n] + s[n..];
    }
  }

  /** Text in which no match starts is copied. */
  lemma {:induction false} SubCopies(t: CharTable, items: seq<Item>, repl: string, w: string, rest: string)
    requires forall i :: 0 <= i < |w| ==> MatchLen(t, items, w[i..] + rest).None?
    ensures Sub(t, items, repl, w + rest) == w + Sub(t, items, repl, rest)
  {
    if w == "" {
      assert w + rest == rest;
    } else {
      assert w[0..] == w;
      assert (w + rest)[1..] == w[1..] + rest;
      forall i | 0 <= i < |w[1..]|
        ensures MatchLen(t, items, w[1..][i..] + rest).None?
      {
        assert w[1..][i..] == w[i + 1..];
      }
      SubCopies(t, items, repl, w[1..], rest);
    }
  }
}
