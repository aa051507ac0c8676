/** Two scans of framework/analyzers/android_analyzer.py: the upward line scan `_is_preview` and the
    bounded parenthesis scan `_extract_function_signature`. */
module AndroidScan {
  import opened Wrappers
  import opened Text
  import opened Brackets
  import Scope

  // ---------------------------------------------------------------- lines

  /** The characters at which `str.splitlines` breaks. */
  predicate LineBreak(c: char) {
    '\n' <= c <= '\r' || '\U{1c}' <= c <= '\U{1e}' || c == '\U{85}' || c == '\U{2028}' || c == '\U{2029}'
  }

  lemma LineBreaksListed(c: char)
    ensures LineBreak(c) <==> c in {'\n', '\U{0b}', '\U{0c}', '\r', '\U{1c}', '\U{1d}', '\U{1e}',
                                    '\U{85}', '\U{2028}', '\U{2029}'}
  {
  }

  /** `str.splitlines`; `line` is the line read so far.  A final break ends the last line and starts none. */
  function SplitLines(s: string, line: string := ""): seq<string>
    decreases |s|
  {
    if s == "" then (if line == "" then [] else [line])
    else if StartsWith(s, "\r\n") then [line] + SplitLines(s[2..])
    else if LineBreak(s[0]) then [line] + SplitLines(s[1..])
    else SplitLines(s[1..], line + [s[0]])
  }

  /** A line of a text with the break that ends it: one line-break character or a carriage return and a
      newline; nothing at the end of the text. */
  datatype TextLine = TextLine(text: string, end: string)

  predicate NoBreak(s: string) {
    forall i :: 0 <= i < |s| ==> !LineBreak(s[i])
  }

  function Unlines(ls: seq<TextLine>): string {
    if ls == [] then "" else ls[0].text + ls[0].end + Unlines(ls[1..])
  }

  function Texts(ls: seq<TextLine>): seq<string> {
    if ls == [] then [] else [ls[0].text] + Texts(ls[1..])
  }

  /** The lines hold no break, every one but a non-empty last one is ended by one, and no break is cut in
      two: a newline right after a carriage return belongs to it. */
  predicate AreLines(ls: seq<TextLine>) {
    ls == []
    || (var l, rest := ls[0], ls[1..];
        && NoBreak(l.text) && AreLines(rest)
        && (if l.end == "" then l.text != "" && rest == []
            else if l.end == "\r" then !StartsWith(Unlines(rest), "\n")
            else l.end == "\r\n" || (|l.end| == 1 && LineBreak(l.end[0]))))
  }

  lemma BreakHeads(s: string)
    ensures StartsWith(s, "\r\n") <==> |s| >= 2 && s[0] == '\r' && s[1] == '\n'
    ensures StartsWith(s, "\n") <==> s != "" && s[0] == '\n'
  {
    if |s| >= 2 {
      assert s[..2] == [s[0], s[1]];
    }
    if s != "" {
      assert s[..1] == [s[0]];
    }
  }

  /** Reading up to the end of the first line. */
  lemma {:induction false} FirstLineSplit(l: string, end: string, rest: string, line: string)
    requires NoBreak(l)
    requires end == "\r\n" || (|end| == 1 && LineBreak(end[0]) && (end == "\r" ==> !StartsWith(rest, "\n")))
    ensures SplitLines(l + end + rest, line) == [line + l] + SplitLines(rest)
    decreases |l|
  {
    var s := l + end + rest;
    if l == "" {
      assert s == end + rest && line + l == line;
      if end == "\r\n" {
        assert s[..2] == "\r\n" && s[2..] == rest;
      } else {
        assert s[0] == end[0] && s[1..] == rest;
        BreakHeads(s);
        BreakHeads(rest);
        assert end[0] == '\r' ==> end == "\r";
      }
    } else {
      assert s[0] == l[0] && s[1..] == l[1..] + end + rest;
      assert !LineBreak(s[0]);
      BreakHeads(s);
      FirstLineSplit(l[1..], end, rest, line + [l[0]]);
      assert line + [l[0]] + l[1..] == line + l;
    }
  }

  lemma {:induction false} LastLineSplit(l: string, line: string)
    requires NoBreak(l)
    ensures SplitLines(l, line) == if line + l == "" then [] else [line + l]
    decreases |l|
  {
    if l == "" {
      assert line + l == line;
    } else {
      assert !LineBreak(l[0]);
      BreakHeads(l);
      LastLineSplit(l[1..], line + [l[0]]);
      assert line + [l[0]] + l[1..] == line + l;
    }
  }

  /** Splitting a text gives back the lines it was put together from. */
  lemma {:induction false} SplitUnlines(ls: seq<TextLine>)
    requires AreLines(ls)
    ensures SplitLines(Unlines(ls)) == Texts(ls)
  {
    if ls != [] {
      var l, rest := ls[0], ls[1..];
      SplitUnlines(rest);
      assert "" + l.text == l.text;
      if l.end == "" {
        assert l.text + l.end + Unlines(rest) == l.text;
        LastLineSplit(l.text, "");
      } else {
        FirstLineSplit(l.text, l.end, Unlines(rest), "");
      }
    }
  }

  /** Every text is put together from lines, so the law above says what splitting does to every text. */
  lemma {:induction false} EveryTextIsLines(s: string) returns (ls: seq<TextLine>)
    ensures AreLines(ls) && Unlines(ls) == s
    decreases |s|
  {
    if s == "" {
      ls := [];
    } else if StartsWith(s, "\r\n") {
      var rest := EveryTextIsLines(s[2..]);
      ls := [TextLine("", "\r\n")] + rest;
      assert s == "" + "\r\n" + s[2..];
    } else if LineBreak(s[0]) {
      var rest := EveryTextIsLines(s[1..]);
      ls := [TextLine("", [s[0]])] + rest;
      assert s == "" + [s[0]] + s[1..];
      BreakHeads(s);
      BreakHeads(s[1..]);
    } else {
      var rest := EveryTextIsLines(s[1..]);
      if rest == [] {
        ls := [TextLine([s[0]], "")];
      } else {
        ls := [TextLine([s[0]] + rest[0].text, rest[0].end)] + rest[1..];
        assert s == [s[0]] + (rest[0].text + rest[0].end + Unlines(rest[1..]));
      }
    }
  }

  /** What the scan looks at in one line. */
  datatype Facts = Facts(blank: bool, annotation: bool, preview: bool, closers: nat, openers: nat)

  type Line = l: Facts | (l.blank ==> !l.annotation && l.closers == 0 && l.openers == 0) && (l.preview ==> l.annotation)
    witness Facts(true, false, false, 0, 0)

  /** `@Preview\b` at the start. */
  predicate StartsPreview(t: CharTable, stripped: string) {
    StartsWith(stripped, "@Preview") && (|stripped| == 8 || !t.word(stripped[8]))
  }

  function Look(t: CharTable, raw: string): Line {
    var s := Strip(t, raw);
    if StartsPreview(t, s) then
      assert s[..8][0] == '@';
      Facts(false, true, true, CountChar(')', s), CountChar('(', s))
    else Facts(s == "", s != "" && s[0] == '@', false, CountChar(')', s), CountChar('(', s))
  }

  /** The facts, read off the unstripped line. */
  lemma {:induction false} LookMeans(t: CharTable, raw: string)
    ensures var l := Look(t, raw);
            && (l.blank <==> forall k :: 0 <= k < |raw| ==> t.space(raw[k]))
            && (l.annotation <==> exists i :: FirstInk(t, raw, i) && raw[i] == '@')
            && (l.preview <==> exists i :: FirstInk(t, raw, i) && PreviewAt(t, raw, i))
            && l.closers == multiset(raw)[')'] && l.openers == multiset(raw)['(']
  {
    var i, j := Stripped(t, raw);
    var r := Strip(t, raw);
    LookCounts(t, raw, i, j);
    if r == "" {
      assert forall k :: !FirstInk(t, raw, k);
    } else {
      assert r[0] == raw[i];
      assert FirstInk(t, raw, i);
      assert forall k :: FirstInk(t, raw, k) ==> k == i;
      PreviewInside(t, raw, i, j);
      StartsPreviewHead(t, r);
    }
  }

  lemma StartsPreviewHead(t: CharTable, s: string)
    ensures StartsPreview(t, s) ==> s != "" && s[0] == '@'
  {
    if StartsPreview(t, s) {
      assert s[..8][0] == s[0];
    }
  }

  lemma Stripped(t: CharTable, raw: string) returns (i: nat, j: nat)
    ensures i <= j <= |raw| && Strip(t, raw) == raw[i..j] && forall k :: 0 <= k < i || j <= k < |raw| ==> t.space(raw[k])
    ensures i < j ==> !t.space(raw[i]) && !t.space(raw[j - 1])
  {
    StripTrims(t, raw);
    i, j :| 0 <= i <= j <= |raw| && Strip(t, raw) == raw[i..j]
         && forall k :: 0 <= k < i || j <= k < |raw| ==> t.space(raw[k]);
  }

  lemma LookCounts(t: CharTable, raw: string, i: nat, j: nat)
    requires i <= j <= |raw| && Strip(t, raw) == raw[i..j]
    requires forall k :: 0 <= k < i || j <= k < |raw| ==> t.space(raw[k])
    ensures Look(t, raw).closers == multiset(raw)[')'] && Look(t, raw).openers == multiset(raw)['(']
  {
    var r := raw[i..j];
    CountIsMultiplicity('(', r);
    CountIsMultiplicity(')', r);
    NotInSpace(t, raw[..i]);
    NotInSpace(t, raw[j..]);
    assert raw == raw[..i] + r + raw[j..];
  }

  /** The first character that is not white space. */
  predicate FirstInk(t: CharTable, raw: string, i: int) {
    0 <= i < |raw| && !t.space(raw[i]) && forall k :: 0 <= k < i ==> t.space(raw[k])
  }

  /** The word @Preview stands at `i`: what follows it is no word character, or only white space. */
  predicate PreviewAt(t: CharTable, raw: string, i: nat) {
    && i + 8 <= |raw| && raw[i..i + 8] == "@Preview"
    && (i + 8 == |raw| || !t.word(raw[i + 8]) || forall k :: i + 8 <= k < |raw| ==> t.space(raw[k]))
  }

  lemma PreviewInside(t: CharTable, raw: string, i: nat, j: nat)
    requires i < j <= |raw| && !t.space(raw[i]) && !t.space(raw[j - 1]) && forall k :: j <= k < |raw| ==> t.space(raw[k])
    ensures StartsPreview(t, raw[i..j]) <==> PreviewAt(t, raw, i)
  {
    var r := raw[i..j];
    if |r| >= 8 {
      assert r[..8] == raw[i..i + 8];
      if |r| > 8 {
        assert r[8] == raw[i + 8];
      }
    }
    if i + 8 <= |raw| && raw[i..i + 8] == "@Preview" {
      assert raw[i + 7] == raw[i..i + 8][7] == 'w' && !t.space('w');
    }
  }

  lemma NotInSpace(t: CharTable, s: string)
    requires forall k :: 0 <= k < |s| ==> t.space(s[k])
    ensures multiset(s)['('] == 0 && multiset(s)[')'] == 0
  {
    assert !t.space('(') && !t.space(')');
    assert '(' !in s && ')' !in s;
  }

  function LookAll(t: CharTable, raws: seq<string>): (ls: seq<Line>)
    ensures |ls| == |raws|
    ensures forall i :: 0 <= i < |raws| ==> ls[i] == Look(t, raws[i])
  {
    seq(|raws|, i requires 0 <= i < |raws| => Look(t, raws[i]))
  }

  // ---------------------------------------------------------------- _is_preview

  datatype Outcome = Answer(found: bool) | Go(depth: nat)

  /** One turn of the loop. */
  function Step(depth: nat, l: Line): Outcome {
    if l.blank then Go(depth)
    else if depth > 0 then
      if depth + l.closers > l.openers then Go(depth + l.closers - l.openers)
      else if !l.annotation then Answer(false)
      else if l.preview then Answer(true)
      else Go(0)
    else if !l.annotation then
      if l.closers > l.openers then Go(l.closers - l.openers) else Answer(false)
    else if l.preview then Answer(true)
    else Go(0)
  }

  /** The whole loop, from the last line upwards. */
  function ScanUp(lines: seq<Line>, depth: nat): bool {
    if lines == [] then false
    else
      match Step(depth, lines[|lines| - 1])
      case Answer(found) => found
      case Go(d) => ScanUp(lines[..|lines| - 1], d)
  }

  lemma ScanLast(above: seq<Line>, l: Line, depth: nat)
    ensures var o := Step(depth, l); ScanUp(above + [l], depth) == if o.Answer? then o.found else ScanUp(above, o.depth)
  {
    assert (above + [l])[..|above|] == above;
  }

  function PreviewAbove(t: CharTable, before: string): bool {
    ScanUp(LookAll(t, SplitLines(before)), 0)
  }

  method IsPreview(t: CharTable, content: string, composablePos: nat) returns (r: bool)
    requires composablePos <= |content|
    ensures r == PreviewAbove(t, content[..composablePos])
  {
    r := ScanLines(LookAll(t, SplitLines(content[..composablePos])));
  }

  /** The loop over the reversed lines. */
  method ScanLines(lines: seq<Line>) returns (r: bool)
    ensures r == ScanUp(lines, 0)
  {
    var depth: int := 0;
    var i := |lines|;
    assert lines[..i] == lines;
    while i > 0
      invariant 0 <= i <= |lines| && depth >= 0
      invariant ScanUp(lines, 0) == ScanUp(lines[..i], depth)
    {
      i := i - 1;
      var l := lines[i];
      assert lines[..i + 1] == lines[..i] + [l];
      ScanLast(lines[..i], l, depth);
      if l.blank {
        continue;
      }
      if depth > 0 {
        depth := depth + l.closers - l.openers;
        if depth > 0 {
          continue;
        }
        depth := 0;
        if !l.annotation {
          return false;
        }
        if l.preview {
          return true;
        }
        continue;
      }
      if !l.annotation {
        if l.closers > l.openers {
          depth := l.closers - l.openers;
          continue;
        }
        return false;
      }
      if l.preview {
        return true;
      }
    }
    return false;
  }

  // ---------------------------------------------------------------- what is written above a composable

  /** Openers minus closers of a stretch of lines. */
  function Net(lines: seq<Line>): int {
    if lines == [] then 0 else Net(lines[..|lines| - 1]) + lines[|lines| - 1].openers - lines[|lines| - 1].closers
  }

  /** Several lines whose outer parenthesis opens on the first and closes on the last. */
  ghost predicate Wrapped(lines: seq<Line>) {
    && |lines| >= 2
    && (forall k :: 0 < k < |lines| ==> Net(lines[..k]) >= 1)
    && Net(lines) == 0
    && !lines[0].blank && !lines[|lines| - 1].blank
  }

  /** A blank line, an annotation on one line, or one spread over several. */
  datatype Item = Blank(line: Line) | OnOneLine(line: Line) | Spread(lines: seq<Line>)

  /** The last line of a spread annotation must not itself start with an annotation. */
  ghost predicate WellFormed(item: Item) {
    match item
    case Blank(l) => l.blank
    case OnOneLine(l) => l.annotation && !l.blank
    case Spread(ls) => Wrapped(ls) && ls[0].annotation && !ls[|ls| - 1].annotation
  }

  function LinesOf(item: Item): seq<Line> {
    match item
    case Blank(l) => [l]
    case OnOneLine(l) => [l]
    case Spread(ls) => ls
  }

  predicate NamesPreview(item: Item) {
    match item
    case Blank(_) => false
    case OnOneLine(l) => l.preview
    case Spread(ls) => ls != [] && ls[0].preview
  }

  function Flatten(items: seq<Item>): seq<Line> {
    if items == [] then [] else Flatten(items[..|items| - 1]) + LinesOf(items[|items| - 1])
  }

  /** What may stand above the annotations: nothing, a line of code, or a multi-line call that is not an
      annotation (with anything at all before it). */
  ghost predicate Stops(above: seq<Line>) {
    || above == []
    || (var l := above[|above| - 1]; !l.blank && !l.annotation && l.closers <= l.openers)
    || exists k :: 0 <= k < |above| && Wrapped(above[k..]) && !above[k].annotation && !above[|above| - 1].annotation
  }

  /** Inside a spread call the scan's depth is the number of parentheses still to be opened above. */
  lemma {:induction false} InsideArguments(pre: seq<Line>, ls: seq<Line>, k: nat)
    requires Wrapped(ls) && 0 < k < |ls|
    ensures ScanUp(pre + ls[..k], Net(ls[..k])) ==
            if !ls[0].annotation then false else if ls[0].preview then true else ScanUp(pre, 0)
    decreases k
  {
    var all, l := pre + ls[..k], ls[k - 1];
    assert all[|all| - 1] == l;
    assert ls[..k][..k - 1] == ls[..k - 1];
    assert ls[..k][k - 1] == l;
    assert all[..|all| - 1] == pre + ls[..k - 1];
    if k == 1 {
      assert pre + ls[..0] == pre;
      assert Net(ls[..0]) == 0;
    } else {
      InsideArguments(pre, ls, k - 1);
      assert Net(ls[..k]) == Net(ls[..k - 1]) + l.openers - l.closers;
    }
  }

  /** From outside, a spread call is read as one thing, decided by its first line. */
  lemma SpreadIsOne(pre: seq<Line>, ls: seq<Line>)
    requires Wrapped(ls) && !ls[|ls| - 1].annotation
    ensures ScanUp(pre + ls, 0) ==
            if !ls[0].annotation then false else if ls[0].preview then true else ScanUp(pre, 0)
  {
    var n := |ls| - 1;
    var all := pre + ls;
    assert all[|all| - 1] == ls[n] && all[..|all| - 1] == pre + ls[..n];
    assert Net(ls[..n]) >= 1;
    InsideArguments(pre, ls, n);
  }

  /** One item above the composable: it answers true if it names the preview, and is passed over if not. */
  lemma PassItem(pre: seq<Line>, item: Item)
    requires WellFormed(item)
    ensures ScanUp(pre + LinesOf(item), 0) == (NamesPreview(item) || ScanUp(pre, 0))
  {
    if item.Spread? {
      SpreadIsOne(pre, item.lines);
    } else {
      var all := pre + [item.line];
      assert all[|all| - 1] == item.line && all[..|all| - 1] == pre;
    }
  }

  lemma StopsScan(above: seq<Line>)
    requires Stops(above)
    ensures !ScanUp(above, 0)
  {
    if above != [] {
      var l := above[|above| - 1];
      if !(!l.blank && !l.annotation && l.closers <= l.openers) {
        var k :| 0 <= k < |above| && Wrapped(above[k..]) && !above[k].annotation && !above[|above| - 1].annotation;
        var call := above[k..];
        assert call[0] == above[k] && call[|call| - 1] == l;
        SpreadIsOne(above[..k], call);
        assert above[..k] + call == above;
      }
    }
  }

  predicate AnyPreview(items: seq<Item>) {
    exists i :: 0 <= i < |items| && NamesPreview(items[i])
  }

  ghost predicate AllWellFormed(items: seq<Item>) {
    forall i :: 0 <= i < |items| ==> WellFormed(items[i])
  }

  /** A block of annotations answers true if one names the preview, and is passed over if none does. */
  lemma {:induction false} PassItems(pre: seq<Line>, items: seq<Item>)
    requires AllWellFormed(items)
    ensures ScanUp(pre + Flatten(items), 0) == (AnyPreview(items) || ScanUp(pre, 0))
    decreases |items|
  {
    if items == [] {
      assert pre + Flatten(items) == pre;
    } else {
      var before, last := items[..|items| - 1], items[|items| - 1];
      assert AllWellFormed(before) && WellFormed(last);
      FlattenLast(pre, items);
      PassItems(pre, before);
      PassItem(pre + Flatten(before), last);
      AnyPreviewLast(items);
    }
  }

  lemma FlattenLast(pre: seq<Line>, items: seq<Item>)
    requires items != []
    ensures pre + Flatten(items) == pre + Flatten(items[..|items| - 1]) + LinesOf(items[|items| - 1])
  {
  }

  /** For every block of annotations above a composable, the scan answers whether one of them is
      @Preview. */
  lemma PreviewIffAnnotated(above: seq<Line>, items: seq<Item>)
    requires Stops(above) && AllWellFormed(items)
    ensures ScanUp(above + Flatten(items), 0) <==> AnyPreview(items)
  {
    PassItems(above, items);
    StopsScan(above);
  }

  /** The same for the text: the content before the composable is put together from lines that show
      something that ends the block and then the annotations, and the answer is whether the first line of
      one of them starts with the word @Preview. */
  lemma PreviewInText(t: CharTable, ls: seq<TextLine>, above: seq<Line>, items: seq<Item>)
    requires AreLines(ls) && LookAll(t, Texts(ls)) == above + Flatten(items)
    requires Stops(above) && AllWellFormed(items)
    ensures PreviewAbove(t, Unlines(ls)) <==> AnyPreview(items)
  {
    SplitUnlines(ls);
    PreviewIffAnnotated(above, items);
  }

  lemma AnyPreviewLast(items: seq<Item>)
    requires items != []
    ensures AnyPreview(items) <==> AnyPreview(items[..|items| - 1]) || NamesPreview(items[|items| - 1])
  {
    var before := items[..|items| - 1];
    assert forall i :: 0 <= i < |before| ==> items[i] == before[i];
  }

  // ---------------------------------------------------------------- how much is read as one

  /** The first line of what the scan, starting at the last line with depth zero, reads as one thing:
      the last line itself, or the line where the depth it opened is used up. */
  function HeadOf(lines: seq<Line>): (h: Option<nat>)
    requires lines != []
    ensures h.Some? ==> h.value < |lines|
  {
    var n := |lines| - 1;
    if lines[n].annotation || lines[n].closers <= lines[n].openers then Some(n)
    else HeadAbove(lines[..n], lines[n].closers - lines[n].openers)
  }

  function HeadAbove(lines: seq<Line>, depth: nat): (h: Option<nat>)
    ensures h.Some? ==> h.value < |lines|
  {
    if lines == [] then None
    else
      var n := |lines| - 1;
      if depth + lines[n].closers > lines[n].openers then HeadAbove(lines[..n], depth + lines[n].closers - lines[n].openers)
      else if lines[n].blank then HeadAbove(lines[..n], depth)
      else Some(n)
  }

  lemma {:induction false} HeadAboveIsFirst(ls: seq<Line>, k: nat)
    requires Wrapped(ls) && 0 < k < |ls|
    ensures HeadAbove(ls[..k], Net(ls[..k])) == Some(0)
    decreases k
  {
    var l := ls[k - 1];
    assert ls[..k][..k - 1] == ls[..k - 1];
    assert ls[..k][k - 1] == l;
    if k == 1 {
      assert Net(ls[..0]) == 0;
    } else {
      HeadAboveIsFirst(ls, k - 1);
    }
  }

  /** A call spread over several lines is read as the single thing it is exactly when its last line does
      not itself start with an annotation. */
  lemma SpreadReadWhole(ls: seq<Line>)
    requires Wrapped(ls)
    ensures HeadOf(ls) == Some(0) <==> !ls[|ls| - 1].annotation
  {
    var n := |ls| - 1;
    assert Net(ls[..n]) >= 1;
    HeadAboveIsFirst(ls, n);
  }

  /** The line-by-line loop is reading one thing after the other, judged by its first line. */
  lemma ScanByHeads(lines: seq<Line>)
    requires lines != [] && !lines[|lines| - 1].blank
    ensures ScanUp(lines, 0) ==
            match HeadOf(lines)
            case None => false
            case Some(h) => lines[h].annotation && (lines[h].preview || ScanUp(lines[..h], 0))
  {
    var n := |lines| - 1;
    if !lines[n].annotation && lines[n].closers > lines[n].openers {
      ScanFromHead(lines[..n], lines[n].closers - lines[n].openers);
      if HeadOf(lines).Some? {
        assert lines[..n][..HeadOf(lines).value] == lines[..HeadOf(lines).value];
      }
    }
  }

  lemma {:induction false} ScanFromHead(lines: seq<Line>, depth: nat)
    requires depth > 0
    ensures ScanUp(lines, depth) ==
            match HeadAbove(lines, depth)
            case None => false
            case Some(h) => lines[h].annotation && (lines[h].preview || ScanUp(lines[..h], 0))
  {
    if lines != [] {
      var n := |lines| - 1;
      if depth + lines[n].closers > lines[n].openers {
        ScanFromHead(lines[..n], depth + lines[n].closers - lines[n].openers);
        if HeadAbove(lines, depth).Some? {
          assert lines[..n][..HeadAbove(lines, depth).value] == lines[..HeadAbove(lines, depth).value];
        }
      }
    }
  }

  /** Without that restriction the scan can miss a preview: a wrapped annotation of the three lines
      `@Preview(`, `x` and `@Other)` is not recognised. */
  lemma AnnotationOnLastLineHidesPreview(t: CharTable)
    ensures var ls := LookAll(t, ["@Preview(", "x", "@Other)"]);
            Wrapped(ls) && ls[0].preview && !ScanUp(ls, 0)
  {
    LookPreview(t);
    LookArgument(t);
    LookOther(t);
    var a, b, c := Look(t, "@Preview("), Look(t, "x"), Look(t, "@Other)");
    ThreeLines(a, b, c);
    LookThree(t, "@Preview(", "x", "@Other)");
  }

  lemma LookThree(t: CharTable, x: string, y: string, z: string)
    ensures LookAll(t, [x, y, z]) == [Look(t, x), Look(t, y), Look(t, z)]
  {
  }

  lemma ThreeLines(a: Line, b: Line, c: Line)
    requires a == Facts(false, true, true, 0, 1) && b == Facts(false, false, false, 0, 0)
    requires c == Facts(false, true, false, 1, 0)
    ensures Wrapped([a, b, c]) && !ScanUp([a, b, c], 0)
  {
    var ls := [a, b, c];
    assert ls[..2] == [a] + [b] && ls[..1] == [] + [a] && ls == [a] + [b] + [c];
    NetLast([], a);
    NetLast([a], b);
    NetLast([a] + [b], c);
    assert [] + [a] == [a];
    assert !ScanUp([a] + [b], 0);
  }

  lemma NetLast(lines: seq<Line>, l: Line)
    ensures Net(lines + [l]) == Net(lines) + l.openers - l.closers
  {
    assert (lines + [l])[..|lines|] == lines;
  }

  lemma StripNothing(t: CharTable, s: string)
    requires s != "" && !t.space(s[0]) && !t.space(s[|s| - 1])
    ensures Strip(t, s) == s
  {
  }

  lemma LookPreview(t: CharTable)
    ensures Look(t, "@Preview(") == Facts(false, true, true, 0, 1)
  {
    var s := "@Preview(";
    assert !t.space('@') && !t.space('(') && !t.word('(');
    StripNothing(t, s);
    assert s == "@Preview" + "(";
    CountAppend('(', "@Preview", "(");
    CountAppend(')', "@Preview", "(");
    CountNone('(', "@Preview");
    CountNone(')', "@Preview");
    assert s[..8] == "@Preview";
  }

  lemma LookArgument(t: CharTable)
    ensures Look(t, "x") == Facts(false, false, false, 0, 0)
  {
    assert !t.space('x');
    StripNothing(t, "x");
  }

  lemma LookOther(t: CharTable)
    ensures Look(t, "@Other)") == Facts(false, true, false, 1, 0)
  {
    var s := "@Other)";
    assert !t.space('@') && !t.space(')');
    StripNothing(t, s);
    assert s == "@Other" + ")";
    CountAppend('(', "@Other", ")");
    CountAppend(')', "@Other", ")");
    CountNone('(', "@Other");
    CountNone(')', "@Other");
  }

  lemma {:induction false} CountNone(c: char, s: string)
    requires c !in s
    ensures CountChar(c, s) == 0
  {
    if s != "" {
      CountNone(c, s[1..]);
    }
  }

  // ---------------------------------------------------------------- _extract_function_signature

  function Window(content: string, start: nat): string
    requires start <= |content|
  {
    content[start..if start + 200 <= |content| then start + 200 else |content|]
  }

  function Signature(content: string, start: nat): string
    requires start <= |content|
  {
    var w := Window(content, start);
    var c := Close(PARENS, w, 0);
    if c < |w| then w[..c + 1] else w
  }

  method ExtractFunctionSignature(content: string, startPos: nat) returns (r: string)
    requires startPos <= |content|
    ensures r == Signature(content, startPos)
  {
    var signature := Window(content, startPos);
    var parenCount := 0;
    var i := 0;
    while i < |signature|
      invariant 0 <= i <= |signature|
      invariant parenCount == Depth(PARENS, signature, 0, i)
      invariant Close(PARENS, signature, 0) == CloseFrom(PARENS, signature, 0, i)
    {
      var character := signature[i];
      if character == '(' {
        parenCount := parenCount + 1;
      } else if character == ')' {
        parenCount := parenCount - 1;
        if parenCount == 0 {
          return signature[..i + 1];
        }
      }
      i := i + 1;
    }
    return signature;
  }

  /** Looking at 200 characters only matters when the list is longer: otherwise the signature ends at the
      parenthesis `paren_close` finds in the whole text. */
  lemma SignatureIsCallText(content: string, start: nat)
    requires start <= |content|
    ensures var c := Close(PARENS, content, start);
            Signature(content, start) ==
            if c < |content| && c < start + 200 then content[start..c + 1] else Window(content, start)
  {
    var w, c := Window(content, start), Close(PARENS, content, start);
    WindowStops(content, start);
    var d := Close(PARENS, w, 0);
    if c < |content| && c < start + 200 {
      assert StopsAt(PARENS, w, 0, c - start);
      assert d == c - start;
      assert w[..d + 1] == content[start..c + 1];
    } else {
      forall j: nat | j < |w|
        ensures !StopsAt(PARENS, w, 0, j)
      {
        assert start + j < c;
      }
    }
  }

  lemma WindowStops(content: string, start: nat)
    requires start <= |content|
    ensures forall j: nat :: j < |Window(content, start)| ==>
              (StopsAt(PARENS, Window(content, start), 0, j) <==> StopsAt(PARENS, content, start, start + j))
  {
    var w := Window(content, start);
    forall j: nat | j < |w|
      ensures StopsAt(PARENS, w, 0, j) <==> StopsAt(PARENS, content, start, start + j)
    {
      Scope.DepthOfSlice(PARENS, content, start, start + |w|, j + 1);
    }
  }
}
