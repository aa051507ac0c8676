/** Brace-matched scoping: framework/analyzers/_scope.py. */
module Scope {
  import opened Wrappers
  import opened Brackets

  datatype Block = Block(open: nat, close: nat)

  /** One regex match as `finditer` yields it; `name` is group 1, which may not have taken part. */
  datatype Match = Match(start: nat, end: nat, name: Option<string>)

  // ---------------------------------------------------------------- specification

  /** The first `{` at or after `from`. */
  function FirstOpen(s: string, from: nat): (r: Option<nat>)
    ensures r.Some? ==> from <= r.value < |s| && s[r.value] == '{'
    ensures r.Some? ==> forall k :: from <= k < r.value ==> s[k] != '{'
    ensures r.None? ==> forall k :: from <= k < |s| ==> s[k] != '{'
    decreases |s| - from
  {
    if from >= |s| then None
    else if s[from] == '{' then Some(from)
    else FirstOpen(s, from + 1)
  }

  function CloseOf(s: string, o: nat): nat
    requires o <= |s|
  {
    Close(BRACES, s, o)
  }

  /** What the block at or after `from` is: its opener is the first one there, the depth counted from the
      opener stays positive up to the close, and the close is the closer that brings it back to zero, or
      the end of a text in which that never happens. */
  ghost predicate IsBlock(s: string, from: nat, b: Block) {
    && from <= b.open < b.close <= |s|
    && s[b.open] == '{' && (forall k :: from <= k < b.open ==> s[k] != '{')
    && (forall k :: b.open < k <= b.close ==> Depth(BRACES, s, b.open, k) >= 1)
    && (b.close < |s| ==> s[b.close] == '}' && Depth(BRACES, s, b.open, b.close + 1) == 0)
  }

  function BlockOf(s: string, from: nat): (r: Option<Block>)
    ensures r.None? <==> forall k :: from <= k < |s| ==> s[k] != '{'
    ensures r.Some? ==> IsBlock(s, from, r.value)
  {
    match FirstOpen(s, from)
    case None => None
    case Some(o) =>
      CloseShape(s, o);
      Some(Block(o, CloseOf(s, o)))
  }

  lemma CloseShape(s: string, o: nat)
    requires o < |s| && s[o] == '{'
    ensures o < CloseOf(s, o)
    ensures forall k :: o < k <= CloseOf(s, o) ==> Depth(BRACES, s, o, k) >= 1
  {
    assert Depth(BRACES, s, o, o) == 0;
    assert !StopsAt(BRACES, s, o, o);
    forall k | o < k <= CloseOf(s, o)
      ensures Depth(BRACES, s, o, k) >= 1
    {
      OpenInside(BRACES, s, o, k);
    }
  }

  /** There is no other such block. */
  lemma BlockUnique(s: string, from: nat, b: Block)
    requires IsBlock(s, from, b)
    ensures BlockOf(s, from) == Some(b)
  {
    var c := BlockOf(s, from).value;
    assert c.open == b.open;
    if c.close < |s| {
      assert Depth(BRACES, s, b.open, c.close + 1) == 0;
    }
    if b.close < |s| {
      assert Depth(BRACES, s, b.open, b.close + 1) == 0;
    }
  }

  /** `o` opens a block that is still open when the text before `pos` has been read. */
  predicate Unmatched(s: string, o: nat, pos: nat) {
    o < pos && o < |s| && s[o] == '{' && CloseOf(s, o) >= pos
  }

  /** Said by depth alone: `pos` lies in a block exactly if its opener stands before `pos` and the depth
      counted from there has not returned to zero. */
  lemma {:induction false} UnmatchedIffOpen(s: string, o: nat, pos: nat)
    requires pos <= |s|
    ensures Unmatched(s, o, pos) <==>
            o < pos && s[o] == '{' && forall k :: o < k <= pos ==> Depth(BRACES, s, o, k) >= 1
  {
    if o < pos && s[o] == '{' {
      CloseShape(s, o);
      if CloseOf(s, o) < pos {
        assert Depth(BRACES, s, o, CloseOf(s, o) + 1) == 0;
      }
    }
  }

  /** Positions outside the text count as its ends. */
  function Clamp(s: string, pos: int): (r: nat)
    ensures r <= |s| && (0 <= pos <= |s| ==> r == pos)
    ensures pos < 0 ==> r == 0
    ensures pos > |s| ==> r == |s|
  {
    if pos < 0 then 0 else if pos < |s| then pos else |s|
  }

  // ---------------------------------------------------------------- the scanners

  method BlockAfter(content: string, fromPos: nat) returns (r: Option<Block>)
    ensures r.None? <==> forall k :: fromPos <= k < |content| ==> content[k] != '{'
    ensures r.Some? ==>
              var b := r.value;
              && fromPos <= b.open < b.close <= |content|
              && content[b.open] == '{' && (forall k :: fromPos <= k < b.open ==> content[k] != '{')
              && (forall k :: b.open < k <= b.close ==> Depth(BRACES, content, b.open, k) >= 1)
              && (b.close < |content| ==> content[b.close] == '}' && Depth(BRACES, content, b.open, b.close + 1) == 0)
    ensures r == BlockOf(content, fromPos)
  {
    var found := FirstOpen(content, fromPos);
    if found.None? {
      return None;
    }
    var open := found.value;
    var depth := 0;
    var j := open;
    while j < |content|
      invariant open <= j <= |content|
      invariant depth == Depth(BRACES, content, open, j)
      invariant CloseOf(content, open) == CloseFrom(BRACES, content, open, j)
    {
      if content[j] == '{' {
        depth := depth + 1;
      } else if content[j] == '}' {
        depth := depth - 1;
        if depth == 0 {
          CloseShape(content, open);
          return Some(Block(open, j));
        }
      }
      j := j + 1;
    }
    CloseShape(content, open);
    return Some(Block(open, |content|));
  }

  /** `stack` lists exactly the openers unmatched before `i`, in order; an opener under `m` others
      has depth `m + 1`. */
  ghost predicate OpenStack(s: string, stack: seq<nat>, i: nat) {
    && i <= |s|
    && (forall k :: 0 <= k < |stack| ==> Unmatched(s, stack[k], i))
    && (forall k :: 0 <= k < |stack| ==> Depth(BRACES, s, stack[k], i) == |stack| - k)
    && (forall k, m :: 0 <= k < m < |stack| ==> stack[k] < stack[m])
    && (forall o: nat :: Unmatched(s, o, i) ==> o in stack)
  }

  /** The innermost block around `pos`: the largest unmatched opener, with its own close. */
  method EnclosingBlock(content: string, pos: int) returns (r: Option<Block>)
    ensures r.None? <==> forall o: nat :: !Unmatched(content, o, Clamp(content, pos))
    ensures r.Some? ==>
              && Unmatched(content, r.value.open, Clamp(content, pos))
              && IsBlock(content, r.value.open, r.value)
              && r.value.close == CloseOf(content, r.value.open)
              && forall o: nat :: Unmatched(content, o, Clamp(content, pos)) ==> o <= r.value.open
  {
    var stack: seq<nat> := [];
    var i, n := 0, Clamp(content, pos);
    while i < n
      invariant 0 <= i <= n
      invariant OpenStack(content, stack, i)
    {
      if content[i] == '{' {
        PushKeepsStack(content, stack, i);
        stack := stack + [i];
      } else if content[i] == '}' && stack != [] {
        PopKeepsStack(content, stack, i);
        stack := stack[..|stack| - 1];
      } else {
        SkipKeepsStack(content, stack, i);
      }
      i := i + 1;
    }
    if stack == [] {
      return None;
    }
    TopIsInnermost(content, stack, n);
    r := BlockAfter(content, stack[|stack| - 1]);
  }

  lemma TopIsInnermost(s: string, stack: seq<nat>, i: nat)
    requires stack != [] && OpenStack(s, stack, i)
    ensures var top := stack[|stack| - 1];
            Unmatched(s, top, i) && forall o: nat :: Unmatched(s, o, i) ==> o <= top
  {
  }

  lemma PushKeepsStack(s: string, stack: seq<nat>, i: nat)
    requires i < |s| && s[i] == '{' && OpenStack(s, stack, i)
    ensures OpenStack(s, stack + [i], i + 1)
  {
    UnmatchedStep(s, i);
    assert Depth(BRACES, s, i, i) == 0;
  }

  lemma PopKeepsStack(s: string, stack: seq<nat>, i: nat)
    requires i < |s| && s[i] == '}' && stack != [] && OpenStack(s, stack, i)
    ensures OpenStack(s, stack[..|stack| - 1], i + 1)
  {
    UnmatchedStep(s, i);
    var rest, top := stack[..|stack| - 1], stack[|stack| - 1];
    forall o: nat | Unmatched(s, o, i + 1)
      ensures o in rest
    {
      assert o in stack && o != top;
      assert stack == rest + [top];
    }
  }

  lemma SkipKeepsStack(s: string, stack: seq<nat>, i: nat)
    requires i < |s| && s[i] != '{' && (s[i] != '}' || stack == []) && OpenStack(s, stack, i)
    ensures OpenStack(s, stack, i + 1)
  {
    UnmatchedStep(s, i);
  }

  /** How reading the character at `i` changes the set of unmatched openers. */
  lemma UnmatchedStep(s: string, i: nat)
    requires i < |s|
    ensures forall o: nat :: Unmatched(s, o, i + 1) <==>
              (o == i && s[i] == '{') || (Unmatched(s, o, i) && !(s[i] == '}' && Depth(BRACES, s, o, i) == 1))
  {
    assert Depth(BRACES, s, i, i) == 0;
    forall o: nat | o < i && s[o] == '{'
      ensures StopsAt(BRACES, s, o, i) <==> s[i] == '}' && Depth(BRACES, s, o, i) == 1
    {
    }
    forall o: nat | o <= i
      ensures Unmatched(s, o, i + 1) ==> o == i || Unmatched(s, o, i)
      ensures Unmatched(s, o, i) && !StopsAt(BRACES, s, o, i) ==> Unmatched(s, o, i + 1)
    {
    }
  }

  /** What `finditer` guarantees of its matches: in order, not overlapping, inside the text. */
  ghost predicate FinditerOrder(content: string, matches: seq<Match>) {
    && (forall i :: 0 <= i < |matches| ==> matches[i].start <= matches[i].end <= |content|)
    && (forall i, j :: 0 <= i < j < |matches| ==> matches[i].end <= matches[j].start)
  }

  /** The declaration's body block contains `pos`. */
  predicate Contains(content: string, pos: nat, m: Match) {
    var b := BlockOf(content, m.end);
    b.Some? && b.value.open <= pos <= b.value.close
  }

  /** `b` is the body block of match `m` and contains `pos`. */
  ghost predicate BodyAround(content: string, pos: nat, m: Match, b: Block) {
    IsBlock(content, m.end, b) && b.open <= pos <= b.close
  }

  lemma ContainsIffBody(content: string, pos: nat, m: Match)
    ensures Contains(content, pos, m) <==> exists b :: BodyAround(content, pos, m, b)
    ensures forall b :: BodyAround(content, pos, m, b) ==> BlockOf(content, m.end) == Some(b)
  {
    forall b | BodyAround(content, pos, m, b)
      ensures BlockOf(content, m.end) == Some(b)
    {
      BlockUnique(content, m.end, b);
    }
    if Contains(content, pos, m) {
      assert BodyAround(content, pos, m, BlockOf(content, m.end).value);
    }
  }

  function OpenOf(content: string, m: Match): nat
    requires BlockOf(content, m.end).Some?
  {
    BlockOf(content, m.end).value.open
  }

  /** Match `k` is the tightest of the first `n`: greatest opening index, earliest on a tie. */
  ghost predicate Tightest(content: string, pos: nat, matches: seq<Match>, n: nat, k: nat) {
    && k < n <= |matches| && Contains(content, pos, matches[k])
    && forall j :: 0 <= j < n && Contains(content, pos, matches[j]) ==>
         OpenOf(content, matches[j]) < OpenOf(content, matches[k])
         || (OpenOf(content, matches[j]) == OpenOf(content, matches[k]) && k <= j)
  }

  /** The same without naming `BlockOf`: `b` is the body of match `k` around `pos`, no body around `pos`
      opens later, and no earlier match has the same body. */
  ghost predicate ChosenBody(content: string, pos: nat, matches: seq<Match>, k: nat, b: Block) {
    && k < |matches| && BodyAround(content, pos, matches[k], b)
    && forall j, c :: 0 <= j < |matches| && BodyAround(content, pos, matches[j], c) ==>
         c.open < b.open || (c.open == b.open && k <= j)
  }

  lemma TightestIsChosen(content: string, pos: nat, matches: seq<Match>, k: nat)
    requires Tightest(content, pos, matches, |matches|, k)
    ensures exists b :: ChosenBody(content, pos, matches, k, b)
  {
    forall j, c | 0 <= j < |matches| && BodyAround(content, pos, matches[j], c)
      ensures Contains(content, pos, matches[j]) && OpenOf(content, matches[j]) == c.open
    {
      ContainsIffBody(content, pos, matches[j]);
    }
    ContainsIffBody(content, pos, matches[k]);
    assert ChosenBody(content, pos, matches, k, BlockOf(content, matches[k].end).value);
  }

  /** Stated over all the matches, although the loop breaks at the first one starting after `pos`. */
  method EnclosingDeclaration(content: string, pos: nat, matches: seq<Match>) returns (name: Option<string>)
    requires FinditerOrder(content, matches)
    ensures (exists k: nat :: Tightest(content, pos, matches, |matches|, k) && name == matches[k].name)
         || (name == None && forall j :: 0 <= j < |matches| ==> !Contains(content, pos, matches[j]))
    ensures name.Some? ==> exists k: nat, b :: ChosenBody(content, pos, matches, k, b) && name == matches[k].name
    ensures forall j, b :: 0 <= j < |matches| && BodyAround(content, pos, matches[j], b) ==>
              exists k: nat, c :: ChosenBody(content, pos, matches, k, c) && name == matches[k].name
  {
    name := None;
    var bestOpen: int := -1;
    ghost var best := 0;
    var i := 0;
    while i < |matches|
      invariant 0 <= i <= |matches|
      invariant bestOpen == -1 ==> name == None && forall j :: 0 <= j < i ==> !Contains(content, pos, matches[j])
      invariant bestOpen != -1 ==>
                  && Tightest(content, pos, matches, i, best)
                  && bestOpen == OpenOf(content, matches[best]) && name == matches[best].name
    {
      var m := matches[i];
      if m.start > pos {
        LaterMatchesMiss(content, pos, matches, i);
        break;
      }
      var block := BlockAfter(content, m.end);
      if block.Some? && block.value.open <= pos <= block.value.close && block.value.open > bestOpen {
        NewTightest(content, pos, matches, i, best, bestOpen);
        name, bestOpen := m.name, block.value.open;
        best := i;
      } else if bestOpen != -1 {
        StaysTightest(content, pos, matches, i, best);
      }
      i := i + 1;
    }
    if bestOpen != -1 {
      assert Tightest(content, pos, matches, |matches|, best);
      TightestIsChosen(content, pos, matches, best);
    } else {
      forall j, b | 0 <= j < |matches| && BodyAround(content, pos, matches[j], b)
        ensures false
      {
        ContainsIffBody(content, pos, matches[j]);
      }
    }
  }

  lemma NewTightest(content: string, pos: nat, matches: seq<Match>, i: nat, best: nat, bestOpen: int)
    requires i < |matches| && Contains(content, pos, matches[i])
    requires if bestOpen == -1 then forall j :: 0 <= j < i ==> !Contains(content, pos, matches[j])
             else Tightest(content, pos, matches, i, best) && bestOpen == OpenOf(content, matches[best])
    requires OpenOf(content, matches[i]) > bestOpen
    ensures Tightest(content, pos, matches, i + 1, i)
  {
  }

  lemma StaysTightest(content: string, pos: nat, matches: seq<Match>, i: nat, best: nat)
    requires i < |matches| && Tightest(content, pos, matches, i, best)
    requires Contains(content, pos, matches[i]) ==> OpenOf(content, matches[i]) <= OpenOf(content, matches[best])
    ensures Tightest(content, pos, matches, i + 1, best)
  {
  }

  lemma LaterMatchesMiss(content: string, pos: nat, matches: seq<Match>, i: nat)
    requires FinditerOrder(content, matches) && i < |matches| && matches[i].start > pos
    ensures forall j :: i <= j < |matches| ==> !Contains(content, pos, matches[j])
  {
    forall j | i <= j < |matches|
      ensures !Contains(content, pos, matches[j])
    {
      assert matches[j].end > pos;
    }
  }

  function BlockTextAfter(content: string, fromPos: nat): (r: string)
    ensures r == "" <==> forall k :: fromPos <= k < |content| ==> content[k] != '{'
    ensures r != "" ==> exists b :: IsBlock(content, fromPos, b) && r == content[b.open..if b.close < |content| then b.close + 1 else |content|]
  {
    match BlockOf(content, fromPos)
    case None => ""
    case Some(b) => content[b.open..if b.close < |content| then b.close + 1 else |content|]
  }

  lemma NoEarlierStop(s: string, from: nat)
    requires from <= |s|
    ensures forall j :: from <= j < Close(PARENS, s, from) && s[j] == ')' ==> Depth(PARENS, s, from, j + 1) != 0
  {
    forall j | from <= j < Close(PARENS, s, from) && s[j] == ')'
      ensures Depth(PARENS, s, from, j + 1) != 0
    {
      assert !StopsAt(PARENS, s, from, j);
    }
  }

  method ParenClose(content: string, openIndex: nat) returns (r: nat)
    requires openIndex <= |content|
    ensures openIndex <= r <= |content|
    ensures r < |content| ==> content[r] == ')' && Depth(PARENS, content, openIndex, r + 1) == 0
    ensures forall j :: openIndex <= j < r && content[j] == ')' ==> Depth(PARENS, content, openIndex, j + 1) != 0
    ensures r == Close(PARENS, content, openIndex)
  {
    var depth := 0;
    var j := openIndex;
    while j < |content|
      invariant openIndex <= j <= |content|
      invariant depth == Depth(PARENS, content, openIndex, j)
      invariant Close(PARENS, content, openIndex) == CloseFrom(PARENS, content, openIndex, j)
    {
      if content[j] == '(' {
        depth := depth + 1;
      } else if content[j] == ')' {
        depth := depth - 1;
        if depth == 0 {
          NoEarlierStop(content, openIndex);
          return j;
        }
      }
      j := j + 1;
    }
    NoEarlierStop(content, openIndex);
    return |content|;
  }

  // ---------------------------------------------------------------- theorems

  /** Shape of one block: positive depth on every proper non-empty prefix; matched exactly when its
      close is a brace that brings the depth to zero; otherwise it runs to the end of the text. */
  lemma BlockShape(s: string, from: nat)
    requires BlockOf(s, from).Some?
    ensures var b := BlockOf(s, from).value;
            && from <= b.open < b.close <= |s|
            && (forall k :: b.open < k <= b.close ==> Depth(BRACES, s, b.open, k) >= 1)
            && (b.close < |s| ==> s[b.close] == '}' && Depth(BRACES, s, b.open, b.close + 1) == 0)
            && (b.close == |s| <==> forall k :: b.open < k <= |s| ==> Depth(BRACES, s, b.open, k) >= 1)
  {
    var b := BlockOf(s, from).value;
    if b.close < |s| {
      assert Depth(BRACES, s, b.open, b.close + 1) == 0;
    }
  }

  /** The blocks of a text form a laminar family: two of them are disjoint or one is inside the
      other, and a block inside a matched block is matched and ends strictly earlier. */
  lemma Laminar(s: string, o1: nat, o2: nat)
    requires o1 < o2 < |s| && s[o1] == '{' && s[o2] == '{'
    ensures CloseOf(s, o1) < o2 || CloseOf(s, o2) < CloseOf(s, o1) || CloseOf(s, o1) == CloseOf(s, o2) == |s|
  {
    var c1, c2 := CloseOf(s, o1), CloseOf(s, o2);
    if o2 <= c1 && c1 <= c2 && c1 < |s| {
      DepthSplit(BRACES, s, o1, o2, c1 + 1);
      OpenInside(BRACES, s, o1, o2);
      assert Depth(BRACES, s, o2, c1 + 1) < 0;
      assert s[c1] == '}' && o2 != c1;
      OpenInside(BRACES, s, o2, c1);
      assert false;
    }
  }

  /** The text of a matched block is balanced and every proper prefix of it is not. */
  lemma BlockTextBalanced(s: string, from: nat)
    requires BlockOf(s, from).Some? && BlockOf(s, from).value.close < |s|
    ensures var t := BlockTextAfter(s, from);
            && |t| >= 2 && t[0] == '{' && t[|t| - 1] == '}'
            && Depth(BRACES, t, 0, |t|) == 0
            && forall k :: 0 < k < |t| ==> Depth(BRACES, t, 0, k) >= 1
  {
    BlockShape(s, from);
    var b, t := BlockOf(s, from).value, BlockTextAfter(s, from);
    forall k | 0 <= k <= |t|
      ensures Depth(BRACES, t, 0, k) == Depth(BRACES, s, b.open, b.open + k)
    {
      DepthOfSlice(BRACES, s, b.open, b.close + 1, k);
    }
  }

  lemma {:induction false} DepthOfSlice(p: Pair, s: string, lo: nat, hi: nat, k: nat)
    requires lo <= hi <= |s| && k <= hi - lo
    ensures Depth(p, s[lo..hi], 0, k) == Depth(p, s, lo, lo + k)
    decreases k
  {
    if k > 0 {
      DepthOfSlice(p, s, lo, hi, k - 1);
    }
  }

  /** The two ways of scoping agree: a declaration chosen for `pos` that opens before it is one of the
      blocks still open there, so the innermost enclosing block lies within the declaration's. */
  lemma DeclarationHoldsInnermostBlock(content: string, pos: nat, m: Match, inner: Block)
    requires pos <= |content| && Contains(content, pos, m) && OpenOf(content, m) < pos
    requires Unmatched(content, inner.open, pos) && inner.close == CloseOf(content, inner.open)
    requires forall o: nat :: Unmatched(content, o, pos) ==> o <= inner.open
    ensures var d := BlockOf(content, m.end).value; d.open <= inner.open && inner.close <= d.close
  {
    var d := BlockOf(content, m.end).value;
    assert Unmatched(content, d.open, pos);
    if d.open < inner.open {
      Laminar(content, d.open, inner.open);
    }
  }
}
