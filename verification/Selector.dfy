/** Choosing the element for a locator: `generate_selector` of framework/cli/daemon_commands.py. */
module Selector {
  import opened Wrappers
  import opened StableSort

  datatype Bounds = Bounds(left: int, top: int, right: int, bottom: int)

  datatype Element = Element(id: string, bounds: Bounds)

  /** The two request forms; a page source is already parsed into its elements. */
  datatype Request = Request(source: Option<seq<Element>>, x: Option<int>, y: Option<int>, element: Option<Element>)

  datatype Answer = Answer(element: Option<Element>, found: bool)

  predicate Holds(e: Element, x: int, y: int) {
    e.bounds.left <= x <= e.bounds.right && e.bounds.top <= y <= e.bounds.bottom
  }

  function Area(e: Element): int {
    (e.bounds.right - e.bounds.left) * (e.bounds.bottom - e.bounds.top)
  }

  function Contained(es: seq<Element>, x: int, y: int): (r: seq<Element>) {
    if es == [] then [] else (if Holds(es[0], x, y) then [es[0]] else []) + Contained(es[1..], x, y)
  }

  /** The loop over the candidates, smallest first. */
  method FirstLocated(candidates: seq<Element>, locates: Element -> bool) returns (r: Option<Element>)
    ensures r == FirstWhere(candidates, locates)
  {
    var i := 0;
    while i < |candidates|
      invariant 0 <= i <= |candidates|
      invariant FirstWhere(candidates, locates) == FirstWhere(candidates[i..], locates)
    {
      if locates(candidates[i]) {
        return Some(candidates[i]);
      }
      assert candidates[i..][1..] == candidates[i + 1..];
      i := i + 1;
    }
    return None;
  }

  /** `locates` stands for `selector_for(...) is not None`. */
  method GenerateSelector(r: Request, locates: Element -> bool) returns (answer: Result<Answer, string>)
    ensures answer.Err? <==> !(r.source.Some? && r.x.Some? && r.y.Some?) && r.element.None?
    ensures answer.Ok? && answer.value.found ==> answer.value.element.Some? && locates(answer.value.element.value)
    ensures r.source.Some? && r.x.Some? && r.y.Some? ==>
              && answer.Ok?
              && PointChoice(r.source.value, r.x.value, r.y.value, locates, answer.value)
    ensures r.source.Some? && r.x.Some? && r.y.Some? && answer.value.element.Some? ==>
              && answer.value.element.value in r.source.value
              && SmallestUnder(r.source.value, r.x.value, r.y.value, locates, answer.value.found, answer.value.element.value.bounds)
    ensures !(r.source.Some? && r.x.Some? && r.y.Some?) && r.element.Some? ==>
              answer == Ok(Answer(r.element, locates(r.element.value)))
  {
    var element: Option<Element> := None;
    if r.source.Some? && r.x.Some? && r.y.Some? {
      var x, y := r.x.value, r.y.value;
      var contained := SortBy(Contained(r.source.value, x, y), Area);
      element := FirstLocated(contained, locates);
      if element.None? {
        element := if contained != [] then Some(contained[0]) else None;
      }
      ScanContained(r.source.value, x, y, locates);
      ScanContained(r.source.value, x, y, Anything());
      FirstAnything(contained);
    } else if r.element.Some? {
      element := r.element;
    } else {
      return Err("selector/generate requires either {source, x, y} or {element}");
    }
    answer := Ok(Answer(element, element.Some? && locates(element.value)));
    if r.source.Some? && r.x.Some? && r.y.Some? && element.Some? {
      ChoiceIsSmallest(r.source.value, r.x.value, r.y.value, locates, answer.value);
    }
  }

  /** In coordinates: the point lies in these bounds, and no element whose bounds hold the point (and, if
      one was found, that yields a locator) has a smaller width times height. */
  ghost predicate SmallestUnder(es: seq<Element>, x: int, y: int, locates: Element -> bool, found: bool, b: Bounds) {
    && b.left <= x <= b.right && b.top <= y <= b.bottom
    && forall o :: o in es && (found ==> locates(o))
                   && o.bounds.left <= x <= o.bounds.right && o.bounds.top <= y <= o.bounds.bottom ==>
         (b.right - b.left) * (b.bottom - b.top)
         <= (o.bounds.right - o.bounds.left) * (o.bounds.bottom - o.bounds.top)
  }

  lemma ChoiceIsSmallest(es: seq<Element>, x: int, y: int, locates: Element -> bool, a: Answer)
    requires PointChoice(es, x, y, locates, a) && a.element.Some?
    ensures a.element.value in es && SmallestUnder(es, x, y, locates, a.found, a.element.value.bounds)
  {
    var q := if a.found then Under(x, y, locates) else Under(x, y, Anything());
    var i: nat :| SmallestAt(es, Area, q, i) && a.element.value == es[i];
    forall o | o in es && (a.found ==> locates(o)) && Holds(o, x, y)
      ensures Area(es[i]) <= Area(o)
    {
      var j :| 0 <= j < |es| && es[j] == o;
      assert q(es[j]);
      assert j == i || j < i || i < j;
    }
  }

  /** Under the point, and satisfying `p`. */
  function Under(x: int, y: int, p: Element -> bool): Element -> bool {
    (e: Element) => Holds(e, x, y) && p(e)
  }

  function Anything(): Element -> bool {
    (e: Element) => true
  }

  ghost predicate AnyIs(es: seq<Element>, p: Element -> bool) {
    exists i :: 0 <= i < |es| && p(es[i])
  }

  /** What a tap at (x, y) must answer: of the elements under the point that yield a locator, the first
      smallest one; if none does, the first smallest under the point, not found; nothing if nothing is
      under the point. */
  ghost predicate PointChoice(es: seq<Element>, x: int, y: int, locates: Element -> bool, a: Answer) {
    var good, here := Under(x, y, locates), Under(x, y, Anything());
    && (a.found <==> AnyIs(es, good))
    && (a.element.Some? <==> AnyIs(es, here))
    && (a.element.Some? ==>
          exists i: nat :: SmallestAt(es, Area, if a.found then good else here, i) && a.element.value == es[i])
  }

  /** Scanning the sorted contained elements for `p` finds the first smallest element under the point
      that satisfies `p`. */
  lemma {:induction false} ScanContained(es: seq<Element>, x: int, y: int, p: Element -> bool)
    ensures var f, q := FirstWhere(SortBy(Contained(es, x, y), Area), p), Under(x, y, p);
            && (f.Some? <==> AnyIs(es, q))
            && (f.Some? ==> exists i: nat :: SmallestAt(es, Area, q, i) && f.value == es[i])
  {
    SortContained(es, x, y, p);
    var i := SortedScanFindsSmallest(es, Area, Under(x, y, p));
  }

  lemma {:induction false} SortContained(es: seq<Element>, x: int, y: int, p: Element -> bool)
    ensures FirstWhere(SortBy(Contained(es, x, y), Area), p) == FirstWhere(SortBy(es, Area), Under(x, y, p))
  {
    if es != [] {
      var q := Under(x, y, p);
      SortContained(es[1..], x, y, p);
      SortBySorts(es[1..], Area);
      FirstWhereInsert(es[0], SortBy(es[1..], Area), Area, q);
      var rest := Contained(es[1..], x, y);
      if Holds(es[0], x, y) {
        SortBySorts(rest, Area);
        FirstWhereInsert(es[0], SortBy(rest, Area), Area, p);
        assert Contained(es, x, y)[1..] == rest;
      } else {
        assert Contained(es, x, y) == rest;
      }
    }
  }

  lemma FirstAnything(s: seq<Element>)
    ensures FirstWhere(s, Anything()) == if s == [] then None else Some(s[0])
  {
  }
}
