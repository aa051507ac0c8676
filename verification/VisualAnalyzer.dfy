/** The bookkeeping of class VisualAnalyzer in framework/analysis/visual_analyzer.py. */
module VisualAnalyzer {
  import opened Wrappers
  import opened VisualDiff

  /** A file that exists: an image, or something Pillow cannot read. */
  type File = Option<Image>

  datatype Diff = Diff(screen: string, percentage: real, regions: seq<Region>, threshold: real)

  predicate HasRegression(d: Diff) {
    d.percentage > d.threshold * 100.0
  }

  /** `cur.resize(base.size)`. */
  ghost predicate Resizes(resize: (Image, Image) -> Image) {
    forall cur: Image, base: Image :: base.Valid() ==> SameSize(resize(cur, base), base)
  }

  function Fitted(base: Image, cur: Image, resize: (Image, Image) -> Image): Image {
    if cur.width == base.width && |cur.rows| == |base.rows| then cur else resize(cur, base)
  }

  /** `_calculate_diff` and `_find_diff_regions`: an unreadable file scores zero and has no regions. */
  function Compared(screen: string, base: File, cur: File, threshold: real, resize: (Image, Image) -> Image): Diff
    requires Resizes(resize) && (base.Some? ==> base.value.Valid()) && (cur.Some? ==> cur.value.Valid())
  {
    if base.None? || cur.None? then Diff(screen, 0.0, [], threshold)
    else
      var c := Fitted(base.value, cur.value, resize);
      Diff(screen, DiffPercentage(base.value, c), DiffRegions(base.value, c), threshold)
  }

  /** A comparison never reports a percentage without a region, or a region without a percentage. */
  lemma ComparedConsistent(screen: string, base: File, cur: File, threshold: real, resize: (Image, Image) -> Image)
    requires Resizes(resize) && (base.Some? ==> base.value.Valid()) && (cur.Some? ==> cur.value.Valid())
    ensures var d := Compared(screen, base, cur, threshold, resize);
            0.0 <= d.percentage <= 100.0 && (d.percentage == 0.0 <==> d.regions == [])
  {
    if base.Some? && cur.Some? {
      PercentageAndRegions(base.value, Fitted(base.value, cur.value, resize));
    }
  }

  function Regressions(results: seq<Diff>): seq<Diff> {
    if results == [] then []
    else
      var last := results[|results| - 1];
      Regressions(results[..|results| - 1]) + if HasRegression(last) then [last] else []
  }

  /** Regressions are the comparisons above their threshold, each as often as it was made, and those of two
      stretches of comparisons stand one after the other. */
  lemma {:induction false} RegressionsFilter(a: seq<Diff>, b: seq<Diff>, d: Diff)
    ensures Regressions(a + b) == Regressions(a) + Regressions(b)
    ensures multiset(Regressions(a))[d] == if d.percentage > d.threshold * 100.0 then multiset(a)[d] else 0
  {
    RegressionsAppend(a, b);
    RegressionsKeep(a, d);
  }

  lemma {:induction false} RegressionsAppend(a: seq<Diff>, b: seq<Diff>)
    ensures Regressions(a + b) == Regressions(a) + Regressions(b)
    decreases |b|
  {
    if b == [] {
      assert a + b == a;
    } else {
      var rest, last := b[..|b| - 1], b[|b| - 1];
      assert (a + b)[..|a + b| - 1] == a + rest && (a + b)[|a + b| - 1] == last;
      RegressionsAppend(a, rest);
    }
  }

  lemma {:induction false} RegressionsKeep(a: seq<Diff>, d: Diff)
    ensures multiset(Regressions(a))[d] == if d.percentage > d.threshold * 100.0 then multiset(a)[d] else 0
  {
    if a != [] {
      RegressionsKeep(a[..|a| - 1], d);
      assert a == a[..|a| - 1] + [a[|a| - 1]];
    }
  }

  /** `sum(1 for d in self.results if d.is_match)`. */
  function Passed(results: seq<Diff>): nat {
    if results == [] then 0
    else Passed(results[..|results| - 1]) + if HasRegression(results[|results| - 1]) then 0 else 1
  }

  lemma {:induction false} PassedAndFailed(results: seq<Diff>)
    ensures |results| - Passed(results) == |Regressions(results)|
  {
    if results != [] {
      PassedAndFailed(results[..|results| - 1]);
    }
  }

  class Analyzer {
    var baselines: map<string, File>
    var diffs: seq<Diff>
    var results: seq<Diff>
    const resize: (Image, Image) -> Image

    ghost predicate Valid()
      reads this
    {
      && Resizes(resize)
      && diffs == Regressions(results)
      && forall name :: name in baselines && baselines[name].Some? ==> baselines[name].value.Valid()
    }

    constructor (resize: (Image, Image) -> Image)
      requires Resizes(resize)
      ensures Valid() && results == [] && diffs == [] && baselines == map[]
    {
      this.resize, baselines, diffs, results := resize, map[], [], [];
    }

    /** `current` is None when the screenshot file does not exist; copying it then fails quietly. */
    method CompareScreenshots(screen: string, current: Option<File>, threshold: real) returns (diff: Option<Diff>)
      requires Valid() && (current.Some? && current.value.Some? ==> current.value.value.Valid())
      modifies this
      ensures Valid()
      ensures screen !in old(baselines) ==>
                && diff == None && results == old(results)
                && baselines == if current.Some? then old(baselines)[screen := current.value] else old(baselines)
      ensures screen in old(baselines) ==> baselines == old(baselines)
      ensures screen in old(baselines) && current.None? ==> diff == None && results == old(results)
      ensures screen in old(baselines) && current.Some? ==>
                && diff == Some(Compared(screen, old(baselines)[screen], current.value, threshold, resize))
                && results == old(results) + [diff.value]
                && diffs == old(diffs) + (if diff.value.percentage > threshold * 100.0 then [diff.value] else [])
                && diff.value.screen == screen && diff.value.threshold == threshold
      ensures screen in old(baselines) && current.Some? && old(baselines)[screen].Some? && current.value.Some? ==>
                var base := old(baselines)[screen].value;
                var cur := if SameSize(current.value.value, base) then current.value.value
                           else resize(current.value.value, base);
                && SameSize(base, cur) && diff.Some?
                && diff.value.percentage == DiffPercentage(base, cur)
                && diff.value.regions == DiffRegions(base, cur)
      ensures screen in old(baselines) && current.Some? && (old(baselines)[screen].None? || current.value.None?) ==>
                diff.Some? && diff.value.percentage == 0.0 && diff.value.regions == []
    {
      if screen !in baselines {
        if current.Some? {
          baselines := baselines[screen := current.value];
        }
        return None;
      }
      if current.None? {
        return None;
      }
      var d := Compared(screen, baselines[screen], current.value, threshold, resize);
      results := results + [d];
      assert results[..|results| - 1] == old(results);
      if HasRegression(d) {
        diffs := diffs + [d];
      } else {
        assert diffs + [] == diffs;
      }
      diff := Some(d);
    }

    /** The returned regressions are exactly the ones this batch added to `diffs`. */
    method BatchCompare(screenshots: seq<(string, File)>, threshold: real) returns (regressions: seq<Diff>)
      requires Valid()
      requires forall i :: 0 <= i < |screenshots| && screenshots[i].1.Some? ==> screenshots[i].1.value.Valid()
      modifies this
      ensures Valid()
      ensures diffs == old(diffs) + regressions
      ensures old(results) <= results
    {
      regressions := [];
      var i := 0;
      while i < |screenshots|
        invariant 0 <= i <= |screenshots|
        invariant Valid()
        invariant diffs == old(diffs) + regressions
        invariant old(results) <= results
      {
        var (name, file) := screenshots[i];
        var diff := CompareScreenshots(name, Some(file), threshold);
        if diff.Some? && HasRegression(diff.value) {
          regressions := regressions + [diff.value];
        }
        i := i + 1;
      }
    }

    /** The counts of the HTML report. */
    method Counts() returns (total: nat, passed: nat, failed: nat)
      requires Valid()
      ensures total == |results| && failed == |diffs| && passed + failed == total
    {
      PassedAndFailed(results);
      total, passed := |results|, Passed(results);
      failed := total - passed;
    }
  }

  /** A screen compared with the very screenshot its baseline was made from never regresses. */
  lemma FreshBaselineMatches(screen: string, shot: File, threshold: real, resize: (Image, Image) -> Image)
    requires Resizes(resize) && (shot.Some? ==> shot.value.Valid()) && threshold >= 0.0
    ensures var d := Compared(screen, shot, shot, threshold, resize);
            d.percentage == 0.0 && d.regions == [] && !HasRegression(d)
  {
    ComparedConsistent(screen, shot, shot, threshold, resize);
    if shot.Some? {
      ZeroIffIdentical(shot.value, shot.value);
    }
  }
}
