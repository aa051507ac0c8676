/** The language-agnostic nesting heuristic: `_brace_nesting` of framework/analyzers/native.py.
    A counter clamped at zero computes a maximum-substring sum. */
module NestingHeuristic {
  import opened Brackets

  function Sum(s: string, lo: nat, hi: nat): int
    requires lo <= hi <= |s|
  {
    Depth(BRACES_AND_PARENS, s, lo, hi)
  }

  /** `d` is the largest opener surplus of a substring that ends at `i` (the empty one included). */
  ghost predicate IsMaxSuffix(s: string, i: nat, d: int) {
    && i <= |s|
    && (exists lo: nat :: lo <= i && Sum(s, lo, i) == d)
    && forall lo: nat :: lo <= i ==> Sum(s, lo, i) <= d
  }

  /** `d` is the largest opener surplus of any substring of `s[..n]`. */
  ghost predicate IsMaxSubstring(s: string, n: nat, d: int) {
    && n <= |s|
    && (exists lo: nat, hi: nat :: lo <= hi <= n && Sum(s, lo, hi) == d)
    && forall lo: nat, hi: nat :: lo <= hi <= n ==> Sum(s, lo, hi) <= d
  }

  method BraceNesting(source: string) returns (best: int)
    ensures IsMaxSubstring(source, |source|, best)
  {
    var depth := 0;
    best := 0;
    var i := 0;
    assert Sum(source, 0, 0) == 0;
    while i < |source|
      invariant 0 <= i <= |source|
      invariant IsMaxSuffix(source, i, depth)
      invariant IsMaxSubstring(source, i, best)
    {
      SuffixStep(source, i, depth);
      var ch := source[i];
      if ch == '{' || ch == '(' {
        depth := depth + 1;
        SubstringStep(source, i, best, depth);
        best := if best >= depth then best else depth;
      } else if ch == '}' || ch == ')' {
        SubstringStep(source, i, best, if depth - 1 > 0 then depth - 1 else 0);
        depth := if depth - 1 > 0 then depth - 1 else 0;
      } else {
        SubstringStep(source, i, best, depth);
      }
      i := i + 1;
    }
  }

  /** Clamping the counter at zero keeps it the maximum suffix sum. */
  lemma SuffixStep(s: string, i: nat, d: int)
    requires i < |s| && IsMaxSuffix(s, i, d)
    ensures d >= 0
    ensures var e := d + Weight(BRACES_AND_PARENS, s[i]);
            IsMaxSuffix(s, i + 1, if e > 0 then e else 0)
  {
    assert Sum(s, i, i) == 0;
    assert Sum(s, i + 1, i + 1) == 0;
    var e := d + Weight(BRACES_AND_PARENS, s[i]);
    var lo: nat :| lo <= i && Sum(s, lo, i) == d;
    assert Sum(s, lo, i + 1) == e;
    var j := i + 1;
    forall k: nat | k <= j
      ensures Sum(s, k, j) <= if e > 0 then e else 0
    {
      if k <= i {
        assert Sum(s, k, i) <= d;
      }
    }
    var w := if e > 0 then lo else i + 1;
    assert w <= i + 1 && Sum(s, w, i + 1) == if e > 0 then e else 0;
  }

  /** The best substring up to `i + 1` ends earlier or is the best suffix there. */
  lemma SubstringStep(s: string, i: nat, best: int, d: int)
    requires i < |s| && IsMaxSubstring(s, i, best) && IsMaxSuffix(s, i + 1, d)
    ensures IsMaxSubstring(s, i + 1, if best >= d then best else d)
    ensures Weight(BRACES_AND_PARENS, s[i]) <= 0 ==> d <= best
  {
    var lo0: nat, hi0: nat :| lo0 <= hi0 <= i && Sum(s, lo0, hi0) == best;
    var lo: nat :| lo <= i + 1 && Sum(s, lo, i + 1) == d;
    assert Sum(s, i, i) == 0;
    if lo <= i {
      assert Sum(s, lo, i + 1) == Sum(s, lo, i) + Weight(BRACES_AND_PARENS, s[i]);
    }
    forall a: nat, b: nat | a <= b <= i + 1
      ensures Sum(s, a, b) <= if best >= d then best else d
    {
      if b == i + 1 {
        assert Sum(s, a, i + 1) <= d;
      }
    }
  }

  /** `d` is the greatest depth of a prefix: the nesting of a text whose brackets match. */
  ghost predicate IsMaxPrefix(s: string, d: int) {
    && (exists hi: nat :: hi <= |s| && Sum(s, 0, hi) == d)
    && forall hi: nat :: hi <= |s| ==> Sum(s, 0, hi) <= d
  }

  /** No closer without its opener: then the answer is the true nesting depth. */
  lemma BalancedNesting(s: string, best: int)
    requires IsMaxSubstring(s, |s|, best)
    requires forall k: nat :: k <= |s| ==> Sum(s, 0, k) >= 0
    ensures IsMaxPrefix(s, best)
  {
    var lo: nat, hi: nat :| lo <= hi <= |s| && Sum(s, lo, hi) == best;
    DepthSplit(BRACES_AND_PARENS, s, 0, lo, hi);
    assert Sum(s, 0, lo) >= 0;
    assert Sum(s, 0, hi) >= best;
  }

  /** In general the answer is the deepest climb between two prefixes: how far a prefix depth rises
      above an earlier one.  It exceeds the greatest prefix depth only when some earlier prefix has
      gone below zero. */
  lemma NestingIsDeepestClimb(s: string, best: int, top: int)
    requires IsMaxSubstring(s, |s|, best) && IsMaxPrefix(s, top)
    ensures forall lo: nat, hi: nat :: lo <= hi <= |s| ==> Sum(s, 0, hi) - Sum(s, 0, lo) <= best
    ensures exists lo: nat, hi: nat :: lo <= hi <= |s| && Sum(s, 0, hi) - Sum(s, 0, lo) == best
    ensures top <= best
    ensures best > top ==> exists k: nat :: k <= |s| && Sum(s, 0, k) < 0
  {
    forall lo: nat, hi: nat | lo <= hi <= |s|
      ensures Sum(s, 0, hi) - Sum(s, 0, lo) == Sum(s, lo, hi)
    {
      DepthSplit(BRACES_AND_PARENS, s, 0, lo, hi);
    }
    assert Sum(s, 0, 0) == 0;
    if best > top && forall k: nat :: k <= |s| ==> Sum(s, 0, k) >= 0 {
      BalancedNesting(s, best);
    }
  }
}
