/** Net bracket depth of a substring, shared by the scanners of `_scope.py`, `native.py` and
    `android_analyzer.py`.  A `Pair` says which characters open and which close. */
module Brackets {
  datatype Pair = Pair(opens: set<char>, closes: set<char>)

  const BRACES := Pair({'{'}, {'}'})
  const PARENS := Pair({'('}, {')'})
  const BRACES_AND_PARENS := Pair({'{', '('}, {'}', ')'})

  function Weight(p: Pair, c: char): int {
    if c in p.opens then 1 else if c in p.closes then -1 else 0
  }

  /** Openers minus closers in `s[lo..hi]`. */
  function Depth(p: Pair, s: string, lo: nat, hi: nat): int
    requires lo <= hi <= |s|
    decreases hi - lo
  {
    if lo == hi then 0 else Depth(p, s, lo, hi - 1) + Weight(p, s[hi - 1])
  }

  /** Depth counted instead of scanned: how often each bracket occurs in the stretch. */
  lemma {:induction false} DepthIsCounts(s: string, lo: nat, hi: nat)
    requires lo <= hi <= |s|
    ensures var m := multiset(s[lo..hi]);
            && Depth(BRACES, s, lo, hi) + m['}'] == m['{']
            && Depth(PARENS, s, lo, hi) + m[')'] == m['(']
            && Depth(BRACES_AND_PARENS, s, lo, hi) + m['}'] + m[')'] == m['{'] + m['(']
    decreases hi - lo
  {
    if lo < hi {
      DepthIsCounts(s, lo, hi - 1);
      assert s[lo..hi] == s[lo..hi - 1] + [s[hi - 1]];
    }
  }

  lemma {:induction false} DepthSplit(p: Pair, s: string, lo: nat, mid: nat, hi: nat)
    requires lo <= mid <= hi <= |s|
    ensures Depth(p, s, lo, hi) == Depth(p, s, lo, mid) + Depth(p, s, mid, hi)
    decreases hi - mid
  {
    if mid < hi {
      DepthSplit(p, s, lo, mid, hi - 1);
    }
  }

  /** The scan started at `from` stops at `j`: a closer that brings the depth counter to zero. */
  predicate StopsAt(p: Pair, s: string, from: nat, j: nat) {
    from <= j < |s| && s[j] in p.closes && s[j] !in p.opens && Depth(p, s, from, j + 1) == 0
  }

  /** First stop of the scan at or after `j`, or the end of the text. */
  function CloseFrom(p: Pair, s: string, from: nat, j: nat): (c: nat)
    requires from <= j <= |s|
    ensures j <= c <= |s|
    ensures c < |s| ==> StopsAt(p, s, from, c)
    ensures forall k :: j <= k < c ==> !StopsAt(p, s, from, k)
    decreases |s| - j
  {
    if j == |s| || StopsAt(p, s, from, j) then j else CloseFrom(p, s, from, j + 1)
  }

  function Close(p: Pair, s: string, from: nat): (c: nat)
    requires from <= |s|
    ensures from <= c <= |s|
    ensures c < |s| ==> StopsAt(p, s, from, c)
    ensures forall k :: from <= k < c ==> !StopsAt(p, s, from, k)
  {
    CloseFrom(p, s, from, from)
  }

  /** A block opened by a real opener stays strictly open on every proper non-empty prefix. */
  lemma {:induction false} OpenInside(p: Pair, s: string, o: nat, k: nat)
    requires p.opens !! p.closes
    requires o < |s| && s[o] in p.opens
    requires o < k <= Close(p, s, o)
    ensures Depth(p, s, o, k) >= 1
    decreases k
  {
    if k > o + 1 {
      OpenInside(p, s, o, k - 1);
      assert !StopsAt(p, s, o, k - 1);
    } else {
      assert Depth(p, s, o, o) == 0;
    }
  }
}
