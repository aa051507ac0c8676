/** Python's `list.sort(key=...)`: ascending by key, equal keys in their original order. */
module StableSort {
  import opened Wrappers

  /** The elements with key `k`, in order. */
  function WithKey<T>(s: seq<T>, key: T -> int, k: int): seq<T> {
    if s == [] then [] else (if key(s[0]) == k then [s[0]] else []) + WithKey(s[1..], key, k)
  }

  predicate Ascending<T>(s: seq<T>, key: T -> int) {
    forall i, j :: 0 <= i < j < |s| ==> key(s[i]) <= key(s[j])
  }

  ghost predicate SameByKey<T>(a: seq<T>, b: seq<T>, key: T -> int) {
    forall k :: WithKey(a, key, k) == WithKey(b, key, k)
  }

  /** `x` goes in front of the first element whose key is not smaller. */
  function Insert<T>(x: T, s: seq<T>, key: T -> int): seq<T> {
    if s == [] || key(x) <= key(s[0]) then [x] + s else [s[0]] + Insert(x, s[1..], key)
  }

  function SortBy<T>(s: seq<T>, key: T -> int): (r: seq<T>)
    ensures |r| == |s| && multiset(r) == multiset(s)
  {
    if s == [] then []
    else
      InsertMembers(s[0], SortBy(s[1..], key), key);
      assert s == [s[0]] + s[1..];
      Insert(s[0], SortBy(s[1..], key), key)
  }

  lemma {:induction false} InsertMembers<T>(x: T, s: seq<T>, key: T -> int)
    ensures multiset(Insert(x, s, key)) == multiset([x] + s)
    ensures |Insert(x, s, key)| == |s| + 1
  {
    if !(s == [] || key(x) <= key(s[0])) {
      InsertMembers(x, s[1..], key);
      assert s == [s[0]] + s[1..];
    }
  }

  lemma {:induction false} InsertAscending<T>(x: T, s: seq<T>, key: T -> int)
    requires Ascending(s, key)
    ensures Ascending(Insert(x, s, key), key)
  {
    if !(s == [] || key(x) <= key(s[0])) {
      InsertAscending(x, s[1..], key);
      InsertBounded(x, s[1..], key, key(s[0]));
    }
  }

  lemma {:induction false} InsertBounded<T>(x: T, s: seq<T>, key: T -> int, low: int)
    requires low <= key(x) && forall i :: 0 <= i < |s| ==> low <= key(s[i])
    ensures forall i :: 0 <= i < |Insert(x, s, key)| ==> low <= key(Insert(x, s, key)[i])
  {
    if !(s == [] || key(x) <= key(s[0])) {
      InsertBounded(x, s[1..], key, low);
    }
  }

  lemma {:induction false} InsertByKey<T>(x: T, s: seq<T>, key: T -> int, k: int)
    ensures WithKey(Insert(x, s, key), key, k) == (if key(x) == k then [x] else []) + WithKey(s, key, k)
  {
    if s == [] || key(x) <= key(s[0]) {
      assert ([x] + s)[1..] == s;
    } else {
      InsertByKey(x, s[1..], key, k);
    }
  }

  /** The result is ascending and keeps the order among equal keys. */
  lemma {:induction false} SortBySorts<T>(s: seq<T>, key: T -> int)
    ensures Ascending(SortBy(s, key), key)
    ensures SameByKey(SortBy(s, key), s, key)
  {
    if s != [] {
      var rest := SortBy(s[1..], key);
      SortBySorts(s[1..], key);
      InsertAscending(s[0], rest, key);
      forall k
        ensures WithKey(SortBy(s, key), key, k) == WithKey(s, key, k)
      {
        InsertByKey(s[0], rest, key, k);
        assert WithKey(rest, key, k) == WithKey(s[1..], key, k);
      }
    }
  }

  lemma {:induction false} WithKeyMember<T>(s: seq<T>, key: T -> int, i: nat)
    requires i < |s|
    ensures WithKey(s, key, key(s[i])) != []
  {
    if i > 0 {
      WithKeyMember(s[1..], key, i - 1);
    }
  }

  lemma {:induction false} WithKeyFound<T>(s: seq<T>, key: T -> int, k: int)
    requires WithKey(s, key, k) != []
    ensures exists i :: 0 <= i < |s| && key(s[i]) == k
  {
    if key(s[0]) != k {
      WithKeyFound(s[1..], key, k);
      var i :| 0 <= i < |s[1..]| && key(s[1..][i]) == k;
      assert key(s[i + 1]) == k;
    }
  }

  lemma SomeKey<T>(s: seq<T>, key: T -> int)
    ensures s != [] ==> exists k :: WithKey(s, key, k) != []
  {
    if s != [] {
      assert WithKey(s, key, key(s[0])) != [];
    }
  }

  lemma WithKeyTail<T>(s: seq<T>, key: T -> int, k: int)
    requires s != []
    ensures WithKey(s[1..], key, k) == if key(s[0]) == k then WithKey(s, key, k)[1..] else WithKey(s, key, k)
  {
  }

  /** The two properties determine the result: any stable ascending arrangement is this one. */
  lemma {:induction false} StableSortUnique<T>(a: seq<T>, b: seq<T>, key: T -> int)
    requires Ascending(a, key) && Ascending(b, key) && SameByKey(a, b, key)
    ensures a == b
    decreases |a|
  {
    if a == [] {
      SomeKey(b, key);
    } else {
      WithKeyMember(a, key, 0);
      WithKeyFound(b, key, key(a[0]));
      WithKeyMember(b, key, 0);
      WithKeyFound(a, key, key(b[0]));
      var k := key(a[0]);
      assert key(b[0]) == k;
      assert WithKey(a, key, k)[0] == a[0] && WithKey(b, key, k)[0] == b[0];
      forall j
        ensures WithKey(a[1..], key, j) == WithKey(b[1..], key, j)
      {
        assert WithKey(a, key, j) == WithKey(b, key, j);
        WithKeyTail(a, key, j);
        WithKeyTail(b, key, j);
      }
      StableSortUnique(a[1..], b[1..], key);
    }
  }

  // ---------------------------------------------------------------- scanning a sorted list

  /** The first element that satisfies `p`. */
  function FirstWhere<T>(s: seq<T>, p: T -> bool): Option<T> {
    if s == [] then None else if p(s[0]) then Some(s[0]) else FirstWhere(s[1..], p)
  }

  /** Index `i` holds the first of the smallest elements that satisfy `p`. */
  ghost predicate SmallestAt<T>(s: seq<T>, key: T -> int, p: T -> bool, i: nat) {
    && i < |s| && p(s[i])
    && (forall j :: 0 <= j < i && p(s[j]) ==> key(s[i]) < key(s[j]))
    && (forall j :: i < j < |s| && p(s[j]) ==> key(s[i]) <= key(s[j]))
  }

  lemma {:induction false} FirstWhereInsert<T>(x: T, s: seq<T>, key: T -> int, p: T -> bool)
    requires Ascending(s, key)
    ensures var f := FirstWhere(s, p);
            FirstWhere(Insert(x, s, key), p) == if p(x) && (f.None? || key(x) <= key(f.value)) then Some(x) else f
  {
    if s == [] || key(x) <= key(s[0]) {
      assert ([x] + s)[1..] == s;
      FirstWhereMember(s, key, p);
    } else {
      FirstWhereInsert(x, s[1..], key, p);
    }
  }

  lemma {:induction false} FirstWhereMember<T>(s: seq<T>, key: T -> int, p: T -> bool)
    requires Ascending(s, key)
    ensures FirstWhere(s, p).Some? ==> key(s[0]) <= key(FirstWhere(s, p).value)
  {
    if s != [] && !p(s[0]) {
      FirstWhereMember(s[1..], key, p);
    }
  }

  /** Scanning the sorted list for `p` finds the first of the smallest elements satisfying `p`. */
  lemma {:induction false} SortedScanFindsSmallest<T>(s: seq<T>, key: T -> int, p: T -> bool) returns (i: int)
    ensures var f := FirstWhere(SortBy(s, key), p);
            && (f.None? ==> forall j :: 0 <= j < |s| ==> !p(s[j]))
            && (f.Some? ==> i >= 0 && SmallestAt(s, key, p, i) && f.value == s[i])
  {
    i := -1;
    if s != [] {
      i := SortedScanFindsSmallest(s[1..], key, p);
      SortBySorts(s[1..], key);
      FirstWhereInsert(s[0], SortBy(s[1..], key), key, p);
      var f := FirstWhere(SortBy(s[1..], key), p);
      SmallestShifts(s, key, p);
      if p(s[0]) && (f.None? || key(s[0]) <= key(f.value)) {
        i := 0;
      } else if f.Some? {
        i := i + 1;
      }
    }
  }

  /** The smallest element of a list, from the smallest of its tail. */
  lemma SmallestShifts<T>(s: seq<T>, key: T -> int, p: T -> bool)
    requires s != []
    ensures forall i: nat :: SmallestAt(s[1..], key, p, i) ==>
              if p(s[0]) && key(s[0]) <= key(s[1..][i]) then SmallestAt(s, key, p, 0) else SmallestAt(s, key, p, i + 1)
    ensures p(s[0]) && (forall j :: 0 <= j < |s[1..]| ==> !p(s[1..][j])) ==> SmallestAt(s, key, p, 0)
  {
    var tail := s[1..];
    assert forall j :: 1 <= j < |s| ==> s[j] == tail[j - 1];
  }
}
