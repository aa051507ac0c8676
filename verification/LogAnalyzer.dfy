/** The log analyzer object: class LogAnalyzer of framework/api_analyzer/api_log_analyzer.py. */
module LogAnalyzer {
  import opened Wrappers
  import opened Text
  import opened Regex
  import opened LogPatterns
  import opened LogRoundTrip
  import opened StableSort

  datatype Log = Log(level: string, message: string)

  datatype Pattern = Pattern(
    pattern: string, regex: string, count: nat, examples: seq<string>, level: string, isError: bool)

  /** What the analyzer does to a message: its normal form, the pattern made from a normal form, and
      the case-insensitive search for the fixed error words, which the model leaves open. */
  datatype Rules = Rules(normalize: string -> string, regex: string -> string, isError: string -> bool)

  function LogRules(t: CharTable, isError: string -> bool): Rules {
    Rules(m => NormalizeMessage(t, m), n => CreateRegex(n), isError)
  }

  /** The logs whose message has the given normal form, in order. */
  function Group(f: Rules, logs: seq<Log>, normalized: string): seq<Log> {
    if logs == [] then []
    else
      var last := logs[|logs| - 1];
      Group(f, logs[..|logs| - 1], normalized)
      + if f.normalize(last.message) == normalized then [last] else []
  }

  /** Normal forms in the order in which they first occur: the insertion order of the dictionary. */
  function FirstSeen(f: Rules, logs: seq<Log>): seq<string> {
    if logs == [] then []
    else
      var seen, n := FirstSeen(f, logs[..|logs| - 1]), f.normalize(logs[|logs| - 1].message);
      if n in seen then seen else seen + [n]
  }

  function Messages(logs: seq<Log>): seq<string> {
    if logs == [] then [] else [logs[0].message] + Messages(logs[1..])
  }

  function PatternOf(f: Rules, logs: seq<Log>, normalized: string): Pattern
    requires Group(f, logs, normalized) != []
  {
    var group := Group(f, logs, normalized);
    Pattern(normalized, f.regex(normalized), |group|,
            Messages(group[..if |group| < 3 then |group| else 3]), group[0].level, f.isError(normalized))
  }

  function Descending(p: Pattern): int {
    0 - p.count
  }

  lemma {:induction false} FirstSeenHasGroups(f: Rules, logs: seq<Log>)
    ensures forall n :: n in FirstSeen(f, logs) <==> Group(f, logs, n) != []
    ensures forall i, j :: 0 <= i < j < |FirstSeen(f, logs)| ==> FirstSeen(f, logs)[i] != FirstSeen(f, logs)[j]
  {
    if logs != [] {
      FirstSeenHasGroups(f, logs[..|logs| - 1]);
    }
  }

  lemma {:induction false} GroupMember(f: Rules, logs: seq<Log>, normalized: string, log: Log)
    ensures log in Group(f, logs, normalized) <==> log in logs && f.normalize(log.message) == normalized
  {
    if logs != [] {
      GroupMember(f, logs[..|logs| - 1], normalized, log);
      assert logs == logs[..|logs| - 1] + [logs[|logs| - 1]];
    }
  }

  /** Grouping is filtering: a log is kept exactly if its message has that normal form, as often as it was
      logged, and the groups of two stretches of the log stand one after the other. */
  lemma {:induction false} GroupFilters(f: Rules, a: seq<Log>, b: seq<Log>, normalized: string, log: Log)
    ensures Group(f, a + b, normalized) == Group(f, a, normalized) + Group(f, b, normalized)
    ensures multiset(Group(f, a, normalized))[log] == if f.normalize(log.message) == normalized then multiset(a)[log] else 0
  {
    GroupAppend(f, a, b, normalized);
    GroupKeeps(f, a, normalized, log);
  }

  lemma {:induction false} GroupAppend(f: Rules, a: seq<Log>, b: seq<Log>, normalized: string)
    ensures Group(f, a + b, normalized) == Group(f, a, normalized) + Group(f, b, normalized)
    decreases |b|
  {
    if b == [] {
      assert a + b == a;
    } else {
      var rest, last := b[..|b| - 1], b[|b| - 1];
      assert (a + b)[..|a + b| - 1] == a + rest && (a + b)[|a + b| - 1] == last;
      GroupAppend(f, a, rest, normalized);
    }
  }

  lemma {:induction false} GroupKeeps(f: Rules, a: seq<Log>, normalized: string, log: Log)
    ensures multiset(Group(f, a, normalized))[log] == if f.normalize(log.message) == normalized then multiset(a)[log] else 0
  {
    if a != [] {
      GroupKeeps(f, a[..|a| - 1], normalized, log);
      assert a == a[..|a| - 1] + [a[|a| - 1]];
    }
  }

  /** Every normal form that occurs is listed once, in the order of the first occurrences. */
  lemma {:induction false} FirstSeenInOrder(f: Rules, logs: seq<Log>, i: nat, j: nat)
    requires i < j < |FirstSeen(f, logs)|
    ensures exists k: nat :: SeenBefore(f, logs, FirstSeen(f, logs)[i], FirstSeen(f, logs)[j], k)
  {
    var before := logs[..|logs| - 1];
    var seen := FirstSeen(f, before);
    assert seen <= FirstSeen(f, logs) && seen[i] == FirstSeen(f, logs)[i];
    if j < |seen| {
      assert seen[j] == FirstSeen(f, logs)[j];
      FirstSeenInOrder(f, before, i, j);
      var k: nat :| SeenBefore(f, before, seen[i], seen[j], k);
      assert before[k] == logs[k] && forall m :: 0 <= m <= k ==> before[m] == logs[m];
      assert SeenBefore(f, logs, seen[i], seen[j], k);
    } else {
      var n := f.normalize(logs[|logs| - 1].message);
      assert seen[i] in seen && n !in seen;
      FirstSeenHasGroups(f, before);
      NotSeen(f, before, n);
      assert n == FirstSeen(f, logs)[j];
      var k := SomeLog(f, before, seen[i]);
      assert before[k] == logs[k] && forall m :: 0 <= m <= k ==> before[m] == logs[m];
      assert SeenBefore(f, logs, seen[i], n, k);
    }
  }

  /** Log `k` has the normal form `n`, and no log up to there has the normal form `later`. */
  ghost predicate SeenBefore(f: Rules, logs: seq<Log>, n: string, later: string, k: nat) {
    && k < |logs| && f.normalize(logs[k].message) == n
    && forall m :: 0 <= m <= k ==> f.normalize(logs[m].message) != later
  }

  lemma NotSeen(f: Rules, logs: seq<Log>, n: string)
    requires Group(f, logs, n) == []
    ensures forall m :: 0 <= m < |logs| ==> f.normalize(logs[m].message) != n
  {
    forall m | 0 <= m < |logs|
      ensures f.normalize(logs[m].message) != n
    {
      GroupMember(f, logs, n, logs[m]);
    }
  }

  lemma SomeLog(f: Rules, logs: seq<Log>, n: string) returns (k: nat)
    requires Group(f, logs, n) != []
    ensures k < |logs| && f.normalize(logs[k].message) == n
  {
    var log := Group(f, logs, n)[0];
    GroupMember(f, logs, n, log);
    k :| k < |logs| && logs[k] == log;
  }

  /** `p` describes a whole group that is frequent enough: how many logs it has, up to three of their
      messages, the level of the first one, the generated pattern and whether it reads like an error. */
  ghost predicate Entry(f: Rules, logs: seq<Log>, minimum: int, p: Pattern) {
    var group := Group(f, logs, p.pattern);
    && group != [] && |group| >= minimum && p.count == |group|
    && p.regex == f.regex(p.pattern) && p.isError == f.isError(p.pattern) && p.level == group[0].level
    && |p.examples| <= 3 && |p.examples| <= |group| && (|p.examples| == 3 || |p.examples| == |group|)
    && forall i :: 0 <= i < |p.examples| ==> p.examples[i] == group[i].message
  }

  lemma {:induction false} MessagesEach(logs: seq<Log>)
    ensures |Messages(logs)| == |logs|
    ensures forall i :: 0 <= i < |logs| ==> Messages(logs)[i] == logs[i].message
  {
    if logs != [] {
      MessagesEach(logs[1..]);
    }
  }

  lemma PatternIsEntry(f: Rules, logs: seq<Log>, minimum: int, n: string)
    requires Group(f, logs, n) != [] && |Group(f, logs, n)| >= minimum
    ensures Entry(f, logs, minimum, PatternOf(f, logs, n))
  {
    var group := Group(f, logs, n);
    MessagesEach(group[..if |group| < 3 then |group| else 3]);
  }

  ghost predicate Listed(ps: seq<Pattern>, normalized: string) {
    exists k :: 0 <= k < |ps| && ps[k].pattern == normalized
  }

  /** What a list of detected patterns must be: exactly one entry per frequent normal form. */
  ghost predicate Describes(f: Rules, logs: seq<Log>, minimum: int, ps: seq<Pattern>) {
    && (forall k :: 0 <= k < |ps| ==> Entry(f, logs, minimum, ps[k]))
    && (forall n :: Group(f, logs, n) != [] && |Group(f, logs, n)| >= minimum ==> Listed(ps, n))
    && (forall j, k :: 0 <= j < k < |ps| ==> ps[j].pattern != ps[k].pattern)
  }

  /** The entries of the frequent normal forms among `ns`, in that order. */
  function Entries(f: Rules, logs: seq<Log>, minimum: int, ns: seq<string>): seq<Pattern>
    requires forall i :: 0 <= i < |ns| ==> Group(f, logs, ns[i]) != []
  {
    if ns == [] then []
    else
      var last := ns[|ns| - 1];
      Entries(f, logs, minimum, ns[..|ns| - 1])
      + if |Group(f, logs, last)| >= minimum then [PatternOf(f, logs, last)] else []
  }

  /** The grouping loop; `order` is the insertion order of the dictionary. */
  method GroupLogs(f: Rules, logs: seq<Log>) returns (groups: map<string, seq<Log>>, order: seq<string>)
    ensures order == FirstSeen(f, logs)
    ensures forall n :: n in groups <==> n in order
    ensures forall n :: n in groups ==> groups[n] == Group(f, logs, n)
  {
    groups, order := map[], [];
    var i := 0;
    while i < |logs|
      invariant 0 <= i <= |logs|
      invariant order == FirstSeen(f, logs[..i])
      invariant forall n :: n in groups <==> n in order
      invariant forall n :: n in groups ==> groups[n] == Group(f, logs[..i], n)
    {
      var normalized := f.normalize(logs[i].message);
      assert logs[..i + 1][..i] == logs[..i];
      FirstSeenHasGroups(f, logs[..i]);
      if normalized !in groups {
        order := order + [normalized];
        groups := groups[normalized := [logs[i]]];
      } else {
        groups := groups[normalized := groups[normalized] + [logs[i]]];
      }
      i := i + 1;
    }
    assert logs[..i] == logs;
  }

  /** The loop that keeps the groups with enough logs. */
  method FrequentGroups(f: Rules, logs: seq<Log>, minimum: int, groups: map<string, seq<Log>>, order: seq<string>)
    returns (found: seq<Pattern>)
    requires forall i :: 0 <= i < |order| ==>
               order[i] in groups && groups[order[i]] == Group(f, logs, order[i]) && Group(f, logs, order[i]) != []
    ensures found == Entries(f, logs, minimum, order)
  {
    found := [];
    var k := 0;
    while k < |order|
      invariant 0 <= k <= |order|
      invariant found == Entries(f, logs, minimum, order[..k])
    {
      EntriesNext(f, logs, minimum, order, k);
      var group := groups[order[k]];
      if |group| >= minimum {
        found := found + [PatternOf(f, logs, order[k])];
      }
      k := k + 1;
    }
    assert order[..k] == order;
  }

  lemma EntriesNext(f: Rules, logs: seq<Log>, minimum: int, ns: seq<string>, k: nat)
    requires k < |ns|
    requires forall i :: 0 <= i < |ns| ==> Group(f, logs, ns[i]) != []
    ensures Entries(f, logs, minimum, ns[..k + 1]) ==
            Entries(f, logs, minimum, ns[..k])
            + if |Group(f, logs, ns[k])| >= minimum then [PatternOf(f, logs, ns[k])] else []
  {
    assert ns[..k + 1][..k] == ns[..k];
  }

  /** The description restricted to the normal forms looked at so far. */
  ghost predicate DescribesFirst(f: Rules, logs: seq<Log>, minimum: int, done: seq<string>, ps: seq<Pattern>) {
    && (forall k :: 0 <= k < |ps| ==> Entry(f, logs, minimum, ps[k]))
    && (forall k :: 0 <= k < |ps| ==> ps[k].pattern in done)
    && (forall n :: n in done && |Group(f, logs, n)| >= minimum ==> Listed(ps, n))
    && (forall j, k :: 0 <= j < k < |ps| ==> ps[j].pattern != ps[k].pattern)
  }

  lemma {:induction false} EntriesDescribe(f: Rules, logs: seq<Log>, minimum: int, ns: seq<string>)
    requires forall i :: 0 <= i < |ns| ==> Group(f, logs, ns[i]) != []
    requires forall i, j :: 0 <= i < j < |ns| ==> ns[i] != ns[j]
    ensures DescribesFirst(f, logs, minimum, ns, Entries(f, logs, minimum, ns))
  {
    if ns != [] {
      var done, last := ns[..|ns| - 1], ns[|ns| - 1];
      EntriesDescribe(f, logs, minimum, done);
      assert ns == done + [last];
      if |Group(f, logs, last)| >= minimum {
        AddEntry(f, logs, minimum, done, last, Entries(f, logs, minimum, done));
      } else {
        assert Entries(f, logs, minimum, ns) == Entries(f, logs, minimum, done);
      }
    }
  }

  lemma AddEntry(f: Rules, logs: seq<Log>, minimum: int, done: seq<string>, n: string, ps: seq<Pattern>)
    requires DescribesFirst(f, logs, minimum, done, ps) && n !in done
    requires Group(f, logs, n) != [] && |Group(f, logs, n)| >= minimum
    ensures DescribesFirst(f, logs, minimum, done + [n], ps + [PatternOf(f, logs, n)])
  {
    var p := PatternOf(f, logs, n);
    PatternIsEntry(f, logs, minimum, n);
    ListedAppend(ps, p);
    assert forall k :: 0 <= k < |ps| ==> (ps + [p])[k] == ps[k];
  }

  lemma ListedAppend(ps: seq<Pattern>, p: Pattern)
    ensures forall n :: Listed(ps, n) ==> Listed(ps + [p], n)
    ensures Listed(ps + [p], p.pattern)
  {
    forall n | Listed(ps, n)
      ensures Listed(ps + [p], n)
    {
      var k :| 0 <= k < |ps| && ps[k].pattern == n;
      assert (ps + [p])[k].pattern == n;
    }
    assert (ps + [p])[|ps|].pattern == p.pattern;
  }

  class Analyzer {
    var logs: seq<Log>
    var patterns: seq<Pattern>

    constructor ()
      ensures logs == [] && patterns == []
    {
      logs, patterns := [], [];
    }

    method AddLog(log: Log)
      modifies this
      ensures logs == old(logs) + [log] && patterns == old(patterns)
    {
      logs := logs + [log];
    }

    method DetectPatterns(f: Rules, minimum: int) returns (r: seq<Pattern>)
      modifies this
      ensures logs == old(logs) && patterns == r
      ensures Describes(f, logs, minimum, r)
      ensures forall j, k :: 0 <= j < k < |r| ==> r[j].count >= r[k].count
      ensures forall n :: n in FirstSeen(f, logs) ==> Group(f, logs, n) != []
      ensures SameByKey(r, Entries(f, logs, minimum, FirstSeen(f, logs)), Descending)
    {
      FirstSeenHasGroups(f, logs);
      var groups, order := GroupLogs(f, logs);
      assert forall i :: 0 <= i < |order| ==> order[i] in order;
      var found := FrequentGroups(f, logs, minimum, groups, order);
      EntriesDescribe(f, logs, minimum, order);
      r := SortBy(found, Descending);
      SortBySorts(found, Descending);
      DescribesAnyOrder(f, logs, minimum, found, r);
      forall j, m | 0 <= j < m < |r|
        ensures r[j].count >= r[m].count
      {
        assert Descending(r[j]) <= Descending(r[m]);
      }
      patterns := r;
    }
  }

  /** Rearranging a description leaves it one. */
  lemma DescribesAnyOrder(f: Rules, logs: seq<Log>, minimum: int, a: seq<Pattern>, b: seq<Pattern>)
    requires Describes(f, logs, minimum, a) && multiset(a) == multiset(b)
    ensures Describes(f, logs, minimum, b)
  {
    forall k | 0 <= k < |b|
      ensures b[k] in a
    {
      assert b[k] in multiset(b);
    }
    forall n | Group(f, logs, n) != [] && |Group(f, logs, n)| >= minimum
      ensures Listed(b, n)
    {
      var j :| 0 <= j < |a| && a[j].pattern == n;
      assert a[j] in multiset(b);
      var k :| 0 <= k < |b| && b[k] == a[j];
    }
    DistinctByPattern(a, b);
  }

  lemma DistinctByPattern(a: seq<Pattern>, b: seq<Pattern>)
    requires multiset(a) == multiset(b)
    requires forall j, k :: 0 <= j < k < |a| ==> a[j].pattern != a[k].pattern
    ensures forall j, k :: 0 <= j < k < |b| ==> b[j].pattern != b[k].pattern
  {
    forall j, k | 0 <= j < k < |b|
      ensures b[j].pattern != b[k].pattern
    {
      assert b[j] in multiset(a) && b[k] in multiset(a);
      var x :| 0 <= x < |a| && a[x] == b[j];
      var y :| 0 <= y < |a| && a[y] == b[k];
      if x == y {
        TwiceInMultiset(b, j, k);
        OnceInMultiset(a, x);
        assert false;
      }
    }
  }

  lemma TwiceInMultiset(s: seq<Pattern>, j: nat, k: nat)
    requires j < k < |s| && s[j] == s[k]
    ensures multiset(s)[s[j]] >= 2
  {
    assert s == s[..k] + [s[k]] + s[k + 1..];
    assert s[j] in s[..k];
  }

  lemma OnceInMultiset(s: seq<Pattern>, x: nat)
    requires x < |s|
    requires forall j, k :: 0 <= j < k < |s| ==> s[j].pattern != s[k].pattern
    ensures multiset(s)[s[x]] == 1
  {
    assert s == s[..x] + [s[x]] + s[x + 1..];
    assert s[x] !in s[..x];
    assert s[x] !in s[x + 1..];
  }

  /** The pattern reported for a group compiles and matches every message of the group that holds no
      literal placeholder, and no other message of it. */
  lemma {:induction false} PatternMatchesItsGroup(
    t: CharTable, isError: string -> bool, logs: seq<Log>, minimum: int, ps: seq<Pattern>, k: nat, log: Log)
    requires Describes(LogRules(t, isError), logs, minimum, ps) && k < |ps|
    requires log in Group(LogRules(t, isError), logs, ps[k].pattern)
    ensures Parse(ps[k].regex).Some?
    ensures FullMatch(t, Parse(ps[k].regex).value, log.message) <==> forall s :: !Occurs(log.message, Placeholder(s))
  {
    GroupMember(LogRules(t, isError), logs, ps[k].pattern, log);
    assert NormalizeMessage(t, log.message) == ps[k].pattern;
    RegexMatchesBack(t, log.message);
  }
}
