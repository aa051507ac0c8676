/** Endpoint normalisation and call bookkeeping: class APIAnalyzer of
    framework/api_analyzer/api_log_analyzer.py. */
module ApiAnalyzer {
  import opened Wrappers
  import opened Text
  import opened Regex

  const ID_ITEMS := [Item(Literal('/'), Times(1)), Item(Digit, OneOrMore)]
  const UUID_ITEMS := [Item(Literal('/'), Times(1)), Item(HexDash, Times(36))]

  /** `url.split("?")[0]`. */
  function CutQuery(url: string): (r: string)
    ensures '?' !in r && r <= url
    ensures '?' !in url ==> r == url
    ensures |r| < |url| ==> url[|r|] == '?'
  {
    if url == "" || url[0] == '?' then "" else [url[0]] + CutQuery(url[1..])
  }

  function SubId(t: CharTable, s: string): string {
    Sub(t, ID_ITEMS, "/{id}", s)
  }

  function SubUuid(t: CharTable, s: string): string {
    Sub(t, UUID_ITEMS, "/{uuid}", s)
  }

  function NormalizeEndpoint(t: CharTable, url: string): string {
    SubUuid(t, SubId(t, CutQuery(url)))
  }

  // ---------------------------------------------------------------- normal forms

  predicate DigitAhead(t: CharTable, s: string) {
    s != "" && t.digit(s[0])
  }

  predicate UuidAhead(t: CharTable, s: string) {
    |s| >= 36 && AllIn(t, HexDash, s[..36])
  }

  /** No slash with a numeric id after it. */
  predicate NoIds(t: CharTable, s: string) {
    forall i :: 0 <= i < |s| && s[i] == '/' ==> !DigitAhead(t, s[i + 1..])
  }

  /** No slash with 36 characters of a UUID after it. */
  predicate NoUuids(t: CharTable, s: string) {
    forall i :: 0 <= i < |s| && s[i] == '/' ==> !UuidAhead(t, s[i + 1..])
  }

  lemma MatchId(t: CharTable, s: string)
    ensures MatchLen(t, ID_ITEMS, s).Some? <==> s != "" && s[0] == '/' && DigitAhead(t, s[1..])
    ensures MatchLen(t, ID_ITEMS, s).Some? ==> MatchLen(t, ID_ITEMS, s).value >= 2
  {
    assert ID_ITEMS[1..] == [Item(Digit, OneOrMore)];
    if s != "" {
      assert s[..1][0] == s[0];
      MatchSingle(t, Item(Digit, OneOrMore), s[1..]);
    }
  }

  lemma MatchUuid(t: CharTable, s: string)
    ensures MatchLen(t, UUID_ITEMS, s) == if s != "" && s[0] == '/' && UuidAhead(t, s[1..]) then Some(37) else None
  {
    assert UUID_ITEMS[1..] == [Item(HexDash, Times(36))];
    if s != "" {
      assert s[..1][0] == s[0];
      MatchSingle(t, Item(HexDash, Times(36)), s[1..]);
    }
  }

  /** Both passes keep the first character: a match starts with a slash and so does what replaces it. */
  lemma HeadKept(t: CharTable, s: string)
    ensures SubId(t, s) == "" <==> s == ""
    ensures SubUuid(t, s) == "" <==> s == ""
    ensures s != "" ==> SubId(t, s)[0] == s[0] && SubUuid(t, s)[0] == s[0]
  {
    MatchId(t, s);
    MatchUuid(t, s);
  }

  lemma NoIdsCons(t: CharTable, w: string, rest: string)
    requires NoIds(t, rest)
    requires w == "/{id}" || w == "/{uuid}" || |w| == 1
    requires w == "/" ==> !DigitAhead(t, rest)
    ensures NoIds(t, w + rest)
  {
    var s := w + rest;
    forall i | 0 <= i < |s| && s[i] == '/'
      ensures !DigitAhead(t, s[i + 1..])
    {
      if i < |w| {
        assert i == 0;
        if |w| == 1 {
          assert s[1..] == rest;
        } else {
          assert s[1..][0] == '{' && !t.digit('{');
        }
      } else {
        assert s[i + 1..] == rest[i - |w| + 1..];
      }
    }
  }

  lemma {:induction false} IdPass(t: CharTable, s: string)
    requires '?' !in s
    ensures '?' !in SubId(t, s) && NoIds(t, SubId(t, s))
    decreases |s|
  {
    if s != "" {
      MatchId(t, s);
      var m := MatchLen(t, ID_ITEMS, s);
      if m.Some? {
        IdPass(t, s[m.value..]);
        NoIdsCons(t, "/{id}", SubId(t, s[m.value..]));
      } else {
        IdPass(t, s[1..]);
        HeadKept(t, s[1..]);
        NoIdsCons(t, [s[0]], SubId(t, s[1..]));
      }
    }
  }

  /** Up to its first slash, the result of the UUID pass is the text itself. */
  lemma {:induction false} SlashlessPrefix(t: CharTable, s: string, k: nat)
    requires k <= |SubUuid(t, s)| && '/' !in SubUuid(t, s)[..k]
    ensures k <= |s| && s[..k] == SubUuid(t, s)[..k]
    decreases |s|
  {
    if k > 0 {
      var r := SubUuid(t, s);
      MatchUuid(t, s);
      HeadKept(t, s);
      assert r[..k][0] == r[0] != '/';
      assert r[1..] == SubUuid(t, s[1..]);
      assert r[1..][..k - 1] == r[..k][1..];
      SlashlessPrefix(t, s[1..], k - 1);
      assert s[..k] == [s[0]] + s[1..][..k - 1];
    }
  }

  lemma NoUuidsCons(t: CharTable, w: string, rest: string)
    requires NoUuids(t, rest)
    requires w == "/{uuid}" || |w| == 1
    requires w == "/" ==> !UuidAhead(t, rest)
    ensures NoUuids(t, w + rest)
  {
    var s := w + rest;
    forall i | 0 <= i < |s| && s[i] == '/'
      ensures !UuidAhead(t, s[i + 1..])
    {
      if i < |w| {
        assert i == 0;
        if |w| == 1 {
          assert s[1..] == rest;
        } else if |s[1..]| >= 36 {
          assert s[1..][..36][0] == '{' && !InClass(t, HexDash, '{');
        }
      } else {
        assert s[i + 1..] == rest[i - |w| + 1..];
      }
    }
  }

  lemma {:induction false} UuidPass(t: CharTable, s: string)
    requires '?' !in s && NoIds(t, s)
    ensures '?' !in SubUuid(t, s) && NoIds(t, SubUuid(t, s)) && NoUuids(t, SubUuid(t, s))
    decreases |s|
  {
    if s != "" {
      MatchUuid(t, s);
      var n := if MatchLen(t, UUID_ITEMS, s).Some? then 37 else 1;
      var w, rest := if n == 37 then "/{uuid}" else [s[0]], SubUuid(t, s[n..]);
      NoIdsSuffix(t, s, n);
      UuidPass(t, s[n..]);
      HeadKept(t, s[n..]);
      assert s[0] == '/' ==> !DigitAhead(t, s[0 + 1..]);
      NoIdsCons(t, w, rest);
      if n == 1 && UuidAhead(t, rest) {
        assert '/' !in rest[..36] by {
          assert !InClass(t, HexDash, '/');
        }
        SlashlessPrefix(t, s[1..], 36);
      }
      NoUuidsCons(t, w, rest);
    }
  }

  lemma NoIdsSuffix(t: CharTable, s: string, n: nat)
    requires NoIds(t, s) && n <= |s|
    ensures NoIds(t, s[n..])
  {
    forall i | 0 <= i < |s[n..]| && s[n..][i] == '/'
      ensures !DigitAhead(t, s[n..][i + 1..])
    {
      assert s[n..][i + 1..] == s[n + i + 1..];
    }
  }

  /** The normal form of every URL has no query, no numeric id and no UUID after a slash. */
  lemma EndpointIsNormal(t: CharTable, url: string)
    ensures var r := NormalizeEndpoint(t, url); '?' !in r && NoIds(t, r) && NoUuids(t, r)
  {
    IdPass(t, CutQuery(url));
    UuidPass(t, SubId(t, CutQuery(url)));
  }

  /** A URL is left as it is exactly when it is in that form, so normalising twice is normalising once. */
  lemma EndpointIdempotent(t: CharTable, url: string)
    ensures NormalizeEndpoint(t, url) == url <==> '?' !in url && NoIds(t, url) && NoUuids(t, url)
    ensures NormalizeEndpoint(t, NormalizeEndpoint(t, url)) == NormalizeEndpoint(t, url)
  {
    EndpointIsNormal(t, url);
    if '?' !in url && NoIds(t, url) && NoUuids(t, url) {
      NormalIsFixed(t, url);
    }
    NormalIsFixed(t, NormalizeEndpoint(t, url));
  }

  lemma NormalIsFixed(t: CharTable, s: string)
    requires '?' !in s && NoIds(t, s) && NoUuids(t, s)
    ensures NormalizeEndpoint(t, s) == s
  {
    assert s + "" == s;
    forall i | 0 <= i < |s|
      ensures MatchLen(t, ID_ITEMS, s[i..] + "").None? && MatchLen(t, UUID_ITEMS, s[i..] + "").None?
    {
      assert s[i..] + "" == s[i..] && s[i..][1..] == s[i + 1..];
      MatchId(t, s[i..]);
      MatchUuid(t, s[i..]);
    }
    SubCopies(t, ID_ITEMS, "/{id}", s, "");
    SubCopies(t, UUID_ITEMS, "/{uuid}", s, "");
  }

  // ---------------------------------------------------------------- the two passes as one reading

  /** The path read once, left to right: a slash with digits becomes /{id}, a slash with a UUID that
      does not start with a digit becomes /{uuid}, everything else stands. */
  function EndpointForm(t: CharTable, s: string): string
    decreases |s|
  {
    if s == "" then ""
    else if s[0] == '/' && DigitAhead(t, s[1..]) then "/{id}" + EndpointForm(t, s[1 + RunLength(t, Digit, s[1..])..])
    else if s[0] == '/' && UuidAhead(t, s[1..]) then "/{uuid}" + EndpointForm(t, s[37..])
    else [s[0]] + EndpointForm(t, s[1..])
  }

  lemma MatchIdLength(t: CharTable, s: string)
    requires s != "" && s[0] == '/' && DigitAhead(t, s[1..])
    ensures MatchLen(t, ID_ITEMS, s) == Some(1 + RunLength(t, Digit, s[1..]))
  {
    assert ID_ITEMS[1..] == [Item(Digit, OneOrMore)];
    assert s[..1][0] == s[0];
    MatchSingle(t, Item(Digit, OneOrMore), s[1..]);
  }

  /** Text without a slash passes the id pass unchanged. */
  lemma IdPassCopies(t: CharTable, w: string, rest: string)
    requires '/' !in w
    ensures SubId(t, w + rest) == w + SubId(t, rest)
  {
    forall i | 0 <= i < |w|
      ensures MatchLen(t, ID_ITEMS, w[i..] + rest).None?
    {
      assert (w[i..] + rest)[0] == w[i];
      MatchId(t, w[i..] + rest);
    }
    SubCopies(t, ID_ITEMS, "/{id}", w, rest);
  }

  /** Up to its first slash, the result of the id pass is the text itself. */
  lemma {:induction false} SlashlessIdPrefix(t: CharTable, s: string, k: nat)
    requires k <= |SubId(t, s)| && '/' !in SubId(t, s)[..k]
    ensures k <= |s| && s[..k] == SubId(t, s)[..k]
    decreases |s|
  {
    if k > 0 {
      var r := SubId(t, s);
      MatchId(t, s);
      HeadKept(t, s);
      assert r[..k][0] == r[0] != '/';
      assert r[1..] == SubId(t, s[1..]);
      assert r[1..][..k - 1] == r[..k][1..];
      SlashlessIdPrefix(t, s[1..], k - 1);
      assert s[..k] == [s[0]] + s[1..][..k - 1];
    }
  }

  lemma IdTextCopied(t: CharTable, rest: string)
    ensures SubUuid(t, "/{id}" + rest) == "/{id}" + SubUuid(t, rest)
  {
    var w := "/{id}";
    forall i | 0 <= i < |w|
      ensures MatchLen(t, UUID_ITEMS, w[i..] + rest).None?
    {
      var x := w[i..] + rest;
      MatchUuid(t, x);
      assert x[0] == w[i];
      if i == 0 && |x[1..]| >= 36 {
        assert x[1..][..36][0] == '{' && !InClass(t, HexDash, '{');
      }
    }
    SubCopies(t, UUID_ITEMS, "/{uuid}", w, rest);
  }

  /** The two substitutions in sequence are that one reading. */
  lemma {:induction false} PassesAreOneReading(t: CharTable, s: string)
    ensures SubUuid(t, SubId(t, s)) == EndpointForm(t, s)
    decreases |s|
  {
    if s != "" {
      MatchId(t, s);
      if s[0] == '/' && DigitAhead(t, s[1..]) {
        MatchIdLength(t, s);
        var rest := s[1 + RunLength(t, Digit, s[1..])..];
        PassesAreOneReading(t, rest);
        IdTextCopied(t, SubId(t, rest));
      } else if s[0] == '/' && UuidAhead(t, s[1..]) {
        var u, rest := s[1..37], s[37..];
        assert u == s[1..][..36] && s[1..] == u + rest;
        assert '/' !in u by {
          assert !InClass(t, HexDash, '/');
        }
        IdPassCopies(t, u, rest);
        var r := SubId(t, s);
        assert r == "/" + (u + SubId(t, rest));
        assert r[1..][..36] == u && r[37..] == SubId(t, rest);
        MatchUuid(t, r);
        PassesAreOneReading(t, rest);
      } else {
        var tail := SubId(t, s[1..]);
        var r := [s[0]] + tail;
        assert SubId(t, s) == r && r[1..] == tail;
        MatchUuid(t, r);
        if s[0] == '/' && UuidAhead(t, tail) {
          assert '/' !in tail[..36] by {
            assert !InClass(t, HexDash, '/');
          }
          SlashlessIdPrefix(t, s[1..], 36);
        }
        PassesAreOneReading(t, s[1..]);
      }
    }
  }

  /** A path segment of digits is replaced as a whole, so is one that spells a UUID without starting with a
      digit, and what stands in front of a slash is copied. */
  lemma SegmentReplaced(t: CharTable, w: string, id: string, rest: string)
    requires '/' !in w
    requires IsId(t, id, rest) || IsUuid(t, id)
    ensures EndpointForm(t, w + ("/" + id + rest)) ==
            w + ((if IsUuid(t, id) then "/{uuid}" else "/{id}") + EndpointForm(t, rest))
  {
    SlashlessCopied(t, w, "/" + id + rest);
    if IsUuid(t, id) {
      UuidHead(t, id, rest);
    } else {
      IdHead(t, id, rest);
    }
  }

  predicate IsId(t: CharTable, id: string, rest: string) {
    id != "" && AllIn(t, Digit, id) && (rest == "" || !t.digit(rest[0]))
  }

  predicate IsUuid(t: CharTable, id: string) {
    |id| == 36 && AllIn(t, HexDash, id) && !t.digit(id[0])
  }

  lemma IdHead(t: CharTable, id: string, rest: string)
    requires IsId(t, id, rest)
    ensures EndpointForm(t, "/" + id + rest) == "/{id}" + EndpointForm(t, rest)
  {
    var s := "/" + id + rest;
    assert s[1..] == id + rest;
    RunOf(t, Digit, id, rest);
    assert s[1 + |id|..] == rest;
    assert InClass(t, Digit, id[0]) && s[1] == id[0];
  }

  lemma UuidHead(t: CharTable, id: string, rest: string)
    requires IsUuid(t, id)
    ensures EndpointForm(t, "/" + id + rest) == "/{uuid}" + EndpointForm(t, rest)
  {
    var s := "/" + id + rest;
    assert s[1..] == id + rest && s[1..][..36] == id && s[37..] == rest;
    assert s[1] == id[0];
  }

  lemma {:induction false} SlashlessCopied(t: CharTable, w: string, s: string)
    requires '/' !in w
    ensures EndpointForm(t, w + s) == w + EndpointForm(t, s)
  {
    if w == "" {
      assert w + s == s;
    } else {
      assert w[0] in w && (w + s)[1..] == w[1..] + s;
      SlashlessCopied(t, w[1..], s);
    }
  }

  // ---------------------------------------------------------------- the analyzer object

  datatype Call = Call(url: string, uiContext: Option<string>)

  /** `correlations` lists, for a screen, the recorded calls made from it, oldest first.  An empty
      screen name is falsy and correlates nothing. */
  function FromScreen(calls: seq<Call>, screen: string): seq<Call> {
    if calls == [] then []
    else
      var last := calls[|calls| - 1];
      FromScreen(calls[..|calls| - 1], screen)
      + if last.uiContext == Some(screen) && screen != "" then [last] else []
  }

  /** Filtering: a call is listed exactly if it was made from that screen, as often as it was recorded, and
      the lists of two stretches of calls stand one after the other. */
  lemma {:induction false} FromScreenFilters(a: seq<Call>, b: seq<Call>, screen: string, call: Call)
    ensures FromScreen(a + b, screen) == FromScreen(a, screen) + FromScreen(b, screen)
    ensures multiset(FromScreen(a, screen))[call]
         == if screen != "" && call.uiContext == Some(screen) then multiset(a)[call] else 0
  {
    FromScreenAppend(a, b, screen);
    FromScreenKeeps(a, screen, call);
  }

  lemma {:induction false} FromScreenAppend(a: seq<Call>, b: seq<Call>, screen: string)
    ensures FromScreen(a + b, screen) == FromScreen(a, screen) + FromScreen(b, screen)
    decreases |b|
  {
    if b == [] {
      assert a + b == a;
    } else {
      var rest, last := b[..|b| - 1], b[|b| - 1];
      assert (a + b)[..|a + b| - 1] == a + rest && (a + b)[|a + b| - 1] == last;
      FromScreenAppend(a, rest, screen);
    }
  }

  lemma {:induction false} FromScreenKeeps(a: seq<Call>, screen: string, call: Call)
    ensures multiset(FromScreen(a, screen))[call]
         == if screen != "" && call.uiContext == Some(screen) then multiset(a)[call] else 0
  {
    if a != [] {
      FromScreenKeeps(a[..|a| - 1], screen, call);
      assert a == a[..|a| - 1] + [a[|a| - 1]];
    }
  }

  class Analyzer {
    var apiCalls: seq<Call>
    var correlations: map<string, seq<Call>>

    ghost predicate Valid()
      reads this
    {
      forall screen :: (if screen in correlations then correlations[screen] else []) == FromScreen(apiCalls, screen)
    }

    constructor ()
      ensures Valid() && apiCalls == [] && correlations == map[]
    {
      apiCalls := [];
      correlations := map[];
    }

    method AddApiCall(call: Call)
      requires Valid()
      modifies this
      ensures Valid()
      ensures apiCalls == old(apiCalls) + [call]
    {
      apiCalls := apiCalls + [call];
      assert apiCalls[..|apiCalls| - 1] == old(apiCalls);
      if call.uiContext.Some? && call.uiContext.value != "" {
        var screen := call.uiContext.value;
        var known := if screen in correlations then correlations[screen] else [];
        correlations := correlations[screen := known + [call]];
      }
    }

    /** Exactly the calls recorded from that screen, in order. */
    method CorrelateWithUi(screen: string) returns (calls: seq<Call>)
      requires Valid()
      ensures calls == FromScreen(apiCalls, screen)
    {
      calls := if screen in correlations then correlations[screen] else [];
    }
  }
}
