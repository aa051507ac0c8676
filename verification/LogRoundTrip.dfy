/** The normaliser and the pattern generator of `LogPatterns` are inverse to each other: the pattern
    made from a normalised message matches the message back, exactly when the message did not
    already contain a placeholder. */
module LogRoundTrip {
  import opened Wrappers
  import opened Text
  import opened Regex
  import opened LogPatterns

  /** The message cut where the normaliser cuts it: plain characters, and the runs it replaces. */
  datatype Piece = Plain(c: char) | Found(slot: Slot, text: string)

  predicate NoDigits(t: CharTable, s: string) {
    forall i :: 0 <= i < |s| ==> !t.digit(s[i])
  }

  predicate UuidAhead(t: CharTable, s: string) {
    |s| >= 36 && AllIn(t, HexDash, s[..36])
  }

  function Pieces(t: CharTable, s: string): seq<Piece>
    decreases |s|
  {
    if s == "" then []
    else if t.digit(s[0]) then
      var n := RunLength(t, Digit, s);
      [Found(Number, s[..n])] + Pieces(t, s[n..])
    else if UuidAhead(t, s) && NoDigits(t, s[..36]) then [Found(Uuid, s[..36])] + Pieces(t, s[36..])
    else [Plain(s[0])] + Pieces(t, s[1..])
  }

  function PieceToken(p: Piece): Token {
    match p
    case Plain(c) => Char(c)
    case Found(k, _) => Hole(k)
  }

  /** The text of one piece in the normalised message. */
  function PieceText(p: Piece): string {
    match p
    case Plain(c) => [c]
    case Found(k, _) => Placeholder(k)
  }

  /** The same after the first pass only, when just the numbers have been replaced. */
  function PieceText1(p: Piece): string {
    match p
    case Plain(c) => [c]
    case Found(k, text) => if k == Number then Placeholder(k) else text
  }

  function Normal(ps: seq<Piece>): string {
    if ps == [] then "" else PieceText(ps[0]) + Normal(ps[1..])
  }

  function Normal1(ps: seq<Piece>): string {
    if ps == [] then "" else PieceText1(ps[0]) + Normal1(ps[1..])
  }

  function PieceTokens(ps: seq<Piece>): seq<Token> {
    if ps == [] then [] else [PieceToken(ps[0])] + PieceTokens(ps[1..])
  }

  // ---------------------------------------------------------------- what each pattern matches first

  lemma MatchNumber(t: CharTable, s: string)
    ensures MatchLen(t, SlotItems(Number), s) ==
            if s != "" && t.digit(s[0]) then Some(RunLength(t, Digit, s)) else None
  {
    assert SlotItems(Number)[1..] == [];
  }

  lemma MatchUuid(t: CharTable, s: string)
    ensures MatchLen(t, SlotItems(Uuid), s) == if UuidAhead(t, s) then Some(36) else None
  {
    assert SlotItems(Uuid)[1..] == [];
  }

  /** Addresses and times start with a digit. */
  lemma MatchNeedsDigit(t: CharTable, k: Slot, s: string)
    requires k == HexAddress || k == Time
    requires s == "" || !t.digit(s[0])
    ensures MatchLen(t, SlotItems(k), s).None?
  {
    assert t.digit('0');
    if s != "" {
      assert s[..1][0] == s[0];
      if |s| >= 2 {
        assert s[..2][0] == s[0];
      }
    }
  }

  lemma PlaceholderHasNoDigits(t: CharTable, k: Slot)
    ensures NoDigits(t, Placeholder(k))
  {
    assert forall i :: 0 <= i < |Placeholder(k)| ==> Placeholder(k)[i] < '\U{80}';
    assert forall i :: 0 <= i < |Placeholder(k)| ==> !AsciiDigit(Placeholder(k)[i]);
  }

  /** No UUID starts inside a placeholder: its closing brace is less than 36 characters away. */
  lemma NoUuidInPlaceholder(t: CharTable, k: Slot, i: nat, rest: string)
    requires i < |Placeholder(k)|
    ensures !UuidAhead(t, Placeholder(k)[i..] + rest)
  {
    var p := Placeholder(k);
    NoUuidBeforeBrace(t, p[i..|p| - 1], rest);
    assert p[i..] == p[i..|p| - 1] + "}";
  }

  lemma NoUuidBeforeBrace(t: CharTable, w: string, rest: string)
    requires |w| < 36
    ensures !UuidAhead(t, w + "}" + rest)
  {
    var s := w + "}" + rest;
    if |s| >= 36 {
      assert s[..36][|w|] == '}';
      assert !InClass(t, HexDash, '}');
    }
  }

  // ---------------------------------------------------------------- the passes

  predicate Braceless(s: string) {
    forall i :: 0 <= i < |s| ==> s[i] != '{'
  }

  function Texts(ps: seq<Piece>): seq<string> {
    if ps == [] then [] else [PieceText(ps[0])] + Texts(ps[1..])
  }

  function Texts1(ps: seq<Piece>): seq<string> {
    if ps == [] then [] else [PieceText1(ps[0])] + Texts1(ps[1..])
  }

  function Joined(ws: seq<string>): string {
    if ws == [] then "" else ws[0] + Joined(ws[1..])
  }

  /** Up to the first text that starts with a brace, the texts stand in `s` from `p` on and hold no digit. */
  predicate Fits(t: CharTable, s: string, p: nat, ws: seq<string>)
    decreases |ws|
  {
    ws == []
    || (ws[0] != ""
        && (ws[0][0] == '{' || (StandsAt(t, s, p, ws[0]) && Fits(t, s, p + |ws[0]|, ws[1..]))))
  }

  predicate StandsAt(t: CharTable, s: string, p: nat, w: string) {
    p + |w| <= |s| && forall j :: 0 <= j < |w| ==> s[p + j] == w[j] && !t.digit(w[j])
  }

  lemma {:induction false} TextsFit1(t: CharTable, s: string, p: nat)
    requires p <= |s|
    ensures Fits(t, s, p, Texts1(Pieces(t, s[p..])))
    decreases |s| - p
  {
    var rest := s[p..];
    if rest != "" {
      var ps := Pieces(t, rest);
      var w := PieceText1(ps[0]);
      assert Texts1(ps)[0] == w && Texts1(ps)[1..] == Texts1(ps[1..]);
      if w[0] != '{' {
        PlainHere1(t, rest);
        assert rest[|w|..] == s[p + |w|..];
        TextsFit1(t, s, p + |w|);
      }
    }
  }

  lemma PlainHere1(t: CharTable, s: string)
    requires s != "" && PieceText1(Pieces(t, s)[0])[0] != '{'
    ensures var w := PieceText1(Pieces(t, s)[0]);
            0 < |w| <= |s| && s[..|w|] == w && NoDigits(t, w) && Pieces(t, s)[1..] == Pieces(t, s[|w|..])
  {
  }

  lemma {:induction false} JoinedTexts1(ps: seq<Piece>)
    ensures Joined(Texts1(ps)) == Normal1(ps)
  {
    if ps != [] {
      JoinedTexts1(ps[1..]);
      assert Texts1(ps)[1..] == Texts1(ps[1..]);
    }
  }

  lemma {:induction false} TextsFit(t: CharTable, s: string, p: nat)
    requires p <= |s|
    ensures Fits(t, s, p, Texts(Pieces(t, s[p..])))
    decreases |s| - p
  {
    var rest := s[p..];
    if rest != "" {
      var ps := Pieces(t, rest);
      var w := PieceText(ps[0]);
      assert Texts(ps)[0] == w && Texts(ps)[1..] == Texts(ps[1..]);
      if w[0] != '{' {
        PlainHere(t, rest);
        assert rest[|w|..] == s[p + |w|..];
        TextsFit(t, s, p + |w|);
      }
    }
  }

  lemma PlainHere(t: CharTable, s: string)
    requires s != "" && PieceText(Pieces(t, s)[0])[0] != '{'
    ensures var w := PieceText(Pieces(t, s)[0]);
            0 < |w| <= |s| && s[..|w|] == w && NoDigits(t, w) && Pieces(t, s)[1..] == Pieces(t, s[|w|..])
  {
  }

  lemma {:induction false} JoinedTexts(ps: seq<Piece>)
    ensures Joined(Texts(ps)) == Normal(ps)
  {
    if ps != [] {
      JoinedTexts(ps[1..]);
      assert Texts(ps)[1..] == Texts(ps[1..]);
    }
  }

  /** No brace in `s[..i + 1]`. */
  predicate BracelessTo(s: string, i: nat)
    requires i < |s|
  {
    s[i] != '{' && (i == 0 || BracelessTo(s, i - 1))
  }

  lemma {:induction false} BracelessHead(s: string, i: nat)
    requires i < |s| && BracelessTo(s, i)
    ensures s[0] != '{'
    decreases i
  {
    if i > 0 {
      BracelessHead(s, i - 1);
    }
  }

  lemma {:induction false} BracelessShift(head: string, tail: string, i: nat)
    requires i < |tail| && BracelessTo(head + tail, |head| + i)
    ensures BracelessTo(tail, i)
    decreases i
  {
    if i > 0 {
      BracelessShift(head, tail, i - 1);
    }
  }

  lemma {:induction false} BracelessPrefix(s: string, k: nat, i: nat)
    requires i < k <= |s| && Braceless(s[..k])
    ensures BracelessTo(s, i)
    decreases i
  {
    assert s[..k][i] == s[i];
    if i > 0 {
      BracelessPrefix(s, k, i - 1);
    }
  }

  lemma {:induction false} FittingAt(t: CharTable, s: string, p: nat, ws: seq<string>, i: nat)
    requires Fits(t, s, p, ws) && i < |Joined(ws)| && BracelessTo(Joined(ws), i)
    ensures p + i < |s| && s[p + i] == Joined(ws)[i] && !t.digit(s[p + i])
    decreases |ws|
  {
    var head, tail := ws[0], Joined(ws[1..]);
    BracelessHead(Joined(ws), i);
    assert head[0] == Joined(ws)[0];
    if i >= |head| {
      BracelessShift(head, tail, i - |head|);
      FittingAt(t, s, p + |head|, ws[1..], i - |head|);
    }
  }

  lemma FittingPrefix(t: CharTable, s: string, ws: seq<string>, k: nat)
    requires Fits(t, s, 0, ws) && k <= |Joined(ws)| && Braceless(Joined(ws)[..k])
    ensures k <= |s| && s[..k] == Joined(ws)[..k] && NoDigits(t, s[..k])
  {
    var r := Joined(ws);
    if k > 0 {
      BracelessPrefix(r, k, k - 1);
      FittingAt(t, s, 0, ws, k - 1);
    }
    forall i | 0 <= i < k
      ensures s[i] == r[i] && !t.digit(s[i])
    {
      BracelessPrefix(r, k, i);
      FittingAt(t, s, 0, ws, i);
    }
  }

  /** Before the first brace of the once-normalised text there is only message text, without digits. */
  lemma PlainPrefix1(t: CharTable, s: string, k: nat)
    requires k <= |Normal1(Pieces(t, s))| && Braceless(Normal1(Pieces(t, s))[..k])
    ensures k <= |s| && s[..k] == Normal1(Pieces(t, s))[..k] && NoDigits(t, s[..k])
  {
    TextsFit1(t, s, 0);
    assert s[0..] == s;
    JoinedTexts1(Pieces(t, s));
    FittingPrefix(t, s, Texts1(Pieces(t, s)), k);
  }

  /** Likewise for the fully normalised text, and no UUID was found there either. */
  lemma PlainPrefix(t: CharTable, s: string, k: nat)
    requires k <= |Normal(Pieces(t, s))| && Braceless(Normal(Pieces(t, s))[..k])
    ensures k <= |s| && s[..k] == Normal(Pieces(t, s))[..k] && NoDigits(t, s[..k])
  {
    TextsFit(t, s, 0);
    assert s[0..] == s;
    JoinedTexts(Pieces(t, s));
    FittingPrefix(t, s, Texts(Pieces(t, s)), k);
  }

  /** First pass. */
  lemma {:induction false} NumberPass(t: CharTable, s: string)
    ensures SubSlot(t, Number, s) == Normal1(Pieces(t, s))
    decreases |s|
  {
    if s != "" {
      MatchNumber(t, s);
      if t.digit(s[0]) {
        NumberPass(t, s[RunLength(t, Digit, s)..]);
      } else if UuidAhead(t, s) && NoDigits(t, s[..36]) {
        NumberPass(t, s[36..]);
        forall i | 0 <= i < 36
          ensures MatchLen(t, SlotItems(Number), s[..36][i..] + s[36..]).None?
        {
          assert (s[..36][i..] + s[36..])[0] == s[..36][i];
          MatchNumber(t, s[..36][i..] + s[36..]);
        }
        assert s[..36] + s[36..] == s;
        SubCopies(t, SlotItems(Number), Placeholder(Number), s[..36], s[36..]);
      } else {
        NumberPass(t, s[1..]);
      }
    }
  }

  lemma {:induction false} NoDigitsLeft(t: CharTable, s: string)
    ensures NoDigits(t, Normal1(Pieces(t, s)))
    ensures NoDigits(t, Normal(Pieces(t, s)))
    decreases |s|
  {
    if s != "" {
      PlaceholderHasNoDigits(t, Number);
      PlaceholderHasNoDigits(t, Uuid);
      if t.digit(s[0]) {
        NoDigitsLeft(t, s[RunLength(t, Digit, s)..]);
      } else if UuidAhead(t, s) && NoDigits(t, s[..36]) {
        NoDigitsLeft(t, s[36..]);
      } else {
        NoDigitsLeft(t, s[1..]);
      }
    }
  }

  /** Without digits the address and time passes find nothing. */
  lemma DigitlessPass(t: CharTable, k: Slot, s: string)
    requires k == HexAddress || k == Time || k == Number
    requires NoDigits(t, s)
    ensures SubSlot(t, k, s) == s
  {
    forall i | 0 <= i < |s|
      ensures MatchLen(t, SlotItems(k), s[i..] + "").None?
    {
      if k == Number {
        MatchNumber(t, s[i..] + "");
      } else {
        MatchNeedsDigit(t, k, s[i..] + "");
      }
    }
    SubCopies(t, SlotItems(k), Placeholder(k), s, "");
    assert s + "" == s;
  }

  /** A UUID ahead in the once-normalised text is one the message shows at the same place. */
  lemma UuidAhead1(t: CharTable, s: string)
    requires UuidAhead(t, Normal1(Pieces(t, s)))
    ensures UuidAhead(t, s) && NoDigits(t, s[..36])
  {
    var r := Normal1(Pieces(t, s));
    assert Braceless(r[..36]) by {
      assert !InClass(t, HexDash, '{');
    }
    PlainPrefix1(t, s, 36);
  }

  /** Last pass. */
  lemma {:induction false} UuidPass(t: CharTable, s: string)
    ensures SubSlot(t, Uuid, Normal1(Pieces(t, s))) == Normal(Pieces(t, s))
    decreases |s|
  {
    if s != "" {
      var ps := Pieces(t, s);
      var w, rest := PieceText1(ps[0]), Normal1(ps[1..]);
      var r := w + rest;
      if t.digit(s[0]) {
        UuidPass(t, s[RunLength(t, Digit, s)..]);
        forall i | 0 <= i < |w|
          ensures MatchLen(t, SlotItems(Uuid), w[i..] + rest).None?
        {
          NoUuidInPlaceholder(t, Number, i, rest);
          MatchUuid(t, w[i..] + rest);
        }
        SubCopies(t, SlotItems(Uuid), Placeholder(Uuid), w, rest);
      } else if UuidAhead(t, s) && NoDigits(t, s[..36]) {
        UuidPass(t, s[36..]);
        assert r[..36] == s[..36] && r[36..] == rest;
        MatchUuid(t, r);
      } else {
        UuidPass(t, s[1..]);
        if UuidAhead(t, r) {
          UuidAhead1(t, s);
        }
        MatchUuid(t, r);
        assert r[1..] == rest;
      }
    }
  }

  lemma {:induction false} NormalizeByPieces(t: CharTable, message: string)
    ensures NormalizeMessage(t, message) == Normal(Pieces(t, message))
  {
    var once := Normal1(Pieces(t, message));
    NumberPass(t, message);
    NoDigitsLeft(t, message);
    DigitlessPass(t, HexAddress, once);
    DigitlessPass(t, Time, once);
    UuidPass(t, message);
  }

  /** Only the first and the last pass ever do anything: once every digit is gone no address and no time
      is left to find, so {hex} and {time} never come out of a message that does not hold them. */
  lemma {:induction false} AddressAndTimePassesAreIdle(t: CharTable, message: string)
    ensures var once := SubSlot(t, Number, message);
            SubSlot(t, HexAddress, once) == once && SubSlot(t, Time, once) == once
  {
    NumberPass(t, message);
    NoDigitsLeft(t, message);
    DigitlessPass(t, HexAddress, SubSlot(t, Number, message));
    DigitlessPass(t, Time, SubSlot(t, Number, message));
  }

  // ---------------------------------------------------------------- idempotence

  /** A UUID ahead in the normalised text would have been replaced. */
  lemma NoUuidAhead(t: CharTable, s: string)
    requires s != "" && Pieces(t, s)[0].Plain?
    ensures !UuidAhead(t, Normal(Pieces(t, s)))
  {
    var r := Normal(Pieces(t, s));
    if UuidAhead(t, r) {
      assert Braceless(r[..36]) by {
        assert !InClass(t, HexDash, '{');
      }
      PlainPrefix(t, s, 36);
      assert false;
    }
  }

  lemma {:induction false} NoUuidLeft(t: CharTable, s: string)
    ensures SubSlot(t, Uuid, Normal(Pieces(t, s))) == Normal(Pieces(t, s))
    decreases |s|
  {
    if s != "" {
      var ps := Pieces(t, s);
      var w, rest := PieceText(ps[0]), Normal(ps[1..]);
      var n := if ps[0].Plain? then 1 else |ps[0].text|;
      NoUuidLeft(t, s[n..]);
      forall i | 0 <= i < |w|
        ensures MatchLen(t, SlotItems(Uuid), w[i..] + rest).None?
      {
        MatchUuid(t, w[i..] + rest);
        if ps[0].Plain? {
          NoUuidAhead(t, s);
          assert w[0..] == w;
        } else {
          NoUuidInPlaceholder(t, ps[0].slot, i, rest);
        }
      }
      SubCopies(t, SlotItems(Uuid), Placeholder(Uuid), w, rest);
    }
  }

  /** Normalising twice is normalising once, for every message. */
  lemma {:induction false} NormalizeMessageIdempotent(t: CharTable, message: string)
    ensures NormalizeMessage(t, NormalizeMessage(t, message)) == NormalizeMessage(t, message)
    ensures NoDigits(t, NormalizeMessage(t, message))
  {
    var n := Normal(Pieces(t, message));
    NormalizeByPieces(t, message);
    NoDigitsLeft(t, message);
    DigitlessPass(t, Number, n);
    DigitlessPass(t, HexAddress, n);
    DigitlessPass(t, Time, n);
    NoUuidLeft(t, message);
  }

  /** What normalising does at the head of a message, whichever of the three it starts with: a run of
      digits, a digit-free UUID, or any other character.  Together with "" these cover every message. */
  lemma NormalizeHead(t: CharTable, w: string, rest: string)
    requires w != ""
    ensures AllIn(t, Digit, w) && (rest == "" || !t.digit(rest[0])) ==>
              NormalizeMessage(t, w + rest) == "{number}" + NormalizeMessage(t, rest)
    ensures |w| == 36 && AllIn(t, HexDash, w) && NoDigits(t, w) ==>
              NormalizeMessage(t, w + rest) == "{uuid}" + NormalizeMessage(t, rest)
    ensures |w| == 1 && !t.digit(w[0]) && !(UuidAhead(t, w + rest) && NoDigits(t, (w + rest)[..36])) ==>
              NormalizeMessage(t, w + rest) == w + NormalizeMessage(t, rest)
  {
    NormalizeByPieces(t, w + rest);
    NormalizeByPieces(t, rest);
    if AllIn(t, Digit, w) && (rest == "" || !t.digit(rest[0])) {
      NumberHead(t, w, rest);
    }
    if |w| == 36 && AllIn(t, HexDash, w) && NoDigits(t, w) {
      UuidHead(t, w, rest);
    }
    if |w| == 1 && !t.digit(w[0]) && !(UuidAhead(t, w + rest) && NoDigits(t, (w + rest)[..36])) {
      assert w == [w[0]];
      PlainHead(t, w[0], rest);
    }
  }

  lemma NumberHead(t: CharTable, w: string, rest: string)
    requires w != "" && AllIn(t, Digit, w) && (rest == "" || !t.digit(rest[0]))
    ensures Normal(Pieces(t, w + rest)) == "{number}" + Normal(Pieces(t, rest))
  {
    var s := w + rest;
    RunOf(t, Digit, w, rest);
    assert s[0] == w[0] && InClass(t, Digit, w[0]) && s[|w|..] == rest;
    assert Pieces(t, s) == [Found(Number, s[..|w|])] + Pieces(t, rest);
  }

  lemma UuidHead(t: CharTable, w: string, rest: string)
    requires |w| == 36 && AllIn(t, HexDash, w) && NoDigits(t, w)
    ensures Normal(Pieces(t, w + rest)) == "{uuid}" + Normal(Pieces(t, rest))
  {
    var s := w + rest;
    assert s[0] == w[0] && s[..36] == w && s[36..] == rest;
    assert Pieces(t, s) == [Found(Uuid, w)] + Pieces(t, rest);
  }

  lemma PlainHead(t: CharTable, c: char, rest: string)
    requires !t.digit(c) && !(UuidAhead(t, [c] + rest) && NoDigits(t, ([c] + rest)[..36]))
    ensures Normal(Pieces(t, [c] + rest)) == [c] + Normal(Pieces(t, rest))
  {
    var s := [c] + rest;
    assert s[1..] == rest;
    assert Pieces(t, s) == [Plain(c)] + Pieces(t, rest);
  }

  /** No run of digits and no UUID is left, and a message that holds neither is not touched. */
  lemma {:induction false} NormalizeFixedIff(t: CharTable, message: string)
    ensures NormalizeMessage(t, message) == message <==> NoDigits(t, message) && NoUuids(t, message)
    ensures NoDigits(t, NormalizeMessage(t, message)) && NoUuids(t, NormalizeMessage(t, message))
  {
    NormalizeByPieces(t, message);
    NoDigitsLeft(t, message);
    NoUuidsLeft(t, message);
    if NoDigits(t, message) && NoUuids(t, message) {
      PlainStays(t, message);
    }
  }

  predicate NoUuids(t: CharTable, s: string) {
    forall i :: 0 <= i <= |s| ==> !UuidAhead(t, s[i..])
  }

  lemma {:induction false} NoUuidsLeft(t: CharTable, s: string)
    ensures NoUuids(t, Normal(Pieces(t, s)))
    decreases |s|
  {
    if s != "" {
      var ps := Pieces(t, s);
      var w, rest := PieceText(ps[0]), Normal(ps[1..]);
      NoUuidsLeft(t, s[if ps[0].Plain? then 1 else |ps[0].text|..]);
      forall i | 0 <= i <= |w + rest|
        ensures !UuidAhead(t, (w + rest)[i..])
      {
        if i >= |w| {
          assert (w + rest)[i..] == rest[i - |w|..];
        } else if ps[0].Plain? {
          NoUuidAhead(t, s);
          assert (w + rest)[i..] == w + rest;
        } else {
          NoUuidInPlaceholder(t, ps[0].slot, i, rest);
          assert (w + rest)[i..] == w[i..] + rest;
        }
      }
    }
  }

  lemma {:induction false} PlainStays(t: CharTable, s: string)
    requires NoDigits(t, s) && NoUuids(t, s)
    ensures Normal(Pieces(t, s)) == s
  {
    if s != "" {
      assert s[0..] == s;
      forall i | 0 <= i <= |s[1..]|
        ensures !UuidAhead(t, s[1..][i..])
      {
        assert s[1..][i..] == s[i + 1..];
      }
      PlainStays(t, s[1..]);
    }
  }

  // ---------------------------------------------------------------- the pattern matches the message back

  function Holes(toks: seq<Token>): nat {
    if toks == [] then 0 else (if toks[0].Hole? then 1 else 0) + Holes(toks[1..])
  }

  function FoundCount(ps: seq<Piece>): nat {
    if ps == [] then 0 else (if ps[0].Found? then 1 else 0) + FoundCount(ps[1..])
  }

  /** Runs hold no brace, so no placeholder starts in them. */
  lemma {:induction false} HolesAfterRun(w: string, rest: string)
    requires '{' !in w
    ensures Holes(Tokens(w + rest)) == Holes(Tokens(rest))
    ensures CountChar('{', w + rest) == CountChar('{', rest)
  {
    if w == "" {
      assert w + rest == rest;
    } else {
      var s := w + rest;
      assert s[1..] == w[1..] + rest;
      HolesAfterRun(w[1..], rest);
      HeadSlotIsBrace(s);
    }
  }

  lemma HeadSlotIsBrace(s: string)
    ensures HeadSlot(s).Some? ==> s[0] == '{'
  {
    if HeadSlot(s).Some? {
      var p := Placeholder(HeadSlot(s).value);
      assert s[..|p|][0] == p[0];
    }
  }

  lemma PlainStep(t: CharTable, s: string)
    requires s != "" && !t.digit(s[0]) && !UuidAhead(t, s)
    ensures Normal(Pieces(t, s)) == [s[0]] + Normal(Pieces(t, s[1..]))
    ensures FoundCount(Pieces(t, s)) == FoundCount(Pieces(t, s[1..]))
  {
  }

  /** Text in which no digit and no UUID starts is copied. */
  lemma {:induction false} PlainTextCopied(t: CharTable, w: string, rest: string)
    requires NoDigits(t, w)
    requires forall i :: 0 <= i < |w| ==> !UuidAhead(t, w[i..] + rest)
    ensures Normal(Pieces(t, w + rest)) == w + Normal(Pieces(t, rest))
    ensures FoundCount(Pieces(t, w + rest)) == FoundCount(Pieces(t, rest))
  {
    if w == "" {
      assert w + rest == rest;
    } else {
      NoUuidInTail(t, w, rest);
      PlainTextCopied(t, w[1..], rest);
      PlainFirst(t, w, rest);
      Rejoin(w, Normal(Pieces(t, rest)));
    }
  }

  lemma Rejoin(w: string, n: string)
    requires w != ""
    ensures [w[0]] + (w[1..] + n) == w + n
  {
    assert [w[0]] + w[1..] == w;
  }

  lemma PlainFirst(t: CharTable, w: string, rest: string)
    requires w != "" && !t.digit(w[0]) && !UuidAhead(t, w[0..] + rest)
    ensures Normal(Pieces(t, w + rest)) == [w[0]] + Normal(Pieces(t, w[1..] + rest))
    ensures FoundCount(Pieces(t, w + rest)) == FoundCount(Pieces(t, w[1..] + rest))
  {
    var s, tail := w + rest, w[1..] + rest;
    assert w[0..] == w && s[1..] == tail && s[0] == w[0];
    PlainStep(t, s);
  }

  lemma NoUuidInTail(t: CharTable, w: string, rest: string)
    requires w != "" && forall i :: 0 <= i < |w| ==> !UuidAhead(t, w[i..] + rest)
    ensures forall i :: 0 <= i < |w[1..]| ==> !UuidAhead(t, w[1..][i..] + rest)
  {
    forall i | 0 <= i < |w[1..]|
      ensures !UuidAhead(t, w[1..][i..] + rest)
    {
      assert w[1..][i..] == w[i + 1..];
    }
  }

  /** A placeholder the message itself contains is copied. */
  lemma LiteralIsCopied(t: CharTable, k: Slot, rest: string)
    ensures Normal(Pieces(t, Placeholder(k) + rest)) == Placeholder(k) + Normal(Pieces(t, rest))
    ensures FoundCount(Pieces(t, Placeholder(k) + rest)) == FoundCount(Pieces(t, rest))
  {
    PlaceholderHasNoDigits(t, k);
    forall i | 0 <= i < |Placeholder(k)|
      ensures !UuidAhead(t, Placeholder(k)[i..] + rest)
    {
      NoUuidInPlaceholder(t, k, i, rest);
    }
    PlainTextCopied(t, Placeholder(k), rest);
  }

  /** A plain brace followed by a name spells it in the message too. */
  lemma SpelledInNormal(t: CharTable, s: string, name: string)
    requires s != "" && Pieces(t, s)[0].Plain? && '{' !in name
    ensures StartsWith(Normal(Pieces(t, s)), "{" + name) ==> StartsWith(s, "{" + name)
  {
    var r, tail := Normal(Pieces(t, s)), Normal(Pieces(t, s[1..]));
    assert r == [s[0]] + tail;
    var n := 1 + |name|;
    if n <= |r| && r[..n] == "{" + name {
      assert r[..n][0] == '{' && r[..n][1..] == tail[..|name|] == name;
      PlainPrefix(t, s[1..], |name|);
      assert s[..n] == [s[0]] + s[1..][..|name|];
    }
  }

  /** A plain character starts a placeholder of the normalised text only if it does in the message. */
  lemma HeadSlotOfNormal(t: CharTable, s: string)
    requires s != "" && Pieces(t, s)[0].Plain? && HeadSlot(s).None?
    ensures HeadSlot(Normal(Pieces(t, s))).None?
  {
    var head := HeadSlot(Normal(Pieces(t, s)));
    if head.Some? {
      var name := SlotName(head.value) + "}";
      assert "{" + name == Placeholder(head.value);
      SpelledInNormal(t, s, name);
      assert false;
    }
  }

  lemma TokensOfHole(k: Slot, rest: string)
    ensures Tokens(Placeholder(k) + rest) == [Hole(k)] + Tokens(rest)
  {
    var p := Placeholder(k);
    var s := p + rest;
    assert s[..|p|] == p && s[|p|..] == rest;
    HeadSlotUnique(s, k);
  }

  /** The normalised message has one hole per replaced run and one per placeholder it had before. */
  lemma {:induction false} TokensOfNormal(t: CharTable, s: string)
    ensures Holes(Tokens(Normal(Pieces(t, s)))) == FoundCount(Pieces(t, s)) + Holes(Tokens(s))
    ensures Holes(Tokens(s)) == 0 ==> Tokens(Normal(Pieces(t, s))) == PieceTokens(Pieces(t, s))
    decreases |s|
  {
    if s != "" {
      if Pieces(t, s)[0].Found? {
        TokensOfNormal(t, s[|Pieces(t, s)[0].text|..]);
        TokensOfRun(t, s);
      } else if HeadSlot(s).Some? {
        TokensOfNormal(t, s[|Placeholder(HeadSlot(s).value)|..]);
        TokensOfLiteral(t, s, HeadSlot(s).value);
      } else {
        TokensOfNormal(t, s[1..]);
        HeadSlotOfNormal(t, s);
        assert Normal(Pieces(t, s))[1..] == Normal(Pieces(t, s[1..]));
      }
    }
  }

  /** A message that starts with a run to be replaced. */
  lemma TokensOfRun(t: CharTable, s: string)
    requires s != "" && Pieces(t, s)[0].Found?
    ensures var p := Pieces(t, s)[0];
            var rest := s[|p.text|..];
            && Pieces(t, s) == [p] + Pieces(t, rest)
            && Tokens(Normal(Pieces(t, s))) == [Hole(p.slot)] + Tokens(Normal(Pieces(t, rest)))
            && Holes(Tokens(s)) == Holes(Tokens(rest))
  {
    var p := Pieces(t, s)[0];
    var rest := s[|p.text|..];
    RunHasNoBrace(t, s);
    HolesAfterRun(p.text, rest);
    assert s == p.text + rest;
    TokensOfHole(p.slot, Normal(Pieces(t, rest)));
  }

  /** A message that starts with a placeholder of its own. */
  lemma TokensOfLiteral(t: CharTable, s: string, k: Slot)
    requires HeadSlot(s) == Some(k)
    ensures var rest := s[|Placeholder(k)|..];
            && Tokens(Normal(Pieces(t, s))) == [Hole(k)] + Tokens(Normal(Pieces(t, rest)))
            && FoundCount(Pieces(t, s)) == FoundCount(Pieces(t, rest))
  {
    var rest := s[|Placeholder(k)|..];
    assert s == Placeholder(k) + rest;
    LiteralIsCopied(t, k, rest);
    TokensOfHole(k, Normal(Pieces(t, rest)));
  }

  lemma RunHasNoBrace(t: CharTable, s: string)
    requires s != "" && Pieces(t, s)[0].Found?
    ensures '{' !in Pieces(t, s)[0].text
  {
    assert !InClass(t, HexDash, '{') && !InClass(t, Digit, '{');
  }

  /** Each piece of the message matches its own part of the pattern. */
  lemma {:induction false} PiecesMatch(t: CharTable, s: string)
    ensures FullMatch(t, Items(PieceTokens(Pieces(t, s))), s)
    decreases |s|
  {
    if s != "" {
      var p := Pieces(t, s)[0];
      var w := if p.Plain? then [p.c] else p.text;
      PiecesMatch(t, s[|w|..]);
      PieceMatches(t, s);
      FullMatchAppend(t, TokenItems(PieceToken(p)), Items(PieceTokens(Pieces(t, s[|w|..]))), w, s[|w|..]);
      ItemsSplit(t, s, |w|);
      assert s == w + s[|w|..];
    }
  }

  lemma ItemsSplit(t: CharTable, s: string, n: nat)
    requires s != "" && n == if Pieces(t, s)[0].Plain? then 1 else |Pieces(t, s)[0].text|
    ensures n <= |s|
    ensures Items(PieceTokens(Pieces(t, s))) == TokenItems(PieceToken(Pieces(t, s)[0])) + Items(PieceTokens(Pieces(t, s[n..])))
  {
    var ps := Pieces(t, s);
    assert ps[1..] == Pieces(t, s[n..]);
    assert PieceTokens(ps)[1..] == PieceTokens(ps[1..]);
  }

  lemma PieceMatches(t: CharTable, s: string)
    requires s != ""
    ensures var p := Pieces(t, s)[0];
            FullMatch(t, TokenItems(PieceToken(p)), if p.Plain? then [p.c] else p.text)
  {
    var p := Pieces(t, s)[0];
    var items := TokenItems(PieceToken(p));
    assert items[1..] == [];
    var w := if p.Plain? then [p.c] else p.text;
    assert w[..|w|] == w && w[|w|..] == "";
    assert FullMatch(t, [], w[|w|..]);
    assert AllIn(t, items[0].cls, w[..|w|]);
  }

  /** Braces a token list spells out as plain characters. */
  function PlainBraces(toks: seq<Token>): nat {
    if toks == [] then 0 else (if toks[0] == Char('{') then 1 else 0) + PlainBraces(toks[1..])
  }

  lemma {:induction false} BracesOfItems(toks: seq<Token>)
    ensures LiteralBraces(Items(toks)) == PlainBraces(toks)
  {
    if toks != [] {
      BracesOfItems(toks[1..]);
      TokenBraces(toks[0]);
      LiteralBracesAppend(TokenItems(toks[0]), Items(toks[1..]));
    }
  }

  /** Every brace of a normalised message is either spelled out by its pattern or part of a hole. */
  lemma {:induction false} BracesOfTokens(n: string)
    ensures PlainBraces(Tokens(n)) + Holes(Tokens(n)) == CountChar('{', n)
    decreases |n|
  {
    if n != "" {
      if HeadSlot(n).Some? {
        var k := HeadSlot(n).value;
        BracesOfTokens(n[|Placeholder(k)|..]);
        BraceOfPlaceholder(k, n);
      } else {
        BracesOfTokens(n[1..]);
      }
    }
  }

  lemma BraceOfPlaceholder(k: Slot, n: string)
    requires StartsWith(n, Placeholder(k))
    ensures CountChar('{', n) == 1 + CountChar('{', n[|Placeholder(k)|..])
  {
    var p := Placeholder(k);
    SlotBraces(k);
    CountAppend('{', p, n[|p|..]);
    assert n == p + n[|p|..];
  }

  lemma TokenBraces(tok: Token)
    ensures LiteralBraces(TokenItems(tok)) == if tok == Char('{') then 1 else 0
  {
    if tok.Hole? {
      SlotBraces(tok.slot);
    } else {
      assert [Lit(tok.c)][1..] == [];
    }
  }

  lemma SlotBraces(k: Slot)
    ensures LiteralBraces(SlotItems(k)) == 0
    ensures CountChar('{', Placeholder(k)) == 1
  {
    var items := SlotItems(k);
    NoLiteralBraces(items);
    var p := Placeholder(k);
    assert p[0] == '{' && '{' !in p[1..];
    HolesAfterRun(p[1..], "");
    assert p[1..] + "" == p[1..];
  }

  lemma {:induction false} NoLiteralBraces(items: seq<Item>)
    requires forall i :: 0 <= i < |items| ==> items[i].cls != Literal('{')
    ensures LiteralBraces(items) == 0
  {
    if items != [] {
      NoLiteralBraces(items[1..]);
    }
  }

  lemma {:induction false} BracesOfNormal(t: CharTable, s: string)
    ensures CountChar('{', Normal(Pieces(t, s))) == CountChar('{', s) + FoundCount(Pieces(t, s))
    decreases |s|
  {
    if s != "" {
      var p := Pieces(t, s)[0];
      var n := if p.Plain? then 1 else |p.text|;
      BracesOfNormal(t, s[n..]);
      BracesOfPiece(t, s);
      CountAppend('{', PieceText(p), Normal(Pieces(t, s[n..])));
    }
  }

  lemma BracesOfPiece(t: CharTable, s: string)
    requires s != ""
    ensures var p := Pieces(t, s)[0];
            var n := if p.Plain? then 1 else |p.text|;
            CountChar('{', PieceText(p)) + CountChar('{', s[n..])
            == CountChar('{', s) + if p.Found? then 1 else 0
  {
    var p := Pieces(t, s)[0];
    if p.Found? {
      SlotBraces(p.slot);
      RunHasNoBrace(t, s);
      HolesAfterRun(p.text, s[|p.text|..]);
      assert s == p.text + s[|p.text|..];
    } else {
      assert [p.c][1..] == "";
    }
  }

  /** Repeated items of a pattern never stand for a brace. */
  lemma {:induction false} RepeatsAreClasses(toks: seq<Token>)
    ensures forall i :: 0 <= i < |Items(toks)| ==> Items(toks)[i].rep.OneOrMore? ==> Items(toks)[i].cls != Literal('{')
  {
    if toks != [] {
      RepeatsAreClasses(toks[1..]);
    }
  }

  lemma {:induction false} HolesMeanPlaceholders(s: string)
    ensures Holes(Tokens(s)) == 0 <==> forall k :: !Occurs(s, Placeholder(k))
    decreases |s|
  {
    if s != "" {
      if HeadSlot(s).Some? {
        assert Occurs(s, Placeholder(HeadSlot(s).value));
      } else {
        HolesMeanPlaceholders(s[1..]);
        assert forall k :: Occurs(s, Placeholder(k)) <==> Occurs(s[1..], Placeholder(k));
      }
    }
  }

  /** The pattern that `_create_regex` builds from a normalised message compiles, and matches the whole
      original message exactly when that message holds none of the four placeholders literally. */
  lemma {:induction false} RegexMatchesBack(t: CharTable, message: string)
    ensures var pattern := Parse(CreateRegex(NormalizeMessage(t, message)));
            && pattern.Some?
            && (FullMatch(t, pattern.value, message) <==> forall k :: !Occurs(message, Placeholder(k)))
  {
    var n := NormalizeMessage(t, message);
    NormalizeByPieces(t, message);
    CreateRegexCompiles(n);
    TokensOfNormal(t, message);
    HolesMeanPlaceholders(message);
    if Holes(Tokens(message)) == 0 {
      PiecesMatch(t, message);
    } else if FullMatch(t, Items(Tokens(n)), message) {
      RepeatsAreClasses(Tokens(n));
      MatchedBraces(t, Items(Tokens(n)), message);
      BracesOfItems(Tokens(n));
      BracesOfTokens(n);
      BracesOfNormal(t, message);
      assert false;
    }
  }
}
