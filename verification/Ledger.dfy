/** Balances and the transaction log of demo-app/mock-backend/main.py, in exact arithmetic. */
module Ledger {
  import opened Wrappers

  // ---------------------------------------------------------------- rounding and rates

  /** To the nearest integer, halves to the even one. */
  function RoundHalfEven(y: real): (r: int)
    ensures -0.5 <= r as real - y <= 0.5
    ensures y == y.Floor as real ==> r as real == y
    ensures y - y.Floor as real == 0.5 ==> r % 2 == 0
  {
    var low := y.Floor;
    var excess := y - low as real;
    if excess < 0.5 || (excess == 0.5 && low % 2 == 0) then low else low + 1
  }

  lemma RoundHalfEvenMonotone(y: real, z: real)
    requires y <= z
    ensures RoundHalfEven(y) <= RoundHalfEven(z)
  {
    var a, b := y.Floor, z.Floor;
    assert a <= b;
    if a < b {
      assert RoundHalfEven(y) <= a + 1 <= b <= RoundHalfEven(z);
    }
  }

  /** `round(x, 2)`. */
  function Round2(x: real): real {
    RoundHalfEven(x * 100.0) as real / 100.0
  }

  predicate WholeCents(x: real) {
    (x * 100.0).Floor as real == x * 100.0
  }

  /** Rounding moves an amount by half a cent at most, to whole cents, and leaves whole cents alone. */
  lemma RoundIsNearest(x: real)
    ensures -0.005 <= Round2(x) - x <= 0.005
    ensures WholeCents(Round2(x))
    ensures WholeCents(x) ==> Round2(x) == x
  {
    var k := RoundHalfEven(x * 100.0);
    assert Round2(x) * 100.0 == k as real;
  }

  lemma RoundMonotone(x: real, y: real)
    requires x <= y
    ensures Round2(x) <= Round2(y)
  {
    RoundHalfEvenMonotone(x * 100.0, y * 100.0);
  }

  lemma RoundNonNegative(x: real)
    requires x >= 0.0
    ensures Round2(x) >= 0.0
  {
    RoundMonotone(0.0, x);
    assert RoundHalfEven(0.0) == 0;
  }

  const RATES: map<string, map<string, real>> := map[
    "USD" := map["EUR" := 0.92, "GBP" := 0.79, "JPY" := 149.50, "CHF" := 0.88],
    "EUR" := map["USD" := 1.09, "GBP" := 0.86, "JPY" := 162.50, "CHF" := 0.96],
    "GBP" := map["USD" := 1.27, "EUR" := 1.16, "JPY" := 189.30, "CHF" := 1.11]
  ]

  predicate Quoted(a: string, b: string) {
    a in RATES && b in RATES[a]
  }

  lemma QuotedPositive(a: string, b: string)
    requires Quoted(a, b)
    ensures RATES[a][b] > 0.0 && a != b
  {
  }

  function GetExchangeRate(a: string, b: string): (r: real)
    ensures r > 0.0
    ensures a == b ==> r == 1.0
    ensures Quoted(a, b) ==> r == RATES[a][b]
    ensures !Quoted(a, b) && Quoted(b, a) ==> r * RATES[b][a] == 1.0
    ensures !Quoted(a, b) && !Quoted(b, a) ==> r == 1.0
  {
    if a == b then 1.0
    else if Quoted(a, b) then
      QuotedPositive(a, b);
      RATES[a][b]
    else if Quoted(b, a) then
      QuotedPositive(b, a);
      1.0 / RATES[b][a]
    else 1.0
  }

  /** A quoted rate, an inverted one, and one that is quoted in neither direction. */
  lemma SampleRates()
    ensures GetExchangeRate("EUR", "USD") == 1.09
    ensures GetExchangeRate("JPY", "USD") * 149.5 == 1.0
    ensures GetExchangeRate("JPY", "CHF") == 1.0
  {
    assert Quoted("EUR", "USD") && RATES["EUR"]["USD"] == 1.09;
    assert Quoted("USD", "JPY") && RATES["USD"]["JPY"] == 149.5;
    assert "JPY" !in RATES && "CHF" !in RATES;
  }

  /** Rates are reciprocal unless both directions are quoted, which they are for two different
      currencies out of USD, EUR and GBP only. */
  lemma RatesReciprocal(a: string, b: string)
    requires !(Quoted(a, b) && Quoted(b, a))
    ensures GetExchangeRate(a, b) * GetExchangeRate(b, a) == 1.0
  {
    if a != b && Quoted(a, b) {
      QuotedPositive(a, b);
      Inverse(RATES[a][b]);
    } else if a != b && Quoted(b, a) {
      QuotedPositive(b, a);
      Inverse(RATES[b][a]);
    }
  }

  lemma Inverse(x: real)
    requires x > 0.0
    ensures x * (1.0 / x) == 1.0
  {
  }

  // ---------------------------------------------------------------- the specification

  datatype Kind = Topup | Send | Exchange

  datatype Transaction = Transaction(user: string, kind: Kind, amount: real, currency: string, toCurrency: string, rate: real)

  type Accounts = map<string, real>

  /** `users` holds each user's accounts; `log` is the transaction list, newest first. */
  datatype State = State(users: map<string, Accounts>, log: seq<Transaction>)

  datatype Request =
    | AddAccount(currency: string)
    | TopupRequest(amount: real, currency: string)
    | SendRequest(amount: real, currency: string)
    | ExchangeRequest(amount: real, fromCurrency: string, toCurrency: string, rate: real) // at the rate quoted

  datatype Refusal = UserNotFound | AccountExists | NoAccount | InvalidAmount | InsufficientBalance

  function Balance(s: State, user: string, currency: string): real {
    if user in s.users && currency in s.users[user] then s.users[user][currency] else 0.0
  }

  function Refused(s: State, user: string, r: Request): Option<Refusal> {
    if user !in s.users then Some(UserNotFound)
    else
      var accounts := s.users[user];
      match r
      case AddAccount(c) => if c in accounts then Some(AccountExists) else None
      case TopupRequest(a, c) =>
        if a <= 0.0 then Some(InvalidAmount) else if c !in accounts then Some(NoAccount) else None
      case SendRequest(a, c) =>
        if c !in accounts then Some(NoAccount) else if accounts[c] < a then Some(InsufficientBalance) else None
      case ExchangeRequest(a, c, _, _) =>
        if c !in accounts then Some(NoAccount) else if accounts[c] < a then Some(InsufficientBalance) else None
  }

  /** What an exchange adds to the target account. */
  function Credit(amount: real, rate: real): real {
    Round2(amount * rate)
  }

  /** What one logged transaction did to the user's balance in a currency. */
  function Effect(tx: Transaction, user: string, currency: string): real {
    if tx.user != user then 0.0
    else
      match tx.kind
      case Topup => if tx.currency == currency then tx.amount else 0.0
      case Send => if tx.currency == currency then -tx.amount else 0.0
      case Exchange =>
        (if tx.currency == currency then -tx.amount else 0.0)
        + if tx.toCurrency == currency then Credit(tx.amount, tx.rate) else 0.0
  }

  /** The fold of a log, oldest (last) entry first. */
  function Replay(log: seq<Transaction>, user: string, currency: string): real {
    if log == [] then 0.0 else Effect(log[0], user, currency) + Replay(log[1..], user, currency)
  }

  /** Which transaction an accepted request logs. */
  function Logged(user: string, r: Request): Option<Transaction> {
    match r
    case AddAccount(_) => None
    case TopupRequest(a, c) => Some(Transaction(user, Topup, a, c, c, 1.0))
    case SendRequest(a, c) => Some(Transaction(user, Send, a, c, c, 1.0))
    case ExchangeRequest(a, c, d, rate) => Some(Transaction(user, Exchange, a, c, d, rate))
  }

  /** The three assignments of an exchange, in their order: open the target account if it is missing,
      debit the source, credit the target (which may be the same account). */
  function Exchanged(accounts: Accounts, amount: real, a: string, b: string, credit: real): Accounts
    requires a in accounts
  {
    var before := if b in accounts then accounts else accounts[b := 0.0];
    var debited := before[a := before[a] - amount];
    debited[b := debited[b] + credit]
  }

  /** What the three assignments come to. */
  lemma ExchangedAccounts(accounts: Accounts, amount: real, a: string, b: string, credit: real)
    requires a in accounts
    ensures var source := accounts[a] - amount;
            var target := if b == a then source else if b in accounts then accounts[b] else 0.0;
            Exchanged(accounts, amount, a, b, credit) == accounts[a := source][b := target + credit]
  {
  }

  lemma ExchangeMoves(s: State, user: string, amount: real, a: string, b: string, credit: real)
    requires user in s.users && a in s.users[user]
    ensures var n := s.(users := s.users[user := Exchanged(s.users[user], amount, a, b, credit)]);
            && n.users[user].Keys == s.users[user].Keys + {b}
            && forall c :: Balance(n, user, c) ==
                 Balance(s, user, c) + (if a == c then -amount else 0.0) + if b == c then credit else 0.0
  {
  }

  // ---------------------------------------------------------------- the endpoints

  class Bank {
    var users: map<string, Accounts>
    var transactions: seq<Transaction>

    function View(): State
      reads this
    {
      State(users, transactions)
    }

    constructor (users: map<string, Accounts>)
      ensures View() == State(users, [])
    {
      this.users, transactions := users, [];
    }

    method CreateTransaction(tx: Transaction)
      modifies this`transactions
      ensures transactions == [tx] + old(transactions)
    {
      transactions := [tx] + transactions;
    }

    method SetBalance(user: string, currency: string, balance: real)
      requires user in users
      modifies this`users
      ensures users == old(users)[user := old(users)[user][currency := balance]]
    {
      users := users[user := users[user][currency := balance]];
    }

    method AddCurrencyAccount(user: string, currency: string) returns (refused: Option<Refusal>)
      modifies this
      ensures refused == if user !in old(users) then Some(UserNotFound)
                         else if currency in old(users)[user] then Some(AccountExists)
                         else None
      ensures transactions == old(transactions)
      ensures refused.Some? ==> users == old(users)
      ensures refused.None? ==> users == old(users)[user := old(users)[user][currency := 0.0]]
      ensures Transition(old(View()), user, AddAccount(currency), View(), refused)
    {
      if user !in users {
        return Some(UserNotFound);
      }
      if currency in users[user] {
        return Some(AccountExists);
      }
      SetBalance(user, currency, 0.0);
      return None;
    }

    method TopUp(user: string, amount: real, currency: string) returns (refused: Option<Refusal>)
      modifies this
      ensures refused == if user !in old(users) then Some(UserNotFound)
                         else if amount <= 0.0 then Some(InvalidAmount)
                         else if currency !in old(users)[user] then Some(NoAccount)
                         else None
      ensures refused.Some? ==> users == old(users) && transactions == old(transactions)
      ensures refused.None? ==>
                && users == old(users)[user := old(users)[user][currency := old(users)[user][currency] + amount]]
                && transactions == [Transaction(user, Topup, amount, currency, currency, 1.0)] + old(transactions)
      ensures Transition(old(View()), user, TopupRequest(amount, currency), View(), refused)
    {
      if user !in users {
        return Some(UserNotFound);
      }
      if amount <= 0.0 {
        return Some(InvalidAmount);
      }
      if currency !in users[user] {
        return Some(NoAccount);
      }
      SetBalance(user, currency, users[user][currency] + amount);
      CreateTransaction(Transaction(user, Topup, amount, currency, currency, 1.0));
      return None;
    }

    method SendMoney(user: string, amount: real, currency: string) returns (refused: Option<Refusal>)
      modifies this
      ensures refused == if user !in old(users) then Some(UserNotFound)
                         else if currency !in old(users)[user] then Some(NoAccount)
                         else if old(users)[user][currency] < amount then Some(InsufficientBalance)
                         else None
      ensures refused.Some? ==> users == old(users) && transactions == old(transactions)
      ensures refused.None? ==>
                && users == old(users)[user := old(users)[user][currency := old(users)[user][currency] - amount]]
                && transactions == [Transaction(user, Send, amount, currency, currency, 1.0)] + old(transactions)
      ensures Transition(old(View()), user, SendRequest(amount, currency), View(), refused)
    {
      if user !in users {
        return Some(UserNotFound);
      }
      if currency !in users[user] {
        return Some(NoAccount);
      }
      if users[user][currency] < amount {
        return Some(InsufficientBalance);
      }
      SetBalance(user, currency, users[user][currency] - amount);
      CreateTransaction(Transaction(user, Send, amount, currency, currency, 1.0));
      return None;
    }

    method ExchangeCurrency(user: string, amount: real, fromCurrency: string, toCurrency: string)
      returns (refused: Option<Refusal>, exchanged: real)
      modifies this
      ensures refused == if user !in old(users) then Some(UserNotFound)
                         else if fromCurrency !in old(users)[user] then Some(NoAccount)
                         else if old(users)[user][fromCurrency] < amount then Some(InsufficientBalance)
                         else None
      ensures refused.Some? ==> users == old(users) && transactions == old(transactions) && exchanged == 0.0
      ensures refused.None? ==>
                var accounts := old(users)[user];
                var source := accounts[fromCurrency] - amount;
                var target := if toCurrency == fromCurrency then source
                              else if toCurrency in accounts then accounts[toCurrency] else 0.0;
                && exchanged == Round2(amount * GetExchangeRate(fromCurrency, toCurrency))
                && users == old(users)[user := accounts[fromCurrency := source][toCurrency := target + exchanged]]
                && transactions == [Transaction(user, Exchange, amount, fromCurrency, toCurrency, GetExchangeRate(fromCurrency, toCurrency))] + old(transactions)
      ensures var r := ExchangeRequest(amount, fromCurrency, toCurrency, GetExchangeRate(fromCurrency, toCurrency));
              && Transition(old(View()), user, r, View(), refused)
              && exchanged == if refused.None? then Credit(amount, r.rate) else 0.0
    {
      var rate := GetExchangeRate(fromCurrency, toCurrency);
      refused, exchanged := ExchangeAt(user, amount, fromCurrency, toCurrency, rate);
    }

    method ExchangeAt(user: string, amount: real, fromCurrency: string, toCurrency: string, rate: real)
      returns (refused: Option<Refusal>, exchanged: real)
      modifies this
      ensures refused == if user !in old(users) then Some(UserNotFound)
                         else if fromCurrency !in old(users)[user] then Some(NoAccount)
                         else if old(users)[user][fromCurrency] < amount then Some(InsufficientBalance)
                         else None
      ensures refused.Some? ==> users == old(users) && transactions == old(transactions) && exchanged == 0.0
      ensures refused.None? ==>
                var accounts := old(users)[user];
                var source := accounts[fromCurrency] - amount;
                var target := if toCurrency == fromCurrency then source
                              else if toCurrency in accounts then accounts[toCurrency] else 0.0;
                && exchanged == Round2(amount * rate)
                && users == old(users)[user := accounts[fromCurrency := source][toCurrency := target + exchanged]]
                && transactions == [Transaction(user, Exchange, amount, fromCurrency, toCurrency, rate)] + old(transactions)
      ensures Transition(old(View()), user, ExchangeRequest(amount, fromCurrency, toCurrency, rate), View(), refused)
      ensures exchanged == if refused.None? then Credit(amount, rate) else 0.0
    {
      exchanged := 0.0;
      if user !in users {
        return Some(UserNotFound), 0.0;
      }
      if fromCurrency !in users[user] {
        return Some(NoAccount), 0.0;
      }
      if users[user][fromCurrency] < amount {
        return Some(InsufficientBalance), 0.0;
      }
      exchanged := Credit(amount, rate);
      ExchangeTransition(View(), user, amount, fromCurrency, toCurrency, rate, exchanged);
      ExchangedAccounts(users[user], amount, fromCurrency, toCurrency, exchanged);
      MoveMoney(user, amount, fromCurrency, toCurrency, exchanged);
      CreateTransaction(Transaction(user, Exchange, amount, fromCurrency, toCurrency, rate));
      return None, exchanged;
    }

    /** The balance updates of an exchange, in place and in order. */
    method MoveMoney(user: string, amount: real, fromCurrency: string, toCurrency: string, credit: real)
      requires user in users && fromCurrency in users[user]
      modifies this`users
      ensures users == old(users)[user := Exchanged(old(users)[user], amount, fromCurrency, toCurrency, credit)]
    {
      if toCurrency !in users[user] {
        SetBalance(user, toCurrency, 0.0);
      }
      SetBalance(user, fromCurrency, users[user][fromCurrency] - amount);
      SetBalance(user, toCurrency, users[user][toCurrency] + credit);
    }
  }

  function AfterExchange(s: State, user: string, amount: real, a: string, b: string, rate: real, credit: real): State
    requires user in s.users && a in s.users[user]
  {
    State(s.users[user := Exchanged(s.users[user], amount, a, b, credit)],
          [Transaction(user, Exchange, amount, a, b, rate)] + s.log)
  }

  /** The state after an accepted exchange is an allowed transition. */
  lemma ExchangeTransition(s: State, user: string, amount: real, a: string, b: string, rate: real, credit: real)
    requires Refused(s, user, ExchangeRequest(amount, a, b, rate)).None?
    requires credit == Credit(amount, rate)
    ensures Transition(s, user, ExchangeRequest(amount, a, b, rate),
                       AfterExchange(s, user, amount, a, b, rate, credit), None)
  {
    ExchangeMoves(s, user, amount, a, b, credit);
    ExchangeEffect(user, amount, a, b, rate, credit);
  }

  lemma ExchangeEffect(user: string, amount: real, a: string, b: string, rate: real, credit: real)
    requires credit == Credit(amount, rate)
    ensures forall c :: Effect(Transaction(user, Exchange, amount, a, b, rate), user, c)
                     == (if a == c then -amount else 0.0) + if b == c then credit else 0.0
  {
  }

  /** What a request may do: a refused one changes nothing; an accepted one logs its transaction in front,
      moves every balance by exactly that transaction's effect, opens only the account it names, and
      closes none. */
  ghost predicate Transition(s: State, user: string, r: Request, n: State, refused: Option<Refusal>) {
    && refused == Refused(s, user, r)
    && (refused.Some? ==> n == s)
    && (refused.None? ==>
          && n.log == (if Logged(user, r).Some? then [Logged(user, r).value] else []) + s.log
          && n.users.Keys == s.users.Keys
          && (forall u :: u in s.users && u != user ==> n.users[u] == s.users[u])
          && n.users[user].Keys == s.users[user].Keys + Opened(r)
          && forall c :: Balance(n, user, c) == Balance(s, user, c) + Moved(user, r, c))
  }

  function Moved(user: string, r: Request, currency: string): real {
    if Logged(user, r).Some? then Effect(Logged(user, r).value, user, currency) else 0.0
  }

  function Opened(r: Request): set<string> {
    match r
    case AddAccount(c) => {c}
    case ExchangeRequest(_, _, d, _) => {d}
    case _ => {}
  }

  // ---------------------------------------------------------------- whole runs

  datatype Call = Call(user: string, request: Request, refused: Option<Refusal>, after: State)

  function StateAt(start: State, run: seq<Call>, i: nat): State
    requires i <= |run|
  {
    if i == 0 then start else run[i - 1].after
  }

  /** A run of calls, each an allowed transition from the state the one before it left. */
  ghost predicate IsRun(start: State, run: seq<Call>) {
    forall i: nat :: i < |run| ==> Allowed(start, run, i)
  }

  ghost predicate Allowed(start: State, run: seq<Call>, i: nat)
    requires i < |run|
  {
    Transition(StateAt(start, run, i), run[i].user, run[i].request, run[i].after, run[i].refused)
  }

  lemma {:induction false} ReplayAppend(a: seq<Transaction>, b: seq<Transaction>, user: string, currency: string)
    ensures Replay(a + b, user, currency) == Replay(a, user, currency) + Replay(b, user, currency)
  {
    if a == [] {
      assert a + b == b;
    } else {
      assert (a + b)[1..] == a[1..] + b;
      ReplayAppend(a[1..], b, user, currency);
    }
  }

  /** The transactions logged since the start of the run. */
  function LoggedSince(start: State, now: State): seq<Transaction> {
    if |start.log| <= |now.log| then now.log[..|now.log| - |start.log|] else []
  }

  /** From `start` to `now` the older log is untouched, the balance has moved by the replay of the
      transactions logged since, and the account has not gone. */
  ghost predicate Replays(start: State, now: State, user: string, currency: string) {
    && now.log == LoggedSince(start, now) + start.log
    && Balance(now, user, currency) == Balance(start, user, currency) + Replay(LoggedSince(start, now), user, currency)
    && (user in start.users && currency in start.users[user] ==> user in now.users && currency in now.users[user])
  }

  lemma ReplaysCompose(a: State, b: State, c: State, user: string, currency: string)
    requires Replays(a, b, user, currency) && Replays(b, c, user, currency)
    ensures Replays(a, c, user, currency)
  {
    var first, more := LoggedSince(a, b), LoggedSince(b, c);
    assert c.log == more + first + a.log;
    assert LoggedSince(a, c) == more + first;
    ReplayAppend(more, first, user, currency);
  }

  lemma StepReplays(s: State, caller: string, r: Request, n: State, refused: Option<Refusal>, user: string, currency: string)
    requires Transition(s, caller, r, n, refused)
    ensures Replays(s, n, user, currency)
  {
    if refused.None? && Logged(caller, r).Some? {
      var tx := Logged(caller, r).value;
      assert LoggedSince(s, n) == [tx];
      assert [tx][1..] == [];
      assert Replay([tx], user, currency) == Effect(tx, user, currency);
    } else {
      assert LoggedSince(s, n) == [];
    }
  }

  /** After every run each balance is its starting value (zero for an account opened on the way) plus the
      replay of the transactions logged since. */
  lemma {:induction false} RunReplays(start: State, run: seq<Call>, k: nat, user: string, currency: string)
    requires IsRun(start, run) && k <= |run|
    ensures Replays(start, StateAt(start, run, k), user, currency)
    decreases k
  {
    if k == 0 {
      assert LoggedSince(start, start) == [];
    } else {
      RunReplays(start, run, k - 1, user, currency);
      CallReplays(start, run, k - 1, user, currency);
      ReplaysCompose(start, StateAt(start, run, k - 1), StateAt(start, run, k), user, currency);
    }
  }

  lemma CallReplays(start: State, run: seq<Call>, i: nat, user: string, currency: string)
    requires i < |run| && Allowed(start, run, i)
    ensures Replays(StateAt(start, run, i), run[i].after, user, currency)
  {
    StepReplays(StateAt(start, run, i), run[i].user, run[i].request, run[i].after, run[i].refused, user, currency);
  }

  predicate NonNegative(s: State) {
    forall u, c :: u in s.users && c in s.users[u] ==> s.users[u][c] >= 0.0
  }

  /** The check missing from the exchange endpoint.  For two different accounts the rounded credit must
      not be negative; an exchange of a currency with itself must not round below its own amount. */
  predicate Safe(r: Request) {
    r.ExchangeRequest? ==>
      Credit(r.amount, r.rate) >= if r.fromCurrency == r.toCurrency && r.amount < 0.0 then r.amount else 0.0
  }

  lemma AmountsSafe(r: Request)
    requires r.ExchangeRequest? ==> r.amount >= 0.0 && r.rate > 0.0
    ensures Safe(r)
  {
    if r.ExchangeRequest? {
      assert r.amount * r.rate >= 0.0;
      RoundNonNegative(r.amount * r.rate);
    }
  }

  lemma StepNonNegative(s: State, user: string, r: Request, n: State, refused: Option<Refusal>)
    requires NonNegative(s) && Transition(s, user, r, n, refused) && Safe(r)
    ensures NonNegative(n)
  {
    forall u, c | u in n.users && c in n.users[u]
      ensures n.users[u][c] >= 0.0
    {
      if u == user && refused.None? {
        assert n.users[u][c] == Balance(n, user, c) == Balance(s, user, c) + Moved(user, r, c);
        assert Balance(s, user, c) >= 0.0;
      }
    }
  }

  /** The state that refutes an unsafe exchange: just enough to be accepted, and nothing in the target. */
  function Refuting(r: Request): State
    requires r.ExchangeRequest?
  {
    var funds := if r.amount > 0.0 then r.amount else 0.0;
    State(map["user123" := map[r.toCurrency := 0.0][r.fromCurrency := funds]], [])
  }

  lemma UnsafeRefuted(r: Request) returns (n: State)
    requires r.ExchangeRequest? && !Safe(r)
    ensures NonNegative(Refuting(r)) && Transition(Refuting(r), "user123", r, n, None) && !NonNegative(n)
  {
    var s, credit := Refuting(r), Credit(r.amount, r.rate);
    n := AfterExchange(s, "user123", r.amount, r.fromCurrency, r.toCurrency, r.rate, credit);
    ExchangeTransition(s, "user123", r.amount, r.fromCurrency, r.toCurrency, r.rate, credit);
    ExchangeMoves(s, "user123", r.amount, r.fromCurrency, r.toCurrency, credit);
    assert Balance(n, "user123", r.toCurrency) < 0.0;
    assert r.toCurrency in n.users["user123"];
  }

  /** Exactly the safe requests keep balances non-negative from every non-negative ledger: top-ups, sends
      and new accounts always do, whatever their amount; an exchange does if and only if `Safe` holds. */
  lemma NonNegativeIffSafe(r: Request)
    ensures Safe(r) <==>
            forall s: State, user: string, n: State, refused: Option<Refusal> ::
              NonNegative(s) && Transition(s, user, r, n, refused) ==> NonNegative(n)
  {
    if Safe(r) {
      forall s: State, user: string, n: State, refused: Option<Refusal> | NonNegative(s) && Transition(s, user, r, n, refused)
        ensures NonNegative(n)
      {
        StepNonNegative(s, user, r, n, refused);
      }
    } else {
      var n := UnsafeRefuted(r);
    }
  }

  /** So balances stay non-negative over every run whose exchanges are safe, in particular whose
      exchanged amounts are not negative. */
  lemma {:induction false} RunNonNegative(start: State, run: seq<Call>, k: nat)
    requires IsRun(start, run) && k <= |run| && NonNegative(start)
    requires forall i :: 0 <= i < |run| ==> Safe(run[i].request)
    ensures NonNegative(StateAt(start, run, k))
    decreases k
  {
    if k > 0 {
      RunNonNegative(start, run, k - 1);
      assert Allowed(start, run, k - 1) && Safe(run[k - 1].request);
      StepNonNegative(
        StateAt(start, run, k - 1), run[k - 1].user, run[k - 1].request, run[k - 1].after, run[k - 1].refused);
    }
  }

  /** The endpoint accepts a negative exchange: from two empty accounts, exchanging -100 USD at 0.92 is
      not refused and leaves -92 EUR. */
  lemma NegativeExchangeAccepted()
    ensures var s := State(map["user123" := map["USD" := 0.0, "EUR" := 0.0]], []);
            var r := ExchangeRequest(-100.0, "USD", "EUR", 0.92);
            && NonNegative(s) && Refused(s, "user123", r).None? && !Safe(r)
            && forall n :: Transition(s, "user123", r, n, None) ==> Balance(n, "user123", "EUR") == -92.0
  {
    assert -100.0 * 0.92 == -92.0;
    assert (-92.0 * 100.0).Floor == -9200;
    assert Credit(-100.0, 0.92) == -92.0;
  }
}
