/** Whole-line writing on shared transports: the io lock of framework/cli/daemon_commands.py.  The main
    loop and any number of log pumps write JSON lines; every write may be split into pieces by the
    operating system, and threads may be scheduled in any order. */
module Transport {
  import opened Wrappers

  /** Thread 0 is the main loop, the others are log pumps.  Sink 0 is stdout, the others connections. */
  const MAIN: nat := 0
  const STDOUT: nat := 0

  /** A thread inside the lock: the message it is writing, where to (once looked up) and how far it is. */
  datatype Hold = Hold(thread: nat, body: string, target: Option<nat>, written: nat)

  /** A critical section that has ended; `whole` unless a write failed in it. */
  datatype Entry = Entry(thread: nat, sink: nat, body: string, whole: bool)

  datatype State = State(
    holder: Option<Hold>,
    conn: nat,             // where the main loop writes its responses
    emit: nat,             // where notifications go: `_emit_sink`, or stdout when it is None
    out: map<nat, string>, // what each transport has received
    done: seq<Entry>)

  datatype Event =
    | Acquire(thread: nat, body: string) // enter `with self._io_lock`
    | Look                               // the holder reads where to write
    | Write(n: nat)                      // the next `n` characters reach the transport
    | Release                            // leave the lock, everything written
    | Fail                               // a write raises: leave the lock early
    | Connect(sink: nat)                 // main: a client's connection becomes the transport
    | Disconnect                         // main: notifications go back to stdout

  const INITIAL := State(None, STDOUT, STDOUT, map[], [])

  function Received(s: State, sink: nat): string {
    if sink in s.out then s.out[sink] else ""
  }

  function Line(body: string): string {
    body + "\n"
  }

  /** `json.dumps` escapes control characters, so a message body holds no newline. */
  predicate Enabled(s: State, e: Event) {
    match e
    case Acquire(_, body) => s.holder.None? && '\n' !in body
    case Look => s.holder.Some? && s.holder.value.target.None?
    case Write(n) =>
      && s.holder.Some? && s.holder.value.target.Some?
      && n >= 1 && s.holder.value.written + n <= |Line(s.holder.value.body)|
    case Release =>
      s.holder.Some? && s.holder.value.target.Some? && s.holder.value.written == |Line(s.holder.value.body)|
    case Fail => s.holder.Some? && s.holder.value.target.Some?
    case Connect(_) => s.holder.None? || s.holder.value.thread != MAIN
    case Disconnect => s.holder.None? || s.holder.value.thread != MAIN
  }

  function Step(s: State, e: Event): State
    requires Enabled(s, e)
  {
    match e
    case Acquire(thread, body) => s.(holder := Some(Hold(thread, body, None, 0)))
    case Look =>
      var h := s.holder.value;
      s.(holder := Some(h.(target := Some(if h.thread == MAIN then s.conn else s.emit))))
    case Write(n) =>
      var h := s.holder.value;
      var sink, piece := h.target.value, Line(h.body)[h.written..h.written + n];
      s.(holder := Some(h.(written := h.written + n)), out := s.out[sink := Received(s, sink) + piece])
    case Release => Leave(s, true)
    case Fail => Leave(s, false)
    case Connect(sink) => s.(conn := sink, emit := sink)
    case Disconnect => s.(emit := STDOUT)
  }

  function Leave(s: State, whole: bool): State
    requires s.holder.Some? && s.holder.value.target.Some?
  {
    var h := s.holder.value;
    s.(holder := None, done := s.done + [Entry(h.thread, h.target.value, h.body, whole)])
  }

  /** The state after a sequence of events, if each was enabled in turn. */
  function Run(events: seq<Event>): Option<State> {
    if events == [] then Some(INITIAL)
    else
      var before, e := Run(events[..|events| - 1]), events[|events| - 1];
      if before.Some? && Enabled(before.value, e) then Some(Step(before.value, e)) else None
  }

  // ---------------------------------------------------------------- what a transport must hold

  /** The lines written to a sink, one after the other. */
  function Lines(done: seq<Entry>, sink: nat): string {
    if done == [] then ""
    else
      var last := done[|done| - 1];
      Lines(done[..|done| - 1], sink) + if last.sink == sink then Line(last.body) else ""
  }

  function BodiesTo(done: seq<Entry>, sink: nat): seq<string> {
    if done == [] then []
    else
      var last := done[|done| - 1];
      BodiesTo(done[..|done| - 1], sink) + if last.sink == sink then [last.body] else []
  }

  function BodiesBy(done: seq<Entry>, thread: nat): seq<string> {
    if done == [] then []
    else
      var last := done[|done| - 1];
      BodiesBy(done[..|done| - 1], thread) + if last.thread == thread then [last.body] else []
  }

  /** The messages a thread set out to write, in its program order. */
  function SentBy(events: seq<Event>, thread: nat): seq<string> {
    if events == [] then []
    else
      var last := events[|events| - 1];
      SentBy(events[..|events| - 1], thread)
      + if last.Acquire? && last.thread == thread then [last.body] else []
  }

  /** No write to the sink has failed. */
  predicate Sound(done: seq<Entry>, sink: nat) {
    forall i :: 0 <= i < |done| && done[i].sink == sink ==> done[i].whole
  }

  /** What the holder has put on the sink so far. */
  function Partial(s: State, sink: nat): string
    requires s.holder.Some? ==> s.holder.value.written <= |Line(s.holder.value.body)|
  {
    if s.holder.Some? && s.holder.value.target == Some(sink) then
      Line(s.holder.value.body)[..s.holder.value.written]
    else ""
  }

  ghost predicate Inv(s: State) {
    && (s.holder.Some? ==> s.holder.value.written <= |Line(s.holder.value.body)|)
    && (s.holder.Some? && s.holder.value.target.None? ==> s.holder.value.written == 0)
    && (s.holder.Some? ==> '\n' !in s.holder.value.body)
    && (forall i :: 0 <= i < |s.done| ==> '\n' !in s.done[i].body)
    && (forall sink :: Sound(s.done, sink) ==> Received(s, sink) == Lines(s.done, sink) + Partial(s, sink))
  }

  lemma {:induction false} StepKeepsInv(s: State, e: Event)
    requires Inv(s) && Enabled(s, e)
    ensures Inv(Step(s, e))
  {
    match e {
      case Write(n) => WriteKeepsInv(s, n);
      case Release => LeaveKeepsInv(s, true);
      case Fail => LeaveKeepsInv(s, false);
      case _ => OthersKeepInv(s, e);
    }
  }

  lemma OthersKeepInv(s: State, e: Event)
    requires Inv(s) && Enabled(s, e) && !e.Write? && !e.Release? && !e.Fail?
    ensures Inv(Step(s, e))
  {
    var n := Step(s, e);
    assert n.done == s.done && n.out == s.out;
    forall sink: nat | Sound(n.done, sink)
      ensures Received(n, sink) == Lines(n.done, sink) + Partial(n, sink)
    {
      assert Received(s, sink) == Lines(s.done, sink) + Partial(s, sink);
      assert Partial(n, sink) == Partial(s, sink);
    }
  }

  lemma WriteKeepsInv(s: State, k: nat)
    requires Inv(s) && Enabled(s, Write(k))
    ensures Inv(Step(s, Write(k)))
  {
    var n := Step(s, Write(k));
    forall sink: nat | Sound(n.done, sink)
      ensures Received(n, sink) == Lines(n.done, sink) + Partial(n, sink)
    {
      WriteKeepsSink(s, k, sink, Lines(s.done, sink));
    }
  }

  lemma WriteKeepsSink(s: State, k: nat, sink: nat, lines: string)
    requires Enabled(s, Write(k)) && Received(s, sink) == lines + Partial(s, sink)
    ensures Received(Step(s, Write(k)), sink) == lines + Partial(Step(s, Write(k)), sink)
  {
    var h := s.holder.value;
    if h.target == Some(sink) {
      PieceExtends(lines, Line(h.body), h.written, k);
    }
  }

  lemma PieceExtends(lines: string, line: string, i: nat, k: nat)
    requires i + k <= |line|
    ensures lines + line[..i] + line[i..i + k] == lines + line[..i + k]
  {
    assert line[..i] + line[i..i + k] == line[..i + k];
  }

  lemma LeaveKeepsInv(s: State, whole: bool)
    requires Inv(s) && s.holder.Some? && s.holder.value.target.Some?
    requires whole ==> s.holder.value.written == |Line(s.holder.value.body)|
    ensures Inv(Leave(s, whole))
  {
    var n, h := Leave(s, whole), s.holder.value;
    assert n.done[..|s.done|] == s.done;
    forall sink: nat | Sound(n.done, sink)
      ensures Received(n, sink) == Lines(n.done, sink) + Partial(n, sink)
    {
      assert forall i :: 0 <= i < |s.done| ==> s.done[i] == n.done[i];
      assert Sound(s.done, sink);
      assert n.done[|s.done|] == Entry(h.thread, h.target.value, h.body, whole);
      WholeLine(s);
    }
  }

  lemma WholeLine(s: State)
    ensures s.holder.Some? ==> var l := Line(s.holder.value.body); l[..|l|] == l
  {
  }

  lemma {:induction false} RunKeepsInv(events: seq<Event>)
    ensures Run(events).Some? ==> Inv(Run(events).value)
  {
    if events != [] && Run(events).Some? {
      var before := events[..|events| - 1];
      RunKeepsInv(before);
      StepKeepsInv(Run(before).value, events[|events| - 1]);
    }
  }

  /** Each thread's messages are written in the order in which it sent them, the one being written last. */
  lemma {:induction false} OwnOrder(events: seq<Event>, thread: nat)
    requires Run(events).Some?
    ensures var s := Run(events).value;
            SentBy(events, thread) == BodiesBy(s.done, thread)
              + if s.holder.Some? && s.holder.value.thread == thread then [s.holder.value.body] else []
  {
    if events != [] {
      var before, e := events[..|events| - 1], events[|events| - 1];
      OwnOrder(before, thread);
      var s := Run(before).value;
      if e.Release? || e.Fail? {
        assert Step(s, e).done[..|s.done|] == s.done;
      }
    }
  }

  // ---------------------------------------------------------------- what the reader of a transport sees

  /** The complete lines of a text and what follows the last newline. */
  function Split(text: string, current: string): (seq<string>, string) {
    if text == "" then ([], current)
    else if text[0] == '\n' then
      var (lines, rest) := Split(text[1..], "");
      ([current] + lines, rest)
    else Split(text[1..], current + [text[0]])
  }

  lemma {:induction false} SplitLine(body: string, current: string, rest: string)
    requires '\n' !in body
    ensures Split(body + "\n" + rest, current) ==
            ([current + body] + Split(rest, "").0, Split(rest, "").1)
    decreases |body|
  {
    var text := body + "\n" + rest;
    if body == "" {
      assert text[1..] == rest && current + body == current;
    } else {
      assert text[1..] == body[1..] + "\n" + rest;
      SplitLine(body[1..], current + [body[0]], rest);
      assert current + [body[0]] + body[1..] == current + body;
    }
  }

  lemma {:induction false} SplitLines(done: seq<Entry>, sink: nat, rest: string)
    requires forall i :: 0 <= i < |done| ==> '\n' !in done[i].body
    ensures Split(Lines(done, sink) + rest, "") == (BodiesTo(done, sink) + Split(rest, "").0, Split(rest, "").1)
  {
    if done == [] {
      assert Lines(done, sink) + rest == rest;
      assert BodiesTo(done, sink) + Split(rest, "").0 == Split(rest, "").0;
    } else {
      var before, last := done[..|done| - 1], done[|done| - 1];
      if last.sink == sink {
        SplitLines(before, sink, Line(last.body) + rest);
        assert Lines(done, sink) + rest == Lines(before, sink) + (Line(last.body) + rest);
        SplitLine(last.body, "", rest);
        assert Line(last.body) + rest == last.body + "\n" + rest && "" + last.body == last.body;
        assert BodiesTo(before, sink) + ([last.body] + Split(rest, "").0) == BodiesTo(done, sink) + Split(rest, "").0;
      } else {
        SplitLines(before, sink, rest);
        assert Lines(done, sink) == Lines(before, sink);
        assert BodiesTo(done, sink) == BodiesTo(before, sink);
      }
    }
  }

  /** In every interleaving, whenever the lock is free, each transport on which no write failed holds a
      concatenation of whole lines: its reader recovers exactly the messages written to it, in order,
      with nothing left over, and each thread's messages are all there in the order it sent them. */
  lemma WholeLinesWhenFree(events: seq<Event>, sink: nat, thread: nat)
    requires Run(events).Some? && Run(events).value.holder.None?
    requires Sound(Run(events).value.done, sink)
    ensures var s := Run(events).value;
            && Received(s, sink) == Lines(s.done, sink)
            && Split(Received(s, sink), "") == (BodiesTo(s.done, sink), "")
            && BodiesBy(s.done, thread) == SentBy(events, thread)
  {
    var s := Run(events).value;
    RunKeepsInv(events);
    OwnOrder(events, thread);
    assert Lines(s.done, sink) + "" == Lines(s.done, sink);
    SplitLines(s.done, sink, "");
    assert BodiesTo(s.done, sink) + [] == BodiesTo(s.done, sink);
  }

  /** Even in the middle of a write a reader sees only whole messages and one unfinished line. */
  lemma ReaderSeesWholeMessages(events: seq<Event>, sink: nat)
    requires Run(events).Some? && Sound(Run(events).value.done, sink)
    ensures var s := Run(events).value;
            var seen := Split(Received(s, sink), "").0;
            && BodiesTo(s.done, sink) <= seen
            && (seen == BodiesTo(s.done, sink)
                || (s.holder.Some? && seen == BodiesTo(s.done, sink) + [s.holder.value.body]))
  {
    var s := Run(events).value;
    RunKeepsInv(events);
    var part := Partial(s, sink);
    SplitLines(s.done, sink, part);
    if part == "" {
    } else {
      var body := s.holder.value.body;
      if |part| == |Line(body)| {
        assert part == body + "\n" + "";
        SplitLine(body, "", "");
        assert "" + body == body;
      } else {
        assert part <= body;
        NoNewlineNoLine(part, "");
      }
    }
  }

  lemma {:induction false} NoNewlineNoLine(text: string, current: string)
    requires '\n' !in text
    ensures Split(text, current) == ([], current + text)
    decreases |text|
  {
    if text == "" {
      assert current + text == current;
    } else {
      NoNewlineNoLine(text[1..], current + [text[0]]);
      assert current + [text[0]] + text[1..] == current + text;
    }
  }

  // ---------------------------------------------------------------- who gets which message

  predicate KeepsSinks(e: Event) {
    !e.Connect? && !e.Disconnect?
  }

  /** Without connections (stdio mode) everything goes to stdout. */
  lemma {:induction false} StdioGetsEverything(events: seq<Event>)
    requires Run(events).Some?
    requires forall i :: 0 <= i < |events| ==> KeepsSinks(events[i])
    ensures var s := Run(events).value;
            && s.conn == STDOUT && s.emit == STDOUT
            && (s.holder.Some? && s.holder.value.target.Some? ==> s.holder.value.target.value == STDOUT)
            && forall i :: 0 <= i < |s.done| ==> s.done[i].sink == STDOUT
  {
    if events != [] {
      StdioGetsEverything(events[..|events| - 1]);
    }
  }

  /** While a client stays connected, everything that is looked up after it connected goes to it, from
      the main loop and from the pumps: at most the message already on its way goes elsewhere. */
  lemma {:induction false} ClientGetsItsMessages(before: seq<Event>, client: nat, during: seq<Event>)
    requires Run(before + [Connect(client)] + during).Some? && Run(before).Some?
    requires forall i :: 0 <= i < |during| ==> KeepsSinks(during[i])
    ensures var s, start := Run(before + [Connect(client)] + during).value, Run(before).value;
            var underway := start.holder.Some? && start.holder.value.target.Some?;
            && s.conn == client && s.emit == client
            && |start.done| <= |s.done|
            && (forall i :: |start.done| <= i < |s.done| ==>
                  s.done[i].sink == client || (underway && i == |start.done|))
            && (s.holder.Some? && s.holder.value.target.Some? ==>
                  s.holder.value.target.value == client || (underway && |s.done| == |start.done|))
    decreases |during|
  {
    var all := before + [Connect(client)] + during;
    if during == [] {
      assert all[..|all| - 1] == before && all[|all| - 1] == Connect(client);
    } else {
      var rest := during[..|during| - 1];
      assert all[..|all| - 1] == before + [Connect(client)] + rest && all[|all| - 1] == during[|during| - 1];
      ClientGetsItsMessages(before, client, rest);
    }
  }

  /** Event `i` is the last connection, or the last change of the notification sink. */
  predicate LastConnect(events: seq<Event>, i: int) {
    0 <= i < |events| && events[i].Connect? && forall j :: i < j < |events| ==> !events[j].Connect?
  }

  predicate LastChange(events: seq<Event>, i: int) {
    0 <= i < |events| && !KeepsSinks(events[i]) && forall j :: i < j < |events| ==> KeepsSinks(events[j])
  }

  /** In every run responses go to the client that connected last, and notifications to it too until it
      disconnects; before the first connection, and notifications after a disconnection, go to stdout. */
  lemma {:induction false} SinksFollowConnections(events: seq<Event>, i: int)
    requires Run(events).Some?
    ensures LastConnect(events, i) ==> Run(events).value.conn == events[i].sink
    ensures (forall j :: 0 <= j < |events| ==> !events[j].Connect?) ==> Run(events).value.conn == STDOUT
    ensures LastChange(events, i) ==>
              Run(events).value.emit == if events[i].Connect? then events[i].sink else STDOUT
    ensures (forall j :: 0 <= j < |events| ==> KeepsSinks(events[j])) ==> Run(events).value.emit == STDOUT
  {
    if events != [] {
      var before, e := events[..|events| - 1], events[|events| - 1];
      SinksFollowConnections(before, i);
      assert forall j :: 0 <= j < |before| ==> before[j] == events[j];
      assert e == events[|events| - 1];
    }
  }

  /** The holder writes where its thread was told to at the moment it looked, and to nowhere else. */
  lemma LookChooses(s: State)
    requires Enabled(s, Look)
    ensures var n := Step(s, Look);
            && n.holder == Some(s.holder.value.(target := Some(if s.holder.value.thread == 0 then s.conn else s.emit)))
            && n.out == s.out && n.done == s.done
  {
  }

  // ---------------------------------------------------------------- progress

  /** No deadlock: a free lock can be taken by any thread with any newline-free message, and the holder can
      always go on, piece by piece of any size, until its line is complete and it leaves. */
  lemma Progress(s: State, thread: nat, body: string)
    requires Inv(s) && '\n' !in body
    ensures s.holder.None? ==> Enabled(s, Acquire(thread, body))
    ensures s.holder.Some? ==>
              var h := s.holder.value;
              && (h.target.None? ==> Enabled(s, Look))
              && (h.target.Some? ==>
                    var left := |Line(h.body)| - h.written;
                    && (left == 0 ==> Enabled(s, Release))
                    && forall n: nat :: 1 <= n <= left ==> Enabled(s, Write(n)))
  {
  }

  /** A write extends the holder's transport by the next piece of its line and no other one. */
  lemma WriteExtends(s: State, h: Hold, to: nat, n: nat)
    requires s.holder == Some(h) && h.target == Some(to) && Enabled(s, Write(n))
    ensures var next := Step(s, Write(n));
            && next.holder == Some(h.(written := h.written + n)) && next.done == s.done
            && Received(next, to) == Received(s, to) + Line(h.body)[h.written..h.written + n]
            && forall other: nat :: other != to ==> Received(next, other) == Received(s, other)
  {
  }

  /** From any state with a free lock a thread can deliver a message: its whole line reaches the transport
      it has to go to, wherever the operating system cuts it (after `n` characters here), and nothing
      reaches another one. */
  lemma Delivers(s: State, thread: nat, body: string, n: nat) returns (looked: State, half: State, full: State)
    requires s.holder.None? && '\n' !in body && 1 <= n <= |body|
    ensures Enabled(s, Acquire(thread, body)) && Enabled(Step(s, Acquire(thread, body)), Look)
    ensures looked == Step(Step(s, Acquire(thread, body)), Look)
    ensures Enabled(looked, Write(n)) && half == Step(looked, Write(n))
    ensures Enabled(half, Write(|body| + 1 - n)) && full == Step(half, Write(|body| + 1 - n))
    ensures Enabled(full, Release)
    ensures var end, to := Step(full, Release), if thread == 0 then s.conn else s.emit;
            && end.holder.None? && end.done == s.done + [Entry(thread, to, body, true)]
            && Received(end, to) == Received(s, to) + (body + "\n")
            && forall other: nat :: other != to ==> Received(end, other) == Received(s, other)
  {
    var to := if thread == MAIN then s.conn else s.emit;
    looked := Step(Step(s, Acquire(thread, body)), Look);
    var h := Hold(thread, body, Some(to), 0);
    WriteExtends(looked, h, to, n);
    half := Step(looked, Write(n));
    WriteExtends(half, h.(written := n), to, |body| + 1 - n);
    full := Step(half, Write(|body| + 1 - n));
    TwoPieces(Received(s, to), Line(body), n);
    assert Received(Step(full, Release), to) == Received(full, to);
  }

  lemma TwoPieces(before: string, line: string, n: nat)
    requires n <= |line|
    ensures before + line[0..0 + n] + line[n..n + (|line| - n)] == before + line
  {
  }
}
