/** The device-log stream of framework/cli/daemon_commands.py: `handle_logs_start`, its pump thread and
    `_stop_log_stream`.  The main thread attaches and detaches streams while each stream's own pump
    thread reads it to the end. */
module LogStream {
  import opened Wrappers

  /** What one pump thread is about to do: read its stream, or, after the end of the stream was seen
      while the stream was still attached, emit the closing notification. */
  datatype Phase = Reading(pending: Option<string>) | Ending | Over

  datatype Note = Line(stream: nat, text: string) | Ended(stream: nat)

  /** `terminated` lists the processes on which `terminate` was called, in order. */
  datatype State = State(attached: Option<nat>, pumps: map<nat, Phase>, terminated: seq<nat>, log: seq<Note>)

  datatype Event =
    | Start(stream: nat)             // logs/start whose process keeps running
    | StartFailed                    // logs/start whose process exits at once
    | Stop                           // logs/stop, or a client that disconnects
    | Read(stream: nat, raw: string) // the pump gets the next line of its stream
    | EmitLine(stream: nat)          // and passes it on
    | Eof(stream: nat)               // the pump sees the end and looks at `_log_stream`
    | EmitEnded(stream: nat)

  const INITIAL := State(None, map[], [], [])

  /** `line.rstrip("\n")`. */
  function StripNewlines(raw: string): (r: string)
    ensures r <= raw && (r == "" || r[|r| - 1] != '\n')
    ensures forall i :: |r| <= i < |raw| ==> raw[i] == '\n'
  {
    if raw != "" && raw[|raw| - 1] == '\n' then StripNewlines(raw[..|raw| - 1]) else raw
  }

  /** A started process is a new one, and each pump thread does one thing after the other. */
  predicate Enabled(s: State, e: Event) {
    match e
    case Start(p) => p !in s.pumps
    case StartFailed => true
    case Stop => true
    case Read(p, _) => p in s.pumps && s.pumps[p] == Reading(None)
    case EmitLine(p) => p in s.pumps && s.pumps[p].Reading? && s.pumps[p].pending.Some?
    case Eof(p) => p in s.pumps && s.pumps[p] == Reading(None)
    case EmitEnded(p) => p in s.pumps && s.pumps[p].Ending?
  }

  function Detach(s: State): State {
    s.(attached := None, terminated := s.terminated + if s.attached.Some? then [s.attached.value] else [])
  }

  function Step(s: State, e: Event): State
    requires Enabled(s, e)
  {
    match e
    case Start(p) => Detach(s).(attached := Some(p), pumps := s.pumps[p := Reading(None)])
    case StartFailed => Detach(s)
    case Stop => Detach(s)
    case Read(p, raw) =>
      var line := StripNewlines(raw);
      if line == "" then s else s.(pumps := s.pumps[p := Reading(Some(line))])
    case EmitLine(p) =>
      s.(pumps := s.pumps[p := Reading(None)], log := s.log + [Line(p, s.pumps[p].pending.value)])
    case Eof(p) => s.(pumps := s.pumps[p := if s.attached == Some(p) then Ending else Over])
    case EmitEnded(p) => s.(pumps := s.pumps[p := Over], log := s.log + [Ended(p)])
  }

  function Run(events: seq<Event>): Option<State> {
    if events == [] then Some(INITIAL)
    else
      var before, e := Run(events[..|events| - 1]), events[|events| - 1];
      if before.Some? && Enabled(before.value, e) then Some(Step(before.value, e)) else None
  }

  // ---------------------------------------------------------------- what a run shows of one stream

  function NotesOf(log: seq<Note>, p: nat): seq<Note> {
    if log == [] then []
    else
      var last := log[|log| - 1];
      NotesOf(log[..|log| - 1], p) + if last.stream == p then [last] else []
  }

  /** The lines the device wrote that are not blank, as the pump of `p` read them. */
  function LinesRead(events: seq<Event>, p: nat): seq<Note> {
    if events == [] then []
    else
      var last := events[|events| - 1];
      LinesRead(events[..|events| - 1], p)
      + if last.Read? && last.stream == p && StripNewlines(last.raw) != "" then [Line(p, StripNewlines(last.raw))] else []
  }

  /** The end of `p` was seen while it was the attached stream. */
  predicate EndedAttached(events: seq<Event>, p: nat) {
    events != []
    && var before, e := events[..|events| - 1], events[|events| - 1];
       EndedAttached(before, p) || (e == Eof(p) && Run(before).Some? && Run(before).value.attached == Some(p))
  }

  function Closing(events: seq<Event>, p: nat): seq<Note> {
    if EndedAttached(events, p) then [Ended(p)] else []
  }

  predicate EndSeen(events: seq<Event>, p: nat) {
    Eof(p) in events
  }

  /** What the log still lacks of stream `p`: the line being passed on, or the closing notification. */
  function Owed(s: State, p: nat): seq<Note> {
    if p !in s.pumps then []
    else
      match s.pumps[p]
      case Reading(pending) => if pending.Some? then [Line(p, pending.value)] else []
      case Ending => [Ended(p)]
      case Over => []
  }

  /** The pump is past its end exactly when the end has been seen, which happens once. */
  lemma {:induction false} PhaseOf(events: seq<Event>, p: nat)
    requires Run(events).Some?
    ensures EndSeen(events, p) <==> p in Run(events).value.pumps && !Run(events).value.pumps[p].Reading?
    ensures EndedAttached(events, p) ==> EndSeen(events, p)
  {
    if events != [] {
      PhaseOf(events[..|events| - 1], p);
      assert events == events[..|events| - 1] + [events[|events| - 1]];
    }
  }

  /** What one event adds to what stream `p` has shown or is about to show. */
  function Added(s: State, e: Event, p: nat): seq<Note> {
    match e
    case Read(q, raw) => if q == p && StripNewlines(raw) != "" then [Line(p, StripNewlines(raw))] else []
    case Eof(q) => if q == p && s.attached == Some(p) then [Ended(p)] else []
    case _ => []
  }

  lemma StepShows(s: State, e: Event, p: nat)
    requires Enabled(s, e)
    ensures NotesOf(Step(s, e).log, p) + Owed(Step(s, e), p) == NotesOf(s.log, p) + Owed(s, p) + Added(s, e, p)
  {
    if e.EmitLine? || e.EmitEnded? {
      assert Step(s, e).log[..|s.log|] == s.log;
    }
  }

  /** In every run, what stream `p` has shown and is about to show is its own lines in order and then,
      exactly if its end was seen while attached, one closing notification. */
  lemma {:induction false} StreamShows(events: seq<Event>, p: nat)
    requires Run(events).Some?
    ensures NotesOf(Run(events).value.log, p) + Owed(Run(events).value, p) == LinesRead(events, p) + Closing(events, p)
  {
    if events != [] {
      var before, e := events[..|events| - 1], events[|events| - 1];
      StreamShows(before, p);
      StepShows(Run(before).value, e, p);
      PhaseOf(before, p);
    }
  }

  /** Once detached before its end was seen, a stream stays detached: a process is never started twice. */
  lemma {:induction false} StaysDetached(events: seq<Event>, i: nat, p: nat)
    requires Run(events).Some? && i <= |events| && Run(events[..i]).Some?
    requires p in Run(events[..i]).value.pumps && Run(events[..i]).value.attached != Some(p)
    requires !EndSeen(events[..i], p)
    ensures p in Run(events).value.pumps && Run(events).value.attached != Some(p)
    ensures !EndedAttached(events, p)
    decreases |events|
  {
    if |events| == i {
      assert events[..i] == events;
      PhaseOf(events, p);
    } else {
      assert events[..|events| - 1][..i] == events[..i];
      StaysDetached(events[..|events| - 1], i, p);
    }
  }

  /** A stream detached before its end was seen never emits "log stream ended", whatever happens later. */
  lemma DetachedNeverEnds(events: seq<Event>, i: nat, p: nat)
    requires Run(events).Some? && i <= |events| && Run(events[..i]).Some?
    requires p in Run(events[..i]).value.pumps && Run(events[..i]).value.attached != Some(p)
    requires !EndSeen(events[..i], p)
    ensures Ended(p) !in Run(events).value.log
  {
    StaysDetached(events, i, p);
    NoClosingNote(events, p);
  }

  lemma NoClosingNote(events: seq<Event>, p: nat)
    requires Run(events).Some? && !EndedAttached(events, p)
    ensures Ended(p) !in Run(events).value.log
  {
    StreamShows(events, p);
    LinesAreLines(events, p);
    var s := Run(events).value;
    var notes := NotesOf(s.log, p);
    EndedNoted(s.log, p);
    assert LinesRead(events, p) + [] == LinesRead(events, p);
    forall k | 0 <= k < |notes|
      ensures notes[k].Line?
    {
      assert notes[k] == (notes + Owed(s, p))[k];
    }
  }

  lemma {:induction false} EndedNoted(log: seq<Note>, p: nat)
    ensures Ended(p) in log <==> Ended(p) in NotesOf(log, p)
  {
    if log != [] {
      EndedNoted(log[..|log| - 1], p);
      assert log == log[..|log| - 1] + [log[|log| - 1]];
    }
  }

  lemma {:induction false} LinesAreLines(events: seq<Event>, p: nat)
    ensures forall i :: 0 <= i < |LinesRead(events, p)| ==> LinesRead(events, p)[i].Line?
  {
    if events != [] {
      LinesAreLines(events[..|events| - 1], p);
    }
  }

  /** A stream still attached when its end is seen, once its pump is done, has emitted all its lines in
      order and then the closing notification exactly once; one that was not attached, its lines only. */
  lemma FinishedStream(events: seq<Event>, p: nat)
    requires Run(events).Some? && p in Run(events).value.pumps && Run(events).value.pumps[p].Over?
    ensures NotesOf(Run(events).value.log, p) ==
            LinesRead(events, p) + Closing(events, p)
  {
    StreamShows(events, p);
    var notes := NotesOf(Run(events).value.log, p);
    assert notes + [] == notes;
  }

  /** No process leaks: in every run, every stream ever started is the attached one or had `terminate`
      called on it exactly once, and nothing else was terminated. */
  lemma {:induction false} StartedIsAttachedOrTerminated(events: seq<Event>)
    requires Run(events).Some?
    ensures var s := Run(events).value;
            && (forall p :: p in s.pumps <==> s.attached == Some(p) || p in s.terminated)
            && (forall i, j :: 0 <= i < j < |s.terminated| ==> s.terminated[i] != s.terminated[j])
            && (s.attached.Some? ==> s.attached.value !in s.terminated)
  {
    if events != [] {
      var before := events[..|events| - 1];
      StartedIsAttachedOrTerminated(before);
    }
  }

  /** No pump gets stuck: until it is over it always has a next step, it can pass any line of its stream
      on, and what it passes on comes out under its own stream with the newlines cut off. */
  lemma PumpGoesOn(s: State, p: nat, text: string, newlines: string)
    requires p in s.pumps && text != "" && text[|text| - 1] != '\n'
    requires forall i :: 0 <= i < |newlines| ==> newlines[i] == '\n'
    ensures s.pumps[p] == Reading(None) ==>
              && Enabled(s, Eof(p)) && Enabled(s, Read(p, text + newlines))
              && var read := Step(s, Read(p, text + newlines));
                 Enabled(read, EmitLine(p)) && Step(read, EmitLine(p)) == s.(log := s.log + [Line(p, text)])
    ensures s.pumps[p].Reading? && s.pumps[p].pending.Some? ==> Enabled(s, EmitLine(p))
    ensures s.pumps[p].Ending? ==>
              Enabled(s, EmitEnded(p)) && Step(s, EmitEnded(p)).log == s.log + [Ended(p)]
  {
    StripsOnlyNewlines(text, newlines);
    if s.pumps[p] == Reading(None) {
      var read := Step(s, Read(p, text + newlines));
      assert read == s.(pumps := s.pumps[p := Reading(Some(text))]);
      assert Step(read, EmitLine(p)).pumps == s.pumps;
    }
  }

  lemma {:induction false} StripsOnlyNewlines(text: string, newlines: string)
    requires text != "" && text[|text| - 1] != '\n'
    requires forall i :: 0 <= i < |newlines| ==> newlines[i] == '\n'
    ensures StripNewlines(text + newlines) == text
    decreases |newlines|
  {
    if newlines == "" {
      assert text + newlines == text;
    } else {
      var fewer := newlines[..|newlines| - 1];
      assert (text + newlines)[..|text + newlines| - 1] == text + fewer;
      StripsOnlyNewlines(text, fewer);
    }
  }

  // ---------------------------------------------------------------- the main thread's methods

  /** The part of the server that owns `_log_stream`; `state` is the shared state the pumps also see. */
  class LogOwner {
    var logStream: Option<nat>
    ghost var state: State

    ghost predicate Valid()
      reads this
    {
      logStream == state.attached
    }

    constructor ()
      ensures Valid() && state == INITIAL
    {
      logStream := None;
      state := INITIAL;
    }

    /** `terminated` receives the process that was told to stop. */
    method StopLogStream() returns (terminated: Option<nat>)
      requires Valid()
      modifies this
      ensures Valid() && state == Step(old(state), Stop)
      ensures logStream == None && terminated == old(logStream)
      ensures state.terminated == old(state.terminated) + (if old(logStream).Some? then [old(logStream).value] else [])
      ensures state.pumps == old(state.pumps) && state.log == old(state.log)
    {
      terminated, logStream := logStream, None;
      state := Step(state, Stop);
    }

    /** `survives`: the spawned process is still running after the settling window. */
    method HandleLogsStart(device: Option<string>, process: nat, survives: bool)
      returns (r: Result<bool, string>, terminated: Option<nat>)
      requires Valid() && process !in state.pumps
      modifies this
      ensures Valid()
      ensures r.Ok? <==> device.Some? && device.value != "" && survives
      ensures device.None? || device.value == "" ==>
                state == old(state) && logStream == old(logStream) && terminated == None
      ensures device.Some? && device.value != "" ==>
                && logStream == (if survives then Some(process) else None)
                && state.terminated == old(state.terminated) + (if old(logStream).Some? then [old(logStream).value] else [])
                && state.pumps == (if survives then old(state.pumps)[process := Reading(None)] else old(state.pumps))
                && state.log == old(state.log)
                && terminated == old(logStream)
                && state == Step(old(state), if survives then Start(process) else StartFailed)
    {
      terminated := None;
      if device.None? || device.value == "" {
        return Err("logs/start requires 'udid' or a live 'session_id'"), None;
      }
      ghost var before := state;
      terminated := StopLogStream();
      if !survives {
        return Err("log stream ended immediately"), terminated;
      }
      logStream := Some(process);
      state := Step(before, Start(process));
      r := Ok(true);
    }
  }
}
