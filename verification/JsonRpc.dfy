/** The request protocol and session life cycle of class JSONRPCServer in
    framework/cli/daemon_commands.py. */
module JsonRpc {
  import opened Wrappers
  import opened Text

  datatype Json = Null | Bool(b: bool) | Num(n: int) | Str(s: string) | Arr(items: seq<Json>) | Obj(fields: map<string, Json>)

  datatype RpcError = RpcError(code: int, message: string)

  /** A response as it is assembled: which members it carries is for the proofs to say. */
  datatype Response = Response(id: Json, result: Option<Json>, error: Option<RpcError>)

  const PARSE_ERROR := -32700
  const INVALID_REQUEST := -32600
  const METHOD_NOT_FOUND := -32601
  const INTERNAL_ERROR := -32603
  const MAX_MESSAGE := 8 * 1024 * 1024

  /** The methods that start, stop or use a session. */
  const SESSION_METHODS: set<string> := {
    "session/start", "session/stop", "ui/getScreenshot", "ui/getTree", "action/tap", "action/swipe", "action/type"
  }

  /** The other registered methods; none of them changes the sessions. */
  const OTHER_METHODS: set<string> := {
    "health/check", "device/list", "backend/list", "kit/generate", "kit/generateMany",
    "kit/generateCrossPlatform", "codegen/generate", "flow/getGraph", "environment/detect",
    "selector/generate", "device/start", "device/stop", "device/listAvds", "app/install", "app/uninstall",
    "license/status", "deeplinks/extract", "device/prepare", "project/detect", "logs/start", "logs/stop"
  }

  /** `dict.get` with a default. */
  function Get(fields: map<string, Json>, key: string, default: Json): Json {
    if key in fields then fields[key] else default
  }

  // ---------------------------------------------------------------- sessions

  /** A driver is named by its place in the list of all drivers ever built. */
  datatype Session = Session(ios: bool, driver: Option<nat>)

  datatype Build = Build(session: string, canQuit: bool)

  datatype State = State(
    sessions: map<string, Session>,
    issued: set<string>,  // session ids handed out so far
    built: seq<Build>,    // drivers constructed so far
    quits: seq<nat>)      // drivers on which `quit` was called, in order

  const INITIAL := State(map[], {}, [], [])

  /** What the outside world decides while a request is handled. */
  datatype World = World(
    newId: string,                 // uuid4
    preflightOk: bool,
    argumentsOk: bool,             // `int(...)` accepts the coordinates
    driverOk: bool,                // the driver constructor does not raise
    canQuit: bool,                 // the driver has a `quit`
    outcome: Result<Json, string>, // of the device call, or of a handler outside the model
    serializable: bool)            // `json.dumps` accepts the response

  /** `str(platform or "android").lower() == "ios"`. */
  predicate IsIos(platform: Json) {
    platform.Str? && |platform.s| == 3
    && platform.s[0] in "iI" && platform.s[1] in "oO" && platform.s[2] in "sS"
  }

  /** `session_id in self.sessions`: keys are strings, an unhashable id raises. */
  predicate Known(s: State, id: Json) {
    id.Str? && id.s in s.sessions
  }

  /** `_session_driver`: the cached driver, else a new one, which is then cached. */
  function UseDriver(s: State, id: string, w: World): (State, bool)
    requires id in s.sessions
  {
    if s.sessions[id].driver.Some? then (s, true)
    else if !w.driverOk then (s, false)
    else
      var d := |s.built|;
      (s.(sessions := s.sessions[id := s.sessions[id].(driver := Some(d))], built := s.built + [Build(id, w.canQuit)]), true)
  }

  function CallDriver(s: State, id: string, w: World): (State, Result<Json, string>)
    requires id in s.sessions
  {
    var (n, ok) := UseDriver(s, id, w);
    (n, if ok then w.outcome else Err("driver"))
  }

  function StartSession(s: State, params: map<string, Json>, w: World): (State, Result<Json, string>) {
    if !w.preflightOk then (s, Err("Session preflight failed"))
    else
      (s.(sessions := s.sessions[w.newId := Session(IsIos(Get(params, "platform", Str("android"))), None)],
          issued := s.issued + {w.newId}),
       Ok(Obj(map["session_id" := Str(w.newId)])))
  }

  /** `str(params.get("session_id") or "")`; no text of a number, list or object is a session id. */
  function StopKey(params: map<string, Json>): string {
    var id := Get(params, "session_id", Null);
    if id.Str? then id.s else ""
  }

  function StopSession(s: State, params: map<string, Json>): (State, Result<Json, string>) {
    var id := StopKey(params);
    var answer := Ok(Obj(map["status" := Str("stopped")]));
    if id !in s.sessions then (s, answer)
    else
      var d := s.sessions[id].driver;
      var quits := if d.Some? && d.value < |s.built| && s.built[d.value].canQuit then [d.value] else [];
      (s.(sessions := s.sessions - {id}, quits := s.quits + quits), answer)
  }

  predicate Missing(params: map<string, Json>, key: string) {
    Get(params, key, Null) == Null
  }

  /** The handler of a method that uses a session. */
  function UseSession(s: State, name: string, params: map<string, Json>, w: World): (State, Result<Json, string>) {
    var id := Get(params, "session_id", Null);
    if !Known(s, id) then (s, Err("Session not found"))
    else if name == "ui/getTree" then CallDriver(s, id.s, w)
    else if name == "action/tap" && (Missing(params, "x") || Missing(params, "y")) then
      (s, Err("tap requires x and y coordinates"))
    else if name == "action/swipe"
      && (Missing(params, "start_x") || Missing(params, "start_y") || Missing(params, "end_x") || Missing(params, "end_y"))
    then
      (s, Err("swipe requires start_x, start_y, end_x, end_y"))
    else if name == "action/swipe" && !w.argumentsOk then (s, Err("int"))
    else if name != "ui/getScreenshot" && s.sessions[id.s].ios then CallDriver(s, id.s, w)
    else (s, w.outcome)
  }

  /** `self.handlers[method](params)`. */
  function Handler(s: State, name: string, params: Json, w: World): (State, Result<Json, string>) {
    if name !in SESSION_METHODS then (s, w.outcome)
    else if !params.Obj? then (s, Err("no attribute 'get'"))
    else if name == "session/start" then StartSession(s, params.fields, w)
    else if name == "session/stop" then StopSession(s, params.fields)
    else UseSession(s, name, params.fields, w)
  }

  predicate Registered(name: string) {
    name in SESSION_METHODS || name in OTHER_METHODS
  }

  /** `handle_request`; an error result is an exception that escapes it. */
  function HandleRequest(s: State, request: Json, w: World): (State, Result<Response, string>) {
    if !request.Obj? then (s, Err("no attribute 'get'"))
    else
      var id := Get(request.fields, "id", Null);
      var name := Get(request.fields, "method", Null);
      if Get(request.fields, "jsonrpc", Null) != Str("2.0") then
        (s, Ok(Response(id, None, Some(RpcError(INVALID_REQUEST, "Invalid Request: jsonrpc must be '2.0'")))))
      else if name.Arr? || name.Obj? then (s, Err("unhashable type"))
      else if !name.Str? || !Registered(name.s) then
        (s, Ok(Response(id, None, Some(RpcError(METHOD_NOT_FOUND, "Method not found")))))
      else
        var (n, r) := Handler(s, name.s, Get(request.fields, "params", Obj(map[])), w);
        (n, Ok(match r
               case Ok(v) => Response(id, Some(v), None)
               case Err(m) => Response(id, None, Some(RpcError(INTERNAL_ERROR, "Internal error: " + m)))))
  }

  datatype Loaded = Loaded(value: Json) | DecodeError(message: string) | LoadRaised(message: string)

  function Failure(code: int, message: string): Response {
    Response(Null, None, Some(RpcError(code, message)))
  }

  /** `_process_line`, with `loads` standing for `json.loads`. */
  function ProcessLine(t: CharTable, loads: string -> Loaded, s: State, raw: string, w: World): (State, Option<Response>) {
    var line := Strip(t, raw);
    if line == "" then (s, None)
    else if |line| > MAX_MESSAGE then (s, Some(Failure(INVALID_REQUEST, "Request too large")))
    else
      match loads(line)
      case DecodeError(m) => (s, Some(Failure(PARSE_ERROR, "Parse error: " + m)))
      case LoadRaised(m) => (s, Some(Failure(INTERNAL_ERROR, "Internal error: " + m)))
      case Loaded(request) =>
        var (n, r) := HandleRequest(s, request, w);
        (n, Some(match r
                 case Err(m) => Failure(INTERNAL_ERROR, "Internal error: " + m)
                 case Ok(response) => if w.serializable then response else Failure(INTERNAL_ERROR, "Internal error")))
  }

  // ---------------------------------------------------------------- what a request names

  /** The request's `session_id` is this text. */
  predicate NamesSession(params: map<string, Json>, id: string) {
    "session_id" in params && params["session_id"] == Str(id)
  }

  /** The driver to quit when a session that holds `driver` is stopped. */
  function QuitsOf(driver: Option<nat>, built: seq<Build>): seq<nat> {
    match driver
    case None => []
    case Some(d) => if d < |built| && built[d].canQuit then [d] else []
  }

  predicate Given(params: map<string, Json>, key: string) {
    key in params && params[key] != Null
  }

  /** The coordinates a tap or a swipe needs are there; a swipe's are numbers. */
  predicate Complete(name: string, params: map<string, Json>, w: World) {
    && (name == "action/tap" ==> Given(params, "x") && Given(params, "y"))
    && (name == "action/swipe" ==>
          && Given(params, "start_x") && Given(params, "start_y") && Given(params, "end_x") && Given(params, "end_y")
          && w.argumentsOk)
  }

  /** Exactly the spellings of "ios" count as iOS. */
  lemma IosSpellings(platform: Json)
    ensures IsIos(platform) <==>
            platform in {Str("ios"), Str("ioS"), Str("iOs"), Str("iOS"), Str("Ios"), Str("IoS"), Str("IOs"), Str("IOS")}
  {
    if IsIos(platform) {
      assert platform.s == [platform.s[0], platform.s[1], platform.s[2]];
    }
  }

  // ---------------------------------------------------------------- the server object

  class Server {
    var sessions: map<string, Session>
    // What has been done to the outside world so far.
    var issued: set<string>
    var built: seq<Build>
    var quits: seq<nat>

    function View(): State
      reads this
    {
      State(sessions, issued, built, quits)
    }

    constructor ()
      ensures View() == INITIAL
    {
      sessions, issued, built, quits := map[], {}, [], [];
    }

    method SessionDriver(id: string, w: World) returns (ok: bool)
      requires id in sessions
      modifies this
      ensures ok <==> old(sessions)[id].driver.Some? || w.driverOk
      ensures quits == old(quits) && issued == old(issued)
      ensures old(sessions)[id].driver.Some? || !w.driverOk ==> sessions == old(sessions) && built == old(built)
      ensures old(sessions)[id].driver.None? && w.driverOk ==>
                && sessions == old(sessions)[id := Session(old(sessions)[id].ios, Some(|old(built)|))]
                && built == old(built) + [Build(id, w.canQuit)]
      ensures (View(), ok) == UseDriver(old(View()), id, w)
    {
      var session := sessions[id];
      if session.driver.Some? {
        return true;
      }
      if !w.driverOk {
        return false;
      }
      sessions := sessions[id := session.(driver := Some(|built|))];
      built := built + [Build(id, w.canQuit)];
      ok := true;
    }

    method HandleSessionStart(params: map<string, Json>, w: World) returns (r: Result<Json, string>)
      modifies this
      ensures built == old(built) && quits == old(quits)
      ensures !w.preflightOk ==> r.Err? && sessions == old(sessions) && issued == old(issued)
      ensures w.preflightOk ==>
                && r == Ok(Obj(map["session_id" := Str(w.newId)]))
                && sessions == old(sessions)[w.newId :=
                     Session("platform" in params && IsIos(params["platform"]), None)]
                && issued == old(issued) + {w.newId}
      ensures (View(), r) == StartSession(old(View()), params, w)
    {
      if !w.preflightOk {
        return Err("Session preflight failed");
      }
      sessions := sessions[w.newId := Session(IsIos(Get(params, "platform", Str("android"))), None)];
      issued := issued + {w.newId};
      r := Ok(Obj(map["session_id" := Str(w.newId)]));
    }

    method HandleSessionStop(params: map<string, Json>) returns (r: Result<Json, string>)
      modifies this
      ensures r == Ok(Obj(map["status" := Str("stopped")]))
      ensures built == old(built) && issued == old(issued)
      ensures forall id :: NamesSession(params, id) && id in old(sessions) ==>
                && sessions == old(sessions) - {id}
                && quits == old(quits) + QuitsOf(old(sessions)[id].driver, built)
      ensures "" !in old(sessions) && (forall id :: NamesSession(params, id) ==> id !in old(sessions)) ==>
                sessions == old(sessions) && quits == old(quits)
      ensures (View(), r) == StopSession(old(View()), params)
    {
      var id := StopKey(params);
      if id in sessions {
        var d := sessions[id].driver;
        if d.Some? && d.value < |built| && built[d.value].canQuit {
          quits := quits + [d.value];
        } else {
          assert quits + [] == quits;
        }
        sessions := sessions - {id};
      }
      r := Ok(Obj(map["status" := Str("stopped")]));
    }

    method HandleUseSession(name: string, params: map<string, Json>, w: World) returns (r: Result<Json, string>)
      requires name in {"ui/getScreenshot", "ui/getTree", "action/tap", "action/swipe", "action/type"}
      modifies this
      ensures quits == old(quits) && issued == old(issued)
      ensures (forall id :: NamesSession(params, id) ==> id !in old(sessions)) ==>
                r.Err? && sessions == old(sessions) && built == old(built)
      ensures !Complete(name, params, w) ==> r.Err? && sessions == old(sessions) && built == old(built)
      ensures forall id :: NamesSession(params, id) && id in old(sessions) && Complete(name, params, w) ==>
                var session := old(sessions)[id];
                var drives := name == "ui/getTree" || (session.ios && name != "ui/getScreenshot");
                var builds := drives && session.driver.None? && w.driverOk;
                && sessions == (if builds then old(sessions)[id := Session(session.ios, Some(|old(built)|))] else old(sessions))
                && built == old(built) + (if builds then [Build(id, w.canQuit)] else [])
                && (if drives && session.driver.None? && !w.driverOk then r.Err? else r == w.outcome)
      ensures (View(), r) == UseSession(old(View()), name, params, w)
    {
      var id := Get(params, "session_id", Null);
      if !(id.Str? && id.s in sessions) {
        return Err("Session not found");
      }
      if name == "action/tap" && (Missing(params, "x") || Missing(params, "y")) {
        return Err("tap requires x and y coordinates");
      }
      if name == "action/swipe" {
        if Missing(params, "start_x") || Missing(params, "start_y") || Missing(params, "end_x") || Missing(params, "end_y") {
          return Err("swipe requires start_x, start_y, end_x, end_y");
        }
        if !w.argumentsOk {
          return Err("int");
        }
      }
      if name == "ui/getTree" || (name != "ui/getScreenshot" && sessions[id.s].ios) {
        var ok := SessionDriver(id.s, w);
        return if ok then w.outcome else Err("driver");
      }
      r := w.outcome;
    }

    method Handle(request: Json, w: World) returns (r: Result<Response, string>)
      modifies this
      ensures (View(), r) == HandleRequest(old(View()), request, w)
    {
      if !request.Obj? {
        return Err("no attribute 'get'");
      }
      var id := Get(request.fields, "id", Null);
      if Get(request.fields, "jsonrpc", Null) != Str("2.0") {
        return Ok(Response(id, None, Some(RpcError(INVALID_REQUEST, "Invalid Request: jsonrpc must be '2.0'"))));
      }
      var name := Get(request.fields, "method", Null);
      var params := Get(request.fields, "params", Obj(map[]));
      if name.Arr? || name.Obj? {
        return Err("unhashable type");
      }
      if !name.Str? || !Registered(name.s) {
        return Ok(Response(id, None, Some(RpcError(METHOD_NOT_FOUND, "Method not found"))));
      }
      var v: Result<Json, string>;
      if name.s !in SESSION_METHODS {
        v := w.outcome;
      } else if !params.Obj? {
        v := Err("no attribute 'get'");
      } else if name.s == "session/start" {
        v := HandleSessionStart(params.fields, w);
      } else if name.s == "session/stop" {
        v := HandleSessionStop(params.fields);
      } else {
        v := HandleUseSession(name.s, params.fields, w);
      }
      r := match v
        case Ok(value) => Ok(Response(id, Some(value), None))
        case Err(m) => Ok(Response(id, None, Some(RpcError(INTERNAL_ERROR, "Internal error: " + m))));
    }

    method Process(t: CharTable, loads: string -> Loaded, raw: string, w: World) returns (r: Option<Response>)
      modifies this
      ensures (View(), r) == ProcessLine(t, loads, old(View()), raw, w)
    {
      var line := Strip(t, raw);
      if line == "" {
        return None;
      }
      if |line| > MAX_MESSAGE {
        return Some(Failure(INVALID_REQUEST, "Request too large"));
      }
      match loads(line) {
        case DecodeError(m) => r := Some(Failure(PARSE_ERROR, "Parse error: " + m));
        case LoadRaised(m) => r := Some(Failure(INTERNAL_ERROR, "Internal error: " + m));
        case Loaded(request) =>
          var handled := Handle(request, w);
          match handled {
            case Err(m) => r := Some(Failure(INTERNAL_ERROR, "Internal error: " + m));
            case Ok(response) => r := Some(if w.serializable then response else Failure(INTERNAL_ERROR, "Internal error"));
          }
      }
    }
  }

  // ---------------------------------------------------------------- sessions over whole runs

  datatype Input = Input(raw: string, world: World)

  /** uuid4 never repeats an id. */
  predicate FreshId(s: State, w: World) {
    w.newId != "" && w.newId !in s.issued
  }

  function Run(t: CharTable, loads: string -> Loaded, inputs: seq<Input>): Option<State> {
    if inputs == [] then Some(INITIAL)
    else
      var before, i := Run(t, loads, inputs[..|inputs| - 1]), inputs[|inputs| - 1];
      if before.Some? && FreshId(before.value, i.world) then Some(ProcessLine(t, loads, before.value, i.raw, i.world).0)
      else None
  }

  /** Every driver belongs to the session it was built for; while that session lives it is the cached
      one and has not been quit; once the session has been stopped it has been quit if it can be. */
  ghost predicate Inv(s: State) {
    && s.sessions.Keys <= s.issued && "" !in s.issued
    && (forall d :: 0 <= d < |s.built| ==> s.built[d].session in s.issued)
    && (forall c, d :: 0 <= c < d < |s.built| ==> s.built[c].session != s.built[d].session)
    && (forall id :: id in s.sessions && s.sessions[id].driver.Some? ==>
          s.sessions[id].driver.value < |s.built| && s.built[s.sessions[id].driver.value].session == id)
    && (forall d :: 0 <= d < |s.built| && s.built[d].session in s.sessions ==>
          s.sessions[s.built[d].session].driver == Some(d) && d !in s.quits)
    && (forall d :: 0 <= d < |s.built| && s.built[d].session !in s.sessions ==> (d in s.quits <==> s.built[d].canQuit))
    && (forall d :: d in s.quits ==> d < |s.built|)
    && (forall i, j :: 0 <= i < j < |s.quits| ==> s.quits[i] != s.quits[j])
  }

  lemma UseDriverKeepsInv(s: State, id: string, w: World)
    requires Inv(s) && id in s.sessions
    ensures Inv(UseDriver(s, id, w).0)
  {
  }

  lemma StopKeepsInv(s: State, params: map<string, Json>)
    requires Inv(s)
    ensures Inv(StopSession(s, params).0)
  {
  }

  lemma StartKeepsInv(s: State, params: map<string, Json>, w: World)
    requires Inv(s) && FreshId(s, w)
    ensures Inv(StartSession(s, params, w).0)
  {
  }

  lemma HandlerKeepsInv(s: State, name: string, params: Json, w: World)
    requires Inv(s) && FreshId(s, w)
    ensures Inv(Handler(s, name, params, w).0)
  {
    if params.Obj? {
      if name == "session/stop" {
        StopKeepsInv(s, params.fields);
      } else if name == "session/start" {
        StartKeepsInv(s, params.fields, w);
      } else {
        var id := Get(params.fields, "session_id", Null);
        if Known(s, id) {
          UseDriverKeepsInv(s, id.s, w);
        }
      }
    }
  }

  lemma {:induction false} RunKeepsInv(t: CharTable, loads: string -> Loaded, inputs: seq<Input>)
    requires Run(t, loads, inputs).Some?
    ensures Inv(Run(t, loads, inputs).value)
  {
    if inputs != [] {
      var before, i := inputs[..|inputs| - 1], inputs[|inputs| - 1];
      RunKeepsInv(t, loads, before);
      ProcessKeepsInv(t, loads, Run(t, loads, before).value, i);
    }
  }

  lemma ProcessKeepsInv(t: CharTable, loads: string -> Loaded, s: State, i: Input)
    requires Inv(s) && FreshId(s, i.world)
    ensures Inv(ProcessLine(t, loads, s, i.raw, i.world).0)
  {
    var line := Strip(t, i.raw);
    if line != "" && |line| <= MAX_MESSAGE && loads(line).Loaded? && loads(line).value.Obj? {
      var fields := loads(line).value.fields;
      var name := Get(fields, "method", Null);
      if name.Str? {
        HandlerKeepsInv(s, name.s, Get(fields, "params", Obj(map[])), i.world);
      }
    }
  }

  // ---------------------------------------------------------------- which lines start and stop sessions

  /** The line is a request for a method, with these parameters. */
  predicate Asks(t: CharTable, loads: string -> Loaded, raw: string, name: string, params: map<string, Json>) {
    var line := Strip(t, raw);
    && line != "" && |line| <= 8 * 1024 * 1024 && loads(line).Loaded? && loads(line).value.Obj?
    && var fields := loads(line).value.fields;
       && "jsonrpc" in fields && fields["jsonrpc"] == Str("2.0")
       && "method" in fields && fields["method"] == Str(name)
       && (if "params" in fields then fields["params"] == Obj(params) else params == map[])
  }

  ghost predicate StopsLine(t: CharTable, loads: string -> Loaded, raw: string, id: string) {
    exists params :: Asks(t, loads, raw, "session/stop", params) && NamesSession(params, id)
  }

  ghost predicate StartsLine(t: CharTable, loads: string -> Loaded, i: Input, id: string) {
    && i.world.preflightOk && i.world.newId == id
    && exists params :: Asks(t, loads, i.raw, "session/start", params)
  }

  /** A request line that names a live session to stop removes it, and nothing else, and quits the driver
      it holds if that can quit. */
  lemma StopLineStops(
    t: CharTable, loads: string -> Loaded, s: State, i: Input, params: map<string, Json>, id: string)
    requires Asks(t, loads, i.raw, "session/stop", params) && NamesSession(params, id) && id in s.sessions
    ensures var (n, r) := ProcessLine(t, loads, s, i.raw, i.world);
            && n == State(s.sessions - {id}, s.issued, s.built, s.quits + QuitsOf(s.sessions[id].driver, s.built))
            && r.Some? && (i.world.serializable ==> r.value.result == Some(Obj(map["status" := Str("stopped")])))
  {
    assert "session/stop" in SESSION_METHODS;
  }

  /** A request line to start a session, if the preflight passes, makes the id it answers with live and
      gives it no driver yet. */
  lemma StartLineStarts(t: CharTable, loads: string -> Loaded, s: State, i: Input, params: map<string, Json>)
    requires Asks(t, loads, i.raw, "session/start", params)
    ensures var (n, r) := ProcessLine(t, loads, s, i.raw, i.world);
            var id := i.world.newId;
            && r.Some?
            && (!i.world.preflightOk ==> n == s && r.value.error.Some?)
            && (i.world.preflightOk ==>
                  && id in n.sessions && n.sessions[id].driver == None
                  && n.sessions - {id} == s.sessions - {id}
                  && n.issued == s.issued + {id} && n.built == s.built && n.quits == s.quits
                  && (i.world.serializable ==> r.value.result == Some(Obj(map["session_id" := Str(id)]))))
  {
    assert "session/start" in SESSION_METHODS;
  }

  /** A request line that uses a live session builds its driver exactly if the method needs one there, none
      is cached and the constructor succeeds; nothing else changes. */
  lemma UseLineBuilds(
    t: CharTable, loads: string -> Loaded, s: State, i: Input, name: string, params: map<string, Json>, id: string)
    requires name in {"ui/getScreenshot", "ui/getTree", "action/tap", "action/swipe", "action/type"}
    requires Asks(t, loads, i.raw, name, params) && NamesSession(params, id) && id in s.sessions
    ensures var (n, r) := ProcessLine(t, loads, s, i.raw, i.world);
            var session := s.sessions[id];
            var drives := name == "ui/getTree" || (session.ios && name != "ui/getScreenshot");
            var builds := Complete(name, params, i.world) && drives && session.driver.None? && i.world.driverOk;
            && r.Some?
            && n == (if builds then
                       State(s.sessions[id := Session(session.ios, Some(|s.built|))], s.issued,
                             s.built + [Build(id, i.world.canQuit)], s.quits)
                     else s)
            && (i.world.serializable ==>
                  (r.value.result.Some? <==>
                     && Complete(name, params, i.world) && i.world.outcome.Ok?
                     && (drives ==> session.driver.Some? || i.world.driverOk)))
  {
    assert name in SESSION_METHODS;
  }

  /** No other line opens or closes a session. */
  lemma OtherLinesKeepSessions(t: CharTable, loads: string -> Loaded, s: State, i: Input, id: string)
    requires "" !in s.sessions
    ensures var n := ProcessLine(t, loads, s, i.raw, i.world).0;
            && (id in s.sessions && !StopsLine(t, loads, i.raw, id) ==> id in n.sessions)
            && (id !in s.sessions && !StartsLine(t, loads, i, id) ==> id !in n.sessions)
  {
    var line := Strip(t, i.raw);
    if line != "" && |line| <= MAX_MESSAGE && loads(line).Loaded? && loads(line).value.Obj? {
      var fields := loads(line).value.fields;
      var name, params := Get(fields, "method", Null), Get(fields, "params", Obj(map[]));
      if name.Str? && params.Obj? && Get(fields, "jsonrpc", Null) == Str("2.0") {
        assert Asks(t, loads, i.raw, name.s, params.fields);
        if name.s == "session/stop" {
          assert NamesSession(params.fields, StopKey(params.fields)) || StopKey(params.fields) == "";
        }
      }
    }
  }

  /** Over whole runs: a session is live exactly if some line started it and no later line stopped it. */
  lemma {:induction false} LiveIffStartedNotStopped(t: CharTable, loads: string -> Loaded, inputs: seq<Input>, id: string)
    requires Run(t, loads, inputs).Some?
    ensures id in Run(t, loads, inputs).value.sessions <==> exists k :: StartedAndKept(t, loads, inputs, k, id)
  {
    if inputs != [] {
      var n := |inputs| - 1;
      var before, i := inputs[..n], inputs[n];
      var s := Run(t, loads, before).value;
      LiveIffStartedNotStopped(t, loads, before, id);
      RunKeepsInv(t, loads, before);
      LineChangesSession(t, loads, s, i, id);
      KeptByLastLine(t, loads, inputs, id);
    }
  }

  lemma KeptByLastLine(t: CharTable, loads: string -> Loaded, inputs: seq<Input>, id: string)
    requires inputs != []
    ensures var before, i := inputs[..|inputs| - 1], inputs[|inputs| - 1];
            (exists k :: StartedAndKept(t, loads, inputs, k, id)) <==>
            StartsLine(t, loads, i, id)
            || ((exists k :: StartedAndKept(t, loads, before, k, id)) && !StopsLine(t, loads, i.raw, id))
  {
    var n := |inputs| - 1;
    var before := inputs[..n];
    assert forall k :: 0 <= k < n ==> before[k] == inputs[k];
    if StartsLine(t, loads, inputs[n], id) {
      assert StartedAndKept(t, loads, inputs, n, id);
    }
    forall k | StartedAndKept(t, loads, inputs, k, id) && k < n
      ensures StartedAndKept(t, loads, before, k, id) && !StopsLine(t, loads, inputs[n].raw, id)
    {
      forall j | k < j < n
        ensures !StopsLine(t, loads, before[j].raw, id)
      {
        assert !StopsLine(t, loads, inputs[j].raw, id);
      }
    }
    forall k | StartedAndKept(t, loads, before, k, id) && !StopsLine(t, loads, inputs[n].raw, id)
      ensures StartedAndKept(t, loads, inputs, k, id)
    {
      forall j | k < j <= n
        ensures !StopsLine(t, loads, inputs[j].raw, id)
      {
        if j < n {
          assert !StopsLine(t, loads, before[j].raw, id);
        }
      }
    }
  }

  /** Line `k` started the session and no later line stopped it. */
  ghost predicate StartedAndKept(t: CharTable, loads: string -> Loaded, inputs: seq<Input>, k: int, id: string) {
    && 0 <= k < |inputs| && StartsLine(t, loads, inputs[k], id)
    && forall j :: k < j < |inputs| ==> !StopsLine(t, loads, inputs[j].raw, id)
  }

  lemma LineChangesSession(t: CharTable, loads: string -> Loaded, s: State, i: Input, id: string)
    requires Inv(s) && FreshId(s, i.world)
    ensures var n := ProcessLine(t, loads, s, i.raw, i.world).0;
            id in n.sessions <==> StartsLine(t, loads, i, id) || (id in s.sessions && !StopsLine(t, loads, i.raw, id))
    ensures StartsLine(t, loads, i, id) ==> !StopsLine(t, loads, i.raw, id)
  {
    OtherLinesKeepSessions(t, loads, s, i, id);
    if StartsLine(t, loads, i, id) {
      var params :| Asks(t, loads, i.raw, "session/start", params);
      StartLineStarts(t, loads, s, i, params);
    } else if StopsLine(t, loads, i.raw, id) && id in s.sessions {
      var params :| Asks(t, loads, i.raw, "session/stop", params) && NamesSession(params, id);
      StopLineStops(t, loads, s, i, params, id);
    }
  }

  function BuiltFor(built: seq<Build>, id: string): nat {
    if built == [] then 0
    else BuiltFor(built[..|built| - 1], id) + if built[|built| - 1].session == id then 1 else 0
  }

  lemma {:induction false} BuiltForAtMostOnce(built: seq<Build>, id: string)
    requires forall c, d :: 0 <= c < d < |built| ==> built[c].session != built[d].session
    ensures BuiltFor(built, id) <= 1
    ensures BuiltFor(built, id) == 1 <==> exists d :: 0 <= d < |built| && built[d].session == id
  {
    if built != [] {
      BuiltForAtMostOnce(built[..|built| - 1], id);
    }
  }

  /** In every run a session builds at most one driver, and after it has been stopped that driver has
      had `quit` called exactly once if it can quit, and never otherwise. */
  lemma {:induction false} OneDriverQuitOnce(t: CharTable, loads: string -> Loaded, inputs: seq<Input>, id: string)
    requires Run(t, loads, inputs).Some?
    ensures var s := Run(t, loads, inputs).value;
            && BuiltFor(s.built, id) <= 1
            && forall d :: 0 <= d < |s.built| && s.built[d].session == id ==>
                 multiset(s.quits)[d] == if id !in s.sessions && s.built[d].canQuit then 1 else 0
  {
    var s := Run(t, loads, inputs).value;
    RunKeepsInv(t, loads, inputs);
    BuiltForAtMostOnce(s.built, id);
    forall d | 0 <= d < |s.built| && s.built[d].session == id
      ensures multiset(s.quits)[d] == if id !in s.sessions && s.built[d].canQuit then 1 else 0
    {
      OnceInSeq(s.quits, d);
    }
  }

  lemma {:induction false} OnceInSeq(q: seq<nat>, d: nat)
    requires forall i, j :: 0 <= i < j < |q| ==> q[i] != q[j]
    ensures multiset(q)[d] == if d in q then 1 else 0
  {
    if q != [] {
      OnceInSeq(q[1..], d);
      assert q == [q[0]] + q[1..];
    }
  }

  /** A session id that has been handed out and stopped never comes back. */
  lemma {:induction false} StoppedStaysStopped(t: CharTable, loads: string -> Loaded, inputs: seq<Input>, k: nat, id: string)
    requires k <= |inputs| && Run(t, loads, inputs).Some? && Run(t, loads, inputs[..k]).Some?
    requires id in Run(t, loads, inputs[..k]).value.issued && id !in Run(t, loads, inputs[..k]).value.sessions
    ensures id in Run(t, loads, inputs).value.issued && id !in Run(t, loads, inputs).value.sessions
    decreases |inputs|
  {
    if k == |inputs| {
      assert inputs[..k] == inputs;
    } else {
      var before, i := inputs[..|inputs| - 1], inputs[|inputs| - 1];
      assert before[..k] == inputs[..k];
      StoppedStaysStopped(t, loads, before, k, id);
      ProcessKeepsStopped(t, loads, Run(t, loads, before).value, i, id);
    }
  }

  lemma ProcessKeepsStopped(t: CharTable, loads: string -> Loaded, s: State, i: Input, id: string)
    requires FreshId(s, i.world) && id in s.issued && id !in s.sessions
    ensures var n := ProcessLine(t, loads, s, i.raw, i.world).0; id in n.issued && id !in n.sessions
  {
    var line := Strip(t, i.raw);
    if line != "" && |line| <= MAX_MESSAGE && loads(line).Loaded? && loads(line).value.Obj? {
      var fields := loads(line).value.fields;
      var name := Get(fields, "method", Null);
      if name.Str? {
        HandlerKeepsStopped(s, name.s, Get(fields, "params", Obj(map[])), i.world, id);
      }
    }
  }

  lemma HandlerKeepsStopped(s: State, name: string, params: Json, w: World, id: string)
    requires FreshId(s, w) && id in s.issued && id !in s.sessions
    ensures var n := Handler(s, name, params, w).0; id in n.issued && id !in n.sessions
  {
  }

  /** Using an id that is not a live session is refused and changes nothing; stopping it again answers
      "stopped" and quits nothing. */
  lemma UnknownSessionRejected(s: State, name: string, params: map<string, Json>, w: World)
    requires !Known(s, Get(params, "session_id", Null)) && "" !in s.sessions
    requires name in SESSION_METHODS && name != "session/start"
    ensures Handler(s, name, Obj(params), w).0 == s
    ensures Handler(s, name, Obj(params), w).1.Err? <==> name != "session/stop"
  {
  }

  /** After a session has been stopped, every later request that uses its id is refused and leaves the
      server as it is, whatever came in between. */
  lemma StoppedIdRejected(
    t: CharTable, loads: string -> Loaded, inputs: seq<Input>, k: nat, id: string,
    name: string, params: map<string, Json>, w: World)
    requires k <= |inputs| && Run(t, loads, inputs).Some? && Run(t, loads, inputs[..k]).Some?
    requires id in Run(t, loads, inputs[..k]).value.issued && id !in Run(t, loads, inputs[..k]).value.sessions
    requires name in SESSION_METHODS && name != "session/start" && name != "session/stop"
    requires Get(params, "session_id", Null) == Str(id)
    ensures var s := Run(t, loads, inputs).value;
            Handler(s, name, Obj(params), w).0 == s && Handler(s, name, Obj(params), w).1.Err?
  {
    StoppedStaysStopped(t, loads, inputs, k, id);
    RunKeepsInv(t, loads, inputs);
    UnknownSessionRejected(Run(t, loads, inputs).value, name, params, w);
  }

  /** From the line that stops a live session on: the session is gone for good, the driver built for it
      has had `quit` called exactly once if it can quit, and every request that uses the id is refused. */
  lemma {:induction false} StopLineEndsSession(
    t: CharTable, loads: string -> Loaded, inputs: seq<Input>, k: nat, id: string,
    name: string, params: map<string, Json>, w: World)
    requires k < |inputs| && Run(t, loads, inputs).Some? && Run(t, loads, inputs[..k]).Some?
    requires id in Run(t, loads, inputs[..k]).value.sessions && StopsLine(t, loads, inputs[k].raw, id)
    requires name in SESSION_METHODS && name != "session/start" && name != "session/stop" && NamesSession(params, id)
    ensures var s := Run(t, loads, inputs).value;
            && id !in s.sessions
            && (forall d :: 0 <= d < |s.built| && s.built[d].session == id ==>
                  multiset(s.quits)[d] == if s.built[d].canQuit then 1 else 0)
            && Handler(s, name, Obj(params), w).0 == s && Handler(s, name, Obj(params), w).1.Err?
  {
    var before := inputs[..k];
    var s := Run(t, loads, before).value;
    RunKeepsInv(t, loads, before);
    RunPrefix(t, loads, inputs, k + 1);
    assert inputs[..k + 1][..k] == before && inputs[..k + 1][k] == inputs[k];
    var ask :| Asks(t, loads, inputs[k].raw, "session/stop", ask) && NamesSession(ask, id);
    StopLineStops(t, loads, s, inputs[k], ask, id);
    StoppedIdRejected(t, loads, inputs, k + 1, id, name, params, w);
    StoppedStaysStopped(t, loads, inputs, k + 1, id);
    OneDriverQuitOnce(t, loads, inputs, id);
  }

  lemma {:induction false} RunPrefix(t: CharTable, loads: string -> Loaded, inputs: seq<Input>, k: nat)
    requires k <= |inputs| && Run(t, loads, inputs).Some?
    ensures Run(t, loads, inputs[..k]).Some?
    decreases |inputs|
  {
    if k == |inputs| {
      assert inputs[..k] == inputs;
    } else {
      assert inputs[..|inputs| - 1][..k] == inputs[..k];
      RunPrefix(t, loads, inputs[..|inputs| - 1], k);
    }
  }

  // ---------------------------------------------------------------- responses

  predicate Blank(t: CharTable, s: string) {
    forall i :: 0 <= i < |s| ==> t.space(s[i])
  }

  lemma {:induction false} StripLeftBlank(t: CharTable, s: string)
    ensures StripLeft(t, s) == "" <==> Blank(t, s)
    ensures StripLeft(t, s) != "" ==> !t.space(StripLeft(t, s)[0])
  {
    if s != "" && t.space(s[0]) {
      StripLeftBlank(t, s[1..]);
      assert forall i :: 1 <= i < |s| ==> s[i] == s[1..][i - 1];
    }
  }

  lemma {:induction false} StripRightKeeps(t: CharTable, s: string)
    requires s != "" && !t.space(s[0])
    ensures StripRight(t, s) != ""
  {
    if t.space(s[|s| - 1]) {
      StripRightKeeps(t, s[..|s| - 1]);
    }
  }

  /** One response per line that is not blank, none for a blank one, and a response carries exactly one
      of `result` and `error`: section 5 of the JSON-RPC 2.0 specification. */
  lemma OneResponsePerLine(t: CharTable, loads: string -> Loaded, s: State, raw: string, w: World)
    ensures var r := ProcessLine(t, loads, s, raw, w).1;
            && (r.None? <==> Blank(t, raw))
            && (r.Some? ==> (r.value.result.Some? <==> r.value.error.None?))
  {
    StripLeftBlank(t, raw);
    var left := StripLeft(t, raw);
    if left != "" {
      StripRightKeeps(t, left);
    }
  }

  /** The line parsed to an object of protocol version 2.0. */
  predicate Versioned(t: CharTable, loads: string -> Loaded, raw: string) {
    var l := loads(Strip(t, raw));
    l.Loaded? && l.value.Obj? && "jsonrpc" in l.value.fields && l.value.fields["jsonrpc"] == Str("2.0")
  }

  /** The method of a request is a text, number, truth value or null that names no handler. */
  predicate UnknownMethod(fields: map<string, Json>) {
    var name := if "method" in fields then fields["method"] else Null;
    !name.Arr? && !name.Obj? && !(name.Str? && (name.s in SESSION_METHODS || name.s in OTHER_METHODS))
  }

  /** Which error is reported when.  Every other error is -32603, and an answer that cannot be serialised
      turns into that one too. */
  lemma ErrorCodes(t: CharTable, loads: string -> Loaded, s: State, raw: string, w: World)
    requires !Blank(t, raw)
    ensures var line := Strip(t, raw);
            var r := ProcessLine(t, loads, s, raw, w).1;
            && r.Some?
            && (HasCode(r.value, -32700) <==> |line| <= 8 * 1024 * 1024 && loads(line).DecodeError?)
            && (HasCode(r.value, -32600) <==>
                  || |line| > 8 * 1024 * 1024
                  || (loads(line).Loaded? && loads(line).value.Obj? && !Versioned(t, loads, raw) && w.serializable))
            && (HasCode(r.value, -32601) <==>
                  && |line| <= 8 * 1024 * 1024 && Versioned(t, loads, raw)
                  && UnknownMethod(loads(line).value.fields) && w.serializable)
            && (r.value.error.Some? ==> r.value.error.value.code in {-32700, -32600, -32601, -32603})
  {
    OneResponsePerLine(t, loads, s, raw, w);
  }

  predicate HasCode(r: Response, code: int) {
    r.error.Some? && r.error.value.code == code
  }

  /** The request was read far enough for its id to be echoed. */
  predicate IdEchoed(t: CharTable, loads: string -> Loaded, raw: string, w: World) {
    var line := Strip(t, raw);
    && |line| <= MAX_MESSAGE && loads(line).Loaded? && loads(line).value.Obj? && w.serializable
    && (Get(loads(line).value.fields, "jsonrpc", Null) == Str("2.0") ==>
          !Get(loads(line).value.fields, "method", Null).Arr? && !Get(loads(line).value.fields, "method", Null).Obj?)
  }

  /** The response's id is the request's, and null when the line was too long, did not parse, was not an
      object, named its method by a list or object, or had an answer that cannot be serialised.  The
      last two are the cases in which a known id is dropped. */
  lemma ResponseId(t: CharTable, loads: string -> Loaded, s: State, raw: string, w: World)
    requires !Blank(t, raw)
    ensures var r := ProcessLine(t, loads, s, raw, w).1;
            && r.Some?
            && r.value.id == if IdEchoed(t, loads, raw, w) then Get(loads(Strip(t, raw)).value.fields, "id", Null) else Null
  {
    OneResponsePerLine(t, loads, s, raw, w);
  }
}
