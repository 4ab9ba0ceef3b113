/**
  The REST handlers' decisions over the session registry and the adapter: status
  codes of a failed create, ref resolution, the ref-map swap after a snapshot, and
  the argument checks and defaults of the page actions.
*/
module ApiRoutes {
  import opened Common
  import Sessions
  import Adapter = AgentBrowserAdapter

  /** A handler's answer: HTTP status, the `ok` flag and the error text ("" on success). */
  datatype Reply = Reply(status: nat, ok: bool, error: string)

  const OkReply: Reply := Reply(200, true, "")

  /** What a page primitive of the browser engine did. */
  datatype EngineOutcome = EngineOk | EngineFailed(message: string)

  /**
    The snapshot handler reads a filter mode and a depth from the configuration, but
    the configuration defines neither, so both arrive as missing.
  */
  const ConfiguredSnapshotOptions: Adapter.SnapshotOptions := Adapter.SnapshotOptions(None, None)

  // ---------------------------------------------------------------------------
  // Sessions
  // ---------------------------------------------------------------------------

  /** The status of a failed create: a throttling answer when the message names the limit, a server error otherwise. */
  function CreateFailureStatus(message: string): (status: nat)
    ensures status == 429 || status == 500
    ensures status == 429 <==> Contains(message, Sessions.CapacityKeyword)
  {
    if Contains(message, Sessions.CapacityKeyword) then 429 else 500
  }

  /** The registry's capacity rejection always maps to the throttling status. */
  lemma CapacityRejectionIsThrottled(maxSessions: nat)
    ensures CreateFailureStatus(Sessions.CapacityExceeded(Sessions.CapacityMessage(maxSessions)).Message()) == 429
  {
  }

  /** `POST /sessions`. */
  method PostSessions(registry: Sessions.SessionManager, uuid: string, now: int, launch: Sessions.LaunchOutcome)
    returns (reply: Reply, sessionId: Option<string>)
    requires registry.Valid()
    modifies registry`sessions
    ensures registry.Valid()
    ensures old(|registry.sessions|) >= registry.maxSessions ==>
      reply.status == 429 && !reply.ok && sessionId == None && registry.sessions == old(registry.sessions)
    ensures old(|registry.sessions|) < registry.maxSessions && launch.LaunchFailed? ==>
      reply == Reply(CreateFailureStatus(launch.message), false, launch.message)
      && sessionId == None && registry.sessions == old(registry.sessions)
    ensures old(|registry.sessions|) < registry.maxSessions && launch.Launched? ==>
      var id := Sessions.SessionIdFrom(uuid);
      && reply == OkReply && sessionId == Some(id)
      && registry.sessions == old(registry.sessions)[id := Sessions.Session(id, launch.context, launch.page, map[], now, now, Sessions.ProfileDir(registry.dataDir, id))]
  {
    var r := registry.CreateSession(uuid, now, launch);
    match r {
      case Success(id) =>
        return OkReply, Some(id);
      case Failure(e) =>
        return Reply(CreateFailureStatus(e.Message()), false, e.Message()), None;
    }
  }

  /** `DELETE /sessions/:id`. */
  method DeleteSession(registry: Sessions.SessionManager, id: string, contextClosed: bool) returns (reply: Reply)
    requires registry.Valid()
    modifies registry`sessions
    ensures registry.Valid()
    ensures registry.sessions == old(registry.sessions) - {id}
    ensures reply == if id in old(registry.sessions) then OkReply else Reply(404, false, "会话不存在或已关闭")
  {
    var found := registry.CloseSession(id, contextClosed);
    if !found {
      return Reply(404, false, "会话不存在或已关闭");
    }
    return OkReply;
  }

  // ---------------------------------------------------------------------------
  // Ref resolution
  // ---------------------------------------------------------------------------

  const SessionNotFound: string := "Session not found"

  /** The rejection of a ref; it says "not found", which the click and fill handlers map to 404. */
  function RefNotFoundMessage(ref: string): (m: string)
    ensures Contains(m, "not found")
  {
    var m := "Ref '" + ref + "' not found (expired or invalid)";
    assert m == "Ref '" + ref + "' " + "not found" + " (expired or invalid)";
    ContainsInfix("Ref '" + ref + "' ", "not found", " (expired or invalid)");
    m
  }

  /**
    Resolve an optional ref against a ref map: no ref (or an empty one) gives the
    empty selector; a ref the map lacks, or maps to "", is rejected.
  */
  function ResolveSelector(refMap: map<string, string>, ref: Option<string>): (r: Result<string, string>)
    ensures ref.None? || ref.value == "" ==> r == Success("")
    ensures ref.Some? && ref.value != "" ==>
      (r.Success? <==> ref.value in refMap && refMap[ref.value] != "")
    ensures ref.Some? && ref.value != "" && r.Success? ==> r.value == refMap[ref.value]
    ensures r.Failure? ==> r.error == RefNotFoundMessage(ref.value) && Contains(r.error, "not found")
  {
    if ref.None? || ref.value == "" then Success("")
    else
      var selector := if ref.value in refMap then refMap[ref.value] else "";
      if selector == "" then Failure(RefNotFoundMessage(ref.value))
      else Success(selector)
  }

  /** A ref the current map lacks is rejected, whatever an earlier map held for it. */
  lemma StaleRefRejected(previous: map<string, string>, current: map<string, string>, ref: string)
    requires ref != "" && ref in previous && ref !in current
    ensures ResolveSelector(current, Some(ref)) == Failure(RefNotFoundMessage(ref))
  {
  }

  /**
    Look the session up (refreshing it) and resolve the ref against its current map.
    The refresh happens even when the ref is then rejected.
  */
  method GetSessionAndSelector(registry: Sessions.SessionManager, sessionId: string, ref: Option<string>, now: int)
    returns (r: Result<(Sessions.Session, string), string>)
    requires registry.Valid()
    modifies registry`sessions
    ensures registry.Valid()
    ensures sessionId !in old(registry.sessions) ==>
      r == Failure(SessionNotFound) && registry.sessions == old(registry.sessions)
    ensures sessionId in old(registry.sessions) ==>
      var refreshed := old(registry.sessions)[sessionId].(lastActiveAt := now);
      && registry.sessions == old(registry.sessions)[sessionId := refreshed]
      && match ResolveSelector(refreshed.refMap, ref)
         case Success(selector) => r == Success((refreshed, selector))
         case Failure(e) => r == Failure(e)
  {
    var session := registry.GetSession(sessionId, now);
    if session.None? {
      return Failure(SessionNotFound);
    }
    var resolved := ResolveSelector(session.value.refMap, ref);
    match resolved {
      case Success(selector) => return Success((session.value, selector));
      case Failure(e) => return Failure(e);
    }
  }

  // ---------------------------------------------------------------------------
  // Snapshot
  // ---------------------------------------------------------------------------

  /**
    `POST /page/snapshot`: refresh the session, run the adapter's snapshot with the
    configured options, and on success replace the session's ref map wholesale.
  */
  method PostSnapshot(registry: Sessions.SessionManager, sessionId: string, now: int, run: Adapter.CliOutcome)
    returns (reply: Reply, snapshot: Option<Adapter.LegacySnapshot>, args: seq<string>)
    requires registry.Valid()
    modifies registry`sessions
    ensures registry.Valid()
    ensures sessionId !in old(registry.sessions) ==>
      reply == Reply(404, false, "会话不存在") && snapshot == None && args == []
      && registry.sessions == old(registry.sessions)
    ensures sessionId in old(registry.sessions) ==> args == ["snapshot", "--json"]
    ensures sessionId in old(registry.sessions) && Adapter.Delivered(run) ==>
      var data := run.response.data.value;
      var refreshed := old(registry.sessions)[sessionId].(lastActiveAt := now);
      var swapped := Adapter.RefMapSpec(Adapter.RefsOrEmpty(data));
      && reply == OkReply && snapshot.Some?
      && Adapter.ConvertedFrom(snapshot.value, data, sessionId)
      && registry.sessions == old(registry.sessions)[sessionId := refreshed.(refMap := swapped)]
    ensures sessionId in old(registry.sessions) && !Adapter.Delivered(run) ==>
      reply == Reply(500, false, "获取快照失败: " + Adapter.FailureText(run)) && snapshot == None
      && registry.sessions == old(registry.sessions)[sessionId := old(registry.sessions)[sessionId].(lastActiveAt := now)]
  {
    ghost var before := registry.sessions;
    var session := registry.GetSession(sessionId, now);
    if session.None? {
      return Reply(404, false, "会话不存在"), None, [];
    }
    ghost var refreshed := registry.sessions;
    assert refreshed == before[sessionId := before[sessionId].(lastActiveAt := now)];
    var result;
    args, result := Adapter.Snapshot(sessionId, session.value.profileDir, ConfiguredSnapshotOptions, run);
    if result.Failure? {
      assert !Adapter.Delivered(run);
      return Reply(500, false, "获取快照失败: " + result.error), None, args;
    }
    assert Adapter.Delivered(run);
    assert result.value.1 == Adapter.RefMapSpec(Adapter.RefsOrEmpty(run.response.data.value));
    registry.ReplaceRefMap(sessionId, result.value.1);
    assert registry.sessions == refreshed[sessionId := refreshed[sessionId].(refMap := result.value.1)];
    assert refreshed[sessionId] == before[sessionId].(lastActiveAt := now);
    return OkReply, Some(result.value.0), args;
  }

  // ---------------------------------------------------------------------------
  // Page actions
  // ---------------------------------------------------------------------------

  /** The status of a failed click or fill: 404 when the message says "not found", 500 otherwise. */
  function ErrorStatus(message: string): (status: nat)
    ensures status == 404 <==> Contains(message, "not found")
    ensures status == 404 || status == 500
  {
    if Contains(message, "not found") then 404 else 500
  }

  /** A missing session answers 404; a missing ref for a click is a 500. */
  lemma ActionErrorStatuses()
    ensures ErrorStatus(SessionNotFound) == 404
    ensures ErrorStatus("Ref is required for click") == 500
  {
    ContainsInfix("Session ", "not found", "");
    assert SessionNotFound == "Session " + "not found" + "";
    if Contains("Ref is required for click", "not found") {
      ContainsFirstChar("Ref is required for click", "not found");
      assert false;
    }
  }

  /** Missing arguments for a fill answer 500. */
  lemma FillErrorStatus()
    ensures ErrorStatus("Ref and text are required for fill") == 500
  {
    if Contains("Ref and text are required for fill", "not found") {
      ContainsLeadingPair("Ref and text are required for fill", "not found");
      assert false;
    }
  }

  /** A rejected ref from resolution always maps to 404. */
  lemma RejectedRefIsNotFound(refMap: map<string, string>, ref: Option<string>)
    requires ResolveSelector(refMap, ref).Failure?
    ensures ErrorStatus(ResolveSelector(refMap, ref).error) == 404
  {
  }

  /** A ref counts as given when present and non-empty. */
  predicate Given(s: Option<string>) {
    s.Some? && s.value != ""
  }

  /**
    `POST /page/click`. `issued` is the adapter command sent to the engine, if any;
    the ref is passed through without consulting the session's ref map.
  */
  method PostClick(registry: Sessions.SessionManager, sessionId: string, ref: Option<string>, now: int, engine: EngineOutcome)
    returns (reply: Reply, issued: Option<seq<string>>)
    requires registry.Valid()
    modifies registry`sessions
    ensures registry.Valid()
    ensures sessionId !in old(registry.sessions) ==>
      reply == Reply(404, false, SessionNotFound) && issued == None && registry.sessions == old(registry.sessions)
    ensures sessionId in old(registry.sessions) ==>
      registry.sessions == old(registry.sessions)[sessionId := old(registry.sessions)[sessionId].(lastActiveAt := now)]
    ensures sessionId in old(registry.sessions) && !Given(ref) ==>
      reply == Reply(500, false, "Ref is required for click") && issued == None
    ensures sessionId in old(registry.sessions) && Given(ref) ==>
      issued == Some(Adapter.ClickArgs(ref.value))
      && reply == match engine
                  case EngineOk => OkReply
                  case EngineFailed(m) => Reply(ErrorStatus(m), false, m)
  {
    ActionErrorStatuses();
    var session := registry.GetSession(sessionId, now);
    if session.None? {
      return Reply(ErrorStatus(SessionNotFound), false, SessionNotFound), None;
    }
    if !Given(ref) {
      var message := "Ref is required for click";
      return Reply(ErrorStatus(message), false, message), None;
    }
    issued := Some(Adapter.ClickArgs(ref.value));
    match engine {
      case EngineOk => reply := OkReply;
      case EngineFailed(m) => reply := Reply(ErrorStatus(m), false, m);
    }
  }

  /** `POST /page/fill`: needs a ref and a defined text (the empty text is allowed). */
  method PostFill(registry: Sessions.SessionManager, sessionId: string, ref: Option<string>, text: Option<string>, now: int, engine: EngineOutcome)
    returns (reply: Reply, issued: Option<seq<string>>)
    requires registry.Valid()
    modifies registry`sessions
    ensures registry.Valid()
    ensures sessionId !in old(registry.sessions) ==>
      reply == Reply(404, false, SessionNotFound) && issued == None && registry.sessions == old(registry.sessions)
    ensures sessionId in old(registry.sessions) ==>
      registry.sessions == old(registry.sessions)[sessionId := old(registry.sessions)[sessionId].(lastActiveAt := now)]
    ensures sessionId in old(registry.sessions) && (!Given(ref) || text.None?) ==>
      reply == Reply(500, false, "Ref and text are required for fill") && issued == None
    ensures sessionId in old(registry.sessions) && Given(ref) && text.Some? ==>
      issued == Some(Adapter.FillArgs(ref.value, text.value))
      && reply == match engine
                  case EngineOk => OkReply
                  case EngineFailed(m) => Reply(ErrorStatus(m), false, m)
  {
    ActionErrorStatuses();
    var session := registry.GetSession(sessionId, now);
    if session.None? {
      return Reply(ErrorStatus(SessionNotFound), false, SessionNotFound), None;
    }
    if !Given(ref) || text.None? {
      FillErrorStatus();
      var message := "Ref and text are required for fill";
      return Reply(ErrorStatus(message), false, message), None;
    }
    issued := Some(Adapter.FillArgs(ref.value, text.value));
    match engine {
      case EngineOk => reply := OkReply;
      case EngineFailed(m) => reply := Reply(ErrorStatus(m), false, m);
    }
  }

  /** `POST /page/press`: needs a non-empty key; every failure after the lookup is a 500. */
  method PostPress(registry: Sessions.SessionManager, sessionId: string, key: Option<string>, now: int, engine: EngineOutcome)
    returns (reply: Reply, pressed: Option<string>)
    requires registry.Valid()
    modifies registry`sessions
    ensures registry.Valid()
    ensures sessionId !in old(registry.sessions) ==>
      reply == Reply(404, false, SessionNotFound) && pressed == None && registry.sessions == old(registry.sessions)
    ensures sessionId in old(registry.sessions) ==>
      registry.sessions == old(registry.sessions)[sessionId := old(registry.sessions)[sessionId].(lastActiveAt := now)]
    ensures sessionId in old(registry.sessions) && !Given(key) ==>
      reply == Reply(500, false, "Key is required for press") && pressed == None
    ensures sessionId in old(registry.sessions) && Given(key) ==>
      pressed == Some(key.value)
      && reply == match engine
                  case EngineOk => OkReply
                  case EngineFailed(m) => Reply(500, false, m)
  {
    var session := registry.GetSession(sessionId, now);
    if session.None? {
      return Reply(404, false, SessionNotFound), None;
    }
    if !Given(key) {
      return Reply(500, false, "Key is required for press"), None;
    }
    pressed := Some(key.value);
    match engine {
      case EngineOk => reply := OkReply;
      case EngineFailed(m) => reply := Reply(500, false, m);
    }
  }

  /** `ms || 1000`: a missing or zero duration waits one second; any other number, fractional or negative, is kept. */
  function WaitDuration(ms: Option<real>): (d: real)
    ensures d != 0.0
    ensures ms.Some? && ms.value != 0.0 ==> d == ms.value
    ensures ms.None? || ms.value == 0.0 ==> d == 1000.0
  {
    if ms.Some? && ms.value != 0.0 then ms.value else 1000.0
  }

  /** `POST /page/wait`. */
  method PostWait(registry: Sessions.SessionManager, sessionId: string, ms: Option<real>, now: int, engine: EngineOutcome)
    returns (reply: Reply, waited: Option<real>)
    requires registry.Valid()
    modifies registry`sessions
    ensures registry.Valid()
    ensures sessionId !in old(registry.sessions) ==>
      reply == Reply(404, false, SessionNotFound) && waited == None && registry.sessions == old(registry.sessions)
    ensures sessionId in old(registry.sessions) ==>
      registry.sessions == old(registry.sessions)[sessionId := old(registry.sessions)[sessionId].(lastActiveAt := now)]
      && waited == Some(WaitDuration(ms))
      && reply == match engine
                  case EngineOk => OkReply
                  case EngineFailed(m) => Reply(500, false, m)
  {
    var session := registry.GetSession(sessionId, now);
    if session.None? {
      return Reply(404, false, SessionNotFound), None;
    }
    waited := Some(WaitDuration(ms));
    match engine {
      case EngineOk => reply := OkReply;
      case EngineFailed(m) => reply := Reply(500, false, m);
    }
  }

  /**
    A successful snapshot followed by a lookup: the ref resolves against the map the
    snapshot produced, and that map stays installed.
  */
  method SnapshotThenResolve(registry: Sessions.SessionManager, sessionId: string, data: Adapter.CliData, ref: string, now: int)
    returns (selector: Result<string, string>)
    requires registry.Valid() && sessionId in registry.sessions
    modifies registry`sessions
    ensures registry.Valid() && sessionId in registry.sessions
    ensures registry.sessions[sessionId].refMap == Adapter.RefMapSpec(Adapter.RefsOrEmpty(data))
    ensures selector == ResolveSelector(Adapter.RefMapSpec(Adapter.RefsOrEmpty(data)), Some(ref))
  {
    var reply, snapshot, args := PostSnapshot(registry, sessionId, now, Adapter.Completed(Adapter.CliResponse(true, None, Some(data))));
    var r := GetSessionAndSelector(registry, sessionId, Some(ref), now);
    match r {
      case Success(found) => selector := Success(found.1);
      case Failure(e) => selector := Failure(e);
    }
  }

  /**
    Two snapshots of one session: a ref of the first generation that the second does
    not produce is rejected afterwards, and a ref of the second resolves to its address.
  */
  method StaleRefScenario(t: int) returns (before: Result<string, string>, stale: Result<string, string>, current: Result<string, string>)
    ensures before == Success("@e1")
    ensures stale == Failure(RefNotFoundMessage("e1"))
    ensures current == Success("@e7")
  {
    var registry := new Sessions.SessionManager(2, 900, "/data");
    var created := registry.CreateSession("0123456789", t, Sessions.Launched(1, 1));
    var id := Sessions.SessionIdFrom("0123456789");
    assert id in registry.sessions;
    var info := Adapter.RefInfo(None, None, None);
    var refs1 := [("e1", info)];
    var refs7 := [("e7", info)];
    Adapter.RefMapOfOne(("e1", info));
    Adapter.RefMapOfOne(("e7", info));
    assert "@" + "e1" == "@e1" && "@" + "e7" == "@e7";
    var data1 := Adapter.CliData(None, None, None, Some(refs1));
    var data7 := Adapter.CliData(None, None, None, Some(refs7));
    assert Adapter.RefMapSpec(Adapter.RefsOrEmpty(data1)) == map["e1" := "@e1"];
    assert Adapter.RefMapSpec(Adapter.RefsOrEmpty(data7)) == map["e7" := "@e7"];

    before := SnapshotThenResolve(registry, id, data1, "e1", t + 1);
    stale := SnapshotThenResolve(registry, id, data7, "e1", t + 2);
    StaleRefRejected(map["e1" := "@e1"], map["e7" := "@e7"], "e1");
    var r := GetSessionAndSelector(registry, id, Some("e7"), t + 3);
    match r {
      case Success(found) => current := Success(found.1);
      case Failure(e) => current := Failure(e);
    }
  }
}
