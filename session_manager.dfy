/**
  The session registry: a map from session id to session record, with a capacity
  check before each create, a lookup that refreshes the idle timer, a close that
  always removes the entry, an idle-time reaper and a bulk close at shutdown.
*/
module Sessions {
  import opened Common

  /** The outcome of launching a persistent browser context for a profile directory. */
  datatype LaunchOutcome =
    | Launched(context: nat, page: nat)
    | LaunchFailed(message: string)

  /** One session record; `context` and `page` stand for the engine's opaque handles. */
  datatype Session = Session(
    id: string,
    context: nat,
    page: nat,
    refMap: map<string, string>,
    createdAt: int,
    lastActiveAt: int,
    profileDir: string)

  /** Why a create failed: the registry is full, or the engine could not be launched. */
  datatype CreateError =
    | CapacityExceeded(message: string)
    | LaunchError(message: string)
  {
    function Message(): string {
      match this
      case CapacityExceeded(m) => m
      case LaunchError(m) => m
    }
  }

  /** The keyword the protocol layer looks for to recognise a capacity rejection. */
  const CapacityKeyword: string := "限制"

  /** The capacity rejection message; it names the configured ceiling. */
  function CapacityMessage(maxSessions: nat): (m: string)
    ensures Contains(m, CapacityKeyword)
  {
    var m := "达到最大会话数限制 (" + NatToString(maxSessions) + ")，请稍后再试";
    assert m == "达到最大会话数" + CapacityKeyword + (" (" + NatToString(maxSessions) + ")，请稍后再试");
    ContainsInfix("达到最大会话数", CapacityKeyword, " (" + NatToString(maxSessions) + ")，请稍后再试");
    m
  }

  /** The short session id `s_` followed by the first eight characters of a fresh uuid. */
  function SessionIdFrom(uuid: string): (id: string)
    ensures |id| >= 2 && id[..2] == "s_" && id[2..] == Prefix(uuid, 8)
    ensures |uuid| >= 8 ==> |id| == 10
  {
    "s_" + Prefix(uuid, 8)
  }

  /** `path.join(dataDir, 'sessions', id, 'profile')`, without path normalisation. */
  function ProfileDir(dataDir: string, id: string): string {
    dataDir + "/sessions/" + id + "/profile"
  }

  /** Reading the session id back out of its profile directory. */
  lemma ProfileDirInjective(dataDir: string, id1: string, id2: string)
    requires ProfileDir(dataDir, id1) == ProfileDir(dataDir, id2)
    ensures id1 == id2
  {
    var p := ProfileDir(dataDir, id1);
    var lo := |dataDir + "/sessions/"|;
    assert |id1| == |id2|;
    assert id1 == p[lo..lo + |id1|];
    assert id2 == p[lo..lo + |id2|];
  }

  /** The idle rule of the reaper: idle for strictly longer than the TTL (given in seconds, compared in milliseconds). */
  predicate IsExpired(s: Session, now: int, ttlSec: nat) {
    now - s.lastActiveAt > ttlSec * 1000
  }

  /** The sessions that survive a reaper pass at time `now`. */
  function Survivors(m: map<string, Session>, now: int, ttlSec: nat): (r: map<string, Session>)
    ensures forall id :: id in r <==> id in m && !IsExpired(m[id], now, ttlSec)
    ensures forall id :: id in r ==> r[id] == m[id]
  {
    map id | id in m && !IsExpired(m[id], now, ttlSec) :: m[id]
  }

  /** A reaper pass removes only sessions: it never grows the registry. */
  lemma SurvivorsShrink(m: map<string, Session>, now: int, ttlSec: nat)
    ensures Survivors(m, now, ttlSec).Keys <= m.Keys
    ensures |Survivors(m, now, ttlSec)| <= |m|
  {
    var r := Survivors(m, now, ttlSec);
    assert r.Keys <= m.Keys;
    SubsetCard(r.Keys, m.Keys);
  }

  lemma {:induction false} SubsetCard<T>(a: set<T>, b: set<T>)
    requires a <= b
    ensures |a| <= |b|
    decreases |b|
  {
    if a != {} {
      var x :| x in a;
      SubsetCard(a - {x}, b - {x});
    }
  }

  /** A session looked up (and so refreshed) at time t survives every reaper pass within the TTL of t. */
  lemma RefreshedSessionSurvives(m: map<string, Session>, id: string, t: int, now: int, ttlSec: nat)
    requires id in m && now - t <= ttlSec * 1000
    ensures id in Survivors(m[id := m[id].(lastActiveAt := t)], now, ttlSec)
  {
  }

  /** Running the reaper twice at the same instant removes nothing more. */
  lemma SurvivorsIdempotent(m: map<string, Session>, now: int, ttlSec: nat)
    ensures Survivors(Survivors(m, now, ttlSec), now, ttlSec) == Survivors(m, now, ttlSec)
  {
  }

  class SessionManager {
    const maxSessions: nat
    const sessionTtlSec: nat
    const dataDir: string
    var sessions: map<string, Session>
    var reaperRunning: bool

    /** The registry invariant: never more than `maxSessions` entries, each under its own id and profile directory. */
    ghost predicate Valid()
      reads this
    {
      && |sessions| <= maxSessions
      && forall id :: id in sessions ==> sessions[id].id == id && sessions[id].profileDir == ProfileDir(dataDir, id)
    }

    /** A fresh, empty registry with its reaper scheduled. */
    constructor (maxSessions: nat, sessionTtlSec: nat, dataDir: string)
      ensures Valid()
      ensures this.maxSessions == maxSessions && this.sessionTtlSec == sessionTtlSec && this.dataDir == dataDir
      ensures sessions == map[] && reaperRunning
    {
      this.maxSessions := maxSessions;
      this.sessionTtlSec := sessionTtlSec;
      this.dataDir := dataDir;
      sessions := map[];
      reaperRunning := true;
    }

    /**
      Create a session from a fresh uuid at time `now`; `launch` is what the browser
      factory does for the derived profile directory.
    */
    method CreateSession(uuid: string, now: int, launch: LaunchOutcome) returns (r: Result<string, CreateError>)
      requires Valid()
      modifies this`sessions
      ensures Valid()
      ensures old(|sessions|) >= maxSessions ==>
        r == Failure(CapacityExceeded(CapacityMessage(maxSessions))) && sessions == old(sessions)
      ensures old(|sessions|) < maxSessions && launch.LaunchFailed? ==>
        r == Failure(LaunchError(launch.message)) && sessions == old(sessions)
      ensures old(|sessions|) < maxSessions && launch.Launched? ==>
        var id := SessionIdFrom(uuid);
        && r == Success(id)
        && sessions == old(sessions)[id := Session(id, launch.context, launch.page, map[], now, now, ProfileDir(dataDir, id))]
      ensures r.Success? && r.value !in old(sessions) ==> |sessions| == old(|sessions|) + 1
      ensures r.Failure? ==> sessions == old(sessions)
    {
      if |sessions| >= maxSessions {
        return Failure(CapacityExceeded(CapacityMessage(maxSessions)));
      }
      var sessionId := SessionIdFrom(uuid);
      var profileDir := ProfileDir(dataDir, sessionId);
      match launch {
        case LaunchFailed(message) =>
          return Failure(LaunchError(message));
        case Launched(context, page) =>
          var session := Session(sessionId, context, page, map[], now, now, profileDir);
          sessions := sessions[sessionId := session];
          return Success(sessionId);
      }
    }

    /** Look a session up; a hit refreshes its `lastActiveAt` to `now` and changes nothing else. */
    method GetSession(id: string, now: int) returns (s: Option<Session>)
      requires Valid()
      modifies this`sessions
      ensures Valid()
      ensures id in old(sessions) ==>
        s == Some(old(sessions)[id].(lastActiveAt := now)) && sessions == old(sessions)[id := s.value]
      ensures id !in old(sessions) ==> s == None && sessions == old(sessions)
      ensures sessions.Keys == old(sessions).Keys
    {
      if id in sessions {
        var session := sessions[id].(lastActiveAt := now);
        sessions := sessions[id := session];
        return Some(session);
      }
      return None;
    }

    /**
      Replace the ref map of a session record wholesale. An absent id changes nothing,
      as a write through a handle whose session was closed meanwhile reaches no entry.
    */
    method ReplaceRefMap(id: string, refMap: map<string, string>)
      requires Valid()
      modifies this`sessions
      ensures Valid()
      ensures id in old(sessions) ==> sessions == old(sessions)[id := old(sessions)[id].(refMap := refMap)]
      ensures id !in old(sessions) ==> sessions == old(sessions)
    {
      if id in sessions {
        sessions := sessions[id := sessions[id].(refMap := refMap)];
      }
    }

    /**
      Close a session. `contextClosed` says whether releasing the browser context
      succeeded; the entry is removed either way.
    */
    method CloseSession(id: string, contextClosed: bool) returns (found: bool)
      requires Valid()
      modifies this`sessions
      ensures Valid()
      ensures found == (id in old(sessions))
      ensures sessions == old(sessions) - {id}
    {
      if id !in sessions {
        return false;
      }
      // A failure to release the context is only logged.
      sessions := sessions - {id};
      return true;
    }

    /**
      The reaper pass: close, through CloseSession, exactly the sessions idle for longer
      than the TTL. `closeFailures` names the sessions whose context release fails.
    */
    method CleanupExpiredSessions(now: int, closeFailures: set<string>)
      requires Valid()
      modifies this`sessions
      ensures Valid()
      ensures sessions == Survivors(old(sessions), now, sessionTtlSec)
    {
      ghost var start := sessions;
      var pending := sessions.Keys;
      while pending != {}
        invariant Valid()
        invariant pending <= start.Keys
        invariant sessions.Keys == (set id | id in start && (id in pending || !IsExpired(start[id], now, sessionTtlSec)))
        invariant forall id :: id in sessions ==> sessions[id] == start[id]
        decreases pending
      {
        var id :| id in pending;
        pending := pending - {id};
        var session := sessions[id];
        if IsExpired(session, now, sessionTtlSec) {
          var _ := CloseSession(id, id !in closeFailures);
        }
      }
    }

    /** One tick of the periodic reaper timer: a pass while the timer runs, nothing once stopped. */
    method ReaperTick(now: int, closeFailures: set<string>)
      requires Valid()
      modifies this`sessions
      ensures Valid()
      ensures reaperRunning ==> sessions == Survivors(old(sessions), now, sessionTtlSec)
      ensures !reaperRunning ==> sessions == old(sessions)
    {
      if reaperRunning {
        CleanupExpiredSessions(now, closeFailures);
      }
    }

    /** Shutdown: stop the reaper, then close every remaining session. */
    method CloseAll(closeFailures: set<string>)
      requires Valid()
      modifies this
      ensures Valid()
      ensures sessions == map[] && !reaperRunning
    {
      reaperRunning := false;
      var pending := sessions.Keys;
      while pending != {}
        invariant Valid() && !reaperRunning
        invariant sessions.Keys == pending
        decreases pending
      {
        var id :| id in pending;
        pending := pending - {id};
        var _ := CloseSession(id, id !in closeFailures);
      }
    }
  }

  /**
    With one slot: a first create succeeds, a second is rejected for capacity, closing
    the first answers true and then false, and a create after that succeeds again.
  */
  method SingleSlotScenario(dataDir: string, t: int) returns (first: Result<string, CreateError>, second: Result<string, CreateError>, closedOnce: bool, closedTwice: bool, third: Result<string, CreateError>)
    ensures first == Success(SessionIdFrom("aaaaaaaa-1111"))
    ensures second.Failure? && second.error.CapacityExceeded?
    ensures closedOnce && !closedTwice
    ensures third == Success(SessionIdFrom("bbbbbbbb-2222"))
  {
    var registry := new SessionManager(1, 900, dataDir);
    var a := SessionIdFrom("aaaaaaaa-1111");
    first := registry.CreateSession("aaaaaaaa-1111", t, Launched(1, 1));
    assert registry.sessions.Keys == {a};
    second := registry.CreateSession("bbbbbbbb-2222", t + 1, Launched(2, 2));
    closedOnce := registry.CloseSession(a, false);
    assert registry.sessions == map[];
    closedTwice := registry.CloseSession(a, true);
    third := registry.CreateSession("bbbbbbbb-2222", t + 2, Launched(2, 2));
  }
}
