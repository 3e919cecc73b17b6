/** The session table with its turn locks and its eviction: agent/app/session_manager.py. */
module Sessions {
  import opened Seqs
  import opened Sorting

  // ------------------------------------------------------ which sessions stay

  function Access(access: map<string, int>, id: string): int { if id in access then access[id] else 0 }

  function OlderIn(access: map<string, int>): (string, string) -> bool {
    (a: string, b: string) => Access(access, a) < Access(access, b)
  }

  /** The sessions whose idle time is within the limit. */
  function Live(ids: seq<string>, access: map<string, int>, now: int, ttl: int): seq<string> {
    Filter(ids, (id: string) => now - Access(access, id) <= ttl)
  }

  /** The `n` least recently used sessions. */
  function Victims(ids: seq<string>, access: map<string, int>, n: nat): seq<string>
    requires n <= |ids|
  {
    Sorted(ids, OlderIn(access))[..n]
  }

  /** The sessions of `ids` that stay when at most `max` may. */
  function Trimmed(ids: seq<string>, access: map<string, int>, max: nat): seq<string> {
    if |ids| <= max then ids
    else
      var victims := Victims(ids, access, |ids| - max);
      Filter(ids, (id: string) => id !in victims)
  }

  function Evicted(ids: seq<string>, access: map<string, int>, now: int, ttl: int, max: nat): seq<string> {
    Trimmed(Live(ids, access, now, ttl), access, max)
  }

  // ---------------------------------------------------------------- eviction

  lemma SortedIds(ids: seq<string>, access: map<string, int>)
    ensures multiset(Sorted(ids, OlderIn(access))) == multiset(ids)
    ensures Ordered(Sorted(ids, OlderIn(access)), OlderIn(access))
    ensures forall id :: id in Sorted(ids, OlderIn(access)) <==> id in ids
  {
    var sorted := Sorted(ids, OlderIn(access));
    SortedPermutes(ids, OlderIn(access));
    SortedIsOrdered(ids, OlderIn(access));
    forall id ensures id in sorted <==> id in ids { assert id in sorted <==> id in multiset(sorted); }
  }

  /** Trimming keeps `max` sessions. */
  lemma TrimmedSize(ids: seq<string>, access: map<string, int>, max: nat)
    requires NoRepeat(ids)
    ensures |Trimmed(ids, access, max)| == if |ids| <= max then |ids| else max
  {
    if |ids| > max {
      var n := |ids| - max;
      var sorted := Sorted(ids, OlderIn(access));
      var victims := Victims(ids, access, n);
      var stays := (id: string) => id !in victims;
      SortedIds(ids, access);
      NoRepeatPermuted(ids, sorted);
      assert sorted == victims + sorted[n..];
      CountPermuted(ids, sorted, stays);
      CountAppend(victims, sorted[n..], stays);
      FilterNone(victims, stays);
      FilterAll(sorted[n..], stays);
    }
  }

  /** A victim was used no later than an id that is not a victim. */
  lemma VictimIsOlder(ids: seq<string>, access: map<string, int>, n: nat, gone: string, kept: string)
    requires n <= |ids| && gone in Victims(ids, access, n) && kept in ids && kept !in Victims(ids, access, n)
    ensures Access(access, gone) <= Access(access, kept)
  {
    var sorted := Sorted(ids, OlderIn(access));
    SortedIds(ids, access);
    var i :| 0 <= i < n && sorted[i] == gone;
    assert kept in sorted;
    var j :| 0 <= j < |sorted| && sorted[j] == kept;
    assert forall k :: 0 <= k < n ==> sorted[k] == Victims(ids, access, n)[k] && sorted[k] in Victims(ids, access, n);
    assert !OlderIn(access)(sorted[j], sorted[i]);
  }

  /** No session is trimmed that was used later than one that stays. */
  lemma TrimmedAreOlder(ids: seq<string>, access: map<string, int>, max: nat, gone: string, kept: string)
    requires gone in ids && gone !in Trimmed(ids, access, max) && kept in Trimmed(ids, access, max)
    ensures Access(access, gone) <= Access(access, kept)
  {
    var n := |ids| - max;
    var victims := Victims(ids, access, n);
    FilterMember(ids, (id: string) => id !in victims, gone);
    FilterMember(ids, (id: string) => id !in victims, kept);
    VictimIsOlder(ids, access, n, gone, kept);
  }

  /** What an eviction leaves: only sessions that have not expired, all of them while the table has room, and
      otherwise exactly as many as it has room for, none used earlier than an unexpired one that went. */
  lemma EvictionIsExact(ids: seq<string>, access: map<string, int>, now: int, ttl: int, max: nat)
    requires NoRepeat(ids)
    ensures var live, kept := Live(ids, access, now, ttl), Evicted(ids, access, now, ttl, max);
      && NoRepeat(kept)
      && |kept| == (if |live| <= max then |live| else max)
      && (forall id :: id in kept ==> id in ids && now - Access(access, id) <= ttl)
      && (forall id :: id in ids && now - Access(access, id) <= ttl && |live| <= max ==> id in kept)
      && (forall gone, stays :: gone in ids && now - Access(access, gone) <= ttl && gone !in kept && stays in kept ==>
            Access(access, gone) <= Access(access, stays))
  {
    var unexpired := (id: string) => now - Access(access, id) <= ttl;
    var live, kept := Live(ids, access, now, ttl), Evicted(ids, access, now, ttl, max);
    forall id ensures id in live <==> id in ids && now - Access(access, id) <= ttl { FilterMember(ids, unexpired, id); }
    FilterNoRepeat(ids, unexpired);
    TrimmedSize(live, access, max);
    TrimmedAreThere(live, access, max);
    forall gone, stays | gone in live && gone !in kept && stays in kept
      ensures Access(access, gone) <= Access(access, stays) {
      TrimmedAreOlder(live, access, max, gone, stays);
    }
  }

  /** The same with the recorded times themselves, a session without one counting as used at time 0: what stays has
      not been idle too long, nothing unexpired goes while there is room, and nothing goes that was used later than
      something that stays. */
  lemma EvictionByTimes(ids: seq<string>, access: map<string, int>, now: int, ttl: int, max: nat)
    requires NoRepeat(ids)
    ensures var kept := Evicted(ids, access, now, ttl, max);
      && |kept| <= max
      && (forall id :: id in kept ==> id in ids)
      && (forall id :: id in kept && id in access ==> now - access[id] <= ttl)
      && (forall id :: id in kept && id !in access ==> now <= ttl)
      && (forall id :: id in ids && id in access && now - access[id] <= ttl && |kept| < max ==> id in kept)
      && (forall id :: id in ids && id !in access && now <= ttl && |kept| < max ==> id in kept)
      && (forall gone, stays | gone in ids && gone in access && now - access[gone] <= ttl && gone !in kept
                               && stays in kept && stays in access :: access[gone] <= access[stays])
  {
    EvictionIsExact(ids, access, now, ttl, max);
  }

  lemma TrimmedAreThere(ids: seq<string>, access: map<string, int>, max: nat)
    requires NoRepeat(ids)
    ensures NoRepeat(Trimmed(ids, access, max))
    ensures forall id :: id in Trimmed(ids, access, max) ==> id in ids
  {
    if |ids| > max {
      var victims := Victims(ids, access, |ids| - max);
      var stays := (id: string) => id !in victims;
      FilterNoRepeat(ids, stays);
      forall id | id in Filter(ids, stays) ensures id in ids { FilterMember(ids, stays, id); }
    }
  }

  // --------------------------------------------------------------- the table

  class AgentSession {
    const id: string
    const workspaceId: string

    constructor (id: string, workspaceId: string)
      ensures this.id == id && this.workspaceId == workspaceId
    {
      this.id, this.workspaceId := id, workspaceId;
    }
  }

  class TurnLock {
    constructor () { }
  }

  /** The session table and the lock table; `ids` is their key order. */
  datatype Tables = Tables(ids: seq<string>, sessions: map<string, AgentSession>, locks: map<string, TurnLock>)

  /** The tables have the same keys, and no two sessions, of all ever handed out, share a lock. */
  ghost predicate TablesOk(t: Tables, handed: map<AgentSession, TurnLock>) {
    && NoRepeat(t.ids)
    && (forall id :: id in t.ids <==> id in t.sessions)
    && (forall id :: id in t.ids <==> id in t.locks)
    && (forall id :: id in t.sessions ==>
          t.sessions[id].id == id && t.sessions[id] in handed && handed[t.sessions[id]] == t.locks[id])
    && (forall s, u :: s in handed && u in handed && handed[s] == handed[u] ==> s == u)
  }

  function Members(ids: seq<string>): set<string> { set id | id in ids }

  function Popped(t: Tables, victims: seq<string>): Tables {
    Tables(Filter(t.ids, (id: string) => id !in victims), t.sessions - Members(victims), t.locks - Members(victims))
  }

  lemma PoppedOk(t: Tables, victims: seq<string>, handed: map<AgentSession, TurnLock>)
    requires TablesOk(t, handed)
    ensures TablesOk(Popped(t, victims), handed)
    ensures forall id :: id in Popped(t, victims).ids <==> id in t.ids && id !in victims
  {
    var stays := (id: string) => id !in victims;
    FilterNoRepeat(t.ids, stays);
    forall id ensures id in Filter(t.ids, stays) <==> id in t.ids && id !in victims { FilterMember(t.ids, stays, id); }
  }

  lemma PoppedNone(t: Tables, victims: seq<string>)
    requires victims == []
    ensures Popped(t, victims) == t
  {
    FilterAll(t.ids, (id: string) => id !in victims);
    assert Members(victims) == {};
  }

  lemma PoppedMore(t: Tables, victims: seq<string>, k: nat)
    requires k < |victims|
    ensures Popped(Popped(t, victims[..k]), [victims[k]]) == Popped(t, victims[..k + 1])
  {
    assert victims[..k + 1] == victims[..k] + [victims[k]];
    FilterFilter(t.ids, (id: string) => id !in victims[..k], (id: string) => id !in [victims[k]],
                 (id: string) => id !in victims[..k + 1]);
    assert Members(victims[..k + 1]) == Members(victims[..k]) + Members([victims[k]]);
  }

  class SessionManager {
    const ttl: int
    const maxSessions: nat
    var ids: seq<string>
    var sessions: map<string, AgentSession>
    var locks: map<string, TurnLock>
    /** The `_last_access` that the manager leaves on its sessions. */
    var lastAccess: map<string, int>
    /** Every session ever handed out, with the lock it came with. */
    ghost var handed: map<AgentSession, TurnLock>
    /** Every workspace a session was ever asked for. */
    ghost var asked: set<string>

    constructor (ttl: int, maxSessions: nat)
      ensures Valid() && State() == Tables([], map[], map[]) && handed == map[] && asked == {}
      ensures this.ttl == ttl && this.maxSessions == maxSessions && lastAccess == map[]
    {
      this.ttl, this.maxSessions := ttl, maxSessions;
      ids, sessions, locks, lastAccess, handed, asked := [], map[], map[], map[], map[], {};
    }

    ghost predicate Valid()
      reads this`ids, this`sessions, this`locks, this`handed, this`asked
    {
      TablesOk(State(), handed) && forall s | s in handed :: s.workspaceId in asked
    }

    function State(): Tables
      reads this`ids, this`sessions, this`locks
    {
      Tables(ids, sessions, locks)
    }

    method Pop(sid: string)
      modifies this`ids, this`sessions, this`locks
      ensures State() == Popped(old(State()), [sid])
    {
      ids := Filter(ids, (id: string) => id !in [sid]);
      sessions := sessions - {sid};
      locks := locks - {sid};
      assert Members([sid]) == {sid};
    }

    /** Takes the victims out of both tables. */
    method PopAll(victims: seq<string>)
      modifies this`ids, this`sessions, this`locks
      ensures State() == Popped(old(State()), victims)
    {
      PoppedNone(State(), victims[..0]);
      for k := 0 to |victims|
        invariant State() == Popped(old(State()), victims[..k])
      {
        PoppedMore(old(State()), victims, k);
        Pop(victims[k]);
      }
      assert victims[..|victims|] == victims;
    }

    /** First what has expired goes, then the least recently used of what is too much. */
    method EvictExpired(now: int)
      modifies this`ids, this`sessions, this`locks
      ensures State() == Kept(old(State()), old(lastAccess), now, ttl, maxSessions)
    {
      PopAll(Expired(ids, lastAccess, now, ttl));
      if |ids| <= maxSessions { return; }
      PopAll(Victims(ids, lastAccess, |ids| - maxSessions));
    }

    /** The eviction, and what it keeps. */
    method Clear(now: int)
      requires Valid()
      modifies this`ids, this`sessions, this`locks
      ensures Valid() && State() == Kept(old(State()), lastAccess, now, ttl, maxSessions)
      ensures |ids| <= maxSessions && forall id :: id in ids ==> id in old(ids)
    {
      KeptOk(State(), handed, lastAccess, now, ttl, maxSessions);
      KeptIds(State(), lastAccess, now, ttl, maxSessions);
      EvictExpired(now);
    }

    method Add(sid: string, workspaceId: string) returns (session: AgentSession, lock: TurnLock)
      requires Valid() && sid !in ids && workspaceId in asked
      modifies this`ids, this`sessions, this`locks, this`handed
      ensures fresh(session) && fresh(lock) && session.id == sid && session.workspaceId == workspaceId
      ensures Valid() && State() == Added(old(State()), session, lock) && handed == old(handed)[session := lock]
    {
      session := new AgentSession(sid, workspaceId);
      lock := new TurnLock();
      AddedOk(State(), handed, session, lock);
      ids := ids + [sid];
      sessions := sessions[sid := session];
      locks := locks[sid := lock];
      handed := handed[session := lock];
    }

    /** The session for a request, and its turn lock, once the table has been cleared. */
    method Serve(sessionId: string, workspaceId: string, newId: string)
      returns (sid: string, session: AgentSession, lock: TurnLock)
      requires Valid() && newId !in ids && newId != sessionId && workspaceId in asked
      modifies this`ids, this`sessions, this`locks, this`handed
      ensures Valid() && sid == SidFor(old(State()), sessionId, workspaceId, newId)
      ensures Served(old(State()), State(), sid, session, lock, workspaceId)
      ensures "" !in asked ==> session.workspaceId == workspaceId
      ensures sid !in old(ids) ==> fresh(session) && fresh(lock)
      ensures |ids| <= |old(ids)| + 1
      ensures handed == old(handed)[session := lock] && (session in old(handed) ==> old(handed)[session] == lock)
    {
      sid := if sessionId != "" then sessionId else newId;
      if sid in ids && sessions[sid].workspaceId != "" && sessions[sid].workspaceId != workspaceId { sid := newId; }
      if sid in ids {
        handed := handed[sessions[sid] := locks[sid]];
        return sid, sessions[sid], locks[sid];
      }
      session, lock := Add(sid, workspaceId);
    }

    /** Everything but the time stamp. */
    method ClearAndServe(sessionId: string, workspaceId: string, newId: string, now: int)
      returns (sid: string, session: AgentSession, lock: TurnLock)
      requires Valid() && newId !in ids && newId != sessionId
      modifies this`ids, this`sessions, this`locks, this`handed, this`asked
      ensures Valid() && |ids| <= maxSessions + 1 && asked == old(asked) + {workspaceId}
      ensures sid == SidFor(Kept(old(State()), lastAccess, now, ttl, maxSessions), sessionId, workspaceId, newId)
      ensures Served(Kept(old(State()), lastAccess, now, ttl, maxSessions), State(), sid, session, lock, workspaceId)
      ensures "" !in asked ==> session.workspaceId == workspaceId
      ensures handed == old(handed)[session := lock] && (session in old(handed) ==> old(handed)[session] == lock)
    {
      asked := asked + {workspaceId};
      Clear(now);
      sid, session, lock := Serve(sessionId, workspaceId, newId);
    }

    /** A session for the workspace: the named one unless it belongs to another workspace, else a new one. As
        long as every call has named a workspace it is the workspace's own; a session made for no workspace goes
        to whoever asks for it.
        `newId` is the id generated if one is needed; `now` and `later` are the readings of the clock.
        Whatever has been handed out before keeps its lock. */
    method GetOrCreate(sessionId: string, workspaceId: string, newId: string, now: int, later: int)
      returns (sid: string, session: AgentSession, lock: TurnLock)
      requires Valid() && newId !in ids && newId != sessionId
      modifies this
      ensures Valid() && |ids| <= maxSessions + 1
      ensures var kept := Kept(old(State()), old(lastAccess), now, ttl, maxSessions);
        && sid == SidFor(kept, sessionId, workspaceId, newId)
        && Served(kept, State(), sid, session, lock, workspaceId)
      ensures asked == old(asked) + {workspaceId} && ("" !in asked ==> session.workspaceId == workspaceId)
      ensures lastAccess == old(lastAccess)[sid := later]
      ensures handed == old(handed)[session := lock] && (session in old(handed) ==> old(handed)[session] == lock)
    {
      sid, session, lock := ClearAndServe(sessionId, workspaceId, newId, now);
      lastAccess := lastAccess[sid := later];
    }
  }

  function Expired(ids: seq<string>, access: map<string, int>, now: int, ttl: int): seq<string> {
    Filter(ids, (id: string) => now - Access(access, id) > ttl)
  }

  /** The least recently used sessions go until there is room. */
  function Thinned(t: Tables, access: map<string, int>, max: nat): Tables {
    if |t.ids| <= max then t else Popped(t, Victims(t.ids, access, |t.ids| - max))
  }

  /** The tables after an eviction. */
  function Kept(t: Tables, access: map<string, int>, now: int, ttl: int, max: nat): Tables {
    Thinned(Popped(t, Expired(t.ids, access, now, ttl)), access, max)
  }

  function Added(t: Tables, session: AgentSession, lock: TurnLock): Tables {
    Tables(t.ids + [session.id], t.sessions[session.id := session], t.locks[session.id := lock])
  }

  /** The id to serve: a new one when none was asked for, or when the session asked for is of another workspace. */
  function SidFor(t: Tables, asked: string, workspaceId: string, newId: string): string {
    if asked == "" then newId
    else if asked in t.sessions && t.sessions[asked].workspaceId !in ["", workspaceId] then newId
    else asked
  }

  /** The session and its lock are the table's own under `sid`, which is there already or has been added. */
  predicate Served(kept: Tables, t: Tables, sid: string, session: AgentSession, lock: TurnLock, workspaceId: string) {
    && sid in t.ids && sid in t.sessions && t.sessions[sid] == session && sid in t.locks && t.locks[sid] == lock
    && t == (if sid in kept.ids then kept else Added(kept, session, lock))
    && session.workspaceId == WorkspaceOf(kept, sid, workspaceId)
  }

  /** The workspace of the session that is served: an existing one that belongs to no workspace is served to all. */
  function WorkspaceOf(t: Tables, sid: string, workspaceId: string): string {
    if sid in t.sessions && t.sessions[sid].workspaceId == "" then "" else workspaceId
  }

  /** An eviction keeps the tables in step ... */
  lemma KeptOk(t: Tables, handed: map<AgentSession, TurnLock>, access: map<string, int>, now: int, ttl: int, max: nat)
    requires TablesOk(t, handed)
    ensures TablesOk(Kept(t, access, now, ttl, max), handed)
    ensures forall id :: id in Kept(t, access, now, ttl, max).ids ==> id in t.ids
  {
    var expired := Expired(t.ids, access, now, ttl);
    PoppedOk(t, expired, handed);
    ThinnedOk(Popped(t, expired), handed, access, max);
  }

  lemma ThinnedOk(t: Tables, handed: map<AgentSession, TurnLock>, access: map<string, int>, max: nat)
    requires TablesOk(t, handed)
    ensures TablesOk(Thinned(t, access, max), handed)
    ensures forall id :: id in Thinned(t, access, max).ids ==> id in t.ids
  {
    if |t.ids| > max { PoppedOk(t, Victims(t.ids, access, |t.ids| - max), handed); }
  }

  /** ... and keeps the sessions that EvictionIsExact describes. */
  lemma KeptIds(t: Tables, access: map<string, int>, now: int, ttl: int, max: nat)
    requires NoRepeat(t.ids)
    ensures Kept(t, access, now, ttl, max).ids == Evicted(t.ids, access, now, ttl, max)
    ensures |Kept(t, access, now, ttl, max).ids| <= max
  {
    UnexpiredStay(t.ids, access, now, ttl);
    FilterNoRepeat(t.ids, (id: string) => now - Access(access, id) <= ttl);
    TrimmedSize(Live(t.ids, access, now, ttl), access, max);
  }

  lemma UnexpiredStay(ids: seq<string>, access: map<string, int>, now: int, ttl: int)
    ensures Filter(ids, (id: string) => id !in Expired(ids, access, now, ttl)) == Live(ids, access, now, ttl)
  {
    var late := (id: string) => now - Access(access, id) > ttl;
    var expired := Expired(ids, access, now, ttl);
    forall id ensures id in expired <==> id in ids && late(id) { FilterMember(ids, late, id); }
    FilterSame(ids, (id: string) => id !in expired, (id: string) => now - Access(access, id) <= ttl);
  }

  lemma AddedOk(t: Tables, handed: map<AgentSession, TurnLock>, session: AgentSession, lock: TurnLock)
    requires TablesOk(t, handed) && session.id !in t.ids && session !in handed && lock !in handed.Values
    ensures TablesOk(Added(t, session, lock), handed[session := lock])
  {
    NoRepeatSnoc(t.ids, session.id);
    forall s | s in handed ensures handed[s] != lock { assert handed[s] in handed.Values; }
  }

  lemma NothingExpired(t: Tables, access: map<string, int>, now: int, ttl: int, max: nat)
    requires |t.ids| <= max && forall id :: id in t.ids ==> now - Access(access, id) <= ttl
    ensures Kept(t, access, now, ttl, max) == t
  {
    FilterNone(t.ids, (id: string) => now - Access(access, id) > ttl);
    PoppedNone(t, Expired(t.ids, access, now, ttl));
  }

  /** Nothing has expired and nothing is too much. */
  predicate Settled(manager: SessionManager, now: int)
    reads manager
  {
    |manager.ids| <= manager.maxSessions
    && forall x :: x in manager.ids ==> now - Access(manager.lastAccess, x) <= manager.ttl
  }

  /** Whoever asks for a session of its own workspace, or of none, gets that session with its lock, while it stays. */
  method AskForOwn(manager: SessionManager, id: string, workspaceId: string, newId: string, now: int)
    returns (session: AgentSession, lock: TurnLock)
    requires manager.Valid() && id != "" && id in manager.ids && newId !in manager.ids && newId != id
    requires manager.sessions[id].workspaceId in ["", workspaceId] && Settled(manager, now)
    modifies manager
    ensures session == old(manager.sessions[id]) && lock == old(manager.locks[id])
    ensures manager.ids == old(manager.ids)
  {
    NothingExpired(manager.State(), manager.lastAccess, now, manager.ttl, manager.maxSessions);
    var sid;
    sid, session, lock := manager.GetOrCreate(id, workspaceId, newId, now, now);
  }

  /** Whoever asks for a session of another workspace gets a new one, and the other stays. */
  method AskForForeign(manager: SessionManager, id: string, workspaceId: string, newId: string, now: int)
    returns (session: AgentSession)
    requires manager.Valid() && id != "" && id in manager.ids && newId !in manager.ids && newId != id
    requires manager.sessions[id].workspaceId !in ["", workspaceId] && Settled(manager, now)
    modifies manager
    ensures session.id == newId && session.workspaceId == workspaceId
    ensures manager.sessions == old(manager.sessions)[newId := session]
  {
    NothingExpired(manager.State(), manager.lastAccess, now, manager.ttl, manager.maxSessions);
    var sid, lock;
    sid, session, lock := manager.GetOrCreate(id, workspaceId, newId, now, now);
  }

  /** Whoever asks for a session that is not there, or names none, gets a new one under that id or a new id. */
  method AskForNew(manager: SessionManager, id: string, workspaceId: string, newId: string, now: int)
    returns (session: AgentSession)
    requires manager.Valid() && id !in manager.ids && newId !in manager.ids && newId != id && Settled(manager, now)
    modifies manager
    ensures session.id == (if id != "" then id else newId) && session.workspaceId == workspaceId
    ensures manager.sessions == old(manager.sessions)[session.id := session]
  {
    NothingExpired(manager.State(), manager.lastAccess, now, manager.ttl, manager.maxSessions);
    var sid, lock;
    sid, session, lock := manager.GetOrCreate(id, workspaceId, newId, now, now);
  }

  method MakeUnbound(id: string) returns (manager: SessionManager, session: AgentSession)
    requires id != ""
    ensures fresh(manager) && manager.Valid() && manager.ids == [id] && manager.sessions[id] == session
    ensures session.workspaceId == "" && manager.ttl == manager.maxSessions == 10 && Access(manager.lastAccess, id) == 0
  {
    manager := new SessionManager(10, 10);
    NothingExpired(manager.State(), manager.lastAccess, 0, 10, 10);
    var sid, lock;
    sid, session, lock := manager.GetOrCreate(id, "", id + "'", 0, 0);
  }

  /** A run: a session is asked for without a workspace, and then by some workspace. */
  method AskTwice(id: string, workspaceId: string) returns (first: AgentSession, second: AgentSession)
    requires id != ""
    ensures first == second && second.workspaceId == ""
  {
    var manager;
    manager, first := MakeUnbound(id);
    var lock;
    second, lock := AskForOwn(manager, id, workspaceId, id + "'", 1);
  }
}
