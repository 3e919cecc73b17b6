/** The locked blocks of ApprovalStore on request objects. Each is taken as steps of module Approval: what the
    store has done is a run of the step system, and its objects are the state the run has led to. */
module ApprovalStores {
  import opened Approval
  import opened Wrappers

  function Swept(r: Request, now: int): Request {
    if !r.resolved && Stale(r, now) then Denied(r) else r
  }

  function SweptAll(requests: map<Id, Request>, ids: set<Id>, now: int): map<Id, Request> {
    map id | id in requests :: if id in ids then Swept(requests[id], now) else requests[id]
  }

  lemma SweptMore(requests: map<Id, Request>, done: set<Id>, id: Id, now: int)
    requires id in requests && id !in done
    ensures SweptAll(requests, done + {id}, now) ==
            SweptAll(requests, done, now)[id := Swept(SweptAll(requests, done, now)[id], now)]
  {
  }

  predicate Drops(r: Request, now: int) { r.resolved || Stale(r, now) }

  function Dropped(requests: map<Id, Request>, ids: set<Id>, now: int): set<Id> {
    set id | id in ids && id in requests && Drops(requests[id], now)
  }

  lemma DroppedMore(requests: map<Id, Request>, done: set<Id>, id: Id, now: int)
    requires id in requests && id !in done
    ensures Dropped(requests, done + {id}, now) ==
            Dropped(requests, done, now) + if Drops(requests[id], now) then {id} else {}
    ensures SweptAll(requests, done, now)[id] == requests[id] && id !in Dropped(requests, done, now)
  {
  }

  // ------------------------------------------------------- blocks as steps

  ghost predicate Reached(run: seq<Step>, s: State) {
    forall s0 | Init(s0) :: Runs(s0, run, s)
  }

  /** The run ends, outside every locked block, with these requests and these pending ids. */
  ghost predicate Tracks(run: seq<Step>, s: State, requests: map<Id, Request>, pending: set<Id>) {
    Reached(run, s) && s.lock.None? && s.requests == requests && s.pending == pending
  }

  lemma StepIsReached(run: seq<Step>, s: State, step: Step)
    requires Reached(run, s) && Enabled(s, step)
    ensures Reached(run + [step], Next(s, step))
  {
    forall s0 | Init(s0) ensures Runs(s0, run + [step], Next(s, step)) { RunThen(s0, run, s, step); }
  }

  lemma CreateTracks(run: seq<Step>, s: State, step: Step)
    returns (s': State)
    requires step.Create? && step.workspace != "" && Tracks(run, s, s.requests, s.pending) && step.id !in s.requests
    ensures Tracks(run + [step], s',
                   s.requests[step.id := Request(step.workspace, step.session, step.created, false, false, false)],
                   s.pending + {step.id})
  {
    StepIsReached(run, s, step);
    s' := Next(s, step);
  }

  /** The steps of the first locked block of `resolve`. */
  function ResolveBlockSteps(effective: bool, call: nat, id: Id, allowed: bool, workspace: string): seq<Step> {
    if effective then DecideSteps(call, id, allowed, workspace) else [BeginResolve(call, id, allowed, workspace)]
  }

  predicate Decides(requests: map<Id, Request>, pending: set<Id>, id: Id, workspace: string) {
    id in pending && id in requests && requests[id].workspace == workspace && !requests[id].resolved
  }

  function Decide(r: Request, allowed: bool): Request {
    r.(resolved := true, allowed := allowed, event := true)
  }

  lemma ResolveTracks(run: seq<Step>, s: State, call: nat, id: Id, allowed: bool, workspace: string)
    returns (s': State)
    requires Tracks(run, s, s.requests, s.pending) && call !in s.calls
    ensures var effective := Decides(s.requests, s.pending, id, workspace);
      Tracks(run + ResolveBlockSteps(effective, call, id, allowed, workspace), s',
             if effective then s.requests[id := Decide(s.requests[id], allowed)] else s.requests, s.pending)
  {
    var begin := BeginResolve(call, id, allowed, workspace);
    if Decides(s.requests, s.pending, id, workspace) {
      s' := DecideRuns(s, call, id, allowed, workspace);
      forall s0 | Init(s0) ensures Runs(s0, run + DecideSteps(call, id, allowed, workspace), s') {
        RunsAppend(s0, run, s, DecideSteps(call, id, allowed, workspace), s');
      }
    } else {
      StepIsReached(run, s, begin);
      s' := Next(s, begin);
    }
  }

  lemma ForgetTracks(run: seq<Step>, s: State, id: Id)
    returns (s': State)
    requires Tracks(run, s, s.requests, s.pending)
    ensures Tracks(run + [Cleanup(id)], s', s.requests, s.pending - {id})
  {
    StepIsReached(run, s, Cleanup(id));
    s' := Next(s, Cleanup(id));
  }

  lemma FindTracks(run: seq<Step>, s: State, wait: nat, id: Id, blocking: bool)
    returns (s': State)
    requires Tracks(run, s, s.requests, s.pending) && wait !in s.waits
    ensures Tracks(run + [BeginWait(wait, id, blocking)], s', s.requests, s.pending)
    ensures id in s.pending ==> wait in s'.waits && s'.waits[wait] == Wait(id, Holding(blocking))
  {
    StepIsReached(run, s, BeginWait(wait, id, blocking));
    s' := Next(s, BeginWait(wait, id, blocking));
  }

  lemma TimeOutTracks(run: seq<Step>, s: State, wait: nat, id: Id)
    returns (s': State)
    requires Tracks(run, s, s.requests, s.pending) && id in s.requests
    requires wait in s.waits && s.waits[wait] == Wait(id, Holding(true))
    ensures if s.requests[id].resolved then Tracks(run + [TimeOut(wait)], s', s.requests, s.pending)
            else Tracks(run + [TimeOut(wait)], s', s.requests[id := Denied(s.requests[id])], s.pending - {id})
  {
    StepIsReached(run, s, TimeOut(wait));
    s' := Next(s, TimeOut(wait));
  }

  /** One turn of the sweep: a resolved request is dropped, a stale one denied and dropped. */
  lemma SweepTracks(run: seq<Step>, s: State, id: Id, now: int)
    returns (run': seq<Step>, s': State)
    requires Tracks(run, s, s.requests, s.pending) && id in s.pending && id in s.requests
    ensures run <= run' && s.effects <= s'.effects
    ensures Tracks(run', s', s.requests[id := Swept(s.requests[id], now)],
                   if Drops(s.requests[id], now) then s.pending - {id} else s.pending)
    ensures !s.requests[id].resolved && s.requests[id].created.Some? && now - s.requests[id].created.value > 120 ==>
      s'.effects == s.effects + [Effect(id, false, SystemExpired)]
  {
    var r := s.requests[id];
    if r.resolved {
      StepIsReached(run, s, DropResolved(id));
      run', s' := run + [DropResolved(id)], Next(s, DropResolved(id));
    } else if Stale(r, now) {
      StepIsReached(run, s, Expire(id, now));
      run', s' := run + [Expire(id, now)], Next(s, Expire(id, now));
    } else {
      run', s' := run, s;
    }
  }

  /** The undecided requests that have waited for more than 120 seconds. */
  function Expired(requests: map<Id, Request>, ids: set<Id>, now: int): set<Id> {
    set id | id in ids && id in requests && !requests[id].resolved
             && requests[id].created.Some? && now - requests[id].created.value > 120
  }

  /** The whole sweep, in any order. */
  lemma {:induction false} SweepAllTracks(run: seq<Step>, s: State, ids: set<Id>, now: int)
    returns (run': seq<Step>, s': State)
    requires Tracks(run, s, s.requests, s.pending) && ids <= s.pending && ids <= s.requests.Keys
    ensures run <= run' && s.effects <= s'.effects
    ensures Tracks(run', s', SweptAll(s.requests, ids, now), s.pending - Dropped(s.requests, ids, now))
    ensures forall id | id in Expired(s.requests, ids, now) :: Effect(id, false, SystemExpired) in s'.effects
    decreases ids
  {
    if ids == {} {
      run', s' := run, s;
    } else {
      var id :| id in ids;
      var done := ids - {id};
      var run1, s1 := SweepAllTracks(run, s, done, now);
      SweptMore(s.requests, done, id, now);
      DroppedMore(s.requests, done, id, now);
      assert ids == done + {id};
      run', s' := SweepTracks(run1, s1, id, now);
    }
  }

  /** What a sweep does, in numbers: it leaves an undecided request whose time does not parse or is at most 120
      seconds ago, and denies and drops one that is older. */
  lemma SweptInNumbers(requests: map<Id, Request>, pending: set<Id>, now: int, id: Id)
    requires id in pending && id in requests
    ensures var r := requests[id];
      var r', kept := SweptAll(requests, pending, now)[id], id in pending - Dropped(requests, pending, now);
      if r.resolved then r' == r && !kept
      else if r.created.None? || now - r.created.value <= 120 then r' == r && kept
      else r' == r.(resolved := true, allowed := false, event := true) && !kept
  {
  }

  // --------------------------------------------------------------- objects

  class ApprovalRequest {
    const id: Id
    const workspace: string
    const session: string
    const created: Option<int>
    var resolved: bool
    var allowed: bool
    var event: bool
    var resolver: string

    constructor (id: Id, workspace: string, session: string, created: Option<int>)
      ensures this.id == id && Value() == Request(workspace, session, created, false, false, false)
    {
      this.id, this.workspace, this.session, this.created := id, workspace, session, created;
      resolved, allowed, event, resolver := false, false, false, "";
    }

    function Value(): Request
      reads this
    {
      Request(workspace, session, created, resolved, allowed, event)
    }

    /** A denial by the system. */
    method Deny(who: string)
      modifies this
      ensures Value() == Denied(old(Value())) && resolver == who
    {
      resolved, allowed, resolver, event := true, false, who, true;
    }

    /** Deny a request that has waited too long; `drop` says whether the sweep forgets it. */
    method Sweep(now: int) returns (drop: bool)
      modifies this
      ensures Value() == Swept(old(Value()), now)
      ensures drop <==> Drops(old(Value()), now)
    {
      if resolved { return true; }
      if created.Some? && now - created.value > MAX_AGE {
        Deny("system_expired");
        return true;
      }
      return false;
    }
  }

  class ApprovalStore {
    var pending: map<Id, ApprovalRequest>
    ghost var all: map<Id, ApprovalRequest>   // every request object the store has handed out
    ghost var run: seq<Step>                  // the steps taken so far
    ghost var model: State                    // the state they have led to

    ghost function Objects(): set<object>
      reads this`all
    {
      set id | id in all :: all[id]
    }

    ghost predicate Consistent()
      reads this`all, this`pending
    {
      && (forall id | id in pending :: id in all && pending[id] == all[id])
      && (forall id | id in all :: all[id].id == id)
    }

    /** The request table of the step system. */
    ghost function Requests(): map<Id, Request>
      reads this`all, Objects()
    {
      map id | id in all :: all[id].Value()
    }

    ghost predicate Valid()
      reads this, Objects()
    {
      Consistent() && Tracks(run, model, Requests(), pending.Keys)
    }

    constructor ()
      ensures Valid() && Requests() == map[] && pending == map[] && run == []
    {
      pending, all, run, model := map[], map[], [], State(map[], {}, None, map[], map[], [], [], []);
    }

    /** None is the ValueError for a missing workspace. */
    method Create(id: Id, workspace: string, session: string, created: Option<int>)
      returns (req: Option<ApprovalRequest>)
      requires Valid() && id !in all
      modifies this
      ensures Valid()
      ensures workspace == "" ==>
        req.None? && Requests() == old(Requests()) && pending == old(pending) && run == old(run)
      ensures workspace != "" ==>
        && req.Some? && fresh(req.value) && pending == old(pending)[id := req.value]
        && Requests() == old(Requests())[id := Request(workspace, session, created, false, false, false)]
        && run == old(run) + [Step.Create(id, workspace, session, created)]
    {
      if workspace == "" { return None; }
      ghost var step := Step.Create(id, workspace, session, created);
      ghost var next := CreateTracks(run, model, step);
      var r := Add(id, workspace, session, created);
      run, model := run + [step], next;
      return Some(r);
    }

    /** A new request object enters the table. */
    method Add(id: Id, workspace: string, session: string, created: Option<int>) returns (r: ApprovalRequest)
      requires Consistent() && id !in all
      modifies this`pending, this`all
      ensures Consistent() && fresh(r) && pending == old(pending)[id := r] && pending.Keys == old(pending.Keys) + {id}
      ensures Requests() == old(Requests())[id := Request(workspace, session, created, false, false, false)]
    {
      r := new ApprovalRequest(id, workspace, session, created);
      pending := pending[id := r];
      all := all[id := r];
    }

    /** The first locked block of `resolve`; `found` is null where the method returns None. */
    method ResolveBlock(id: Id, allowed: bool, workspace: string, resolver: string, ghost call: nat)
      returns (found: ApprovalRequest?, effective: bool)
      requires Valid() && call !in model.calls
      modifies this`run, this`model, Objects()
      ensures Valid()
      ensures run == old(run) + ResolveBlockSteps(effective, call, id, allowed, workspace)
      ensures var accepts := id in pending && old(Requests())[id].workspace == workspace;
        && (found != null <==> accepts)
        && (effective <==> accepts && !old(Requests())[id].resolved)
        && (found != null ==> found == pending[id])
        && Requests() == if effective then old(Requests())[id := Decide(old(Requests())[id], allowed)]
                         else old(Requests())
    {
      ghost var next := ResolveTracks(run, model, call, id, allowed, workspace);
      found, effective := MarkResolved(id, allowed, workspace, resolver);
      run, model := run + ResolveBlockSteps(effective, call, id, allowed, workspace), next;
    }

    /** What the block does to the request objects. */
    method MarkResolved(id: Id, allowed: bool, workspace: string, resolver: string)
      returns (found: ApprovalRequest?, effective: bool)
      requires Consistent()
      modifies Objects()
      ensures unchanged(this)
      ensures effective == Decides(old(Requests()), pending.Keys, id, workspace)
      ensures found == if id in pending && old(Requests())[id].workspace == workspace then pending[id] else null
      ensures Requests() == if effective then old(Requests())[id := Decide(old(Requests())[id], allowed)]
                            else old(Requests())
    {
      if id !in pending { return null, false; }
      var req := pending[id];
      if req.workspace != workspace { return null, false; }
      effective := !req.resolved;
      if effective {
        req.resolved := true;
        req.allowed := allowed;
        req.resolver := resolver;
        req.event := true;
      }
      return req, effective;
    }

    /** The second locked block of `resolve`, and `cleanup`. */
    method Forget(id: Id)
      requires Valid()
      modifies this`pending, this`run, this`model
      ensures Valid() && pending == old(pending) - {id} && run == old(run) + [Cleanup(id)]
    {
      ghost var next := ForgetTracks(run, model, id);
      pending, run, model := pending - {id}, run + [Cleanup(id)], next;
    }

    /** Non-blocking check: None while pending or unknown. */
    method Check(id: Id) returns (answer: Option<bool>)
      requires Consistent()
      ensures answer == if id in pending && Requests()[id].resolved then Some(Requests()[id].allowed) else None
    {
      if id !in pending { return None; }
      return if pending[id].resolved then Some(pending[id].allowed) else None;
    }

    /** The first locked block of `wait`; the method answers False where nothing is found. */
    method FindBlock(id: Id, blocking: bool, ghost wait: nat) returns (found: ApprovalRequest?)
      requires Valid() && wait !in model.waits
      modifies this`run, this`model
      ensures Valid() && run == old(run) + [BeginWait(wait, id, blocking)]
      ensures found == if id in pending then pending[id] else null
      ensures found != null ==> wait in model.waits && model.waits[wait] == Wait(id, Holding(blocking))
    {
      ghost var next := FindTracks(run, model, wait, id, blocking);
      run, model := run + [BeginWait(wait, id, blocking)], next;
      return if id in pending then pending[id] else null;
    }

    /** The locked block at the end of a blocking `wait`. */
    method TimeOutBlock(req: ApprovalRequest, ghost wait: nat)
      requires Valid() && req.id in all && all[req.id] == req
      requires wait in model.waits && model.waits[wait] == Wait(req.id, Holding(true))
      modifies this`pending, this`run, this`model, Objects()
      ensures Valid() && run == old(run) + [TimeOut(wait)]
      ensures if old(req.resolved) then Requests() == old(Requests()) && pending == old(pending)
              else Requests() == old(Requests())[req.id := Denied(old(Requests())[req.id])]
                   && pending == old(pending) - {req.id}
    {
      ghost var next := TimeOutTracks(run, model, wait, req.id);
      if !req.resolved {
        DenyObject(req);
        pending := pending - {req.id};
      }
      run, model := run + [TimeOut(wait)], next;
    }

    method DenyObject(req: ApprovalRequest)
      requires Consistent() && req.id in all && all[req.id] == req
      modifies Objects()
      ensures unchanged(this) && Requests() == old(Requests())[req.id := Denied(old(Requests())[req.id])]
    {
      req.Deny("system_timeout");
    }

    /** One turn of the sweep's loop. */
    method SweepOne(id: Id, now: int) returns (drop: bool)
      requires Consistent() && id in pending
      modifies Objects()
      ensures unchanged(this) && Requests() == old(Requests())[id := Swept(old(Requests())[id], now)]
      ensures drop <==> Drops(old(Requests())[id], now)
    {
      drop := pending[id].Sweep(now);
    }

    /** The loop of the sweep. */
    method SweepObjects(now: int) returns (staleIds: set<Id>)
      requires Consistent()
      modifies Objects()
      ensures unchanged(this) && Requests() == SweptAll(old(Requests()), pending.Keys, now)
      ensures staleIds == Dropped(old(Requests()), pending.Keys, now)
    {
      var todo := pending.Keys;
      staleIds := {};
      ghost var before := Requests();
      while todo != {}
        invariant unchanged(this) && todo <= pending.Keys
        invariant Requests() == SweptAll(before, pending.Keys - todo, now)
        invariant staleIds == Dropped(before, pending.Keys - todo, now)
      {
        var id :| id in todo;
        SweptMore(before, pending.Keys - todo, id, now);
        DroppedMore(before, pending.Keys - todo, id, now);
        var drop := SweepOne(id, now);
        assert pending.Keys - (todo - {id}) == (pending.Keys - todo) + {id};
        todo := todo - {id};
        if drop { staleIds := staleIds + {id}; }
      }
    }

    method SweepTable(now: int)
      requires Consistent()
      modifies this`pending, Objects()
      ensures Consistent() && Requests() == SweptAll(old(Requests()), old(pending).Keys, now)
      ensures pending == old(pending) - Dropped(old(Requests()), old(pending).Keys, now)
    {
      var staleIds := SweepObjects(now);
      pending := pending - staleIds;
    }

    /** The sweep of `get_pending`: resolved requests are dropped, stale ones denied and dropped. */
    method SweepStale(now: int)
      requires Valid()
      modifies this`pending, this`run, this`model, Objects()
      ensures Valid() && old(run) <= run
      ensures Requests() == SweptAll(old(Requests()), old(pending).Keys, now)
      ensures pending == old(pending) - Dropped(old(Requests()), old(pending).Keys, now)
      ensures forall id | id in Expired(old(Requests()), old(pending).Keys, now) ::
        Effect(id, false, SystemExpired) in model.effects
    {
      ghost var steps, next := SweepAllTracks(run, model, pending.Keys, now);
      SweepTable(now);
      run, model := steps, next;
    }

    /** The same in numbers: of the pending requests exactly the undecided ones stay whose time does not parse or is
        at most 120 seconds ago, as they were; older undecided ones are denied, and nothing else changes. */
    method ExpireOld(now: int)
      requires Valid()
      modifies this`pending, this`run, this`model, Objects()
      ensures Valid() && old(run) <= run && all == old(all)
      ensures forall id :: id in pending <==>
        id in old(pending) && !old(Requests())[id].resolved
        && (old(Requests())[id].created.None? || now - old(Requests())[id].created.value <= 120)
      ensures forall id | id in pending :: pending[id] == old(pending)[id] && Requests()[id] == old(Requests())[id]
      ensures forall id | id in old(pending) && id !in pending && !old(Requests())[id].resolved ::
        && Requests()[id] == old(Requests())[id].(resolved := true, allowed := false, event := true)
        && Effect(id, false, SystemExpired) in model.effects
      ensures forall id | id in all && (id !in old(pending) || old(Requests())[id].resolved) ::
        Requests()[id] == old(Requests())[id]
    {
      ghost var before := Requests();
      SweepStale(now);
      forall id | id in old(pending) ensures
        var r := before[id];
        if r.resolved then Requests()[id] == r && id !in pending
        else if r.created.None? || now - r.created.value <= 120 then Requests()[id] == r && id in pending
        else Requests()[id] == r.(resolved := true, allowed := false, event := true) && id !in pending {
        SweptInNumbers(before, old(pending).Keys, now, id);
      }
    }

    /** The listing of `get_pending`, after old requests have been denied; an empty filter matches everything. */
    method GetPending(session: string, workspace: string, now: int) returns (listed: set<Id>)
      requires Valid()
      modifies this`pending, this`run, this`model, Objects()
      ensures Valid() && old(run) <= run
      ensures forall id :: id in pending <==>
        id in old(pending) && !old(Requests())[id].resolved
        && (old(Requests())[id].created.None? || now - old(Requests())[id].created.value <= 120)
      ensures forall id | id in pending :: pending[id] == old(pending)[id] && Requests()[id] == old(Requests())[id]
      ensures forall id | id in old(pending) && id !in pending && !old(Requests())[id].resolved ::
        && Requests()[id] == old(Requests())[id].(resolved := true, allowed := false, event := true)
        && Effect(id, false, SystemExpired) in model.effects
      ensures listed == set id | id in pending
                              && (workspace == "" || Requests()[id].workspace == workspace)
                              && (session == "" || Requests()[id].session == session)
    {
      ExpireOld(now);
      listed := set id | id in pending
                      && (workspace == "" || pending[id].workspace == workspace)
                      && (session == "" || pending[id].session == session);
    }
  }
}
