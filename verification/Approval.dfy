/** The approval protocol of agent/approval.py as a step system over one process lifetime.

    Every lock-protected block is one step, except that the block of `resolve` is split where a
    waiter that does not take the lock can look in between: `resolved` is written before `allowed`,
    and the event is set last. */
module Approval {
  import opened Seqs
  import opened Wrappers

  type Id = string

  /** `created` is None when the timestamp does not parse. */
  datatype Request = Request(workspace: string, session: string, created: Option<int>,
                             resolved: bool, allowed: bool, event: bool)

  datatype Source = Resolve(workspace: string) | SystemExpired | SystemTimeout

  /** A decision as it was written, in the order of the writes. */
  datatype Effect = Effect(id: Id, allowed: bool, source: Source)

  /** A `resolve` call. `effective` says whether it found the request undecided. */
  datatype CallStage =
    | Marked
    | Written
    | Unlocked(effective: bool)
    | Announced(effective: bool)
    | Returned(effective: bool)
  datatype Call = Call(id: Id, allowed: bool, workspace: string, stage: CallStage)

  /** A `wait` call that found its request. */
  datatype WaitStage = Holding(blocking: bool) | SawResolved | Finished
  datatype Wait = Wait(id: Id, stage: WaitStage)

  /** How a `wait` came to its answer: the id was not pending when it began (`known`: a request of that id
      exists), the request was undecided, its fields were read without the lock (`marking`: the call that was
      between its two writes), its event fired, or the polling loop ran out. */
  datatype How = NotPending(known: bool) | NotYet | Polled(marking: Option<nat>) | Woken | RanOut

  /** What a `wait` returned: None is "still pending". `seen` counts the effects written before. */
  datatype Answer = Answer(id: Id, allowed: Option<bool>, seen: nat, how: How)

  /** A "resolved" event; `call` is None for the system's own. */
  datatype Publication = Publication(id: Id, allowed: bool, call: Option<nat>)

  datatype State = State(
    requests: map<Id, Request>,   // every request object ever created
    pending: set<Id>,
    lock: Option<nat>,            // the resolve call inside its first locked block
    calls: map<nat, Call>,
    waits: map<nat, Wait>,
    effects: seq<Effect>,
    published: seq<Publication>,
    answers: seq<Answer>)

  const MAX_AGE := 120

  datatype Step =
    | Create(id: Id, workspace: string, session: string, created: Option<int>)
    | BeginResolve(call: nat, id: Id, allowed: bool, workspace: string)
    | WriteAllowed(call: nat)
    | SetEvent(call: nat)
    | Announce(call: nat)
    | PopResolved(call: nat)
    | Expire(id: Id, now: int)     // get_pending, one stale request
    | DropResolved(id: Id)         // get_pending, one resolved request
    | Cleanup(id: Id)
    | BeginWait(wait: nat, id: Id, blocking: bool)
    | LookResolved(wait: nat)      // non-blocking wait reads `resolved`
    | LookAllowed(wait: nat)       // ... and then `allowed`
    | EventFires(wait: nat)        // blocking wait: the event is set
    | TimeOut(wait: nat)           // blocking wait: the loop has run out

  predicate Stale(r: Request, now: int) { r.created.Some? && now - r.created.value > MAX_AGE }

  function Denied(r: Request): Request { r.(resolved := true, allowed := false, event := true) }

  predicate IsOpen(s: State, id: Id) { id in s.requests && !s.requests[id].resolved }

  /** Whether `resolve` goes past its workspace check. */
  predicate Accepts(s: State, id: Id, workspace: string) {
    id in s.pending && id in s.requests && s.requests[id].workspace == workspace
  }

  predicate Enabled(s: State, step: Step) {
    match step
    case Create(id, workspace, _, _) => s.lock.None? && id !in s.requests && workspace != ""
    case BeginResolve(call, _, _, _) => s.lock.None? && call !in s.calls
    case WriteAllowed(call) => call in s.calls && s.calls[call].stage.Marked? && s.calls[call].id in s.requests
    case SetEvent(call) => call in s.calls && s.calls[call].stage.Written? && s.calls[call].id in s.requests
    case Announce(call) => call in s.calls && s.calls[call].stage.Unlocked?
    case PopResolved(call) => s.lock.None? && call in s.calls && s.calls[call].stage.Announced?
    case Expire(id, now) => s.lock.None? && id in s.pending && IsOpen(s, id) && Stale(s.requests[id], now)
    case DropResolved(id) => s.lock.None? && id in s.pending && id in s.requests && s.requests[id].resolved
    case Cleanup(_) => s.lock.None?
    case BeginWait(wait, _, _) => s.lock.None? && wait !in s.waits
    case LookResolved(wait) =>
      wait in s.waits && s.waits[wait].stage == Holding(false) && s.waits[wait].id in s.requests
    case LookAllowed(wait) => wait in s.waits && s.waits[wait].stage.SawResolved? && s.waits[wait].id in s.requests
    case EventFires(wait) =>
      wait in s.waits && s.waits[wait].stage == Holding(true) && s.waits[wait].id in s.requests
      && s.requests[s.waits[wait].id].event
    case TimeOut(wait) =>
      s.lock.None? && wait in s.waits && s.waits[wait].stage == Holding(true) && s.waits[wait].id in s.requests
  }

  function SetCall(s: State, call: nat, stage: CallStage): State
    requires call in s.calls
  {
    s.(calls := s.calls[call := s.calls[call].(stage := stage)])
  }

  function EndWait(s: State, wait: nat, allowed: Option<bool>, how: How): State
    requires wait in s.waits
  {
    var id := s.waits[wait].id;
    s.(waits := s.waits[wait := Wait(id, Finished)], answers := s.answers + [Answer(id, allowed, |s.effects|, how)])
  }

  /** Some `resolve` call has marked the request and has still to write `allowed`. */
  predicate BeingWritten(s: State, id: Id) {
    s.lock.Some? && s.lock.value in s.calls && s.calls[s.lock.value].id == id && s.calls[s.lock.value].stage.Marked?
  }

  /** The system denies an undecided request and forgets it. */
  function Deny(s: State, id: Id, source: Source): State
    requires id in s.requests
  {
    s.(requests := s.requests[id := Denied(s.requests[id])],
       pending := s.pending - {id},
       effects := s.effects + [Effect(id, false, source)],
       published := s.published + [Publication(id, false, None)])
  }

  function Next(s: State, step: Step): State
    requires Enabled(s, step)
  {
    match step
    case Create(id, workspace, session, created) =>
      s.(requests := s.requests[id := Request(workspace, session, created, false, false, false)],
         pending := s.pending + {id})
    case BeginResolve(call, id, allowed, workspace) =>
      if !Accepts(s, id, workspace) then s
      else if s.requests[id].resolved then
        s.(calls := s.calls[call := Call(id, allowed, workspace, Unlocked(false))])
      else
        s.(requests := s.requests[id := s.requests[id].(resolved := true)],
           lock := Some(call),
           calls := s.calls[call := Call(id, allowed, workspace, Marked)])
    case WriteAllowed(call) =>
      var c := s.calls[call];
      SetCall(s, call, Written).(requests := s.requests[c.id := s.requests[c.id].(allowed := c.allowed)],
                                 effects := s.effects + [Effect(c.id, c.allowed, Resolve(c.workspace))])
    case SetEvent(call) =>
      var c := s.calls[call];
      SetCall(s, call, Unlocked(true)).(requests := s.requests[c.id := s.requests[c.id].(event := true)], lock := None)
    case Announce(call) =>
      var c := s.calls[call];
      SetCall(s, call, Announced(c.stage.effective)).(
        published := s.published + [Publication(c.id, c.allowed, Some(call))])
    case PopResolved(call) =>
      var c := s.calls[call];
      SetCall(s, call, Returned(c.stage.effective)).(pending := s.pending - {c.id})
    case Expire(id, _) => Deny(s, id, SystemExpired)
    case DropResolved(id) => s.(pending := s.pending - {id})
    case Cleanup(id) => s.(pending := s.pending - {id})
    case BeginWait(wait, id, blocking) =>
      if id in s.pending then s.(waits := s.waits[wait := Wait(id, Holding(blocking))])
      else EndWait(s.(waits := s.waits[wait := Wait(id, Finished)]), wait, Some(false), NotPending(id in s.requests))
    case LookResolved(wait) =>
      if s.requests[s.waits[wait].id].resolved then s.(waits := s.waits[wait := Wait(s.waits[wait].id, SawResolved)])
      else EndWait(s, wait, None, NotYet)
    case LookAllowed(wait) =>
      var id := s.waits[wait].id;
      EndWait(s, wait, Some(s.requests[id].allowed), Polled(if BeingWritten(s, id) then s.lock else None))
    case EventFires(wait) => EndWait(s, wait, Some(s.requests[s.waits[wait].id].allowed), Woken)
    case TimeOut(wait) =>
      var id := s.waits[wait].id;
      EndWait(if s.requests[id].resolved then s else Deny(s, id, SystemTimeout), wait, Some(false), RanOut)
  }

  ghost predicate Init(s: State) {
    s == State(map[], {}, None, map[], map[], [], [], [])
  }

  ghost predicate Runs(s: State, run: seq<Step>, s': State)
    decreases |run|
  {
    if run == [] then s == s' else Enabled(s, run[0]) && Runs(Next(s, run[0]), run[1..], s')
  }

  // ---------------------------------------------------------------- invariant

  predicate HasEffect(s: State, id: Id) { exists i :: 0 <= i < |s.effects| && s.effects[i].id == id }

  /** A decision of `id` is among the first `n` effects. */
  predicate Decided(s: State, id: Id, n: nat)
    requires n <= |s.effects|
  {
    exists i :: 0 <= i < n && s.effects[i].id == id
  }

  /** A denial of `id` is among the first `n` effects. */
  predicate Refused(s: State, id: Id, n: nat)
    requires n <= |s.effects|
  {
    exists i :: 0 <= i < n && s.effects[i].id == id && !s.effects[i].allowed
  }

  /** Whether the call found its request undecided, and so decides it. */
  predicate Effective(c: Call) { c.stage.Marked? || c.stage.Written? || c.stage.effective }

  /** An approval of `id` from the request's own workspace is among the first `n` effects. */
  predicate Approved(s: State, id: Id, n: nat)
    requires n <= |s.effects|
  {
    id in s.requests && exists i :: 0 <= i < n && s.effects[i] == Effect(id, true, Resolve(s.requests[id].workspace))
  }

  ghost predicate RequestOk(s: State, id: Id)
    requires id in s.requests
  {
    var r := s.requests[id];
    && (r.resolved <==> HasEffect(s, id) || BeingWritten(s, id))
    && !(HasEffect(s, id) && BeingWritten(s, id))
    && (r.allowed ==> HasEffect(s, id))
    && (r.event ==> HasEffect(s, id))
  }

  ghost predicate EffectOk(s: State, e: Effect) {
    && e.id in s.requests
    && s.requests[e.id].allowed == e.allowed
    && (e.allowed ==> e.source == Resolve(s.requests[e.id].workspace))
  }

  /** The lock is held exactly by the call between marking the request and setting its event. */
  predicate LockOk(s: State, c: nat)
    requires c in s.calls
  {
    s.calls[c].stage.Marked? || s.calls[c].stage.Written? <==> s.lock == Some(c)
  }

  /** A call that has marked its request has still to decide it; every other one finds it decided, the effective
      one by itself. */
  ghost predicate DecisionOk(s: State, c: nat)
    requires c in s.calls && s.calls[c].id in s.requests
  {
    var k := s.calls[c];
    && (HasEffect(s, k.id) <==> !k.stage.Marked?)
    && (Effective(k) && !k.stage.Marked? ==> s.requests[k.id].allowed == k.allowed)
  }

  ghost predicate CallOk(s: State, c: nat)
    requires c in s.calls
  {
    && s.calls[c].id in s.requests && s.calls[c].workspace == s.requests[s.calls[c].id].workspace
    && LockOk(s, c) && DecisionOk(s, c)
  }

  /** A call publishes its own arguments, the system its denials. */
  ghost predicate PublicationOk(s: State, p: Publication) {
    if p.call.Some? then
      && p.call.value in s.calls
      && s.calls[p.call.value].id == p.id && s.calls[p.call.value].allowed == p.allowed
      && !s.calls[p.call.value].stage.Marked?
    else p.id in s.requests && HasEffect(s, p.id) && !s.requests[p.id].allowed && !p.allowed
  }

  ghost predicate WaitOk(s: State, w: nat)
    requires w in s.waits
  {
    !s.waits[w].stage.Finished? ==>
      s.waits[w].id in s.requests && (s.waits[w].stage.SawResolved? ==> s.requests[s.waits[w].id].resolved)
  }

  /** A known request that was given up undecided can no longer be approved. */
  ghost predicate GivenUp(s: State, id: Id) {
    id in s.requests && id !in s.pending && !BeingWritten(s, id) && !s.requests[id].allowed
  }

  /** What an answer False had seen, by how it was given. */
  ghost predicate FalseOk(s: State, a: Answer)
    requires a.seen <= |s.effects|
  {
    match a.how
    case NotPending(known) => known ==> Decided(s, a.id, a.seen) || GivenUp(s, a.id)
    case NotYet => false
    case Polled(marking) =>
      if marking.None? then Refused(s, a.id, a.seen)
      else
        && marking.value in s.calls && s.calls[marking.value].id == a.id && Effective(s.calls[marking.value])
        && !Decided(s, a.id, a.seen)
    case Woken => Refused(s, a.id, a.seen)
    case RanOut => Decided(s, a.id, a.seen)
  }

  ghost predicate AnswerOk(s: State, a: Answer) {
    && a.seen <= |s.effects|
    && (a.allowed == Some(true) ==> Approved(s, a.id, a.seen))
    && (a.allowed == Some(false) ==> FalseOk(s, a))
  }

  ghost predicate Inv(s: State) {
    && s.pending <= s.requests.Keys
    && (forall id | id in s.requests :: RequestOk(s, id))
    && (forall i | 0 <= i < |s.effects| :: EffectOk(s, s.effects[i]))
    && (forall i, j | 0 <= i < j < |s.effects| :: s.effects[i].id != s.effects[j].id)
    && (forall c | c in s.calls :: CallOk(s, c))
    && (s.lock.Some? ==> s.lock.value in s.calls)
    && (forall w | w in s.waits :: WaitOk(s, w))
    && (forall i | 0 <= i < |s.answers| :: AnswerOk(s, s.answers[i]))
    && (forall i | 0 <= i < |s.published| :: PublicationOk(s, s.published[i]))
  }

  // ------------------------------------------------- the invariant is kept

  /** The decision a step writes, if any. */
  function NewEffect(s: State, step: Step): Option<Effect>
    requires Enabled(s, step)
  {
    match step
    case WriteAllowed(call) => Some(Effect(s.calls[call].id, s.calls[call].allowed, Resolve(s.calls[call].workspace)))
    case Expire(id, _) => Some(Effect(id, false, SystemExpired))
    case TimeOut(wait) =>
      if s.requests[s.waits[wait].id].resolved then None else Some(Effect(s.waits[wait].id, false, SystemTimeout))
    case _ => None
  }

  lemma EffectsAfter(s: State, step: Step)
    requires Enabled(s, step)
    ensures Next(s, step).effects ==
            if NewEffect(s, step).Some? then s.effects + [NewEffect(s, step).value] else s.effects
  {
  }

  lemma HasEffectAfter(s: State, step: Step, id: Id)
    requires Enabled(s, step)
    ensures HasEffect(Next(s, step), id) <==>
            HasEffect(s, id) || (NewEffect(s, step).Some? && NewEffect(s, step).value.id == id)
  {
    EffectsAfter(s, step);
    var effects' := Next(s, step).effects;
    if HasEffect(s, id) {
      var i :| 0 <= i < |s.effects| && s.effects[i].id == id;
      assert effects'[i].id == id;
    }
    if NewEffect(s, step).Some? { assert effects'[|s.effects|] == NewEffect(s, step).value; }
  }

  /** A decision is only written for a request that has none, and no other request's flags change with it. */
  lemma NewEffectIsFirst(s: State, step: Step)
    requires Inv(s) && Enabled(s, step) && NewEffect(s, step).Some?
    ensures var e := NewEffect(s, step).value;
      && e.id in s.requests && !HasEffect(s, e.id)
      && e.id in Next(s, step).requests && Next(s, step).requests[e.id].allowed == e.allowed
      && (e.allowed ==> e.source == Resolve(s.requests[e.id].workspace))
  {
    var e := NewEffect(s, step).value;
    if step.WriteAllowed? { assert CallOk(s, step.call); }
    if step.TimeOut? { assert WaitOk(s, step.wait); }
    assert RequestOk(s, e.id);
  }

  /** What a step may do to a request: only its decision and the writes around it touch the flags. */
  lemma RequestAfter(s: State, step: Step, id: Id)
    requires Enabled(s, step) && id in s.requests
    ensures id in Next(s, step).requests
    ensures var r, r' := s.requests[id], Next(s, step).requests[id];
      && r'.workspace == r.workspace
      && (r.resolved ==> r'.resolved)
      && (r'.allowed != r.allowed ==> NewEffect(s, step).Some? && NewEffect(s, step).value.id == id)
  {
  }

  /** Marks appear and disappear only with the two writes of a call. */
  lemma MarkAfter(s: State, step: Step, id: Id)
    requires Enabled(s, step) && (step.WriteAllowed? || step.SetEvent? ==> LockOk(s, step.call))
    ensures BeingWritten(Next(s, step), id) <==>
            || (BeingWritten(s, id) && !(step.WriteAllowed? && s.calls[step.call].id == id))
            || (step.BeginResolve? && step.id == id && Accepts(s, id, step.workspace) && !s.requests[id].resolved)
  {
  }

  lemma RequestKept(s: State, step: Step, id: Id)
    requires Enabled(s, step) && id in Next(s, step).requests
    requires if id in s.requests then RequestOk(s, id) else !HasEffect(s, id) && !BeingWritten(s, id)
    requires step.WriteAllowed? || step.SetEvent? ==> CallOk(s, step.call)
    ensures RequestOk(Next(s, step), id)
  {
    HasEffectAfter(s, step, id);
    MarkAfter(s, step, id);
  }

  lemma TouchedIsKnown(s: State, id: Id)
    requires Inv(s) && (HasEffect(s, id) || BeingWritten(s, id))
    ensures id in s.requests
  {
    if HasEffect(s, id) {
      var i :| 0 <= i < |s.effects| && s.effects[i].id == id;
      assert EffectOk(s, s.effects[i]);
    } else {
      assert CallOk(s, s.lock.value);
    }
  }

  lemma EffectsKept(s: State, step: Step)
    requires Inv(s) && Enabled(s, step)
    ensures var s' := Next(s, step);
      && (forall i | 0 <= i < |s'.effects| :: EffectOk(s', s'.effects[i]))
      && (forall i, j | 0 <= i < j < |s'.effects| :: s'.effects[i].id != s'.effects[j].id)
  {
    var s' := Next(s, step);
    EffectsAfter(s, step);
    if NewEffect(s, step).Some? { NewEffectIsFirst(s, step); }
    forall i | 0 <= i < |s'.effects| ensures EffectOk(s', s'.effects[i]) {
      if i < |s.effects| {
        assert EffectOk(s, s.effects[i]) && s'.effects[i] == s.effects[i];
        RequestAfter(s, step, s.effects[i].id);
      } else {
        RequestAfter(s, step, s'.effects[i].id);
      }
    }
  }

  /** A request that has a decision keeps it. */
  lemma DecisionKept(s: State, step: Step, id: Id)
    requires Inv(s) && Enabled(s, step) && HasEffect(s, id)
    ensures id in s.requests && id in Next(s, step).requests && HasEffect(Next(s, step), id)
    ensures Next(s, step).requests[id].allowed == s.requests[id].allowed
  {
    TouchedIsKnown(s, id);
    RequestAfter(s, step, id);
    HasEffectAfter(s, step, id);
    if NewEffect(s, step).Some? { NewEffectIsFirst(s, step); }
  }

  lemma LockKept(s: State, step: Step, c: nat)
    requires Enabled(s, step) && c in s.calls && LockOk(s, c)
    requires step.WriteAllowed? || step.SetEvent? ==> LockOk(s, step.call)
    ensures c in Next(s, step).calls && LockOk(Next(s, step), c)
  {
  }

  /** A step decides the request of the call that takes it, or one that no call has marked. */
  lemma NewEffectOf(s: State, step: Step, c: nat)
    requires Enabled(s, step) && c in s.calls && LockOk(s, c) && s.calls[c].stage.Marked?
    requires step.WriteAllowed? ==> LockOk(s, step.call)
    ensures NewEffect(s, step).Some? ==> step == WriteAllowed(c)
  {
  }

  lemma OldCallKept(s: State, step: Step, c: nat)
    requires Inv(s) && Enabled(s, step) && c in s.calls
    ensures c in Next(s, step).calls && CallOk(Next(s, step), c)
  {
    assert CallOk(s, c);
    assert step.WriteAllowed? || step.SetEvent? ==> CallOk(s, step.call);
    var id := s.calls[c].id;
    LockKept(s, step, c);
    RequestAfter(s, step, id);
    CallAfter(s, step, c);
    HasEffectAfter(s, step, id);
    if s.calls[c].stage.Marked? { NewEffectOf(s, step, c); } else { DecisionKept(s, step, id); }
  }

  /** A call begins on an undecided request, or on one whose decision is written. */
  lemma NewCallOk(s: State, step: Step, c: nat)
    requires Inv(s) && Enabled(s, step) && c !in s.calls && c in Next(s, step).calls
    ensures CallOk(Next(s, step), c)
  {
    assert RequestOk(s, step.id);
    HasEffectAfter(s, step, step.id);
  }

  /** What a step leaves of a call: its arguments and whether it was effective. */
  lemma CallAfter(s: State, step: Step, c: nat)
    requires Enabled(s, step) && c in s.calls
    ensures c in Next(s, step).calls
    ensures var k, k' := s.calls[c], Next(s, step).calls[c];
      && k'.id == k.id && k'.allowed == k.allowed && Effective(k') == Effective(k)
      && (k'.stage.Marked? ==> k.stage.Marked?)
  {
  }

  lemma PublicationKept(s: State, step: Step, i: nat)
    requires Inv(s) && Enabled(s, step) && i < |Next(s, step).published|
    ensures PublicationOk(Next(s, step), Next(s, step).published[i])
  {
    var p := Next(s, step).published[i];
    if i < |s.published| {
      assert p == s.published[i] && PublicationOk(s, p);
      if p.call.Some? { CallAfter(s, step, p.call.value); } else { DecisionKept(s, step, p.id); }
    } else if p.call.None? {
      HasEffectAfter(s, step, p.id);
    }
  }

  lemma WaitKept(s: State, step: Step, w: nat)
    requires Enabled(s, step) && w in Next(s, step).waits && s.pending <= s.requests.Keys
    requires w in s.waits ==> WaitOk(s, w)
    ensures WaitOk(Next(s, step), w)
  {
    if w in s.waits {
      if s.waits[w].id in s.requests { RequestAfter(s, step, s.waits[w].id); }
    }
  }

  lemma ApprovedKept(s: State, step: Step, id: Id, n: nat)
    requires Inv(s) && Enabled(s, step) && n <= |s.effects| && Approved(s, id, n)
    ensures n <= |Next(s, step).effects| && Approved(Next(s, step), id, n)
  {
    EffectsAfter(s, step);
    RequestAfter(s, step, id);
    var i :| 0 <= i < n && s.effects[i] == Effect(id, true, Resolve(s.requests[id].workspace));
    assert Next(s, step).effects[i] == s.effects[i];
  }

  /** A request whose `allowed` reads true has been approved. */
  lemma AllowedMeansApproved(s: State, id: Id)
    requires Inv(s) && id in s.requests && s.requests[id].allowed
    ensures Approved(s, id, |s.effects|)
  {
    assert RequestOk(s, id);
    var i :| 0 <= i < |s.effects| && s.effects[i].id == id;
    assert EffectOk(s, s.effects[i]);
  }

  /** What was decided among the first effects stays so. */
  lemma PrefixKept(s: State, step: Step, id: Id, n: nat)
    requires Enabled(s, step) && n <= |s.effects|
    ensures n <= |Next(s, step).effects|
    ensures Decided(Next(s, step), id, n) <==> Decided(s, id, n)
    ensures Refused(Next(s, step), id, n) <==> Refused(s, id, n)
  {
    EffectsAfter(s, step);
    assert forall i | 0 <= i < n :: Next(s, step).effects[i] == s.effects[i];
  }

  lemma GivenUpKept(s: State, step: Step, id: Id)
    requires Inv(s) && Enabled(s, step) && GivenUp(s, id)
    ensures GivenUp(Next(s, step), id)
  {
    assert step.WriteAllowed? || step.SetEvent? ==> CallOk(s, step.call);
    RequestAfter(s, step, id);
    MarkAfter(s, step, id);
  }

  lemma OldFalseKept(s: State, step: Step, a: Answer)
    requires Inv(s) && Enabled(s, step) && a.seen <= |s.effects| && FalseOk(s, a)
    ensures a.seen <= |Next(s, step).effects| && FalseOk(Next(s, step), a)
  {
    PrefixKept(s, step, a.id, a.seen);
    if a.how.NotPending? && GivenUp(s, a.id) { GivenUpKept(s, step, a.id); }
    if a.how.Polled? && a.how.marking.Some? { CallAfter(s, step, a.how.marking.value); }
  }

  /** A decision that reads false was a denial. */
  lemma DecidedFalseIsRefused(s: State, id: Id)
    requires Inv(s) && HasEffect(s, id) && id in s.requests && !s.requests[id].allowed
    ensures Refused(s, id, |s.effects|)
  {
    var i :| 0 <= i < |s.effects| && s.effects[i].id == id;
    assert EffectOk(s, s.effects[i]);
  }

  /** The answer a step gives, with what it has seen. */
  lemma NewFalseOk(s: State, step: Step)
    requires Inv(s) && Enabled(s, step) && |Next(s, step).answers| > |s.answers|
    ensures var s' := Next(s, step);
      var a := s'.answers[|s.answers|];
      a.allowed == Some(false) ==> a.seen <= |s'.effects| && FalseOk(s', a)
  {
    var s' := Next(s, step);
    var a := s'.answers[|s.answers|];
    if a.id in s.requests { assert RequestOk(s, a.id); }
    if a.allowed == Some(false) {
      match step
      case BeginWait(_, id, _) => if id in s.requests && HasEffect(s, id) { PrefixKept(s, step, id, |s.effects|); }
      case LookAllowed(wait) =>
        assert WaitOk(s, wait);
        if !BeingWritten(s, a.id) { DecidedFalseIsRefused(s, a.id); }
      case EventFires(_) => DecidedFalseIsRefused(s, a.id);
      case TimeOut(_) => HasEffectAfter(s, step, a.id);
    }
  }

  lemma AnswersKept(s: State, step: Step, i: nat)
    requires Inv(s) && Enabled(s, step) && i < |Next(s, step).answers|
    ensures AnswerOk(Next(s, step), Next(s, step).answers[i])
  {
    if i < |s.answers| {
      var a := s.answers[i];
      assert AnswerOk(s, a);
      EffectsAfter(s, step);
      if a.allowed == Some(true) { ApprovedKept(s, step, a.id, a.seen); }
      if a.allowed == Some(false) { OldFalseKept(s, step, a); }
    } else {
      NewFalseOk(s, step);
      NewTrueOk(s, step);
    }
  }

  lemma NewTrueOk(s: State, step: Step)
    requires Inv(s) && Enabled(s, step) && |Next(s, step).answers| > |s.answers|
    ensures var s' := Next(s, step);
      var a := s'.answers[|s.answers|];
      a.seen <= |s'.effects| && (a.allowed == Some(true) ==> Approved(s', a.id, a.seen))
  {
    var a := Next(s, step).answers[|s.answers|];
    if a.allowed == Some(true) {
      AllowedMeansApproved(s, a.id);
      ApprovedKept(s, step, a.id, a.seen);
    }
  }

  lemma NextKeepsInv(s: State, step: Step)
    requires Inv(s) && Enabled(s, step)
    ensures Inv(Next(s, step))
  {
    var s' := Next(s, step);
    EffectsKept(s, step);
    forall id | id in s'.requests ensures RequestOk(s', id) {
      if HasEffect(s, id) || BeingWritten(s, id) { TouchedIsKnown(s, id); }
      assert id in s.requests ==> RequestOk(s, id);
      assert step.WriteAllowed? || step.SetEvent? ==> CallOk(s, step.call);
      RequestKept(s, step, id);
    }
    forall c | c in s'.calls ensures CallOk(s', c) {
      if c in s.calls { OldCallKept(s, step, c); } else { NewCallOk(s, step, c); }
    }
    forall w | w in s'.waits ensures WaitOk(s', w) {
      assert w in s.waits ==> WaitOk(s, w);
      WaitKept(s, step, w);
    }
    forall i | 0 <= i < |s'.answers| ensures AnswerOk(s', s'.answers[i]) { AnswersKept(s, step, i); }
    forall i | 0 <= i < |s'.published| ensures PublicationOk(s', s'.published[i]) { PublicationKept(s, step, i); }
  }

  lemma {:induction false} RunsKeepInv(s: State, run: seq<Step>, s': State)
    requires Inv(s) && Runs(s, run, s')
    ensures Inv(s')
    decreases |run|
  {
    if run != [] {
      NextKeepsInv(s, run[0]);
      RunsKeepInv(Next(s, run[0]), run[1..], s');
    }
  }

  lemma {:induction false} EffectsOnlyGrow(s: State, run: seq<Step>, s': State)
    requires Runs(s, run, s')
    ensures s.effects <= s'.effects
    decreases |run|
  {
    if run != [] {
      EffectsAfter(s, run[0]);
      EffectsOnlyGrow(Next(s, run[0]), run[1..], s');
    }
  }

  // ------------------------------------------------------------ main results

  /** A request is decided at most once, and its decision never changes: whatever is written later,
      `resolved` and `allowed` still say what the one effect said. */
  lemma DecidedOnceForAll(s0: State, before: seq<Step>, s: State, after: seq<Step>, s': State, i: nat)
    requires Init(s0) && Runs(s0, before, s) && Runs(s, after, s') && i < |s.effects|
    ensures var e := s.effects[i];
      && e.id in s.requests && s.requests[e.id].resolved && s.requests[e.id].allowed == e.allowed
      && e.id in s'.requests && s'.requests[e.id].resolved && s'.requests[e.id].allowed == e.allowed
      && forall j | 0 <= j < |s'.effects| && s'.effects[j].id == e.id :: j == i
  {
    RunsKeepInv(s0, before, s);
    RunsKeepInv(s, after, s');
    EffectsOnlyGrow(s, after, s');
    var e := s.effects[i];
    assert s'.effects[i] == e;
    assert EffectOk(s, e) && EffectOk(s', e);
    assert RequestOk(s, e.id) && RequestOk(s', e.id);
  }

  /** `wait` answers True only if an approval of that request, given in the request's own workspace,
      took effect before the answer. Expiry, timeout and cleanup never lead to True. */
  lemma WaitTrueOnlyAfterApproval(s: State, run: seq<Step>, s': State, i: nat)
    requires Init(s) && Runs(s, run, s')
    requires i < |s'.answers| && s'.answers[i].allowed == Some(true)
    ensures var a := s'.answers[i];
      && a.id in s'.requests && a.seen <= |s'.effects|
      && exists k :: 0 <= k < a.seen && s'.effects[k] == Effect(a.id, true, Resolve(s'.requests[a.id].workspace))
  {
    RunsKeepInv(s, run, s');
    assert AnswerOk(s', s'.answers[i]);
  }

  /** Only a wait that found its request undecided answers neither way. */
  predicate AnswersSay(s: State) {
    forall i | 0 <= i < |s.answers| :: s.answers[i].allowed.None? <==> s.answers[i].how.NotYet?
  }

  lemma {:induction false} RunsKeepAnswersSay(s: State, run: seq<Step>, s': State)
    requires AnswersSay(s) && Runs(s, run, s')
    ensures AnswersSay(s')
    decreases |run|
  {
    if run != [] { RunsKeepAnswersSay(Next(s, run[0]), run[1..], s'); }
  }

  /** A wait that was woken, or that read both fields when no call was between its two writes, says what had been
      decided for its request. */
  lemma WaitSaysDecision(s: State, run: seq<Step>, s': State, i: nat)
    requires Init(s) && Runs(s, run, s')
    requires i < |s'.answers| && (s'.answers[i].how.Woken? || s'.answers[i].how == Polled(None))
    ensures var a := s'.answers[i];
      && a.seen <= |s'.effects|
      && exists k :: 0 <= k < a.seen && s'.effects[k].id == a.id && a.allowed == Some(s'.effects[k].allowed)
  {
    RunsKeepInv(s, run, s');
    RunsKeepAnswersSay(s, run, s');
    var a := s'.answers[i];
    assert AnswerOk(s', a) && a.allowed.Some?;
    if a.allowed.value {
      assert Approved(s', a.id, a.seen);
    } else {
      assert Refused(s', a.id, a.seen);
    }
  }

  /** Such a wait does answer: when its event is set, or when it reads `allowed` of a request that no call is about
      to write, it says the one decision of the request. */
  lemma WaitAnswersDecision(s0: State, run: seq<Step>, s: State, step: Step) returns (k: nat)
    requires Init(s0) && Runs(s0, run, s) && Enabled(s, step)
    requires step.EventFires? || step.LookAllowed?
    requires step.LookAllowed? ==>
               forall c | c in s.calls :: s.calls[c].id == s.waits[step.wait].id ==> !s.calls[c].stage.Marked?
    ensures k < |s.effects| && s.effects[k].id == s.waits[step.wait].id
    ensures Next(s, step).answers == s.answers + [Answer(s.waits[step.wait].id, Some(s.effects[k].allowed),
              |s.effects|, if step.EventFires? then Woken else Polled(None))]
  {
    RunsKeepInv(s0, run, s);
    var id := s.waits[step.wait].id;
    assert WaitOk(s, step.wait) && RequestOk(s, id) && HasEffect(s, id);
    k :| 0 <= k < |s.effects| && s.effects[k].id == id;
    assert EffectOk(s, s.effects[k]);
  }

  /** A decision by the system is a denial. */
  lemma SystemOnlyDenies(s: State, run: seq<Step>, s': State, i: nat)
    requires Init(s) && Runs(s, run, s') && i < |s'.effects| && !s'.effects[i].source.Resolve?
    ensures !s'.effects[i].allowed
  {
    RunsKeepInv(s, run, s');
    assert EffectOk(s', s'.effects[i]);
  }

  // ------------------------------- two claims that hold only under a condition

  /** A `resolve` call run without interference, up to its event. */
  function ResolveSteps(s: State, call: nat, id: Id, allowed: bool, workspace: string): seq<Step> {
    if IsOpen(s, id)
    then [BeginResolve(call, id, allowed, workspace), WriteAllowed(call), SetEvent(call), Announce(call)]
    else [BeginResolve(call, id, allowed, workspace), Announce(call)]
  }

  lemma {:induction false} RunsAppend(s: State, r: seq<Step>, m: State, t: seq<Step>, s': State)
    requires Runs(s, r, m) && Runs(m, t, s')
    ensures Runs(s, r + t, s')
    decreases |r|
  {
    if r == [] {
      assert r + t == t;
    } else {
      RunsAppend(Next(s, r[0]), r[1..], m, t, s');
      assert (r + t)[1..] == r[1..] + t;
    }
  }

  lemma RunsOne(s: State, step: Step)
    requires Enabled(s, step)
    ensures Runs(s, [step], Next(s, step))
  {
  }

  /** What an undisturbed `resolve` leaves behind. */
  ghost predicate ResolveLeaves(s: State, call: nat, id: Id, allowed: bool, s': State)
    requires id in s.requests
  {
    && s'.published == s.published + [Publication(id, allowed, Some(call))]
    && id in s'.requests && s'.requests[id].resolved && s'.requests[id].workspace == s.requests[id].workspace
    && s'.requests[id].allowed == (if IsOpen(s, id) then allowed else s.requests[id].allowed)
    && |s'.effects| == |s.effects| + (if IsOpen(s, id) then 1 else 0)
    && s'.lock.None? && s'.pending == s.pending && s'.waits == s.waits && s'.answers == s.answers
    && s'.calls.Keys == s.calls.Keys + {call}
  }

  /** The first locked block of `resolve` on an undecided request. */
  function DecideSteps(call: nat, id: Id, allowed: bool, workspace: string): seq<Step> {
    [BeginResolve(call, id, allowed, workspace), WriteAllowed(call), SetEvent(call)]
  }

  lemma DecideRuns(s: State, call: nat, id: Id, allowed: bool, workspace: string) returns (s': State)
    requires s.lock.None? && call !in s.calls && Accepts(s, id, workspace) && IsOpen(s, id)
    ensures Runs(s, DecideSteps(call, id, allowed, workspace), s')
    ensures s' == s.(requests := s.requests[id := s.requests[id].(resolved := true, allowed := allowed, event := true)],
                     calls := s.calls[call := Call(id, allowed, workspace, Unlocked(true))],
                     effects := s.effects + [Effect(id, allowed, Resolve(workspace))])
  {
    var s1 := Next(s, BeginResolve(call, id, allowed, workspace));
    var s2 := Next(s1, WriteAllowed(call));
    s' := Next(s2, SetEvent(call));
    RunsOne(s, BeginResolve(call, id, allowed, workspace));
    RunsOne(s1, WriteAllowed(call));
    RunsOne(s2, SetEvent(call));
    RunsAppend(s1, [WriteAllowed(call)], s2, [SetEvent(call)], s');
    RunsAppend(s, [BeginResolve(call, id, allowed, workspace)], s1, [WriteAllowed(call)] + [SetEvent(call)], s');
    assert [BeginResolve(call, id, allowed, workspace), WriteAllowed(call), SetEvent(call)]
        == [BeginResolve(call, id, allowed, workspace)] + ([WriteAllowed(call)] + [SetEvent(call)]);
  }

  lemma ResolveRuns(s: State, call: nat, id: Id, allowed: bool, workspace: string) returns (s': State)
    requires s.lock.None? && call !in s.calls && Accepts(s, id, workspace)
    ensures Runs(s, ResolveSteps(s, call, id, allowed, workspace), s') && ResolveLeaves(s, call, id, allowed, s')
  {
    if IsOpen(s, id) {
      var s3 := DecideRuns(s, call, id, allowed, workspace);
      s' := Next(s3, Announce(call));
      RunsOne(s3, Announce(call));
      RunsAppend(s, [BeginResolve(call, id, allowed, workspace), WriteAllowed(call), SetEvent(call)], s3,
                 [Announce(call)], s');
      assert ResolveSteps(s, call, id, allowed, workspace) ==
        [BeginResolve(call, id, allowed, workspace), WriteAllowed(call), SetEvent(call)] + [Announce(call)];
    } else {
      var s1 := Next(s, BeginResolve(call, id, allowed, workspace));
      s' := Next(s1, Announce(call));
      RunsOne(s, BeginResolve(call, id, allowed, workspace));
      RunsOne(s1, Announce(call));
      RunsAppend(s, [BeginResolve(call, id, allowed, workspace)], s1, [Announce(call)], s');
      assert ResolveSteps(s, call, id, allowed, workspace) ==
        [BeginResolve(call, id, allowed, workspace)] + [Announce(call)];
    }
  }

  lemma RunThen(s0: State, run: seq<Step>, s: State, step: Step)
    requires Runs(s0, run, s) && Enabled(s, step)
    ensures Runs(s0, run + [step], Next(s, step))
  {
    RunsOne(s, step);
    RunsAppend(s0, run, s, [step], Next(s, step));
  }

  /** Along a run a call keeps its arguments and stays effective or not. */
  lemma {:induction false} CallStays(s: State, run: seq<Step>, s': State, c: nat)
    requires Runs(s, run, s') && c in s.calls
    ensures c in s'.calls && s'.calls[c].id == s.calls[c].id && s'.calls[c].allowed == s.calls[c].allowed
    ensures Effective(s'.calls[c]) == Effective(s.calls[c])
    decreases |run|
  {
    if run != [] {
      CallAfter(s, run[0], c);
      CallStays(Next(s, run[0]), run[1..], s', c);
    }
  }

  /** Along a run a decision stays. */
  lemma {:induction false} DecisionStays(s: State, run: seq<Step>, s': State, id: Id)
    requires Inv(s) && Runs(s, run, s') && HasEffect(s, id)
    ensures id in s.requests && id in s'.requests && s'.requests[id].allowed == s.requests[id].allowed
    decreases |run|
  {
    TouchedIsKnown(s, id);
    if run != [] {
      DecisionKept(s, run[0], id);
      NextKeepsInv(s, run[0]);
      DecisionStays(Next(s, run[0]), run[1..], s', id);
    }
  }

  /** What is published, over every interleaving: the system's own publications are its decisions; the one of a
      `resolve` call is the decision exactly when the call was effective or repeats the decision. */
  lemma PublishedIsDecision(s0: State, run: seq<Step>, s: State, i: nat)
    requires Init(s0) && Runs(s0, run, s) && i < |s.published|
    ensures var p := s.published[i];
      && p.id in s.requests && HasEffect(s, p.id)
      && (p.call.None? ==> p.allowed == s.requests[p.id].allowed)
      && (p.call.Some? ==>
            && p.call.value in s.calls
            && (p.allowed == s.requests[p.id].allowed <==>
                Effective(s.calls[p.call.value]) || s.calls[p.call.value].allowed == s.requests[p.id].allowed))
  {
    RunsKeepInv(s0, run, s);
    var p := s.published[i];
    assert PublicationOk(s, p);
    if p.call.Some? { assert CallOk(s, p.call.value); }
  }

  /** The same as a condition on the state in which the call begins, whatever happens before and afterwards:
      what it will publish is the decision exactly when the request is undecided then, or was decided alike. */
  lemma PublishedIsDecisionIff(s0: State, before: seq<Step>, s: State, begin: Step, after: seq<Step>, s': State, i: nat)
    requires Init(s0) && Runs(s0, before, s)
    requires begin.BeginResolve? && Enabled(s, begin) && Accepts(s, begin.id, begin.workspace)
    requires Runs(Next(s, begin), after, s') && i < |s'.published| && s'.published[i].call == Some(begin.call)
    ensures s'.published[i].id == begin.id && begin.id in s'.requests && HasEffect(s', begin.id)
    ensures s'.published[i].allowed == s'.requests[begin.id].allowed
       <==> IsOpen(s, begin.id) || s.requests[begin.id].allowed == begin.allowed
  {
    RunsKeepInv(s0, before, s);
    NextKeepsInv(s, begin);
    RunsKeepInv(Next(s, begin), after, s');
    CallStays(Next(s, begin), after, s', begin.call);
    assert PublicationOk(s', s'.published[i]) && CallOk(s', begin.call);
    if !IsOpen(s, begin.id) {
      assert RequestOk(s, begin.id);
      DecisionKept(s, begin, begin.id);
      DecisionStays(Next(s, begin), after, s', begin.id);
    }
  }

  // ------------------------------------------------- when False was wrong

  /** `m` is the state of the run before its step `k`, and `s` the one it ends in. */
  ghost predicate Passes(s0: State, run: seq<Step>, k: nat, m: State, s: State) {
    && k < |run| && Runs(s0, run[..k], m) && Enabled(m, run[k])
    && Runs(Next(m, run[k]), run[k + 1..], s)
  }

  /** Where a run, from its step `from` on, first makes `p` true. */
  lemma {:induction false} FirstTrue(s0: State, run: seq<Step>, from: nat, s: State, s': State, p: State -> bool)
    returns (k: nat, m: State)
    requires from <= |run| && Runs(s0, run[..from], s) && Runs(s, run[from..], s') && !p(s) && p(s')
    ensures from <= k && Passes(s0, run, k, m, s') && Runs(s, run[from..k], m) && !p(m) && p(Next(m, run[k]))
    decreases |run| - from
  {
    assert from < |run|;
    TailOfTail(run, from);
    var next := Next(s, run[from]);
    if p(next) {
      k, m := from, s;
    } else {
      RunThen(s0, run[..from], s, run[from]);
      assert run[..from] + [run[from]] == run[..from + 1];
      k, m := FirstTrue(s0, run, from + 1, next, s', p);
      assert run[from..k][1..] == run[from + 1..k];
    }
  }

  lemma {:induction false} AnswersOnlyGrow(s: State, run: seq<Step>, s': State)
    requires Runs(s, run, s')
    ensures s.answers <= s'.answers
    decreases |run|
  {
    if run != [] { AnswersOnlyGrow(Next(s, run[0]), run[1..], s'); }
  }

  /** A `resolve` that takes effect: it finds the request of its own workspace, pending and undecided. */
  predicate Approves(m: State, step: Step, id: Id) {
    step.BeginResolve? && step.id == id && step.allowed && Accepts(m, id, step.workspace) && IsOpen(m, id)
  }

  /** An effective call approves the request. */
  predicate HasApproval(s: State, id: Id) {
    exists c | c in s.calls :: s.calls[c].id == id && s.calls[c].allowed && Effective(s.calls[c])
  }

  lemma ApprovalStarts(s: State, step: Step, id: Id)
    requires Enabled(s, step) && HasApproval(Next(s, step), id) && !HasApproval(s, id)
    ensures Approves(s, step, id)
  {
    var c :| c in Next(s, step).calls && Next(s, step).calls[c].id == id && Next(s, step).calls[c].allowed
             && Effective(Next(s, step).calls[c]);
    if c in s.calls { CallAfter(s, step, c); }
  }

  lemma ApprovalStays(s: State, step: Step, id: Id)
    requires Enabled(s, step) && HasApproval(s, id)
    ensures HasApproval(Next(s, step), id)
  {
    var c :| c in s.calls && s.calls[c].id == id && s.calls[c].allowed && Effective(s.calls[c]);
    CallAfter(s, step, c);
  }

  predicate AllowedHasApproval(s: State, id: Id) {
    id in s.requests && s.requests[id].allowed ==> HasApproval(s, id)
  }

  lemma AllowedStaysApproved(s: State, step: Step, id: Id)
    requires Enabled(s, step) && AllowedHasApproval(s, id)
    ensures AllowedHasApproval(Next(s, step), id)
  {
    if HasApproval(s, id) {
      ApprovalStays(s, step, id);
    } else if id in s.requests {
      RequestAfter(s, step, id);
      if step.WriteAllowed? { assert step.call in Next(s, step).calls; }
    }
  }

  /** Only an effective call makes `allowed` true. */
  lemma {:induction false} AllowedIsApproved(s: State, run: seq<Step>, s': State, id: Id)
    requires AllowedHasApproval(s, id) && Runs(s, run, s')
    ensures AllowedHasApproval(s', id)
    decreases |run|
  {
    if run != [] {
      AllowedStaysApproved(s, run[0], id);
      AllowedIsApproved(Next(s, run[0]), run[1..], s', id);
    }
  }

  /** Step `j` creates the request, after answer `i` was given. */
  ghost predicate CreatedAt(s0: State, run: seq<Step>, s: State, i: nat, id: Id, j: nat) {
    exists l :: Passes(s0, run, j, l, s) && i < |l.answers| && run[j].Create? && run[j].id == id
  }

  /** Step `k` is a `resolve(True)` on the request that takes effect. */
  ghost predicate ApprovedAt(s0: State, run: seq<Step>, s: State, id: Id, k: nat) {
    exists m :: Passes(s0, run, k, m, s) && Approves(m, run[k], id)
  }

  /** After answer `i` the request is created, and then a `resolve(True)` on it takes effect. */
  ghost predicate CreatedAndApproved(s0: State, run: seq<Step>, s: State, i: nat, id: Id) {
    exists j: nat, k: nat :: j < k && CreatedAt(s0, run, s, i, id, j) && ApprovedAt(s0, run, s, id, k)
  }

  /** An answer for an id that did not exist was given while it did not. */
  lemma UnknownWhenAnswered(m: State, step: Step, i: nat)
    requires Enabled(m, step) && i == |m.answers| < |Next(m, step).answers|
    requires Next(m, step).answers[i].how == NotPending(false)
    ensures Next(m, step).answers[i].id !in Next(m, step).requests
  {
  }

  lemma CreationStarts(m: State, step: Step, id: Id)
    requires Enabled(m, step) && id !in m.requests && id in Next(m, step).requests
    ensures step.Create? && step.id == id
  {
  }

  /** Where the answer to a wait for an unknown id was given. */
  lemma AnswerIsGiven(s0: State, run: seq<Step>, s: State, i: nat) returns (k: nat, m: State)
    requires Init(s0) && Runs(s0, run, s) && i < |s.answers|
    ensures Passes(s0, run, k, m, s) && i == |m.answers| && Next(m, run[k]).answers == m.answers + [s.answers[i]]
  {
    assert run[..0] == [] && run[0..] == run;
    k, m := FirstTrue(s0, run, 0, s0, s, (x: State) => i < |x.answers|);
    AnswersOnlyGrow(Next(m, run[k]), run[k + 1..], s);
  }

  /** The state of the run after its step `k`. */
  lemma StepPassed(s0: State, run: seq<Step>, k: nat, m: State, s: State)
    requires Passes(s0, run, k, m, s)
    ensures Runs(s0, run[..k + 1], Next(m, run[k])) && Runs(Next(m, run[k]), run[k + 1..], s)
  {
    RunThen(s0, run[..k], m, run[k]);
    assert run[..k] + [run[k]] == run[..k + 1];
  }

  /** A request that does not exist after step `a` and does in the end is created in between. */
  lemma LaterCreation(s0: State, run: seq<Step>, a: nat, x: State, s: State, id: Id) returns (k: nat, m: State)
    requires Passes(s0, run, a, x, s) && id !in Next(x, run[a]).requests && id in s.requests
    ensures a < k && Passes(s0, run, k, m, s) && run[k].Create? && run[k].id == id
    ensures Next(x, run[a]).answers <= m.answers
  {
    StepPassed(s0, run, a, x, s);
    k, m := FirstTrue(s0, run, a + 1, Next(x, run[a]), s, (y: State) => id in y.requests);
    CreationStarts(m, run[k], id);
    AnswersOnlyGrow(Next(x, run[a]), run[a + 1..k], m);
  }

  lemma LaterApproval(s0: State, run: seq<Step>, a: nat, x: State, s: State, id: Id) returns (k: nat)
    requires Passes(s0, run, a, x, s) && !HasApproval(Next(x, run[a]), id) && HasApproval(s, id)
    ensures a < k && ApprovedAt(s0, run, s, id, k)
  {
    StepPassed(s0, run, a, x, s);
    var m;
    k, m := FirstTrue(s0, run, a + 1, Next(x, run[a]), s, (y: State) => HasApproval(y, id));
    ApprovalStarts(m, run[k], id);
  }

  lemma UnknownIsNotApproved(m: State, id: Id)
    requires Inv(m) && id !in m.requests
    ensures !HasApproval(m, id)
  {
    forall c | c in m.calls ensures m.calls[c].id != id { assert CallOk(m, c); }
  }

  lemma CreatedIsNotApproved(m: State, step: Step)
    requires Inv(m) && Enabled(m, step) && step.Create?
    ensures !HasApproval(Next(m, step), step.id)
  {
    UnknownIsNotApproved(m, step.id);
  }

  lemma ApprovalDecides(m: State, step: Step, m': State, after: seq<Step>, s: State)
    requires Enabled(m, step) && step.BeginResolve? && Approves(m, step, step.id) && m' == Next(m, step)
    requires Runs(m', after, s) && Inv(s) && HasEffect(s, step.id)
    ensures step.id in s.requests && s.requests[step.id].allowed
  {
    CallStays(m', after, s, step.call);
    assert CallOk(s, step.call);
  }

  lemma ApprovedLaterIsApproved(s0: State, run: seq<Step>, s: State, id: Id, k: nat)
    requires Inv(s) && HasEffect(s, id) && ApprovedAt(s0, run, s, id, k)
    ensures id in s.requests && s.requests[id].allowed
  {
    var m :| Passes(s0, run, k, m, s) && Approves(m, run[k], id);
    ApprovalDecides(m, run[k], Next(m, run[k]), run[k + 1..], s);
  }

  lemma CreatedIsApprovedLater(s0: State, run: seq<Step>, s: State, j: nat, l: State, id: Id) returns (k: nat)
    requires Init(s0) && Runs(s0, run, s) && Passes(s0, run, j, l, s) && run[j].Create? && run[j].id == id
    requires id in s.requests && s.requests[id].allowed
    ensures j < k && ApprovedAt(s0, run, s, id, k)
  {
    RunsKeepInv(s0, run[..j], l);
    CreatedIsNotApproved(l, run[j]);
    AllowedIsApproved(s0, run, s, id);
    k := LaterApproval(s0, run, j, l, s, id);
  }

  lemma UnknownIsCreatedLater(s0: State, run: seq<Step>, s: State, i: nat) returns (j: nat, l: State)
    requires Init(s0) && Runs(s0, run, s) && i < |s.answers| && s.answers[i].how == NotPending(false)
    requires s.answers[i].id in s.requests
    ensures Passes(s0, run, j, l, s) && run[j].Create? && run[j].id == s.answers[i].id && i < |l.answers|
  {
    var a, x := AnswerIsGiven(s0, run, s, i);
    UnknownWhenAnswered(x, run[a], i);
    j, l := LaterCreation(s0, run, a, x, s, s.answers[i].id);
  }

  lemma UnknownIsApprovedLater(s0: State, run: seq<Step>, s: State, i: nat)
    requires Init(s0) && Runs(s0, run, s) && i < |s.answers| && s.answers[i].how == NotPending(false)
    requires s.answers[i].id in s.requests && s.requests[s.answers[i].id].allowed
    ensures CreatedAndApproved(s0, run, s, i, s.answers[i].id)
  {
    var j, l := UnknownIsCreatedLater(s0, run, s, i);
    var k := CreatedIsApprovedLater(s0, run, s, j, l, s.answers[i].id);
    assert CreatedAt(s0, run, s, i, s.answers[i].id, j);
  }

  /** When the answer False of a `wait` is wrong, over every interleaving and for good: the id was not pending any
      more because it had been approved; it did not exist yet, and afterwards its request was created and then a
      `resolve(True)` on it took effect; the fields were read between the two writes of an approving call; or the
      loop ran out after an approval. A wait that was woken is never wrong. */
  lemma FalseAnswerWrongIff(s0: State, run: seq<Step>, s: State, i: nat)
    requires Init(s0) && Runs(s0, run, s) && i < |s.answers| && s.answers[i].allowed == Some(false)
    requires HasEffect(s, s.answers[i].id)
    ensures var a := s.answers[i];
      && a.id in s.requests && a.seen <= |s.effects|
      && (s.requests[a.id].allowed <==>
          match a.how
          case NotPending(known) =>
            if known then Approved(s, a.id, a.seen) else CreatedAndApproved(s0, run, s, i, a.id)
          case Polled(marking) => marking.Some? && marking.value in s.calls && s.calls[marking.value].allowed
          case RanOut => Approved(s, a.id, a.seen)
          case Woken => false
          case NotYet => false)
  {
    RunsKeepInv(s0, run, s);
    var a := s.answers[i];
    TouchedIsKnown(s, a.id);
    assert AnswerOk(s, a);
    DecisionIsEffect(s, a.id, a.seen);
    if a.how == NotPending(false) {
      if s.requests[a.id].allowed { UnknownIsApprovedLater(s0, run, s, i); }
      if j: nat, k: nat :| j < k && CreatedAt(s0, run, s, i, a.id, j) && ApprovedAt(s0, run, s, a.id, k) {
        ApprovedLaterIsApproved(s0, run, s, a.id, k);
      }
    }
    if a.how.Polled? && a.how.marking.Some? { assert CallOk(s, a.how.marking.value); }
  }

  /** The request says what its one effect says, wherever that is found. */
  lemma DecisionIsEffect(s: State, id: Id, n: nat)
    requires Inv(s) && id in s.requests && n <= |s.effects|
    ensures Approved(s, id, n) ==> s.requests[id].allowed
    ensures Approved(s, id, |s.effects|) ==> s.requests[id].allowed
    ensures Refused(s, id, n) ==> !s.requests[id].allowed
    ensures Decided(s, id, n) && s.requests[id].allowed ==> Approved(s, id, n)
  {
    forall i | 0 <= i < |s.effects| && s.effects[i].id == id
      ensures s.requests[id].allowed == s.effects[i].allowed
      ensures s.effects[i].allowed ==> s.effects[i] == Effect(id, true, Resolve(s.requests[id].workspace)) {
      assert EffectOk(s, s.effects[i]);
    }
  }

  /** One pending request "a" and one blocking waiter. */
  lemma OneWaiter() returns (s0: State, run: seq<Step>, s: State)
    ensures Init(s0) && Runs(s0, run, s)
    ensures s == State(map["a" := Request("w", "", None, false, false, false)], {"a"}, None, map[],
                       map[0 := Wait("a", Holding(true))], [], [], [])
  {
    s0 := State(map[], {}, None, map[], map[], [], [], []);
    var s1 := Next(s0, Create("a", "w", "", None));
    s := Next(s1, BeginWait(0, "a", true));
    RunsOne(s0, Create("a", "w", "", None));
    RunsOne(s1, BeginWait(0, "a", true));
    run := [Create("a", "w", "", None)] + [BeginWait(0, "a", true)];
    RunsAppend(s0, [Create("a", "w", "", None)], s1, [BeginWait(0, "a", true)], s);
  }

  /** An approval and then a denial of one request, both published. */
  lemma ApproveThenDeny(s: State, id: Id, workspace: string) returns (run: seq<Step>, s': State)
    requires s.lock.None? && 0 !in s.calls && 1 !in s.calls && Accepts(s, id, workspace) && IsOpen(s, id)
    ensures Runs(s, run, s') && s'.lock.None? && s'.waits == s.waits && s'.answers == s.answers
    ensures id in s'.requests && s'.requests[id].resolved && s'.requests[id].allowed
    ensures s'.published == s.published + [Publication(id, true, Some(0))] + [Publication(id, false, Some(1))]
    ensures |s'.effects| == |s.effects| + 1
  {
    var s1 := ResolveRuns(s, 0, id, true, workspace);
    s' := ResolveRuns(s1, 1, id, false, workspace);
    run := ResolveSteps(s, 0, id, true, workspace) + ResolveSteps(s1, 1, id, false, workspace);
    RunsAppend(s, ResolveSteps(s, 0, id, true, workspace), s1, ResolveSteps(s1, 1, id, false, workspace), s');
  }

  /** A reachable state in which a request is approved, a waiter has not seen it yet and will time out, and a
      second `resolve` has published a denial. */
  lemma ApprovedButDeniedInPublic() returns (s0: State, run: seq<Step>, s: State)
    ensures Init(s0) && Runs(s0, run, s)
    ensures "a" in s.requests && s.requests["a"].allowed
    ensures s.published == [Publication("a", true, Some(0)), Publication("a", false, Some(1))]
    ensures Enabled(s, TimeOut(0)) && Next(s, TimeOut(0)).answers == [Answer("a", Some(false), 1, RanOut)]
  {
    var prefix, s2, more;
    s0, prefix, s2 := OneWaiter();
    more, s := ApproveThenDeny(s2, "a", "w");
    RunsAppend(s0, prefix, s2, more, s);
    run := prefix + more;
  }

  /** A wait for a request that is popped first. */
  lemma PopThenWait(s: State, id: Id, wait: nat) returns (s': State)
    requires s.lock.None? && wait !in s.waits && id in s.requests
    ensures Runs(s, [Cleanup(id), BeginWait(wait, id, true)], s') && s'.requests == s.requests
    ensures s'.answers == s.answers + [Answer(id, Some(false), |s.effects|, NotPending(true))]
  {
    var s1 := Next(s, Cleanup(id));
    s' := Next(s1, BeginWait(wait, id, true));
    RunsOne(s, Cleanup(id));
    RunThen(s, [Cleanup(id)], s1, BeginWait(wait, id, true));
    assert [Cleanup(id)] + [BeginWait(wait, id, true)] == [Cleanup(id), BeginWait(wait, id, true)];
  }

  /** A reachable state in which a request was approved and popped before a wait for it began: the wait answers
      False at once. */
  lemma LateWaitIsRefused() returns (s0: State, run: seq<Step>, s: State)
    ensures Init(s0) && Runs(s0, run, s)
    ensures "a" in s.requests && s.requests["a"].allowed && s.answers == [Answer("a", Some(false), 1, NotPending(true))]
  {
    var prefix, s2;
    s0, prefix, s2 := OneWaiter();
    var first := ResolveSteps(s2, 0, "a", true, "w");
    var s3 := ResolveRuns(s2, 0, "a", true, "w");
    s := PopThenWait(s3, "a", 1);
    RunsAppend(s0, prefix, s2, first, s3);
    RunsAppend(s0, prefix + first, s3, [Cleanup("a"), BeginWait(1, "a", true)], s);
    run := prefix + first + [Cleanup("a"), BeginWait(1, "a", true)];
  }

  /** A reachable state in which a wait for an id that did not exist answered False, and the request of that id
      was created and approved afterwards. */
  lemma EarlyWaitIsRefused() returns (s0: State, run: seq<Step>, s: State)
    ensures Init(s0) && Runs(s0, run, s)
    ensures "a" in s.requests && s.requests["a"].allowed
    ensures s.answers == [Answer("a", Some(false), 0, NotPending(false))]
  {
    s0 := State(map[], {}, None, map[], map[], [], [], []);
    RunThen(s0, [], s0, BeginWait(0, "a", true));
    var s1 := Next(s0, BeginWait(0, "a", true));
    RunThen(s0, [] + [BeginWait(0, "a", true)], s1, Create("a", "w", "", None));
    var s2 := Next(s1, Create("a", "w", "", None));
    s := DecideRuns(s2, 0, "a", true, "w");
    run := [] + [BeginWait(0, "a", true)] + [Create("a", "w", "", None)];
    RunsAppend(s0, run, s2, [BeginResolve(0, "a", true, "w"), WriteAllowed(0), SetEvent(0)], s);
    run := run + [BeginResolve(0, "a", true, "w"), WriteAllowed(0), SetEvent(0)];
  }

  /** A reachable state in which a non-blocking wait read `resolved` and `allowed` between the two writes of an
      approval, and answered False. */
  lemma PollBetweenWritesIsRefused() returns (s0: State, run: seq<Step>, s: State)
    ensures Init(s0) && Runs(s0, run, s)
    ensures "a" in s.requests && s.requests["a"].allowed && s.answers == [Answer("a", Some(false), 0, Polled(Some(0)))]
  {
    var prefix, s2;
    s0, prefix, s2 := OneWaiter();
    var s3 := Next(s2, BeginWait(1, "a", false));
    RunThen(s0, prefix, s2, BeginWait(1, "a", false));
    var s4 := Next(s3, BeginResolve(0, "a", true, "w"));
    RunThen(s0, prefix + [BeginWait(1, "a", false)], s3, BeginResolve(0, "a", true, "w"));
    run := prefix + [BeginWait(1, "a", false)] + [BeginResolve(0, "a", true, "w")];
    s := PollThenWrite(s4);
    RunsAppend(s0, run, s4, [LookResolved(1), LookAllowed(1), WriteAllowed(0)], s);
    run := run + [LookResolved(1), LookAllowed(1), WriteAllowed(0)];
  }

  /** The poll of wait 1 while call 0 is between its writes. */
  lemma PollThenWrite(s: State) returns (s': State)
    requires "a" in s.requests && s.requests["a"].resolved && !s.requests["a"].allowed
    requires s.answers == [] && s.effects == []
    requires s.lock == Some(0) && 0 in s.calls && s.calls[0] == Call("a", true, "w", Marked)
    requires 1 in s.waits && s.waits[1] == Wait("a", Holding(false))
    ensures Runs(s, [LookResolved(1), LookAllowed(1), WriteAllowed(0)], s')
    ensures "a" in s'.requests && s'.requests["a"].allowed
    ensures s'.answers == [Answer("a", Some(false), 0, Polled(Some(0)))]
  {
    var s1 := Next(s, LookResolved(1));
    var s2 := Next(s1, LookAllowed(1));
    s' := Next(s2, WriteAllowed(0));
    RunsOne(s, LookResolved(1));
    RunThen(s, [LookResolved(1)], s1, LookAllowed(1));
    RunThen(s, [LookResolved(1)] + [LookAllowed(1)], s2, WriteAllowed(0));
    assert [LookResolved(1)] + [LookAllowed(1)] + [WriteAllowed(0)]
        == [LookResolved(1), LookAllowed(1), WriteAllowed(0)];
  }
}
