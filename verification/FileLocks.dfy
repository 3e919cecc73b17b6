/** The lock object of storage/locking.py: its methods carry out the actions of the step system one by one,
    and between any two of them the other threads may act. */
module FileLocks {
  import opened Locking
  import opened Wrappers

  lemma {:induction false} RunsSnoc(s: State, run: seq<Action>, s': State, a: Action)
    requires Runs(s, run, s') && Enabled(s', a.tid, a.step)
    ensures Runs(s, run + [a], Next(s', a.tid, a.step))
    decreases |run|
  {
    if run == [] {
      assert (run + [a])[1..] == [];
    } else {
      assert (run + [a])[1..] == run[1..] + [a];
      RunsSnoc(Next(s, run[0].tid, run[0].step), run[1..], s', a);
    }
  }

  /** All processes and threads, the RLocks and the open lock files; `history` is what has happened. */
  class Host {
    var state: State
    /** What the scheduler lets happen next; an action of the waiting thread gives that thread its turn. */
    var schedule: seq<Action>
    /** Above every descriptor in use. */
    var nextFd: nat
    ghost const start: State
    ghost var history: seq<Action>
    /** How often a thread has waited for its turn. */
    ghost var waits: nat

    constructor (threads: map<Tid, Thread>, schedule: seq<Action>)
      requires forall t | t in threads :: threads[t] == Thread(Running, [], map[])
      ensures Valid() && state == State(threads, map[], map[], map[]) && history == []
    {
      state, this.schedule, nextFd := State(threads, map[], map[], map[]), schedule, 0;
      start, history, waits := State(threads, map[], map[], map[]), [], 0;
    }

    /** No other thread is about to act. */
    predicate Quiet(t: Tid) reads this`schedule { forall i :: 0 <= i < |schedule| ==> schedule[i].tid == t }

    ghost predicate Valid()
      reads this
    {
      Init(start) && Runs(start, history, state) && forall fd | fd in state.descriptions :: fd < nextFd
    }

    /** One indivisible action. */
    method Act(t: Tid, step: Step)
      requires Valid() && Enabled(state, t, step)
      modifies this`state, this`nextFd, this`history
      ensures Valid() && state == Next(old(state), t, step) && history == old(history) + [Action(t, step)]
      ensures t in state.threads && state.threads[t] == NextThread(old(state.threads[t]), step)
    {
      RunsSnoc(start, history, state, Action(t, step));
      history := history + [Action(t, step)];
      if step.OpenLockFile? && nextFd <= step.fd { nextFd := step.fd + 1; }
      state := Next(state, t, step);
    }

    /** Anything the other threads do before `t` has its turn. */
    method Others(t: Tid)
      requires Valid() && t in state.threads
      modifies this
      ensures Valid() && t in state.threads && state.threads[t] == old(state.threads[t])
      ensures Grown(old(history), history, t) && waits == old(waits) + 1
      ensures old(Quiet(t)) ==> Quiet(t) && state == old(state)
    {
      waits := waits + 1;
      while schedule != [] && schedule[0].tid != t
        invariant Valid() && t in state.threads && state.threads[t] == old(state.threads[t])
        invariant Grown(old(history), history, t) && waits == old(waits) + 1
        invariant old(Quiet(t)) ==> schedule == old(schedule) && state == old(state)
        decreases |schedule|
      {
        var a := schedule[0];
        schedule := schedule[1..];
        if Enabled(state, a.tid, a.step) { Act(a.tid, a.step); }
      }
      if schedule != [] { schedule := schedule[1..]; }
    }
  }

  /** What was added is not by `t`. */
  ghost predicate Grown(before: seq<Action>, after: seq<Action>, t: Tid) {
    before <= after && forall i | |before| <= i < |after| :: after[i].tid != t
  }

  /** The thread cannot have the RLock or the flock of the path. */
  predicate Barred(s: State, t: Tid, p: Path) { !Free(s.rlocks, t, p) || p in s.os }

  /** In some state of the history from `before` to `after` the thread could not have one of the locks. */
  ghost predicate Blocked(start: State, before: seq<Action>, after: seq<Action>, t: Tid, p: Path) {
    exists now, s :: before <= now <= after && Runs(start, now, s) && Barred(s, t, p)
  }

  /** The RLock of a path that the thread has entered is its own. */
  lemma OwnIsFree(start: State, history: seq<Action>, s: State, t: Tid, p: Path)
    requires Init(start) && Runs(start, history, s) && t in s.threads && s.threads[t].pc.Running?
    ensures HeldCount(s.threads[t], p) > 0 ==> Free(s.rlocks, t, p)
  {
    CountersAgree(start, history, s, t, p);
  }

  lemma BlockedNow(start: State, before: seq<Action>, now: seq<Action>, s: State, t: Tid, p: Path, step: Step)
    requires before <= now && Runs(start, now, s) && Barred(s, t, p)
    ensures Blocked(start, before, now + [Action(t, step)], t, p)
  {
    assert now <= now + [Action(t, step)];
  }

  lemma BlockedMore(start: State, before: seq<Action>, now: seq<Action>, after: seq<Action>, t: Tid, p: Path)
    requires Blocked(start, before, now, t, p) && now <= after
    ensures Blocked(start, before, after, t, p)
  {
  }

  lemma BlockedSince(start: State, before: seq<Action>, now: seq<Action>, after: seq<Action>, t: Tid, p: Path)
    requires Blocked(start, now, after, t, p) && before <= now
    ensures Blocked(start, before, after, t, p)
  {
  }

  class FileLock {
    const path: Path
    /** How often a lock is tried before the timeout. */
    const attempts: nat
    /** The RLock of the path is held through this object. */
    var threadLock: bool
    var fd: Option<nat>
    var reentrant: bool

    constructor (path: Path, attempts: nat)
      ensures this.path == path && this.attempts == attempts && Fresh()
    {
      this.path, this.attempts := path, attempts;
      threadLock, fd, reentrant := false, None, false;
    }

    /** Neither entered nor half entered. */
    predicate Fresh() reads this { !threadLock && fd.None? && !reentrant }

    /** The with-block that the entered object stands for. */
    function Block(): Frame reads this { Frame(path, reentrant, if fd.Some? then fd.value else 0) }

    predicate Entered() reads this { threadLock && (reentrant <==> fd.None?) }

    /** The RLock is tried again and again; a timeout means that somebody else holds it after the last wait. */
    method AcquireThreadLock(host: Host, t: Tid) returns (ok: bool)
      requires host.Valid() && t in host.state.threads && host.state.threads[t].pc.Running?
      modifies host
      ensures host.Valid() && t in host.state.threads && old(host.history) < host.history
      ensures host.state.threads[t] == (if ok then old(host.state.threads[t]).(pc := GotThreadLock(path))
                                        else old(host.state.threads[t]))
      ensures !ok ==> host.waits > old(host.waits) + attempts
      ensures !ok ==> Blocked(host.start, old(host.history), host.history, t, path)
      ensures old(HeldCount(host.state.threads[t], path)) > 0 ==> ok
      ensures old(host.Quiet(t) && Free(host.state.rlocks, t, path)) ==>
        ok && host.Quiet(t) && host.state.os == old(host.state.os)
    {
      host.Others(t);
      var k := 0;
      while !Free(host.state.rlocks, t, path) && k < attempts
        invariant host.Valid() && t in host.state.threads && host.state.threads[t] == old(host.state.threads[t])
        invariant old(host.history) <= host.history && host.waits == old(host.waits) + 1 + k && k <= attempts
        invariant old(host.Quiet(t)) ==> host.Quiet(t) && host.state == old(host.state)
        decreases attempts - k
      {
        host.Others(t);
        k := k + 1;
      }
      OwnIsFree(host.start, host.history, host.state, t, path);
      ok := Free(host.state.rlocks, t, path);
      if !ok { BlockedNow(host.start, old(host.history), host.history, host.state, t, path, ThreadLockTimeout(path)); }
      host.Act(t, if ok then Step.AcquireThreadLock(path) else ThreadLockTimeout(path));
    }

    /** `_acquire_process_lock`; `refused`: the system refuses the lock, whoever holds it. Otherwise a timeout means
        that somebody holds it after the last wait. */
    method AcquireProcessLock(host: Host, t: Tid, fileFd: nat, refused: bool) returns (ok: bool)
      requires host.Valid() && t in host.state.threads && host.state.threads[t].pc == Opened(path, fileFd)
      modifies host
      ensures host.Valid() && t in host.state.threads && old(host.history) < host.history
      ensures host.state.threads[t] ==
              old(host.state.threads[t]).(pc := if ok then Flocked(path, fileFd) else Failed(path, Some(fileFd)))
      ensures !ok ==> host.waits > old(host.waits) + attempts
      ensures ok ==> !refused
      ensures !ok && !refused ==> Blocked(host.start, old(host.history), host.history, t, path)
      ensures old(host.Quiet(t) && path !in host.state.os) && !refused ==> ok
    {
      host.Others(t);
      var k := 0;
      while (refused || path in host.state.os) && k < attempts
        invariant host.Valid() && t in host.state.threads && host.state.threads[t] == old(host.state.threads[t])
        invariant old(host.history) <= host.history && host.waits == old(host.waits) + 1 + k && k <= attempts
        invariant old(host.Quiet(t)) ==> host.Quiet(t) && host.state == old(host.state)
        decreases attempts - k
      {
        host.Others(t);
        k := k + 1;
      }
      ok := !refused && path !in host.state.os;
      if !ok && !refused {
        BlockedNow(host.start, old(host.history), host.history, host.state, t, path, FlockTimeout(refused));
      }
      host.Act(t, if ok then Flock else FlockTimeout(refused));
    }

    /** The `except` of `__enter__`: everything taken is given back. */
    method GiveBack(host: Host, t: Tid)
      requires host.Valid() && t in host.state.threads && host.state.threads[t].pc.Failed?
      modifies this, host
      ensures host.Valid() && t in host.state.threads
      ensures host.state.threads[t] == old(host.state.threads[t]).(pc := Running)
      ensures fd.None? && !threadLock && reentrant == old(reentrant) && old(host.history) <= host.history
    {
      host.Others(t);
      host.Act(t, CloseAfterFailure);
      fd := None;
      host.Others(t);
      host.Act(t, ReleaseThreadLock);
      threadLock := false;
    }

    /** The outermost block on a path: open the lock file, lock it, start counting. */
    method OpenAndLock(host: Host, t: Tid, openable: bool, refused: bool) returns (ok: bool)
      requires host.Valid() && t in host.state.threads && threadLock && fd.None? && !reentrant
      requires host.state.threads[t].pc == GotThreadLock(path) && HeldCount(host.state.threads[t], path) == 0
      modifies this, host
      ensures host.Valid() && t in host.state.threads && !reentrant && old(host.history) <= host.history
      ensures ok ==> threadLock && fd.Some?
      ensures ok ==> host.state.threads[t] ==
                     Thread(Running, old(host.state.threads[t]).frames + [Frame(path, false, fd.value)],
                            old(host.state.threads[t]).held[path := 1])
      ensures !ok ==> Fresh() && host.state.threads[t] == old(host.state.threads[t]).(pc := Running)
      ensures !ok && openable && !refused ==> Blocked(host.start, old(host.history), host.history, t, path)
      ensures old(host.Quiet(t) && path !in host.state.os) && openable && !refused ==> ok
    {
      if !openable {
        host.Act(t, OpenFails);
        GiveBack(host, t);
        return false;
      }
      fd := Some(host.nextFd);
      host.Act(t, OpenLockFile(host.nextFd));
      ok := LockOpened(host, t, refused);
    }

    /** ... once the file is open. */
    method LockOpened(host: Host, t: Tid, refused: bool) returns (ok: bool)
      requires host.Valid() && t in host.state.threads && threadLock && fd.Some? && !reentrant
      requires host.state.threads[t].pc == Opened(path, fd.value)
      modifies this, host
      ensures host.Valid() && t in host.state.threads && !reentrant && old(host.history) <= host.history
      ensures ok ==> threadLock && fd == old(fd)
      ensures ok ==> host.state.threads[t] ==
                     Thread(Running, old(host.state.threads[t]).frames + [Frame(path, false, fd.value)],
                            old(host.state.threads[t]).held[path := 1])
      ensures !ok ==> Fresh() && host.state.threads[t] == old(host.state.threads[t]).(pc := Running)
      ensures !ok && !refused ==> Blocked(host.start, old(host.history), host.history, t, path)
      ensures old(host.Quiet(t) && path !in host.state.os) && !refused ==> ok
    {
      ok := AcquireProcessLock(host, t, fd.value, refused);
      ghost var atTimeout := host.history;
      if ok {
        host.Others(t);
        host.Act(t, SetHeld);
      } else {
        GiveBack(host, t);
        if !refused { BlockedMore(host.start, old(host.history), atTimeout, host.history, t, path); }
      }
    }

    /** Once the RLock is held: one level deeper, or the outermost block. */
    method OpenBlock(host: Host, t: Tid, openable: bool, refused: bool) returns (ok: bool)
      requires host.Valid() && t in host.state.threads && threadLock && fd.None? && !reentrant
      requires host.state.threads[t].pc == GotThreadLock(path)
      modifies this, host
      ensures host.Valid() && t in host.state.threads && old(host.history) <= host.history
      ensures ok ==> Entered() && host.state.threads[t] == InBlock(old(host.state.threads[t]), Block())
      ensures !ok ==> Fresh() && host.state.threads[t] == old(host.state.threads[t]).(pc := Running)
      ensures old(HeldCount(host.state.threads[t], path)) > 0 ==> ok
      ensures !ok && openable && !refused ==> Blocked(host.start, old(host.history), host.history, t, path)
      ensures old(host.Quiet(t) && path !in host.state.os) && openable && !refused ==> ok
    {
      host.Others(t);
      ghost var before := host.history;
      if HeldCount(host.state.threads[t], path) > 0 {
        host.Act(t, EnterReentrant);
        reentrant := true;
        ok := true;
      } else {
        ok := OpenAndLock(host, t, openable, refused);
        if !ok && openable && !refused { BlockedSince(host.start, old(host.history), before, host.history, t, path); }
      }
    }

    /** `__enter__`; `openable`: whether the lock file can be opened, `refused`: whether the system refuses to lock
        it. When it succeeds, its block is open and no other thread is inside a block on the path; when it fails, the
        thread is as it was, and unless the file or the system is to blame, another thread had one of the locks at
        some moment of the call. Alone and with free locks it succeeds, and nested it always does. */
    method Enter(host: Host, t: Tid, openable: bool, refused: bool) returns (ok: bool)
      requires host.Valid() && t in host.state.threads && host.state.threads[t].pc.Running? && Fresh()
      modifies this, host
      ensures host.Valid() && t in host.state.threads && old(host.history) <= host.history
      ensures ok ==> Entered() && host.state.threads[t] == InBlock(old(host.state.threads[t]), Block())
      ensures ok ==> forall u :: Inside(host.state, u, path) ==> u == t
      ensures !ok ==> Fresh() && host.state.threads[t] == old(host.state.threads[t])
      ensures !ok && openable && !refused ==> Blocked(host.start, old(host.history), host.history, t, path)
      ensures old(HeldCount(host.state.threads[t], path)) > 0 ==> ok
      ensures openable && !refused ==>
        (old(host.Quiet(t) && Free(host.state.rlocks, t, path) && path !in host.state.os) ==> ok)
    {
      var acquired := AcquireThreadLock(host, t);
      if !acquired { return false; }
      threadLock := true;
      ghost var before := host.history;
      ok := OpenBlock(host, t, openable, refused);
      if ok { Alone(host.start, host.history, host.state, t, path); }
      else if openable && !refused { BlockedSince(host.start, old(host.history), before, host.history, t, path); }
    }

    /** The last thing `__exit__` does. */
    method Release(host: Host, t: Tid)
      requires host.Valid() && t in host.state.threads && host.state.threads[t].pc.Releasing?
      modifies this`threadLock, this`reentrant, host
      ensures host.Valid() && t in host.state.threads
      ensures host.state.threads[t] == old(host.state.threads[t]).(pc := Running)
      ensures !threadLock && !reentrant
    {
      host.Others(t);
      host.Act(t, ReleaseThreadLock);
      threadLock, reentrant := false, false;
    }

    /** The `finally` of `__exit__`: the hold count goes, then the descriptor. */
    method PopAndClose(host: Host, t: Tid)
      requires host.Valid() && t in host.state.threads && host.state.threads[t].pc.Unlocked?
      modifies this`fd, host
      ensures host.Valid() && t in host.state.threads && fd.None?
      ensures var th := old(host.state.threads[t]);
              host.state.threads[t] == Thread(Releasing(th.pc.path), th.frames, th.held - {th.pc.path})
    {
      host.Others(t);
      host.Act(t, PopHeld);
      host.Others(t);
      host.Act(t, CloseLockFile);
      fd := None;
    }

    /** What `__exit__` does before the RLock goes back. */
    method LeaveBlock(host: Host, t: Tid, granted: bool)
      requires host.Valid() && t in host.state.threads && host.state.threads[t].pc.Running? && Entered()
      requires InnermostIs(host.state.threads[t], Block())
      modifies this`fd, host
      ensures host.Valid() && t in host.state.threads && fd.None?
      ensures host.state.threads[t] == old(Left(host.state.threads[t], path, reentrant)).(pc := Releasing(path))
    {
      if reentrant {
        host.Act(t, ExitReentrant);
      } else {
        host.Act(t, ReleaseFlock(granted));
        PopAndClose(host, t);
      }
    }

    /** `__exit__` of the innermost open block; `granted`: whether the system accepts the unlock. */
    method Exit(host: Host, t: Tid, granted: bool)
      requires host.Valid() && t in host.state.threads && host.state.threads[t].pc.Running? && Entered()
      requires InnermostIs(host.state.threads[t], Block())
      modifies this, host
      ensures host.Valid() && t in host.state.threads && Fresh()
      ensures host.state.threads[t] == old(Left(host.state.threads[t], path, reentrant))
    {
      LeaveBlock(host, t, granted);
      Release(host, t);
    }
  }

  predicate InnermostIs(th: Thread, f: Frame) { th.frames != [] && th.frames[|th.frames| - 1] == f }

  /** The thread with one more block open. */
  function InBlock(th: Thread, f: Frame): Thread {
    Thread(Running, th.frames + [f], th.held[f.path := HeldCount(th, f.path) + 1])
  }

  /** The thread after leaving its innermost block. */
  function Left(th: Thread, p: Path, reentrant: bool): Thread
    requires th.frames != []
  {
    Thread(Running, th.frames[..|th.frames| - 1],
           if !reentrant then th.held - {p}
           else th.held[p := if HeldCount(th, p) == 0 then 0 else HeldCount(th, p) - 1])
  }

  /** Leaving a block undoes entering it. */
  lemma ExitUndoesEnter(th: Thread, f: Frame)
    requires th.pc.Running? && (f.reentrant <==> HeldCount(th, f.path) > 0)
    requires f.path in th.held ==> th.held[f.path] > 0
    ensures Left(InBlock(th, f), f.path, f.reentrant) == th
  {
    assert (th.frames + [f])[..|th.frames|] == th.frames;
    assert th.held[f.path := HeldCount(th, f.path) + 1] - {f.path} == th.held - {f.path};
  }

  lemma Alone(start: State, history: seq<Action>, s: State, t: Tid, p: Path)
    requires Init(start) && Runs(start, history, s) && t in s.threads
    requires s.threads[t].frames != [] && s.threads[t].frames[|s.threads[t].frames| - 1].path == p
    ensures Inside(s, t, p) && forall u :: Inside(s, u, p) ==> u == t
  {
    forall u | Inside(s, u, p) ensures u == t { MutualExclusion(start, history, s, u, t, p); }
  }
}
