/** The re-entrant lock of storage/locking.py as a step system.

    Any number of processes and threads run `with FileLock(path)` blocks.  Each
    constructor of `Step` is one indivisible action of `__enter__` or `__exit__`;
    a run interleaves the actions of all threads in any order. */
module Locking {
  import opened Wrappers

  type Path = string

  datatype Tid = Tid(process: nat, thread: nat)

  /** An entered with-block. `fd` is meaningful only for the outermost one on its path. */
  datatype Frame = Frame(path: Path, reentrant: bool, fd: nat)

  /** Where a thread stands inside `__enter__` or `__exit__`. */
  datatype Pc =
    | Running                               // outside both methods
    | GotThreadLock(path: Path)             // RLock acquired, hold count not yet read
    | Opened(path: Path, fd: nat)           // lock file open, flock not yet granted
    | Flocked(path: Path, fd: nat)          // flock granted, hold count not yet set
    | Failed(path: Path, open: Option<nat>) // an exception is unwinding `__enter__`
    | Unlocked(path: Path, fd: nat)         // `_release_process_lock` returned
    | Popped(path: Path, fd: nat)           // hold count removed, descriptor still open
    | Releasing(path: Path)                 // only the RLock release is left

  /** One thread: its position, its open with-blocks, its thread-local `held` dict. */
  datatype Thread = Thread(pc: Pc, frames: seq<Frame>, held: map<Path, nat>)

  /** A held RLock. */
  datatype Hold = Hold(owner: Tid, depth: nat)

  /** The RLock tables of all processes; an absent key is a free lock. */
  type Rlocks = map<(nat, Path), Hold>

  /** An open file description: who opened it and on which lock file. */
  datatype Description = Description(owner: Tid, path: Path)

  /** `os` maps a locked path to the description that holds its flock. */
  datatype State = State(
    threads: map<Tid, Thread>,
    rlocks: Rlocks,
    os: map<Path, nat>,
    descriptions: map<nat, Description>)

  datatype Step =
    | AcquireThreadLock(path: Path)
    | ThreadLockTimeout(path: Path)
    | EnterReentrant
    | OpenLockFile(fd: nat)
    | OpenFails
    | Flock
    | FlockTimeout(refused: bool)           // held by somebody, or refused by the system for another reason
    | SetHeld
    | CloseAfterFailure
    | ExitReentrant
    | ReleaseFlock(granted: bool)
    | PopHeld
    | CloseLockFile
    | ReleaseThreadLock

  // ------------------------------------------------------------------- RLocks

  /** The levels of the RLock for `p` that `t` holds. */
  function HoldDepth(locks: Rlocks, t: Tid, p: Path): nat {
    if (t.process, p) in locks && locks[(t.process, p)].owner == t then locks[(t.process, p)].depth else 0
  }

  /** RLock.acquire succeeds on a free lock and on one's own. */
  predicate Free(locks: Rlocks, t: Tid, p: Path) {
    (t.process, p) in locks ==> locks[(t.process, p)].owner == t
  }

  function Acquired(locks: Rlocks, t: Tid, p: Path): Rlocks {
    locks[(t.process, p) := Hold(t, HoldDepth(locks, t, p) + 1)]
  }

  /** RLock.release: the lock becomes free when its depth reaches zero. */
  function Released(locks: Rlocks, t: Tid, p: Path): Rlocks {
    var depth := HoldDepth(locks, t, p);
    if depth <= 1 then locks - {(t.process, p)} else locks[(t.process, p) := Hold(t, depth - 1)]
  }

  // ------------------------------------------------------------ the actions

  function HeldCount(th: Thread, p: Path): nat {
    if p in th.held then th.held[p] else 0
  }

  predicate HasTop(th: Thread, reentrant: bool) {
    |th.frames| > 0 && th.frames[|th.frames| - 1].reentrant == reentrant
  }

  /** The thread stands where `step` is its next action. */
  predicate Ready(th: Thread, step: Step) {
    match step
    case AcquireThreadLock(_) => th.pc.Running?
    case ThreadLockTimeout(_) => th.pc.Running?
    case EnterReentrant => th.pc.GotThreadLock? && HeldCount(th, th.pc.path) > 0
    case OpenLockFile(_) => th.pc.GotThreadLock? && HeldCount(th, th.pc.path) == 0
    case OpenFails => th.pc.GotThreadLock? && HeldCount(th, th.pc.path) == 0
    case Flock => th.pc.Opened?
    case FlockTimeout(_) => th.pc.Opened?
    case SetHeld => th.pc.Flocked?
    case CloseAfterFailure => th.pc.Failed?
    case ExitReentrant => th.pc.Running? && HasTop(th, true)
    case ReleaseFlock(_) => th.pc.Running? && HasTop(th, false)
    case PopHeld => th.pc.Unlocked?
    case CloseLockFile => th.pc.Popped?
    case ReleaseThreadLock => th.pc.Releasing?
  }

  predicate Enabled(s: State, t: Tid, step: Step) {
    && t in s.threads
    && Ready(s.threads[t], step)
    && match step
       case AcquireThreadLock(p) => Free(s.rlocks, t, p)
       case ThreadLockTimeout(p) => !Free(s.rlocks, t, p)
       case OpenLockFile(fd) => fd !in s.descriptions
       case Flock => s.threads[t].pc.path !in s.os
       case FlockTimeout(refused) => refused || s.threads[t].pc.path in s.os
       case _ => true
  }

  function NextThread(th: Thread, step: Step): Thread
    requires Ready(th, step)
  {
    var top := |th.frames| - 1;
    match step
    case AcquireThreadLock(p) => th.(pc := GotThreadLock(p))
    case ThreadLockTimeout(_) => th
    case EnterReentrant =>
      var p := th.pc.path;
      Thread(Running, th.frames + [Frame(p, true, 0)], th.held[p := HeldCount(th, p) + 1])
    case OpenLockFile(fd) => th.(pc := Opened(th.pc.path, fd))
    case OpenFails => th.(pc := Failed(th.pc.path, None))
    case Flock => th.(pc := Flocked(th.pc.path, th.pc.fd))
    case FlockTimeout(_) => th.(pc := Failed(th.pc.path, Some(th.pc.fd)))
    case SetHeld =>
      Thread(Running, th.frames + [Frame(th.pc.path, false, th.pc.fd)], th.held[th.pc.path := 1])
    case CloseAfterFailure => th.(pc := Releasing(th.pc.path))
    case ExitReentrant =>
      var p := th.frames[top].path;
      Thread(Releasing(p), th.frames[..top], th.held[p := if HeldCount(th, p) == 0 then 0 else HeldCount(th, p) - 1])
    case ReleaseFlock(_) =>
      Thread(Unlocked(th.frames[top].path, th.frames[top].fd), th.frames[..top], th.held)
    case PopHeld => Thread(Popped(th.pc.path, th.pc.fd), th.frames, th.held - {th.pc.path})
    case CloseLockFile => th.(pc := Releasing(th.pc.path))
    case ReleaseThreadLock => th.(pc := Running)
  }

  function NextRlocks(locks: Rlocks, t: Tid, th: Thread, step: Step): Rlocks
    requires Ready(th, step)
  {
    match step
    case AcquireThreadLock(p) => Acquired(locks, t, p)
    case ReleaseThreadLock => Released(locks, t, th.pc.path)
    case _ => locks
  }

  /** The lock-file descriptor that `step` closes. */
  function ClosedFd(th: Thread, step: Step): Option<nat>
    requires Ready(th, step)
  {
    match step
    case CloseAfterFailure => th.pc.open
    case CloseLockFile => Some(th.pc.fd)
    case _ => None
  }

  function NextDescriptions(ds: map<nat, Description>, t: Tid, th: Thread, step: Step): map<nat, Description>
    requires Ready(th, step)
  {
    match step
    case OpenLockFile(fd) => ds[fd := Description(t, th.pc.path)]
    case CloseAfterFailure => if th.pc.open.Some? then ds - {th.pc.open.value} else ds
    case CloseLockFile => ds - {th.pc.fd}
    case _ => ds
  }

  function Unflock(os: map<Path, nat>, p: Path, fd: nat): map<Path, nat> {
    if p in os && os[p] == fd then os - {p} else os
  }

  /** An unlock the system refuses is swallowed; the close drops whatever flock the description still has. */
  function NextOs(os: map<Path, nat>, th: Thread, step: Step): map<Path, nat>
    requires Ready(th, step)
  {
    match step
    case Flock => os[th.pc.path := th.pc.fd]
    case ReleaseFlock(granted) =>
      var f := th.frames[|th.frames| - 1];
      if granted then Unflock(os, f.path, f.fd) else os
    case CloseAfterFailure => if th.pc.open.Some? then Unflock(os, th.pc.path, th.pc.open.value) else os
    case CloseLockFile => Unflock(os, th.pc.path, th.pc.fd)
    case _ => os
  }

  function Next(s: State, t: Tid, step: Step): State
    requires Enabled(s, t, step)
  {
    var th := s.threads[t];
    State(s.threads[t := NextThread(th, step)],
          NextRlocks(s.rlocks, t, th, step),
          NextOs(s.os, th, step),
          NextDescriptions(s.descriptions, t, th, step))
  }

  /** No thread has entered anything yet. */
  ghost predicate Init(s: State) {
    && s.rlocks == map[] && s.os == map[] && s.descriptions == map[]
    && forall t | t in s.threads :: s.threads[t] == Thread(Running, [], map[])
  }

  datatype Action = Action(tid: Tid, step: Step)

  /** `s'` is reached from `s` by the interleaving `run`. */
  ghost predicate Runs(s: State, run: seq<Action>, s': State)
    decreases |run|
  {
    if run == [] then s == s'
    else Enabled(s, run[0].tid, run[0].step) && Runs(Next(s, run[0].tid, run[0].step), run[1..], s')
  }

  /** The number of open with-blocks on `p`. */
  function Count(frames: seq<Frame>, p: Path): nat {
    if frames == [] then 0
    else Count(frames[..|frames| - 1], p) + if frames[|frames| - 1].path == p then 1 else 0
  }

  /** Inside the protected section of `p`: some with-block on `p` is open. */
  predicate Inside(s: State, t: Tid, p: Path) {
    t in s.threads && Count(s.threads[t].frames, p) > 0
  }

  // ---------------------------------------------------------------- invariant

  /** The thread holds one RLock level for `p` on behalf of its unfinished method. */
  predicate Busy(pc: Pc, p: Path) { !pc.Running? && pc.path == p }

  function Depth(th: Thread, p: Path): nat {
    Count(th.frames, p) + if Busy(th.pc, p) then 1 else 0
  }

  /** The `held` entry outlives the outermost block by one step of `__exit__`. */
  predicate HeldOk(th: Thread, p: Path) {
    HeldCount(th, p) == Count(th.frames, p) + if th.pc.Unlocked? && th.pc.path == p then 1 else 0
  }

  /** `fd` is the description of the outermost block on `p`, or of one being entered or left. */
  predicate UsesFd(th: Thread, p: Path, fd: nat) {
    || Frame(p, false, fd) in th.frames
    || th.pc == Opened(p, fd) || th.pc == Flocked(p, fd) || th.pc == Failed(p, Some(fd))
    || th.pc == Unlocked(p, fd) || th.pc == Popped(p, fd)
  }

  /** The states of `th` in which its flock on `p` is certainly granted. */
  predicate OwnsFlock(th: Thread, p: Path, fd: nat) {
    Frame(p, false, fd) in th.frames || th.pc == Flocked(p, fd)
  }

  /** The states of `th` in which `fd` may hold the flock: a failed unlock keeps it until the close. */
  predicate HoldsFlock(th: Thread, p: Path, fd: nat) {
    OwnsFlock(th, p, fd) || th.pc == Unlocked(p, fd) || th.pc == Popped(p, fd)
  }

  /** What holds of a thread by itself: the first block on each path, and only that one, is
      outermost, and between opening and closing a lock file no block on its path is open. */
  ghost predicate LocalOk(th: Thread) {
    && (forall i :: 0 <= i < |th.frames| ==>
          (th.frames[i].reentrant <==> Count(th.frames[..i], th.frames[i].path) > 0))
    && (forall p :: HeldOk(th, p))
    && (th.pc.Opened? || th.pc.Flocked? || th.pc.Failed? || th.pc.Unlocked? || th.pc.Popped? ==>
          Count(th.frames, th.pc.path) == 0)
  }

  ghost predicate DepthOk(locks: Rlocks, t: Tid, th: Thread) {
    forall p :: HoldDepth(locks, t, p) == Depth(th, p)
  }

  ghost predicate DescriptionsOk(ds: map<nat, Description>, t: Tid, th: Thread) {
    forall p, fd: nat :: UsesFd(th, p, fd) ==> fd in ds && ds[fd] == Description(t, p)
  }

  ghost predicate FlocksOk(os: map<Path, nat>, th: Thread) {
    forall p, fd: nat :: OwnsFlock(th, p, fd) ==> p in os && os[p] == fd
  }

  ghost predicate ThreadOk(s: State, t: Tid)
    requires t in s.threads
  {
    var th := s.threads[t];
    LocalOk(th) && DepthOk(s.rlocks, t, th) && DescriptionsOk(s.descriptions, t, th) && FlocksOk(s.os, th)
  }

  /** A granted flock belongs to a live description of a thread that is in, entering or leaving the section. */
  ghost predicate FlockHolderOk(s: State, p: Path)
    requires p in s.os
  {
    && s.os[p] in s.descriptions
    && var d := s.descriptions[s.os[p]];
       d.path == p && d.owner in s.threads && HoldsFlock(s.threads[d.owner], p, s.os[p])
  }

  /** No lock file stays open without a block that will close it. */
  ghost predicate DescriptionUsed(s: State, fd: nat)
    requires fd in s.descriptions
  {
    var d := s.descriptions[fd];
    d.owner in s.threads && UsesFd(s.threads[d.owner], d.path, fd)
  }

  ghost predicate HoldOk(s: State, k: (nat, Path))
    requires k in s.rlocks
  {
    s.rlocks[k].owner in s.threads && s.rlocks[k].owner.process == k.0 && s.rlocks[k].depth > 0
  }

  ghost predicate Inv(s: State) {
    && (forall t | t in s.threads :: ThreadOk(s, t))
    && (forall p | p in s.os :: FlockHolderOk(s, p))
    && (forall fd | fd in s.descriptions :: DescriptionUsed(s, fd))
    && (forall k | k in s.rlocks :: HoldOk(s, k))
  }

  // -------------------------------------------------- the invariant is kept

  lemma CountPush(frames: seq<Frame>, f: Frame, p: Path)
    ensures Count(frames + [f], p) == Count(frames, p) + if f.path == p then 1 else 0
  {
    assert (frames + [f])[..|frames|] == frames;
  }

  lemma CountPositive(frames: seq<Frame>, i: nat)
    requires i < |frames|
    ensures Count(frames, frames[i].path) > 0
  {
    if i < |frames| - 1 {
      assert frames[..|frames| - 1][i] == frames[i];
      CountPositive(frames[..|frames| - 1], i);
    }
  }

  /** How a step moves the number of blocks that count as open on `p`. */
  lemma CountAfter(th: Thread, step: Step, p: Path)
    requires Ready(th, step)
    ensures Count(NextThread(th, step).frames, p) ==
            if (step.EnterReentrant? || step.SetHeld?) && th.pc.path == p then Count(th.frames, p) + 1
            else if (step.ExitReentrant? || step.ReleaseFlock?) && th.frames[|th.frames| - 1].path == p
            then Count(th.frames, p) - 1
            else Count(th.frames, p)
  {
    if step.EnterReentrant? { CountPush(th.frames, Frame(th.pc.path, true, 0), p); }
    if step.SetHeld? { CountPush(th.frames, Frame(th.pc.path, false, th.pc.fd), p); }
  }

  lemma HeldKept(th: Thread, step: Step, p: Path)
    requires Ready(th, step) && LocalOk(th)
    ensures HeldOk(NextThread(th, step), p)
  {
    assert HeldOk(th, p);
    CountAfter(th, step, p);
  }

  lemma LocalKept(th: Thread, step: Step)
    requires Ready(th, step) && LocalOk(th)
    ensures LocalOk(NextThread(th, step))
  {
    var th' := NextThread(th, step);
    if !th.pc.Running? { assert HeldOk(th, th.pc.path); }
    forall p ensures HeldOk(th', p) { HeldKept(th, step, p); }
    forall i | 0 <= i < |th'.frames|
      ensures th'.frames[i].reentrant <==> Count(th'.frames[..i], th'.frames[i].path) > 0
    {
      if i < |th.frames| { assert th'.frames[..i] == th.frames[..i]; }
      else { assert th'.frames[..i] == th.frames; }
    }
  }

  /** Only AcquireThreadLock and ReleaseThreadLock move an RLock, and only the actor's hold on one path. */
  lemma HoldDepthAfter(locks: Rlocks, t: Tid, th: Thread, step: Step, u: Tid, p: Path)
    requires Ready(th, step)
    requires step.AcquireThreadLock? ==> Free(locks, t, step.path)
    requires step.ReleaseThreadLock? ==> HoldDepth(locks, t, th.pc.path) > 0
    ensures HoldDepth(NextRlocks(locks, t, th, step), u, p) ==
            if u == t && step == AcquireThreadLock(p) then HoldDepth(locks, u, p) + 1
            else if u == t && step.ReleaseThreadLock? && th.pc.path == p then HoldDepth(locks, u, p) - 1
            else HoldDepth(locks, u, p)
  {
  }

  lemma DepthKept(locks: Rlocks, t: Tid, th: Thread, step: Step, u: Tid, other: Thread)
    requires Ready(th, step) && DepthOk(locks, t, th) && DepthOk(locks, u, other)
    requires step.AcquireThreadLock? ==> Free(locks, t, step.path)
    ensures u != t ==> DepthOk(NextRlocks(locks, t, th, step), u, other)
    ensures DepthOk(NextRlocks(locks, t, th, step), t, NextThread(th, step))
  {
    var locks' := NextRlocks(locks, t, th, step);
    if step.ReleaseThreadLock? { assert HoldDepth(locks, t, th.pc.path) == Depth(th, th.pc.path); }
    forall p ensures HoldDepth(locks', t, p) == Depth(NextThread(th, step), p) {
      assert HoldDepth(locks, t, p) == Depth(th, p);
      HoldDepthAfter(locks, t, th, step, t, p);
      CountAfter(th, step, p);
    }
    if u != t {
      forall p ensures HoldDepth(locks', u, p) == Depth(other, p) { HoldDepthAfter(locks, t, th, step, u, p); }
    }
  }

  /** The descriptor a step closes is used by no other thread and by nothing else of the actor. */
  lemma ClosedIsUnused(s: State, t: Tid, step: Step, u: Tid, p: Path, fd: nat)
    requires Enabled(s, t, step) && ThreadOk(s, t) && u in s.threads && ThreadOk(s, u)
    requires ClosedFd(s.threads[t], step) == Some(fd)
    ensures u != t ==> !UsesFd(s.threads[u], p, fd)
    ensures !UsesFd(NextThread(s.threads[t], step), p, fd)
    ensures fd in s.descriptions && s.descriptions[fd].path == s.threads[t].pc.path
  {
    var th := s.threads[t];
    assert UsesFd(th, th.pc.path, fd);
    if Frame(p, false, fd) in th.frames {
      var i :| 0 <= i < |th.frames| && th.frames[i] == Frame(p, false, fd);
      CountPositive(th.frames, i);
      assert UsesFd(th, p, fd);
    }
  }

  lemma DescriptionsKept(s: State, t: Tid, step: Step, u: Tid)
    requires Enabled(s, t, step) && ThreadOk(s, t) && u in s.threads && ThreadOk(s, u)
    ensures DescriptionsOk(Next(s, t, step).descriptions, u, Next(s, t, step).threads[u])
  {
    var ds' := Next(s, t, step).descriptions;
    var th' := Next(s, t, step).threads[u];
    forall p, fd: nat | UsesFd(th', p, fd) ensures fd in ds' && ds'[fd] == Description(u, p) {
      assert UsesFd(s.threads[u], p, fd) || (u == t && step == OpenLockFile(fd));
      if ClosedFd(s.threads[t], step) == Some(fd) { ClosedIsUnused(s, t, step, u, p, fd); }
    }
  }

  /** A step removes a flock only from the section its own thread is leaving. */
  lemma OsAfter(s: State, t: Tid, step: Step, p: Path)
    requires Enabled(s, t, step) && p in s.os
    ensures p in Next(s, t, step).os ==> Next(s, t, step).os[p] == s.os[p]
    ensures p !in Next(s, t, step).os ==>
              || (step.ReleaseFlock? && s.threads[t].frames[|s.threads[t].frames| - 1] == Frame(p, false, s.os[p]))
              || ClosedFd(s.threads[t], step) == Some(s.os[p])
  {
  }

  lemma FlocksKept(s: State, t: Tid, step: Step, u: Tid)
    requires Enabled(s, t, step) && ThreadOk(s, t) && u in s.threads && ThreadOk(s, u)
    ensures FlocksOk(Next(s, t, step).os, Next(s, t, step).threads[u])
  {
    var th := s.threads[t];
    var th' := Next(s, t, step).threads[u];
    forall p, fd: nat | OwnsFlock(th', p, fd) ensures p in Next(s, t, step).os && Next(s, t, step).os[p] == fd {
      if OwnsFlock(s.threads[u], p, fd) {
        OsAfter(s, t, step, p);
        assert UsesFd(s.threads[u], p, fd);
        if ClosedFd(th, step) == Some(fd) { ClosedIsUnused(s, t, step, u, p, fd); }
        if step.ReleaseFlock? { LastBlockIsAlone(s, t, u, p, fd, th'); }
      }
    }
  }

  /** The block a thread leaves with ReleaseFlock is the only one that uses its descriptor. */
  lemma LastBlockIsAlone(s: State, t: Tid, u: Tid, p: Path, fd: nat, th': Thread)
    requires t in s.threads && u in s.threads && ThreadOk(s, t) && ThreadOk(s, u)
    requires Ready(s.threads[t], ReleaseFlock(true))
    requires OwnsFlock(th', p, fd) && UsesFd(s.threads[u], p, fd)
    requires if u == t then th' == NextThread(s.threads[t], ReleaseFlock(true)) else th' == s.threads[u]
    ensures s.threads[t].frames[|s.threads[t].frames| - 1] != Frame(p, false, fd)
  {
    var th := s.threads[t];
    var top := |th.frames| - 1;
    if th.frames[top] == Frame(p, false, fd) {
      assert UsesFd(th, p, fd);
      assert u == t;
      var i :| 0 <= i < top && th.frames[..top][i] == Frame(p, false, fd);
      CountPositive(th.frames[..top], i);
    }
  }

  lemma HolderKept(os: map<Path, nat>, th: Thread, step: Step, p: Path, fd: nat)
    requires Ready(th, step) && HoldsFlock(th, p, fd)
    requires p in os && os[p] == fd && p in NextOs(os, th, step)
    ensures HoldsFlock(NextThread(th, step), p, fd)
  {
    if step.ReleaseFlock? || step.ExitReentrant? {
      var top := |th.frames| - 1;
      assert th.frames == th.frames[..top] + [th.frames[top]];
    }
  }

  lemma FlockHolderKept(s: State, t: Tid, step: Step, p: Path)
    requires Enabled(s, t, step) && ThreadOk(s, t) && p in Next(s, t, step).os
    requires p in s.os ==> FlockHolderOk(s, p) && ThreadOk(s, s.descriptions[s.os[p]].owner)
    ensures FlockHolderOk(Next(s, t, step), p)
  {
    var th := s.threads[t];
    if p in s.os {
      var fd := s.os[p];
      var u := s.descriptions[fd].owner;
      OsAfter(s, t, step, p);
      if u == t { HolderKept(s.os, th, step, p, fd); }
      DescriptionsKept(s, t, step, u);
      assert UsesFd(Next(s, t, step).threads[u], p, fd);
    } else {
      assert UsesFd(th, p, th.pc.fd);
    }
  }

  lemma UseKept(th: Thread, step: Step, p: Path, fd: nat)
    requires Ready(th, step) && UsesFd(th, p, fd) && ClosedFd(th, step) != Some(fd)
    ensures UsesFd(NextThread(th, step), p, fd)
  {
    if step.ReleaseFlock? || step.ExitReentrant? {
      var top := |th.frames| - 1;
      assert th.frames == th.frames[..top] + [th.frames[top]];
    }
  }

  lemma DescriptionUsedKept(s: State, t: Tid, step: Step, fd: nat)
    requires Enabled(s, t, step) && fd in Next(s, t, step).descriptions
    requires fd in s.descriptions ==> DescriptionUsed(s, fd)
    ensures DescriptionUsed(Next(s, t, step), fd)
  {
    if fd in s.descriptions && s.descriptions[fd].owner == t {
      UseKept(s.threads[t], step, s.descriptions[fd].path, fd);
    }
  }

  lemma HoldKept(s: State, t: Tid, step: Step, k: (nat, Path))
    requires Enabled(s, t, step) && k in Next(s, t, step).rlocks
    requires k in s.rlocks ==> HoldOk(s, k)
    ensures HoldOk(Next(s, t, step), k)
  {
  }

  lemma ThreadKept(s: State, t: Tid, step: Step, u: Tid)
    requires Enabled(s, t, step) && ThreadOk(s, t) && u in s.threads && ThreadOk(s, u)
    ensures ThreadOk(Next(s, t, step), u)
  {
    LocalKept(s.threads[t], step);
    DepthKept(s.rlocks, t, s.threads[t], step, u, s.threads[u]);
    DescriptionsKept(s, t, step, u);
    FlocksKept(s, t, step, u);
  }

  lemma NextKeepsInv(s: State, t: Tid, step: Step)
    requires Inv(s) && Enabled(s, t, step)
    ensures Inv(Next(s, t, step))
  {
    var s' := Next(s, t, step);
    assert ThreadOk(s, t);
    forall u | u in s'.threads ensures ThreadOk(s', u) {
      assert ThreadOk(s, u);
      ThreadKept(s, t, step, u);
    }
    forall p | p in s'.os ensures FlockHolderOk(s', p) {
      assert p in s.os ==> FlockHolderOk(s, p);
      FlockHolderKept(s, t, step, p);
    }
    forall fd | fd in s'.descriptions ensures DescriptionUsed(s', fd) {
      assert fd in s.descriptions ==> DescriptionUsed(s, fd);
      DescriptionUsedKept(s, t, step, fd);
    }
    forall k | k in s'.rlocks ensures HoldOk(s', k) {
      assert k in s.rlocks ==> HoldOk(s, k);
      HoldKept(s, t, step, k);
    }
  }

  lemma {:induction false} RunsKeepInv(s: State, run: seq<Action>, s': State)
    requires Inv(s) && Runs(s, run, s')
    ensures Inv(s') && s'.threads.Keys == s.threads.Keys
    decreases |run|
  {
    if run != [] {
      NextKeepsInv(s, run[0].tid, run[0].step);
      RunsKeepInv(Next(s, run[0].tid, run[0].step), run[1..], s');
    }
  }

  lemma InitInv(s: State)
    requires Init(s)
    ensures Inv(s)
  {
  }

  // ------------------------------------------------------------ main results

  /** The outermost of the blocks a thread has open on `p`. */
  lemma {:induction false} OutermostExists(frames: seq<Frame>, p: Path) returns (i: nat)
    requires Count(frames, p) > 0
    ensures i < |frames| && frames[i].path == p && Count(frames[..i], p) == 0
  {
    var top := |frames| - 1;
    if Count(frames[..top], p) > 0 {
      i := OutermostExists(frames[..top], p);
      assert frames[..top][..i] == frames[..i];
    } else {
      i := top;
    }
  }

  /** A thread inside a section owns the flock of its path. */
  lemma InsideOwnsFlock(s: State, t: Tid, p: Path)
    requires Inv(s) && Inside(s, t, p)
    ensures p in s.os && s.os[p] in s.descriptions && s.descriptions[s.os[p]] == Description(t, p)
  {
    var th := s.threads[t];
    assert ThreadOk(s, t);
    var i := OutermostExists(th.frames, p);
    assert OwnsFlock(th, p, th.frames[i].fd) && UsesFd(th, p, th.frames[i].fd);
  }

  /** Mutual exclusion: after every interleaving of any number of processes and threads, at most
      one thread is inside the section of a path. */
  lemma MutualExclusion(s: State, run: seq<Action>, s': State, t: Tid, u: Tid, p: Path)
    requires Init(s) && Runs(s, run, s')
    requires Inside(s', t, p) && Inside(s', u, p)
    ensures t == u
  {
    InitInv(s);
    RunsKeepInv(s, run, s');
    InsideOwnsFlock(s', t, p);
    InsideOwnsFlock(s', u, p);
  }

  /** `t` is in the section of `p`, or in one of the two windows around it: `__enter__` has just been
      granted the flock, or `__exit__` could not give it back yet and has still to close the file. */
  predicate AtSection(s: State, t: Tid, p: Path)
    requires t in s.threads
  {
    var pc := s.threads[t].pc;
    || Inside(s, t, p)
    || (pc.Flocked? && pc.path == p)
    || ((pc.Unlocked? || pc.Popped?) && pc.path == p && p in s.os && s.os[p] == pc.fd)
  }

  lemma AtSectionHasFlock(s: State, t: Tid, p: Path)
    requires Inv(s) && t in s.threads && AtSection(s, t, p)
    ensures p in s.os
  {
    assert ThreadOk(s, t);
    if Inside(s, t, p) { InsideOwnsFlock(s, t, p); }
    else if s.threads[t].pc.Flocked? { assert OwnsFlock(s.threads[t], p, s.threads[t].pc.fd); }
  }

  lemma FlockHasSection(s: State, p: Path) returns (t: Tid)
    requires p in s.os && FlockHolderOk(s, p)
    ensures t in s.threads && AtSection(s, t, p)
  {
    var fd := s.os[p];
    t := s.descriptions[fd].owner;
    var th := s.threads[t];
    if Frame(p, false, fd) in th.frames {
      var i :| 0 <= i < |th.frames| && th.frames[i] == Frame(p, false, fd);
      CountPositive(th.frames, i);
    }
  }

  /** The OS lock of a path is held exactly while some thread is at its section. */
  lemma FlockHeldExactlyAtSection(s: State, run: seq<Action>, s': State, p: Path)
    requires Init(s) && Runs(s, run, s')
    ensures p in s'.os <==> exists t | t in s'.threads :: AtSection(s', t, p)
  {
    InitInv(s);
    RunsKeepInv(s, run, s');
    if p in s'.os { var t := FlockHasSection(s', p); }
    if t :| t in s'.threads && AtSection(s', t, p) { AtSectionHasFlock(s', t, p); }
  }

  /** Between calls, RLock depth, hold count and number of open blocks are the same number. */
  lemma CountersAgree(s: State, run: seq<Action>, s': State, t: Tid, p: Path)
    requires Init(s) && Runs(s, run, s')
    requires t in s'.threads && s'.threads[t].pc.Running?
    ensures HoldDepth(s'.rlocks, t, p) == HeldCount(s'.threads[t], p) == Count(s'.threads[t].frames, p)
  {
    InitInv(s);
    RunsKeepInv(s, run, s');
    assert ThreadOk(s', t);
    assert HeldOk(s'.threads[t], p) && HoldDepth(s'.rlocks, t, p) == Depth(s'.threads[t], p);
  }

  ghost predicate IdleThread(s: State, t: Tid)
    requires t in s.threads
  {
    && (forall p :: HoldDepth(s.rlocks, t, p) == 0)
    && (forall p, fd: nat :: !UsesFd(s.threads[t], p, fd))
  }

  lemma IdleHoldsNothing(s: State, t: Tid)
    requires t in s.threads && ThreadOk(s, t) && s.threads[t].pc.Running? && s.threads[t].frames == []
    ensures IdleThread(s, t)
  {
    forall p ensures HoldDepth(s.rlocks, t, p) == 0 {
      assert HoldDepth(s.rlocks, t, p) == Depth(s.threads[t], p);
    }
  }

  lemma HolderIsNotIdle(s: State)
    requires Inv(s) && (s.rlocks != map[] || s.os != map[] || s.descriptions != map[])
    ensures exists t | t in s.threads :: !IdleThread(s, t)
  {
    if s.rlocks != map[] {
      var k :| k in s.rlocks;
      assert HoldOk(s, k) && HoldDepth(s.rlocks, s.rlocks[k].owner, k.1) > 0;
    } else {
      if s.os != map[] {
        var p :| p in s.os;
        assert FlockHolderOk(s, p);
      }
      var fd :| fd in s.descriptions;
      assert DescriptionUsed(s, fd);
    }
  }

  /** Nothing leaks: once every with-block has been left, all locks are free and all lock files closed. */
  lemma QuiescentIsClean(s: State, run: seq<Action>, s': State)
    requires Init(s) && Runs(s, run, s')
    requires forall t | t in s'.threads :: s'.threads[t].pc.Running? && s'.threads[t].frames == []
    ensures s'.rlocks == map[] && s'.os == map[] && s'.descriptions == map[]
  {
    InitInv(s);
    RunsKeepInv(s, run, s');
    forall t | t in s'.threads ensures IdleThread(s', t) { IdleHoldsNothing(s', t); }
    if s'.rlocks != map[] || s'.os != map[] || s'.descriptions != map[] { HolderIsNotIdle(s'); }
  }

  /** The actions of an `__enter__` that ends in an exception. */
  predicate Aborts(step: Step) {
    || step.AcquireThreadLock? || step.ThreadLockTimeout? || step.OpenLockFile? || step.OpenFails?
    || step.FlockTimeout? || step.CloseAfterFailure? || step.ReleaseThreadLock?
  }

  lemma {:induction false} AbortKeepsBlocks(s: State, run: seq<Action>, s': State, t: Tid)
    requires Runs(s, run, s') && t in s.threads
    requires forall i | 0 <= i < |run| && run[i].tid == t :: Aborts(run[i].step)
    ensures t in s'.threads
    ensures s'.threads[t].frames == s.threads[t].frames && s'.threads[t].held == s.threads[t].held
    decreases |run|
  {
    if run != [] { AbortKeepsBlocks(Next(s, run[0].tid, run[0].step), run[1..], s', t); }
  }

  lemma DescriptionIffUsed(s: State, t: Tid, fd: nat)
    requires Inv(s) && t in s.threads
    ensures (fd in s.descriptions && s.descriptions[fd].owner == t) <==> exists p :: UsesFd(s.threads[t], p, fd)
  {
    assert ThreadOk(s, t);
    if fd in s.descriptions && s.descriptions[fd].owner == t { assert DescriptionUsed(s, fd); }
  }

  /** An enter that times out or fails leaves the thread's blocks, hold counts, RLock depths and open
      lock files as they were, whatever the other threads did meanwhile. */
  lemma FailedEnterLeavesNoTrace(s0: State, before: seq<Action>, s: State, run: seq<Action>, s': State,
                                 t: Tid, p: Path, fd: nat)
    requires Init(s0) && Runs(s0, before, s) && Runs(s, run, s')
    requires t in s.threads && s.threads[t].pc.Running?
    requires forall i | 0 <= i < |run| && run[i].tid == t :: Aborts(run[i].step)
    requires t in s'.threads && s'.threads[t].pc.Running?
    ensures s'.threads[t] == s.threads[t]
    ensures HoldDepth(s'.rlocks, t, p) == HoldDepth(s.rlocks, t, p)
    ensures (fd in s'.descriptions && s'.descriptions[fd].owner == t)
       <==> (fd in s.descriptions && s.descriptions[fd].owner == t)
  {
    InitInv(s0);
    RunsKeepInv(s0, before, s);
    RunsKeepInv(s, run, s');
    AbortKeepsBlocks(s, run, s', t);
    assert ThreadOk(s, t) && ThreadOk(s', t);
    assert HoldDepth(s.rlocks, t, p) == Depth(s.threads[t], p);
    assert HoldDepth(s'.rlocks, t, p) == Depth(s'.threads[t], p);
    DescriptionIffUsed(s, t, fd);
    DescriptionIffUsed(s', t, fd);
  }
}
