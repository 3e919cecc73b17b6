/** Row-log operations of storage/records.py under the lock of module Locking.

    One row log is followed through every interleaving of lock actions and of the
    reads and writes that appends, rewrites, mutations and transactions perform. */
module Transactions {
  import opened Locking
  import opened Seqs
  import opened Wrappers

  type Row = map<string, string>

  /** A non-blank line of the log: a row, another JSON value, or text that does not parse. */
  datatype Line = Object(row: Row) | NonObject(text: string) | Malformed(text: string)

  /** The log file; None while it does not exist. */
  type File = Option<seq<Line>>

  /** What a mutator returns for the rows it is given. */
  type Mutator = seq<Row> -> seq<Line>

  /** A committed write. */
  datatype Op = Append(row: Row) | Rewrite(lines: seq<Line>) | Mutate(mutator: Mutator)

  /** A write by `tid` in the section that this thread had opened; sections are numbered in the order they
      were entered. */
  datatype Entry = Entry(tid: Tid, section: nat, op: Op)

  /** A completed `read_jsonl`: the rows it returned and the number of writes committed before it;
      `section` is None for the unlocked early return on a missing file. */
  datatype ReadEvent = ReadEvent(tid: Tid, section: Option<nat>, at: nat, rows: seq<Row>)

  datatype Work = Idle | Mutating(rows: seq<Row>)

  datatype System = System(
    locks: State,
    path: Path,              // the lock path that guards this log
    file: File,
    sections: seq<Tid>,      // who opened each section
    mine: map<Tid, nat>,     // the section each thread opened last
    log: seq<Entry>,
    work: map<Tid, Work>,    // a mutation between its read and its write
    seen: seq<ReadEvent>)

  function Lines(file: File): seq<Line> {
    if file.Some? then file.value else []
  }

  /** The rows a tolerant read returns: other lines are skipped. */
  function Rows(lines: seq<Line>): seq<Row> {
    if lines == [] then []
    else (if lines[0].Object? then [lines[0].row] else []) + Rows(lines[1..])
  }

  /** A strict read raises on any line that is not a row. */
  predicate Strict(lines: seq<Line>) {
    forall i :: 0 <= i < |lines| ==> lines[i].Object?
  }

  /** The effect of one write on the file, as if it ran alone. */
  function Apply(file: File, op: Op): File {
    match op
    case Append(row) => Some(Lines(file) + [Object(row)])
    case Rewrite(lines) => Some(lines)
    case Mutate(f) => Some(f(Rows(Lines(file))))
  }

  function Replay(base: File, log: seq<Entry>): File {
    if log == [] then base else Apply(Replay(base, log[..|log| - 1]), log[|log| - 1].op)
  }

  // ------------------------------------------------------------------- steps

  datatype Event =
    | LockStep(step: Step)
    | DoAppend(row: Row)
    | DoRewrite(lines: seq<Line>)
    | DoRead
    | ReadMissing
    | MutateRead
    | MutateRefused              // strict read failed, or the mutator raised
    | MutateWrite(mutator: Mutator)

  /** Between lock actions, with the log's lock held. */
  predicate CanTouch(s: System, t: Tid) {
    Inside(s.locks, t, s.path) && s.locks.threads[t].pc.Running?
  }

  /** The mutator runs between the read and the write of its own thread, so that thread does nothing else. */
  ghost predicate Enabled(s: System, t: Tid, e: Event) {
    t in s.work && match e
    case LockStep(step) => s.work[t].Idle? && Locking.Enabled(s.locks, t, step)
    case DoAppend(_) => s.work[t].Idle? && CanTouch(s, t)
    case DoRewrite(_) => s.work[t].Idle? && CanTouch(s, t)
    case DoRead => s.work[t].Idle? && CanTouch(s, t)
    case ReadMissing => s.work[t].Idle? && s.file.None?
    case MutateRead => s.work[t].Idle? && CanTouch(s, t) && Strict(Lines(s.file))
    case MutateRefused => (s.work[t].Idle? && CanTouch(s, t) && !Strict(Lines(s.file))) || s.work[t].Mutating?
    case MutateWrite(_) => s.work[t].Mutating?
  }

  function SectionOf(s: System, t: Tid): nat {
    if t in s.mine then s.mine[t] else 0
  }

  /** The lock action that enters the outermost block of this log. */
  predicate Opens(s: System, t: Tid, step: Step)
    requires t in s.locks.threads && Ready(s.locks.threads[t], step)
  {
    step.SetHeld? && s.locks.threads[t].pc.path == s.path
  }

  ghost function Commit(s: System, t: Tid, file: File, op: Op): System {
    s.(file := file, log := s.log + [Entry(t, SectionOf(s, t), op)])
  }

  /** The locks have moved to `locks`; `opens` says that `t` entered the section of this log. */
  function Locked(s: System, locks: State, t: Tid, opens: bool): System {
    if opens then s.(locks := locks, sections := s.sections + [t], mine := s.mine[t := |s.sections|])
    else s.(locks := locks)
  }

  /** `MutateWrite` writes what the mutator made of the rows read earlier, not of the rows now in the file. */
  ghost function Next(s: System, t: Tid, e: Event): System
    requires Enabled(s, t, e)
  {
    match e
    case LockStep(step) => Locked(s, Locking.Next(s.locks, t, step), t, Opens(s, t, step))
    case DoAppend(row) => Commit(s, t, Some(Lines(s.file) + [Object(row)]), Append(row))
    case DoRewrite(lines) => Commit(s, t, Some(lines), Rewrite(lines))
    case DoRead =>
      s.(seen := s.seen + [ReadEvent(t, Some(SectionOf(s, t)), |s.log|, Rows(Lines(s.file)))])
    case ReadMissing => s.(seen := s.seen + [ReadEvent(t, None, |s.log|, [])])
    case MutateRead => s.(work := s.work[t := Mutating(Rows(Lines(s.file)))])
    case MutateRefused => s.(work := s.work[t := Idle])
    case MutateWrite(f) => Commit(s, t, Some(f(s.work[t].rows)), Mutate(f)).(work := s.work[t := Idle])
  }

  ghost predicate Init(s: System) {
    && Locking.Init(s.locks)
    && s.sections == [] && s.mine == map[] && s.log == [] && s.seen == []
    && s.work.Keys == s.locks.threads.Keys
    && forall t | t in s.work :: s.work[t].Idle?
  }

  datatype Action = Action(tid: Tid, event: Event)

  // -------------------------------------------------------------- invariants

  /** Each thread's own section was opened by it, and whoever is inside opened the latest. */
  ghost predicate SectionsOk(s: System) {
    && (forall t | t in s.mine :: s.mine[t] < |s.sections| && s.sections[s.mine[t]] == t)
    && (forall t | Inside(s.locks, t, s.path) :: t in s.mine && s.mine[t] + 1 == |s.sections|)
    && (forall t | t in s.work && s.work[t].Mutating? :: CanTouch(s, t))
  }

  /** A write stands in a section of its own thread, and the writes are grouped by section, in section order. */
  ghost predicate Grouped(s: System) {
    && (forall i | 0 <= i < |s.log| ::
          s.log[i].section < |s.sections| && s.sections[s.log[i].section] == s.log[i].tid)
    && (forall i, j | 0 <= i < j < |s.log| :: s.log[i].section <= s.log[j].section)
  }

  /** The file is what the committed writes make of the initial file; a mutation under way still has
      the current rows. */
  ghost predicate FileOk(base: File, s: System) {
    && s.file == Replay(base, s.log)
    && (forall t | t in s.work && s.work[t].Mutating? :: s.work[t].rows == Rows(Lines(s.file)))
  }

  /** A read saw the writes of all earlier sections and of its own section so far, and no others. */
  ghost predicate ReadOk(base: File, s: System, r: ReadEvent) {
    && r.at <= |s.log|
    && r.rows == Rows(Lines(Replay(base, s.log[..r.at])))
    && (r.section.None? ==> r.at == 0)
    && (r.section.Some? ==>
          && r.section.value < |s.sections| && s.sections[r.section.value] == r.tid
          && (forall i | 0 <= i < r.at :: s.log[i].section <= r.section.value)
          && (forall i | r.at <= i < |s.log| :: s.log[i].section >= r.section.value))
  }

  ghost predicate SystemOk(base: File, s: System) {
    && Inv(s.locks) && SectionsOk(s) && Grouped(s) && FileOk(base, s)
    && forall i | 0 <= i < |s.seen| :: ReadOk(base, s, s.seen[i])
  }

  /** `s'` is reached from `s` by the interleaving `run`. */
  ghost predicate Runs(s: System, run: seq<Action>, s': System)
    decreases |run|
  {
    if run == [] then s == s'
    else
      && Enabled(s, run[0].tid, run[0].event)
      && Runs(Next(s, run[0].tid, run[0].event), run[1..], s')
  }

  // ---------------------------------------------- the invariants are kept

  /** Only granting a flock or counting one level deeper opens a block. */
  lemma InsideAfter(s: State, t: Tid, step: Step, u: Tid, p: Path)
    requires Inv(s) && Locking.Enabled(s, t, step) && Inside(Locking.Next(s, t, step), u, p)
    ensures Inside(s, u, p) || (u == t && step.SetHeld? && s.threads[t].pc.path == p)
  {
    assert ThreadOk(s, t);
    if u == t {
      CountAfter(s.threads[t], step, p);
      if step.EnterReentrant? { assert HeldOk(s.threads[t], s.threads[t].pc.path); }
    }
  }

  /** A thread that has just been granted the flock finds nobody inside. */
  lemma SetHeldEntersAlone(s: State, t: Tid, u: Tid, p: Path)
    requires Inv(s) && Locking.Enabled(s, t, SetHeld) && s.threads[t].pc.path == p && u != t
    ensures !Inside(s, u, p)
  {
    if Inside(s, u, p) {
      InsideOwnsFlock(s, u, p);
      assert ThreadOk(s, t) && OwnsFlock(s.threads[t], p, s.threads[t].pc.fd);
      assert UsesFd(s.threads[t], p, s.threads[t].pc.fd);
    }
  }

  /** What mutual exclusion gives: whoever enters the section enters it alone. */
  ghost predicate EntersAlone(s: System, locks': State, t: Tid, opens: bool) {
    && (forall u | Inside(locks', u, s.path) :: Inside(s.locks, u, s.path) || (opens && u == t))
    && (opens ==> forall u | Inside(s.locks, u, s.path) :: u == t)
  }

  lemma LockStepEntersAlone(s: System, t: Tid, step: Step)
    requires Inv(s.locks) && Enabled(s, t, LockStep(step))
    ensures EntersAlone(s, Locking.Next(s.locks, t, step), t, Opens(s, t, step))
  {
    forall u | Inside(Locking.Next(s.locks, t, step), u, s.path)
      ensures Inside(s.locks, u, s.path) || (Opens(s, t, step) && u == t) {
      InsideAfter(s.locks, t, step, u, s.path);
    }
    if Opens(s, t, step) {
      forall u | Inside(s.locks, u, s.path) ensures u == t {
        if u != t { SetHeldEntersAlone(s.locks, t, u, s.path); }
      }
    }
  }

  lemma EntrantOpenedLast(s: System, locks': State, t: Tid, opens: bool)
    requires SectionsOk(s) && EntersAlone(s, locks', t, opens)
    requires forall u | u in s.work && s.work[u].Mutating? :: CanTouch(s.(locks := locks'), u)
    ensures SectionsOk(Locked(s, locks', t, opens))
  {
  }

  lemma MutatorStaysInside(s: System, t: Tid, step: Step, u: Tid)
    requires Enabled(s, t, LockStep(step)) && u in s.work && s.work[u].Mutating? && CanTouch(s, u)
    ensures CanTouch(s.(locks := Locking.Next(s.locks, t, step)), u)
  {
    assert u != t;
  }

  lemma LockStepKeepsSections(s: System, t: Tid, step: Step)
    requires SectionsOk(s) && Enabled(s, t, LockStep(step))
    requires EntersAlone(s, Locking.Next(s.locks, t, step), t, Opens(s, t, step))
    ensures SectionsOk(Next(s, t, LockStep(step)))
  {
    forall u | u in s.work && s.work[u].Mutating? ensures CanTouch(s.(locks := Locking.Next(s.locks, t, step)), u) {
      MutatorStaysInside(s, t, step, u);
    }
    EntrantOpenedLast(s, Locking.Next(s.locks, t, step), t, Opens(s, t, step));
  }

  lemma OtherEventsKeepSections(s: System, t: Tid, e: Event)
    requires SectionsOk(s) && Enabled(s, t, e) && !e.LockStep?
    ensures SectionsOk(Next(s, t, e))
  {
    var s' := Next(s, t, e);
    assert s'.locks == s.locks && s'.sections == s.sections && s'.mine == s.mine && s'.path == s.path;
    forall u | u in s'.work && s'.work[u].Mutating? ensures CanTouch(s', u) {
      assert u == t || s.work[u].Mutating?;
    }
  }

  lemma LocksKept(s: System, t: Tid, e: Event)
    requires Inv(s.locks) && SectionsOk(s) && Enabled(s, t, e)
    ensures Inv(Next(s, t, e).locks) && SectionsOk(Next(s, t, e))
  {
    if e.LockStep? {
      NextKeepsInv(s.locks, t, e.step);
      LockStepEntersAlone(s, t, e.step);
      LockStepKeepsSections(s, t, e.step);
    } else {
      OtherEventsKeepSections(s, t, e);
    }
  }

  /** Whoever touches the log does so in the latest section, which it opened itself, and it is alone. */
  lemma TouchesLastSection(s: System, t: Tid)
    requires SectionsOk(s) && t in s.work && (CanTouch(s, t) || s.work[t].Mutating?)
    ensures SectionOf(s, t) + 1 == |s.sections| && s.sections[SectionOf(s, t)] == t
    ensures forall u | u in s.work && s.work[u].Mutating? :: u == t
  {
    assert Inside(s.locks, t, s.path);
    forall u | u in s.work && s.work[u].Mutating? ensures u == t { assert Inside(s.locks, u, s.path); }
  }

  /** The write an event commits. */
  ghost function WriteOf(e: Event): seq<Op> {
    match e
    case DoAppend(row) => [Append(row)]
    case DoRewrite(lines) => [Rewrite(lines)]
    case MutateWrite(f) => [Mutate(f)]
    case _ => []
  }

  /** An event that commits nothing leaves the log and the file, and opens at most one section more. */
  lemma QuietAfter(s: System, t: Tid, e: Event)
    requires Enabled(s, t, e) && WriteOf(e) == []
    ensures var s' := Next(s, t, e);
      && s'.log == s.log && s'.file == s.file
      && s.sections <= s'.sections
  {
  }

  /** An event that commits appends one entry, in the section its thread has opened. */
  lemma WriteAfter(s: System, t: Tid, e: Event)
    requires SectionsOk(s) && Enabled(s, t, e) && WriteOf(e) != []
    ensures var s' := Next(s, t, e);
      && s'.log == s.log + [Entry(t, SectionOf(s, t), WriteOf(e)[0])]
      && s'.sections == s.sections && s'.seen == s.seen
      && SectionOf(s, t) + 1 == |s.sections| && s.sections[SectionOf(s, t)] == t
  {
    TouchesLastSection(s, t);
  }

  lemma GroupedKept(s: System, t: Tid, e: Event)
    requires SectionsOk(s) && Grouped(s) && Enabled(s, t, e)
    ensures Grouped(Next(s, t, e))
  {
    if WriteOf(e) == [] { QuietAfter(s, t, e); } else { WriteAfter(s, t, e); }
  }

  lemma ReplaySnoc(base: File, log: seq<Entry>, e: Entry)
    ensures Replay(base, log + [e]) == Apply(Replay(base, log), e.op)
  {
    assert (log + [e])[..|log|] == log;
  }

  /** What a write makes of the file is what its operation makes of it: a mutation still has the current rows. */
  lemma FileAfterWrite(base: File, s: System, t: Tid, e: Event)
    requires FileOk(base, s) && Enabled(s, t, e) && WriteOf(e) != []
    ensures Next(s, t, e).file == Apply(s.file, WriteOf(e)[0])
  {
  }

  lemma FileKeptByWrite(base: File, s: System, t: Tid, e: Event)
    requires SectionsOk(s) && FileOk(base, s) && Enabled(s, t, e) && WriteOf(e) != []
    ensures FileOk(base, Next(s, t, e))
  {
    FileAfterWrite(base, s, t, e);
    WriteAfter(s, t, e);
    TouchesLastSection(s, t);
    ReplaySnoc(base, s.log, Entry(t, SectionOf(s, t), WriteOf(e)[0]));
  }

  lemma FileKept(base: File, s: System, t: Tid, e: Event)
    requires SectionsOk(s) && FileOk(base, s) && Enabled(s, t, e)
    ensures FileOk(base, Next(s, t, e))
  {
    if WriteOf(e) == [] { QuietAfter(s, t, e); } else { FileKeptByWrite(base, s, t, e); }
  }

  /** A missing file has never been written. */
  lemma {:induction false} MissingIsUnwritten(base: File, log: seq<Entry>)
    requires Replay(base, log).None?
    ensures log == []
  {
  }

  lemma NewReadOk(base: File, s: System, t: Tid, e: Event)
    requires SectionsOk(s) && Grouped(s) && FileOk(base, s) && Enabled(s, t, e) && (e.DoRead? || e.ReadMissing?)
    ensures var s' := Next(s, t, e); ReadOk(base, s', s'.seen[|s.seen|])
  {
    assert s.log[..|s.log|] == s.log;
    if e.DoRead? { TouchesLastSection(s, t); } else { MissingIsUnwritten(base, s.log); }
  }

  lemma OldReadOk(base: File, s: System, t: Tid, e: Event, r: ReadEvent)
    requires SectionsOk(s) && Enabled(s, t, e) && ReadOk(base, s, r)
    ensures ReadOk(base, Next(s, t, e), r)
  {
    if WriteOf(e) == [] { QuietAfter(s, t, e); } else { WriteAfter(s, t, e); }
    assert Next(s, t, e).log[..r.at] == s.log[..r.at];
  }

  lemma SeenAfter(s: System, t: Tid, e: Event)
    requires Enabled(s, t, e)
    ensures s.seen <= Next(s, t, e).seen
    ensures if e.DoRead? || e.ReadMissing? then |Next(s, t, e).seen| == |s.seen| + 1 else Next(s, t, e).seen == s.seen
  {
  }

  lemma ReadsKept(base: File, s: System, t: Tid, e: Event, i: nat)
    requires SectionsOk(s) && Grouped(s) && FileOk(base, s) && Enabled(s, t, e) && i < |Next(s, t, e).seen|
    requires i < |s.seen| ==> ReadOk(base, s, s.seen[i])
    ensures ReadOk(base, Next(s, t, e), Next(s, t, e).seen[i])
  {
    SeenAfter(s, t, e);
    if i < |s.seen| { OldReadOk(base, s, t, e, s.seen[i]); } else { NewReadOk(base, s, t, e); }
  }

  lemma NextKeepsSystemOk(base: File, s: System, t: Tid, e: Event)
    requires SystemOk(base, s) && Enabled(s, t, e)
    ensures SystemOk(base, Next(s, t, e))
  {
    LocksKept(s, t, e);
    GroupedKept(s, t, e);
    FileKept(base, s, t, e);
    forall i | 0 <= i < |Next(s, t, e).seen| ensures ReadOk(base, Next(s, t, e), Next(s, t, e).seen[i]) {
      ReadsKept(base, s, t, e, i);
    }
  }

  lemma {:induction false} RunsKeepSystemOk(base: File, s: System, run: seq<Action>, s': System)
    requires SystemOk(base, s) && Runs(s, run, s')
    ensures SystemOk(base, s')
    decreases |run|
  {
    if run != [] {
      NextKeepsSystemOk(base, s, run[0].tid, run[0].event);
      RunsKeepSystemOk(base, Next(s, run[0].tid, run[0].event), run[1..], s');
    }
  }

  lemma InitSystemOk(s: System)
    requires Init(s)
    ensures SystemOk(s.file, s)
  {
    InitInv(s.locks);
  }

  // ------------------------------------------------------------ main results

  /** The writes of section `k`, in the order they were committed. */
  function OpsOf(log: seq<Entry>, k: nat): seq<Op> {
    if log == [] then []
    else OpsOf(log[..|log| - 1], k) + if log[|log| - 1].section == k then [log[|log| - 1].op] else []
  }

  function ApplyAll(file: File, ops: seq<Op>): File {
    if ops == [] then file else Apply(ApplyAll(file, ops[..|ops| - 1]), ops[|ops| - 1])
  }

  /** The writes of sections 0 .. n-1 one section after another, none interleaved with another's. */
  function SectionBySection(log: seq<Entry>, n: nat): seq<Op> {
    if n == 0 then [] else SectionBySection(log, n - 1) + OpsOf(log, n - 1)
  }

  lemma OpsSnoc(log: seq<Entry>, e: Entry, k: nat)
    ensures OpsOf(log + [e], k) == if e.section == k then OpsOf(log, k) + [e.op] else OpsOf(log, k)
  {
    assert (log + [e])[..|log|] == log;
  }

  lemma ApplySnoc(file: File, ops: seq<Op>, op: Op)
    ensures ApplyAll(file, ops + [op]) == Apply(ApplyAll(file, ops), op)
  {
    assert (ops + [op])[..|ops|] == ops;
  }

  lemma {:induction false} SectionsSnoc(log: seq<Entry>, e: Entry, n: nat)
    requires forall i | 0 <= i < |log| :: log[i].section <= e.section
    ensures SectionBySection(log + [e], n) ==
            if e.section < n then SectionBySection(log, n) + [e.op] else SectionBySection(log, n)
  {
    if n > 0 {
      var before, ops := SectionBySection(log, n - 1), OpsOf(log, n - 1);
      SectionsSnoc(log, e, n - 1);
      OpsSnoc(log, e, n - 1);
      if e.section < n - 1 {
        NoOpsLater(log, n - 1);
        NothingMore(before, ops);
        NothingMore(before + [e.op], ops);
      } else if e.section == n - 1 {
        Associative(before, ops, [e.op]);
      }
    }
  }

  lemma {:induction false} NoOpsLater(log: seq<Entry>, k: nat)
    requires forall i | 0 <= i < |log| :: log[i].section < k
    ensures OpsOf(log, k) == []
  {
    if log != [] { NoOpsLater(log[..|log| - 1], k); }
  }

  lemma {:induction false} NoSections(n: nat)
    ensures SectionBySection([], n) == []
  {
    if n > 0 { NoSections(n - 1); }
  }

  lemma {:induction false} GroupedIsSerial(log: seq<Entry>, n: nat)
    requires forall i | 0 <= i < |log| :: log[i].section < n
    requires forall i, j | 0 <= i < j < |log| :: log[i].section <= log[j].section
    ensures Ops(log) == SectionBySection(log, n)
  {
    if log == [] {
      NoSections(n);
    } else {
      var last := |log| - 1;
      GroupedIsSerial(log[..last], n);
      SectionsSnoc(log[..last], log[last], n);
      assert log[..last] + [log[last]] == log;
    }
  }

  /** The file is the one obtained by running the sections one at a time, in the order they were entered; every
      write of a section is by the thread that entered it, and whoever is inside entered the last. */
  ghost predicate Serial(base: File, s: System) {
    && s.file == ApplyAll(base, SectionBySection(s.log, |s.sections|))
    && (forall i | 0 <= i < |s.log| ::
          s.log[i].section < |s.sections| && s.sections[s.log[i].section] == s.log[i].tid)
    && (forall t | Inside(s.locks, t, s.path) :: s.sections != [] && s.sections[|s.sections| - 1] == t)
  }

  lemma LogIsSerial(base: File, log: seq<Entry>, n: nat)
    requires forall i | 0 <= i < |log| :: log[i].section < n
    requires forall i, j | 0 <= i < j < |log| :: log[i].section <= log[j].section
    ensures Replay(base, log) == ApplyAll(base, SectionBySection(log, n))
  {
    GroupedIsSerial(log, n);
    ReplayIsApplyAll(base, log);
  }

  lemma SystemIsSerial(base: File, s: System)
    requires SectionsOk(s) && Grouped(s) && FileOk(base, s)
    ensures Serial(base, s)
  {
    LogIsSerial(base, s.log, |s.sections|);
  }

  /** Serializability, after every interleaving. */
  lemma Serializable(s: System, run: seq<Action>, s': System)
    requires Init(s) && Runs(s, run, s')
    ensures Serial(s.file, s')
  {
    InitSystemOk(s);
    RunsKeepSystemOk(s.file, s, run, s');
    SystemIsSerial(s.file, s');
  }

  /** The writes an interleaving performs, in order. */
  ghost function Writes(run: seq<Action>): seq<Op> {
    if run == [] then [] else WriteOf(run[0].event) + Writes(run[1..])
  }

  ghost function Ops(log: seq<Entry>): seq<Op> {
    if log == [] then [] else Ops(log[..|log| - 1]) + [log[|log| - 1].op]
  }

  lemma LogOpsSnoc(log: seq<Entry>, e: Entry)
    ensures Ops(log + [e]) == Ops(log) + [e.op]
  {
    assert (log + [e])[..|log|] == log;
  }

  lemma LogAfter(s: System, t: Tid, e: Event)
    requires Enabled(s, t, e) && WriteOf(e) != []
    ensures Next(s, t, e).log == s.log + [Entry(t, SectionOf(s, t), WriteOf(e)[0])]
  {
  }

  lemma OpsAfter(s: System, t: Tid, e: Event)
    requires Enabled(s, t, e)
    ensures Ops(Next(s, t, e).log) == Ops(s.log) + WriteOf(e)
  {
    if WriteOf(e) == [] {
      QuietAfter(s, t, e);
      NothingMore(Ops(s.log), WriteOf(e));
    } else {
      LogAfter(s, t, e);
      LogOpsSnoc(s.log, Entry(t, SectionOf(s, t), WriteOf(e)[0]));
    }
  }

  lemma {:induction false} LogIsWrites(s: System, run: seq<Action>, s': System)
    requires Runs(s, run, s')
    ensures Ops(s'.log) == Ops(s.log) + Writes(run)
    decreases |run|
  {
    if run != [] {
      var s1 := Next(s, run[0].tid, run[0].event);
      OpsAfter(s, run[0].tid, run[0].event);
      LogIsWrites(s1, run[1..], s');
      Associative(Ops(s.log), WriteOf(run[0].event), Writes(run[1..]));
    }
  }

  lemma {:induction false} ReplayIsApplyAll(base: File, log: seq<Entry>)
    ensures Replay(base, log) == ApplyAll(base, Ops(log))
  {
    if log != [] {
      ReplayIsApplyAll(base, log[..|log| - 1]);
      ApplySnoc(base, Ops(log[..|log| - 1]), log[|log| - 1].op);
    }
  }

  /** No append, rewrite or mutation is lost: the file is what all the writes of the interleaving make
      of the initial file, each mutator applied to the rows its predecessors left. */
  lemma NoWriteIsLost(s: System, run: seq<Action>, s': System)
    requires Init(s) && Runs(s, run, s')
    ensures s'.file == ApplyAll(s.file, Writes(run))
  {
    InitSystemOk(s);
    RunsKeepSystemOk(s.file, s, run, s');
    LogIsWrites(s, run, s');
    ReplayIsApplyAll(s.file, s'.log);
    assert Ops(s.log) + Writes(run) == Writes(run);
  }

  /** Every read returned the rows left by the sections before its own and by the earlier writes of its
      own section, and by no other write. */
  lemma ReadsAreConsistent(s: System, run: seq<Action>, s': System, i: nat)
    requires Init(s) && Runs(s, run, s') && i < |s'.seen|
    ensures var r := s'.seen[i];
      && r.at <= |s'.log| && r.rows == Rows(Lines(Replay(s.file, s'.log[..r.at])))
      && (exists places :: Selects(Lines(Replay(s.file, s'.log[..r.at])), r.rows, places))
      && (r.section.None? ==> r.at == 0)
      && (r.section.Some? ==>
            && r.section.value < |s'.sections| && s'.sections[r.section.value] == r.tid
            && (forall j | 0 <= j < r.at :: s'.log[j].section <= r.section.value)
            && (forall j | r.at <= j < |s'.log| :: s'.log[j].section >= r.section.value))
  {
    InitSystemOk(s);
    RunsKeepSystemOk(s.file, s, run, s');
    assert ReadOk(s.file, s', s'.seen[i]);
    var places := ReadSelects(Lines(Replay(s.file, s'.log[..s'.seen[i].at])), s'.seen[i].rows);
  }

  // ------------------------------------------------------- what a read returns

  /** The rows are those of the lines at `places`, in order, and no row is left out. */
  predicate Selects(lines: seq<Line>, rows: seq<Row>, places: seq<nat>) {
    && Increasing(places) && |places| == |rows|
    && (forall k :: 0 <= k < |rows| ==> places[k] < |lines| && lines[places[k]] == Object(rows[k]))
    && (forall i :: 0 <= i < |lines| && lines[i].Object? ==> i in places)
  }

  lemma {:induction false} RowsOfObjects(lines: seq<Line>)
    ensures var objects := KeptBy(lines, (l: Line, rest: seq<Line>) => l.Object?);
      |objects| == |Rows(lines)| && forall k :: 0 <= k < |objects| ==> objects[k] == Object(Rows(lines)[k])
  {
    if lines != [] {
      RowsOfObjects(lines[1..]);
      NothingMore(Rows(lines[1..]), []);
    }
  }

  /** A tolerant read is the increasing selection of the object lines. */
  lemma ReadSelects(lines: seq<Line>, rows: seq<Row>) returns (places: seq<nat>)
    requires rows == Rows(lines)
    ensures Selects(lines, rows, places)
  {
    var isObject := (l: Line, rest: seq<Line>) => l.Object?;
    RowsOfObjects(lines);
    places := Places(lines, isObject, 0);
    PlacesIncrease(lines, isObject, 0);
    forall k | 0 <= k < |rows| ensures places[k] < |lines| && lines[places[k]] == Object(rows[k]) {
      PlacesHold(lines, isObject, 0, k);
    }
    forall i | 0 <= i < |lines| && lines[i].Object? ensures i in places { PlacesExact(lines, isObject, 0, i); }
  }

  /** The lines are exactly these rows. */
  predicate Holds(lines: seq<Line>, rows: seq<Row>) {
    |lines| == |rows| && forall i :: 0 <= i < |rows| ==> lines[i] == Object(rows[i])
  }

  lemma {:induction false} ReadOfRows(lines: seq<Line>, rows: seq<Row>)
    requires Holds(lines, rows)
    ensures Rows(lines) == rows
  {
    if rows != [] {
      ReadOfRows(lines[1..], rows[1..]);
      HeadTail(rows);
    }
  }

  lemma {:induction false} StrictHolds(lines: seq<Line>, rows: seq<Row>)
    requires Strict(lines) && rows == Rows(lines)
    ensures Holds(lines, rows)
  {
    if lines != [] { StrictHolds(lines[1..], rows[1..]); }
  }

  /** What a mutation writes, for a file that holds these rows. */
  lemma MutationSeesRows(file: File, rows: seq<Row>, f: Mutator)
    requires Holds(Lines(file), rows)
    ensures Apply(file, Mutate(f)) == Some(f(rows))
  {
    ReadOfRows(Lines(file), rows);
  }

  lemma {:induction false} RowsAppend(a: seq<Line>, b: seq<Line>)
    ensures Rows(a + b) == Rows(a) + Rows(b)
  {
    if a == [] {
      NothingMore(b, a);
      NothingMore(Rows(b), Rows(a));
    } else {
      assert (a + b)[1..] == a[1..] + b;
      RowsAppend(a[1..], b);
      Associative(if a[0].Object? then [a[0].row] else [], Rows(a[1..]), Rows(b));
    }
  }

  // --------------------------------------- the operations inside a section

  /** What a caller hands to a rewrite: a row, or a string, of which blank ones are dropped. */
  datatype Item = Keep(line: Line) | Blank

  function Kept(items: seq<Item>): seq<Line> {
    if items == [] then [] else (if items[0].Keep? then [items[0].line] else []) + Kept(items[1..])
  }

  /** The items that are kept, in order, as the lines at `places`. */
  predicate KeptAt(items: seq<Item>, lines: seq<Line>, places: seq<nat>) {
    && Increasing(places) && |places| == |lines|
    && (forall k :: 0 <= k < |lines| ==> places[k] < |items| && items[places[k]] == Keep(lines[k]))
    && (forall i :: 0 <= i < |items| && items[i].Keep? ==> i in places)
  }

  lemma {:induction false} LinesOfKept(items: seq<Item>)
    ensures var keeps := KeptBy(items, (x: Item, rest: seq<Item>) => x.Keep?);
      |keeps| == |Kept(items)| && forall k :: 0 <= k < |keeps| ==> keeps[k] == Keep(Kept(items)[k])
  {
    if items != [] {
      LinesOfKept(items[1..]);
      NothingMore(Kept(items[1..]), []);
    }
  }

  /** A rewrite writes exactly the items that are not blank, in order. */
  lemma WriteSelects(items: seq<Item>, lines: seq<Line>) returns (places: seq<nat>)
    requires lines == Kept(items)
    ensures KeptAt(items, lines, places)
  {
    var isKept := (x: Item, rest: seq<Item>) => x.Keep?;
    LinesOfKept(items);
    places := Places(items, isKept, 0);
    PlacesIncrease(items, isKept, 0);
    forall k | 0 <= k < |lines| ensures places[k] < |items| && items[places[k]] == Keep(lines[k]) {
      PlacesHold(items, isKept, 0, k);
    }
    forall i | 0 <= i < |items| && items[i].Keep? ensures i in places { PlacesExact(items, isKept, 0, i); }
  }

  function AsItems(rows: seq<Row>): (items: seq<Item>)
    ensures |items| == |rows| && forall i :: 0 <= i < |rows| ==> items[i] == Keep(Object(rows[i]))
  {
    Map(rows, (row: Row) => Keep(Object(row)))
  }

  lemma {:induction false} KeptRows(items: seq<Item>, rows: seq<Row>)
    requires |items| == |rows| && forall i :: 0 <= i < |rows| ==> items[i] == Keep(Object(rows[i]))
    ensures Holds(Kept(items), rows)
  {
    if rows != [] {
      KeptRows(items[1..], rows[1..]);
      NothingMore(Kept(items[1..]), []);
    }
  }

  /** The row log as the code between acquiring and releasing the lock sees it. */
  class RowLog {
    var file: File

    constructor (file: File)
      ensures this.file == file
    {
      this.file := file;
    }

    /** None when a strict read raises. */
    method ReadUnlocked(strict: bool) returns (result: Option<seq<Row>>)
      ensures result == if strict && !Strict(Lines(file)) then None else Some(Rows(Lines(file)))
      ensures result.None? <==> strict && exists i :: 0 <= i < |Lines(file)| && !Lines(file)[i].Object?
      ensures result.Some? ==> exists places :: Selects(Lines(file), result.value, places)
      ensures result.Some? && strict ==> Holds(Lines(file), result.value)
    {
      var lines := Lines(file);
      var rows: seq<Row> := [];
      var i := 0;
      while i < |lines|
        invariant 0 <= i <= |lines|
        invariant rows + Rows(lines[i..]) == Rows(lines)
        invariant strict ==> forall k :: 0 <= k < i ==> lines[k].Object?
      {
        TailOfTail(lines, i);
        Associative(rows, if lines[i].Object? then [lines[i].row] else [], Rows(lines[i + 1..]));
        NothingMore(rows, []);
        if lines[i].Object? {
          rows := rows + [lines[i].row];
        } else if strict {
          return None;
        }
        i := i + 1;
      }
      NothingMore(rows, Rows(lines[i..]));
      ghost var places := ReadSelects(lines, rows);
      if strict { StrictHolds(lines, rows); }
      return Some(rows);
    }

    method WriteUnlocked(items: seq<Item>)
      modifies this
      ensures file == Some(Kept(items))
      ensures exists places :: KeptAt(items, Lines(file), places)
    {
      var lines: seq<Line> := [];
      var i := 0;
      while i < |items|
        invariant 0 <= i <= |items|
        invariant lines + Kept(items[i..]) == Kept(items)
      {
        TailOfTail(items, i);
        Associative(lines, if items[i].Keep? then [items[i].line] else [], Kept(items[i + 1..]));
        NothingMore(lines, []);
        if items[i].Keep? { lines := lines + [items[i].line]; }
        i := i + 1;
      }
      NothingMore(lines, Kept(items[i..]));
      ghost var places := WriteSelects(items, lines);
      file := Some(lines);
      assert KeptAt(items, Lines(file), places);
    }

    method AppendRow(row: Row)
      modifies this
      ensures file == Apply(old(file), Append(row))
    {
      file := Some(Lines(file) + [Object(row)]);
    }

    /** A strict-read failure leaves the file as it was. */
    method MutateRows(mutator: seq<Row> -> seq<Item>) returns (ok: bool)
      modifies this
      ensures ok <==> Strict(Lines(old(file)))
      ensures file == if ok then Some(Kept(mutator(Rows(Lines(old(file)))))) else old(file)
      ensures ok ==> exists rows, places ::
        Holds(Lines(old(file)), rows) && KeptAt(mutator(rows), Lines(file), places)
    {
      var rows := ReadUnlocked(true);
      if rows.None? { return false; }
      ghost var before := Lines(file);
      WriteUnlocked(mutator(rows.value));
      ghost var places :| KeptAt(mutator(rows.value), Lines(file), places);
      assert Holds(before, rows.value) && KeptAt(mutator(rows.value), Lines(file), places);
      return true;
    }
  }

  /** A read after an append is the read before it and the row. */
  method AppendAndRead(log: RowLog, row: Row) returns (before: seq<Row>, after: seq<Row>)
    modifies log
    ensures exists places :: Selects(Lines(old(log.file)), before, places)
    ensures after == before + [row]
  {
    var first := log.ReadUnlocked(false);
    ghost var lines := Lines(log.file);
    log.AppendRow(row);
    var second := log.ReadUnlocked(false);
    before, after := first.value, second.value;
    RowsAppend(lines, [Object(row)]);
    ReadOfRows([Object(row)], [row]);
  }

  /** A mutator that keeps all rows changes nothing of what is read. */
  method KeepAllAndRead(log: RowLog) returns (before: Option<seq<Row>>, after: Option<seq<Row>>)
    modifies log
    ensures before == after && log.file == if before.Some? then Some(Lines(old(log.file))) else old(log.file)
  {
    before := log.ReadUnlocked(true);
    ghost var lines := Lines(log.file);
    var ok := log.MutateRows(AsItems);
    if ok {
      KeptRows(AsItems(before.value), before.value);
      assert Kept(AsItems(before.value)) == lines;
    }
    after := log.ReadUnlocked(true);
  }
}
