/** The write gate of the memory store and the life of its records: storage/memory_governance.py. */
module MemoryGate {
  import opened Seqs
  import opened Text
  import opened Wrappers

  datatype Status = Pending | Active | Conflict | Rejected | Expired

  /** A memory record; `key`, `authority`, `llmScore` and `llmKeep` are metadata. */
  datatype Record = Record(
    id: string, workspaceId: string, scope: string, sessionId: string, taskId: string, kind: string, status: Status,
    source: string, createdBy: string, content: string, summary: string, confidence: real, updatedAt: int,
    conflictGroup: string, key: string, authority: string, llmScore: Option<int>, llmKeep: bool)

  /** The parts of the policy that look into texts: the secret patterns, the low-value patterns, the redaction
      of stored texts, and a similarity of at least 0.9. */
  datatype Policy = Policy(secret: Record -> bool, lowValue: Record -> bool, redact: string -> string,
                           similar: (string, string) -> bool)

  // ------------------------------------------------------------------- slots

  function Key(r: Record): string { Strip(r.key) }

  /** What a record is about: at most one active record should speak for it. */
  datatype Slot = Slot(scope: string, owner: string, kind: string, key: string)

  function SlotOf(r: Record): Slot {
    var owner := if r.scope == "session" then r.sessionId else if r.scope == "task" then r.taskId else "";
    Slot(r.scope, owner, r.kind, Key(r))
  }

  predicate SameSlot(a: Record, b: Record) { Key(b) != "" && SlotOf(a) == SlotOf(b) }

  /** `find_conflicts`: other records of the slot that are active or pending. */
  predicate Contends(x: Record, r: Record) {
    x.id != r.id && SameSlot(x, r) && x.status in {Active, Pending}
  }

  function Conflicts(store: seq<Record>, r: Record): seq<Record> { Filter(store, (x: Record) => Contends(x, r)) }

  // ------------------------------------------------------------------ saving

  function Redacted(p: Policy, r: Record): Record {
    r.(content := p.redact(r.content), summary := p.redact(r.summary), key := p.redact(r.key))
  }

  /** The store lists its records by the time of their last save, newest first. */
  function Saved(p: Policy, store: seq<Record>, r: Record): seq<Record> {
    [Redacted(p, r)] + Filter(store, (x: Record) => x.id != r.id)
  }

  function SavedAll(p: Policy, store: seq<Record>, rs: seq<Record>): seq<Record>
    decreases |rs|
  {
    if rs == [] then store else SavedAll(p, Saved(p, store, rs[0]), rs[1..])
  }

  // ------------------------------------------------------------- the decision

  predicate WellFormed(r: Record) {
    && r.workspaceId != "" && r.scope in ["global", "workspace", "session", "task"]
    && r.kind in ["core_rule", "semantic_fact", "episodic_case", "procedural_rule", "profile", "knowledge_note"]
    && (r.scope == "session" ==> r.sessionId != "") && (r.scope == "task" ==> r.taskId != "")
  }

  predicate Subagent(r: Record) { r.createdBy == "subagent" || r.source == "subagent" }

  predicate Generated(r: Record) { r.source in ["agent_suggestion", "subagent"] || Subagent(r) }

  predicate ByUser(r: Record) { r.source in ["user", "manual_confirm"] }

  /** The consolidator's cached decision: none, refused, or accepted. */
  predicate Consolidated(r: Record) { r.llmScore.Some? && r.llmKeep && r.llmScore.value >= 3 }

  predicate Trusted(r: Record) {
    && Consolidated(r) && !Subagent(r) && r.llmScore.value >= 4
    && r.kind in ["semantic_fact", "episodic_case", "procedural_rule"] && r.authority == "verified_tool"
  }

  /** The status a candidate deserves before conflicts are looked at. */
  function Deserved(r: Record): Status {
    if Generated(r) then if Trusted(r) then Active else Pending
    else if && r.status == Pending && r.kind in ["core_rule", "knowledge_note", "profile"]
            && r.confidence >= 0.5 && ByUser(r)
    then Active
    else r.status
  }

  function Words(r: Record): string { Or(r.content, r.summary) }

  function Duplicates(p: Policy, conflicts: seq<Record>, r: Record): seq<Record> {
    Filter(conflicts, (x: Record) => p.similar(Words(x), Words(r)))
  }

  predicate Supersedes(r: Record) { ByUser(r) && r.kind == "core_rule" }

  /** The conflict that was updated last; the first of several. */
  function LatestOf(rs: seq<Record>): (r: Record)
    requires rs != []
    ensures r in rs && forall x :: x in rs ==> x.updatedAt <= r.updatedAt
  {
    if |rs| == 1 then rs[0]
    else var rest := LatestOf(rs[1..]); if rs[0].updatedAt >= rest.updatedAt then rs[0] else rest
  }

  function Actives(rs: seq<Record>): seq<Record> { Filter(rs, (x: Record) => x.status == Active) }

  datatype Outcome = Refused | LowValue | BelowScore | Duplicate(of: string) | Stored(status: Status)

  datatype Result = Result(store: seq<Record>, outcome: Outcome)

  function Marked(rs: seq<Record>, group: string, now: int): seq<Record> {
    Map(rs, (x: Record) => x.(conflictGroup := group, updatedAt := now))
  }

  /** A judged candidate meets the records of its slot. */
  function Placed(p: Policy, store: seq<Record>, r: Record, now: int, group: string): Result {
    var conflicts := Conflicts(store, r);
    var duplicates := Duplicates(p, conflicts, r);
    if duplicates != [] then Result(store, Duplicate(duplicates[0].id))
    else if conflicts != [] && Supersedes(r) then
      var previous := LatestOf(conflicts).(status := Expired, updatedAt := now);
      Result(Saved(p, Saved(p, store, previous), r), Stored(r.status))
    else if Actives(conflicts) != [] then
      var marked := SavedAll(p, store, Marked(Actives(conflicts), group, now));
      Result(Saved(p, marked, r.(status := Conflict, conflictGroup := group)), Stored(Conflict))
    else Result(Saved(p, store, r), Stored(r.status))
  }

  /** The candidate as it is judged. */
  function Judged(p: Policy, r: Record): Record {
    r.(content := p.redact(r.content), summary := p.redact(r.summary), status := Deserved(r))
  }

  function Written(p: Policy, store: seq<Record>, r: Record, now: int, group: string): Result {
    if !WellFormed(r) || p.secret(r) then Result(store, Refused)
    else if p.lowValue(r) then Result(Saved(p, store, r.(status := Rejected)), LowValue)
    else if Generated(r) && r.llmScore.Some? && !Consolidated(r) then
      Result(Saved(p, store, Judged(p, r).(status := Rejected)), BelowScore)
    else Placed(p, store, Judged(p, r), now, group)
  }

  /** Rejecting or expiring a record by its id. */
  function Retired(p: Policy, store: seq<Record>, id: string, status: Status, now: int): seq<Record> {
    var found := Filter(store, (x: Record) => x.id == id);
    if found == [] then store else Saved(p, store, found[0].(status := status, updatedAt := now))
  }

  // --------------------------------------------------------------- invariants

  predicate UniqueIds(store: seq<Record>) { forall i, j :: 0 <= i < j < |store| ==> store[i].id != store[j].id }

  /** No two active records of one slot. */
  predicate OneActive(store: seq<Record>) {
    && UniqueIds(store)
    && forall a, b :: a in store && b in store && a.status == Active && b.status == Active && SameSlot(a, b) ==> a == b
  }

  predicate NoSubagentActive(store: seq<Record>) { forall r :: r in store && Subagent(r) ==> r.status != Active }

  /** Redaction leaves a memory key as it is, or takes it away. */
  ghost predicate KeepsKeys(p: Policy) { forall key :: KeepsKey(p, key) }

  predicate KeepsKey(p: Policy, key: string) { Strip(p.redact(key)) in {Strip(key), ""} }

  lemma SavedMember(p: Policy, store: seq<Record>, r: Record)
    ensures forall x :: x in Saved(p, store, r) <==> x == Redacted(p, r) || (x in store && x.id != r.id)
  {
    forall x ensures x in Filter(store, (y: Record) => y.id != r.id) <==> x in store && x.id != r.id {
      FilterMember(store, (y: Record) => y.id != r.id, x);
    }
  }

  lemma {:induction false} FilterUnique(store: seq<Record>, p: Record -> bool)
    requires UniqueIds(store)
    ensures UniqueIds(Filter(store, p))
  {
    if store != [] {
      var rest := Filter(store[1..], p);
      UniqueTail(store);
      FilterUnique(store[1..], p);
      NothingMore(rest, []);
      forall x | x in rest ensures x.id != store[0].id { FilterMember(store[1..], p, x); }
      UniqueCons(store[0], rest);
    }
  }

  lemma UniqueTail(store: seq<Record>)
    requires UniqueIds(store) && store != []
    ensures UniqueIds(store[1..]) && forall x :: x in store[1..] ==> x.id != store[0].id
  {
  }

  lemma UniqueCons(r: Record, rest: seq<Record>)
    requires UniqueIds(rest) && forall x :: x in rest ==> x.id != r.id
    ensures UniqueIds([r] + rest)
  {
    forall j | 0 < j < |[r] + rest| ensures ([r] + rest)[j].id != r.id { assert rest[j - 1] in rest; }
  }

  lemma SavedUnique(p: Policy, store: seq<Record>, r: Record)
    requires UniqueIds(store)
    ensures UniqueIds(Saved(p, store, r))
  {
    var others := Filter(store, (x: Record) => x.id != r.id);
    FilterUnique(store, (x: Record) => x.id != r.id);
    forall x | x in others ensures x.id != r.id { FilterMember(store, (y: Record) => y.id != r.id, x); }
    UniqueCons(Redacted(p, r), others);
  }

  lemma SlotRedacted(p: Policy, r: Record)
    requires KeepsKeys(p)
    ensures forall x :: SameSlot(x, Redacted(p, r)) ==> SameSlot(x, r)
    ensures forall x :: SameSlot(Redacted(p, r), x) ==> SameSlot(r, x)
  {
    assert KeepsKey(p, r.key);
    forall x | SlotOf(x) == SlotOf(Redacted(p, r)) && Key(x) != "" ensures SlotOf(x) == SlotOf(r) {
      assert SlotOf(x).key == Key(x) && SlotOf(Redacted(p, r)).key == Key(Redacted(p, r));
    }
  }

  /** Saving keeps the invariant when an active record meets no other active record of its slot. */
  lemma SaveKeeps(p: Policy, store: seq<Record>, r: Record)
    requires KeepsKeys(p) && OneActive(store)
    requires r.status == Active ==> forall x :: x in store && x.id != r.id && x.status == Active ==> !SameSlot(x, r)
    ensures OneActive(Saved(p, store, r))
  {
    SavedMember(p, store, r);
    SavedUnique(p, store, r);
    SlotRedacted(p, r);
  }

  /** Saving a new version of a record that is not more active than the old one. */
  lemma ReplaceKeeps(p: Policy, store: seq<Record>, was: Record, now: Record)
    requires KeepsKeys(p) && OneActive(store) && was in store
    requires now.id == was.id && SlotOf(now) == SlotOf(was) && (now.status == Active ==> was.status == Active)
    ensures OneActive(Saved(p, store, now))
  {
    if now.status == Active {
      forall x | x in store && x.id != now.id && x.status == Active ensures !SameSlot(x, now) {
        SameSlotAs(x, now, was);
      }
    }
    SaveKeeps(p, store, now);
  }

  lemma SameSlotAs(x: Record, a: Record, b: Record)
    requires SlotOf(a) == SlotOf(b)
    ensures SameSlot(x, a) <==> SameSlot(x, b)
  {
    assert Key(a) == SlotOf(a).key && Key(b) == SlotOf(b).key;
  }

  lemma ConflictMember(store: seq<Record>, r: Record)
    ensures forall x :: x in Conflicts(store, r) <==> x in store && Contends(x, r)
  {
    forall x ensures x in Conflicts(store, r) <==> x in store && Contends(x, r) {
      FilterMember(store, (y: Record) => Contends(y, r), x);
    }
  }

  lemma ActiveMember(rs: seq<Record>)
    ensures forall x :: x in Actives(rs) <==> x in rs && x.status == Active
  {
    forall x ensures x in Actives(rs) <==> x in rs && x.status == Active {
      FilterMember(rs, (y: Record) => y.status == Active, x);
    }
  }

  /** Some active record of the slot is in the way. */
  predicate Contested(store: seq<Record>, r: Record) { Actives(Conflicts(store, r)) != [] }

  lemma UncontestedMeans(store: seq<Record>, r: Record)
    requires !Contested(store, r)
    ensures forall x :: x in store && x.id != r.id && x.status == Active ==> !SameSlot(x, r)
  {
    ConflictMember(store, r);
    ActiveMember(Conflicts(store, r));
  }

  /** Marking the records of a conflict, one save after the other, changes neither slots nor statuses. */
  lemma {:induction false} MarkAllKeeps(p: Policy, store: seq<Record>, rs: seq<Record>, group: string, now: int)
    requires KeepsKeys(p) && OneActive(store) && UniqueIds(rs) && forall x :: x in rs ==> x in store
    ensures OneActive(SavedAll(p, store, Marked(rs, group, now)))
    decreases |rs|
  {
    if rs != [] {
      var marked := rs[0].(conflictGroup := group, updatedAt := now);
      var store' := Saved(p, store, marked);
      SlotOfMarked(rs[0], group, now);
      ReplaceKeeps(p, store, rs[0], marked);
      SavedMember(p, store, marked);
      UniqueTail(rs);
      assert Marked(rs, group, now)[1..] == Marked(rs[1..], group, now);
      MarkAllKeeps(p, store', rs[1..], group, now);
    }
  }

  lemma SlotOfMarked(r: Record, group: string, now: int)
    ensures SlotOf(r.(conflictGroup := group, updatedAt := now)) == SlotOf(r)
  {
  }

  /** For a superseding rule: what was updated last is the active one, if any of its slot is active. */
  predicate SupersedesActive(store: seq<Record>, r: Record) {
    var conflicts := Conflicts(store, r);
    conflicts != [] && Supersedes(r) && Actives(conflicts) != [] ==> LatestOf(conflicts).status == Active
  }

  lemma PlainSaveKeeps(p: Policy, store: seq<Record>, r: Record)
    requires KeepsKeys(p) && OneActive(store) && (r.status == Active ==> !Contested(store, r))
    ensures OneActive(Saved(p, store, r))
  {
    if r.status == Active { UncontestedMeans(store, r); }
    SaveKeeps(p, store, r);
  }

  lemma ConflictSaveKeeps(p: Policy, store: seq<Record>, r: Record, now: int, group: string)
    requires KeepsKeys(p) && OneActive(store)
    ensures OneActive(Saved(p, SavedAll(p, store, Marked(Actives(Conflicts(store, r)), group, now)),
                            r.(status := Conflict, conflictGroup := group)))
  {
    var actives := Actives(Conflicts(store, r));
    ConflictMember(store, r);
    ActiveMember(Conflicts(store, r));
    FilterUnique(store, (x: Record) => Contends(x, r));
    FilterUnique(Conflicts(store, r), (x: Record) => x.status == Active);
    MarkAllKeeps(p, store, actives, group, now);
    SaveKeeps(p, SavedAll(p, store, Marked(actives, group, now)), r.(status := Conflict, conflictGroup := group));
  }

  /** After the superseded rule has expired nothing active is left of the slot, if it was the active one. */
  lemma SupersedeKeeps(p: Policy, store: seq<Record>, r: Record, now: int)
    requires KeepsKeys(p) && OneActive(store) && Conflicts(store, r) != []
    requires r.status == Active ==> LatestOf(Conflicts(store, r)).status == Active || !Contested(store, r)
    ensures OneActive(Saved(p, Saved(p, store, LatestOf(Conflicts(store, r)).(status := Expired, updatedAt := now)), r))
  {
    var last := LatestOf(Conflicts(store, r));
    var previous := last.(status := Expired, updatedAt := now);
    var store' := Saved(p, store, previous);
    ConflictMember(store, r);
    assert SlotOf(previous) == SlotOf(last);
    ReplaceKeeps(p, store, last, previous);
    SavedMember(p, store, previous);
    if r.status == Active {
      forall x | x in store' && x.id != r.id && x.status == Active ensures !SameSlot(x, r) {
        StillContending(store, r, last, x);
      }
    }
    SaveKeeps(p, store', r);
  }

  lemma StillContending(store: seq<Record>, r: Record, last: Record, x: Record)
    requires OneActive(store) && last in store && Contends(last, r) && x in store && x.status == Active
    requires x.id != last.id && x.id != r.id && (last.status == Active || !Contested(store, r))
    ensures !SameSlot(x, r)
  {
    if last.status != Active {
      UncontestedMeans(store, r);
    } else if SameSlot(x, r) {
      assert SameSlot(x, last);
    }
  }

  /** Placing a candidate keeps the invariant, whatever the store holds; a superseding rule must find the active
      one last updated. */
  lemma PlacedKeeps(p: Policy, store: seq<Record>, r: Record, now: int, group: string)
    requires KeepsKeys(p) && OneActive(store) && (r.status == Active ==> SupersedesActive(store, r))
    ensures OneActive(Placed(p, store, r, now, group).store)
  {
    var conflicts := Conflicts(store, r);
    if Duplicates(p, conflicts, r) != [] {
    } else if conflicts != [] && Supersedes(r) {
      SupersedeKeeps(p, store, r, now);
    } else if Contested(store, r) {
      ConflictSaveKeeps(p, store, r, now, group);
    } else {
      PlainSaveKeeps(p, store, r);
    }
  }

  lemma WrittenKeeps(p: Policy, store: seq<Record>, r: Record, now: int, group: string)
    requires KeepsKeys(p) && OneActive(store) && SupersedesActive(store, Judged(p, r))
    ensures OneActive(Written(p, store, r, now, group).store)
  {
    PlainSaveKeeps(p, store, r.(status := Rejected));
    PlainSaveKeeps(p, store, Judged(p, r).(status := Rejected));
    PlacedKeeps(p, store, Judged(p, r), now, group);
  }

  lemma RetiredKeeps(p: Policy, store: seq<Record>, id: string, status: Status, now: int)
    requires KeepsKeys(p) && OneActive(store) && status != Active
    ensures OneActive(Retired(p, store, id, status, now))
  {
    var found := Filter(store, (x: Record) => x.id == id);
    if found != [] {
      FilterMember(store, (x: Record) => x.id == id, found[0]);
      PlainSaveKeeps(p, store, found[0].(status := status, updatedAt := now));
    }
  }

  // -------------------------------------------- what is in the store afterwards

  /** The record as it is after it has been given a status. */
  predicate GivenStatus(p: Policy, x: Record, y: Record, status: Status, now: int) {
    && y.status == status && y.updatedAt == now
    && y == x.(status := status, updatedAt := now, content := p.redact(x.content), summary := p.redact(x.summary),
               key := p.redact(x.key))
  }

  /** `store'` differs from `store` in the records of one id only. */
  predicate SameOthers(store: seq<Record>, store': seq<Record>, id: string) {
    && (forall y :: y in store' && y.id != id ==> y in store)
    && (forall y :: y in store && y.id != id ==> y in store')
  }

  /** The first record of an id, if there is one. */
  lemma FirstOfId(store: seq<Record>, id: string)
    ensures var found := Filter(store, (x: Record) => x.id == id);
      && (found == [] <==> forall x :: x in store ==> x.id != id)
      && (found != [] ==> found[0] in store && found[0].id == id)
  {
    var same := (x: Record) => x.id == id;
    var found := Filter(store, same);
    if found != [] { FilterMember(store, same, found[0]); }
    if x :| x in store && x.id == id { FilterMember(store, same, x); }
  }

  /** Rejecting and expiring: a stored record of the id is replaced by itself with the new status, and nothing else
      changes. */
  lemma RetiringGivesStatus(p: Policy, store: seq<Record>, id: string, status: Status, now: int, store': seq<Record>)
    requires store' == Retired(p, store, id, status, now)
    ensures SameOthers(store, store', id)
    ensures (exists x :: x in store && x.id == id) <==> (exists y :: y in store' && y.id == id)
    ensures forall y :: y in store' && y.id == id ==>
              exists x :: x in store && x.id == id && GivenStatus(p, x, y, status, now)
    ensures (forall x :: x in store ==> x.id != id) ==> store' == store
  {
    var found := Filter(store, (x: Record) => x.id == id);
    FirstOfId(store, id);
    if found != [] {
      var next := found[0].(status := status, updatedAt := now);
      SavedMember(p, store, next);
      assert GivenStatus(p, found[0], Redacted(p, next), status, now);
      assert Redacted(p, next) in store';
    }
  }

  /** The records of the id of `r` are all `r`, redacted once or twice, with this status. */
  predicate StoredAs(p: Policy, store: seq<Record>, r: Record, status: Status) {
    && (exists y :: y in store && y.id == r.id)
    && (forall y :: y in store && y.id == r.id ==>
          && y.status == status && y.kind == r.kind && y.key == p.redact(r.key)
          && y.content in [p.redact(r.content), p.redact(p.redact(r.content))])
  }

  lemma PlacingStores(p: Policy, store: seq<Record>, r: Record, now: int, group: string)
    ensures var placed := Placed(p, store, r, now, group);
      if placed.outcome.Duplicate? then placed.store == store
      else placed.outcome.Stored? && exists before, last ::
        && placed.store == Saved(p, before, last)
        && last == r.(status := placed.outcome.status, conflictGroup := last.conflictGroup)
  {
    var conflicts := Conflicts(store, r);
    if Duplicates(p, conflicts, r) != [] {
    } else if conflicts != [] && Supersedes(r) {
      var previous := LatestOf(conflicts).(status := Expired, updatedAt := now);
      assert Placed(p, store, r, now, group).store == Saved(p, Saved(p, store, previous), r);
    } else if Actives(conflicts) != [] {
      var marked := SavedAll(p, store, Marked(Actives(conflicts), group, now));
      assert Placed(p, store, r, now, group).store ==
             Saved(p, marked, r.(status := Conflict, conflictGroup := group));
    } else {
      assert Placed(p, store, r, now, group).store == Saved(p, store, r);
    }
  }

  lemma SavedIsStored(p: Policy, before: seq<Record>, last: Record, r: Record)
    requires last.id == r.id && last.kind == r.kind && last.key == r.key
    requires last.content == r.content || last.content == p.redact(r.content)
    ensures StoredAs(p, Saved(p, before, last), r, last.status) && SameOthers(before, Saved(p, before, last), r.id)
  {
    SavedMember(p, before, last);
    assert Redacted(p, last) in Saved(p, before, last);
  }

  lemma JudgedIsStored(p: Policy, store: seq<Record>, r: Record, now: int, group: string)
    ensures var placed := Placed(p, store, Judged(p, r), now, group);
      if placed.outcome.Duplicate? then placed.store == store
      else placed.outcome.Stored? && StoredAs(p, placed.store, r, placed.outcome.status)
  {
    PlacingStores(p, store, Judged(p, r), now, group);
    var placed := Placed(p, store, Judged(p, r), now, group);
    if placed.outcome.Stored? {
      var before, last :| placed.store == Saved(p, before, last)
        && last == Judged(p, r).(status := placed.outcome.status, conflictGroup := last.conflictGroup);
      SavedIsStored(p, before, last, r);
    }
  }

  /** The ways a write can end. */
  predicate EndsAs(p: Policy, store: seq<Record>, r: Record, placed: Result, w: Result) {
    || w == Result(store, Refused)
    || w == Result(Saved(p, store, r.(status := Rejected)), LowValue)
    || w == Result(Saved(p, store, Judged(p, r).(status := Rejected)), BelowScore)
    || w == placed
  }

  predicate StoresAsAnswered(p: Policy, store: seq<Record>, r: Record, w: Result) {
    match w.outcome
    case Stored(status) => StoredAs(p, w.store, r, status)
    case LowValue => StoredAs(p, w.store, r, Rejected) && SameOthers(store, w.store, r.id)
    case BelowScore => StoredAs(p, w.store, r, Rejected) && SameOthers(store, w.store, r.id)
    case _ => w.store == store
  }

  lemma EndingStores(p: Policy, store: seq<Record>, r: Record, placed: Result, w: Result)
    requires EndsAs(p, store, r, placed, w) && StoresAsAnswered(p, store, r, placed)
    ensures StoresAsAnswered(p, store, r, w)
  {
    SavedIsStored(p, store, r.(status := Rejected), r);
    SavedIsStored(p, store, Judged(p, r).(status := Rejected), r);
  }

  /** What a write leaves under the id of the candidate: nothing new when it is refused or repeats a record, else the
      candidate, redacted, with the status that is answered. */
  lemma WritingStores(p: Policy, store: seq<Record>, r: Record, now: int, group: string)
    ensures StoresAsAnswered(p, store, r, Written(p, store, r, now, group))
  {
    JudgedIsStored(p, store, r, now, group);
    EndingStores(p, store, r, Placed(p, store, Judged(p, r), now, group), Written(p, store, r, now, group));
  }

  // --------------------------------------------------------------------- runs

  datatype Step =
    | Write(r: Record, now: int, group: string)
    | Reject(id: string, now: int)
    | Expire(id: string, now: int)
    | Delete(id: string)

  function Stepped(p: Policy, store: seq<Record>, t: Step): seq<Record> {
    match t
    case Write(r, now, group) => Written(p, store, r, now, group).store
    case Reject(id, now) => Retired(p, store, id, Rejected, now)
    case Expire(id, now) => Retired(p, store, id, Expired, now)
    case Delete(id) => Filter(store, (x: Record) => x.id != id)
  }

  /** A superseding rule is written only while the active one of its slot was updated last. */
  predicate Careful(p: Policy, store: seq<Record>, t: Step) {
    t.Write? ==> SupersedesActive(store, Judged(p, t.r))
  }

  ghost predicate Run(p: Policy, store: seq<Record>, steps: seq<Step>, store': seq<Record>)
    decreases |steps|
  {
    if steps == [] then store' == store
    else Careful(p, store, steps[0]) && Run(p, Stepped(p, store, steps[0]), steps[1..], store')
  }

  /** Records of other kinds than core_rule need no care. */
  lemma OtherKindsAreCareful(p: Policy, store: seq<Record>, t: Step)
    requires t.Write? ==> t.r.kind != "core_rule"
    ensures Careful(p, store, t)
  {
  }

  lemma DeleteKeeps(store: seq<Record>, id: string)
    requires OneActive(store)
    ensures OneActive(Filter(store, (x: Record) => x.id != id))
  {
    FilterUnique(store, (x: Record) => x.id != id);
    forall r | r in Filter(store, (x: Record) => x.id != id) ensures r in store {
      FilterMember(store, (x: Record) => x.id != id, r);
    }
  }

  lemma StepKeeps(p: Policy, store: seq<Record>, t: Step)
    requires KeepsKeys(p) && OneActive(store) && Careful(p, store, t)
    ensures OneActive(Stepped(p, store, t))
  {
    match t
    case Write(r, now, group) => WrittenKeeps(p, store, r, now, group);
    case Reject(id, now) => RetiredKeeps(p, store, id, Rejected, now);
    case Expire(id, now) => RetiredKeeps(p, store, id, Expired, now);
    case Delete(id) => DeleteKeeps(store, id);
  }

  /** Over every run no slot ever has two active records. */
  lemma {:induction false} RunsKeepOneActive(p: Policy, store: seq<Record>, steps: seq<Step>, store': seq<Record>)
    requires KeepsKeys(p) && OneActive(store) && Run(p, store, steps, store')
    ensures OneActive(store')
    decreases |steps|
  {
    if steps != [] {
      StepKeeps(p, store, steps[0]);
      RunsKeepOneActive(p, Stepped(p, store, steps[0]), steps[1..], store');
    }
  }

  // ------------------------------------------------------------ what subagents may

  lemma SubagentNotActive(p: Policy, r: Record)
    requires Subagent(r)
    ensures Judged(p, r).status == Pending && Subagent(Judged(p, r)) && Generated(r)
  {
  }

  lemma SaveKeepsSubagents(p: Policy, store: seq<Record>, r: Record)
    requires NoSubagentActive(store) && (Subagent(r) ==> r.status != Active)
    ensures NoSubagentActive(Saved(p, store, r))
  {
    SavedMember(p, store, r);
  }

  lemma {:induction false} MarkAllKeepsSubagents(p: Policy, store: seq<Record>, rs: seq<Record>)
    requires NoSubagentActive(store) && forall r :: r in rs && Subagent(r) ==> r.status != Active
    ensures NoSubagentActive(SavedAll(p, store, rs))
    decreases |rs|
  {
    if rs != [] {
      SaveKeepsSubagents(p, store, rs[0]);
      MarkAllKeepsSubagents(p, Saved(p, store, rs[0]), rs[1..]);
    }
  }

  lemma PlacedKeepsSubagents(p: Policy, store: seq<Record>, r: Record, now: int, group: string)
    requires NoSubagentActive(store) && (Subagent(r) ==> r.status != Active)
    ensures NoSubagentActive(Placed(p, store, r, now, group).store)
  {
    var conflicts := Conflicts(store, r);
    ConflictMember(store, r);
    ActiveMember(conflicts);
    if Duplicates(p, conflicts, r) != [] {
    } else if conflicts != [] && Supersedes(r) {
      var previous := LatestOf(conflicts).(status := Expired, updatedAt := now);
      SaveKeepsSubagents(p, store, previous);
      SaveKeepsSubagents(p, Saved(p, store, previous), r);
    } else if Actives(conflicts) != [] {
      var marked := Marked(Actives(conflicts), group, now);
      forall m | m in marked ensures !Subagent(m) || m.status != Active {
        var i :| 0 <= i < |marked| && marked[i] == m;
        assert Actives(conflicts)[i] in Actives(conflicts);
      }
      MarkAllKeepsSubagents(p, store, marked);
      SaveKeepsSubagents(p, SavedAll(p, store, marked), r.(status := Conflict, conflictGroup := group));
    } else {
      SaveKeepsSubagents(p, store, r);
    }
  }

  lemma StepKeepsSubagents(p: Policy, store: seq<Record>, t: Step)
    requires NoSubagentActive(store)
    ensures NoSubagentActive(Stepped(p, store, t))
  {
    match t
    case Write(r, now, group) =>
      if Subagent(r) { SubagentNotActive(p, r); }
      SaveKeepsSubagents(p, store, r.(status := Rejected));
      SaveKeepsSubagents(p, store, Judged(p, r).(status := Rejected));
      PlacedKeepsSubagents(p, store, Judged(p, r), now, group);
    case Reject(id, now) => RetiredKeepsSubagents(p, store, id, Rejected, now);
    case Expire(id, now) => RetiredKeepsSubagents(p, store, id, Expired, now);
    case Delete(id) =>
      forall r | r in Filter(store, (x: Record) => x.id != id) ensures r in store {
        FilterMember(store, (x: Record) => x.id != id, r);
      }
  }

  lemma RetiredKeepsSubagents(p: Policy, store: seq<Record>, id: string, status: Status, now: int)
    requires NoSubagentActive(store) && status != Active
    ensures NoSubagentActive(Retired(p, store, id, status, now))
  {
    var found := Filter(store, (x: Record) => x.id == id);
    if found != [] { SaveKeepsSubagents(p, store, found[0].(status := status, updatedAt := now)); }
  }

  /** Over every run, careful or not, nothing a subagent proposed is active without a confirmation. */
  lemma {:induction false} RunsKeepSubagentsOut(p: Policy, store: seq<Record>, steps: seq<Step>, store': seq<Record>)
    requires NoSubagentActive(store) && AnyRun(p, store, steps, store')
    ensures NoSubagentActive(store')
    decreases |steps|
  {
    if steps != [] {
      StepKeepsSubagents(p, store, steps[0]);
      RunsKeepSubagentsOut(p, Stepped(p, store, steps[0]), steps[1..], store');
    }
  }

  ghost predicate AnyRun(p: Policy, store: seq<Record>, steps: seq<Step>, store': seq<Record>)
    decreases |steps|
  {
    if steps == [] then store' == store else AnyRun(p, Stepped(p, store, steps[0]), steps[1..], store')
  }

  // ---------------------------------------------------- what one write can do

  /** A candidate that the gate stores as active: well formed and harmless, confirmed by a user or trusted as a
      verified tool result or handed in as active by anybody but an agent, repeating nothing, and with no active
      record of its slot in the way unless it is a rule that supersedes. */
  lemma StoredActiveIff(p: Policy, store: seq<Record>, r: Record, now: int, group: string)
    ensures Written(p, store, r, now, group).outcome == Stored(Active) <==>
            && WellFormed(r) && !p.secret(r) && !p.lowValue(r)
            && (if Generated(r) then
                  && r.llmScore.Some? && r.llmKeep && r.llmScore.value >= 4 && r.authority == "verified_tool"
                  && r.kind in ["semantic_fact", "episodic_case", "procedural_rule"]
                  && r.createdBy != "subagent" && r.source != "subagent"
                else r.status == Active
                     || (r.status == Pending && ByUser(r) && r.confidence >= 0.5
                         && r.kind in ["core_rule", "knowledge_note", "profile"]))
            && Duplicates(p, Conflicts(store, r), Judged(p, r)) == []
            && (Supersedes(r) || !Contested(store, r))
  {
    SameConflicts(p, store, r);
  }

  lemma SameConflicts(p: Policy, store: seq<Record>, r: Record)
    ensures Conflicts(store, Judged(p, r)) == Conflicts(store, r)
  {
    FilterSame(store, (x: Record) => Contends(x, Judged(p, r)), (x: Record) => Contends(x, r));
  }

  /** The same record, but for what a save may change without touching its slot or status. */
  predicate SameStanding(p: Policy, x: Record, y: Record) {
    y.id == x.id && y.status == x.status && (SlotOf(y) == SlotOf(x) || Key(y) == "")
  }

  /** Writing takes no active record of another id out of force, unless a superseding rule finds it to be the
      record of its slot that was updated last. */
  lemma ActivesStay(p: Policy, store: seq<Record>, r: Record, now: int, group: string, x: Record)
    requires KeepsKeys(p) && UniqueIds(store) && x in store && x.status == Active && x.id != r.id
    ensures var store' := Written(p, store, r, now, group).store;
      || (exists y :: y in store' && SameStanding(p, x, y))
      || (Supersedes(r) && Conflicts(store, r) != [] && x == LatestOf(Conflicts(store, r)))
  {
    SavedMember(p, store, r.(status := Rejected));
    SavedMember(p, store, Judged(p, r).(status := Rejected));
    assert SameStanding(p, x, x);
    SameConflicts(p, store, r);
    PlacedKeepsActive(p, store, Judged(p, r), now, group, x);
  }

  lemma PlacedKeepsActive(p: Policy, store: seq<Record>, r: Record, now: int, group: string, x: Record)
    requires KeepsKeys(p) && UniqueIds(store) && x in store && x.status == Active && x.id != r.id
    ensures var store' := Placed(p, store, r, now, group).store;
      || (exists y :: y in store' && SameStanding(p, x, y))
      || (Supersedes(r) && Conflicts(store, r) != [] && x == LatestOf(Conflicts(store, r)))
  {
    var conflicts := Conflicts(store, r);
    assert SameStanding(p, x, x);
    if Duplicates(p, conflicts, r) != [] {
    } else if conflicts != [] && Supersedes(r) {
      var previous := LatestOf(conflicts).(status := Expired, updatedAt := now);
      ConflictMember(store, r);
      SavedMember(p, store, previous);
      SavedMember(p, Saved(p, store, previous), r);
      if x.id == previous.id { SameIdSame(store, x, LatestOf(conflicts)); }
    } else if Actives(conflicts) != [] {
      var marked := Marked(Actives(conflicts), group, now);
      MarkedFrom(store, r, group, now);
      var y := MarkAllStanding(p, store, marked, x, x);
      SavedMember(p, SavedAll(p, store, marked), r.(status := Conflict, conflictGroup := group));
      assert y in Placed(p, store, r, now, group).store;
    } else {
      SavedMember(p, store, r);
    }
  }

  lemma SameIdSame(store: seq<Record>, a: Record, b: Record)
    requires UniqueIds(store) && a in store && b in store && a.id == b.id
    ensures a == b
  {
  }

  /** Each marked record stands as a stored one. */
  lemma MarkedFrom(store: seq<Record>, r: Record, group: string, now: int)
    requires UniqueIds(store)
    ensures forall m, x :: m in Marked(Actives(Conflicts(store, r)), group, now) && x in store && x.id == m.id ==>
              m.status == x.status && SlotOf(m) == SlotOf(x)
  {
    var actives := Actives(Conflicts(store, r));
    ConflictMember(store, r);
    ActiveMember(Conflicts(store, r));
    forall m, x | m in Marked(actives, group, now) && x in store && x.id == m.id
      ensures m.status == x.status && SlotOf(m) == SlotOf(x) {
      var i :| 0 <= i < |actives| && Marked(actives, group, now)[i] == m;
      assert actives[i] in actives;
      SameIdSame(store, actives[i], x);
      SlotOfMarked(x, group, now);
    }
  }

  lemma {:induction false} MarkAllStanding(p: Policy, store: seq<Record>, marked: seq<Record>, x: Record, now: Record)
    returns (y: Record)
    requires KeepsKeys(p) && now in store && SameStanding(p, x, now)
    requires forall m :: m in marked && m.id == x.id ==> m.status == x.status && SlotOf(m) == SlotOf(x)
    ensures y in SavedAll(p, store, marked) && SameStanding(p, x, y)
    decreases |marked|
  {
    if marked == [] {
      y := now;
    } else {
      SavedMember(p, store, marked[0]);
      var next := if marked[0].id == x.id then Redacted(p, marked[0]) else now;
      RedactedStanding(p, marked[0]);
      y := MarkAllStanding(p, Saved(p, store, marked[0]), marked[1..], x, next);
    }
  }

  lemma RedactedStanding(p: Policy, r: Record)
    requires KeepsKeys(p)
    ensures SlotOf(Redacted(p, r)) == SlotOf(r) || Key(Redacted(p, r)) == ""
  {
    assert KeepsKey(p, r.key);
  }

  // ------------------------------------------------------------ exact conditions

  /** A superseding rule that finds no duplicate leaves one active record exactly when the record updated last
      is the active one, if there is an active one: it expires the last updated record, active or not. */
  lemma SupersedeKeepsIff(p: Policy, store: seq<Record>, r: Record, now: int, group: string)
    requires KeepsKeys(p) && OneActive(store) && Supersedes(r) && r.status == Active && p.redact(r.key) == r.key
    requires Conflicts(store, r) != [] && Duplicates(p, Conflicts(store, r), r) == []
    ensures OneActive(Placed(p, store, r, now, group).store) <==> SupersedesActive(store, r)
  {
    var conflicts := Conflicts(store, r);
    if SupersedesActive(store, r) {
      PlacedKeeps(p, store, r, now, group);
    } else {
      ActiveMember(conflicts);
      ConflictMember(store, r);
      assert Actives(conflicts)[0] in Actives(conflicts);
      SupersedeBreaks(p, store, r, LatestOf(conflicts), Actives(conflicts)[0], now);
    }
  }

  lemma SupersedeBreaks(p: Policy, store: seq<Record>, r: Record, last: Record, a: Record, now: int)
    requires UniqueIds(store) && last in store && a in store && Contends(a, r) && last.id != r.id
    requires a.status == Active && last.status != Active && r.status == Active && p.redact(r.key) == r.key
    ensures !OneActive(Saved(p, Saved(p, store, last.(status := Expired, updatedAt := now)), r))
  {
    var previous := last.(status := Expired, updatedAt := now);
    SavedMember(p, store, previous);
    SavedMember(p, Saved(p, store, previous), r);
    OtherId(store, a, last);
    SlotOfRedacted(p, r);
    SameSlotAs(a, Redacted(p, r), r);
    TwoActive(Saved(p, Saved(p, store, previous), r), a, Redacted(p, r));
  }

  lemma SlotOfRedacted(p: Policy, r: Record)
    requires p.redact(r.key) == r.key
    ensures SlotOf(Redacted(p, r)) == SlotOf(r)
  {
  }

  lemma OtherId(store: seq<Record>, a: Record, b: Record)
    requires UniqueIds(store) && a in store && b in store && a.status != b.status
    ensures a.id != b.id
  {
  }

  lemma TwoActive(store: seq<Record>, a: Record, b: Record)
    requires a in store && b in store && a.id != b.id && a.status == Active && b.status == Active && SameSlot(a, b)
    ensures !OneActive(store)
  {
  }

  // -------------------------------------------- a run that is not careful

  /** A policy that finds no secrets, nothing of low value and no duplicates, and redacts nothing. */
  const PLAIN := Policy((r: Record) => false, (r: Record) => false, (s: string) => s, (a: string, b: string) => false)

  function Rule(id: string, source: string, status: Status, updatedAt: int): Record {
    Record(id, "w", "workspace", "", "", "core_rule", status, source, "", "", "", 1.0, updatedAt, "", "k", "",
           None, true)
  }

  /** A rule the agent suggests, and a rule of the user. */
  function Suggested(id: string, updatedAt: int): Record { Rule(id, "agent_suggestion", Pending, updatedAt) }

  function OfUser(id: string, updatedAt: int): Record { Rule(id, "user", Active, updatedAt) }

  lemma RulesContend(a: Record, b: Record)
    requires a.id != b.id && a.status in {Active, Pending}
    requires exists id, source, status, t :: a == Rule(id, source, status, t)
    requires exists id, source, status, t :: b == Rule(id, source, status, t)
    ensures Contends(a, b)
  {
    assert Strip("k") == "k";
  }

  lemma RuleIsWellFormed(id: string, source: string, status: Status, updatedAt: int)
    ensures WellFormed(Rule(id, source, status, updatedAt))
  {
  }

  /** Both pass the judgement as they are. */
  lemma RuleIsJudged(id: string, updatedAt: int)
    ensures Judged(PLAIN, Suggested(id, updatedAt)) == Suggested(id, updatedAt)
    ensures Judged(PLAIN, OfUser(id, updatedAt)) == OfUser(id, updatedAt)
  {
  }

  lemma UncontestedIsStored(store: seq<Record>, r: Record)
    requires WellFormed(r) && Judged(PLAIN, r) == r && !Supersedes(r) && r.llmScore.None?
    requires forall x :: x in store ==> x.status != Active
    ensures Written(PLAIN, store, r, 20, "g").store == Saved(PLAIN, store, r)
  {
    ConflictMember(store, r);
    FilterNone(Conflicts(store, r), (x: Record) => PLAIN.similar(Words(x), Words(r)));
    FilterNone(Conflicts(store, r), (x: Record) => x.status == Active);
  }

  /** While nothing is active a suggestion is stored as it is. */
  lemma SuggestionIsStored(store: seq<Record>, id: string, updatedAt: int)
    requires forall x :: x in store ==> x.status != Active
    ensures Stepped(PLAIN, store, Write(Suggested(id, updatedAt), 20, "g")) ==
            Saved(PLAIN, store, Suggested(id, updatedAt))
  {
    var r := Suggested(id, updatedAt);
    RuleIsWellFormed(id, r.source, r.status, updatedAt);
    RuleIsJudged(id, updatedAt);
    UncontestedIsStored(store, r);
  }

  /** A rule of the user expires what was updated last. */
  lemma UserRuleSupersedes(store: seq<Record>, id: string, updatedAt: int, last: Record)
    requires last in store && Contends(last, OfUser(id, updatedAt))
    requires forall x :: x in store && x != last && Contends(x, OfUser(id, updatedAt)) ==> x.updatedAt < last.updatedAt
    ensures Stepped(PLAIN, store, Write(OfUser(id, updatedAt), 20, "g")) ==
            Saved(PLAIN, Saved(PLAIN, store, last.(status := Expired, updatedAt := 20)), OfUser(id, updatedAt))
  {
    var r := OfUser(id, updatedAt);
    RuleIsWellFormed(id, r.source, r.status, updatedAt);
    RuleIsJudged(id, updatedAt);
    ConflictMember(store, r);
    FilterNone(Conflicts(store, r), (x: Record) => PLAIN.similar(Words(x), Words(r)));
    assert LatestOf(Conflicts(store, r)) == last;
  }

  ghost predicate Holds(store: seq<Record>, rs: set<Record>) { forall x :: x in store <==> x in rs }

  lemma SavedPlainly(store: seq<Record>, rs: set<Record>, r: Record, others: set<Record>)
    requires Holds(store, rs) && forall x :: x in others <==> x in rs && x.id != r.id
    ensures Holds(Saved(PLAIN, store, r), others + {r})
  {
    SavedMember(PLAIN, store, r);
  }

  lemma TwoSuggestions() returns (store: seq<Record>)
    ensures store == Stepped(PLAIN, Stepped(PLAIN, [], Write(Suggested("a", 10), 20, "g")),
                             Write(Suggested("b", 11), 20, "g"))
    ensures Holds(store, {Suggested("a", 10), Suggested("b", 11)})
  {
    var a, b := Suggested("a", 10), Suggested("b", 11);
    SuggestionIsStored([], "a", 10);
    SavedPlainly([], {}, a, {});
    SuggestionIsStored(Saved(PLAIN, [], a), "b", 11);
    SavedPlainly(Saved(PLAIN, [], a), {a}, b, {a});
    store := Saved(PLAIN, Saved(PLAIN, [], a), b);
  }

  /** The rule `r` of the user expires `last`, although `other` may be in force. */
  lemma RuleExpiresLast(store: seq<Record>, rs: set<Record>, id: string, updatedAt: int, last: Record,
                        others: set<Record>)
    requires Holds(store, rs) && last in rs && Contends(last, OfUser(id, updatedAt)) && last.id != id
    requires forall x :: x in rs && x != last ==>
      x.id != last.id && x.id != id && (x.updatedAt < last.updatedAt || !Contends(x, OfUser(id, updatedAt)))
    requires others == rs - {last} + {last.(status := Expired, updatedAt := 20)} + {OfUser(id, updatedAt)}
    ensures Holds(Stepped(PLAIN, store, Write(OfUser(id, updatedAt), 20, "g")), others)
  {
    var expired := last.(status := Expired, updatedAt := 20);
    UserRuleSupersedes(store, id, updatedAt, last);
    SavedPlainly(store, rs, expired, rs - {last});
    SavedPlainly(Saved(PLAIN, store, expired), rs - {last} + {expired}, OfUser(id, updatedAt), rs - {last} + {expired});
  }

  lemma FirstRule(store: seq<Record>)
    requires Holds(store, {Suggested("a", 10), Suggested("b", 11)})
    ensures Holds(Stepped(PLAIN, store, Write(OfUser("c", 5), 20, "g")),
                  {Suggested("a", 10), Rule("b", "agent_suggestion", Expired, 20), OfUser("c", 5)})
  {
    RulesContend(Suggested("b", 11), OfUser("c", 5));
    RuleExpiresLast(store, {Suggested("a", 10), Suggested("b", 11)}, "c", 5, Suggested("b", 11),
                    {Suggested("a", 10), Rule("b", "agent_suggestion", Expired, 20), OfUser("c", 5)});
  }

  lemma SecondRule(store: seq<Record>)
    requires Holds(store, {Suggested("a", 10), Rule("b", "agent_suggestion", Expired, 20), OfUser("c", 5)})
    ensures Holds(Stepped(PLAIN, store, Write(OfUser("d", 6), 20, "g")),
                  {Rule("a", "agent_suggestion", Expired, 20), Rule("b", "agent_suggestion", Expired, 20),
                   OfUser("c", 5), OfUser("d", 6)})
  {
    RulesContend(Suggested("a", 10), OfUser("d", 6));
    RuleExpiresLast(store, {Suggested("a", 10), Rule("b", "agent_suggestion", Expired, 20), OfUser("c", 5)}, "d", 6,
                    Suggested("a", 10),
                    {Rule("a", "agent_suggestion", Expired, 20), Rule("b", "agent_suggestion", Expired, 20),
                     OfUser("c", 5), OfUser("d", 6)});
  }

  lemma RunThen(store: seq<Record>, step: Step, steps: seq<Step>, store': seq<Record>)
    requires AnyRun(PLAIN, Stepped(PLAIN, store, step), steps, store')
    ensures AnyRun(PLAIN, store, [step] + steps, store')
  {
    assert ([step] + steps)[1..] == steps;
  }

  /** Two suggestions wait; each of two rules of the user expires one of them, because both were updated later
      than the first rule, and both rules are active. */
  lemma CarelessRunBreaks() returns (steps: seq<Step>, store: seq<Record>)
    ensures AnyRun(PLAIN, [], steps, store) && KeepsKeys(PLAIN) && OneActive([]) && !OneActive(store)
    ensures OfUser("c", 5) in store && OfUser("d", 6) in store
  {
    var s2 := TwoSuggestions();
    FirstRule(s2);
    var s3 := Stepped(PLAIN, s2, Write(OfUser("c", 5), 20, "g"));
    SecondRule(s3);
    store := Stepped(PLAIN, s3, Write(OfUser("d", 6), 20, "g"));
    RulesContend(OfUser("c", 5), OfUser("d", 6));
    TwoActive(store, OfUser("c", 5), OfUser("d", 6));
    steps := [Write(OfUser("d", 6), 20, "g")] + [];
    RunThen(s3, Write(OfUser("d", 6), 20, "g"), [], store);
    RunThen(s2, Write(OfUser("c", 5), 20, "g"), steps, store);
    steps := [Write(OfUser("c", 5), 20, "g")] + steps;
    RunThen(Stepped(PLAIN, [], Write(Suggested("a", 10), 20, "g")), Write(Suggested("b", 11), 20, "g"), steps, store);
    steps := [Write(Suggested("b", 11), 20, "g")] + steps;
    RunThen([], Write(Suggested("a", 10), 20, "g"), steps, store);
    steps := [Write(Suggested("a", 10), 20, "g")] + steps;
  }

  /** A key that redaction renames is not recognized again: two notes by a user under the key are both active. */
  lemma RenamedKeyBreaks(p: Policy, a: Record, b: Record, now: int, group: string)
    requires !KeepsKey(p, b.key) && a.key == b.key && SlotOf(a) == SlotOf(b) && a.id != b.id
    requires a.status == Active && b.status == Active
    ensures OneActive([Redacted(p, a)]) && !OneActive(Placed(p, [Redacted(p, a)], b, now, group).store)
  {
    var stored := Redacted(p, a);
    var store := [stored];
    assert Key(stored) != Key(b);
    assert SlotOf(stored).key == Key(stored) && SlotOf(b).key == Key(b);
    assert Conflicts(store, b) == [] by { assert store[1..] == []; }
    SavedMember(p, store, b);
    TwoActive(Saved(p, store, b), stored, Redacted(p, b));
  }

  /** Placing keeps the invariant for every store and every candidate that supersedes nothing, exactly when
      redaction renames no key. */
  lemma PlacingKeepsIff(p: Policy, now: int, group: string)
    ensures (forall store, r :: OneActive(store) && !Supersedes(r) ==> OneActive(Placed(p, store, r, now, group).store))
            <==> KeepsKeys(p)
  {
    if KeepsKeys(p) {
      forall store, r | OneActive(store) && !Supersedes(r) ensures OneActive(Placed(p, store, r, now, group).store) {
        PlacedKeeps(p, store, r, now, group);
      }
    } else {
      var key :| !KeepsKey(p, key);
      var a := Record("a", "w", "workspace", "", "", "profile", Active, "user", "", "", "", 1.0, 0, "", key, "",
                      None, true);
      RenamedKeyBreaks(p, a, a.(id := "b"), now, group);
    }
  }
}
