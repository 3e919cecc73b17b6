/** The memory store and its gate as they change the stored records: storage/memory_governance.py. */
module MemoryStores {
  import opened Seqs
  import opened MemoryGate
  import opened Text
  import opened Wrappers

  /** The conflicts of a record: the other active and pending records of its scope, owner, kind and key. */
  lemma ConflictsAre(records: seq<Record>, r: Record)
    ensures forall x :: x in Conflicts(records, r) <==>
      && x in records && x.id != r.id && (x.status == Active || x.status == Pending)
      && Strip(r.key) != "" && Strip(x.key) == Strip(r.key) && x.scope == r.scope && x.kind == r.kind
      && (r.scope == "session" ==> x.sessionId == r.sessionId) && (r.scope == "task" ==> x.taskId == r.taskId)
  {
    forall x ensures x in Conflicts(records, r) <==> x in records && Contends(x, r) {
      FilterMember(records, (y: Record) => Contends(y, r), x);
    }
  }

  /** The records of one workspace, the newest save first. */
  class MemoryStore {
    const policy: Policy
    var records: seq<Record>

    constructor (policy: Policy)
      ensures this.policy == policy && records == []
    {
      this.policy := policy;
      records := [];
    }

    method Save(r: Record)
      modifies this
      ensures records == Saved(policy, old(records), r)
    {
      records := [Redacted(policy, r)] + Filter(records, (x: Record) => x.id != r.id);
    }

    method SaveAll(rs: seq<Record>)
      modifies this
      ensures records == SavedAll(policy, old(records), rs)
    {
      for i := 0 to |rs|
        invariant SavedAll(policy, records, rs[i..]) == SavedAll(policy, old(records), rs)
      {
        TailOfTail(rs, i);
        Save(rs[i]);
      }
    }

    method Get(id: string) returns (found: Option<Record>)
      ensures found.None? <==> Filter(records, (x: Record) => x.id == id) == []
      ensures found.Some? ==> found.value == Filter(records, (x: Record) => x.id == id)[0]
    {
      var same := (x: Record) => x.id == id;
      for i := 0 to |records|
        invariant Filter(records[i..], same) == Filter(records, same)
      {
        TailOfTail(records, i);
        if records[i].id == id { return Some(records[i]); }
        NothingMore(Filter(records[i + 1..], same), []);
      }
      return None;
    }

    method FindConflicts(r: Record) returns (conflicts: seq<Record>)
      ensures conflicts == Conflicts(records, r)
      ensures forall x :: x in conflicts <==>
        && x in records && x.id != r.id && (x.status == Active || x.status == Pending)
        && Strip(r.key) != "" && Strip(x.key) == Strip(r.key) && x.scope == r.scope && x.kind == r.kind
        && (r.scope == "session" ==> x.sessionId == r.sessionId) && (r.scope == "task" ==> x.taskId == r.taskId)
    {
      ConflictsAre(records, r);
      conflicts := [];
      if Key(r) == "" {
        NoKeyNoConflicts(records, r);
        return;
      }
      for i := 0 to |records|
        invariant conflicts + Conflicts(records[i..], r) == Conflicts(records, r)
      {
        var x := records[i];
        TailOfTail(records, i);
        Associative(conflicts, [x], Conflicts(records[i + 1..], r));
        NothingMore(Conflicts(records[i + 1..], r), []);
        if x.id == r.id || x.scope != r.scope || x.kind != r.kind { continue; }
        if r.scope == "session" && x.sessionId != r.sessionId { continue; }
        if r.scope == "task" && x.taskId != r.taskId { continue; }
        if x.status !in {Active, Pending} { continue; }
        if Key(x) == Key(r) { conflicts := conflicts + [x]; }
      }
      NothingMore(conflicts, Conflicts(records[|records|..], r));
    }

    /** `reject_memory` and `expire_memory`. */
    method Retire(id: string, status: Status, now: int) returns (ok: bool)
      modifies this
      ensures records == Retired(policy, old(records), id, status, now)
      ensures ok <==> exists r :: r in old(records) && r.id == id
      ensures !ok ==> records == old(records)
      ensures ok ==> exists y :: y in records && y.id == id
      ensures forall y :: y in records && y.id == id ==>
                exists x :: x in old(records) && x.id == id && GivenStatus(policy, x, y, status, now)
      ensures SameOthers(old(records), records, id)
    {
      var found := Get(id);
      RecordFound(records, id);
      RetiringGivesStatus(policy, records, id, status, now, Retired(policy, records, id, status, now));
      if found.None? { return false; }
      Save(found.value.(status := status, updatedAt := now));
      return true;
    }
  }

  lemma {:induction false} NoKeyNoConflicts(records: seq<Record>, r: Record)
    requires Key(r) == ""
    ensures Conflicts(records, r) == []
  {
    FilterNone(records, (x: Record) => Contends(x, r));
  }

  lemma RecordFound(records: seq<Record>, id: string)
    ensures Filter(records, (x: Record) => x.id == id) != [] <==> exists r :: r in records && r.id == id
  {
    var same := (x: Record) => x.id == id;
    if r :| r in records && r.id == id { FilterMember(records, same, r); }
    if Filter(records, same) != [] { FilterMember(records, same, Filter(records, same)[0]); }
  }

  /** All writes go through the gate. */
  class MemoryWriteGate {
    const store: MemoryStore

    constructor (store: MemoryStore)
      ensures this.store == store
    {
      this.store := store;
    }

    /** The whole of `write`; `group` is the conflict group made if one is needed. */
    method Write(candidate: Record, now: int, group: string) returns (outcome: Outcome)
      modifies store
      ensures Result(store.records, outcome) == Written(store.policy, old(store.records), candidate, now, group)
      ensures StoresAsAnswered(store.policy, old(store.records), candidate, Result(store.records, outcome))
    {
      WritingStores(store.policy, store.records, candidate, now, group);
      var p := store.policy;
      if !WellFormed(candidate) { return Refused; }
      if p.secret(candidate) { return Refused; }
      if p.lowValue(candidate) {
        store.Save(candidate.(status := Rejected));
        return LowValue;
      }
      var r := candidate.(content := p.redact(candidate.content), summary := p.redact(candidate.summary));
      if Generated(r) { r := r.(status := Pending); }
      if && r.status == Pending && r.kind in ["core_rule", "knowledge_note", "profile"]
         && r.confidence >= 0.5 && ByUser(r) {
        r := r.(status := Active);
      }
      if Generated(r) {
        if r.llmScore.None? {
          r := r.(status := Pending);
        } else if !Consolidated(r) {
          store.Save(r.(status := Rejected));
          return BelowScore;
        } else {
          r := r.(status := if Trusted(r) then Active else Pending);
        }
      }
      assert r == Judged(p, candidate);
      outcome := Place(r, now, group);
    }

    method Place(r: Record, now: int, group: string) returns (outcome: Outcome)
      modifies store
      ensures Result(store.records, outcome) == Placed(store.policy, old(store.records), r, now, group)
    {
      var conflicts := store.FindConflicts(r);
      var duplicates := Duplicates(store.policy, conflicts, r);
      if duplicates != [] { return Duplicate(duplicates[0].id); }
      if conflicts != [] && Supersedes(r) {
        store.Save(LatestOf(conflicts).(status := Expired, updatedAt := now));
        store.Save(r);
        return Stored(r.status);
      }
      var actives := Actives(conflicts);
      if actives != [] {
        store.SaveAll(Marked(actives, group, now));
        store.Save(r.(status := Conflict, conflictGroup := group));
        return Stored(Conflict);
      }
      store.Save(r);
      return Stored(r.status);
    }
  }
}
