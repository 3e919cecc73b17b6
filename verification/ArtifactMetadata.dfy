/** The artifact metadata rows and their lightweight index: storage/artifact_metadata_store.py and the
    index-ordered read of artifacts/store.py. */
module ArtifactMetadata {
  import opened Seqs
  import opened Sorting

  /** A metadata row, reduced to the fields the stores decide by. */
  datatype Artifact = Artifact(id: string, lifecycle: string, fileId: string, scope: string, tags: seq<string>)

  /** artifacts.index.json */
  datatype Index = Index(ids: seq<string>, count: nat)

  datatype Store = Store(rows: seq<Artifact>, index: Index)

  function Ids(rows: seq<Artifact>): (ids: seq<string>)
    ensures |ids| == |rows| && forall i :: 0 <= i < |rows| ==> ids[i] == rows[i].id
  {
    Map(rows, (r: Artifact) => r.id)
  }

  // ---------------------------------------------------- what each edit does

  function Others(rows: seq<Artifact>, id: string): seq<Artifact> {
    Filter(rows, (r: Artifact) => r.id != id)
  }

  function OtherIds(ids: seq<string>, id: string): seq<string> {
    Filter(ids, (x: string) => x != id)
  }

  function Counted(ids: seq<string>): Index { Index(ids, |ids|) }

  /** The upserted row goes to the end of the rows; the index gets an id it does not have yet. */
  function Upserted(s: Store, row: Artifact, addToIndex: bool): Store {
    Store(Others(s.rows, row.id) + [row],
          if !addToIndex then s.index
          else Counted(if row.id in s.index.ids then s.index.ids else s.index.ids + [row.id]))
  }

  function Removed(s: Store, id: string): Store {
    Store(Others(s.rows, id), Counted(OtherIds(s.index.ids, id)))
  }

  // ---------------------------------------------------------------- the runs

  /** What the callers do: create with a fresh id, write back a row that is there, remove. */
  datatype Edit = Create(row: Artifact) | Update(row: Artifact) | Remove(id: string)

  predicate Allowed(s: Store, e: Edit) {
    match e
    case Create(row) => row.id != "" && row.id !in Ids(s.rows)
    case Update(row) => row.id in Ids(s.rows)
    case Remove(_) => true
  }

  function Edited(s: Store, e: Edit): Store {
    match e
    case Create(row) => Upserted(s, row, true)
    case Update(row) => Upserted(s, row, false)
    case Remove(id) => Removed(s, id)
  }

  ghost predicate Runs(s: Store, edits: seq<Edit>, s': Store)
    decreases |edits|
  {
    if edits == [] then s == s' else Allowed(s, edits[0]) && Runs(Edited(s, edits[0]), edits[1..], s')
  }

  const EmptyStore := Store([], Index([], 0))

  /** The ids created and not removed since, in the order of their creation. */
  function CreationOrder(ids: seq<string>, edits: seq<Edit>): seq<string>
    decreases |edits|
  {
    if edits == [] then ids
    else CreationOrder(match edits[0]
                       case Create(row) => ids + [row.id]
                       case Update(_) => ids
                       case Remove(id) => OtherIds(ids, id), edits[1..])
  }

  // ------------------------------------------------------------- invariant

  predicate SameMembers(a: seq<string>, b: seq<string>) {
    (forall id :: id in a ==> id in b) && (forall id :: id in b ==> id in a)
  }

  predicate Consistent(s: Store) {
    && NoRepeat(Ids(s.rows)) && NoRepeat(s.index.ids) && SameMembers(Ids(s.rows), s.index.ids)
    && s.index.count == |s.index.ids| && "" !in s.index.ids
  }

  lemma {:induction false} IdsOfOthers(rows: seq<Artifact>, id: string)
    ensures Ids(Others(rows, id)) == OtherIds(Ids(rows), id)
  {
    if rows != [] {
      IdsOfOthers(rows[1..], id);
      assert Ids(rows)[1..] == Ids(rows[1..]);
      var rest := Others(rows[1..], id);
      NothingMore(rest, []);
      NothingMore(Ids(rest), []);
      if rows[0].id != id { assert Ids([rows[0]] + rest) == [rows[0].id] + Ids(rest); }
    }
  }

  lemma IdsSnoc(rows: seq<Artifact>, row: Artifact)
    ensures Ids(rows + [row]) == Ids(rows) + [row.id]
  {
  }

  lemma OtherIdsMember(ids: seq<string>, id: string)
    ensures forall x :: x in OtherIds(ids, id) <==> x in ids && x != id
  {
    forall x ensures x in OtherIds(ids, id) <==> x in ids && x != id {
      FilterMember(ids, (y: string) => y != id, x);
    }
  }

  lemma EditKeepsConsistent(s: Store, e: Edit)
    requires Consistent(s) && Allowed(s, e)
    ensures Consistent(Edited(s, e))
    ensures Edited(s, e).index.ids == CreationOrder(s.index.ids, [e])
  {
    assert [e][1..] == [];
    var id := if e.Remove? then e.id else e.row.id;
    IdsOfOthers(s.rows, id);
    OtherIdsMember(Ids(s.rows), id);
    FilterNoRepeat(Ids(s.rows), (x: string) => x != id);
    match e
    case Create(row) =>
      IdsSnoc(Others(s.rows, id), row);
      NoRepeatSnoc(s.index.ids, id);
    case Update(row) =>
      IdsSnoc(Others(s.rows, id), row);
    case Remove(_) =>
      OtherIdsMember(s.index.ids, id);
      FilterNoRepeat(s.index.ids, (x: string) => x != id);
  }

  /** Over every run the rows and the index stay consistent, and the index lists what is there in the
      order of creation, although every update moves its row to the end of the rows. */
  lemma {:induction false} RunsKeepConsistent(s: Store, edits: seq<Edit>, s': Store)
    requires Consistent(s) && Runs(s, edits, s')
    ensures Consistent(s') && s'.index.ids == CreationOrder(s.index.ids, edits)
    decreases |edits|
  {
    if edits != [] {
      EditKeepsConsistent(s, edits[0]);
      assert [edits[0]][1..] == [];
      RunsKeepConsistent(Edited(s, edits[0]), edits[1..], s');
    }
  }

  // ---------------------------------------------- the index-ordered reading

  datatype Found = Missing | Row(row: Artifact)

  /** The last row of an id; rows without an id are never found. */
  function LatestRow(rows: seq<Artifact>, id: string): (found: Found)
    ensures found.Row? ==> found.row in rows && found.row.id == id && id != ""
  {
    if rows == [] || id == "" then Missing
    else if rows[|rows| - 1].id == id then Row(rows[|rows| - 1])
    else LatestRow(rows[..|rows| - 1], id)
  }

  /** The ids that have rows, by their first row: the key order of the dict of latest rows. */
  function Keys(rows: seq<Artifact>): seq<string> {
    if rows == [] then []
    else
      var keys := Keys(rows[..|rows| - 1]);
      var id := rows[|rows| - 1].id;
      if id == "" || id in keys then keys else keys + [id]
  }

  /** The ids of the index; of all rows when the index has none. */
  function LoadedIds(s: Store): seq<string> {
    if s.index.ids != [] then s.index.ids else OtherIds(Ids(s.rows), "")
  }

  function OrderedIds(s: Store): seq<string> {
    LoadedIds(s) + Filter(Keys(s.rows), (id: string) => id !in LoadedIds(s))
  }

  function Project(rows: seq<Artifact>, ids: seq<string>): seq<Artifact> {
    if ids == [] then []
    else
      var found := LatestRow(rows, ids[0]);
      (if found.Row? then [found.row] else []) + Project(rows, ids[1..])
  }

  function IndexOrder(s: Store): seq<Artifact> { Project(s.rows, OrderedIds(s)) }

  lemma {:induction false} KeysAreIds(rows: seq<Artifact>)
    ensures NoRepeat(Keys(rows)) && "" !in Keys(rows)
    ensures forall id :: id in Keys(rows) <==> id != "" && id in Ids(rows)
    ensures forall id :: id in Keys(rows) <==> LatestRow(rows, id).Row?
  {
    if rows != [] {
      var front := rows[..|rows| - 1];
      KeysAreIds(front);
      assert rows == front + [rows[|rows| - 1]];
      IdsSnoc(front, rows[|rows| - 1]);
      var id := rows[|rows| - 1].id;
      if id !in Keys(front) { NoRepeatSnoc(Keys(front), id); }
    }
  }

  /** The projection lists exactly those of the ids that have a row, in the same order. */
  lemma {:induction false} ProjectedIds(rows: seq<Artifact>, ids: seq<string>)
    ensures Ids(Project(rows, ids)) == Filter(ids, (id: string) => LatestRow(rows, id).Row?)
    ensures forall r :: r in Project(rows, ids) ==> LatestRow(rows, r.id) == Row(r)
  {
    if ids != [] {
      ProjectedIds(rows, ids[1..]);
      var rest := Project(rows, ids[1..]);
      var found := LatestRow(rows, ids[0]);
      NothingMore(rest, []);
      NothingMore(Ids(rest), []);
      if found.Row? { assert Ids([found.row] + rest) == [found.row.id] + Ids(rest); }
    }
  }

  /** Whatever the index has lost or kept too long: every id with a row is listed exactly once, by its last
      row, and nothing else is listed. */
  lemma ListsEveryRecordOnce(s: Store)
    requires NoRepeat(s.index.ids) && (s.index.ids == [] ==> NoRepeat(Ids(s.rows)))
    ensures NoRepeat(Ids(IndexOrder(s)))
    ensures forall id :: id in Ids(IndexOrder(s)) <==> id != "" && id in Ids(s.rows)
    ensures forall r :: r in IndexOrder(s) ==> LatestRow(s.rows, r.id) == Row(r)
  {
    var ids := LoadedIds(s);
    var extra := (id: string) => id !in ids;
    KeysAreIds(s.rows);
    if s.index.ids == [] { FilterNoRepeat(Ids(s.rows), (x: string) => x != ""); }
    FilterNoRepeat(Keys(s.rows), extra);
    forall x ensures x in Filter(Keys(s.rows), extra) <==> x in Keys(s.rows) && x !in ids {
      FilterMember(Keys(s.rows), extra, x);
    }
    NoRepeatAppend(ids, Filter(Keys(s.rows), extra));
    ProjectedIds(s.rows, OrderedIds(s));
    var hasRow := (id: string) => LatestRow(s.rows, id).Row?;
    FilterNoRepeat(OrderedIds(s), hasRow);
    forall x ensures x in Filter(OrderedIds(s), hasRow) <==> x in OrderedIds(s) && hasRow(x) {
      FilterMember(OrderedIds(s), hasRow, x);
    }
  }

  lemma HeadIsMember(ids: seq<string>)
    ensures ids != [] ==> ids[0] in ids
  {
  }

  lemma {:induction false} LatestOfOthers(rows: seq<Artifact>, id: string, other: string)
    ensures LatestRow(Others(rows, id), other) == if other == id then Missing else LatestRow(rows, other)
  {
    if rows != [] {
      var front, last := rows[..|rows| - 1], rows[|rows| - 1];
      LatestOfOthers(front, id, other);
      FilterSnoc(front, last, (r: Artifact) => r.id != id);
      assert rows == front + [last];
      if last.id != id { LatestSnoc(Others(front, id), last, other); }
    }
  }

  lemma LatestSnoc(rows: seq<Artifact>, row: Artifact, id: string)
    ensures LatestRow(rows + [row], id) == if id != "" && row.id == id then Row(row) else LatestRow(rows, id)
  {
    assert (rows + [row])[..|rows|] == rows;
  }

  /** Reading after an edit: the edited id gives what was written, or nothing once removed; every other id gives
      what it gave before. */
  lemma ReadAfterEdit(s: Store, e: Edit, id: string)
    requires id != ""
    ensures LatestRow(Edited(s, e).rows, id) ==
            match e
            case Create(row) => if id == row.id then Row(row) else LatestRow(s.rows, id)
            case Update(row) => if id == row.id then Row(row) else LatestRow(s.rows, id)
            case Remove(gone) => if id == gone then Missing else LatestRow(s.rows, id)
  {
    match e
    case Create(row) =>
      LatestSnoc(Others(s.rows, row.id), row, id);
      LatestOfOthers(s.rows, row.id, id);
    case Update(row) =>
      LatestSnoc(Others(s.rows, row.id), row, id);
      LatestOfOthers(s.rows, row.id, id);
    case Remove(gone) => LatestOfOthers(s.rows, gone, id);
  }

  /** Along any run from the empty store the listing is the current rows in creation order. */
  lemma ListingIsCreationOrder(edits: seq<Edit>, s: Store)
    requires Runs(EmptyStore, edits, s)
    ensures Ids(IndexOrder(s)) == CreationOrder([], edits)
    ensures |IndexOrder(s)| == |s.rows| == s.index.count
    ensures forall r :: r in s.rows <==> r in IndexOrder(s)
  {
    RunsKeepConsistent(EmptyStore, edits, s);
    KeysAreIds(s.rows);
    ConsistentListing(s);
    SameSize(Ids(s.rows), s.index.ids);
    forall r ensures r in s.rows <==> r in IndexOrder(s) { SameRow(s, r); }
  }

  lemma ConsistentListing(s: Store)
    requires Consistent(s)
    ensures Ids(IndexOrder(s)) == s.index.ids
  {
    KeysAreIds(s.rows);
    if s.index.ids == [] {
      HeadIsMember(Ids(s.rows));
    } else {
      FilterNone(Keys(s.rows), (id: string) => id !in LoadedIds(s));
      NothingMore(s.index.ids, []);
      ProjectedIds(s.rows, s.index.ids);
      FilterAll(s.index.ids, (id: string) => LatestRow(s.rows, id).Row?);
    }
  }

  lemma {:induction false} OnlyRow(rows: seq<Artifact>, r: Artifact)
    requires NoRepeat(Ids(rows)) && r in rows && r.id != ""
    ensures LatestRow(rows, r.id) == Row(r)
  {
    var last := rows[|rows| - 1];
    var front := rows[..|rows| - 1];
    assert rows == front + [last];
    if r != last {
      assert r in front;
      var i :| 0 <= i < |front| && front[i] == r;
      assert Ids(rows)[i] == r.id && Ids(rows)[|rows| - 1] == last.id;
      IdsSnoc(front, last);
      assert NoRepeat(Ids(front)) by {
        assert forall i :: 0 <= i < |front| ==> Ids(front)[i] == Ids(rows)[i];
      }
      OnlyRow(front, r);
    }
  }

  lemma SameRow(s: Store, r: Artifact)
    requires Consistent(s)
    ensures r in s.rows <==> r in IndexOrder(s)
  {
    ConsistentListing(s);
    ProjectedIds(s.rows, OrderedIds(s));
    if r in s.rows {
      var k :| 0 <= k < |s.rows| && s.rows[k] == r;
      assert Ids(s.rows)[k] == r.id;
      assert r.id in s.index.ids;
      OnlyRow(s.rows, r);
      var i :| 0 <= i < |s.index.ids| && s.index.ids[i] == r.id;
      assert IndexOrder(s)[i].id == r.id && IndexOrder(s)[i] in IndexOrder(s);
    }
  }

  lemma {:induction false} SameSize(a: seq<string>, b: seq<string>)
    requires NoRepeat(a) && NoRepeat(b) && SameMembers(a, b)
    ensures |a| == |b|
  {
    if a == [] {
      HeadIsMember(b);
    } else {
      var x := a[0];
      assert x in a;
      OtherIdsMember(b, x);
      FilterNoRepeat(b, (y: string) => y != x);
      DropOne(b, x);
      assert NoRepeat(a[1..]) && x !in a[1..];
      HeadTail(a);
      SameSize(a[1..], OtherIds(b, x));
    }
  }

  lemma {:induction false} DropOne(ids: seq<string>, x: string)
    requires NoRepeat(ids) && x in ids
    ensures |OtherIds(ids, x)| == |ids| - 1
  {
    HeadTail(ids);
    if ids[0] == x {
      assert x !in ids[1..];
      FilterAll(ids[1..], (y: string) => y != x);
      NothingMore(ids[1..], []);
    } else {
      DropOne(ids[1..], x);
    }
  }

  // ------------------------------------------------------- the stored files

  class ArtifactMetadataStore {
    var rows: seq<Artifact>
    var index: Index

    constructor ()
      ensures State() == EmptyStore
    {
      rows, index := [], Index([], 0);
    }

    function State(): Store
      reads this
    {
      Store(rows, index)
    }

    /** Runs under the metadata lock. */
    method UpsertArtifactRecord(row: Artifact, addToIndex: bool)
      modifies this
      ensures State() == Upserted(old(State()), row, addToIndex)
    {
      var kept := KeepOthers(rows, row.id);
      rows := kept + [row];
      if addToIndex {
        var ids := index.ids;
        if row.id !in ids { ids := ids + [row.id]; }
        index := Index(ids, |ids|);
      }
    }

    /** The rows file is rewritten only when a row was found; the index file always. */
    method RemoveArtifactRecord(id: string) returns (found: bool)
      modifies this
      ensures State() == Removed(old(State()), id)
      ensures found <==> id in Ids(old(rows))
    {
      var kept := KeepOthers(rows, id);
      found := |kept| != |rows|;
      FoundIffShorter(rows, id);
      if found { rows := kept; }
      var ids := KeepOtherIds(index.ids, id);
      index := Index(ids, |ids|);
    }

    /** `_records_in_index_order` over one consistent snapshot. */
    method RecordsInIndexOrder() returns (records: seq<Artifact>)
      ensures records == IndexOrder(State())
    {
      var latest: map<string, Artifact> := map[];
      var keys: seq<string> := [];
      for i := 0 to |rows|
        invariant keys == Keys(rows[..i])
        invariant forall id :: id in latest <==> LatestRow(rows[..i], id).Row?
        invariant forall id :: id in latest ==> LatestRow(rows[..i], id) == Row(latest[id])
        invariant forall id :: id in latest <==> id in keys
      {
        assert rows[..i + 1][..i] == rows[..i];
        var id := rows[i].id;
        if id != "" {
          if id !in latest { keys := keys + [id]; }
          latest := latest[id := rows[i]];
        }
      }
      assert rows[..|rows|] == rows;
      var ordered := LoadIndex();
      ordered := ExtendIds(ordered, keys);
      records := ProjectLatest(latest, ordered);
    }

    method LoadIndex() returns (ids: seq<string>)
      ensures ids == LoadedIds(State())
    {
      if index.ids != [] { return index.ids; }
      ids := KeepOtherIds(Ids(rows), "");
    }

    method ExtendIds(ordered: seq<string>, keys: seq<string>) returns (ids: seq<string>)
      ensures ids == ordered + Filter(keys, (id: string) => id !in ordered)
    {
      ghost var extra := (id: string) => id !in ordered;
      var more := [];
      for i := 0 to |keys|
        invariant more + Filter(keys[i..], extra) == Filter(keys, extra)
      {
        TailOfTail(keys, i);
        Associative(more, [keys[i]], Filter(keys[i + 1..], extra));
        NothingMore(Filter(keys[i + 1..], extra), []);
        if keys[i] !in ordered { more := more + [keys[i]]; }
      }
      NothingMore(more, Filter(keys[|keys|..], extra));
      ids := ordered + more;
    }

    method ProjectLatest(latest: map<string, Artifact>, ordered: seq<string>) returns (records: seq<Artifact>)
      requires forall id :: id in latest <==> LatestRow(rows, id).Row?
      requires forall id :: id in latest ==> LatestRow(rows, id) == Row(latest[id])
      ensures records == Project(rows, ordered)
    {
      records := [];
      for i := 0 to |ordered|
        invariant records + Project(rows, ordered[i..]) == Project(rows, ordered)
      {
        TailOfTail(ordered, i);
        if ordered[i] in latest {
          Associative(records, [latest[ordered[i]]], Project(rows, ordered[i + 1..]));
          records := records + [latest[ordered[i]]];
        } else {
          NothingMore(Project(rows, ordered[i + 1..]), []);
        }
      }
      NothingMore(records, Project(rows, ordered[|ordered|..]));
    }
  }

  method KeepOthers(rows: seq<Artifact>, id: string) returns (kept: seq<Artifact>)
    ensures kept == Others(rows, id)
  {
    kept := [];
    for i := 0 to |rows|
      invariant kept + Others(rows[i..], id) == Others(rows, id)
    {
      TailOfTail(rows, i);
      Associative(kept, [rows[i]], Others(rows[i + 1..], id));
      NothingMore(Others(rows[i + 1..], id), []);
      if rows[i].id != id { kept := kept + [rows[i]]; }
    }
    NothingMore(kept, Others(rows[|rows|..], id));
  }

  method KeepOtherIds(ids: seq<string>, id: string) returns (kept: seq<string>)
    ensures kept == OtherIds(ids, id)
  {
    kept := [];
    for i := 0 to |ids|
      invariant kept + OtherIds(ids[i..], id) == OtherIds(ids, id)
    {
      TailOfTail(ids, i);
      Associative(kept, [ids[i]], OtherIds(ids[i + 1..], id));
      NothingMore(OtherIds(ids[i + 1..], id), []);
      if ids[i] != id { kept := kept + [ids[i]]; }
    }
    NothingMore(kept, OtherIds(ids[|ids|..], id));
  }

  lemma {:induction false} FoundIffShorter(rows: seq<Artifact>, id: string)
    ensures |Others(rows, id)| != |rows| <==> id in Ids(rows)
    ensures |Others(rows, id)| == |rows| ==> Others(rows, id) == rows
  {
    if rows != [] {
      FoundIffShorter(rows[1..], id);
      HeadTail(rows);
      NothingMore(Others(rows[1..], id), []);
      assert Ids(rows) == [rows[0].id] + Ids(rows[1..]);
    }
  }
}
