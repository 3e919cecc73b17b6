/** Artifacts and the files they share: the save, tag, promote and delete operations of artifacts/store.py. */
module ArtifactLinkage {
  import opened Seqs
  import opened ArtifactMetadata
  import F = FileIndex
  import FS = FileStores
  import opened Wrappers

  /** Artifact metadata and the file index of one workspace. */
  datatype System = System(store: Store, files: seq<F.FileRecord>)

  predicate Deleted(r: Artifact) { r.lifecycle == "deleted" }

  // --------------------------------------------------------------- operations

  /** rec.get("lifecycle", "active") == "active" */
  predicate ActiveFile(rec: F.FileRecord) { "lifecycle" !in rec || rec["lifecycle"] == "active" }

  predicate Active(files: seq<F.FileRecord>, fid: string) {
    var rec := FS.FileOf(files, fid);
    rec.Some? && ActiveFile(rec.value)
  }

  /** The file named by the caller is reused while it is active and the content held no secret. */
  predicate Reuses(files: seq<F.FileRecord>, fid: string, hadSecret: bool) {
    fid != "" && !hadSecret && Active(files, fid)
  }

  /** Saving `art`, whose content has passed the size and secret checks. */
  function Saved(s: System, art: Artifact, fid: string, hadSecret: bool, newFile: F.FileRecord, stamp: string): System
    requires F.HasId(newFile)
  {
    if Reuses(s.files, fid, hadSecret)
    then System(Upserted(s.store, art.(lifecycle := "active", fileId := fid), true),
                F.Merge(s.files, fid, map["metadata" := stamp]))
    else System(Upserted(s.store, art.(lifecycle := "active", fileId := newFile["file_id"]), true),
                F.PutLast(s.files, newFile))
  }

  function Tagged(s: System, id: string, tags: seq<string>): System {
    match LatestRow(s.store.rows, id)
    case Missing => s
    case Row(rec) => s.(store := Upserted(s.store, rec.(tags := tags), false))
  }

  /** `permitted`: what the sensitivity rules say about the target scope. */
  function Promoted(s: System, id: string, scope: string, permitted: bool): System {
    if scope !in ["workspace", "shared", "global"] then s
    else match LatestRow(s.store.rows, id)
      case Missing => s
      case Row(rec) =>
        if !permitted then s
        else s.(store := Upserted(s.store, rec.(scope := scope, lifecycle := "promoted"), false))
  }

  function SoftDeletedArtifact(s: System, id: string, stamp: string): System {
    match LatestRow(s.store.rows, id)
    case Missing => s
    case Row(rec) =>
      System(Upserted(s.store, rec.(lifecycle := "deleted"), false),
             if rec.fileId != "" then FS.SoftDeleted(s.files, rec.fileId, stamp) else s.files)
  }

  /** Another artifact that is not deleted has the same file. */
  predicate Shared(rows: seq<Artifact>, rec: Artifact) {
    exists i :: 0 <= i < |rows| && rows[i].id != rec.id && !Deleted(rows[i]) && rows[i].fileId == rec.fileId
  }

  /** `unlinked`: whether the payload could be removed from the disk. */
  function HardDeleted(s: System, id: string, unlinked: bool): System {
    match LatestRow(s.store.rows, id)
    case Missing => s
    case Row(rec) =>
      System(Removed(s.store, id),
             if rec.fileId != "" && !Shared(IndexOrder(s.store), rec)
             then FS.DeletedForGood(s.files, rec.fileId, unlinked)
             else s.files)
  }

  // --------------------------------------------------------------------- runs

  datatype Step =
    | Save(art: Artifact, fid: string, hadSecret: bool, newFile: F.FileRecord, stamp: string)
    | Tag(id: string, tags: seq<string>)
    | Promote(id: string, scope: string, permitted: bool)
    | SoftDelete(id: string, stamp: string)
    | HardDelete(id: string, unlinked: bool)
    | Purge(fid: string, unlinked: bool, stamp: string)

  /** A new artifact has an id of its own, and a new file record has an id and is active. */
  predicate Enabled(s: System, t: Step) {
    t.Save? ==> t.art.id != "" && t.art.id !in Ids(s.store.rows) && F.HasId(t.newFile) && ActiveFile(t.newFile)
  }

  function Stepped(s: System, t: Step): System
    requires Enabled(s, t)
  {
    match t
    case Save(art, fid, hadSecret, newFile, stamp) => Saved(s, art, fid, hadSecret, newFile, stamp)
    case Tag(id, tags) => Tagged(s, id, tags)
    case Promote(id, scope, permitted) => Promoted(s, id, scope, permitted)
    case SoftDelete(id, stamp) => SoftDeletedArtifact(s, id, stamp)
    case HardDelete(id, unlinked) => HardDeleted(s, id, unlinked)
    case Purge(fid, unlinked, stamp) => s.(files := FS.Purged(s.files, fid, unlinked, stamp))
  }

  /** A promote step does not revive: its artifact, if there is one, is not deleted. */
  predicate Revives(s: System, t: Step) {
    && t.Promote?
    && var found := LatestRow(s.store.rows, t.id); found.Row? && Deleted(found.row)
  }

  predicate Run(s: System, steps: seq<Step>, s': System, revivals: bool)
    decreases |steps|
  {
    if steps == [] then s == s'
    else
      && Enabled(s, steps[0]) && (!revivals ==> !Revives(s, steps[0]))
      && Run(Stepped(s, steps[0]), steps[1..], s', revivals)
  }

  const Start := System(EmptyStore, [])

  // ---------------------------------------------------------------- invariant

  predicate LinkOk(files: seq<F.FileRecord>, r: Artifact) {
    Deleted(r) || r.fileId == "" || FS.HasFile(files, r.fileId)
  }

  /** Every artifact that is not deleted and names a file has a file record. */
  predicate Linked(s: System) {
    forall r :: r in s.store.rows ==> LinkOk(s.files, r)
  }

  lemma OthersMember(rows: seq<Artifact>, id: string)
    ensures forall r :: r in Others(rows, id) <==> r in rows && r.id != id
  {
    forall r ensures r in Others(rows, id) <==> r in rows && r.id != id {
      FilterMember(rows, (x: Artifact) => x.id != id, r);
    }
  }

  lemma UpsertedMember(s: Store, row: Artifact, addToIndex: bool)
    ensures forall r :: r in Upserted(s, row, addToIndex).rows <==> r == row || (r in s.rows && r.id != row.id)
  {
    OthersMember(s.rows, row.id);
  }

  lemma SaveKeepsLinked(s: System, t: Step)
    requires t.Save? && Enabled(s, t) && Linked(s)
    ensures Linked(Stepped(s, t))
  {
    var s' := Stepped(s, t);
    var reuse := Reuses(s.files, t.fid, t.hadSecret);
    var art := t.art.(lifecycle := "active", fileId := if reuse then t.fid else t.newFile["file_id"]);
    UpsertedMember(s.store, art, true);
    FS.MergeKeepsFiles(s.files, t.fid, map["metadata" := t.stamp]);
    FS.PutLastAddsFile(s.files, t.newFile);
  }

  lemma RewriteKeepsLinked(s: System, row: Artifact, files': seq<F.FileRecord>)
    requires Linked(s) && LinkOk(files', row)
    requires forall f :: FS.HasFile(s.files, f) ==> FS.HasFile(files', f)
    ensures Linked(System(Upserted(s.store, row, false), files'))
  {
    UpsertedMember(s.store, row, false);
  }

  lemma SoftDeleteKeepsFiles(files: seq<F.FileRecord>, fid: string, stamp: string)
    ensures forall f :: FS.HasFile(FS.SoftDeleted(files, fid, stamp), f) <==> FS.HasFile(files, f)
  {
    FS.MergeKeepsFiles(files, fid, FS.Marked("soft_deleted", stamp));
  }

  lemma PurgeKeepsFiles(files: seq<F.FileRecord>, fid: string, unlinked: bool, stamp: string)
    ensures forall f :: FS.HasFile(FS.Purged(files, fid, unlinked, stamp), f) <==> FS.HasFile(files, f)
  {
    FS.MergeKeepsFiles(files, fid, FS.Marked("purged", stamp));
  }

  /** Another artifact that is not deleted has the file of `rec`. */
  ghost predicate HasSharer(rows: seq<Artifact>, rec: Artifact) {
    exists r :: r in rows && r.id != rec.id && !Deleted(r) && r.fileId == rec.fileId
  }

  /** With consistent metadata, sharing seen through the index order is sharing among the rows. */
  lemma SharedInRows(s: Store, rec: Artifact)
    requires Consistent(s)
    ensures Shared(IndexOrder(s), rec) <==> HasSharer(s.rows, rec)
  {
    forall r ensures r in s.rows <==> r in IndexOrder(s) { SameRow(s, r); }
    if r :| r in s.rows && r.id != rec.id && !Deleted(r) && r.fileId == rec.fileId {
      var i :| 0 <= i < |IndexOrder(s)| && IndexOrder(s)[i] == r;
    }
  }

  lemma HardDeleteKeepsLinked(s: System, id: string, unlinked: bool)
    requires Consistent(s.store) && Linked(s)
    ensures Linked(HardDeleted(s, id, unlinked))
  {
    var found := LatestRow(s.store.rows, id);
    if found.Row? {
      OthersMember(s.store.rows, id);
      SharedInRows(s.store, found.row);
      FS.RemoveDropsFile(s.files, found.row.fileId);
    }
  }

  lemma PromoteKeepsLinked(s: System, t: Step)
    requires t.Promote? && Linked(s) && !Revives(s, t)
    ensures Linked(Stepped(s, t))
  {
    var found := LatestRow(s.store.rows, t.id);
    if found.Row? { RewriteKeepsLinked(s, found.row.(scope := t.scope, lifecycle := "promoted"), s.files); }
  }

  lemma StepKeepsLinked(s: System, t: Step)
    requires Consistent(s.store) && Linked(s) && Enabled(s, t) && !Revives(s, t)
    ensures Linked(Stepped(s, t))
  {
    match t
    case Save(_, _, _, _, _) => SaveKeepsLinked(s, t);
    case Tag(id, tags) =>
      var found := LatestRow(s.store.rows, id);
      if found.Row? { RewriteKeepsLinked(s, found.row.(tags := tags), s.files); }
    case Promote(_, _, _) => PromoteKeepsLinked(s, t);
    case SoftDelete(id, stamp) =>
      var found := LatestRow(s.store.rows, id);
      if found.Row? {
        SoftDeleteKeepsFiles(s.files, found.row.fileId, stamp);
        RewriteKeepsLinked(s, found.row.(lifecycle := "deleted"), Stepped(s, t).files);
      }
    case HardDelete(id, unlinked) => HardDeleteKeepsLinked(s, id, unlinked);
    case Purge(fid, unlinked, stamp) => PurgeKeepsFiles(s.files, fid, unlinked, stamp);
  }

  lemma RowIsIndexed(rows: seq<Artifact>, r: Artifact)
    requires r in rows
    ensures r.id in Ids(rows)
  {
    var i :| 0 <= i < |rows| && rows[i] == r;
    assert Ids(rows)[i] == r.id;
  }

  /** Each step edits the metadata in one of the allowed ways, or not at all. */
  lemma StepKeepsConsistent(s: System, t: Step)
    requires Consistent(s.store) && Enabled(s, t)
    ensures Consistent(Stepped(s, t).store)
  {
    if t.Save? {
      var reuse := Reuses(s.files, t.fid, t.hadSecret);
      EditKeepsConsistent(s.store,
        Create(t.art.(lifecycle := "active", fileId := if reuse then t.fid else t.newFile["file_id"])));
    } else if !t.Purge? {
      var found := LatestRow(s.store.rows, t.id);
      if found.Row? {
        RowIsIndexed(s.store.rows, found.row);
        match t
        case Tag(_, tags) => EditKeepsConsistent(s.store, Update(found.row.(tags := tags)));
        case Promote(_, scope, _) =>
          EditKeepsConsistent(s.store, Update(found.row.(scope := scope, lifecycle := "promoted")));
        case SoftDelete(_, _) => EditKeepsConsistent(s.store, Update(found.row.(lifecycle := "deleted")));
        case HardDelete(id, _) => EditKeepsConsistent(s.store, Remove(id));
      }
    }
  }

  function Target(t: Step): string {
    match t
    case Save(art, _, _, _, _) => art.id
    case Tag(id, _) => id
    case Promote(id, _, _) => id
    case SoftDelete(id, _) => id
    case HardDelete(id, _) => id
    case Purge(_, _, _) => ""
  }

  /** A step changes no artifact but its own. */
  lemma OthersReadTheSame(s: System, t: Step, other: string)
    requires Enabled(s, t) && other != "" && other != Target(t)
    ensures LatestRow(Stepped(s, t).store.rows, other) == LatestRow(s.store.rows, other)
  {
    if t.Save? {
      var reuse := Reuses(s.files, t.fid, t.hadSecret);
      ReadAfterEdit(s.store,
        Create(t.art.(lifecycle := "active", fileId := if reuse then t.fid else t.newFile["file_id"])), other);
    } else if t.HardDelete? {
      ReadAfterEdit(s.store, Remove(t.id), other);
    } else if !t.Purge? {
      var found := LatestRow(s.store.rows, t.id);
      if found.Row? { RewriteReads(s.store, t.id, t, found.row, other); }
    }
  }

  lemma RewriteReads(s: Store, id: string, t: Step, rec: Artifact, read: string)
    requires LatestRow(s.rows, id) == Row(rec) && read != "" && (t.Tag? || t.Promote? || t.SoftDelete?)
    ensures LatestRow(Upserted(s, Rewritten(t, rec), false).rows, read) ==
            if read == id then Row(Rewritten(t, rec)) else LatestRow(s.rows, read)
  {
    ReadAfterEdit(s, Update(Rewritten(t, rec)), read);
  }

  /** The row a step writes back for its artifact. */
  function Rewritten(t: Step, rec: Artifact): Artifact
    requires t.Tag? || t.Promote? || t.SoftDelete?
  {
    match t
    case Tag(_, tags) => rec.(tags := tags)
    case Promote(_, scope, _) => rec.(scope := scope, lifecycle := "promoted")
    case SoftDelete(_, _) => rec.(lifecycle := "deleted")
  }

  /** A saved artifact reads as active, over the file the caller named exactly when that file is recorded, is
      active or says nothing of its lifecycle, and the content held no secret; else over the new file. Content
      that held a secret never touches a record that was there, unless the new id is taken from it. */
  lemma SavedReads(s: System, t: Step)
    requires t.Save? && Enabled(s, t)
    ensures var rec, s' := FS.FileOf(s.files, t.fid), Stepped(s, t);
      var reused := t.fid != "" && !t.hadSecret && rec.Some?
                    && ("lifecycle" !in rec.value || rec.value["lifecycle"] == "active");
      && LatestRow(s'.store.rows, t.art.id) ==
         Row(t.art.(lifecycle := "active", fileId := if reused then t.fid else t.newFile["file_id"]))
      && (t.hadSecret ==> forall f :: f in s.files && !F.Matches(f, t.newFile["file_id"]) ==> f in s'.files)
  {
    var reuse := Reuses(s.files, t.fid, t.hadSecret);
    ReadAfterEdit(s.store,
      Create(t.art.(lifecycle := "active", fileId := if reuse then t.fid else t.newFile["file_id"])), t.art.id);
    forall f | f in s.files && !F.Matches(f, t.newFile["file_id"]) ensures f in F.PutLast(s.files, t.newFile) {
      FilterMember(s.files, (x: F.FileRecord) => !F.SameId(t.newFile, x), f);
    }
  }

  /** What its own artifact reads as afterwards: gone after a hard delete, rewritten by the other operations on
      an existing artifact, and otherwise as it was. */
  lemma OwnReadsRewritten(s: System, t: Step)
    requires !t.Save? && !t.Purge? && t.id != ""
    ensures var found := LatestRow(s.store.rows, t.id);
            LatestRow(Stepped(s, t).store.rows, t.id) ==
            if found.Missing? || t.HardDelete? then Missing
            else if t.Promote? && !(t.permitted && t.scope in ["workspace", "shared", "global"]) then found
            else Row(Rewritten(t, found.row))
  {
    var found := LatestRow(s.store.rows, t.id);
    if t.HardDelete? {
      ReadAfterEdit(s.store, Remove(t.id), t.id);
    } else if found.Row? {
      RewriteReads(s.store, t.id, t, found.row, t.id);
    }
  }

  /** Over every run without a revival, every artifact that is not deleted still has its file record. */
  lemma {:induction false} RunsKeepLinked(s: System, steps: seq<Step>, s': System)
    requires Consistent(s.store) && Linked(s) && Run(s, steps, s', false)
    ensures Consistent(s'.store) && Linked(s')
    decreases |steps|
  {
    if steps != [] {
      StepKeepsConsistent(s, steps[0]);
      StepKeepsLinked(s, steps[0]);
      RunsKeepLinked(Stepped(s, steps[0]), steps[1..], s');
    }
  }

  lemma LiveArtifactsHaveFiles(steps: seq<Step>, s: System, r: Artifact)
    requires Run(Start, steps, s, false) && r in s.store.rows && !Deleted(r) && r.fileId != ""
    ensures FS.FileOf(s.files, r.fileId).Some?
  {
    RunsKeepLinked(Start, steps, s);
    assert LinkOk(s.files, r);
  }

  // ------------------------------------------------------------- exact results

  /** A hard delete drops its artifact, and of the files exactly its own, exactly when there is one, it can be
      unlinked, and no other artifact that is not deleted shares it. */
  lemma HardDeleteIsExact(s: System, id: string, unlinked: bool, rec: Artifact, fid: string)
    requires Consistent(s.store) && LatestRow(s.store.rows, id) == Row(rec)
    ensures forall r :: r in HardDeleted(s, id, unlinked).store.rows <==> r in s.store.rows && r.id != id
    ensures FS.HasFile(s.files, fid) && !FS.HasFile(HardDeleted(s, id, unlinked).files, fid) <==>
            && FS.HasFile(s.files, fid) && fid == rec.fileId && fid != "" && unlinked
            && !HasSharer(s.store.rows, rec)
    ensures FS.HasFile(HardDeleted(s, id, unlinked).files, fid) ==> FS.HasFile(s.files, fid)
  {
    OthersMember(s.store.rows, id);
    SharedInRows(s.store, rec);
    FS.RemoveDropsFile(s.files, rec.fileId);
  }

  /** Promoting keeps the links exactly when the artifact is not deleted or its file, if it names one, is
      still recorded. */
  lemma PromoteKeepsLinkedIff(s: System, id: string, scope: string, rec: Artifact)
    requires Linked(s) && LatestRow(s.store.rows, id) == Row(rec) && scope in ["workspace", "shared", "global"]
    ensures Linked(Promoted(s, id, scope, true)) <==>
            !Deleted(rec) || rec.fileId == "" || FS.FileOf(s.files, rec.fileId).Some?
  {
    var row := rec.(scope := scope, lifecycle := "promoted");
    UpsertedMember(s.store, row, false);
    assert row in Promoted(s, id, scope, true).store.rows;
    assert LinkOk(s.files, rec);
  }

  /** Every artifact that is not deleted and names a file has an active one. */
  predicate AllActive(s: System) {
    forall r :: r in s.store.rows && !Deleted(r) && r.fileId != "" ==> Active(s.files, r.fileId)
  }

  lemma {:induction false} MergedFile(files: seq<F.FileRecord>, fid: string, updates: F.FileRecord, f: string)
    requires "file_id" !in updates
    ensures FS.FileOf(F.Merge(files, fid, updates), f) ==
            var rec := FS.FileOf(files, f);
            if rec.Some? && f == fid then Some(rec.value + updates) else rec
  {
    if files != [] { MergedFile(files[1..], fid, updates, f); }
  }

  lemma SoftDeletedIsInactive(files: seq<F.FileRecord>, fid: string, stamp: string, f: string)
    ensures Active(FS.SoftDeleted(files, fid, stamp), f) <==> Active(files, f) && f != fid
  {
    MergedFile(files, fid, FS.Marked("soft_deleted", stamp), f);
  }

  /** Soft deletion does not look at sharing: it leaves every other artifact with an active file exactly when
      no other artifact that is not deleted has the same file. */
  lemma SoftDeleteKeepsActiveIff(s: System, id: string, stamp: string, rec: Artifact)
    requires AllActive(s) && LatestRow(s.store.rows, id) == Row(rec)
    ensures AllActive(SoftDeletedArtifact(s, id, stamp)) <==> rec.fileId == "" || !HasSharer(s.store.rows, rec)
  {
    var s' := SoftDeletedArtifact(s, id, stamp);
    UpsertedMember(s.store, rec.(lifecycle := "deleted"), false);
    if rec.fileId != "" {
      forall r | r in s.store.rows
        ensures Active(s'.files, r.fileId) <==> Active(s.files, r.fileId) && r.fileId != rec.fileId {
        SoftDeletedIsInactive(s.files, rec.fileId, stamp, r.fileId);
      }
    }
  }

  // -------------------------------------------- runs that keep files active

  lemma {:induction false} FileOfRemoved(files: seq<F.FileRecord>, fid: string, f: string)
    requires f != fid
    ensures FS.FileOf(F.Remove(files, fid), f) == FS.FileOf(files, f)
  {
    if files != [] {
      var rest := F.Remove(files[1..], fid);
      FileOfRemoved(files[1..], fid, f);
      NothingMore(rest, []);
      if !F.Matches(files[0], fid) { assert ([files[0]] + rest)[1..] == rest; }
    }
  }

  lemma {:induction false} FileOfSnoc(files: seq<F.FileRecord>, rec: F.FileRecord, f: string)
    ensures FS.FileOf(files + [rec], f) ==
            if FS.FileOf(files, f).Some? then FS.FileOf(files, f)
            else if F.Matches(rec, f) then Some(rec) else None
  {
    if files == [] {
      assert (files + [rec])[1..] == [];
    } else {
      assert (files + [rec])[1..] == files[1..] + [rec];
      FileOfSnoc(files[1..], rec, f);
    }
  }

  /** A new file record is the one found under its id; the others stay. */
  lemma FileOfPut(files: seq<F.FileRecord>, rec: F.FileRecord, f: string)
    requires F.HasId(rec)
    ensures FS.FileOf(F.PutLast(files, rec), f) == if f == rec["file_id"] then Some(rec) else FS.FileOf(files, f)
  {
    var fid := rec["file_id"];
    FilterSame(files, (x: F.FileRecord) => !F.SameId(rec, x), (x: F.FileRecord) => !F.Matches(x, fid));
    FileOfSnoc(F.Remove(files, fid), rec, f);
    FS.RemoveDropsFile(files, fid);
    if f != fid { FileOfRemoved(files, fid, f); }
  }

  predicate InUse(rows: seq<Artifact>, fid: string) {
    exists i :: 0 <= i < |rows| && !Deleted(rows[i]) && rows[i].fileId == fid
  }

  lemma InUseMember(rows: seq<Artifact>, fid: string)
    ensures InUse(rows, fid) <==> exists r :: r in rows && !Deleted(r) && r.fileId == fid
  {
    if r :| r in rows && !Deleted(r) && r.fileId == fid {
      var i :| 0 <= i < |rows| && rows[i] == r;
    }
  }

  /** Promoting, when it goes through, keeps the files active exactly when it revives nothing or the file of what
      it revives, if there is one, is active still; a soft delete has made it inactive. */
  lemma PromoteKeepsActiveIff(s: System, id: string, scope: string, rec: Artifact)
    requires AllActive(s) && LatestRow(s.store.rows, id) == Row(rec) && scope in ["workspace", "shared", "global"]
    ensures AllActive(Promoted(s, id, scope, true)) <==>
            !Deleted(rec) || rec.fileId == "" || Active(s.files, rec.fileId)
  {
    var row := rec.(scope := scope, lifecycle := "promoted");
    UpsertedMember(s.store, row, false);
    assert row in Promoted(s, id, scope, true).store.rows;
  }

  lemma PurgedIsInactive(files: seq<F.FileRecord>, fid: string, stamp: string, f: string)
    ensures Active(FS.Purged(files, fid, true, stamp), f) <==> Active(files, f) && f != fid
  {
    MergedFile(files, fid, FS.Marked("purged", stamp), f);
  }

  /** A purge that can remove the payload keeps the files active exactly when no artifact that is not deleted has
      the file. */
  lemma PurgeKeepsActiveIff(s: System, fid: string, unlinked: bool, stamp: string)
    requires AllActive(s)
    ensures AllActive(s.(files := FS.Purged(s.files, fid, unlinked, stamp))) <==>
            !unlinked || fid == "" || !InUse(s.store.rows, fid)
  {
    InUseMember(s.store.rows, fid);
    if unlinked {
      forall r | r in s.store.rows
        ensures Active(FS.Purged(s.files, fid, unlinked, stamp), r.fileId) <==>
                Active(s.files, r.fileId) && r.fileId != fid {
        PurgedIsInactive(s.files, fid, stamp, r.fileId);
      }
    }
  }

  /** A promotion revives nothing or finds its file active, a soft delete finds nobody sharing its file, and a
      purge that can remove the payload finds the file not in use. */
  ghost predicate Gentle(s: System, t: Step) {
    match t
    case Promote(id, scope, permitted) =>
      var found := LatestRow(s.store.rows, id);
      found.Row? && permitted && scope in ["workspace", "shared", "global"] ==>
        !Deleted(found.row) || found.row.fileId == "" || Active(s.files, found.row.fileId)
    case SoftDelete(id, _) =>
      var found := LatestRow(s.store.rows, id);
      found.Row? && found.row.fileId != "" ==> !HasSharer(s.store.rows, found.row)
    case Purge(fid, unlinked, _) => !unlinked || fid == "" || !InUse(s.store.rows, fid)
    case _ => true
  }

  lemma SaveKeepsActive(s: System, t: Step)
    requires t.Save? && Enabled(s, t) && AllActive(s)
    ensures AllActive(Stepped(s, t))
  {
    var reuse := Reuses(s.files, t.fid, t.hadSecret);
    var fid := if reuse then t.fid else t.newFile["file_id"];
    UpsertedMember(s.store, t.art.(lifecycle := "active", fileId := fid), true);
    forall f | Active(s.files, f) ensures Active(Stepped(s, t).files, f) {
      MergedFile(s.files, t.fid, map["metadata" := t.stamp], f);
      FileOfPut(s.files, t.newFile, f);
    }
    FileOfPut(s.files, t.newFile, t.newFile["file_id"]);
  }

  lemma RewriteKeepsActive(s: System, row: Artifact, files': seq<F.FileRecord>)
    requires AllActive(s) && (!Deleted(row) && row.fileId != "" ==> Active(s.files, row.fileId))
    requires files' == s.files
    ensures AllActive(System(Upserted(s.store, row, false), files'))
  {
    UpsertedMember(s.store, row, false);
  }

  lemma HardDeleteKeepsActive(s: System, id: string, unlinked: bool)
    requires Consistent(s.store) && AllActive(s)
    ensures AllActive(HardDeleted(s, id, unlinked))
  {
    var s' := HardDeleted(s, id, unlinked);
    var found := LatestRow(s.store.rows, id);
    if found.Row? {
      OthersMember(s.store.rows, id);
      SharedInRows(s.store, found.row);
      forall r | r in s'.store.rows && !Deleted(r) && r.fileId != "" ensures Active(s'.files, r.fileId) {
        if r.fileId != found.row.fileId { FileOfRemoved(s.files, found.row.fileId, r.fileId); }
      }
    }
  }

  /** A step keeps an active file for every artifact that is not deleted exactly when it is gentle. */
  lemma StepKeepsActiveIff(s: System, t: Step)
    requires Consistent(s.store) && AllActive(s) && Enabled(s, t)
    ensures AllActive(Stepped(s, t)) <==> Gentle(s, t)
  {
    match t
    case Save(_, _, _, _, _) => SaveKeepsActive(s, t);
    case Tag(id, tags) =>
      var found := LatestRow(s.store.rows, id);
      if found.Row? { RewriteKeepsActive(s, found.row.(tags := tags), s.files); }
    case Promote(id, scope, _) =>
      var found := LatestRow(s.store.rows, id);
      if found.Row? && scope in ["workspace", "shared", "global"] { PromoteKeepsActiveIff(s, id, scope, found.row); }
    case SoftDelete(id, stamp) =>
      var found := LatestRow(s.store.rows, id);
      if found.Row? { SoftDeleteKeepsActiveIff(s, id, stamp, found.row); }
    case HardDelete(id, unlinked) => HardDeleteKeepsActive(s, id, unlinked);
    case Purge(fid, unlinked, stamp) => PurgeKeepsActiveIff(s, fid, unlinked, stamp);
  }

  ghost predicate GentleRun(s: System, steps: seq<Step>, s': System)
    decreases |steps|
  {
    if steps == [] then s == s'
    else Enabled(s, steps[0]) && Gentle(s, steps[0]) && GentleRun(Stepped(s, steps[0]), steps[1..], s')
  }

  /** Every state of the run, the last included, has an active file for every artifact that is not deleted. */
  predicate ActiveThroughout(s: System, steps: seq<Step>)
    decreases |steps|
  {
    AllActive(s)
    && (steps != [] ==> Enabled(s, steps[0]) && ActiveThroughout(Stepped(s, steps[0]), steps[1..]))
  }

  /** A run keeps its files active all along exactly when all its steps are gentle. */
  lemma {:induction false} ActiveThroughoutIff(s: System, steps: seq<Step>, s': System)
    requires Consistent(s.store) && AllActive(s) && Run(s, steps, s', true)
    ensures ActiveThroughout(s, steps) <==> GentleRun(s, steps, s')
    decreases |steps|
  {
    if steps != [] {
      StepKeepsConsistent(s, steps[0]);
      StepKeepsActiveIff(s, steps[0]);
      if Gentle(s, steps[0]) { ActiveThroughoutIff(Stepped(s, steps[0]), steps[1..], s'); }
    }
  }

  lemma {:induction false} RunsKeepActive(s: System, steps: seq<Step>, s': System)
    requires Consistent(s.store) && AllActive(s) && GentleRun(s, steps, s')
    ensures Consistent(s'.store) && AllActive(s')
    decreases |steps|
  {
    if steps != [] {
      StepKeepsConsistent(s, steps[0]);
      StepKeepsActiveIff(s, steps[0]);
      RunsKeepActive(Stepped(s, steps[0]), steps[1..], s');
    }
  }

  /** From an empty workspace, over every run of gentle steps, every artifact that is not deleted and names a file
      has an active one. */
  lemma LiveArtifactsHaveActiveFiles(steps: seq<Step>, s: System, r: Artifact)
    requires GentleRun(Start, steps, s) && r in s.store.rows && !Deleted(r) && r.fileId != ""
    ensures Active(s.files, r.fileId)
  {
    RunsKeepActive(Start, steps, s);
  }

  // ------------------------------------------------ a revival that loses the file

  lemma OthersOne(x: Artifact, id: string)
    ensures Others([x], id) == if x.id != id then [x] else []
  {
    assert [x][1..] == [];
  }

  lemma OthersTwo(x: Artifact, y: Artifact, id: string)
    ensures Others([x, y], id) == (if x.id != id then [x] else []) + if y.id != id then [y] else []
  {
    assert [x, y][1..] == [y];
    OthersOne(y, id);
  }

  lemma FirstOfTwo(x: Artifact, y: Artifact)
    requires x.id != y.id && x.id != ""
    ensures LatestRow([x], x.id) == Row(x) && LatestRow([x, y], x.id) == Row(x)
  {
    assert [x, y][..1] == [x];
  }

  lemma MergeOne(file: F.FileRecord, fid: string, updates: F.FileRecord)
    requires F.Matches(file, fid)
    ensures F.Merge([file], fid, updates) == [file + updates] && F.Remove([file], fid) == []
  {
    assert [file][1..] == [];
  }

  /** Two artifacts of one file; the first is soft deleted, and takes the file's activity with it. */
  lemma FirstSharerGoes(a: Artifact, b: Artifact, file: F.FileRecord, store: Store)
    requires a.id != b.id && a.id != "" && a.fileId != "" && F.Matches(file, a.fileId) && FS.InState(file, "active")
    requires store.rows == [a, b]
    ensures SoftDeletedArtifact(System(store, [file]), a.id, "") ==
            System(Store([b, a.(lifecycle := "deleted")], store.index), [file + FS.Marked("soft_deleted", "")])
  {
    FirstOfTwo(a, b);
    OthersTwo(a, b, a.id);
    MergeOne(file, a.fileId, FS.Marked("soft_deleted", ""));
  }

  /** The second is deleted for good: nobody else who is not deleted has the file, so the record goes. */
  lemma SecondSharerGoes(a: Artifact, b: Artifact, file: F.FileRecord, store: Store)
    requires a.id != b.id && b.id != "" && b.fileId == a.fileId != "" && F.Matches(file, a.fileId) && Deleted(a)
    requires Consistent(store) && store.rows == [b, a]
    ensures HardDeleted(System(store, [file]), b.id, true) == System(Removed(store, b.id), [])
    ensures Removed(store, b.id).rows == [a]
  {
    FirstOfTwo(b, a);
    OthersTwo(b, a, b.id);
    SharedInRows(store, b);
    MergeOne(file, a.fileId, map[]);
  }

  lemma LastSharerGone(a: Artifact, b: Artifact, file: F.FileRecord, s: System)
    requires a.id != b.id && a.id != "" && b.id != "" && b.fileId == a.fileId != ""
    requires F.Matches(file, a.fileId) && FS.InState(file, "active")
    requires Consistent(s.store) && s.store.rows == [a, b] && s.files == [file]
    ensures var s2 := HardDeleted(SoftDeletedArtifact(s, a.id, ""), b.id, true);
            s2.store.rows == [a.(lifecycle := "deleted")] && s2.files == []
  {
    var gone := a.(lifecycle := "deleted");
    FirstSharerGoes(a, b, file, s.store);
    StepKeepsConsistent(s, SoftDelete(a.id, ""));
    SecondSharerGoes(gone, b, file + FS.Marked("soft_deleted", ""), SoftDeletedArtifact(s, a.id, "").store);
  }

  lemma PromotedWithoutFile(s: System, gone: Artifact)
    requires s.store.rows == [gone] && gone.id != "" && gone.fileId != "" && s.files == []
    ensures !Linked(Promoted(s, gone.id, "workspace", true))
  {
    var revived := gone.(scope := "workspace", lifecycle := "promoted");
    UpsertedMember(s.store, revived, false);
    assert LatestRow(s.store.rows, gone.id) == Row(gone);
    assert revived in Promoted(s, gone.id, "workspace", true).store.rows;
  }

  lemma RevivedIsUnlinked(a: Artifact, b: Artifact, file: F.FileRecord, s: System)
    requires a.id != b.id && a.id != "" && b.id != "" && b.fileId == a.fileId != ""
    requires F.Matches(file, a.fileId) && FS.InState(file, "active")
    requires Consistent(s.store) && s.store.rows == [a, b] && s.files == [file]
    ensures !Linked(RevivedLast(s, a, b))
  {
    LastSharerGone(a, b, file, s);
    PromotedWithoutFile(HardDeleted(SoftDeletedArtifact(s, a.id, ""), b.id, true), a.(lifecycle := "deleted"));
  }

  /** After two artifacts share a file, soft deleting one, hard deleting the other and promoting the first leaves
      a promoted artifact without a file record. */
  lemma RevivalAfterSharing(a: Artifact, b: Artifact, file: F.FileRecord, s: System) returns (s': System)
    requires a.id != b.id && a.id != "" && b.id != "" && b.fileId == a.fileId != ""
    requires F.Matches(file, a.fileId) && FS.InState(file, "active")
    requires Consistent(s.store) && s.store.rows == [a, b] && s.files == [file]
    ensures Run(s, [SoftDelete(a.id, ""), HardDelete(b.id, true), Promote(a.id, "workspace", true)], s', true)
    ensures !Linked(s')
  {
    RunOfThree(s, SoftDelete(a.id, ""), HardDelete(b.id, true), Promote(a.id, "workspace", true));
    RevivedIsUnlinked(a, b, file, s);
    s' := RevivedLast(s, a, b);
  }

  function RevivedLast(s: System, a: Artifact, b: Artifact): System {
    Stepped(Stepped(Stepped(s, SoftDelete(a.id, "")), HardDelete(b.id, true)), Promote(a.id, "workspace", true))
  }

  lemma RunOfThree(s: System, x: Step, y: Step, z: Step)
    requires !x.Save? && !y.Save? && !z.Save?
    ensures Run(s, [x, y, z], Stepped(Stepped(Stepped(s, x), y), z), true)
  {
    var s1 := Stepped(s, x);
    var s2 := Stepped(s1, y);
    assert [z][1..] == [];
    assert Run(s2, [z], Stepped(s2, z), true);
    assert [y, z][1..] == [z];
    assert Run(s1, [y, z], Stepped(s2, z), true);
    assert [x, y, z][1..] == [y, z];
  }

  /** A run of one save. */
  lemma OneSave(a: Artifact, file: F.FileRecord) returns (s: System)
    requires a.id != "" && F.HasId(file) && FS.InState(file, "active")
    requires a.lifecycle == "active" && a.fileId == file["file_id"]
    ensures Run(Start, [Save(a, "", false, file, "")], s, true)
    ensures s.store.rows == [a] && s.files == [file] && Consistent(s.store)
  {
    var save := Save(a, "", false, file, "");
    s := Saved(Start, a, "", false, file, "");
    StepKeepsConsistent(Start, save);
    assert [save][1..] == [];
  }

  lemma OneArtifactIsActive(s: System, a: Artifact, file: F.FileRecord)
    requires s.store.rows == [a] && s.files == [file] && F.Matches(file, a.fileId) && FS.InState(file, "active")
    ensures AllActive(s)
  {
  }

  /** After a save, purging the file leaves the artifact without an active one ... */
  lemma PurgeInUseBreaks(a: Artifact, file: F.FileRecord) returns (s: System)
    requires a.id != "" && F.HasId(file) && FS.InState(file, "active")
    requires a.lifecycle == "active" && a.fileId == file["file_id"]
    ensures Run(Start, [Save(a, "", false, file, "")], s, true)
    ensures AllActive(s) && !AllActive(s.(files := FS.Purged(s.files, a.fileId, true, "")))
  {
    s := OneSave(a, file);
    OneArtifactIsActive(s, a, file);
    assert s.store.rows[0] == a;
    PurgeKeepsActiveIff(s, a.fileId, true, "");
  }

  /** ... and so does promoting the artifact after soft deleting it. */
  lemma RevivedFileIsInactive(a: Artifact, file: F.FileRecord) returns (s: System)
    requires a.id != "" && F.HasId(file) && FS.InState(file, "active")
    requires a.lifecycle == "active" && a.fileId == file["file_id"]
    ensures Run(Start, [Save(a, "", false, file, "")], s, true)
    ensures AllActive(SoftDeletedArtifact(s, a.id, ""))
    ensures !AllActive(Promoted(SoftDeletedArtifact(s, a.id, ""), a.id, "workspace", true))
  {
    s := OneSave(a, file);
    OneArtifactIsActive(s, a, file);
    var gone := a.(lifecycle := "deleted");
    assert LatestRow(s.store.rows, a.id) == Row(a);
    SoftDeleteKeepsActiveIff(s, a.id, "", a);
    SoftDeletedIsInactive(s.files, a.fileId, "", a.fileId);
    OthersOne(a, a.id);
    assert SoftDeletedArtifact(s, a.id, "").store.rows == [gone];
    PromoteKeepsActiveIff(SoftDeletedArtifact(s, a.id, ""), a.id, "workspace", gone);
  }

  lemma SecondSave(a: Artifact, b: Artifact, file: F.FileRecord, s1: System) returns (s: System)
    requires a.id != b.id && a.id != "" && b.id != "" && F.HasId(file) && FS.InState(file, "active")
    requires b.lifecycle == "active" && a.fileId == b.fileId == file["file_id"]
    requires s1.store.rows == [a] && s1.files == [file] && Consistent(s1.store)
    ensures Run(s1, [Save(b, a.fileId, false, file, "")], s, true)
    ensures s.store.rows == [a, b] && s.files == [file + map["metadata" := ""]] && Consistent(s.store)
  {
    var second := Save(b, a.fileId, false, file, "");
    OthersOne(a, b.id);
    MergeOne(file, a.fileId, map["metadata" := ""]);
    assert Ids([a]) == [a.id];
    s := Saved(s1, b, a.fileId, false, file, "");
    StepKeepsConsistent(s1, second);
    assert [second][1..] == [];
  }

  /** Saving an artifact and saving another one over the same file. */
  lemma TwoSavesShare(a: Artifact, b: Artifact, file: F.FileRecord) returns (s: System)
    requires a.id != b.id && a.id != "" && b.id != "" && F.HasId(file) && FS.InState(file, "active")
    requires a.lifecycle == b.lifecycle == "active" && a.fileId == b.fileId == file["file_id"]
    ensures Run(Start, [Save(a, "", false, file, ""), Save(b, a.fileId, false, file, "")], s, true)
    ensures s.store.rows == [a, b] && s.files == [file + map["metadata" := ""]] && Consistent(s.store)
  {
    var s1 := OneSave(a, file);
    s := SecondSave(a, b, file, s1);
    RunAppend(Start, [Save(a, "", false, file, "")], s1, [Save(b, a.fileId, false, file, "")], s);
    assert [Save(a, "", false, file, "")] + [Save(b, a.fileId, false, file, "")]
        == [Save(a, "", false, file, ""), Save(b, a.fileId, false, file, "")];
  }

  /** ... and soft deleting the first leaves the second without an active file. */
  lemma SharedSoftDeleteBreaks(a: Artifact, b: Artifact, file: F.FileRecord) returns (s: System)
    requires a.id != b.id && a.id != "" && b.id != "" && F.HasId(file) && FS.InState(file, "active")
    requires a.lifecycle == b.lifecycle == "active" && a.fileId == b.fileId == file["file_id"]
    ensures Run(Start, [Save(a, "", false, file, ""), Save(b, a.fileId, false, file, "")], s, true)
    ensures AllActive(s) && !AllActive(SoftDeletedArtifact(s, a.id, ""))
  {
    s := TwoSavesShare(a, b, file);
    FirstOfTwo(a, b);
    assert b in s.store.rows;
    SoftDeleteKeepsActiveIff(s, a.id, "", a);
  }

  lemma {:induction false} RunAppend(s: System, before: seq<Step>, s1: System, after: seq<Step>, s2: System)
    requires Run(s, before, s1, true) && Run(s1, after, s2, true)
    ensures Run(s, before + after, s2, true)
    decreases |before|
  {
    if before == [] {
      NothingMore(after, before);
    } else {
      assert (before + after)[1..] == before[1..] + after;
      RunAppend(Stepped(s, before[0]), before[1..], s1, after, s2);
    }
  }

  /** Without the condition on promoting links break, for any two artifacts and any file: a run from the empty
      workspace that saves both over the file, soft deletes one, hard deletes the other and promotes the first
      leaves a promoted artifact whose file record is gone. */
  lemma RevivalLosesTheFile(a: Artifact, b: Artifact, file: F.FileRecord) returns (steps: seq<Step>, s: System)
    requires a.id != b.id && a.id != "" && b.id != "" && F.HasId(file) && FS.InState(file, "active")
    requires a.lifecycle == b.lifecycle == "active" && a.fileId == b.fileId == file["file_id"]
    ensures Run(Start, steps, s, true) && !Linked(s)
    ensures steps == [Save(a, "", false, file, ""), Save(b, a.fileId, false, file, ""),
                      SoftDelete(a.id, ""), HardDelete(b.id, true), Promote(a.id, "workspace", true)]
  {
    var shared := TwoSavesShare(a, b, file);
    s := RevivalAfterSharing(a, b, file + map["metadata" := ""], shared);
    var saves := [Save(a, "", false, file, ""), Save(b, a.fileId, false, file, "")];
    var rest := [SoftDelete(a.id, ""), HardDelete(b.id, true), Promote(a.id, "workspace", true)];
    RunAppend(Start, saves, shared, rest, s);
    steps := saves + rest;
  }
}
