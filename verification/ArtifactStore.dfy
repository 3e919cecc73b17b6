/** The artifact operations over the metadata store and the file store: artifacts/store.py. */
module ArtifactStores {
  import opened ArtifactMetadata
  import opened ArtifactLinkage
  import F = FileIndex
  import FS = FileStores
  import opened Wrappers

  class ArtifactStore {
    const metadata: ArtifactMetadataStore
    const files: FS.FileStore

    constructor (codec: F.Codec)
      requires codec.Lawful()
      ensures Valid() && State() == Start && fresh(metadata) && fresh(files) && fresh(files.index)
    {
      metadata := new ArtifactMetadataStore();
      files := new FS.FileStore(codec);
    }

    ghost predicate Valid()
      reads this, metadata, files, files.index
    {
      files.Valid() && Consistent(metadata.State())
    }

    ghost function State(): System
      reads this, metadata, files, files.index
      requires Valid()
    {
      System(metadata.State(), files.Files())
    }

    method GetArtifact(id: string) returns (found: Found)
      requires Valid()
      ensures found == LatestRow(metadata.rows, id)
    {
      found := FindLatest(metadata.rows, id);
    }

    /** The file of a new artifact: the one named by the caller, or a newly written one. */
    method AdoptFile(fid: string, hadSecret: bool, newFile: F.FileRecord, stamp: string) returns (fileId: string)
      requires files.Valid() && F.HasId(newFile)
      modifies files.index
      ensures files.Valid() && FS.HasFile(files.Files(), fileId)
      ensures old(Reuses(files.Files(), fid, hadSecret)) ==>
        fileId == fid && files.Files() == F.Merge(old(files.Files()), fid, map["metadata" := stamp])
      ensures !old(Reuses(files.Files(), fid, hadSecret)) ==>
        fileId == newFile["file_id"] && files.Files() == F.PutLast(old(files.Files()), newFile)
    {
      ghost var before := files.Files();
      var existing := None;
      if fid != "" && !hadSecret { existing := files.GetFileRecord(fid); }
      if existing.Some? && ("lifecycle" !in existing.value || existing.value["lifecycle"] == "active") {
        FS.MergeKeepsFiles(before, fid, map["metadata" := stamp]);
        files.UpdateMetadata(fid, stamp);
        return existing.value["file_id"];
      }
      FS.PutLastAddsFile(before, newFile);
      files.CreateFileRecord(newFile);
      return newFile["file_id"];
    }

    /** Saving content that has passed the checks; `newFile` is the record of a newly written payload. */
    method SaveArtifact(art: Artifact, fid: string, hadSecret: bool, newFile: F.FileRecord, stamp: string)
      returns (saved: Artifact)
      requires Valid() && Enabled(State(), Save(art, fid, hadSecret, newFile, stamp))
      modifies metadata, files.index
      ensures Valid() && State() == old(Saved(State(), art, fid, hadSecret, newFile, stamp))
      ensures saved.id == art.id && saved.lifecycle == "active" && FS.HasFile(files.Files(), saved.fileId)
    {
      var fileId := AdoptFile(fid, hadSecret, newFile, stamp);
      saved := art.(lifecycle := "active", fileId := fileId);
      EditKeepsConsistent(metadata.State(), Create(saved));
      metadata.UpsertArtifactRecord(saved, true);
    }

    method UpdateArtifactTags(id: string, tags: seq<string>) returns (done: bool)
      requires Valid()
      modifies metadata
      ensures Valid() && State() == old(Tagged(State(), id, tags))
      ensures done <==> old(LatestRow(metadata.rows, id)).Row?
    {
      StepKeepsConsistent(State(), Tag(id, tags));
      var found := GetArtifact(id);
      if found.Missing? { return false; }
      metadata.UpsertArtifactRecord(found.row.(tags := tags), false);
      return true;
    }

    method PromoteArtifact(id: string, scope: string, permitted: bool) returns (promoted: Found)
      requires Valid()
      modifies metadata
      ensures Valid() && State() == old(Promoted(State(), id, scope, permitted))
      ensures promoted.Row? ==> promoted.row in metadata.rows && promoted.row.lifecycle == "promoted"
      ensures promoted.Missing? ==> State() == old(State())
    {
      StepKeepsConsistent(State(), Promote(id, scope, permitted));
      if scope !in ["workspace", "shared", "global"] { return Missing; }
      var found := GetArtifact(id);
      if found.Missing? { return Missing; }
      if !permitted { return Missing; }
      var row := found.row.(scope := scope, lifecycle := "promoted");
      UpsertedMember(metadata.State(), row, false);
      metadata.UpsertArtifactRecord(row, false);
      return Row(row);
    }

    /** `unlinked`: whether the payload could be removed from the disk. */
    method DeleteArtifact(id: string, hard: bool, unlinked: bool, stamp: string) returns (done: bool)
      requires Valid()
      modifies metadata, files.index
      ensures Valid()
      ensures State() ==
              old(if hard then HardDeleted(State(), id, unlinked) else SoftDeletedArtifact(State(), id, stamp))
      ensures done <==> old(LatestRow(metadata.rows, id)).Row?
    {
      var found := GetArtifact(id);
      if found.Missing? { return false; }
      if hard { HardDeleteRow(id, found.row, unlinked); } else { SoftDeleteRow(id, found.row, stamp); }
      return true;
    }

    method DropUnsharedFile(rec: Artifact, unlinked: bool)
      requires files.Valid()
      modifies files.index
      ensures files.Valid()
      ensures files.Files() == if rec.fileId != "" && !Shared(IndexOrder(metadata.State()), rec)
                               then FS.DeletedForGood(old(files.Files()), rec.fileId, unlinked)
                               else old(files.Files())
    {
      var records := metadata.RecordsInIndexOrder();
      var shared := IsShared(records, rec);
      if rec.fileId != "" && !shared {
        var deleted := files.DeleteFilePermanently(rec.fileId, unlinked);
      }
    }

    method HardDeleteRow(id: string, rec: Artifact, unlinked: bool)
      requires Valid() && LatestRow(metadata.rows, id) == Row(rec)
      modifies metadata, files.index
      ensures Valid() && State() == old(HardDeleted(State(), id, unlinked))
    {
      EditKeepsConsistent(metadata.State(), Remove(id));
      DropUnsharedFile(rec, unlinked);
      var removed := metadata.RemoveArtifactRecord(id);
    }

    method SoftDeleteRow(id: string, rec: Artifact, stamp: string)
      requires Valid() && LatestRow(metadata.rows, id) == Row(rec)
      modifies metadata, files.index
      ensures Valid() && State() == old(SoftDeletedArtifact(State(), id, stamp))
    {
      StepKeepsConsistent(State(), SoftDelete(id, stamp));
      metadata.UpsertArtifactRecord(rec.(lifecycle := "deleted"), false);
      if rec.fileId != "" {
        var marked := files.SoftDeleteFile(rec.fileId, stamp);
      }
    }
  }

  /** The rows are read from the last to the first. */
  method FindLatest(rows: seq<Artifact>, id: string) returns (found: Found)
    requires "" !in Ids(rows)
    ensures found == LatestRow(rows, id)
  {
    var n := |rows|;
    assert rows[..n] == rows;
    while n > 0
      invariant 0 <= n <= |rows|
      invariant LatestRow(rows[..n], id) == LatestRow(rows, id)
    {
      assert rows[..n][..n - 1] == rows[..n - 1];
      assert Ids(rows)[n - 1] == rows[n - 1].id;
      if rows[n - 1].id == id { return Row(rows[n - 1]); }
      n := n - 1;
    }
    return Missing;
  }

  method IsShared(records: seq<Artifact>, rec: Artifact) returns (shared: bool)
    ensures shared <==> Shared(records, rec)
  {
    for i := 0 to |records|
      invariant forall k :: 0 <= k < i ==>
        records[k].id == rec.id || Deleted(records[k]) || records[k].fileId != rec.fileId
    {
      if records[i].id != rec.id && !Deleted(records[i]) && records[i].fileId == rec.fileId { return true; }
    }
    return false;
  }
}
