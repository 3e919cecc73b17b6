/** The lifecycle of managed files: storage/file_store.py over the file index. */
module FileStores {
  import opened Seqs
  import opened FileIndex
  import opened IndexFiles
  import opened Wrappers

  // -------------------------------------------- specification on the ordered map

  predicate HasFile(files: seq<FileRecord>, fid: string) { exists i :: 0 <= i < |files| && Matches(files[i], fid) }

  function FileOf(files: seq<FileRecord>, fid: string): (rec: Option<FileRecord>)
    ensures rec.Some? <==> HasFile(files, fid)
    ensures rec.Some? ==> rec.value in files && Matches(rec.value, fid)
  {
    if files == [] then None
    else if Matches(files[0], fid) then Some(files[0])
    else
      assert HasFile(files, fid) ==> HasFile(files[1..], fid) by {
        if i :| 0 <= i < |files| && Matches(files[i], fid) { assert files[1..][i - 1] == files[i]; }
      }
      assert HasFile(files[1..], fid) ==> HasFile(files, fid) by {
        if i :| 0 <= i < |files[1..]| && Matches(files[1..][i], fid) { assert files[i + 1] == files[1..][i]; }
      }
      FileOf(files[1..], fid)
  }

  predicate InState(rec: FileRecord, lifecycle: string) { "lifecycle" in rec && rec["lifecycle"] == lifecycle }

  /** The fields an operation writes; `stamp` is the new metadata value. */
  function Marked(lifecycle: string, stamp: string): FileRecord {
    map["lifecycle" := lifecycle, "metadata" := stamp]
  }

  function SoftDeleted(files: seq<FileRecord>, fid: string, stamp: string): seq<FileRecord> {
    var rec := FileOf(files, fid);
    if rec.None? || InState(rec.value, "soft_deleted") || InState(rec.value, "purged") then files
    else Merge(files, fid, Marked("soft_deleted", stamp))
  }

  /** `unlinked`: the payload could be removed, or was gone already. */
  function Purged(files: seq<FileRecord>, fid: string, unlinked: bool, stamp: string): seq<FileRecord> {
    var rec := FileOf(files, fid);
    if rec.None? || InState(rec.value, "purged") || !unlinked then files
    else Merge(files, fid, Marked("purged", stamp))
  }

  function DeletedForGood(files: seq<FileRecord>, fid: string, unlinked: bool): seq<FileRecord> {
    if FileOf(files, fid).Some? && unlinked then Remove(files, fid) else files
  }

  // ------------------------------------------------------------------- lemmas

  lemma MergeKeepsFiles(files: seq<FileRecord>, fid: string, updates: FileRecord)
    requires "file_id" !in updates
    ensures forall f :: HasFile(Merge(files, fid, updates), f) <==> HasFile(files, f)
  {
    var files' := Merge(files, fid, updates);
    forall f ensures HasFile(files', f) <==> HasFile(files, f) {
      assert forall i :: 0 <= i < |files| ==> (Matches(files'[i], f) <==> Matches(files[i], f));
    }
  }

  lemma HasFileIn(files: seq<FileRecord>, fid: string)
    ensures HasFile(files, fid) <==> exists x :: x in files && Matches(x, fid)
  {
    if x :| x in files && Matches(x, fid) {
      var i :| 0 <= i < |files| && files[i] == x;
      assert Matches(files[i], fid);
    }
  }

  lemma RemoveDropsFile(files: seq<FileRecord>, fid: string)
    ensures forall f :: HasFile(Remove(files, fid), f) <==> HasFile(files, f) && f != fid
  {
    forall f ensures HasFile(Remove(files, fid), f) <==> HasFile(files, f) && f != fid {
      HasFileIn(files, f);
      HasFileIn(Remove(files, fid), f);
      forall x ensures x in Remove(files, fid) <==> x in files && !Matches(x, fid) {
        FilterMember(files, (y: FileRecord) => !Matches(y, fid), x);
      }
    }
  }

  lemma HasFileSnoc(files: seq<FileRecord>, rec: FileRecord, f: string)
    ensures HasFile(files + [rec], f) <==> HasFile(files, f) || Matches(rec, f)
  {
    if i :| 0 <= i < |files| && Matches(files[i], f) { assert (files + [rec])[i] == files[i]; }
    if Matches(rec, f) { assert (files + [rec])[|files|] == rec; }
  }

  lemma PutLastAddsFile(files: seq<FileRecord>, rec: FileRecord)
    requires HasId(rec)
    ensures forall f :: HasFile(PutLast(files, rec), f) <==> HasFile(files, f) || f == rec["file_id"]
  {
    var fid := rec["file_id"];
    FilterSame(files, (x: FileRecord) => !SameId(rec, x), (x: FileRecord) => !Matches(x, fid));
    RemoveDropsFile(files, fid);
    forall f ensures HasFile(PutLast(files, rec), f) <==> HasFile(files, f) || f == fid {
      HasFileSnoc(Remove(files, fid), rec, f);
    }
  }

  lemma ViewedIsFound(c: Codec, lines: seq<string>, fid: string)
    ensures HasFile(View(c, lines), fid) ==> Found(c, lines, fid)
  {
    if HasFile(View(c, lines), fid) {
      HasFileIn(View(c, lines), fid);
      var x :| x in View(c, lines) && Matches(x, fid);
      LatestMember(Records(c, lines), x);
      FoundMeansRecorded(c, lines, fid);
    }
  }

  // ------------------------------------------------- what a compaction takes

  /** A compaction keeps exactly the records with no mark, or with one that none of the deletions writes. */
  lemma CompactionKeepsIff(files: seq<FileRecord>, x: FileRecord)
    ensures x in Live(files) <==>
            x in files && !InState(x, "soft_deleted") && !InState(x, "deleted") && !InState(x, "purged")
  {
    FilterMember(files, (y: FileRecord) => !Retired(y), x);
  }

  /** Marking a file and compacting is compacting and removing it. */
  lemma {:induction false} MarkedAreDropped(files: seq<FileRecord>, fid: string, lifecycle: string, stamp: string)
    requires lifecycle in ["soft_deleted", "purged"]
    ensures Live(Merge(files, fid, Marked(lifecycle, stamp))) == Remove(Live(files), fid)
  {
    if files != [] {
      var head, marked := [files[0]], Merge(files, fid, Marked(lifecycle, stamp));
      MarkedAreDropped(files[1..], fid, lifecycle, stamp);
      assert marked[1..] == Merge(files[1..], fid, Marked(lifecycle, stamp));
      FilterOne(files[0], (x: FileRecord) => !Matches(x, fid));
      FilterAppend(if Retired(files[0]) then [] else head, Live(files[1..]), (x: FileRecord) => !Matches(x, fid));
    }
  }

  /** The record that is found is the only one of its id. */
  lemma {:induction false} OnlyOne(files: seq<FileRecord>, fid: string, x: FileRecord)
    requires Distinct(files) && x in files && Matches(x, fid)
    ensures FileOf(files, fid) == Some(x)
  {
    HeadTail(files);
    if x in files[1..] {
      OnlyOne(files[1..], fid, x);
      var i :| 0 <= i < |files[1..]| && files[1..][i] == x;
      assert !SameId(files[0], files[1..][i]);
    }
  }

  lemma RetiredIsGone(files: seq<FileRecord>, fid: string)
    requires Distinct(files) && (FileOf(files, fid).Some? ==> Retired(FileOf(files, fid).value))
    ensures Live(files) == Remove(Live(files), fid)
  {
    forall x | x in Live(files) ensures !Matches(x, fid) {
      FilterMember(files, (y: FileRecord) => !Retired(y), x);
      if Matches(x, fid) { OnlyOne(files, fid, x); }
    }
    FilterAll(Live(files), (x: FileRecord) => !Matches(x, fid));
  }

  /** What is soft deleted, and what is purged with its payload, is what a compaction takes besides what it took
      before: deleting and compacting is compacting and removing the file. */
  lemma CompactionDropsDeleted(files: seq<FileRecord>, fid: string, unlinked: bool, stamp: string)
    requires Distinct(files)
    ensures Live(SoftDeleted(files, fid, stamp)) == Remove(Live(files), fid)
    ensures unlinked ==> Live(Purged(files, fid, unlinked, stamp)) == Remove(Live(files), fid)
    ensures !unlinked ==> Live(Purged(files, fid, unlinked, stamp)) == Live(files)
  {
    MarkedAreDropped(files, fid, "soft_deleted", stamp);
    MarkedAreDropped(files, fid, "purged", stamp);
    var rec := FileOf(files, fid);
    if rec.None? || Retired(rec.value) { RetiredIsGone(files, fid); }
  }

  // -------------------------------------------------------------------- class

  class FileStore {
    const index: IndexFile

    constructor (codec: Codec)
      requires codec.Lawful()
      ensures Valid() && Files() == [] && fresh(index)
    {
      index := new IndexFile(codec, None);
    }

    /** The index holds JSON objects only; what reading anything else does is stated by IndexFile. */
    ghost predicate Valid()
      reads this, index
    {
      index.Valid() && index.AllObjects()
    }

    ghost function Files(): seq<FileRecord>
      reads this, index
    {
      index.Contents()
    }

    method GetFileRecord(fid: string) returns (rec: Option<FileRecord>)
      requires Valid()
      ensures rec == FileOf(Files(), fid)
    {
      var read := index.ReadFileRecords();
      var records := read.value;
      for i := 0 to |records|
        invariant FileOf(records, fid) == FileOf(records[i..], fid)
      {
        TailOfTail(records, i);
        if Matches(records[i], fid) { return Some(records[i]); }
      }
      return None;
    }

    /** Writes the record of a payload that is on disk. */
    method CreateFileRecord(rec: FileRecord)
      requires Valid() && HasId(rec)
      modifies index
      ensures Valid() && Files() == PutLast(old(Files()), rec)
    {
      index.AppendFileRecord(rec);
    }

    method UpdateMetadata(fid: string, stamp: string)
      requires Valid()
      modifies index
      ensures Valid() && Files() == Merge(old(Files()), fid, map["metadata" := stamp])
    {
      var updated := index.UpdateFileRecord(fid, map["metadata" := stamp]);
    }

    method SoftDeleteFile(fid: string, stamp: string) returns (done: bool)
      requires Valid()
      modifies index
      ensures Valid() && Files() == SoftDeleted(old(Files()), fid, stamp)
      ensures done <==> old(HasFile(Files(), fid) && !InState(FileOf(Files(), fid).value, "purged"))
    {
      var rec := GetFileRecord(fid);
      if rec.None? { return false; }
      if InState(rec.value, "soft_deleted") { return true; }
      if InState(rec.value, "purged") { return false; }
      var updated := index.UpdateFileRecord(fid, Marked("soft_deleted", stamp));
      return true;
    }

    method PurgeFile(fid: string, unlinked: bool, stamp: string) returns (done: bool)
      requires Valid()
      modifies index
      ensures Valid() && Files() == Purged(old(Files()), fid, unlinked, stamp)
      ensures done <==> old(HasFile(Files(), fid) && (unlinked || InState(FileOf(Files(), fid).value, "purged")))
    {
      var rec := GetFileRecord(fid);
      if rec.None? { return false; }
      if InState(rec.value, "purged") { return true; }
      if !unlinked { return false; }
      ViewedIsFound(index.codec, Lines(index.text), fid);
      var updated := index.UpdateFileRecord(fid, Marked("purged", stamp));
      return updated.value;
    }

    method DeleteFilePermanently(fid: string, unlinked: bool) returns (done: bool)
      requires Valid()
      modifies index
      ensures Valid() && Files() == DeletedForGood(old(Files()), fid, unlinked)
      ensures done <==> old(HasFile(Files(), fid)) && unlinked
    {
      var rec := GetFileRecord(fid);
      if rec.None? { return false; }
      if !unlinked { return false; }
      ViewedIsFound(index.codec, Lines(index.text), fid);
      var deleted := index.DeleteFileRecord(fid);
      return deleted.value;
    }
  }
}
