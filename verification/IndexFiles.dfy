/** storage/index.py's operations on files.jsonl, each proved against the edit it is in module FileIndex. */
module IndexFiles {
  import opened Seqs
  import opened Text
  import opened FileIndex
  import opened Wrappers

  /** One workspace's files.jsonl; every method runs under the index lock. */
  class IndexFile {
    const codec: Codec
    var text: Option<string>

    ghost predicate Valid() reads this { codec.Lawful() }

    /** What `read_file_records` sees. */
    ghost function Contents(): seq<FileRecord> reads this { View(codec, Lines(text)) }

    ghost predicate AllObjects() reads this { Readable(codec, Lines(text)) }

    constructor (codec: Codec, text: Option<string>)
      requires codec.Lawful()
      ensures Valid() && this.codec == codec && this.text == text
    {
      this.codec := codec;
      this.text := text;
    }

    method ReadLines() returns (lines: seq<string>)
      ensures lines == Lines(text)
    {
      lines := if text.None? then [] else Split(text.value);
    }

    method AppendFileRecord(rec: FileRecord)
      requires Valid()
      modifies this
      ensures text == Edited(codec, old(text), Append(rec))
      ensures Contents() == PutLast(old(Contents()), rec)
      ensures AllObjects() <==> old(AllObjects())
    {
      ghost var lines := Lines(text);
      LinesUnbroken(text);
      AppendRefines(codec, lines, rec);
      var existing := ReadLines();
      existing := existing + [codec.dump(rec)];
      text := Some(Join(existing));
    }

    method ParseAll() returns (result: Result<seq<FileRecord>>)
      ensures result == if AllObjects() then Ok(Records(codec, Lines(text))) else AttributeError
    {
      var lines := ReadLines();
      var records: seq<FileRecord> := [];
      var i := 0;
      while i < |lines|
        invariant 0 <= i <= |lines|
        invariant forall k :: 0 <= k < i ==> IsBlank(lines[k]) || !codec.load(lines[k]).NonObject?
        invariant records + Records(codec, lines[i..]) == Records(codec, lines)
      {
        TailOfTail(lines, i);
        Associative(records, RecordOf(codec, lines[i]), Records(codec, lines[i + 1..]));
        NothingMore(records, []);
        if !IsBlank(lines[i]) {
          match codec.load(lines[i])
          case Malformed =>
          case NonObject => return AttributeError;
          case Object(rec) => records := records + [rec];
        }
        i := i + 1;
      }
      NothingMore(records, Records(codec, lines[i..]));
      return Ok(records);
    }

    /** The last occurrence of each id wins; the survivors keep their order. */
    method ReadFileRecords() returns (result: Result<seq<FileRecord>>)
      ensures result == if AllObjects() then Ok(Contents()) else AttributeError
    {
      var parsed := ParseAll();
      if parsed.AttributeError? { return AttributeError; }
      var records := parsed.value;
      var kept := KeepLatest(records);
      return Ok(kept);
    }

    method UpdateFileRecord(fid: string, updates: FileRecord) returns (result: Result<bool>)
      requires Valid()
      modifies this
      ensures !old(AllObjects()) ==> result == AttributeError && text == old(text)
      ensures old(AllObjects()) ==>
        && result == Ok(Found(codec, Lines(old(text)), fid))
        && text == Edited(codec, old(text), Update(fid, updates))
        && (KeepsId(fid, updates) ==> AllObjects() && Contents() == Merge(old(Contents()), fid, updates))
    {
      var lines := ReadLines();
      var rewritten := RewriteUpdated(codec, lines, fid, updates);
      if rewritten.AttributeError? { return AttributeError; }
      if KeepsId(fid, updates) { EditRefines(codec, text, Update(fid, updates)); }
      var (found, updated) := rewritten.value;
      if found { text := Some(Join(updated)); }
      return Ok(found);
    }

    method DeleteFileRecord(fid: string) returns (result: Result<bool>)
      requires Valid()
      modifies this
      ensures !old(AllObjects()) ==> result == AttributeError && text == old(text)
      ensures old(AllObjects()) ==>
        && result == Ok(Found(codec, Lines(old(text)), fid))
        && text == Edited(codec, old(text), Delete(fid))
        && AllObjects() && Contents() == Remove(old(Contents()), fid)
    {
      var lines := ReadLines();
      var rewritten := RewriteWithout(codec, lines, fid);
      if rewritten.AttributeError? { return AttributeError; }
      EditRefines(codec, text, Delete(fid));
      var (found, kept) := rewritten.value;
      if found { text := Some(Join(kept)); }
      return Ok(found);
    }

    /** `removed` counts retired records only, and nothing is ever a duplicate: the records were
        deduplicated when they were read. */
    method CompactFileIndex() returns (result: Result<CompactSummary>)
      requires Valid()
      modifies this
      ensures !old(AllObjects()) ==> result == AttributeError && text == old(text)
      ensures old(AllObjects()) ==> result.Ok?
      ensures result.Ok? ==>
        && text == Edited(codec, old(text), Compact)
        && Contents() == Live(old(Contents()))
        && result.value == Summary(codec, Lines(old(text)))
    {
      if text.None? {
        assert Lines(text) == [];
        return Ok(CompactSummary(0, 0, 0, 0));
      }
      var parsed := ReadFileRecords();
      if parsed.AttributeError? { return AttributeError; }
      var lines := ReadLines();
      var before := CountNonBlank(lines);
      LatestDistinct(Records(codec, lines));
      var kept, duplicates := KeepLive(codec, parsed.value);
      EditRefines(codec, text, Compact);
      text := Some(Join(kept));
      return Ok(CompactSummary(before, |kept|, |parsed.value| - |kept|, duplicates));
    }
  }

  /** `seen` maps every id among the first `n` records to the index of its last version. */
  ghost predicate SeenUpTo(records: seq<FileRecord>, seen: map<string, nat>, n: nat)
    requires n <= |records|
  {
    && (forall k | 0 <= k < n && HasId(records[k]) :: records[k]["file_id"] in seen)
    && (forall f | f in seen :: f != "" && seen[f] < n && Matches(records[seen[f]], f))
    && (forall f, k | f in seen && seen[f] < k < n :: !Matches(records[k], f))
  }

  method LastSeen(records: seq<FileRecord>) returns (seen: map<string, nat>)
    ensures SeenUpTo(records, seen, |records|)
  {
    seen := map[];
    var i := 0;
    while i < |records|
      invariant 0 <= i <= |records| && SeenUpTo(records, seen, i)
    {
      if HasId(records[i]) { seen := seen[records[i]["file_id"] := i]; }
      i := i + 1;
    }
  }

  /** The index an id was last seen at is the one whose record nothing later supersedes. */
  lemma KeepIsLast(records: seq<FileRecord>, seen: map<string, nat>, i: nat)
    requires i < |records| && SeenUpTo(records, seen, |records|)
    ensures i in (set f | f in seen :: seen[f]) <==> HasId(records[i]) && !Superseded(records[i], records[i + 1..])
  {
    var later := records[i + 1..];
    assert forall k :: 0 <= k < |later| ==> later[k] == records[i + 1 + k];
    if HasId(records[i]) {
      var f := records[i]["file_id"];
      if seen[f] > i { assert SameId(records[i], later[seen[f] - (i + 1)]); }
    }
  }

  /** The records at the last positions, in order. */
  method KeepLatest(records: seq<FileRecord>) returns (kept: seq<FileRecord>)
    ensures kept == Latest(records)
  {
    var seen := LastSeen(records);
    var keep := set f | f in seen :: seen[f];
    kept := [];
    for i := 0 to |records|
      invariant kept + Latest(records[i..]) == Latest(records)
    {
      TailOfTail(records, i);
      KeepIsLast(records, seen, i);
      Associative(kept, if i in keep then [records[i]] else [], Latest(records[i + 1..]));
      NothingMore(kept, []);
      if i in keep { kept := kept + [records[i]]; }
    }
    NothingMore(kept, Latest(records[|records|..]));
  }

  method RewriteUpdated(c: Codec, lines: seq<string>, fid: string, updates: FileRecord)
    returns (result: Result<(bool, seq<string>)>)
    ensures result == if Readable(c, lines) then Ok((Found(c, lines, fid), UpdateLines(c, lines, fid, updates)))
                      else AttributeError
  {
    var found := false;
    var updated: seq<string> := [];
    var i := 0;
    while i < |lines|
      invariant 0 <= i <= |lines|
      invariant forall k :: 0 <= k < i ==> IsBlank(lines[k]) || !c.load(lines[k]).NonObject?
      invariant updated + UpdateLines(c, lines[i..], fid, updates) == UpdateLines(c, lines, fid, updates)
      invariant (found || Found(c, lines[i..], fid)) == Found(c, lines, fid)
    {
      TailOfTail(lines, i);
      Associative(updated, UpdateLine(c, lines[i], fid, updates), UpdateLines(c, lines[i + 1..], fid, updates));
      NothingMore(updated, []);
      if !IsBlank(lines[i]) {
        match c.load(lines[i])
        case Malformed => updated := updated + [lines[i]];
        case NonObject => return AttributeError;
        case Object(rec) =>
          var merged := rec;
          if Matches(rec, fid) {
            merged := rec + updates;
            found := true;
          }
          updated := updated + [c.dump(merged)];
      }
      i := i + 1;
    }
    NothingMore(updated, UpdateLines(c, lines[i..], fid, updates));
    return Ok((found, updated));
  }

  method RewriteWithout(c: Codec, lines: seq<string>, fid: string) returns (result: Result<(bool, seq<string>)>)
    ensures result == if Readable(c, lines) then Ok((Found(c, lines, fid), DeleteLines(c, lines, fid)))
                      else AttributeError
  {
    var found := false;
    var kept: seq<string> := [];
    var i := 0;
    while i < |lines|
      invariant 0 <= i <= |lines|
      invariant forall k :: 0 <= k < i ==> IsBlank(lines[k]) || !c.load(lines[k]).NonObject?
      invariant kept + DeleteLines(c, lines[i..], fid) == DeleteLines(c, lines, fid)
      invariant (found || Found(c, lines[i..], fid)) == Found(c, lines, fid)
    {
      TailOfTail(lines, i);
      Associative(kept, DeleteLine(c, lines[i], fid), DeleteLines(c, lines[i + 1..], fid));
      NothingMore(kept, []);
      if !IsBlank(lines[i]) {
        match c.load(lines[i])
        case Malformed => kept := kept + [lines[i]];
        case NonObject => return AttributeError;
        case Object(rec) =>
          if Matches(rec, fid) { found := true; } else { kept := kept + [c.dump(rec)]; }
      }
      i := i + 1;
    }
    NothingMore(kept, DeleteLines(c, lines[i..], fid));
    return Ok((found, kept));
  }

  method CountNonBlank(lines: seq<string>) returns (n: nat)
    ensures n == NonBlank(lines)
  {
    n := 0;
    var i := 0;
    while i < |lines|
      invariant 0 <= i <= |lines|
      invariant n + NonBlank(lines[i..]) == NonBlank(lines)
    {
      TailOfTail(lines, i);
      if !IsBlank(lines[i]) { n := n + 1; }
      i := i + 1;
    }
  }

  method KeepLive(c: Codec, records: seq<FileRecord>) returns (kept: seq<string>, duplicates: int)
    requires Distinct(records)
    ensures kept == Map(Live(records), c.dump) && duplicates == 0
  {
    kept, duplicates := [], 0;
    var seenIds: set<string> := {};
    var i := 0;
    DistinctPairs(records);
    while i < |records|
      invariant 0 <= i <= |records| && duplicates == 0
      invariant forall k | i <= k < |records| :: records[k]["file_id"] !in seenIds
      invariant kept + Map(Live(records[i..]), c.dump) == Map(Live(records), c.dump)
    {
      var rec := records[i];
      var fid := rec["file_id"];
      TailOfTail(records, i);
      HeadTail(records[i..]);
      LiveMapHead(c, rec, records[i + 1..], kept);
      if !Retired(rec) {
        if fid in seenIds {
          duplicates := duplicates + 1;
        } else {
          seenIds := seenIds + {fid};
          kept := kept + [c.dump(rec)];
        }
      }
      i := i + 1;
    }
    NothingMore(kept, Map(Live(records[i..]), c.dump));
  }

  lemma {:induction false} DistinctPairs(m: seq<FileRecord>)
    requires Distinct(m)
    ensures forall i :: 0 <= i < |m| ==> HasId(m[i])
    ensures forall i, j :: 0 <= i < j < |m| ==> HasId(m[i]) && HasId(m[j]) && m[i]["file_id"] != m[j]["file_id"]
  {
    if m != [] {
      DistinctPairs(m[1..]);
      assert forall i :: 0 <= i < |m| - 1 ==> m[1..][i] == m[i + 1];
      forall j | 0 < j < |m| ensures HasId(m[j]) && m[0]["file_id"] != m[j]["file_id"] {
        assert !SameId(m[0], m[1..][j - 1]);
      }
    }
  }

  lemma LiveMapHead(c: Codec, rec: FileRecord, rest: seq<FileRecord>, kept: seq<string>)
    ensures kept + Map(Live([rec] + rest), c.dump) ==
            (if Retired(rec) then kept else kept + [c.dump(rec)]) + Map(Live(rest), c.dump)
  {
    assert ([rec] + rest)[1..] == rest;
    NothingMore(Live(rest), []);
    if !Retired(rec) {
      assert ([rec] + Live(rest))[1..] == Live(rest);
      Associative(kept, [c.dump(rec)], Map(Live(rest), c.dump));
    }
  }
}
