/** The file index of storage/index.py: a text log of JSON lines that behaves as an ordered map.

    The text is split and joined as the code does, blank and malformed lines included; only the
    JSON codec is abstract. */
module FileIndex {
  import opened Seqs
  import opened Text
  import opened Wrappers

  /** A record: JSON keys to JSON values, a string value standing for itself. */
  type FileRecord = map<string, string>

  datatype Result<+T> = Ok(value: T) | AttributeError

  /** json.loads of one line. A JSON value that is not an object has no `get`. */
  datatype Parsed = Object(rec: FileRecord) | NonObject | Malformed

  datatype Codec = Codec(dump: FileRecord -> string, load: string -> Parsed) {
    /** What json.dumps and json.loads promise: one non-blank line that reads back as the record. */
    ghost predicate Lawful() {
      forall r :: load(dump(r)) == Object(r) && Unbroken(dump(r)) && !IsBlank(dump(r))
    }
  }

  // -------------------------------------------------------------------- text

  predicate Unbroken(line: string) { '\n' !in line && '\r' !in line }

  /** Reading in text mode turns `\r\n` and `\r` into `\n`; then the text is split on `\n`. */
  function Split(text: string): (lines: seq<string>)
    ensures |lines| > 0
  {
    if text == "" then [""]
    else if text[0] == '\r' && |text| > 1 && text[1] == '\n' then [""] + Split(text[2..])
    else if text[0] == '\n' || text[0] == '\r' then [""] + Split(text[1..])
    else var rest := Split(text[1..]); [[text[0]] + rest[0]] + rest[1..]
  }

  /** What `_atomic_write_lines` writes: every line with its newline. */
  function Join(lines: seq<string>): string {
    if lines == [] then "" else lines[0] + "\n" + Join(lines[1..])
  }

  lemma {:induction false} SplitLine(line: string, rest: string)
    requires Unbroken(line)
    ensures Split(line + "\n" + rest) == [line] + Split(rest)
    decreases |line|
  {
    var text := line + "\n" + rest;
    if line == "" {
      assert text[1..] == rest;
    } else {
      assert text[1..] == line[1..] + "\n" + rest;
      SplitLine(line[1..], rest);
      var tail := Split(text[1..]);
      assert tail[0] == line[1..] && tail[1..] == Split(rest);
      assert [text[0]] + tail[0] == line;
    }
  }

  /** Writing lines and reading them back adds one empty line at the end. */
  lemma {:induction false} SplitJoin(lines: seq<string>)
    requires forall i :: 0 <= i < |lines| ==> Unbroken(lines[i])
    ensures Split(Join(lines)) == lines + [""]
  {
    if lines != [] {
      SplitLine(lines[0], Join(lines[1..]));
      SplitJoin(lines[1..]);
      Associative([lines[0]], lines[1..], [""]);
      HeadTail(lines);
    }
  }

  lemma {:induction false} SplitUnbroken(text: string, i: nat)
    requires i < |Split(text)|
    ensures Unbroken(Split(text)[i])
    decreases |text|
  {
    if text != "" {
      if text[0] == '\r' && |text| > 1 && text[1] == '\n' {
        if i > 0 { SplitUnbroken(text[2..], i - 1); }
      } else if text[0] == '\n' || text[0] == '\r' {
        if i > 0 { SplitUnbroken(text[1..], i - 1); }
      } else {
        SplitUnbroken(text[1..], i);
      }
    }
  }

  // ----------------------------------------------------------------- records

  /** The records of the lines, oldest first; blank and malformed lines are skipped. */
  function Records(c: Codec, lines: seq<string>): seq<FileRecord> {
    if lines == [] then [] else RecordOf(c, lines[0]) + Records(c, lines[1..])
  }

  function RecordOf(c: Codec, line: string): seq<FileRecord> {
    if !IsBlank(line) && c.load(line).Object? then [c.load(line).rec] else []
  }

  /** No line holds a JSON value without a `get`. */
  predicate Readable(c: Codec, lines: seq<string>) {
    forall i :: 0 <= i < |lines| ==> IsBlank(lines[i]) || !c.load(lines[i]).NonObject?
  }

  /** rec.get("file_id") == fid */
  predicate Matches(rec: FileRecord, fid: string) { "file_id" in rec && rec["file_id"] == fid }

  /** rec.get("file_id", "") is truthy */
  predicate HasId(rec: FileRecord) { "file_id" in rec && rec["file_id"] != "" }

  predicate SameId(a: FileRecord, b: FileRecord) { HasId(a) && Matches(b, a["file_id"]) }

  /** Some record has the id of `rec`. */
  predicate Superseded(rec: FileRecord, later: seq<FileRecord>) {
    exists i :: 0 <= i < |later| && SameId(rec, later[i])
  }

  /** The last version of every id, in the order of the last versions. */
  function Latest(rs: seq<FileRecord>): seq<FileRecord> {
    if rs == [] then []
    else (if HasId(rs[0]) && !Superseded(rs[0], rs[1..]) then [rs[0]] else []) + Latest(rs[1..])
  }

  function View(c: Codec, lines: seq<string>): seq<FileRecord> { Latest(Records(c, lines)) }

  // -------------------------------------------------- the ordered map it is

  function PutLast(m: seq<FileRecord>, rec: FileRecord): seq<FileRecord> {
    if HasId(rec) then Filter(m, (x: FileRecord) => !SameId(rec, x)) + [rec] else m
  }

  function Merge(m: seq<FileRecord>, fid: string, updates: FileRecord): seq<FileRecord> {
    Map(m, (x: FileRecord) => if Matches(x, fid) then x + updates else x)
  }

  function Remove(m: seq<FileRecord>, fid: string): seq<FileRecord> {
    Filter(m, (x: FileRecord) => !Matches(x, fid))
  }

  predicate Retired(rec: FileRecord) {
    "lifecycle" in rec && rec["lifecycle"] in ["soft_deleted", "deleted", "purged"]
  }

  function Live(m: seq<FileRecord>): seq<FileRecord> {
    Filter(m, (x: FileRecord) => !Retired(x))
  }

  // --------------------------------------------------------- text operations

  function AppendLines(c: Codec, lines: seq<string>, rec: FileRecord): seq<string> {
    lines + [c.dump(rec)]
  }

  function UpdateLines(c: Codec, lines: seq<string>, fid: string, updates: FileRecord): seq<string> {
    if lines == [] then [] else UpdateLine(c, lines[0], fid, updates) + UpdateLines(c, lines[1..], fid, updates)
  }

  function UpdateLine(c: Codec, line: string, fid: string, updates: FileRecord): seq<string> {
    if IsBlank(line) then []
    else match c.load(line)
      case Object(rec) => [c.dump(if Matches(rec, fid) then rec + updates else rec)]
      case _ => [line]
  }

  function DeleteLines(c: Codec, lines: seq<string>, fid: string): seq<string> {
    if lines == [] then [] else DeleteLine(c, lines[0], fid) + DeleteLines(c, lines[1..], fid)
  }

  function DeleteLine(c: Codec, line: string, fid: string): seq<string> {
    if IsBlank(line) then []
    else match c.load(line)
      case Object(rec) => if Matches(rec, fid) then [] else [c.dump(rec)]
      case _ => [line]
  }

  predicate LineMatches(c: Codec, line: string, fid: string) {
    !IsBlank(line) && c.load(line).Object? && Matches(c.load(line).rec, fid)
  }

  /** Whether any version of `fid` is in the log. */
  predicate Found(c: Codec, lines: seq<string>, fid: string) {
    lines != [] && (LineMatches(c, lines[0], fid) || Found(c, lines[1..], fid))
  }

  function CompactLines(c: Codec, lines: seq<string>): seq<string> {
    Map(Live(View(c, lines)), c.dump)
  }

  // ------------------------------------------------ what they do to the view

  lemma {:induction false} RecordsAppend(c: Codec, a: seq<string>, b: seq<string>)
    ensures Records(c, a + b) == Records(c, a) + Records(c, b)
  {
    if a == [] {
      NothingMore(b, a);
      NothingMore(Records(c, b), Records(c, a));
    } else {
      assert (a + b)[1..] == a[1..] + b;
      RecordsAppend(c, a[1..], b);
      Associative(RecordOf(c, a[0]), Records(c, a[1..]), Records(c, b));
    }
  }

  lemma RecordsOne(c: Codec, line: string)
    ensures Records(c, [line]) == RecordOf(c, line)
  {
    assert [line][1..] == [];
    NothingMore(RecordOf(c, line), []);
  }

  /** What is read back after a write of `lines`. */
  lemma RecordsWritten(c: Codec, lines: seq<string>)
    requires forall i :: 0 <= i < |lines| ==> Unbroken(lines[i])
    ensures Records(c, Split(Join(lines))) == Records(c, lines)
    ensures Readable(c, Split(Join(lines))) == Readable(c, lines)
  {
    SplitJoin(lines);
    RecordsAppend(c, lines, [""]);
    RecordsOne(c, "");
    NothingMore(Records(c, lines), RecordOf(c, ""));
    if Readable(c, Split(Join(lines))) {
      forall i | 0 <= i < |lines| ensures IsBlank(lines[i]) || !c.load(lines[i]).NonObject? {
        assert Split(Join(lines))[i] == lines[i];
      }
    }
  }

  lemma {:induction false} LatestSnoc(rs: seq<FileRecord>, rec: FileRecord)
    ensures Latest(rs + [rec]) == PutLast(Latest(rs), rec)
  {
    if rs == [] {
      assert (rs + [rec])[1..] == [];
      NothingMore([rec], []);
      NothingMore(Latest([rec]), []);
    } else {
      var head := if HasId(rs[0]) && !Superseded(rs[0], rs[1..]) then [rs[0]] else [];
      var p := (x: FileRecord) => !SameId(rec, x);
      assert (rs + [rec])[1..] == rs[1..] + [rec];
      LatestSnoc(rs[1..], rec);
      SupersededSnoc(rs[0], rs[1..], rec);
      if HasId(rec) {
        FilterAppend(head, Latest(rs[1..]), p);
        Associative(Filter(head, p), Filter(Latest(rs[1..]), p), [rec]);
        assert Filter(head, p) == if head != [] && p(rs[0]) then [rs[0]] else [] by { FilterOne(rs[0], p); }
      }
    }
  }

  lemma FilterOne<T>(x: T, p: T -> bool)
    ensures Filter([x], p) == if p(x) then [x] else []
  {
    assert [x][1..] == [];
    NothingMore([x], []);
  }

  lemma SupersededSnoc(rec: FileRecord, later: seq<FileRecord>, last: FileRecord)
    ensures Superseded(rec, later + [last]) <==> Superseded(rec, later) || SameId(rec, last)
  {
    if Superseded(rec, later) {
      var i :| 0 <= i < |later| && SameId(rec, later[i]);
      assert SameId(rec, (later + [last])[i]);
    }
    if SameId(rec, last) { assert SameId(rec, (later + [last])[|later|]); }
  }

  /** An update that does not rename the record it merges into. */
  predicate KeepsId(fid: string, updates: FileRecord) {
    "file_id" in updates ==> updates["file_id"] == fid
  }

  function Merged(x: FileRecord, fid: string, updates: FileRecord): FileRecord {
    if Matches(x, fid) then x + updates else x
  }

  lemma SupersededMerge(rec: FileRecord, later: seq<FileRecord>, fid: string, updates: FileRecord)
    requires KeepsId(fid, updates)
    ensures Superseded(Merged(rec, fid, updates), Merge(later, fid, updates)) <==> Superseded(rec, later)
  {
    var later' := Merge(later, fid, updates);
    forall i | 0 <= i < |later|
      ensures SameId(Merged(rec, fid, updates), later'[i]) <==> SameId(rec, later[i]) {}
    if Superseded(rec, later) {
      var i :| 0 <= i < |later| && SameId(rec, later[i]);
      assert SameId(Merged(rec, fid, updates), later'[i]);
    }
  }

  lemma {:induction false} LatestMerge(rs: seq<FileRecord>, fid: string, updates: FileRecord)
    requires KeepsId(fid, updates)
    ensures Latest(Merge(rs, fid, updates)) == Merge(Latest(rs), fid, updates)
  {
    if rs != [] {
      LatestMerge(rs[1..], fid, updates);
      SupersededMerge(rs[0], rs[1..], fid, updates);
      var rs' := Merge(rs, fid, updates);
      assert rs'[0] == Merged(rs[0], fid, updates) && rs'[1..] == Merge(rs[1..], fid, updates);
      if HasId(rs[0]) && !Superseded(rs[0], rs[1..]) {
        assert ([rs[0]] + Latest(rs[1..]))[1..] == Latest(rs[1..]);
      } else {
        NothingMore(Latest(rs[1..]), []);
        NothingMore(Latest(rs'[1..]), []);
      }
    }
  }

  lemma SupersededRemove(rec: FileRecord, later: seq<FileRecord>, fid: string)
    requires !Matches(rec, fid)
    ensures Superseded(rec, Remove(later, fid)) <==> Superseded(rec, later)
  {
    var p := (x: FileRecord) => !Matches(x, fid);
    if Superseded(rec, later) {
      var i :| 0 <= i < |later| && SameId(rec, later[i]);
      FilterMember(later, p, later[i]);
      var j :| 0 <= j < |Filter(later, p)| && Filter(later, p)[j] == later[i];
      assert SameId(rec, Remove(later, fid)[j]);
    }
    if Superseded(rec, Remove(later, fid)) {
      var j :| 0 <= j < |Remove(later, fid)| && SameId(rec, Remove(later, fid)[j]);
      FilterMember(later, p, Remove(later, fid)[j]);
      var i :| 0 <= i < |later| && later[i] == Remove(later, fid)[j];
      assert SameId(rec, later[i]);
    }
  }

  lemma {:induction false} LatestRemove(rs: seq<FileRecord>, fid: string)
    ensures Latest(Remove(rs, fid)) == Remove(Latest(rs), fid)
  {
    if rs != [] {
      var p := (x: FileRecord) => !Matches(x, fid);
      LatestRemove(rs[1..], fid);
      NothingMore(Filter(rs[1..], p), []);
      NothingMore(Latest(rs[1..]), []);
      if Matches(rs[0], fid) {
        if HasId(rs[0]) && !Superseded(rs[0], rs[1..]) {
          assert ([rs[0]] + Latest(rs[1..]))[1..] == Latest(rs[1..]);
          NothingMore(Filter(Latest(rs[1..]), p), []);
        }
      } else {
        SupersededRemove(rs[0], rs[1..], fid);
        var rs' := [rs[0]] + Filter(rs[1..], p);
        assert rs'[1..] == Filter(rs[1..], p);
        if HasId(rs[0]) && !Superseded(rs[0], rs[1..]) {
          assert ([rs[0]] + Latest(rs[1..]))[1..] == Latest(rs[1..]);
        } else {
          NothingMore(Latest(rs'[1..]), []);
        }
      }
    }
  }

  /** Every record of the map has an id, and no two have the same. */
  predicate Distinct(m: seq<FileRecord>) {
    m == [] || (HasId(m[0]) && !Superseded(m[0], m[1..]) && Distinct(m[1..]))
  }

  lemma {:induction false} LatestMember(rs: seq<FileRecord>, x: FileRecord)
    requires x in Latest(rs)
    ensures x in rs && HasId(x)
  {
    if x !in Latest(rs[1..]) { assert x == rs[0]; } else { LatestMember(rs[1..], x); }
  }

  lemma {:induction false} LatestDistinct(rs: seq<FileRecord>)
    ensures Distinct(Latest(rs))
  {
    if rs != [] {
      LatestDistinct(rs[1..]);
      NothingMore(Latest(rs[1..]), []);
      if HasId(rs[0]) && !Superseded(rs[0], rs[1..]) {
        var m := Latest(rs);
        assert m[1..] == Latest(rs[1..]);
        forall i | 0 <= i < |m[1..]| ensures !SameId(rs[0], m[1..][i]) {
          LatestMember(rs[1..], m[1..][i]);
        }
      }
    }
  }

  lemma {:induction false} LatestOfDistinct(m: seq<FileRecord>)
    requires Distinct(m)
    ensures Latest(m) == m
  {
    if m != [] {
      LatestOfDistinct(m[1..]);
      HeadTail(m);
    }
  }

  lemma {:induction false} DistinctFilter(m: seq<FileRecord>, p: FileRecord -> bool)
    requires Distinct(m)
    ensures Distinct(Filter(m, p))
  {
    if m != [] {
      DistinctFilter(m[1..], p);
      NothingMore(Filter(m[1..], p), []);
      if p(m[0]) {
        var m' := Filter(m, p);
        assert m'[1..] == Filter(m[1..], p);
        forall i | 0 <= i < |m'[1..]| ensures !SameId(m[0], m'[1..][i]) {
          FilterMember(m[1..], p, m'[1..][i]);
        }
      }
    }
  }

  /** The view holds exactly the last version of every id that occurs. */
  lemma {:induction false} ViewHoldsLastVersions(rs: seq<FileRecord>, x: FileRecord)
    ensures x in Latest(rs) <==>
            exists i :: 0 <= i < |rs| && rs[i] == x && HasId(x) && !Superseded(x, rs[i + 1..])
  {
    if rs != [] {
      ViewHoldsLastVersions(rs[1..], x);
      if i :| 0 <= i < |rs| && rs[i] == x && HasId(x) && !Superseded(x, rs[i + 1..]) {
        if i > 0 { assert rs[1..][i - 1] == x && rs[1..][i..] == rs[i + 1..]; }
      }
      if x in Latest(rs[1..]) {
        var i :| 0 <= i < |rs[1..]| && rs[1..][i] == x && HasId(x) && !Superseded(x, rs[1..][i + 1..]);
        assert rs[i + 1] == x && rs[i + 2..] == rs[1..][i + 1..];
      }
    }
  }

  /** Place `i` holds the last version of its id. */
  predicate LastAt(rs: seq<FileRecord>, i: nat) { i < |rs| && !Superseded(rs[i], rs[i + 1..]) }

  lemma {:induction false} LatestIsKept(rs: seq<FileRecord>)
    ensures Latest(rs) == KeptBy(rs, (x: FileRecord, later: seq<FileRecord>) => HasId(x) && !Superseded(x, later))
  {
    if rs != [] { LatestIsKept(rs[1..]); }
  }

  /** The view lists the ids in the order of their last versions in the log. */
  lemma ViewOrderIsLastOccurrence(rs: seq<FileRecord>, a: nat, b: nat) returns (i: nat, j: nat)
    requires a < b < |Latest(rs)|
    ensures i < j && LastAt(rs, i) && LastAt(rs, j) && rs[i] == Latest(rs)[a] && rs[j] == Latest(rs)[b]
  {
    var keep := (x: FileRecord, later: seq<FileRecord>) => HasId(x) && !Superseded(x, later);
    LatestIsKept(rs);
    PlacesIncrease(rs, keep, 0);
    PlacesHold(rs, keep, 0, a);
    PlacesHold(rs, keep, 0, b);
    i, j := Places(rs, keep, 0)[a], Places(rs, keep, 0)[b];
    PlacesExact(rs, keep, 0, i);
    PlacesExact(rs, keep, 0, j);
  }

  // ------------------------------------------------- the text refines the map

  ghost predicate AllUnbroken(lines: seq<string>) {
    forall i :: 0 <= i < |lines| ==> Unbroken(lines[i])
  }

  lemma GoodAppend(c: Codec, a: seq<string>, b: seq<string>)
    requires AllUnbroken(a) && Readable(c, a) && AllUnbroken(b) && Readable(c, b)
    ensures AllUnbroken(a + b) && Readable(c, a + b)
  {
  }

  lemma GoodTail(c: Codec, lines: seq<string>)
    requires lines != [] && AllUnbroken(lines) && Readable(c, lines)
    ensures AllUnbroken(lines[1..]) && Readable(c, lines[1..])
  {
    assert forall i :: 0 <= i < |lines[1..]| ==> lines[1..][i] == lines[i + 1];
  }

  lemma {:induction false} MergeAppend(a: seq<FileRecord>, b: seq<FileRecord>, fid: string, updates: FileRecord)
    ensures Merge(a + b, fid, updates) == Merge(a, fid, updates) + Merge(b, fid, updates)
  {
  }

  lemma UpdateLineRecords(c: Codec, line: string, fid: string, updates: FileRecord)
    requires c.Lawful() && Unbroken(line) && (IsBlank(line) || !c.load(line).NonObject?)
    ensures var out := UpdateLine(c, line, fid, updates);
      && Records(c, out) == Merge(RecordOf(c, line), fid, updates)
      && AllUnbroken(out) && Readable(c, out)
  {
    var out := UpdateLine(c, line, fid, updates);
    if out != [] { RecordsOne(c, out[0]); }
  }

  lemma {:induction false} RecordsUpdated(c: Codec, lines: seq<string>, fid: string, updates: FileRecord)
    requires c.Lawful() && AllUnbroken(lines) && Readable(c, lines)
    ensures Records(c, UpdateLines(c, lines, fid, updates)) == Merge(Records(c, lines), fid, updates)
    ensures AllUnbroken(UpdateLines(c, lines, fid, updates)) && Readable(c, UpdateLines(c, lines, fid, updates))
  {
    if lines != [] {
      GoodTail(c, lines);
      RecordsUpdated(c, lines[1..], fid, updates);
      UpdateLineRecords(c, lines[0], fid, updates);
      var head, tail := UpdateLine(c, lines[0], fid, updates), UpdateLines(c, lines[1..], fid, updates);
      GoodAppend(c, head, tail);
      RecordsAppend(c, head, tail);
      MergeAppend(RecordOf(c, lines[0]), Records(c, lines[1..]), fid, updates);
    }
  }

  lemma DeleteLineRecords(c: Codec, line: string, fid: string)
    requires c.Lawful() && Unbroken(line) && (IsBlank(line) || !c.load(line).NonObject?)
    ensures var out := DeleteLine(c, line, fid);
      && Records(c, out) == Remove(RecordOf(c, line), fid)
      && AllUnbroken(out) && Readable(c, out)
  {
    var out := DeleteLine(c, line, fid);
    if out != [] { RecordsOne(c, out[0]); }
    if RecordOf(c, line) != [] { FilterOne(RecordOf(c, line)[0], (x: FileRecord) => !Matches(x, fid)); }
  }

  lemma {:induction false} RecordsDeleted(c: Codec, lines: seq<string>, fid: string)
    requires c.Lawful() && AllUnbroken(lines) && Readable(c, lines)
    ensures Records(c, DeleteLines(c, lines, fid)) == Remove(Records(c, lines), fid)
    ensures AllUnbroken(DeleteLines(c, lines, fid)) && Readable(c, DeleteLines(c, lines, fid))
  {
    if lines != [] {
      GoodTail(c, lines);
      RecordsDeleted(c, lines[1..], fid);
      DeleteLineRecords(c, lines[0], fid);
      var head, tail := DeleteLine(c, lines[0], fid), DeleteLines(c, lines[1..], fid);
      GoodAppend(c, head, tail);
      RecordsAppend(c, head, tail);
      FilterAppend(RecordOf(c, lines[0]), Records(c, lines[1..]), (x: FileRecord) => !Matches(x, fid));
    }
  }

  lemma {:induction false} RecordsDumped(c: Codec, m: seq<FileRecord>)
    requires c.Lawful()
    ensures Records(c, Map(m, c.dump)) == m
    ensures AllUnbroken(Map(m, c.dump)) && Readable(c, Map(m, c.dump))
  {
    if m != [] {
      RecordsDumped(c, m[1..]);
      var lines := Map(m, c.dump);
      assert lines[1..] == Map(m[1..], c.dump) && lines[0] == c.dump(m[0]);
      HeadTail(m);
    }
  }

  /** Appending moves the id to the end of the map with its new record. */
  lemma AppendRefines(c: Codec, lines: seq<string>, rec: FileRecord)
    requires c.Lawful() && AllUnbroken(lines)
    ensures var lines' := Split(Join(AppendLines(c, lines, rec)));
      && View(c, lines') == PutLast(View(c, lines), rec)
      && Readable(c, lines') == Readable(c, lines)
  {
    var written := AppendLines(c, lines, rec);
    RecordsWritten(c, written);
    RecordsAppend(c, lines, [c.dump(rec)]);
    RecordsOne(c, c.dump(rec));
    LatestSnoc(Records(c, lines), rec);
    if Readable(c, written) {
      forall i | 0 <= i < |lines| ensures IsBlank(lines[i]) || !c.load(lines[i]).NonObject? {
        assert written[i] == lines[i];
      }
    }
  }

  /** Updating merges fields in place. */
  lemma UpdateRefines(c: Codec, lines: seq<string>, fid: string, updates: FileRecord)
    requires c.Lawful() && AllUnbroken(lines) && Readable(c, lines) && KeepsId(fid, updates)
    ensures var lines' := Split(Join(UpdateLines(c, lines, fid, updates)));
      View(c, lines') == Merge(View(c, lines), fid, updates) && Readable(c, lines')
  {
    RecordsUpdated(c, lines, fid, updates);
    RecordsWritten(c, UpdateLines(c, lines, fid, updates));
    LatestMerge(Records(c, lines), fid, updates);
  }

  /** Deleting removes the id, however many versions the log has. */
  lemma DeleteRefines(c: Codec, lines: seq<string>, fid: string)
    requires c.Lawful() && AllUnbroken(lines) && Readable(c, lines)
    ensures var lines' := Split(Join(DeleteLines(c, lines, fid)));
      View(c, lines') == Remove(View(c, lines), fid) && Readable(c, lines')
  {
    RecordsDeleted(c, lines, fid);
    RecordsWritten(c, DeleteLines(c, lines, fid));
    LatestRemove(Records(c, lines), fid);
  }

  /** Compacting drops the retired records from the map and nothing else. */
  lemma CompactRefines(c: Codec, lines: seq<string>)
    requires c.Lawful()
    ensures var lines' := Split(Join(CompactLines(c, lines)));
      View(c, lines') == Live(View(c, lines)) && Readable(c, lines')
  {
    var m := Live(View(c, lines));
    RecordsDumped(c, m);
    RecordsWritten(c, Map(m, c.dump));
    LatestDistinct(Records(c, lines));
    DistinctFilter(View(c, lines), (x: FileRecord) => !Retired(x));
    LatestOfDistinct(m);
  }

  lemma {:induction false} FoundMeansRecorded(c: Codec, lines: seq<string>, fid: string)
    ensures Found(c, lines, fid) <==> exists x :: x in Records(c, lines) && Matches(x, fid)
  {
    if lines != [] {
      FoundMeansRecorded(c, lines[1..], fid);
      assert forall x :: x in Records(c, lines) <==> x in RecordOf(c, lines[0]) || x in Records(c, lines[1..]);
      if LineMatches(c, lines[0], fid) { assert c.load(lines[0]).rec in Records(c, lines); }
    }
  }

  /** A proper id is found in the log exactly when the map holds it. */
  lemma {:induction false} RecordedMeansViewed(rs: seq<FileRecord>, fid: string)
    requires fid != ""
    ensures (exists x :: x in rs && Matches(x, fid)) <==> (exists x :: x in Latest(rs) && Matches(x, fid))
  {
    if rs != [] {
      RecordedMeansViewed(rs[1..], fid);
      assert forall x :: x in rs <==> x == rs[0] || x in rs[1..] by { HeadTail(rs); }
      if x :| x in Latest(rs) && Matches(x, fid) { LatestMember(rs, x); }
      if x :| x in Latest(rs[1..]) && Matches(x, fid) { assert x in Latest(rs); }
      if Matches(rs[0], fid) && Superseded(rs[0], rs[1..]) {
        var i :| 0 <= i < |rs[1..]| && SameId(rs[0], rs[1..][i]);
        assert rs[1..][i] in rs[1..] && Matches(rs[1..][i], fid);
      } else if Matches(rs[0], fid) {
        assert rs[0] in Latest(rs);
      }
    }
  }

  /** Merging refines the map for every log exactly when the updates do not rename the record: with
      another file_id the log ends up with two versions of the new id, of which the map keeps one. */
  lemma UpdateRefinesExactly(fid: string, updates: FileRecord)
    ensures (forall rs :: Latest(Merge(rs, fid, updates)) == Merge(Latest(rs), fid, updates)) <==> KeepsId(fid, updates)
  {
    if KeepsId(fid, updates) {
      forall rs ensures Latest(Merge(rs, fid, updates)) == Merge(Latest(rs), fid, updates) {
        LatestMerge(rs, fid, updates);
      }
    } else {
      var g := updates["file_id"];
      var before: FileRecord := map["file_id" := fid];
      var taken: FileRecord := map["file_id" := g];
      if fid == "" || g == "" {
        LatestOne(before);
        LatestOne(before + updates);
        assert Merge([before], fid, updates) == [before + updates];
        assert |Merge(Latest([before]), fid, updates)| != |Latest(Merge([before], fid, updates))|;
      } else {
        LatestTwo(before, taken);
        LatestTwo(before + updates, taken);
        assert Merge([before, taken], fid, updates) == [before + updates, taken];
        assert |Merge(Latest([before, taken]), fid, updates)| != |Latest(Merge([before, taken], fid, updates))|;
      }
    }
  }

  lemma LatestOne(a: FileRecord)
    ensures Latest([a]) == if HasId(a) then [a] else []
  {
    assert [a][1..] == [];
    NothingMore([a], []);
  }

  lemma LatestTwo(a: FileRecord, b: FileRecord)
    requires HasId(a) && HasId(b)
    ensures |Latest([a, b])| == if SameId(a, b) then 1 else 2
  {
    assert [a, b][1..] == [b];
    LatestOne(b);
    assert Superseded(a, [b]) <==> SameId(a, b) by { assert [b][0] == b; }
  }

  // -------------------------------------------------------- any run of edits

  datatype Edit = Append(rec: FileRecord) | Update(fid: string, updates: FileRecord) | Delete(fid: string) | Compact

  /** The text after an edit; an index that does not exist is read as no lines. */
  function Lines(text: Option<string>): seq<string> {
    if text.None? then [] else Split(text.value)
  }

  function Edited(c: Codec, text: Option<string>, e: Edit): Option<string> {
    match e
    case Append(rec) => Some(Join(AppendLines(c, Lines(text), rec)))
    case Update(fid, updates) =>
      if Found(c, Lines(text), fid) then Some(Join(UpdateLines(c, Lines(text), fid, updates))) else text
    case Delete(fid) => if Found(c, Lines(text), fid) then Some(Join(DeleteLines(c, Lines(text), fid))) else text
    case Compact => if text.Some? then Some(Join(CompactLines(c, Lines(text)))) else text
  }

  function MapEdited(m: seq<FileRecord>, e: Edit): seq<FileRecord> {
    match e
    case Append(rec) => PutLast(m, rec)
    case Update(fid, updates) => Merge(m, fid, updates)
    case Delete(fid) => Remove(m, fid)
    case Compact => Live(m)
  }

  lemma LinesUnbroken(text: Option<string>)
    ensures AllUnbroken(Lines(text))
  {
    if text.Some? {
      forall i | 0 <= i < |Lines(text)| ensures Unbroken(Lines(text)[i]) { SplitUnbroken(text.value, i); }
    }
  }

  lemma {:induction false} NothingToMerge(m: seq<FileRecord>, fid: string, updates: FileRecord)
    requires forall x :: x in m ==> !Matches(x, fid)
    ensures Merge(m, fid, updates) == m && Remove(m, fid) == m
  {
    if m != [] {
      NothingToMerge(m[1..], fid, updates);
      assert m[0] in m;
      HeadTail(m);
    }
  }

  /** An id that is not in the log is not in the map either. */
  lemma NotFoundNotViewed(c: Codec, lines: seq<string>, fid: string, updates: FileRecord)
    requires !Found(c, lines, fid)
    ensures Merge(View(c, lines), fid, updates) == View(c, lines) && Remove(View(c, lines), fid) == View(c, lines)
  {
    FoundMeansRecorded(c, lines, fid);
    forall x | x in View(c, lines) ensures !Matches(x, fid) { LatestMember(Records(c, lines), x); }
    NothingToMerge(View(c, lines), fid, updates);
  }

  lemma EditRefines(c: Codec, text: Option<string>, e: Edit)
    requires c.Lawful() && Readable(c, Lines(text)) && (e.Update? ==> KeepsId(e.fid, e.updates))
    ensures View(c, Lines(Edited(c, text, e))) == MapEdited(View(c, Lines(text)), e)
    ensures Readable(c, Lines(Edited(c, text, e)))
  {
    var lines := Lines(text);
    LinesUnbroken(text);
    match e
    case Append(rec) => AppendRefines(c, lines, rec);
    case Update(fid, updates) =>
      if Found(c, lines, fid) { UpdateRefines(c, lines, fid, updates); }
      else { NotFoundNotViewed(c, lines, fid, updates); }
    case Delete(fid) =>
      if Found(c, lines, fid) { DeleteRefines(c, lines, fid); } else { NotFoundNotViewed(c, lines, fid, map[]); }
    case Compact =>
      if text.Some? { CompactRefines(c, lines); }
  }

  function AllEdited(c: Codec, text: Option<string>, edits: seq<Edit>): Option<string>
    decreases |edits|
  {
    if edits == [] then text else AllEdited(c, Edited(c, text, edits[0]), edits[1..])
  }

  function MapAllEdited(m: seq<FileRecord>, edits: seq<Edit>): seq<FileRecord>
    decreases |edits|
  {
    if edits == [] then m else MapAllEdited(MapEdited(m, edits[0]), edits[1..])
  }

  /** Refinement: through any run of appends, updates, deletes and compactions, from any readable text,
      what is read back is the ordered map with the same edits applied. */
  lemma {:induction false} IndexRefinesOrderedMap(c: Codec, text: Option<string>, edits: seq<Edit>)
    requires c.Lawful() && Readable(c, Lines(text))
    requires forall i :: 0 <= i < |edits| && edits[i].Update? ==> KeepsId(edits[i].fid, edits[i].updates)
    ensures View(c, Lines(AllEdited(c, text, edits))) == MapAllEdited(View(c, Lines(text)), edits)
    ensures Readable(c, Lines(AllEdited(c, text, edits)))
    decreases |edits|
  {
    if edits != [] {
      EditRefines(c, text, edits[0]);
      IndexRefinesOrderedMap(c, Edited(c, text, edits[0]), edits[1..]);
    }
  }

  /** Compacting a compacted index changes nothing, not even its text. */
  lemma CompactIdempotent(c: Codec, text: Option<string>)
    requires c.Lawful()
    ensures Edited(c, Edited(c, text, Compact), Compact) == Edited(c, text, Compact)
  {
    if text.Some? {
      CompactRefines(c, Lines(text));
      LiveTwice(View(c, Lines(text)));
    }
  }

  lemma {:induction false} LiveTwice(m: seq<FileRecord>)
    ensures Live(Live(m)) == Live(m)
  {
    if m != [] {
      LiveTwice(m[1..]);
      var p := (x: FileRecord) => !Retired(x);
      FilterAppend(if p(m[0]) then [m[0]] else [], Filter(m[1..], p), p);
      FilterOne(m[0], p);
    }
  }

  // ------------------------------------------------------ compaction's counts

  function NonBlank(lines: seq<string>): nat {
    if lines == [] then 0 else (if IsBlank(lines[0]) then 0 else 1) + NonBlank(lines[1..])
  }

  /** The line holds the current version of an id. */
  predicate Current(c: Codec, lines: seq<string>, i: nat)
    requires i < |lines|
  {
    !IsBlank(lines[i]) && c.load(lines[i]).Object? && HasId(c.load(lines[i]).rec)
    && !Superseded(c.load(lines[i]).rec, Records(c, lines[i + 1..]))
  }

  predicate AllCurrent(c: Codec, lines: seq<string>) {
    forall i :: 0 <= i < |lines| && !IsBlank(lines[i]) ==> Current(c, lines, i)
  }

  lemma CurrentInTail(c: Codec, lines: seq<string>, i: nat)
    requires i + 1 < |lines|
    ensures Current(c, lines[1..], i) <==> Current(c, lines, i + 1)
  {
    DropOfTail(lines, i + 1);
  }

  lemma AllCurrentTail(c: Codec, lines: seq<string>)
    requires lines != []
    ensures AllCurrent(c, lines) <==> (IsBlank(lines[0]) || Current(c, lines, 0)) && AllCurrent(c, lines[1..])
  {
    forall i | 0 <= i < |lines[1..]|
      ensures lines[1..][i] == lines[i + 1] && (Current(c, lines[1..], i) <==> Current(c, lines, i + 1)) {
      CurrentInTail(c, lines, i);
    }
    if AllCurrent(c, lines[1..]) {
      forall i | 0 < i < |lines| && !IsBlank(lines[i]) ensures Current(c, lines, i) {
        assert Current(c, lines[1..], i - 1);
      }
    }
  }

  lemma {:induction false} ViewCountsCurrentLines(c: Codec, lines: seq<string>)
    ensures |View(c, lines)| <= NonBlank(lines)
    ensures |View(c, lines)| == NonBlank(lines) <==> AllCurrent(c, lines)
  {
    if lines != [] {
      ViewCountsCurrentLines(c, lines[1..]);
      AllCurrentTail(c, lines);
      HeadRecord(c, lines);
    }
  }

  /** The first line adds one record to the view when it is current, and none otherwise. */
  lemma HeadRecord(c: Codec, lines: seq<string>)
    requires lines != []
    ensures |View(c, lines)| == |View(c, lines[1..])| + if Current(c, lines, 0) then 1 else 0
  {
    var rs := Records(c, lines);
    if RecordOf(c, lines[0]) != [] {
      assert rs[1..] == Records(c, lines[1..]);
    } else {
      NothingMore(Records(c, lines[1..]), RecordOf(c, lines[0]));
    }
  }

  datatype CompactSummary = CompactSummary(before: nat, after: nat, removed: nat, duplicates: int)

  /** The counts a compaction reports. */
  function Summary(c: Codec, lines: seq<string>): CompactSummary {
    CompactSummary(NonBlank(lines), |Live(View(c, lines))|, |View(c, lines)| - |Live(View(c, lines))|, 0)
  }

  /** `removed` is `before - after` exactly when every line counted in `before` is the current version of an id:
      malformed lines, records without id and old versions are dropped from the file but not counted as
      removed. */
  lemma RemovedIsDifferenceIff(c: Codec, lines: seq<string>)
    ensures var s := Summary(c, lines); s.removed == s.before - s.after <==> AllCurrent(c, lines)
  {
    ViewCountsCurrentLines(c, lines);
  }

  lemma NonBlankOfThree(lines: seq<string>)
    requires |lines| == 3
    ensures NonBlank(lines) == (if IsBlank(lines[0]) then 0 else 1) + (if IsBlank(lines[1]) then 0 else 1)
                               + (if IsBlank(lines[2]) then 0 else 1)
  {
    TailOfTail(lines, 0);
    TailOfTail(lines, 1);
    TailOfTail(lines, 2);
    assert NonBlank(lines[3..]) == 0;
    assert NonBlank(lines[2..]) == if IsBlank(lines[2]) then 0 else 1;
  }

  /** The text with two versions of one record: compaction drops a line and reports none. */
  lemma OldVersionIsNotCounted(c: Codec, rec: FileRecord)
    requires c.Lawful() && HasId(rec) && !Retired(rec)
    ensures Summary(c, Split(Join([c.dump(rec), c.dump(rec)]))) == CompactSummary(2, 1, 0, 0)
  {
    var two := [c.dump(rec), c.dump(rec)];
    SplitJoin(two);
    NonBlankOfThree(two + [""]);
    RecordsWritten(c, two);
    assert Records(c, two) == [rec, rec] by { RecordsOne(c, two[1]); assert two[1..] == [two[1]]; }
    assert [rec, rec][1..] == [rec] && [rec][0] == rec;
    LatestOne(rec);
    assert SameId(rec, [rec][0]) && Superseded(rec, [rec]);
    NothingMore([rec], []);
    assert Latest([rec, rec]) == [rec];
    assert View(c, two + [""]) == [rec];
    assert NonBlank(two + [""]) == 2;
    FilterAll([rec], (x: FileRecord) => !Retired(x));
  }
}
