/** Which artifacts a listing shows: _report_display_key and _dedupe_artifacts_for_listing of artifacts/store.py. */
module Listing {
  import opened Seqs
  import opened Text
  import opened Wrappers

  /** `title` is normalized already: stripped, with single spaces, in lower case. */
  datatype ListedRecord = ListedRecord(id: string, kind: string, createdAt: string, title: string, fileExt: string,
                           metadata: map<string, string>)

  datatype DisplayKey =
    | ArtifactKey(id: string)
    | TaskKey(task: string, format: string)
    | DayKey(day: string)
    | TitleKey(title: string, day: string)

  function Day(r: ListedRecord): string { if |r.createdAt| >= 10 then r.createdAt[..10] else "" }

  predicate Report(r: ListedRecord) { r.kind == "report" }

  predicate Generic(r: ListedRecord) { r.title in ["", "report", "报告"] }

  predicate Named(r: ListedRecord) { Report(r) && !Generic(r) }

  function Task(r: ListedRecord): string { Meta(r.metadata, "inspection_task_id") }

  function Format(r: ListedRecord): string {
    Or(Or(Meta(r.metadata, "report_format"), Meta(r.metadata, "format")), r.fileExt)
  }

  function KeyOf(r: ListedRecord, namedDays: set<string>): Option<DisplayKey> {
    if !Report(r) then Some(ArtifactKey(r.id))
    else if Task(r) != "" then Some(TaskKey(Task(r), Format(r)))
    else if Generic(r) then if Day(r) in namedDays then None else Some(DayKey(Day(r)))
    else Some(TitleKey(r.title, Day(r)))
  }

  function NamedDays(records: seq<ListedRecord>): set<string> {
    set i | 0 <= i < |records| && Named(records[i]) :: Day(records[i])
  }

  // ----------------------------------------------------------- specification

  /** A record with the key comes later. */
  predicate HasKey(rest: seq<ListedRecord>, days: set<string>, key: DisplayKey) {
    exists i :: 0 <= i < |rest| && KeyOf(rest[i], days) == Some(key)
  }

  predicate LastOfKey(r: ListedRecord, rest: seq<ListedRecord>, days: set<string>) {
    KeyOf(r, days).Some? && !HasKey(rest, days, KeyOf(r, days).value)
  }

  function Lasts(records: seq<ListedRecord>, days: set<string>): seq<ListedRecord> {
    if records == [] then []
    else (if LastOfKey(records[0], records[1..], days) then [records[0]] else []) + Lasts(records[1..], days)
  }

  /** The listing: the last record of every display key, in order. */
  function Deduped(records: seq<ListedRecord>): seq<ListedRecord> { Lasts(records, NamedDays(records)) }

  predicate UniqueIds(records: seq<ListedRecord>) {
    forall i, j :: 0 <= i < j < |records| ==> records[i].id != records[j].id
  }

  // ------------------------------------------------------------------- lemmas

  lemma {:induction false} LastsAreKept(records: seq<ListedRecord>, days: set<string>)
    ensures Lasts(records, days) ==
            KeptBy(records, (r: ListedRecord, rest: seq<ListedRecord>) => LastOfKey(r, rest, days))
  {
    if records != [] { LastsAreKept(records[1..], days); }
  }

  /** The listing is an in-order subsequence of the records: exactly the places that hold the last record of
      their key. */
  lemma ListedPlaces(records: seq<ListedRecord>) returns (places: seq<nat>)
    ensures Increasing(places) && |places| == |Deduped(records)|
    ensures forall k :: 0 <= k < |places| ==> places[k] < |records| && records[places[k]] == Deduped(records)[k]
    ensures forall i :: 0 <= i < |records| ==>
              (i in places <==> LastOfKey(records[i], records[i + 1..], NamedDays(records)))
  {
    var days := NamedDays(records);
    LastsAreKept(records, days);
    var keep := (r: ListedRecord, rest: seq<ListedRecord>) => LastOfKey(r, rest, days);
    places := Places(records, keep, 0);
    PlacesIncrease(records, keep, 0);
    forall k | 0 <= k < |places| ensures places[k] < |records| && records[places[k]] == Deduped(records)[k] {
      PlacesHold(records, keep, 0, k);
    }
    forall i | 0 <= i < |records| ensures i in places <==> LastOfKey(records[i], records[i + 1..], days) {
      PlacesExact(records, keep, 0, i);
    }
  }

  /** What is listed, by membership. */
  lemma {:induction false} ListedMember(records: seq<ListedRecord>, days: set<string>, r: ListedRecord)
    requires r in Lasts(records, days)
    ensures r in records && KeyOf(r, days).Some?
  {
    if r in Lasts(records[1..], days) {
      ListedMember(records[1..], days, r);
    }
    HeadTail(records);
  }

  /** Every record that has a key is listed or replaced by a later listed record with its key. */
  lemma {:induction false} KeyIsListed(records: seq<ListedRecord>, days: set<string>, key: DisplayKey)
    ensures HasKey(records, days, key) <==> HasKey(Lasts(records, days), days, key)
  {
    if records != [] {
      var rest := Lasts(records[1..], days);
      KeyIsListed(records[1..], days, key);
      NothingMore(rest, []);
      HasKeyHead(records, days, key);
      if LastOfKey(records[0], records[1..], days) {
        HasKeyHead([records[0]] + rest, days, key);
        assert ([records[0]] + rest)[1..] == rest;
      }
    }
  }

  lemma HasKeyHead(records: seq<ListedRecord>, days: set<string>, key: DisplayKey)
    requires records != []
    ensures HasKey(records, days, key) <==> KeyOf(records[0], days) == Some(key) || HasKey(records[1..], days, key)
  {
    if i :| 0 <= i < |records[1..]| && KeyOf(records[1..][i], days) == Some(key) {
      assert records[i + 1] == records[1..][i];
    }
    if i :| 0 < i < |records| && KeyOf(records[i], days) == Some(key) {
      assert records[1..][i - 1] == records[i];
    }
  }

  /** No two listed records have the same key. */
  lemma {:induction false} ListedKeysDiffer(records: seq<ListedRecord>, days: set<string>)
    ensures forall i, j :: 0 <= i < j < |Lasts(records, days)| ==>
              KeyOf(Lasts(records, days)[i], days) != KeyOf(Lasts(records, days)[j], days)
  {
    if records != [] {
      var rest := Lasts(records[1..], days);
      ListedKeysDiffer(records[1..], days);
      NothingMore(rest, []);
      if LastOfKey(records[0], records[1..], days) {
        KeyIsListed(records[1..], days, KeyOf(records[0], days).value);
        forall j | 0 <= j < |rest| ensures KeyOf(rest[j], days) != KeyOf(records[0], days) { }
      }
    }
  }

  /** A list whose records have different keys is listed in full. */
  lemma {:induction false} DistinctIsListed(records: seq<ListedRecord>, days: set<string>)
    requires forall i :: 0 <= i < |records| ==> KeyOf(records[i], days).Some?
    requires forall i, j :: 0 <= i < j < |records| ==> KeyOf(records[i], days) != KeyOf(records[j], days)
    ensures Lasts(records, days) == records
  {
    if records != [] {
      assert forall i :: 0 <= i < |records[1..]| ==> records[1..][i] == records[i + 1];
      DistinctIsListed(records[1..], days);
      HeadTail(records);
    }
  }

  /** Listing a listing changes nothing, although days of named reports may have gone with replaced ones. */
  lemma DedupeIdempotent(records: seq<ListedRecord>)
    ensures Deduped(Deduped(records)) == Deduped(records)
  {
    var days := NamedDays(records);
    var listed := Deduped(records);
    forall i | 0 <= i < |listed| ensures KeyOf(listed[i], days).Some? && listed[i] in records {
      ListedMember(records, days, listed[i]);
    }
    assert NamedDays(listed) <= days;
    forall i | 0 <= i < |listed| ensures KeyOf(listed[i], NamedDays(listed)) == KeyOf(listed[i], days) { }
    ListedKeysDiffer(records, days);
    DistinctIsListed(listed, NamedDays(listed));
  }

  lemma LastIsListed(records: seq<ListedRecord>, i: nat) returns (k: nat)
    requires i < |records| && KeyOf(records[i], NamedDays(records)).Some?
    requires forall j :: i < j < |records| ==>
               KeyOf(records[j], NamedDays(records)) != KeyOf(records[i], NamedDays(records))
    ensures k < |Deduped(records)| && Deduped(records)[k] == records[i]
  {
    var places := ListedPlaces(records);
    var rest := records[i + 1..];
    assert forall n :: 0 <= n < |rest| ==> rest[n] == records[i + 1 + n];
    assert i in places;
    k :| 0 <= k < |places| && places[k] == i;
  }

  /** Whatever is not a report is listed. */
  lemma OtherKindsAreListed(records: seq<ListedRecord>, i: nat) returns (k: nat)
    requires UniqueIds(records) && i < |records| && records[i].kind != "report"
    ensures k < |Deduped(records)| && Deduped(records)[k] == records[i]
  {
    k := LastIsListed(records, i);
  }

  /** A report with a title of its own and of no inspection task. */
  predicate Titled(r: ListedRecord) {
    r.kind == "report" && r.title !in ["", "report", "报告"] && Meta(r.metadata, "inspection_task_id") == ""
  }

  /** With ids of their own, exactly the last records of their keys are listed. */
  lemma ListedIff(records: seq<ListedRecord>, i: nat)
    requires UniqueIds(records) && i < |records|
    ensures records[i] in Deduped(records) <==> LastOfKey(records[i], records[i + 1..], NamedDays(records))
  {
    var places := ListedPlaces(records);
    if records[i] in Deduped(records) {
      var k :| 0 <= k < |places| && Deduped(records)[k] == records[i];
      assert records[places[k]].id == records[i].id;
      assert i in places;
    }
    if i in places {
      var k :| 0 <= k < |places| && places[k] == i;
      assert Deduped(records)[k] == records[i];
    }
  }

  lemma LastOfKeyIff(records: seq<ListedRecord>, i: nat, days: set<string>)
    requires i < |records| && KeyOf(records[i], days).Some?
    ensures LastOfKey(records[i], records[i + 1..], days) <==>
            forall j :: i < j < |records| ==> KeyOf(records[j], days) != KeyOf(records[i], days)
  {
    var rest := records[i + 1..];
    assert forall n :: 0 <= n < |rest| ==> rest[n] == records[i + 1 + n];
    if j :| i < j < |records| && KeyOf(records[j], days) == KeyOf(records[i], days) {
      assert KeyOf(rest[j - i - 1], days) == KeyOf(records[i], days);
    }
  }

  /** A titled report is listed exactly when no later one has its title and its day. */
  lemma TitledIsListedIff(records: seq<ListedRecord>, i: nat)
    requires UniqueIds(records) && i < |records| && Titled(records[i])
    ensures records[i] in Deduped(records) <==>
            forall j :: i < j < |records| && Titled(records[j]) && records[j].title == records[i].title ==>
              Day(records[j]) != Day(records[i])
  {
    ListedIff(records, i);
    LastOfKeyIff(records, i, NamedDays(records));
  }

  /** A report without a title of its own and of no inspection task. */
  predicate Untitled(r: ListedRecord) {
    r.kind == "report" && r.title in ["", "report", "报告"] && Meta(r.metadata, "inspection_task_id") == ""
  }

  /** A draft is listed exactly when no report with a title of its own is of its day, and no later draft is. */
  lemma DraftIsListedIff(records: seq<ListedRecord>, i: nat)
    requires UniqueIds(records) && i < |records| && Untitled(records[i])
    ensures records[i] in Deduped(records) <==>
            && (forall j :: 0 <= j < |records| && records[j].kind == "report" && Day(records[j]) == Day(records[i]) ==>
                  records[j].title in ["", "report", "报告"])
            && (forall j :: i < j < |records| && Untitled(records[j]) ==> Day(records[j]) != Day(records[i]))
  {
    ListedIff(records, i);
    if Day(records[i]) in NamedDays(records) {
      var j :| 0 <= j < |records| && Named(records[j]) && Day(records[j]) == Day(records[i]);
      assert records[j].kind == "report";
    } else {
      LastOfKeyIff(records, i, NamedDays(records));
    }
  }

  /** Titled reports of different titles are listed side by side, each by the last one of its title and day. */
  lemma {:induction false} TitlesAreListed(records: seq<ListedRecord>, i: nat) returns (k: nat)
    requires i < |records| && Titled(records[i])
    ensures k < |Deduped(records)| && Titled(Deduped(records)[k])
    ensures Deduped(records)[k].title == records[i].title && Day(Deduped(records)[k]) == Day(records[i])
    decreases |records| - i
  {
    if j :| i < j < |records| && Titled(records[j]) && records[j].title == records[i].title
            && Day(records[j]) == Day(records[i]) {
      k := TitlesAreListed(records, j);
    } else {
      k := LastIsListed(records, i);
    }
  }

  /** A report of an inspection task whose metadata names its format. */
  predicate TaskReport(r: ListedRecord, task: string, format: string) {
    && r.kind == "report" && task != "" && format != ""
    && Meta(r.metadata, "inspection_task_id") == task && Meta(r.metadata, "report_format") == format
  }

  /** The report of a task is listed in every format that it has, whatever the titles, each by the last one. */
  lemma {:induction false} FormatsAreListed(records: seq<ListedRecord>, i: nat, task: string, format: string)
    returns (k: nat)
    requires i < |records| && TaskReport(records[i], task, format)
    requires forall j :: 0 <= j < |records| && Report(records[j]) && Task(records[j]) == task ==>
               Meta(records[j].metadata, "report_format") != ""
    ensures k < |Deduped(records)| && TaskReport(Deduped(records)[k], task, format)
    decreases |records| - i
  {
    if j :| i < j < |records| && TaskReport(records[j], task, format) {
      k := FormatsAreListed(records, j, task, format);
    } else {
      k := LastIsListed(records, i);
    }
  }

  /** The listing shows a named report of the day. */
  predicate ShowsNamed(listed: seq<ListedRecord>, day: string) {
    exists k :: 0 <= k < |listed| && Named(listed[k]) && Day(listed[k]) == day
  }

  /** A later report of the same inspection task has the same format. */
  predicate Replaced(records: seq<ListedRecord>, i: nat)
    requires i < |records|
  {
    exists j :: i < j < |records| && Report(records[j]) && Format(records[j]) == Format(records[i])
                && Task(records[j]) == Task(records[i]) != ""
  }

  /** A named report of the day that nothing replaces. */
  predicate Lasting(records: seq<ListedRecord>, i: nat, day: string)
    requires i < |records|
  {
    Named(records[i]) && Day(records[i]) == day && !Replaced(records, i)
  }

  lemma ReplacedIsNotLast(records: seq<ListedRecord>, i: nat, days: set<string>)
    requires i < |records| && Report(records[i]) && Task(records[i]) != ""
    ensures Replaced(records, i) <==> !LastOfKey(records[i], records[i + 1..], days)
  {
    var rest := records[i + 1..];
    if j :| i < j < |records| && KeyOf(records[j], days) == KeyOf(records[i], days) {
      assert rest[j - i - 1] == records[j];
    }
  }

  lemma LastingIsShown(records: seq<ListedRecord>, i: nat, day: string)
    requires i < |records| && Lasting(records, i, day)
    ensures ShowsNamed(Deduped(records), day)
  {
    var days := NamedDays(records);
    var key := KeyOf(records[i], days).value;
    if key.TaskKey? {
      ReplacedIsNotLast(records, i, days);
      var places := ListedPlaces(records);
      var k :| 0 <= k < |places| && places[k] == i;
      assert Named(Deduped(records)[k]);
    } else {
      KeyIsListed(records, days, key);
      var k :| 0 <= k < |Deduped(records)| && KeyOf(Deduped(records)[k], days) == Some(key);
      ListedMember(records, days, Deduped(records)[k]);
    }
  }

  lemma ShownIsLasting(records: seq<ListedRecord>, k: nat) returns (i: nat)
    requires k < |Deduped(records)| && Named(Deduped(records)[k])
    ensures i < |records| && Lasting(records, i, Day(Deduped(records)[k]))
  {
    var places := ListedPlaces(records);
    i := places[k];
    assert i in places;
    if Task(records[i]) != "" { ReplacedIsNotLast(records, i, NamedDays(records)); }
  }

  /** A day with a named report hides its drafts. When it shows a named report for them: exactly when one of its
      named reports is not replaced by a later report of the same inspection task and format. */
  lemma DayShowsNamedIff(records: seq<ListedRecord>, day: string)
    ensures ShowsNamed(Deduped(records), day) <==> exists i :: 0 <= i < |records| && Lasting(records, i, day)
  {
    if k :| 0 <= k < |Deduped(records)| && Named(Deduped(records)[k]) && Day(Deduped(records)[k]) == day {
      var i := ShownIsLasting(records, k);
    }
    if i :| 0 <= i < |records| && Lasting(records, i, day) { LastingIsShown(records, i, day); }
  }

  const Draft := ListedRecord("a", "report", "2024-01-01", "report", "md", map[])
  const Old := ListedRecord("b", "report", "2024-01-01", "core", "md", map["inspection_task_id" := "t"])
  const New := ListedRecord("c", "report", "2024-01-02", "core", "md", map["inspection_task_id" := "t"])

  lemma LastsOfThree(a: ListedRecord, b: ListedRecord, c: ListedRecord, days: set<string>)
    requires KeyOf(a, days).None? && KeyOf(b, days) == KeyOf(c, days) && KeyOf(c, days).Some?
    ensures Lasts([a, b, c], days) == [c]
  {
    assert [c][1..] == [];
    assert Lasts([c], days) == [c];
    assert [b, c][1..] == [c] && [c][0] == c;
    assert Lasts([b, c], days) == [c];
    assert [a, b, c][1..] == [b, c];
  }

  /** The condition can fail: the report of a task that replaces an older one of another day takes
      the older day's only shown report away, and the drafts of that day stay hidden. */
  lemma HiddenBehindNothing()
    ensures Deduped([Draft, Old, New]) == [New] && !ShowsNamed([New], Day(Draft))
    ensures KeyOf(Draft, NamedDays([Draft, Old, New])).None?
  {
    var records := [Draft, Old, New];
    assert records[1] == Old;
    assert Day(Draft) == Day(Old) == "2024-01-01";
    assert Day(Draft)[9] != Day(New)[9];
    assert Day(records[1]) in NamedDays(records);
    LastsOfThree(Draft, Old, New, NamedDays(records));
  }

  // ---------------------------------------------------------------- the loops

  /** What the first loop has recorded of the first `n` records: the last place of every key ... */
  ghost predicate NotedKeys(keys: seq<Option<DisplayKey>>, n: nat, latestByKey: map<DisplayKey, nat>)
    requires n <= |keys|
  {
    && (forall key :: key in latestByKey ==> LatestAt(keys, n, key, latestByKey[key]))
    && (forall i :: 0 <= i < n && keys[i].Some? ==> keys[i].value in latestByKey)
  }

  predicate LatestAt(keys: seq<Option<DisplayKey>>, n: nat, key: DisplayKey, i: nat)
    requires n <= |keys|
  {
    i < n && keys[i] == Some(key) && forall j :: i < j < n ==> keys[j] != Some(key)
  }

  /** ... and the key of every id. */
  ghost predicate NotedIds(ids: seq<string>, keys: seq<Option<DisplayKey>>, n: nat, keyById: map<string, DisplayKey>)
    requires n <= |ids| == |keys|
  {
    && (forall i :: 0 <= i < n ==>
          (ids[i] in keyById <==> keys[i].Some?) && (keys[i].Some? ==> keyById[ids[i]] == keys[i].value))
    && (forall i :: n <= i < |ids| ==> ids[i] !in keyById)
  }

  predicate Unique(ids: seq<string>) { forall i, j :: 0 <= i < j < |ids| ==> ids[i] != ids[j] }

  function KeysOf(records: seq<ListedRecord>, days: set<string>): (keys: seq<Option<DisplayKey>>)
    ensures |keys| == |records| && forall i :: 0 <= i < |records| ==> keys[i] == KeyOf(records[i], days)
  {
    Map(records, (r: ListedRecord) => KeyOf(r, days))
  }

  function IdsOf(records: seq<ListedRecord>): (ids: seq<string>)
    ensures |ids| == |records| && forall i :: 0 <= i < |records| ==> ids[i] == records[i].id
  {
    Map(records, (r: ListedRecord) => r.id)
  }

  lemma NoteKey(keys: seq<Option<DisplayKey>>, i: nat, latestByKey: map<DisplayKey, nat>)
    requires i < |keys| && NotedKeys(keys, i, latestByKey)
    ensures NotedKeys(keys, i + 1, if keys[i].Some? then latestByKey[keys[i].value := i] else latestByKey)
  {
  }

  lemma NoteId(ids: seq<string>, keys: seq<Option<DisplayKey>>, i: nat, keyById: map<string, DisplayKey>)
    requires i < |ids| == |keys| && Unique(ids) && NotedIds(ids, keys, i, keyById)
    ensures NotedIds(ids, keys, i + 1, if keys[i].Some? then keyById[ids[i] := keys[i].value] else keyById)
  {
  }

  method NoteKeys(records: seq<ListedRecord>, days: set<string>)
    returns (latestByKey: map<DisplayKey, nat>, keyById: map<string, DisplayKey>)
    requires UniqueIds(records)
    ensures NotedKeys(KeysOf(records, days), |records|, latestByKey)
    ensures NotedIds(IdsOf(records), KeysOf(records, days), |records|, keyById)
  {
    ghost var ids, keys := IdsOf(records), KeysOf(records, days);
    latestByKey, keyById := map[], map[];
    for i := 0 to |records|
      invariant NotedKeys(keys, i, latestByKey)
      invariant NotedIds(ids, keys, i, keyById)
    {
      NoteKey(keys, i, latestByKey);
      NoteId(ids, keys, i, keyById);
      var key := KeyOf(records[i], days);
      if key.None? { continue; }
      latestByKey := latestByKey[key.value := i];
      keyById := keyById[records[i].id := key.value];
    }
  }

  /** A record is the one noted for its key exactly when it is the last of it. */
  lemma LatestIsLast(records: seq<ListedRecord>, days: set<string>, i: nat, key: DisplayKey, latest: nat)
    requires i < |records| && KeyOf(records[i], days) == Some(key)
    requires LatestAt(KeysOf(records, days), |records|, key, latest)
    ensures LastOfKey(records[i], records[i + 1..], days) <==> latest == i
  {
    var keys := KeysOf(records, days);
    var rest := records[i + 1..];
    forall k | 0 <= k < |rest| ensures KeyOf(rest[k], days) == keys[i + 1 + k] { }
    if latest > i { assert KeyOf(rest[latest - i - 1], days) == Some(key); }
  }

  /** `_dedupe_artifacts_for_listing`; the identity of a record is its place. */
  method DedupeArtifactsForListing(records: seq<ListedRecord>) returns (listed: seq<ListedRecord>)
    requires UniqueIds(records)
    ensures listed == Deduped(records)
  {
    var days := NamedDays(records);
    var latestByKey, keyById := NoteKeys(records, days);
    listed := [];
    var emitted: set<DisplayKey> := {};
    var i := |records|;
    assert records[i..] == [];
    while i > 0
      invariant 0 <= i <= |records|
      invariant listed == Lasts(records[i..], days)
      invariant forall key :: key in emitted ==> key in latestByKey && latestByKey[key] >= i
    {
      i := i - 1;
      TailOfTail(records, i);
      assert IdsOf(records)[i] == records[i].id && KeysOf(records, days)[i] == KeyOf(records[i], days);
      NothingMore(listed, []);
      if records[i].id in keyById {
        var key := keyById[records[i].id];
        LatestIsLast(records, days, i, key, latestByKey[key]);
        if key !in emitted && latestByKey[key] == i {
          listed := [records[i]] + listed;
          emitted := emitted + {key};
        }
      }
    }
    assert records[0..] == records;
  }
}
