/** The loops that build the authority projection and its summary: artifacts/governance.py. */
module GovernanceReport {
  import opened Seqs
  import opened Sorting
  import opened Text
  import opened Governance

  /** What is reported about one record, without the explanatory texts. */
  datatype Projection = Projection(
    key: string, quality: string, domain: string, status: Status,
    authoritativeId: string, latestId: string, isLatest: bool, version: nat, versionCount: nat)

  /** The projection of `r` among `records` says what the policy decides. */
  ghost predicate Reports(records: seq<Evidence>, r: Evidence, p: Projection) {
    && p.key == r.key && p.domain == r.domain && p.quality == r.quality
    && p.status == StatusOf(records, r)
    && p.version == Version(records, r) && p.versionCount == VersionCount(records, r)
    && (if Contextual(r) then p.isLatest && p.latestId == r.id && p.authoritativeId == ""
        else
          && (p.isLatest <==> Latest(records, r))
          && LatestId(records, r, p.latestId) && SelectedId(records, r, p.authoritativeId))
  }

  ghost predicate LatestId(records: seq<Evidence>, r: Evidence, id: string) {
    exists s :: s in records && Peers(r, s) && Latest(records, s) && s.id == id
  }

  ghost predicate SelectedId(records: seq<Evidence>, r: Evidence, id: string) {
    exists s :: s in records && Peers(r, s) && Selected(records, s) && s.id == id
  }

  // --------------------------------------------------------------- sorting

  /** Python's stable sort by (created_at, artifact_id). */
  function SortedInTime(s: seq<Evidence>): seq<Evidence> { Sorted(s, Earlier) }

  lemma NotLater(a: Evidence, b: Evidence, c: Evidence)
    requires !Earlier(b, a) && !Earlier(c, b)
    ensures !Earlier(c, a)
  {
    EarlierOnce(a, b);
    EarlierOnce(b, c);
    LessOnce(a.createdAt, b.createdAt);
    LessOnce(b.createdAt, c.createdAt);
    if Earlier(c, a) {
      if Earlier(a, b) { EarlierChain(c, a, b); } else if Earlier(b, c) { EarlierChain(b, c, a); }
    }
  }

  lemma SortedHolds(s: seq<Evidence>)
    ensures multiset(SortedInTime(s)) == multiset(s) && |SortedInTime(s)| == |s|
  {
    SortedPermutes(s, Earlier);
  }

  lemma SortedOrders(s: seq<Evidence>)
    ensures Ordered(SortedInTime(s), Earlier)
  {
    forall a, b, c | !Earlier(b, a) && !Earlier(c, b) ensures !Earlier(c, a) { NotLater(a, b, c); }
    forall a, b ensures !(Earlier(a, b) && Earlier(b, a)) { EarlierOnce(a, b); }
    SortedIsOrdered(s, Earlier);
  }

  // ------------------------------------------------------------ one evidence stream

  function Stream(records: seq<Evidence>, key: string): seq<Evidence> {
    Filter(records, (r: Evidence) => InStream(r, key))
  }

  lemma StreamMember(records: seq<Evidence>, key: string)
    ensures forall r :: r in Stream(records, key) <==> r in records && InStream(r, key)
    ensures forall r :: r in SortedInTime(Stream(records, key)) <==> r in records && InStream(r, key)
  {
    var stream := Stream(records, key);
    SortedHolds(stream);
    forall r ensures r in stream <==> r in records && InStream(r, key) {
      FilterMember(records, (x: Evidence) => InStream(x, key), r);
    }
    forall r ensures r in SortedInTime(stream) <==> r in stream {
      assert r in SortedInTime(stream) <==> r in multiset(SortedInTime(stream));
    }
  }

  lemma UniqueCons(r: Evidence, rest: seq<Evidence>)
    requires UniqueIds(rest) && forall x :: x in rest ==> x.id != r.id
    ensures UniqueIds([r] + rest)
  {
    forall j | 0 < j < |[r] + rest| ensures ([r] + rest)[j].id != r.id { assert rest[j - 1] in rest; }
  }

  lemma UniqueTail(records: seq<Evidence>)
    requires UniqueIds(records) && records != []
    ensures UniqueIds(records[1..]) && forall x :: x in records[1..] ==> x.id != records[0].id
  {
  }

  lemma {:induction false} FilterUnique(records: seq<Evidence>, p: Evidence -> bool)
    requires UniqueIds(records)
    ensures UniqueIds(Filter(records, p))
  {
    if records != [] {
      var rest := Filter(records[1..], p);
      UniqueTail(records);
      FilterUnique(records[1..], p);
      NothingMore(rest, []);
      forall r | r in rest ensures r.id != records[0].id { FilterMember(records[1..], p, r); }
      UniqueCons(records[0], rest);
    }
  }

  /** The sorted stream of records with unique ids is strictly increasing in time. */
  lemma StrictlySorted(stream: seq<Evidence>, i: nat, j: nat)
    requires UniqueIds(stream) && i < j < |stream|
    ensures Earlier(SortedInTime(stream)[i], SortedInTime(stream)[j])
  {
    var ordered := SortedInTime(stream);
    SortedHolds(stream);
    SortedOrders(stream);
    OneEach(stream);
    RepeatCounts(ordered, i, j);
    EarlierOnce(ordered[i], ordered[j]);
    assert ordered[i] in multiset(stream) && ordered[j] in multiset(stream);
    SameRecord(stream, ordered[i], ordered[j]);
  }

  lemma {:induction false} CountPrefix(s: seq<Evidence>, n: nat, p: Evidence -> bool)
    requires n <= |s| && forall k :: 0 <= k < |s| ==> (p(s[k]) <==> k < n)
    ensures Count(s, p) == n
  {
    if s != [] {
      assert forall k :: 0 <= k < |s[1..]| ==> s[1..][k] == s[k + 1];
      CountPrefix(s[1..], if n > 0 then n - 1 else 0, p);
    }
  }

  /** The place in the sorted stream is the version. */
  lemma PlaceIsVersion(records: seq<Evidence>, key: string, i: nat)
    requires UniqueIds(records) && i < |Stream(records, key)|
    ensures var ordered := SortedInTime(Stream(records, key));
            Version(records, ordered[i]) == i + 1 && VersionCount(records, ordered[i]) == |ordered|
  {
    var stream := Stream(records, key);
    var ordered := SortedInTime(stream);
    var r := ordered[i];
    var before := (s: Evidence) => Earlier(s, r);
    StreamMember(records, key);
    assert r in ordered;
    FilterUnique(records, (x: Evidence) => InStream(x, key));
    SortedHolds(stream);
    forall k | 0 <= k < |ordered| ensures before(ordered[k]) <==> k < i {
      EarlierOnce(r, ordered[k]);
      if k < i { StrictlySorted(stream, k, i); } else if k > i { StrictlySorted(stream, i, k); }
    }
    CountPrefix(ordered, i, before);
    CountPermuted(stream, ordered, before);
    FilterFilter(records, (x: Evidence) => InStream(x, key), before, (s: Evidence) => Peers(r, s) && Earlier(s, r));
    SameCount(records, (x: Evidence) => InStream(x, key), (s: Evidence) => Peers(r, s));
  }

  lemma {:induction false} SameCount(records: seq<Evidence>, p: Evidence -> bool, q: Evidence -> bool)
    requires forall r :: p(r) <==> q(r)
    ensures Count(records, p) == Count(records, q)
  {
    if records != [] { SameCount(records[1..], p, q); }
  }

  // ------------------------------------------------------------------ the loops

  predicate Strict(s: seq<Evidence>) { forall i, j :: 0 <= i < j < |s| ==> Earlier(s[i], s[j]) }

  /** `ordered` lists the stream of `key`, strictly increasing in time. */
  ghost predicate Lists(records: seq<Evidence>, key: string, ordered: seq<Evidence>) {
    && Strict(ordered)
    && (forall r :: r in ordered ==> r in records && InStream(r, key))
    && (forall r :: r in records && InStream(r, key) ==> r in ordered)
  }

  lemma SortedLists(records: seq<Evidence>, key: string)
    requires UniqueIds(records)
    ensures Lists(records, key, SortedInTime(Stream(records, key)))
  {
    var stream := Stream(records, key);
    StreamMember(records, key);
    FilterUnique(records, (x: Evidence) => InStream(x, key));
    forall i, j | 0 <= i < j < |SortedInTime(stream)|
      ensures Earlier(SortedInTime(stream)[i], SortedInTime(stream)[j]) {
      StrictlySorted(stream, i, j);
    }
  }

  /** The records of the stream that are later than place `i` are at later places. */
  lemma PlaceOf(records: seq<Evidence>, key: string, ordered: seq<Evidence>, i: nat, s: Evidence) returns (k: nat)
    requires Lists(records, key, ordered) && i < |ordered| && s in records && InStream(s, key)
    ensures k < |ordered| && ordered[k] == s && (k > i || !Earlier(ordered[i], s))
  {
    assert s in ordered;
    k :| 0 <= k < |ordered| && ordered[k] == s;
    EarlierOnce(ordered[i], ordered[k]);
  }

  /** The last complete place or, without one, the last place. */
  predicate ChosenAt(ordered: seq<Evidence>, i: nat)
    requires i < |ordered|
  {
    if Complete(ordered[i]) then forall k :: i < k < |ordered| ==> !Complete(ordered[k])
    else i == |ordered| - 1 && forall k :: 0 <= k < |ordered| ==> !Complete(ordered[k])
  }

  /** The places that satisfy `p`, collected in order. */
  method PlacesOf<T>(s: seq<T>, p: T -> bool) returns (places: seq<nat>)
    ensures forall k :: k in places ==> k < |s| && p(s[k])
    ensures places == [] ==> forall k :: 0 <= k < |s| ==> !p(s[k])
    ensures places != [] ==> forall k :: places[|places| - 1] < k < |s| ==> !p(s[k])
  {
    places := [];
    for n := 0 to |s|
      invariant forall k :: k in places ==> k < n && p(s[k])
      invariant places == [] ==> forall k :: 0 <= k < n ==> !p(s[k])
      invariant places != [] ==> forall k :: places[|places| - 1] < k < n ==> !p(s[k])
    {
      if p(s[n]) { places := places + [n]; }
    }
  }

  /** `complete[-1] if complete else ordered[-1]`, as a place. */
  method ChooseSelected(ordered: seq<Evidence>) returns (i: nat)
    requires ordered != []
    ensures i < |ordered| && ChosenAt(ordered, i)
  {
    var complete := PlacesOf(ordered, Complete);
    if complete == [] { return |ordered| - 1; }
    i := complete[|complete| - 1];
    assert i in complete;
  }

  /** In the sorted stream the chosen place is the selected record ... */
  lemma ChosenIsSelected(records: seq<Evidence>, key: string, ordered: seq<Evidence>, i: nat)
    requires Lists(records, key, ordered) && i < |ordered| && ChosenAt(ordered, i)
    ensures Selected(records, ordered[i])
  {
    assert ordered[i] in ordered;
    forall s | s in records && InStream(s, key)
      ensures if Complete(ordered[i]) then !(Complete(s) && Earlier(ordered[i], s))
              else !Complete(s) && !Earlier(ordered[i], s) {
      var k := PlaceOf(records, key, ordered, i, s);
    }
  }

  /** ... and the last place the latest one. */
  lemma LastIsLatest(records: seq<Evidence>, key: string, ordered: seq<Evidence>)
    requires Lists(records, key, ordered) && ordered != []
    ensures Latest(records, ordered[|ordered| - 1])
  {
    assert ordered[|ordered| - 1] in ordered;
    forall s | s in records && InStream(s, key) ensures !Earlier(ordered[|ordered| - 1], s) {
      var k := PlaceOf(records, key, ordered, |ordered| - 1, s);
    }
  }

  lemma OneLatest(records: seq<Evidence>, a: Evidence, b: Evidence)
    requires UniqueIds(records) && a in records && b in records && Peers(a, b) && !Contextual(a)
    requires Latest(records, a) && Latest(records, b)
    ensures a == b
  {
    EarlierOnce(a, b);
    SameRecord(records, a, b);
  }

  function StatusBy(r: Evidence, isSelected: bool): Status {
    if isSelected then if Complete(r) then Authoritative else Provisional
    else if !Complete(r) then Incomplete else Historical
  }

  /** The entry the loop writes for place `i` of a sorted stream. */
  function Entry(ordered: seq<Evidence>, i: nat, selected: Evidence, latest: Evidence): Projection
    requires i < |ordered|
  {
    var r := ordered[i];
    Projection(r.key, r.quality, r.domain, StatusBy(r, r.id == selected.id), selected.id, latest.id,
               r.id == latest.id, i + 1, |ordered|)
  }

  /** Comparing ids with the chosen record decides the status. */
  lemma StatusByIsStatus(records: seq<Evidence>, r: Evidence, selected: Evidence)
    requires UniqueIds(records) && r in records && selected in records && Peers(r, selected) && !Contextual(r)
    requires Selected(records, selected)
    ensures StatusBy(r, r.id == selected.id) == StatusOf(records, r)
  {
    SameRecord(records, r, selected);
    if Selected(records, r) { OneSelected(records, r, selected); }
  }

  lemma LatestById(records: seq<Evidence>, r: Evidence, latest: Evidence)
    requires UniqueIds(records) && r in records && latest in records && Peers(r, latest) && !Contextual(r)
    requires Latest(records, latest)
    ensures r.id == latest.id <==> Latest(records, r)
  {
    SameRecord(records, r, latest);
    if Latest(records, r) { OneLatest(records, r, latest); }
  }

  /** What the entry for `r` says, given the chosen and the latest record of its stream. */
  lemma EntryOfPeers(records: seq<Evidence>, r: Evidence, selected: Evidence, latest: Evidence, p: Projection)
    requires UniqueIds(records) && r in records && !Contextual(r)
    requires selected in records && Peers(r, selected) && Selected(records, selected)
    requires latest in records && Peers(r, latest) && Latest(records, latest)
    requires p == Projection(r.key, r.quality, r.domain, StatusBy(r, r.id == selected.id), selected.id, latest.id,
                             r.id == latest.id, Version(records, r), VersionCount(records, r))
    ensures Reports(records, r, p)
  {
    StatusByIsStatus(records, r, selected);
    LatestById(records, r, latest);
    assert LatestId(records, r, p.latestId);
    assert SelectedId(records, r, p.authoritativeId);
  }

  lemma EntryReports(records: seq<Evidence>, key: string, ordered: seq<Evidence>, i: nat, chosen: nat)
    requires UniqueIds(records) && Lists(records, key, ordered) && i < |ordered| && chosen < |ordered|
    requires ordered == SortedInTime(Stream(records, key)) && ChosenAt(ordered, chosen)
    ensures Reports(records, ordered[i], Entry(ordered, i, ordered[chosen], ordered[|ordered| - 1]))
  {
    var r, selected, latest := ordered[i], ordered[chosen], ordered[|ordered| - 1];
    assert r in ordered && selected in ordered && latest in ordered;
    PlaceIsVersion(records, key, i);
    ChosenIsSelected(records, key, ordered, chosen);
    LastIsLatest(records, key, ordered);
    EntryOfPeers(records, r, selected, latest, Entry(ordered, i, selected, latest));
  }

  /** Later places have other ids. */
  lemma OtherPlacesOtherIds(records: seq<Evidence>, key: string, ordered: seq<Evidence>, i: nat)
    requires UniqueIds(records) && Lists(records, key, ordered) && i < |ordered|
    ensures forall k :: 0 <= k < i ==> ordered[k].id != ordered[i].id
  {
    forall k | 0 <= k < i ensures ordered[k].id != ordered[i].id {
      assert ordered[k] in ordered && ordered[i] in ordered;
      EarlierOnce(ordered[k], ordered[k]);
      SameRecord(records, ordered[k], ordered[i]);
    }
  }

  /** The entries of the first `n` places are in the result, as `good` wants them; all else is as before. */
  ghost predicate Written(good: (Evidence, Projection) -> bool, ordered: seq<Evidence>, n: nat,
                          before: map<string, Projection>, result: map<string, Projection>)
    requires n <= |ordered|
  {
    && (forall k :: 0 <= k < n ==> ordered[k].id in result && good(ordered[k], result[ordered[k].id]))
    && (forall id :: id in before ==> id in result)
    && (forall id :: id in result && id !in before ==> exists k :: 0 <= k < n && ordered[k].id == id)
    && (forall id :: id in before && (forall k :: 0 <= k < n ==> ordered[k].id != id) ==> result[id] == before[id])
  }

  ghost function ReportsFor(records: seq<Evidence>): (Evidence, Projection) -> bool {
    (r: Evidence, p: Projection) => Reports(records, r, p)
  }

  /** Writes the entries of one stream into the result. */
  method ProjectStream(ghost records: seq<Evidence>, key: string, versions: seq<Evidence>,
                       before: map<string, Projection>)
    returns (result: map<string, Projection>)
    requires UniqueIds(records) && versions == Stream(records, key) && versions != []
    ensures Written(ReportsFor(records), SortedInTime(versions), |versions|, before, result)
  {
    var ordered := SortedInTime(versions);
    SortedLists(records, key);
    var chosen := ChooseSelected(ordered);
    result := before;
    for i := 0 to |ordered|
      invariant Written(ReportsFor(records), ordered, i, before, result)
    {
      EntryReports(records, key, ordered, i, chosen);
      OtherPlacesOtherIds(records, key, ordered, i);
      var entry := Entry(ordered, i, ordered[chosen], ordered[|ordered| - 1]);
      WriteOne(ReportsFor(records), ordered, i, before, result, entry);
      result := result[ordered[i].id := entry];
    }
  }

  lemma WriteOne(good: (Evidence, Projection) -> bool, ordered: seq<Evidence>, i: nat,
                 before: map<string, Projection>, was: map<string, Projection>, entry: Projection)
    requires i < |ordered| && Written(good, ordered, i, before, was) && good(ordered[i], entry)
    requires forall k :: 0 <= k < i ==> ordered[k].id != ordered[i].id
    ensures Written(good, ordered, i + 1, before, was[ordered[i].id := entry])
  {
    var now := was[ordered[i].id := entry];
    forall id | id in now && id !in before ensures exists k :: 0 <= k < i + 1 && ordered[k].id == id {
      if id in was { var k :| 0 <= k < i && ordered[k].id == id; }
    }
  }

  // -------------------------------------------------------- the whole projection

  function Get(streams: map<string, seq<Evidence>>, key: string): seq<Evidence> {
    if key in streams then streams[key] else []
  }

  /** The stream of `key`: all its records in order; only keys that have one are listed. */
  ghost predicate StreamOk(records: seq<Evidence>, keys: seq<string>, streams: map<string, seq<Evidence>>,
                           key: string)
  {
    && (key in streams <==> key in keys)
    && (key in streams ==> key != "" && streams[key] == Stream(records, key) && streams[key] != [])
    && (key !in streams && key != "" ==> Stream(records, key) == [])
  }

  ghost predicate StreamsOf(records: seq<Evidence>, keys: seq<string>, streams: map<string, seq<Evidence>>) {
    forall key :: StreamOk(records, keys, streams, key)
  }

  /** The entries are those of the records that `covered` holds of, as `good` wants them. */
  ghost predicate Covers(good: (Evidence, Projection) -> bool, records: seq<Evidence>, covered: Evidence -> bool,
                         result: map<string, Projection>) {
    && (forall r :: r in records && covered(r) ==> r.id in result && good(r, result[r.id]))
    && (forall id :: id in result ==> exists r :: r in records && r.id == id && covered(r))
  }

  ghost predicate Governs(records: seq<Evidence>, result: map<string, Projection>) {
    Covers(ReportsFor(records), records, (r: Evidence) => r.key != "", result)
  }

  lemma CoversSame(good: (Evidence, Projection) -> bool, records: seq<Evidence>, p: Evidence -> bool,
                   q: Evidence -> bool, result: map<string, Projection>)
    requires Covers(good, records, p, result) && forall r :: r in records ==> p(r) == q(r)
    ensures Covers(good, records, q, result)
  {
    forall id | id in result ensures exists r :: r in records && r.id == id && q(r) {
      var r :| r in records && r.id == id && p(r);
    }
  }

  /** The first loop: contextual records are projected at once, the others are collected by key. */
  method CollectStreams(records: seq<Evidence>)
    returns (keys: seq<string>, streams: map<string, seq<Evidence>>, result: map<string, Projection>)
    requires UniqueIds(records)
    ensures StreamsOf(records, keys, streams)
    ensures Covers(ReportsFor(records), records, (r: Evidence) => r.key != "" && Contextual(r), result)
  {
    keys, streams, result := [], map[], map[];
    for i := 0 to |records|
      invariant StreamsOf(records[..i], keys, streams)
      invariant forall k :: 0 <= k < i && records[k].key != "" && Contextual(records[k]) ==>
                  records[k].id in result && Reports(records, records[k], result[records[k].id])
      invariant forall id :: id in result ==>
                  exists k :: 0 <= k < i && records[k].id == id && records[k].key != "" && Contextual(records[k])
    {
      var r := records[i];
      AddToStreams(records[..i], keys, streams, r);
      assert records[..i + 1] == records[..i] + [r];
      if r.key == "" { continue; }
      if Contextual(r) {
        result := result[r.id := Projection(r.key, r.quality, r.domain, StatusContextual, "", r.id, true, 1, 1)];
        continue;
      }
      if r.key !in streams { keys := keys + [r.key]; }
      streams := Extended(streams, r);
    }
    assert records[..|records|] == records;
  }

  lemma StreamSnoc(records: seq<Evidence>, r: Evidence, key: string)
    ensures Stream(records + [r], key) == Stream(records, key) + if InStream(r, key) then [r] else []
  {
    FilterSnoc(records, r, (x: Evidence) => InStream(x, key));
    NothingMore(Stream(records, key), []);
  }

  function Extended(streams: map<string, seq<Evidence>>, r: Evidence): map<string, seq<Evidence>> {
    streams[r.key := (if r.key in streams then streams[r.key] else []) + [r]]
  }

  lemma AddToStream(records: seq<Evidence>, keys: seq<string>, streams: map<string, seq<Evidence>>, r: Evidence,
                    key: string)
    requires StreamOk(records, keys, streams, key)
    ensures r.key == "" || Contextual(r) ==> StreamOk(records + [r], keys, streams, key)
    ensures r.key != "" && !Contextual(r) ==>
              StreamOk(records + [r], if r.key in streams then keys else keys + [r.key], Extended(streams, r), key)
  {
    StreamSnoc(records, r, key);
    NothingMore(Stream(records, key), []);
  }

  lemma AddToStreams(records: seq<Evidence>, keys: seq<string>, streams: map<string, seq<Evidence>>, r: Evidence)
    requires StreamsOf(records, keys, streams)
    ensures r.key == "" || Contextual(r) ==> StreamsOf(records + [r], keys, streams)
    ensures r.key != "" && !Contextual(r) ==>
              StreamsOf(records + [r], if r.key in streams then keys else keys + [r.key], Extended(streams, r))
  {
    var keys' := if r.key in streams then keys else keys + [r.key];
    forall key
      ensures r.key == "" || Contextual(r) ==> StreamOk(records + [r], keys, streams, key)
      ensures r.key != "" && !Contextual(r) ==> StreamOk(records + [r], keys', Extended(streams, r), key)
    {
      AddToStream(records, keys, streams, r, key);
    }
  }

  // ----------------------------------------------------------- the second loop

  /** What writing one stream leaves for a record of it, and for a record covered before. */
  lemma WrittenFor(records: seq<Evidence>, key: string, before: map<string, Projection>,
                   result: map<string, Projection>, r: Evidence)
    requires UniqueIds(records) && r in records
    requires InStream(r, key) || (r.id in before && Reports(records, r, before[r.id]))
    requires Written(ReportsFor(records), SortedInTime(Stream(records, key)), |Stream(records, key)|, before, result)
    ensures r.id in result && Reports(records, r, result[r.id])
  {
    var ordered := SortedInTime(Stream(records, key));
    StreamMember(records, key);
    if InStream(r, key) {
      assert r in ordered;
    } else {
      forall k | 0 <= k < |ordered| ensures ordered[k].id != r.id {
        assert ordered[k] in ordered;
        SameRecord(records, ordered[k], r);
      }
    }
  }

  lemma WrittenIds(records: seq<Evidence>, key: string, before: map<string, Projection>,
                   result: map<string, Projection>, id: string)
    requires id in result && id !in before
    requires Written(ReportsFor(records), SortedInTime(Stream(records, key)), |Stream(records, key)|, before, result)
    ensures exists r :: r in records && r.id == id && InStream(r, key)
  {
    var ordered := SortedInTime(Stream(records, key));
    StreamMember(records, key);
    var k :| 0 <= k < |ordered| && ordered[k].id == id;
    assert ordered[k] in ordered;
  }

  /** One more key is covered once its stream is written. */
  lemma CoverStream(records: seq<Evidence>, done: seq<string>, key: string,
                    before: map<string, Projection>, result: map<string, Projection>)
    requires UniqueIds(records) && key != ""
    requires Covers(ReportsFor(records), records, CoveredBy(done), before)
    requires Written(ReportsFor(records), SortedInTime(Stream(records, key)), |Stream(records, key)|, before, result)
    ensures Covers(ReportsFor(records), records, CoveredBy(done + [key]), result)
  {
    forall r | r in records && CoveredBy(done + [key])(r)
      ensures r.id in result && Reports(records, r, result[r.id]) {
      WrittenFor(records, key, before, result, r);
    }
    forall id | id in result ensures exists r :: r in records && r.id == id && CoveredBy(done + [key])(r) {
      if id in before {
        var r :| r in records && r.id == id && CoveredBy(done)(r);
        assert CoveredBy(done + [key])(r);
      } else {
        WrittenIds(records, key, before, result, id);
        var r :| r in records && r.id == id && InStream(r, key);
        assert CoveredBy(done + [key])(r);
      }
    }
  }

  function CoveredBy(done: seq<string>): Evidence -> bool {
    (r: Evidence) => r.key != "" && (Contextual(r) || r.key in done)
  }

  /** The second loop's turn for one key. */
  method ProjectKey(ghost evidence: seq<Evidence>, keys: seq<string>, j: nat, streams: map<string, seq<Evidence>>,
                    before: map<string, Projection>)
    returns (result: map<string, Projection>)
    requires UniqueIds(evidence) && StreamsOf(evidence, keys, streams) && j < |keys|
    requires Covers(ReportsFor(evidence), evidence, CoveredBy(keys[..j]), before)
    ensures Covers(ReportsFor(evidence), evidence, CoveredBy(keys[..j + 1]), result)
  {
    var key := keys[j];
    assert StreamOk(evidence, keys, streams, key);
    result := ProjectStream(evidence, key, streams[key], before);
    CoverStream(evidence, keys[..j], key, before, result);
    assert keys[..j + 1] == keys[..j] + [key];
  }

  /** Both loops over what the policy looks at. */
  method Project(evidence: seq<Evidence>) returns (result: map<string, Projection>)
    requires UniqueIds(evidence)
    ensures Governs(evidence, result)
  {
    var keys, streams, projected := CollectStreams(evidence);
    result := projected;
    CoversSame(ReportsFor(evidence), evidence, (r: Evidence) => r.key != "" && Contextual(r),
               CoveredBy(keys[..0]), result);
    for j := 0 to |keys|
      invariant Covers(ReportsFor(evidence), evidence, CoveredBy(keys[..j]), result)
    {
      result := ProjectKey(evidence, keys, j, streams, result);
    }
    assert keys[..|keys|] == keys;
    AllCovered(evidence, keys, streams, result);
  }

  // ------------------------------------------- what the records themselves say

  /** What a record says of its completeness. */
  function Said(r: ArtifactRecord): string { Strip(Meta(r.metadata, "evidence_quality")) }

  /** Another assurance task than a baseline capture. */
  predicate IsAssuranceTask(r: ArtifactRecord) {
    r.kind == "inspection_raw" && Strip(Meta(r.metadata, "assurance_kind")) !in ["", "baseline_capture"]
  }

  predicate Before(a: ArtifactRecord, b: ArtifactRecord) {
    Less(a.createdAt, b.createdAt) || (a.createdAt == b.createdAt && Less(a.id, b.id))
  }

  /** Competes with `r` for the authority of its key. */
  predicate Rivals(r: ArtifactRecord, s: ArtifactRecord) { Key(s) == Key(r) && Domain(s) != "contextual" }

  /** `s` does not keep `r` from being chosen: only something complete and later does that to a complete record, and
      anything complete or later to another one. */
  predicate Yields(r: ArtifactRecord, s: ArtifactRecord) {
    if Said(r) == "complete" then !(Said(s) == "complete" && Before(r, s)) else Said(s) != "complete" && !Before(r, s)
  }

  predicate Unrivalled(records: seq<ArtifactRecord>, r: ArtifactRecord) {
    forall s :: s in records && Rivals(r, s) ==> Yields(r, s)
  }

  /** Only a record that says it is complete can be authoritative, and of several the latest is; one that says
      anything else is provisional while no rival is complete and it is the latest, and else incomplete. */
  function StatusAsSaid(records: seq<ArtifactRecord>, r: ArtifactRecord): Status {
    if Said(r) == "complete" then if Unrivalled(records, r) then Authoritative else Historical
    else if Unrivalled(records, r) then Provisional else Incomplete
  }

  function QualityAsSaid(r: ArtifactRecord): string {
    if Said(r) == "complete" then "complete" else if Said(r) == "partial" then "partial" else "unknown"
  }

  lemma ObservedAsSaid(r: ArtifactRecord)
    ensures Observe(r).quality == QualityAsSaid(r)
  {
  }

  /** Competing, completeness and the order of time, as the policy sees them. */
  lemma RivalIsPeer(r: ArtifactRecord, s: ArtifactRecord)
    ensures Peers(Observe(r), Observe(s)) == Rivals(r, s)
    ensures Complete(Observe(s)) == (Said(s) == "complete") && Earlier(Observe(r), Observe(s)) == Before(r, s)
  {
    ObservedAsSaid(s);
  }

  lemma AmongObserved(records: seq<ArtifactRecord>, s: ArtifactRecord)
    requires s in records
    ensures Observe(s) in Map(records, Observe)
  {
    var i :| 0 <= i < |records| && records[i] == s;
    assert Map(records, Observe)[i] == Observe(s);
  }

  lemma ForAllObserved(records: seq<ArtifactRecord>, p: ArtifactRecord -> bool, q: Evidence -> bool)
    requires forall s :: s in records ==> p(s) == q(Observe(s))
    ensures (forall s :: s in records ==> p(s)) <==> (forall e :: e in Map(records, Observe) ==> q(e))
  {
    if s :| s in records && !p(s) { AmongObserved(records, s); }
    if e :| e in Map(records, Observe) && !q(e) { var s := InObserved(records, e); }
  }

  /** The evidence that is chosen, one piece at a time. */
  predicate Leaves(r: Evidence, e: Evidence) {
    Peers(r, e) ==> if Complete(r) then !(Complete(e) && Earlier(r, e)) else !Complete(e) && !Earlier(r, e)
  }

  lemma SelectedByLeaves(es: seq<Evidence>, r: Evidence)
    ensures Selected(es, r) <==> forall e :: e in es ==> Leaves(r, e)
  {
  }

  lemma YieldsIsLeaves(r: ArtifactRecord, s: ArtifactRecord)
    ensures Leaves(Observe(r), Observe(s)) <==> (Rivals(r, s) ==> Yields(r, s))
  {
    RivalIsPeer(r, s);
    RivalIsPeer(r, r);
  }

  lemma SelectedAsSaid(records: seq<ArtifactRecord>, r: ArtifactRecord)
    ensures Selected(Map(records, Observe), Observe(r)) <==> Unrivalled(records, r)
  {
    var p := (s: ArtifactRecord) => Rivals(r, s) ==> Yields(r, s);
    var q := (e: Evidence) => Leaves(Observe(r), e);
    forall s | s in records ensures p(s) == q(Observe(s)) { YieldsIsLeaves(r, s); }
    ForAllObserved(records, p, q);
    SelectedByLeaves(Map(records, Observe), Observe(r));
    UnrivalledByEach(records, r, p);
  }

  lemma UnrivalledByEach(records: seq<ArtifactRecord>, r: ArtifactRecord, p: ArtifactRecord -> bool)
    requires forall s :: p(s) <==> (Rivals(r, s) ==> Yields(r, s))
    ensures Unrivalled(records, r) <==> forall s :: s in records ==> p(s)
  {
  }

  /** What is reported of a record that competes is what the records say. */
  lemma ReportIsAsSaid(records: seq<ArtifactRecord>, r: ArtifactRecord, p: Projection)
    requires Domain(r) != "contextual" && Reports(Map(records, Observe), Observe(r), p)
    ensures p.quality == QualityAsSaid(r) && p.status == StatusAsSaid(records, r)
  {
    ObservedAsSaid(r);
    SelectedAsSaid(records, r);
  }

  /** `r` is in the result, as the records say. */
  predicate ReportedAsSaid(records: seq<ArtifactRecord>, r: ArtifactRecord, result: map<string, Projection>) {
    && r.id in result
    && (Domain(r) != "contextual" ==>
          result[r.id].quality == QualityAsSaid(r) && result[r.id].status == StatusAsSaid(records, r))
    && (IsAssuranceTask(r) ==> result[r.id].status == StatusContextual)
  }

  lemma AssuranceIsContextual(r: ArtifactRecord)
    requires IsAssuranceTask(r)
    ensures Domain(r) == "contextual"
  {
  }

  lemma EachIsReported(es: seq<Evidence>, e: Evidence, result: map<string, Projection>)
    requires Governs(es, result) && e in es && e.key != ""
    ensures e.id in result && Reports(es, e, result[e.id])
  {
    assert ReportsFor(es)(e, result[e.id]);
  }

  lemma RecordIsReported(records: seq<ArtifactRecord>, r: ArtifactRecord, result: map<string, Projection>)
    requires Governs(Map(records, Observe), result) && r in records && Key(r) != ""
    ensures ReportedAsSaid(records, r, result)
  {
    AmongObserved(records, r);
    EachIsReported(Map(records, Observe), Observe(r), result);
    if Domain(r) != "contextual" { ReportIsAsSaid(records, r, result[r.id]); }
    if IsAssuranceTask(r) { AssuranceIsContextual(r); }
  }

  /** Every record with an evidence key is reported under its id, by what the records say, and nothing else is. */
  method BuildGovernance(records: seq<ArtifactRecord>) returns (result: map<string, Projection>)
    requires UniqueIds(Map(records, Observe))
    ensures Governs(Map(records, Observe), result)
    ensures forall r :: r in records && Key(r) != "" ==> ReportedAsSaid(records, r, result)
  {
    result := Project(Map(records, Observe));
    forall r | r in records && Key(r) != "" ensures ReportedAsSaid(records, r, result) {
      RecordIsReported(records, r, result);
    }
  }

  lemma KeyIsListed(records: seq<Evidence>, keys: seq<string>, streams: map<string, seq<Evidence>>, r: Evidence)
    requires StreamsOf(records, keys, streams) && r in records && r.key != ""
    ensures CoveredBy(keys)(r)
  {
    if !Contextual(r) {
      StreamMember(records, r.key);
      assert StreamOk(records, keys, streams, r.key);
      assert r in Stream(records, r.key);
    }
  }

  lemma AllCovered(records: seq<Evidence>, keys: seq<string>, streams: map<string, seq<Evidence>>,
                   result: map<string, Projection>)
    requires StreamsOf(records, keys, streams) && Covers(ReportsFor(records), records, CoveredBy(keys), result)
    ensures Governs(records, result)
  {
    var keyed := (r: Evidence) => r.key != "";
    forall r | r in records ensures CoveredBy(keys)(r) == keyed(r) {
      if keyed(r) { KeyIsListed(records, keys, streams, r); }
    }
    CoversSame(ReportsFor(records), records, CoveredBy(keys), keyed, result);
  }

  // ------------------------------------------------------ one projection per input

  /** A report leaves nothing open, and the order of the records does not matter to it. */
  lemma SameReport(a: seq<Evidence>, b: seq<Evidence>, r: Evidence, p: Projection, q: Projection)
    requires UniqueIds(a) && multiset(a) == multiset(b) && r in a && Reports(a, r, p) && Reports(b, r, q)
    ensures p == q
  {
    OrderDoesNotMatter(a, b, r);
    if !Contextual(r) {
      SameLinks(a, b, r, p.latestId, q.latestId, p.authoritativeId, q.authoritativeId);
    }
  }

  lemma SameLinks(a: seq<Evidence>, b: seq<Evidence>, r: Evidence, latestA: string, latestB: string,
                  selectedA: string, selectedB: string)
    requires UniqueIds(a) && multiset(a) == multiset(b) && r in a && !Contextual(r)
    requires LatestId(a, r, latestA) && LatestId(b, r, latestB)
    requires SelectedId(a, r, selectedA) && SelectedId(b, r, selectedB)
    ensures latestA == latestB && selectedA == selectedB
  {
    forall x ensures x in a <==> x in b { assert x in a <==> x in multiset(a); }
    var la :| la in a && Peers(r, la) && Latest(a, la) && la.id == latestA;
    var lb :| lb in b && Peers(r, lb) && Latest(b, lb) && lb.id == latestB;
    OneLatest(a, la, lb);
    var sa :| sa in a && Peers(r, sa) && Selected(a, sa) && sa.id == selectedA;
    var sb :| sb in b && Peers(r, sb) && Selected(b, sb) && sb.id == selectedB;
    OneSelected(a, sa, sb);
  }

  lemma SameEntry(a: seq<Evidence>, b: seq<Evidence>, m: map<string, Projection>, n: map<string, Projection>,
                  id: string)
    requires UniqueIds(a) && multiset(a) == multiset(b) && Governs(a, m) && Governs(b, n) && id in m
    ensures id in n && m[id] == n[id]
  {
    var r :| r in a && r.id == id && r.key != "";
    assert r in multiset(a);
    assert ReportsFor(a)(r, m[id]) && ReportsFor(b)(r, n[id]);
    SameReport(a, b, r, m[id], n[id]);
  }

  lemma SomeEntry(a: seq<Evidence>, b: seq<Evidence>, m: map<string, Projection>, n: map<string, Projection>,
                  id: string)
    requires multiset(a) == multiset(b) && Governs(a, m) && Governs(b, n) && id in n
    ensures id in m
  {
    var r :| r in b && r.id == id && r.key != "";
    assert r in multiset(b);
  }

  /** The projection of the same records in any order is the same. */
  lemma ProjectionIsOrderFree(a: seq<Evidence>, b: seq<Evidence>, m: map<string, Projection>,
                              n: map<string, Projection>)
    requires UniqueIds(a) && multiset(a) == multiset(b) && Governs(a, m) && Governs(b, n)
    ensures m == n
  {
    EntriesAgree(a, b, m, n);
    EntriesExist(a, b, m, n);
    SameMap(m, n);
  }

  lemma SameMap(m: map<string, Projection>, n: map<string, Projection>)
    requires forall id :: id in m ==> id in n && m[id] == n[id]
    requires forall id :: id in n ==> id in m
    ensures m == n
  {
  }

  lemma EntriesExist(a: seq<Evidence>, b: seq<Evidence>, m: map<string, Projection>, n: map<string, Projection>)
    requires multiset(a) == multiset(b) && Governs(a, m) && Governs(b, n)
    ensures forall id :: id in n ==> id in m
  {
    forall id | id in n ensures id in m { SomeEntry(a, b, m, n, id); }
  }

  lemma EntriesAgree(a: seq<Evidence>, b: seq<Evidence>, m: map<string, Projection>, n: map<string, Projection>)
    requires UniqueIds(a) && multiset(a) == multiset(b) && Governs(a, m) && Governs(b, n)
    ensures forall id :: id in m ==> id in n && m[id] == n[id]
  {
    forall id | id in m ensures id in n && m[id] == n[id] { SameEntry(a, b, m, n, id); }
  }

  // ------------------------------------------------------------------- summary

  datatype Summary = Summary(authoritative: nat, contextual: nat, provisional: nat, incomplete: nat, historical: nat,
                             deliverables: nat)

  /** How a record counts: by its status, or as a deliverable without an evidence key. */
  datatype Label = Deliverable | Labelled(status: Status)

  ghost function LabelIn(records: seq<Evidence>): Evidence -> Label {
    (r: Evidence) => if r.key == "" then Deliverable else Labelled(StatusOf(records, r))
  }

  function Tally(records: seq<Evidence>, tag: Evidence -> Label, wanted: Label): nat {
    Count(records, (r: Evidence) => tag(r) == wanted)
  }

  function SummaryOf(tag: Evidence -> Label, records: seq<Evidence>): Summary {
    Summary(Tally(records, tag, Labelled(Authoritative)),
            Tally(records, tag, Labelled(StatusContextual)),
            Tally(records, tag, Labelled(Provisional)),
            Tally(records, tag, Labelled(Incomplete)),
            Tally(records, tag, Labelled(Historical)),
            Tally(records, tag, Deliverable))
  }

  function Total(s: Summary): nat {
    s.authoritative + s.contextual + s.provisional + s.incomplete + s.historical + s.deliverables
  }

  function Counted(s: Summary, tag: Label): Summary {
    match tag
    case Deliverable => s.(deliverables := s.deliverables + 1)
    case Labelled(Authoritative) => s.(authoritative := s.authoritative + 1)
    case Labelled(StatusContextual) => s.(contextual := s.contextual + 1)
    case Labelled(Provisional) => s.(provisional := s.provisional + 1)
    case Labelled(Incomplete) => s.(incomplete := s.incomplete + 1)
    case Labelled(Historical) => s.(historical := s.historical + 1)
  }

  lemma TallySnoc(records: seq<Evidence>, r: Evidence, tag: Evidence -> Label, wanted: Label)
    ensures Tally(records + [r], tag, wanted) == Tally(records, tag, wanted) + if tag(r) == wanted then 1 else 0
  {
    FilterSnoc(records, r, (x: Evidence) => tag(x) == wanted);
  }

  lemma SummarySnoc(tag: Evidence -> Label, records: seq<Evidence>, r: Evidence)
    ensures SummaryOf(tag, records + [r]) == Counted(SummaryOf(tag, records), tag(r))
  {
    TallySnoc(records, r, tag, Labelled(Authoritative));
    TallySnoc(records, r, tag, Labelled(StatusContextual));
    TallySnoc(records, r, tag, Labelled(Provisional));
    TallySnoc(records, r, tag, Labelled(Incomplete));
    TallySnoc(records, r, tag, Labelled(Historical));
    TallySnoc(records, r, tag, Deliverable);
  }

  /** Nothing is counted twice and nothing is left out. */
  lemma {:induction false} TotalIsAll(tag: Evidence -> Label, records: seq<Evidence>)
    ensures Total(SummaryOf(tag, records)) == |records|
  {
    if records != [] {
      var front := records[..|records| - 1];
      TotalIsAll(tag, front);
      SummarySnoc(tag, front, records[|records| - 1]);
      assert records == front + [records[|records| - 1]];
    }
  }

  /** The label that the projection shows. */
  function LabelFrom(projection: map<string, Projection>, id: string): Label {
    if id in projection then Labelled(projection[id].status) else Deliverable
  }

  lemma LabelsAgree(records: seq<Evidence>, projection: map<string, Projection>, r: Evidence)
    requires UniqueIds(records) && Governs(records, projection) && r in records
    ensures LabelFrom(projection, r.id) == LabelIn(records)(r)
  {
    if r.id in projection {
      var s :| s in records && s.id == r.id && s.key != "";
      SameRecord(records, r, s);
    }
    if r.key != "" { assert ReportsFor(records)(r, projection[r.id]); }
  }

  /** How a record counts, by what the records say. */
  function LabelAsSaid(records: seq<ArtifactRecord>, r: ArtifactRecord): Label {
    if Key(r) == "" then Deliverable
    else Labelled(if Domain(r) == "contextual" then StatusContextual else StatusAsSaid(records, r))
  }

  function CountAsSaid(records: seq<ArtifactRecord>, wanted: Label): nat {
    Count(records, (r: ArtifactRecord) => LabelAsSaid(records, r) == wanted)
  }

  predicate SummaryAsSaid(records: seq<ArtifactRecord>, s: Summary) {
    && s.authoritative == CountAsSaid(records, Labelled(Authoritative))
    && s.contextual == CountAsSaid(records, Labelled(StatusContextual))
    && s.provisional == CountAsSaid(records, Labelled(Provisional))
    && s.incomplete == CountAsSaid(records, Labelled(Incomplete))
    && s.historical == CountAsSaid(records, Labelled(Historical))
    && s.deliverables == CountAsSaid(records, Deliverable)
  }

  lemma LabelIsAsSaid(records: seq<ArtifactRecord>, r: ArtifactRecord)
    ensures LabelIn(Map(records, Observe))(Observe(r)) == LabelAsSaid(records, r)
  {
    ObservedAsSaid(r);
    SelectedAsSaid(records, r);
  }

  lemma {:induction false} CountObserved(records: seq<ArtifactRecord>, p: ArtifactRecord -> bool, q: Evidence -> bool)
    requires forall r | r in records :: p(r) == q(Observe(r))
    ensures Count(Map(records, Observe), q) == Count(records, p)
  {
    if records != [] {
      assert Map(records, Observe)[1..] == Map(records[1..], Observe);
      assert forall r :: r in records[1..] ==> r in records;
      CountObserved(records[1..], p, q);
    }
  }

  lemma TallyAsSaid(records: seq<ArtifactRecord>, wanted: Label)
    ensures Tally(Map(records, Observe), LabelIn(Map(records, Observe)), wanted) == CountAsSaid(records, wanted)
  {
    var p := (r: ArtifactRecord) => LabelAsSaid(records, r) == wanted;
    var tag := LabelIn(Map(records, Observe));
    forall r | r in records ensures tag(Observe(r)) == LabelAsSaid(records, r) { LabelIsAsSaid(records, r); }
    CountObserved(records, p, (e: Evidence) => tag(e) == wanted);
  }

  /** The summary counts the records by what they say. */
  lemma CountsAsSaid(records: seq<ArtifactRecord>)
    ensures SummaryAsSaid(records, SummaryOf(LabelIn(Map(records, Observe)), Map(records, Observe)))
  {
    TallyAsSaid(records, Labelled(Authoritative));
    TallyAsSaid(records, Labelled(StatusContextual));
    TallyAsSaid(records, Labelled(Provisional));
    TallyAsSaid(records, Labelled(Incomplete));
    TallyAsSaid(records, Labelled(Historical));
    TallyAsSaid(records, Deliverable);
  }

  /** The five status counts and the deliverables count what the policy decides, and add up to the number of
      records. */
  method GovernanceSummary(records: seq<ArtifactRecord>) returns (summary: Summary)
    requires UniqueIds(Map(records, Observe))
    ensures summary == SummaryOf(LabelIn(Map(records, Observe)), Map(records, Observe))
    ensures Total(summary) == |records|
    ensures SummaryAsSaid(records, summary)
  {
    CountsAsSaid(records);
    var projection := BuildGovernance(records);
    var evidence := Map(records, Observe);
    LabelsAllAgree(evidence, projection);
    summary := CountLabels(evidence, LabelIn(evidence), projection);
    TotalIsAll(LabelIn(evidence), evidence);
  }

  method CountLabels(records: seq<Evidence>, ghost tag: Evidence -> Label, projection: map<string, Projection>)
    returns (summary: Summary)
    requires forall i :: 0 <= i < |records| ==> LabelFrom(projection, records[i].id) == tag(records[i])
    ensures summary == SummaryOf(tag, records)
  {
    summary := Summary(0, 0, 0, 0, 0, 0);
    for i := 0 to |records|
      invariant summary == SummaryOf(tag, records[..i])
    {
      assert records[..i + 1] == records[..i] + [records[i]];
      SummarySnoc(tag, records[..i], records[i]);
      summary := Counted(summary, LabelFrom(projection, records[i].id));
    }
    assert records[..|records|] == records;
  }

  lemma LabelsAllAgree(records: seq<Evidence>, projection: map<string, Projection>)
    requires UniqueIds(records) && Governs(records, projection)
    ensures forall i :: 0 <= i < |records| ==> LabelFrom(projection, records[i].id) == LabelIn(records)(records[i])
  {
    forall i | 0 <= i < |records| ensures LabelFrom(projection, records[i].id) == LabelIn(records)(records[i]) {
      LabelsAgree(records, projection, records[i]);
    }
  }
}
