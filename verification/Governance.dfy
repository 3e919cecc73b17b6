/** Authority projection over artifact evidence: artifacts/governance.py. */
module Governance {
  import opened Seqs
  import opened Sorting
  import opened Text

  /** An artifact as the policy sees it; a metadata value that is absent or empty is "". */
  datatype ArtifactRecord = ArtifactRecord(id: string, kind: string, createdAt: string, metadata: map<string, string>)

  // ---------------------------------------------------------- the text of keys

  function Domain(r: ArtifactRecord): string {
    if r.kind != "inspection_raw" then "evidence"
    else
      var assurance := Strip(Meta(r.metadata, "assurance_kind"));
      var explicit := Strip(Meta(r.metadata, "authority_domain"));
      if assurance == "baseline_capture" then "current_state"
      else if assurance != "" then "contextual"
      else if explicit in ["current_state", "inspection", "contextual"] then explicit
      else "inspection"
  }

  function Asset(r: ArtifactRecord): string { Strip(Meta(r.metadata, "asset_id")) }

  /** An inspection of a known asset; its key is made up from its fields. */
  predicate Inspects(r: ArtifactRecord) { r.kind == "inspection_raw" && Asset(r) != "" }

  function Key(r: ArtifactRecord): string {
    if Inspects(r) then Domain(r) + ":" + Subject(r) else Written(r)
  }

  /** The key a record brings along. */
  function Written(r: ArtifactRecord): string {
    var key := Strip(Meta(r.metadata, "evidence_key"));
    if key == "[REDACTED_SECRET]" then "" else key
  }

  function Profile(r: ArtifactRecord): string {
    Strip(Or(Or(Meta(r.metadata, "script_profile_id"), Meta(r.metadata, "profile_id")), "general"))
  }

  /** What an inspection is about; a contextual one is bound to its task. */
  function Subject(r: ArtifactRecord): string {
    if Domain(r) != "contextual" then Asset(r) + ":" + Profile(r)
    else
      var kind := Strip(Or(Meta(r.metadata, "assurance_kind"), "task"));
      var ref := Strip(Or(Or(Meta(r.metadata, "assurance_ref_id"), Meta(r.metadata, "producer_id")), r.id));
      kind + ":" + ref + ":" + Asset(r) + ":" + Profile(r)
  }

  function Quality(r: ArtifactRecord): string {
    var quality := Strip(Meta(r.metadata, "evidence_quality"));
    if quality in ["complete", "partial"] then quality else "unknown"
  }

  /** What the policy looks at. */
  datatype Evidence = Evidence(id: string, createdAt: string, key: string, domain: string, quality: string)

  function Observe(r: ArtifactRecord): Evidence { Evidence(r.id, r.createdAt, Key(r), Domain(r), Quality(r)) }

  lemma PrefixesDiffer(a: string, b: string, x: string, y: string)
    requires a in ["current_state", "inspection", "contextual"] && b in ["current_state", "inspection", "contextual"]
    requires a != b
    ensures a + ":" + x != b + ":" + y
  {
    assert (a + ":" + x)[0] == a[0] && (a + ":" + x)[2] == a[2];
    assert (b + ":" + y)[0] == b[0] && (b + ":" + y)[2] == b[2];
  }

  /** `b` is `a` and more, and the colon that ends `a` in the one text stands inside `b` in the other. */
  predicate Shifted(a: string, x: string, b: string, y: string) {
    |a| < |b| && b[..|a| + 1] == a + ":" && x == b[|a| + 1..] + ":" + y
  }

  lemma ShorterIsShifted(a: string, x: string, b: string, y: string)
    requires |a| < |b|
    ensures a + ":" + x == b + ":" + y <==> Shifted(a, x, b, y)
  {
    var s, t := a + ":" + x, b + ":" + y;
    if s == t {
      assert s[..|a| + 1] == a + ":" && t[..|a| + 1] == b[..|a| + 1];
      assert s[|a| + 1..] == x && t[|a| + 1..] == b[|a| + 1..] + ":" + y;
    }
    if Shifted(a, x, b, y) {
      assert b == b[..|a| + 1] + b[|a| + 1..];
      assert t == (a + ":") + (b[|a| + 1..] + ":" + y);
    }
  }

  /** When asset and profile read the same with a colon between them. */
  lemma SamePairIff(a: string, x: string, b: string, y: string)
    ensures a + ":" + x == b + ":" + y <==> (a == b && x == y) || Shifted(a, x, b, y) || Shifted(b, y, a, x)
  {
    if |a| < |b| { ShorterIsShifted(a, x, b, y); }
    else if |b| < |a| { ShorterIsShifted(b, y, a, x); }
    else {
      var s, t := a + ":" + x, b + ":" + y;
      assert s[..|a|] == a && t[..|a|] == b && s[|a| + 1..] == x && t[|a| + 1..] == y;
    }
  }

  /** Both are inspections of one domain whose assets and profiles are the same or differ by a shifted colon, or
      one of them brings along the key of the other. */
  predicate SameSubject(a: ArtifactRecord, b: ArtifactRecord) {
    if Inspects(a) && Inspects(b) then
      Domain(a) == Domain(b) && (|| (Asset(a) == Asset(b) && Profile(a) == Profile(b))
                                 || Shifted(Asset(a), Profile(a), Asset(b), Profile(b))
                                 || Shifted(Asset(b), Profile(b), Asset(a), Profile(a)))
    else if Inspects(a) then Written(b) == Domain(a) + ":" + Asset(a) + ":" + Profile(a)
    else if Inspects(b) then Written(a) == Domain(b) + ":" + Asset(b) + ":" + Profile(b)
    else Written(a) == Written(b)
  }

  lemma DomainFirst(d: string, asset: string, profile: string)
    ensures d + ":" + (asset + ":" + profile) == d + ":" + asset + ":" + profile
    ensures (d + ":" + (asset + ":" + profile))[|d| + 1..] == asset + ":" + profile
  {
  }

  /** When two records that are not contextual have the same key, and so compete for its authority. */
  lemma SameKeyIff(a: ArtifactRecord, b: ArtifactRecord)
    requires Domain(a) != "contextual" && Domain(b) != "contextual"
    ensures Key(a) == Key(b) <==> SameSubject(a, b)
  {
    DomainFirst(Domain(a), Asset(a), Profile(a));
    DomainFirst(Domain(b), Asset(b), Profile(b));
    if Inspects(a) && Inspects(b) {
      if Domain(a) != Domain(b) { PrefixesDiffer(Domain(a), Domain(b), Subject(a), Subject(b)); }
      SamePairIff(Asset(a), Profile(a), Asset(b), Profile(b));
    }
  }

  /** Records of different domains share a key only where one of them brings along the key of the other or both
      bring along the same one. */
  lemma DomainsCompeteIff(a: ArtifactRecord, b: ArtifactRecord)
    requires Domain(a) != "contextual" && Domain(b) != "contextual" && Domain(a) != Domain(b)
    ensures Key(a) == Key(b) <==>
            || (!Inspects(a) && Written(a) == Key(b))
            || (!Inspects(b) && Written(b) == Key(a))
  {
    SameKeyIff(a, b);
  }

  predicate Contextual(r: Evidence) { r.domain == "contextual" }

  predicate Complete(r: Evidence) { r.quality == "complete" }

  // -------------------------------------------------------------- order in time

  /** Python's order on strings. */
  predicate Less(a: string, b: string) {
    b != [] && (a == [] || a[0] < b[0] || (a[0] == b[0] && Less(a[1..], b[1..])))
  }

  /** One text comes before another exactly when it is a proper beginning of it or has the smaller character where
      they first differ. */
  lemma {:induction false} LessIff(a: string, b: string)
    ensures Less(a, b) <==>
            a < b || exists n :: 0 <= n < |a| && n < |b| && a[..n] == b[..n] && a[n] < b[n]
  {
    if a != [] && b != [] {
      if a[0] == b[0] {
        LessIff(a[1..], b[1..]);
        SamePrefixes(a, b);
      } else {
        assert a[..0] == b[..0];
        forall n | 0 < n < |a| && n < |b| ensures a[..n] != b[..n] { assert a[..n][0] != b[..n][0]; }
      }
    }
  }

  /** Behind a common first character nothing changes. */
  lemma SamePrefixes(a: string, b: string)
    requires a != [] && b != [] && a[0] == b[0]
    ensures a < b <==> a[1..] < b[1..]
    ensures (exists n :: 0 <= n < |a| && n < |b| && a[..n] == b[..n] && a[n] < b[n]) <==>
            (exists n :: 0 <= n < |a[1..]| && n < |b[1..]| && a[1..][..n] == b[1..][..n] && a[1..][n] < b[1..][n])
  {
    HeadTail(a);
    HeadTail(b);
    if n :| 0 <= n < |a| && n < |b| && a[..n] == b[..n] && a[n] < b[n] {
      assert a[1..][..n - 1] == a[..n][1..] && b[1..][..n - 1] == b[..n][1..];
      assert a[1..][n - 1] < b[1..][n - 1];
    }
    if n :| 0 <= n < |a[1..]| && n < |b[1..]| && a[1..][..n] == b[1..][..n] && a[1..][n] < b[1..][n] {
      assert a[..n + 1] == [a[0]] + a[1..][..n] && b[..n + 1] == [b[0]] + b[1..][..n];
      assert a[n + 1] < b[n + 1];
    }
  }

  lemma {:induction false} LessOnce(a: string, b: string)
    ensures !(Less(a, b) && Less(b, a)) && (Less(a, b) || Less(b, a) || a == b)
    decreases |a|
  {
    if a != [] && b != [] && a[0] == b[0] {
      LessOnce(a[1..], b[1..]);
      HeadTail(a);
      HeadTail(b);
    }
  }

  lemma {:induction false} LessChain(a: string, b: string, c: string)
    requires Less(a, b) && Less(b, c)
    ensures Less(a, c)
    decreases |a|
  {
    if a != [] && a[0] == b[0] == c[0] { LessChain(a[1..], b[1..], c[1..]); }
  }

  /** The order of (created_at, artifact_id). */
  predicate Earlier(a: Evidence, b: Evidence) {
    Less(a.createdAt, b.createdAt) || (a.createdAt == b.createdAt && Less(a.id, b.id))
  }

  lemma EarlierOnce(a: Evidence, b: Evidence)
    ensures !(Earlier(a, b) && Earlier(b, a)) && (Earlier(a, b) || Earlier(b, a) || a.id == b.id)
  {
    LessOnce(a.createdAt, b.createdAt);
    LessOnce(a.id, b.id);
  }

  lemma EarlierChain(a: Evidence, b: Evidence, c: Evidence)
    requires Earlier(a, b) && Earlier(b, c)
    ensures Earlier(a, c)
  {
    if Less(a.createdAt, b.createdAt) && Less(b.createdAt, c.createdAt) {
      LessChain(a.createdAt, b.createdAt, c.createdAt);
    } else if a.createdAt == b.createdAt == c.createdAt {
      LessChain(a.id, b.id, c.id);
    }
  }

  // ------------------------------------------------------------------- the policy

  predicate UniqueIds(records: seq<Evidence>) {
    forall i, j :: 0 <= i < j < |records| ==> records[i].id != records[j].id
  }

  /** Competes for the authority of `key`. */
  predicate InStream(r: Evidence, key: string) { !Contextual(r) && r.key == key }

  predicate Peers(a: Evidence, b: Evidence) { InStream(b, a.key) }

  ghost predicate Latest(records: seq<Evidence>, r: Evidence) {
    forall s :: s in records && Peers(r, s) ==> !Earlier(r, s)
  }

  /** Chosen for its key: the latest complete record or, while there is none, the latest record. */
  ghost predicate Selected(records: seq<Evidence>, r: Evidence) {
    forall s :: s in records && Peers(r, s) ==>
      if Complete(r) then !(Complete(s) && Earlier(r, s)) else !Complete(s) && !Earlier(r, s)
  }

  datatype Status = StatusContextual | Authoritative | Provisional | Incomplete | Historical

  ghost function StatusOf(records: seq<Evidence>, r: Evidence): Status {
    if Contextual(r) then StatusContextual
    else if Selected(records, r) then if Complete(r) then Authoritative else Provisional
    else if Complete(r) then Historical else Incomplete
  }

  /** The place of `r` in its stream, from 1. */
  function Version(records: seq<Evidence>, r: Evidence): nat {
    if Contextual(r) then 1 else 1 + Count(records, (s: Evidence) => Peers(r, s) && Earlier(s, r))
  }

  function VersionCount(records: seq<Evidence>, r: Evidence): nat {
    if Contextual(r) then 1 else Count(records, (s: Evidence) => Peers(r, s))
  }

  // ------------------------------------------------ one chosen record for each key

  ghost predicate HasComplete(records: seq<Evidence>, key: string) {
    exists r :: r in records && InStream(r, key) && Complete(r)
  }

  /** The latest of the records that satisfy `p`. */
  lemma {:induction false} LastOf(records: seq<Evidence>, p: Evidence -> bool) returns (last: Evidence)
    requires exists r :: r in records && p(r)
    ensures last in records && p(last) && forall s :: s in records && p(s) ==> !Earlier(last, s)
  {
    HeadTail(records);
    var x := records[0];
    EarlierOnce(x, x);
    if r :| r in records[1..] && p(r) {
      last := LastOf(records[1..], p);
      if p(x) && Earlier(last, x) {
        forall s | s in records && p(s) ensures !Earlier(x, s) {
          if Earlier(x, s) { EarlierChain(last, x, s); }
        }
        last := x;
      }
    } else {
      last := x;
    }
  }

  /** Every key outside the contextual domain has a chosen record. */
  lemma SomeSelected(records: seq<Evidence>, r: Evidence) returns (s: Evidence)
    requires r in records && !Contextual(r)
    ensures s in records && Peers(r, s) && Selected(records, s)
    ensures Complete(s) <==> HasComplete(records, r.key)
  {
    if HasComplete(records, r.key) {
      s := LastOf(records, (x: Evidence) => InStream(x, r.key) && Complete(x));
    } else {
      s := LastOf(records, (x: Evidence) => InStream(x, r.key));
    }
  }

  lemma SameRecord(records: seq<Evidence>, a: Evidence, b: Evidence)
    requires UniqueIds(records) && a in records && b in records
    ensures a.id == b.id ==> a == b
  {
  }

  /** ... and only one. */
  lemma OneSelected(records: seq<Evidence>, a: Evidence, b: Evidence)
    requires UniqueIds(records) && a in records && b in records && Peers(a, b) && !Contextual(a)
    requires Selected(records, a) && Selected(records, b)
    ensures a == b
  {
    EarlierOnce(a, b);
    SameRecord(records, a, b);
  }

  /** For each key outside the contextual domain exactly one record is authoritative or provisional; it is
      authoritative exactly when the key has a complete record, and is then its latest complete record. */
  lemma OneAuthorityPerKey(records: seq<Evidence>, r: Evidence) returns (chosen: Evidence)
    requires UniqueIds(records) && r in records && !Contextual(r)
    ensures chosen in records && Peers(r, chosen)
    ensures forall s :: s in records && Peers(r, s) ==>
              (StatusOf(records, s) in {Authoritative, Provisional} <==> s == chosen)
    ensures StatusOf(records, chosen) == if HasComplete(records, r.key) then Authoritative else Provisional
    ensures forall s :: s in records && Peers(r, s) && (Complete(s) || !Complete(chosen)) ==> !Earlier(chosen, s)
  {
    chosen := SomeSelected(records, r);
    forall s | s in records && Peers(r, s) && Selected(records, s) ensures s == chosen {
      OneSelected(records, s, chosen);
    }
  }

  // ---------------------------------------------------------------- independence

  lemma SameMembers(a: seq<Evidence>, b: seq<Evidence>, r: Evidence)
    requires forall x :: x in a <==> x in b
    ensures StatusOf(a, r) == StatusOf(b, r) && (Latest(a, r) <==> Latest(b, r))
  {
  }

  /** The projection does not depend on the order of the records. */
  lemma OrderDoesNotMatter(a: seq<Evidence>, b: seq<Evidence>, r: Evidence)
    requires multiset(a) == multiset(b)
    ensures StatusOf(a, r) == StatusOf(b, r) && (Latest(a, r) <==> Latest(b, r))
    ensures Version(a, r) == Version(b, r) && VersionCount(a, r) == VersionCount(b, r)
  {
    forall x ensures x in a <==> x in b { assert x in a <==> x in multiset(a); }
    SameMembers(a, b, r);
    CountPermuted(a, b, (s: Evidence) => Peers(r, s) && Earlier(s, r));
    CountPermuted(a, b, (s: Evidence) => Peers(r, s));
  }

  /** A contextual record changes nothing for anybody else. */
  lemma ContextualIsIndependent(records: seq<Evidence>, c: Evidence, r: Evidence)
    requires Contextual(c)
    ensures StatusOf(records + [c], r) == StatusOf(records, r)
    ensures Latest(records + [c], r) <==> Latest(records, r)
    ensures Version(records + [c], r) == Version(records, r)
    ensures VersionCount(records + [c], r) == VersionCount(records, r)
  {
    forall s ensures s in records + [c] <==> s in records || s == c { }
    FilterSnoc(records, c, (s: Evidence) => Peers(r, s) && Earlier(s, r));
    FilterSnoc(records, c, (s: Evidence) => Peers(r, s));
  }

  /** A record that is not complete demotes nobody while its key has a complete record, and without one it
      changes no other key. */
  lemma IncompleteDoesNotDemote(records: seq<Evidence>, x: Evidence, r: Evidence)
    requires !Complete(x) && (HasComplete(records, x.key) || r.key != x.key) && r in records
    ensures StatusOf(records + [x], r) == StatusOf(records, r)
  {
    forall s ensures s in records + [x] <==> s in records || s == x { }
  }

  // -------------------------------------------- who speaks for the current state

  predicate IsCapture(r: ArtifactRecord) {
    r.kind == "inspection_raw" && Strip(Meta(r.metadata, "assurance_kind")) == "baseline_capture"
  }

  /** An inspection that is no assurance task and declares the current state itself. */
  predicate IsClaim(r: ArtifactRecord) {
    && r.kind == "inspection_raw" && Strip(Meta(r.metadata, "assurance_kind")) == ""
    && Strip(Meta(r.metadata, "authority_domain")) == "current_state"
  }

  function Observed(records: seq<ArtifactRecord>): (es: seq<Evidence>)
    ensures |es| == |records| && forall i :: 0 <= i < |records| ==> es[i] == Observe(records[i])
  {
    Map(records, Observe)
  }

  /** The record has the current-state authority of its key. */
  ghost predicate HasCurrentState(records: seq<ArtifactRecord>, r: ArtifactRecord) {
    Key(r) != "" && Domain(r) == "current_state" && StatusOf(Observed(records), Observe(r)) == Authoritative
  }

  /** The rule of the policy: whatever has the current-state authority is a baseline capture. */
  ghost predicate OnlyCapturesGovern(records: seq<ArtifactRecord>) {
    forall r :: r in records && HasCurrentState(records, r) ==> IsCapture(r)
  }

  predicate CompleteClaim(r: ArtifactRecord) { IsClaim(r) && Key(r) != "" && Complete(Observe(r)) }

  /** A later complete record with the key of the claim that is no claim itself. */
  predicate Overtakes(c: ArtifactRecord, r: ArtifactRecord) {
    && !IsClaim(r) && !Contextual(Observe(r)) && Key(r) == Key(c) && Complete(Observe(r))
    && Earlier(Observe(c), Observe(r))
  }

  predicate Overtaken(records: seq<ArtifactRecord>, c: ArtifactRecord) { exists r :: r in records && Overtakes(c, r) }

  /** The records of the domain are the captures and the claims. */
  lemma CaptureOrClaim(r: ArtifactRecord)
    ensures Domain(r) == "current_state" <==> IsCapture(r) || IsClaim(r)
    ensures !(IsCapture(r) && IsClaim(r))
  {
  }

  lemma InObserved(records: seq<ArtifactRecord>, e: Evidence) returns (r: ArtifactRecord)
    requires e in Observed(records)
    ensures r in records && Observe(r) == e
  {
    var i :| 0 <= i < |records| && Observed(records)[i] == e;
    r := records[i];
  }

  lemma ObservedMember(records: seq<ArtifactRecord>, r: ArtifactRecord)
    requires r in records
    ensures Observe(r) in Observed(records)
  {
    var i :| 0 <= i < |records| && records[i] == r;
    assert Observed(records)[i] == Observe(r);
  }

  /** Something later took the authority, and while the rule holds it is no claim. */
  lemma ClaimIsOvertaken(records: seq<ArtifactRecord>, c: ArtifactRecord)
    requires UniqueIds(Observed(records)) && OnlyCapturesGovern(records)
    requires c in records && CompleteClaim(c)
    ensures Overtaken(records, c)
  {
    var es, e := Observed(records), Observe(c);
    CaptureOrClaim(c);
    ObservedMember(records, c);
    assert HasComplete(es, e.key);
    var chosen := SomeSelected(es, e);
    var r := InObserved(records, chosen);
    CaptureOrClaim(r);
    EarlierOnce(e, chosen);
    SameRecord(es, e, chosen);
    assert Overtakes(c, r);
  }

  lemma OutdoneIsNotAuthoritative(es: seq<Evidence>, e: Evidence, later: Evidence)
    requires later in es && Peers(e, later) && Complete(later) && Earlier(e, later)
    ensures StatusOf(es, e) != Authoritative
  {
  }

  /** A record with the authority is overtaken by none. */
  lemma OvertakenDoesNotGovern(records: seq<ArtifactRecord>, c: ArtifactRecord)
    requires c in records && Overtaken(records, c)
    ensures StatusOf(Observed(records), Observe(c)) != Authoritative
  {
    var r :| r in records && Overtakes(c, r);
    ObservedMember(records, r);
    OutdoneIsNotAuthoritative(Observed(records), Observe(c), Observe(r));
  }

  lemma GovernsAsClaim(records: seq<ArtifactRecord>, r: ArtifactRecord)
    requires HasCurrentState(records, r) && !IsCapture(r)
    ensures CompleteClaim(r)
  {
    CaptureOrClaim(r);
  }

  /** When only baseline captures speak for the current state, for any records: exactly when every complete claim
      has been overtaken by a complete record that is no claim. */
  lemma OnlyCapturesGovernIff(records: seq<ArtifactRecord>)
    requires UniqueIds(Observed(records))
    ensures OnlyCapturesGovern(records) <==>
            forall c :: c in records && CompleteClaim(c) ==> Overtaken(records, c)
  {
    if OnlyCapturesGovern(records) {
      forall c | c in records && CompleteClaim(c) ensures Overtaken(records, c) {
        ClaimIsOvertaken(records, c);
      }
    } else {
      var c :| c in records && HasCurrentState(records, c) && !IsCapture(c);
      GovernsAsClaim(records, c);
      if Overtaken(records, c) { OvertakenDoesNotGovern(records, c); }
    }
  }

  // --------------------------------------- records that compete unexpectedly

  /** An inspection that is no assurance task. */
  function Inspection(id: string, createdAt: string, asset: string, profile: string): ArtifactRecord {
    ArtifactRecord(id, "inspection_raw", createdAt,
           map["asset_id" := asset, "profile_id" := profile, "evidence_quality" := "complete"])
  }

  predicate Plain(s: string) { s != [] && !IsSpace(s[0]) && !IsSpace(s[|s| - 1]) }

  lemma PlainIsStripped(s: string)
    requires Plain(s)
    ensures Strip(s) == s
  {
  }

  lemma InspectionFields(id: string, createdAt: string, asset: string, profile: string)
    ensures var r := Inspection(id, createdAt, asset, profile);
      && Meta(r.metadata, "asset_id") == asset && Meta(r.metadata, "profile_id") == profile
      && Meta(r.metadata, "script_profile_id") == ""
      && Meta(r.metadata, "assurance_kind") == "" && Meta(r.metadata, "authority_domain") == ""
      && Meta(r.metadata, "evidence_quality") == "complete"
  {
    assert |"asset_id"| == 8 && |"profile_id"| == 10 && |"script_profile_id"| == 17;
    assert |"assurance_kind"| == 14 && |"authority_domain"| == 16 && |"evidence_quality"| == 16;
    assert "authority_domain"[0] != "evidence_quality"[0];
  }

  /** What the policy sees of a complete inspection with these fields. */
  lemma FieldsObserved(r: ArtifactRecord, asset: string, profile: string)
    requires r.kind == "inspection_raw" && Domain(r) != "contextual" && Plain(asset) && Plain(profile)
    requires Meta(r.metadata, "asset_id") == asset && Meta(r.metadata, "profile_id") == profile
    requires Meta(r.metadata, "script_profile_id") == ""
    requires Meta(r.metadata, "evidence_quality") == "complete"
    ensures Inspects(r) && Asset(r) == asset
    ensures Observe(r) == Evidence(r.id, r.createdAt, Domain(r) + ":" + (asset + ":" + profile), Domain(r), "complete")
  {
    PlainIsStripped(asset);
    PlainIsStripped(profile);
    PlainIsStripped("complete");
  }

  lemma InspectionObserved(id: string, createdAt: string, asset: string, profile: string)
    requires Plain(asset) && Plain(profile)
    ensures var r := Inspection(id, createdAt, asset, profile);
      Inspects(r) && Asset(r) == asset
      && Observe(r) == Evidence(id, createdAt, "inspection" + ":" + (asset + ":" + profile), "inspection", "complete")
  {
    InspectionFields(id, createdAt, asset, profile);
    FieldsObserved(Inspection(id, createdAt, asset, profile), asset, profile);
  }

  /** A later complete record takes the authority of an earlier one with its key. */
  lemma LaterTakesOver(a: Evidence, b: Evidence)
    requires Peers(a, b) && Complete(a) && Complete(b) && !Contextual(a) && Earlier(a, b)
    ensures StatusOf([a, b], a) == Historical && StatusOf([a, b], b) == Authoritative
  {
    EarlierOnce(a, b);
    EarlierOnce(b, b);
    assert b in [a, b];
  }

  /** Two inspections whose asset and profile read the same: the later one takes the authority. */
  lemma LaterInspectionTakesOver(asset1: string, profile1: string, asset2: string, profile2: string)
    requires Plain(asset1) && Plain(profile1) && Plain(asset2) && Plain(profile2)
    requires asset1 + ":" + profile1 == asset2 + ":" + profile2
    ensures var a, b := Inspection("1", "1", asset1, profile1), Inspection("2", "2", asset2, profile2);
      && Asset(a) == asset1 && Asset(b) == asset2 && Key(a) == Key(b)
      && StatusOf([Observe(a), Observe(b)], Observe(a)) == Historical
      && StatusOf([Observe(a), Observe(b)], Observe(b)) == Authoritative
  {
    InspectionObserved("1", "1", asset1, profile1);
    InspectionObserved("2", "2", asset2, profile2);
    var key := "inspection" + ":" + (asset1 + ":" + profile1);
    LaterTakesOver(Evidence("1", "1", key, "inspection", "complete"),
                   Evidence("2", "2", key, "inspection", "complete"));
  }

  /** ... also when they are two different assets. */
  lemma ShiftedColonsCompete()
    ensures var a, b := Inspection("1", "1", "a:b", "c"), Inspection("2", "2", "a", "b:c");
      && Asset(a) == "a:b" && Asset(b) == "a" && Key(a) == Key(b)
      && StatusOf([Observe(a), Observe(b)], Observe(a)) == Historical
      && StatusOf([Observe(a), Observe(b)], Observe(b)) == Authoritative
  {
    assert "a:b" + ":" + "c" == "a" + ":" + "b:c";
    LaterInspectionTakesOver("a:b", "c", "a", "b:c");
  }

  /** A complete record that is no inspection and brings along its key. */
  function Deliverable(id: string, createdAt: string, key: string): ArtifactRecord {
    ArtifactRecord(id, "report", createdAt, map["evidence_key" := key, "evidence_quality" := "complete"])
  }

  lemma DeliverableObserved(id: string, createdAt: string, key: string)
    requires Plain(key) && key[0] != '['
    ensures Observe(Deliverable(id, createdAt, key)) == Evidence(id, createdAt, key, "evidence", "complete")
  {
    assert |"evidence_key"| == 12 && |"evidence_quality"| == 16;
    assert |"report"| != |"inspection_raw"|;
    PlainIsStripped(key);
    PlainIsStripped("complete");
  }

  lemma KeyIsPlain(domain: string, asset: string, profile: string)
    requires Plain(domain) && Plain(profile)
    ensures var key := domain + ":" + (asset + ":" + profile); Plain(key) && key[0] == domain[0]
  {
    var key := domain + ":" + (asset + ":" + profile);
    assert key[|key| - 1] == profile[|profile| - 1];
  }

  /** A record that is no inspection takes the authority of an inspection, across domains, by bringing along its
      key. */
  lemma WrittenKeyCompetes(asset: string, profile: string, key: string)
    requires Plain(asset) && Plain(profile) && key == "inspection" + ":" + (asset + ":" + profile)
    ensures var a, b := Inspection("1", "1", asset, profile), Deliverable("2", "2", key);
      && Domain(a) == "inspection" && Domain(b) == "evidence" && Key(a) == Key(b)
      && StatusOf([Observe(a), Observe(b)], Observe(a)) == Historical
      && StatusOf([Observe(a), Observe(b)], Observe(b)) == Authoritative
  {
    KeyIsPlain("inspection", asset, profile);
    InspectionObserved("1", "1", asset, profile);
    DeliverableObserved("2", "2", key);
    var a, b := Observe(Inspection("1", "1", asset, profile)), Observe(Deliverable("2", "2", key));
    LaterTakesOver(a, b);
  }

  /** A baseline capture of the asset. */
  function Capture(id: string, createdAt: string, asset: string, profile: string): ArtifactRecord {
    var r := Inspection(id, createdAt, asset, profile);
    r.(metadata := r.metadata["assurance_kind" := "baseline_capture"])
  }

  /** An inspection that is no assurance task and declares the current state itself. */
  function Claim(id: string, createdAt: string, asset: string, profile: string): ArtifactRecord {
    var r := Inspection(id, createdAt, asset, profile);
    r.(metadata := r.metadata["authority_domain" := "current_state"])
  }

  lemma FieldsDiffer(a: string, b: string, c: string, d: string, e: string)
    requires a == "asset_id" && b == "profile_id" && c == "evidence_quality"
    requires d == "assurance_kind" && e == "authority_domain"
    ensures e !in {a, b, c, d} && d !in {a, b, c, e} && "script_profile_id" !in {a, b, c, d, e}
  {
    assert |a| == 8 && |b| == 10 && |c| == 16 && |d| == 14 && |e| == 16 && |"script_profile_id"| == 17;
    assert c[0] != e[0];
  }

  lemma CaptureObserved(id: string, createdAt: string, asset: string, profile: string)
    requires Plain(asset) && Plain(profile)
    ensures Observe(Capture(id, createdAt, asset, profile)) ==
            Evidence(id, createdAt, "current_state" + ":" + (asset + ":" + profile), "current_state", "complete")
  {
    InspectionFields(id, createdAt, asset, profile);
    FieldsDiffer("asset_id", "profile_id", "evidence_quality", "assurance_kind", "authority_domain");
    PlainIsStripped("baseline_capture");
    FieldsObserved(Capture(id, createdAt, asset, profile), asset, profile);
  }

  lemma ClaimObserved(id: string, createdAt: string, asset: string, profile: string)
    requires Plain(asset) && Plain(profile)
    ensures Meta(Claim(id, createdAt, asset, profile).metadata, "assurance_kind") == ""
    ensures Observe(Claim(id, createdAt, asset, profile)) ==
            Evidence(id, createdAt, "current_state" + ":" + (asset + ":" + profile), "current_state", "complete")
  {
    InspectionFields(id, createdAt, asset, profile);
    FieldsDiffer("asset_id", "profile_id", "evidence_quality", "assurance_kind", "authority_domain");
    PlainIsStripped("current_state");
    FieldsObserved(Claim(id, createdAt, asset, profile), asset, profile);
  }

  /** An inspection that is no baseline capture takes the current-state authority of one by declaring the
      domain. */
  lemma ClaimTakesCurrentState(asset: string, profile: string)
    requires Plain(asset) && Plain(profile)
    ensures var a, b := Capture("1", "1", asset, profile), Claim("2", "2", asset, profile);
      && Meta(b.metadata, "assurance_kind") == ""
      && StatusOf([Observe(a), Observe(b)], Observe(a)) == Historical
      && StatusOf([Observe(a), Observe(b)], Observe(b)) == Authoritative
      && Observe(b).domain == "current_state"
  {
    CaptureObserved("1", "1", asset, profile);
    ClaimObserved("2", "2", asset, profile);
    LaterTakesOver(Observe(Capture("1", "1", asset, profile)), Observe(Claim("2", "2", asset, profile)));
  }

  /** ... so that the rule does not hold of the two. */
  lemma ClaimBreaksTheRule(asset: string, profile: string)
    requires Plain(asset) && Plain(profile)
    ensures !OnlyCapturesGovern([Capture("1", "1", asset, profile), Claim("2", "2", asset, profile)])
  {
    var a, b := Capture("1", "1", asset, profile), Claim("2", "2", asset, profile);
    ClaimTakesCurrentState(asset, profile);
    ClaimObserved("2", "2", asset, profile);
    ClaimGoverns(a, b);
  }

  lemma ClaimGoverns(a: ArtifactRecord, b: ArtifactRecord)
    requires b.kind == "inspection_raw" && Strip(Meta(b.metadata, "assurance_kind")) == ""
    requires Key(b) != "" && Domain(b) == "current_state"
    requires StatusOf([Observe(a), Observe(b)], Observe(b)) == Authoritative
    ensures !OnlyCapturesGovern([a, b])
  {
    assert Observed([a, b]) == [Observe(a), Observe(b)];
    assert b in [a, b] && HasCurrentState([a, b], b) && !IsCapture(b);
  }
}
