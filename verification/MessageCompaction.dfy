/** History compaction of agent/runtime/context_compactor.py: which messages are kept, and that tool
    calls stay together with their results. */
module MessageCompaction {
  import opened Seqs
  import opened Wrappers

  /** `calls` are the ids of the message's tool calls and `resultOf` is its tool_call_id; "" stands for
      a missing id. A plain string is a message without role. */
  datatype Message = Message(role: Option<string>, content: string, calls: seq<string>, resultOf: string)

  datatype Strategy = FastEviction | LlmSummary

  function Role(m: Message): string { if m.role.Some? then m.role.value else "unknown" }

  predicate IsCall(m: Message, cid: string) { cid != "" && m.role == Some("assistant") && cid in m.calls }

  predicate IsResult(m: Message, cid: string) { cid != "" && m.resultOf == cid }

  predicate IsSystem(m: Message) { m.role == Some("system") }

  predicate IsUser(m: Message) { m.role == Some("user") }

  // ----------------------------------------------------------- the pairing

  /** The maps the code builds keep the last message of each id. */
  ghost predicate LastCall(ms: seq<Message>, cid: string, i: nat) {
    i < |ms| && IsCall(ms[i], cid) && forall k | i < k < |ms| :: !IsCall(ms[k], cid)
  }

  ghost predicate LastResult(ms: seq<Message>, cid: string, i: nat) {
    i < |ms| && IsResult(ms[i], cid) && forall k | i < k < |ms| :: !IsResult(ms[k], cid)
  }

  ghost predicate Closed(ms: seq<Message>, s: set<nat>) {
    forall cid, a, r | LastCall(ms, cid, a) && LastResult(ms, cid, r) :: a in s <==> r in s
  }

  /** `s` is the least set that contains `base` and never holds one side of a pair without the other. */
  ghost predicate IsClosure(ms: seq<Message>, base: set<nat>, s: set<nat>) {
    base <= s && Closed(ms, s) && forall t | base <= t && Closed(ms, t) :: s <= t
  }

  lemma ClosureIsUnique(ms: seq<Message>, base: set<nat>, s: set<nat>, t: set<nat>)
    requires IsClosure(ms, base, s) && IsClosure(ms, base, t)
    ensures s == t
  {
  }

  ghost predicate CallMapOk(ms: seq<Message>, m: map<string, nat>) {
    && (forall cid | cid in m :: LastCall(ms, cid, m[cid]))
    && (forall cid, i | 0 <= i < |ms| && IsCall(ms[i], cid) :: cid in m)
  }

  ghost predicate ResultMapOk(ms: seq<Message>, m: map<string, nat>) {
    && (forall cid | cid in m :: LastResult(ms, cid, m[cid]))
    && (forall cid, i | 0 <= i < |ms| && IsResult(ms[i], cid) :: cid in m)
  }

  /** The map after one more message with these calls. */
  function WithCalls(m: map<string, nat>, calls: seq<string>, i: nat): map<string, nat> {
    m + map cid | cid in calls && cid != "" :: i
  }

  lemma WithCallsSnoc(m: map<string, nat>, calls: seq<string>, cid: string, i: nat)
    ensures WithCalls(m, calls + [cid], i) ==
            if cid == "" then WithCalls(m, calls, i) else WithCalls(m, calls, i)[cid := i]
  {
  }

  method AddCalls(m: map<string, nat>, calls: seq<string>, i: nat) returns (m': map<string, nat>)
    ensures m' == WithCalls(m, calls, i)
  {
    m' := m;
    var k := 0;
    while k < |calls|
      invariant 0 <= k <= |calls|
      invariant m' == WithCalls(m, calls[..k], i)
    {
      assert calls[..k + 1] == calls[..k] + [calls[k]];
      WithCallsSnoc(m, calls[..k], calls[k], i);
      if calls[k] != "" { m' := m'[calls[k] := i]; }
      k := k + 1;
    }
    assert calls[..k] == calls;
  }

  lemma CallMapSnoc(ms: seq<Message>, m: map<string, nat>, msg: Message)
    requires CallMapOk(ms, m)
    ensures CallMapOk(ms + [msg], if msg.role == Some("assistant") then WithCalls(m, msg.calls, |ms|) else m)
  {
    var m' := if msg.role == Some("assistant") then WithCalls(m, msg.calls, |ms|) else m;
    var ms' := ms + [msg];
    forall cid | cid in m' ensures LastCall(ms', cid, m'[cid]) {
      if !IsCall(msg, cid) { assert LastCall(ms, cid, m[cid]); }
    }
  }

  lemma ResultMapSnoc(ms: seq<Message>, m: map<string, nat>, msg: Message)
    requires ResultMapOk(ms, m)
    ensures ResultMapOk(ms + [msg], if msg.resultOf != "" then m[msg.resultOf := |ms|] else m)
  {
    var m' := if msg.resultOf != "" then m[msg.resultOf := |ms|] else m;
    var ms' := ms + [msg];
    forall cid | cid in m' ensures LastResult(ms', cid, m'[cid]) {
      if !IsResult(msg, cid) { assert LastResult(ms, cid, m[cid]); }
    }
  }

  method BuildMaps(ms: seq<Message>) returns (callMap: map<string, nat>, resultMap: map<string, nat>)
    ensures CallMapOk(ms, callMap) && ResultMapOk(ms, resultMap)
  {
    callMap, resultMap := map[], map[];
    var i := 0;
    while i < |ms|
      invariant 0 <= i <= |ms|
      invariant CallMapOk(ms[..i], callMap) && ResultMapOk(ms[..i], resultMap)
    {
      assert ms[..i + 1] == ms[..i] + [ms[i]];
      CallMapSnoc(ms[..i], callMap, ms[i]);
      ResultMapSnoc(ms[..i], resultMap, ms[i]);
      if ms[i].role == Some("assistant") { callMap := AddCalls(callMap, ms[i].calls, i); }
      if ms[i].resultOf != "" { resultMap := resultMap[ms[i].resultOf := i]; }
      i := i + 1;
    }
    assert ms[..i] == ms;
  }

  function Indices(ms: seq<Message>): set<nat> { Below(|ms|) }

  function Below(n: nat): (s: set<nat>)
    ensures forall i: nat :: i in s <==> i < n
  {
    if n == 0 then {} else Below(n - 1) + {n - 1}
  }

  /** Visiting every id of the map visits every pair. */
  lemma MapsHoldPairs(ms: seq<Message>, callMap: map<string, nat>, resultMap: map<string, nat>, s: set<nat>)
    requires CallMapOk(ms, callMap) && ResultMapOk(ms, resultMap)
    ensures Closed(ms, s) <==>
            forall cid | cid in callMap && cid in resultMap :: callMap[cid] in s <==> resultMap[cid] in s
  {
    forall cid, a, r | LastCall(ms, cid, a) && LastResult(ms, cid, r)
      ensures cid in callMap && callMap[cid] == a && cid in resultMap && resultMap[cid] == r
    {
      assert LastCall(ms, cid, callMap[cid]) && LastResult(ms, cid, resultMap[cid]);
    }
    if Closed(ms, s) {
      forall cid | cid in callMap && cid in resultMap ensures callMap[cid] in s <==> resultMap[cid] in s {
        assert LastCall(ms, cid, callMap[cid]) && LastResult(ms, cid, resultMap[cid]);
      }
    }
  }

  /** `_protect_tool_pairs`: the fixpoint is the least closed superset, in whatever order the map is
      visited. */
  method ProtectToolPairs(ms: seq<Message>, base: set<nat>) returns (expanded: set<nat>)
    requires base <= Indices(ms)
    ensures IsClosure(ms, base, expanded) && expanded <= Indices(ms)
  {
    var callMap, resultMap := BuildMaps(ms);
    ghost var all := Indices(ms);
    expanded := base;
    var changed := true;
    while changed
      invariant base <= expanded <= all
      invariant forall t | base <= t && Closed(ms, t) :: expanded <= t
      invariant !changed ==> forall cid | cid in callMap && cid in resultMap ::
        callMap[cid] in expanded <==> resultMap[cid] in expanded
      decreases |all - expanded|, changed
    {
      changed := false;
      ghost var before := expanded;
      var todo := callMap.Keys;
      while todo != {}
        invariant todo <= callMap.Keys && before <= expanded <= all
        invariant forall t | base <= t && Closed(ms, t) :: expanded <= t
        invariant !changed ==> expanded == before
        invariant changed ==> before < expanded
        invariant !changed ==> forall cid | cid in callMap && cid !in todo && cid in resultMap ::
          callMap[cid] in expanded <==> resultMap[cid] in expanded
      {
        var cid :| cid in todo;
        todo := todo - {cid};
        if cid in resultMap {
          var a, r := callMap[cid], resultMap[cid];
          if a in expanded && r !in expanded {
            expanded := expanded + {r};
            changed := true;
          } else if r in expanded && a !in expanded {
            expanded := expanded + {a};
            changed := true;
          }
        }
      }
      if changed { FewerLeft(all, before, expanded); }
    }
    MapsHoldPairs(ms, callMap, resultMap, expanded);
  }

  lemma FewerLeft(all: set<nat>, a: set<nat>, b: set<nat>)
    requires a < b <= all
    ensures |all - b| < |all - a|
  {
    var x :| x in b && x !in a;
    assert all - b <= (all - a) - {x};
    SubsetCardinality(all - b, (all - a) - {x});
  }

  lemma SubsetCardinality(a: set<nat>, b: set<nat>)
    requires a <= b
    ensures |a| <= |b|
  {
    if a != {} {
      var x :| x in a;
      SubsetCardinality(a - {x}, b - {x});
    }
  }

  // ------------------------------------------------------------ compaction

  /** The regular expressions behind the summaries are parameters. */
  datatype Summaries = Summaries(one: Message -> string, many: seq<Message> -> string)

  /** `_build_deterministic_summary` keeps the role and drops calls and call id. */
  function Evicted(sum: Summaries, m: Message): Message {
    Message(Some(Role(m)), sum.one(m), [], "")
  }

  function Progress(sum: Summaries, old_: seq<Message>): Message {
    Message(Some("assistant"), sum.many(old_), [], "")
  }

  /** The messages at the given positions, in order. */
  function Select(ms: seq<Message>, s: set<nat>): seq<Message> {
    if ms == [] then []
    else Select(ms[..|ms| - 1], s) + if |ms| - 1 in s then [ms[|ms| - 1]] else []
  }

  function Evict(sum: Summaries, ms: seq<Message>, s: set<nat>): (out: seq<Message>)
    ensures |out| == |ms|
    ensures forall i :: 0 <= i < |ms| ==> out[i] == if i in s then ms[i] else Evicted(sum, ms[i])
  {
    seq(|ms|, i requires 0 <= i < |ms| => if i in s then ms[i] else Evicted(sum, ms[i]))
  }

  /** What must survive before pairs are looked at: system messages, the last user message, the last
      `keepRecent` messages. */
  ghost predicate MustKeep(ms: seq<Message>, keepRecent: int, i: nat)
    requires i < |ms|
  {
    || IsSystem(ms[i])
    || (IsUser(ms[i]) && forall k | i < k < |ms| :: !IsUser(ms[k]))
    || i >= |ms| - keepRecent
  }

  ghost predicate IsBase(ms: seq<Message>, keepRecent: int, base: set<nat>) {
    base <= Indices(ms) && forall i | 0 <= i < |ms| :: i in base <==> MustKeep(ms, keepRecent, i)
  }

  method ProtectedBase(ms: seq<Message>, keepRecent: int) returns (base: set<nat>)
    ensures IsBase(ms, keepRecent, base)
  {
    base := {};
    var lastUser := -1;
    var i := 0;
    while i < |ms|
      invariant 0 <= i <= |ms| && -1 <= lastUser < i
      invariant forall k | 0 <= k < |ms| :: k in base <==> k < i && (IsSystem(ms[k]) || k >= |ms| - keepRecent)
      invariant base <= Indices(ms)
      invariant lastUser >= 0 ==> IsUser(ms[lastUser])
      invariant forall k | lastUser < k < i :: !IsUser(ms[k])
    {
      if IsUser(ms[i]) { lastUser := i; }
      if IsSystem(ms[i]) || i >= |ms| - keepRecent { base := base + {i}; }
      i := i + 1;
    }
    if lastUser >= 0 { base := base + {lastUser}; }
  }

  /** How many of the first `n` positions are not protected. */
  function DroppedBelow(n: nat, protected: set<nat>): nat {
    if n == 0 then 0 else DroppedBelow(n - 1, protected) + if n - 1 in protected then 0 else 1
  }

  /** The loop of fast eviction. */
  method EvictOld(sum: Summaries, ms: seq<Message>, protected: set<nat>) returns (out: seq<Message>, count: nat)
    ensures out == Evict(sum, ms, protected) && count == DroppedBelow(|ms|, protected)
  {
    out, count := [], 0;
    var i := 0;
    while i < |ms|
      invariant 0 <= i <= |ms| && |out| == i && count == DroppedBelow(i, protected)
      invariant forall k | 0 <= k < i :: out[k] == if k in protected then ms[k] else Evicted(sum, ms[k])
    {
      if i in protected {
        out := out + [ms[i]];
      } else {
        out := out + [Evicted(sum, ms[i])];
        count := count + 1;
      }
      i := i + 1;
    }
  }

  /** The two list comprehensions of the summary strategy. */
  method Partition(ms: seq<Message>, protected: set<nat>) returns (kept: seq<Message>, older: seq<Message>)
    ensures kept == Select(ms, protected) && older == Select(ms, Indices(ms) - protected)
    ensures |older| == DroppedBelow(|ms|, protected)
  {
    kept, older := [], [];
    var i := 0;
    while i < |ms|
      invariant 0 <= i <= |ms|
      invariant kept == Select(ms[..i], protected)
      invariant older == Select(ms[..i], Indices(ms) - protected) && |older| == DroppedBelow(i, protected)
    {
      assert ms[..i + 1][..i] == ms[..i];
      if i in protected { kept := kept + [ms[i]]; } else { older := older + [ms[i]]; }
      i := i + 1;
    }
    assert ms[..i] == ms;
  }

  datatype CompactionMeta = CompactionMeta(compacted: bool, count: nat)

  ghost predicate BelowThreshold(ms: seq<Message>, keepRecent: int) { ms == [] || |ms| <= keepRecent }

  /** What either strategy makes of the messages when the positions in `kept` survive. */
  function Compacted(sum: Summaries, ms: seq<Message>, kept: set<nat>, strategy: Strategy): seq<Message> {
    if strategy.FastEviction? then Evict(sum, ms, kept)
    else [Progress(sum, Select(ms, Indices(ms) - kept))] + Select(ms, kept)
  }

  /** `kept` is the set of positions that survive verbatim. */
  method CompactMessages(sum: Summaries, ms: seq<Message>, keepRecent: int, strategy: Strategy)
    returns (out: seq<Message>, meta: CompactionMeta, ghost base: set<nat>, ghost kept: set<nat>)
    ensures BelowThreshold(ms, keepRecent) ==> out == ms && !meta.compacted
    ensures !BelowThreshold(ms, keepRecent) ==>
      && IsBase(ms, keepRecent, base) && IsClosure(ms, base, kept)
      && meta == CompactionMeta(true, DroppedBelow(|ms|, kept))
      && out == Compacted(sum, ms, kept, strategy)
  {
    base, kept := {}, {};
    if ms == [] || |ms| <= keepRecent { return ms, CompactionMeta(false, 0), base, kept; }
    var protectedIndices := ProtectedBase(ms, keepRecent);
    base := protectedIndices;
    protectedIndices := ProtectToolPairs(ms, protectedIndices);
    kept := protectedIndices;
    if strategy.LlmSummary? {
      var keptMessages, oldMessages := Partition(ms, protectedIndices);
      out := [Progress(sum, oldMessages)] + keptMessages;
      meta := CompactionMeta(true, |oldMessages|);
    } else {
      var count;
      out, count := EvictOld(sum, ms, protectedIndices);
      meta := CompactionMeta(true, count);
    }
  }

  // ---------------------------------------------------------- main results

  /** The id names at most one call and at most one result. */
  ghost predicate Unique(ms: seq<Message>, cid: string) {
    && (forall i, j | 0 <= i < |ms| && 0 <= j < |ms| && IsCall(ms[i], cid) && IsCall(ms[j], cid) :: i == j)
    && (forall i, j | 0 <= i < |ms| && 0 <= j < |ms| && IsResult(ms[i], cid) && IsResult(ms[j], cid) :: i == j)
  }

  /** Both sides of a call are kept verbatim, or neither is. */
  lemma PairsStayTogether(ms: seq<Message>, base: set<nat>, kept: set<nat>, cid: string, a: nat, r: nat)
    requires IsClosure(ms, base, kept) && Unique(ms, cid)
    requires a < |ms| && IsCall(ms[a], cid) && r < |ms| && IsResult(ms[r], cid)
    ensures a in kept <==> r in kept
  {
    assert LastCall(ms, cid, a) && LastResult(ms, cid, r);
  }

  lemma {:induction false} SelectMember(ms: seq<Message>, s: set<nat>, m: Message)
    ensures m in Select(ms, s) <==> exists i :: i in s && i < |ms| && ms[i] == m
  {
    if ms != [] {
      var n := |ms| - 1;
      SelectMember(ms[..n], s, m);
      if i :| i in s && i < |ms| && ms[i] == m {
        if i < n { assert ms[..n][i] == m; }
      }
      if m in Select(ms[..n], s) {
        var i :| i in s && i < n && ms[..n][i] == m;
        assert ms[i] == m;
      }
    }
  }

  /** A message with a call or a call id in the output is a kept one: summaries have neither. */
  lemma CarriersAreKept(sum: Summaries, ms: seq<Message>, kept: set<nat>, strategy: Strategy, cid: string)
    requires kept <= Indices(ms)
    ensures (exists m :: m in Compacted(sum, ms, kept, strategy) && IsCall(m, cid))
       <==> exists i :: i in kept && IsCall(ms[i], cid)
    ensures (exists m :: m in Compacted(sum, ms, kept, strategy) && IsResult(m, cid))
       <==> exists i :: i in kept && IsResult(ms[i], cid)
  {
    var out := Compacted(sum, ms, kept, strategy);
    forall m | m in out && (IsCall(m, cid) || IsResult(m, cid)) ensures exists i :: i in kept && ms[i] == m {
      if strategy.FastEviction? {
        var i :| 0 <= i < |out| && out[i] == m;
        assert i in kept && ms[i] == m;
      } else {
        SelectMember(ms, kept, m);
      }
    }
    forall i | i in kept ensures ms[i] in out {
      if strategy.FastEviction? { assert out[i] == ms[i]; } else { SelectMember(ms, kept, ms[i]); }
    }
  }

  /** No orphans: a call whose result was in the history is in the compacted history exactly when its
      result is. */
  lemma NoOrphans(sum: Summaries, ms: seq<Message>, base: set<nat>, kept: set<nat>, strategy: Strategy,
                  cid: string, a: nat, r: nat)
    requires IsClosure(ms, base, kept) && kept <= Indices(ms) && Unique(ms, cid)
    requires a < |ms| && IsCall(ms[a], cid) && r < |ms| && IsResult(ms[r], cid)
    ensures var out := Compacted(sum, ms, kept, strategy);
      (exists m :: m in out && m.role == Some("assistant") && cid in m.calls) <==>
      (exists m :: m in out && m.resultOf == cid)
  {
    PairsStayTogether(ms, base, kept, cid, a, r);
    CarriersAreKept(sum, ms, kept, strategy, cid);
  }

  /** What compaction promises to leave intact is intact, and fast eviction moves nothing and changes
      no role. */
  lemma ProtectedSurvive(sum: Summaries, ms: seq<Message>, keepRecent: int, base: set<nat>, kept: set<nat>, i: nat)
    requires IsBase(ms, keepRecent, base) && IsClosure(ms, base, kept) && i < |ms|
    ensures MustKeep(ms, keepRecent, i) ==>
      && i in kept && Compacted(sum, ms, kept, FastEviction)[i] == ms[i]
      && ms[i] in Compacted(sum, ms, kept, LlmSummary)
    ensures |Compacted(sum, ms, kept, FastEviction)| == |ms|
    ensures Role(Compacted(sum, ms, kept, FastEviction)[i]) == Role(ms[i])
  {
    SelectMember(ms, kept, ms[i]);
  }

  /** ... in so many words: every system message, the last user message and the last `keepRecent` messages. */
  lemma PromisedSurvive(sum: Summaries, ms: seq<Message>, keepRecent: int, base: set<nat>, kept: set<nat>, i: nat)
    requires IsBase(ms, keepRecent, base) && IsClosure(ms, base, kept) && i < |ms|
    requires || ms[i].role == Some("system")
             || (ms[i].role == Some("user") && forall k :: i < k < |ms| ==> ms[k].role != Some("user"))
             || i >= |ms| - keepRecent
    ensures i in kept && Compacted(sum, ms, kept, FastEviction)[i] == ms[i]
    ensures ms[i] in Compacted(sum, ms, kept, LlmSummary)
  {
    ProtectedSurvive(sum, ms, keepRecent, base, kept, i);
  }

  lemma IncreasingSnoc(places: seq<nat>, last: nat)
    requires Increasing(places) && forall i :: i in places ==> i < last
    ensures Increasing(places + [last])
  {
    forall a | 0 <= a < |places| ensures places[a] < last { assert places[a] in places; }
  }

  /** The summary strategy puts the summary first, and then the kept messages in their order. */
  lemma {:induction false} SelectPlaces(ms: seq<Message>, s: set<nat>) returns (places: seq<nat>)
    ensures Increasing(places) && |places| == |Select(ms, s)|
    ensures forall k :: 0 <= k < |places| ==> places[k] < |ms| && ms[places[k]] == Select(ms, s)[k]
    ensures forall i :: i in places <==> i in s && i < |ms|
  {
    if ms == [] {
      places := [];
    } else {
      var n := |ms| - 1;
      places := SelectPlaces(ms[..n], s);
      if n in s {
        IncreasingSnoc(places, n);
        places := places + [n];
      }
    }
  }

  lemma SummaryKeepsOrder(sum: Summaries, ms: seq<Message>, kept: set<nat>) returns (places: seq<nat>)
    ensures var out := Compacted(sum, ms, kept, LlmSummary);
      && |out| == |places| + 1 && Increasing(places)
      && (forall k :: 0 <= k < |places| ==> places[k] < |ms| && out[k + 1] == ms[places[k]])
      && (forall i :: i in places <==> i in kept && i < |ms|)
  {
    places := SelectPlaces(ms, kept);
  }
}
