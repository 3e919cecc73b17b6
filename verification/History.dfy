/** Merging persisted and in-memory conversation history: agent/runtime/ssot_runtime.py. */
module History {
  import opened Seqs
  import opened Text

  datatype Message = Message(role: string, content: string)

  // ------------------------------------------------------ collecting messages

  /** A stored message; anything that is not a dict is ignored. */
  datatype Raw = NotDict | Raw(role: string, content: string, messageId: string, id: string, runId: string)

  function Take(s: string, n: nat): string { if |s| <= n then s else s[..n] }

  datatype Entry = Skip | Entry(key: string, message: Message)

  /** A message of a user or an assistant that says something, with the key it is recognized by. */
  function Read(raw: Raw): (entry: Entry)
    ensures entry.Entry? ==> entry.message.role in ["user", "assistant"] && entry.message.content != ""
  {
    if raw.NotDict? || raw.role !in ["user", "assistant"] || Strip(raw.content) == "" then Skip
    else
      var content := Strip(raw.content);
      Entry(Or(Or(Or(raw.messageId, raw.id), raw.runId), raw.role + ":" + Take(content, 80)),
            Message(raw.role, content))
  }

  predicate Seen(entries: seq<Entry>, key: string) {
    exists i :: 0 <= i < |entries| && entries[i].Entry? && entries[i].key == key
  }

  /** The messages in order, the first one of every key. */
  function FirstOfEach(entries: seq<Entry>): (messages: seq<Message>)
    ensures |messages| <= |entries|
  {
    if entries == [] then []
    else
      var front, last := entries[..|entries| - 1], entries[|entries| - 1];
      if last.Entry? && !Seen(front, last.key) then FirstOfEach(front) + [last.message] else FirstOfEach(front)
  }

  function Collected(raws: seq<Raw>): seq<Message> { FirstOfEach(Map(raws, Read)) }

  method CollectMessages(raws: seq<Raw>) returns (messages: seq<Message>)
    ensures messages == Collected(raws)
  {
    messages := CollectFirst(Map(raws, Read));
  }

  method CollectFirst(entries: seq<Entry>) returns (messages: seq<Message>)
    ensures messages == FirstOfEach(entries)
  {
    messages := [];
    var seen: set<string> := {};
    for i := 0 to |entries|
      invariant messages == FirstOfEach(entries[..i])
      invariant seen == Keys(entries[..i])
    {
      assert entries[..i + 1][..i] == entries[..i];
      assert entries[..i + 1] == entries[..i] + [entries[i]];
      KeysSnoc(entries[..i], entries[i]);
      if entries[i].Skip? { continue; }
      if entries[i].key in seen { continue; }
      seen := seen + {entries[i].key};
      messages := messages + [entries[i].message];
    }
    assert entries[..|entries|] == entries;
  }

  function Keys(entries: seq<Entry>): (keys: set<string>)
    ensures forall key :: key in keys <==> Seen(entries, key)
  {
    set i | 0 <= i < |entries| && entries[i].Entry? :: entries[i].key
  }

  lemma KeysSnoc(entries: seq<Entry>, entry: Entry)
    ensures Keys(entries + [entry]) == if entry.Entry? then Keys(entries) + {entry.key} else Keys(entries)
  {
    var all := entries + [entry];
    forall key ensures Seen(all, key) <==> Seen(entries, key) || (entry.Entry? && entry.key == key) {
      if i :| 0 <= i < |entries| && entries[i].Entry? && entries[i].key == key { assert all[i] == entries[i]; }
      if entry.Entry? && entry.key == key { assert all[|entries|] == entry; }
    }
    if entry.Entry? {
      assert Keys(all) == Keys(entries) + {entry.key};
    } else {
      assert Keys(all) == Keys(entries);
    }
  }

  /** One message is kept for every key. */
  lemma {:induction false} OnePerKey(entries: seq<Entry>)
    ensures |FirstOfEach(entries)| == |Keys(entries)|
  {
    if entries == [] {
      assert Keys(entries) == {};
    } else {
      var front, last := entries[..|entries| - 1], entries[|entries| - 1];
      OnePerKey(front);
      KeysSnoc(front, last);
      assert entries == front + [last];
      assert last.Entry? ==> (last.key in Keys(front) <==> Seen(front, last.key));
    }
  }

  /** Nothing is collected that is empty or from anybody but users and assistants. */
  lemma CollectedSpeak(raws: seq<Raw>, m: Message)
    requires m in Collected(raws)
    ensures m.role in ["user", "assistant"] && m.content != ""
  {
    FirstIsEntry(Map(raws, Read), m);
    var i :| 0 <= i < |raws| && Map(raws, Read)[i].Entry? && Map(raws, Read)[i].message == m;
    assert Map(raws, Read)[i] == Read(raws[i]);
  }

  lemma {:induction false} FirstIsEntry(entries: seq<Entry>, m: Message)
    requires m in FirstOfEach(entries)
    ensures exists i :: 0 <= i < |entries| && entries[i].Entry? && entries[i].message == m
  {
    var front := entries[..|entries| - 1];
    if m in FirstOfEach(front) {
      FirstIsEntry(front, m);
      var i :| 0 <= i < |front| && front[i].Entry? && front[i].message == m;
      assert entries[i] == front[i];
    }
  }

  /** A user or an assistant says something. */
  predicate Speaks(raw: Raw) { raw.Raw? && raw.role in ["user", "assistant"] && Strip(raw.content) != "" }

  function Said(raws: seq<Raw>): seq<Message> {
    Map(Filter(raws, Speaks), (raw: Raw) => if raw.Raw? then Message(raw.role, Strip(raw.content)) else Message("", ""))
  }

  /** Every message that says something has a message id of its own. */
  predicate DistinctIds(raws: seq<Raw>) {
    && (forall i :: 0 <= i < |raws| && Speaks(raws[i]) ==> raws[i].messageId != "")
    && (forall i, j :: 0 <= i < j < |raws| && Speaks(raws[i]) && Speaks(raws[j]) ==>
          raws[i].messageId != raws[j].messageId)
  }

  lemma MapSnoc<A, B>(s: seq<A>, x: A, f: A -> B)
    ensures Map(s + [x], f) == Map(s, f) + [f(x)]
  {
  }

  /** Messages with message ids of their own are all collected, in order, each with its own role and what it says. */
  lemma {:induction false} DistinctAreKept(raws: seq<Raw>)
    requires DistinctIds(raws)
    ensures Collected(raws) == Said(raws)
  {
    if raws != [] {
      var front, last := raws[..|raws| - 1], raws[|raws| - 1];
      assert raws == front + [last];
      DistinctAreKept(front);
      MapSnoc(front, last, Read);
      FilterSnoc(front, last, Speaks);
      if Speaks(last) {
        NotSeenBefore(raws);
        MapSnoc(Filter(front, Speaks), last,
                (raw: Raw) => if raw.Raw? then Message(raw.role, Strip(raw.content)) else Message("", ""));
      }
    }
  }

  lemma NotSeenBefore(raws: seq<Raw>)
    requires raws != [] && DistinctIds(raws) && Speaks(raws[|raws| - 1])
    ensures !Seen(Map(raws[..|raws| - 1], Read), raws[|raws| - 1].messageId)
  {
    var front := raws[..|raws| - 1];
    forall i | 0 <= i < |front| && Read(front[i]).Entry?
      ensures Read(front[i]).key != raws[|raws| - 1].messageId {
      assert Speaks(raws[i]);
    }
  }

  // ---------------------------------------------------------------- overlap

  /** The last `k` persisted messages are the first `k` in memory. */
  predicate Overlaps(persisted: seq<Message>, memory: seq<Message>, k: nat) {
    k <= |persisted| && k <= |memory| && persisted[|persisted| - k..] == memory[..k]
  }

  method SameMessages(left: seq<Message>, right: seq<Message>) returns (same: bool)
    requires |left| == |right|
    ensures same <==> left == right
  {
    for i := 0 to |left|
      invariant left[..i] == right[..i]
    {
      if left[i].role != right[i].role || left[i].content != right[i].content { return false; }
    }
    assert left[..|left|] == left && right[..|right|] == right;
    return true;
  }

  /** The largest overlap; none at all is an overlap of 0. */
  method HistoryOverlap(persisted: seq<Message>, memory: seq<Message>) returns (k: nat)
    ensures Overlaps(persisted, memory, k)
    ensures forall n: nat :: Overlaps(persisted, memory, n) ==> n <= k
  {
    var size := if |persisted| <= |memory| then |persisted| else |memory|;
    while size > 0
      invariant size <= |persisted| && size <= |memory|
      invariant forall n: nat :: Overlaps(persisted, memory, n) ==> n <= size
    {
      var same := SameMessages(persisted[|persisted| - size..], memory[..size]);
      if same { return size; }
      size := size - 1;
    }
    return 0;
  }

  predicate Suffix(m: seq<Message>, s: seq<Message>) { |m| <= |s| && s[|s| - |m|..] == m }

  /** What a history that continues both must overlap in. */
  lemma CommonPart(persisted: seq<Message>, memory: seq<Message>, s: seq<Message>)
    requires persisted <= s && Suffix(memory, s) && |s| <= |persisted| + |memory|
    ensures Overlaps(persisted, memory, |persisted| + |memory| - |s|)
  {
    var k := |persisted| + |memory| - |s|;
    forall i | 0 <= i < k ensures persisted[|persisted| - k..][i] == memory[..k][i] {
      assert s[|s| - |memory|..][i] == s[|s| - |memory| + i];
    }
  }

  /** The merged history starts with what was persisted, ends with what is in memory, and is the shortest
      history that does: no turn is repeated and none is lost. */
  lemma MergeIsShortest(persisted: seq<Message>, memory: seq<Message>, k: nat, s: seq<Message>)
    requires Overlaps(persisted, memory, k) && forall n: nat :: Overlaps(persisted, memory, n) ==> n <= k
    requires persisted <= s && Suffix(memory, s)
    ensures var merged := persisted + memory[k..];
            && persisted <= merged && Suffix(memory, merged)
            && |merged| <= |s| && (|s| == |merged| ==> s == merged)
  {
    MergeContinues(persisted, memory, k);
    if |s| <= |persisted| + |memory| {
      CommonPart(persisted, memory, s);
      if |s| == |persisted| + |memory| - k {
        forall i | |persisted| <= i < |s| ensures s[i] == memory[k..][i - |persisted|] {
          assert s[|s| - |memory|..][i - |s| + |memory|] == s[i];
        }
        assert s == persisted + memory[k..];
      }
    }
  }

  lemma MergeContinues(persisted: seq<Message>, memory: seq<Message>, k: nat)
    requires Overlaps(persisted, memory, k)
    ensures var merged := persisted + memory[k..]; persisted <= merged && Suffix(memory, merged)
  {
    var merged := persisted + memory[k..];
    var start := |merged| - |memory|;
    assert start == |persisted| - k;
    forall i | 0 <= i < |memory| ensures merged[start..][i] == memory[i] {
      if i < k { assert persisted[|persisted| - k..][i] == memory[..k][i]; }
    }
    assert merged[start..] == memory;
  }

  /** `_load_context_messages`: an unreadable store counts as empty. */
  method LoadContextMessages(stored: seq<Raw>, held: seq<Raw>) returns (messages: seq<Message>)
    ensures exists k: nat :: Overlaps(Collected(stored), Collected(held), k)
                             && messages == Collected(stored) + Collected(held)[k..]
    ensures forall s :: Collected(stored) <= s && Suffix(Collected(held), s) ==> |messages| <= |s|
  {
    var persisted := CollectMessages(stored);
    var memory := CollectMessages(held);
    var k := HistoryOverlap(persisted, memory);
    messages := persisted + memory[k..];
    forall s | persisted <= s && Suffix(memory, s) ensures |messages| <= |s| {
      MergeIsShortest(persisted, memory, k, s);
    }
  }

  // ---------------------------------------------------- the newest that fit

  /** The token estimate and the truncation of the context budget; only the limit is assumed of them. */
  datatype Budget = Budget(estimate: string -> nat, truncate: (string, nat) -> string) {
    ghost predicate Lawful() { forall text, limit :: estimate(truncate(text, limit)) <= limit }
  }

  function Line(b: Budget, perMessage: nat, m: Message): string {
    "  [" + m.role + "] " + b.truncate(m.content, perMessage)
  }

  function Cost(b: Budget, line: string): nat { b.estimate(line) + 1 }

  /** The lines of messages, oldest first. */
  function Lines(b: Budget, perMessage: nat, messages: seq<Message>): seq<string> {
    Map(messages, (m: Message) => Line(b, perMessage, m))
  }

  function TotalCost(b: Budget, lines: seq<string>): nat {
    if lines == [] then 0 else Cost(b, lines[0]) + TotalCost(b, lines[1..])
  }

  /** The newest line is cut to the budget when it does not fit. */
  function NewestLine(b: Budget, perMessage: nat, maxTokens: nat, m: Message): string {
    var line := Line(b, perMessage, m);
    if Cost(b, line) > maxTokens then b.truncate(line, maxTokens) else line
  }

  function NewestCost(b: Budget, perMessage: nat, maxTokens: nat, m: Message): (cost: nat)
    ensures b.Lawful() ==> cost <= maxTokens
  {
    var line := Line(b, perMessage, m);
    if Cost(b, line) > maxTokens then b.estimate(b.truncate(line, maxTokens)) else Cost(b, line)
  }

  /** The messages from place `i` but the newest. */
  function Older(messages: seq<Message>, i: nat): seq<Message>
    requires i < |messages|
  {
    messages[i..|messages| - 1]
  }

  function ShownFrom(b: Budget, perMessage: nat, maxTokens: nat, messages: seq<Message>, i: nat): seq<string>
    requires i < |messages|
  {
    Lines(b, perMessage, Older(messages, i)) + [NewestLine(b, perMessage, maxTokens, messages[|messages| - 1])]
  }

  function CostFrom(b: Budget, perMessage: nat, maxTokens: nat, messages: seq<Message>, i: nat): nat
    requires i < |messages|
  {
    TotalCost(b, Lines(b, perMessage, Older(messages, i))) +
    NewestCost(b, perMessage, maxTokens, messages[|messages| - 1])
  }

  /** The lines are those of the newest messages, in order: within the budget, and as many as fit. */
  method FormatRecentHistory(b: Budget, messages: seq<Message>, maxTokens: nat, perMessage: nat)
    returns (lines: seq<string>)
    requires b.Lawful()
    ensures messages == [] ==> lines == []
    ensures messages != [] ==>
      && 0 < |lines| <= |messages|
      && var i := |messages| - |lines|;
         && lines == ShownFrom(b, perMessage, maxTokens, messages, i)
         && CostFrom(b, perMessage, maxTokens, messages, i) <= maxTokens
         && (i > 0 ==> CostFrom(b, perMessage, maxTokens, messages, i - 1) > maxTokens)
  {
    lines := [];
    var used := 0;
    var i := |messages|;
    while i > 0
      invariant 0 <= i <= |messages| && |lines| == |messages| - i && used <= maxTokens
      invariant i == |messages| ==> used == 0
      invariant i < |messages| ==> lines == ShownFrom(b, perMessage, maxTokens, messages, i)
      invariant i < |messages| ==> used == CostFrom(b, perMessage, maxTokens, messages, i)
    {
      var line := Line(b, perMessage, messages[i - 1]);
      var cost := Cost(b, line);
      if i < |messages| {
        ShowOneMore(b, perMessage, maxTokens, messages, i - 1);
      } else {
        ShowNewest(b, perMessage, maxTokens, messages);
      }
      if lines != [] && used + cost > maxTokens { break; }
      if lines == [] && cost > maxTokens {
        line := b.truncate(line, maxTokens);
        cost := b.estimate(line);
      }
      i := i - 1;
      lines := [line] + lines;
      used := used + cost;
    }
  }

  /** The lines say who said what, in the order of the messages. */
  lemma ShownInOrder(b: Budget, perMessage: nat, maxTokens: nat, messages: seq<Message>, i: nat, k: nat)
    requires i + k + 1 < |messages|
    ensures var lines := ShownFrom(b, perMessage, maxTokens, messages, i);
      && |lines| == |messages| - i
      && lines[k] == "  [" + messages[i + k].role + "] " + b.truncate(messages[i + k].content, perMessage)
  {
    assert Older(messages, i)[k] == messages[i + k];
  }

  lemma ShowNewest(b: Budget, perMessage: nat, maxTokens: nat, messages: seq<Message>)
    requires messages != []
    ensures ShownFrom(b, perMessage, maxTokens, messages, |messages| - 1) ==
            [NewestLine(b, perMessage, maxTokens, messages[|messages| - 1])]
    ensures CostFrom(b, perMessage, maxTokens, messages, |messages| - 1) ==
            NewestCost(b, perMessage, maxTokens, messages[|messages| - 1])
  {
  }

  lemma ShowOneMore(b: Budget, perMessage: nat, maxTokens: nat, messages: seq<Message>, i: nat)
    requires i + 1 < |messages|
    ensures var line := Line(b, perMessage, messages[i]);
            && ShownFrom(b, perMessage, maxTokens, messages, i) ==
               [line] + ShownFrom(b, perMessage, maxTokens, messages, i + 1)
            && CostFrom(b, perMessage, maxTokens, messages, i) ==
               Cost(b, line) + CostFrom(b, perMessage, maxTokens, messages, i + 1)
  {
    var older := Older(messages, i);
    assert older[0] == messages[i] && older[1..] == Older(messages, i + 1);
    Associative([Line(b, perMessage, messages[i])], Lines(b, perMessage, older[1..]),
                [NewestLine(b, perMessage, maxTokens, messages[|messages| - 1])]);
  }
}
