/** Redaction and size-bounded truncation of JSON tool results in
    agent/runtime/context_compactor.py, down to the printed text. */
module JsonCompaction {
  import opened Seqs
  import opened Wrappers

  datatype Field = Field(key: string, value: Json)

  /** A parsed JSON value; a number is kept as the text it prints as, a dict as its items in order. */
  datatype Json =
    | Null
    | Bool(b: bool)
    | Number(text: string)
    | Str(s: string)
    | List(items: seq<Json>)
    | Object(fields: seq<Field>)

  // ---------------------------------------------------------------- printing

  const HEX := "0123456789abcdef"

  /** One character inside a JSON string, non-ASCII left as it is. */
  function Escape(c: char): string {
    match c
    case '\"' => "\\\""
    case '\\' => "\\\\"
    case '\n' => "\\n"
    case '\r' => "\\r"
    case '\t' => "\\t"
    case '\U{08}' => "\\b"
    case '\U{0C}' => "\\f"
    case _ => if c < ' ' then "\\u00" + [HEX[c as int / 16], HEX[c as int % 16]] else [c]
  }

  function EscapeAll(s: string): string {
    if s == "" then "" else Escape(s[0]) + EscapeAll(s[1..])
  }

  function Quote(s: string): string { "\"" + EscapeAll(s) + "\"" }

  /** json.dumps(value, ensure_ascii=False) */
  function Print(j: Json): string
    decreases j, 1
  {
    match j
    case Null => "null"
    case Bool(b) => if b then "true" else "false"
    case Number(text) => text
    case Str(s) => Quote(s)
    case List(items) => "[" + PrintItems(items) + "]"
    case Object(fields) => "{" + PrintFields(fields) + "}"
  }

  function PrintItems(items: seq<Json>): string
    decreases items, 0
  {
    if items == [] then ""
    else Print(items[0]) + (if |items| == 1 then "" else ", ") + PrintItems(items[1..])
  }

  function PrintFields(fields: seq<Field>): string
    decreases fields, 0
  {
    if fields == [] then ""
    else Quote(fields[0].key) + ": " + Print(fields[0].value)
         + (if |fields| == 1 then "" else ", ") + PrintFields(fields[1..])
  }

  /** str(n) */
  function Decimal(n: nat): string {
    if n < 10 then ["0123456789"[n]] else Decimal(n / 10) + ["0123456789"[n % 10]]
  }

  // --------------------------------------------------------------- redaction

  const FORBIDDEN_KEYS := ["secret", "password", "token", "api_key", "private_key",
                           "source_config", "raw_config", "ssh_key", "credentials"]

  const PRESERVE_KEYS := ["ok", "summary", "tool_id", "artifacts", "source_count", "manual_review_count",
                          "errors", "warnings", "output", "result", "devices", "hosts", "assets",
                          "version", "model", "status", "region", "host", "port", "protocol", "device_type",
                          "task_id", "workflow_id", "step_id", "progress"]

  predicate PartAt(s: string, part: string, i: nat) { i + |part| <= |s| && s[i..i + |part|] == part }

  predicate Contains(s: string, part: string) { exists i :: 0 <= i <= |s| && PartAt(s, part, i) }

  /** `lower` is str.lower. */
  predicate ForbiddenSubstring(lower: string -> string, key: string) {
    var lowered := lower(key);
    !(Contains(lowered, "host") && Contains(lowered, "hostname"))
    && exists k :: 0 <= k < |FORBIDDEN_KEYS| && Contains(lowered, FORBIDDEN_KEYS[k])
  }

  predicate IsSecretKey(lower: string -> string, key: string) {
    key !in PRESERVE_KEYS && (key in FORBIDDEN_KEYS || ForbiddenSubstring(lower, key))
  }

  const REDACTED := Str("[REDACTED]")

  function Redact(lower: string -> string, j: Json): Json
    decreases j, 1
  {
    match j
    case Object(fields) => Object(RedactFields(lower, fields))
    case List(items) => List(RedactItems(lower, items))
    case _ => j
  }

  function RedactItems(lower: string -> string, items: seq<Json>): (out: seq<Json>)
    ensures |out| == |items|
    decreases items, 0
  {
    if items == [] then [] else [Redact(lower, items[0])] + RedactItems(lower, items[1..])
  }

  function RedactFields(lower: string -> string, fields: seq<Field>): (out: seq<Field>)
    ensures |out| == |fields|
    decreases fields, 0
  {
    if fields == [] then []
    else [Field(fields[0].key,
                if IsSecretKey(lower, fields[0].key) then REDACTED else Redact(lower, fields[0].value))]
         + RedactFields(lower, fields[1..])
  }

  // -------------------------------------------------------------- truncation

  /** s[:n] */
  function Prefix(s: string, n: int): string {
    if n >= |s| then s else if n >= 0 then s[..n] else if |s| + n > 0 then s[..|s| + n] else ""
  }

  function Markers(size: nat): seq<Field> {
    [Field("_truncated", Bool(true)), Field("_original_size", Number(Decimal(size)))]
  }

  predicate Hidden(key: string) { key != "" && key[0] == '_' }

  function Truncate(j: Json, max: int): Json
    decreases j, 1
  {
    if |Print(j)| <= max then j
    else match j
      case Str(s) => Str(Prefix(s, max) + "…")
      case List(items) =>
        if items == [] then List([])
        else List(items[..if |items| <= 5 then |items| else 5] + [Str("…(truncated)")])
      case Object(fields) => Object(AddWhileFits(Markers(|Print(j)|), fields, max))
      case _ => j
  }

  /** Adds fields in order until the next one would not fit. */
  function AddWhileFits(acc: seq<Field>, fields: seq<Field>, max: int): seq<Field>
    decreases fields, 0
  {
    if fields == [] then acc
    else if Hidden(fields[0].key) then AddWhileFits(acc, fields[1..], max)
    else
      var next := acc + [Field(fields[0].key, Truncate(fields[0].value, max / 2))];
      if |Print(Object(next))| > max then acc else AddWhileFits(next, fields[1..], max)
  }

  /** The dict case works through the items in a loop; `max // 2` rounds down, as `/` does here. */
  method TruncateJson(j: Json, max: int) returns (r: Json)
    ensures r == Truncate(j, max)
    decreases j
  {
    var text := Print(j);
    if |text| <= max { return j; }
    match j
    case Str(s) => return Str(Prefix(s, max) + "…");
    case List(items) =>
      if items == [] { return List([]); }
      return List((if |items| <= 5 then items else items[..5]) + [Str("…(truncated)")]);
    case Object(fields) =>
      var acc := Markers(|text|);
      var i := 0;
      while i < |fields|
        invariant 0 <= i <= |fields|
        invariant AddWhileFits(acc, fields[i..], max) == AddWhileFits(Markers(|text|), fields, max)
      {
        TailOfTail(fields, i);
        if !Hidden(fields[i].key) {
          var value := TruncateJson(fields[i].value, max / 2);
          var projected := acc + [Field(fields[i].key, value)];
          if |Print(Object(projected))| > max { break; }
          acc := projected;
        }
        i := i + 1;
      }
      return Object(acc);
    case _ => return j;
  }

  // ---------------------------------------------------- redaction is complete

  /** At every depth, what stands under a secret key satisfies `ok`. */
  ghost predicate Masked(lower: string -> string, ok: Json -> bool, j: Json)
    decreases j, 1
  {
    match j
    case Object(fields) => MaskedFields(lower, ok, fields)
    case List(items) => MaskedItems(lower, ok, items)
    case _ => true
  }

  ghost predicate MaskedItems(lower: string -> string, ok: Json -> bool, items: seq<Json>)
    decreases items, 0
  {
    items == [] || (Masked(lower, ok, items[0]) && MaskedItems(lower, ok, items[1..]))
  }

  ghost predicate MaskedField(lower: string -> string, ok: Json -> bool, f: Field)
    decreases f, 0
  {
    if IsSecretKey(lower, f.key) then ok(f.value) else Masked(lower, ok, f.value)
  }

  ghost predicate MaskedFields(lower: string -> string, ok: Json -> bool, fields: seq<Field>)
    decreases fields, 0
  {
    fields == [] || (MaskedField(lower, ok, fields[0]) && MaskedFields(lower, ok, fields[1..]))
  }

  ghost const IsRedacted := (v: Json) => v == REDACTED

  lemma {:induction false} RedactMasks(lower: string -> string, j: Json)
    ensures Masked(lower, IsRedacted, Redact(lower, j))
    decreases j, 1
  {
    match j
    case Object(fields) => RedactFieldsMasks(lower, fields);
    case List(items) => RedactItemsMasks(lower, items);
    case _ =>
  }

  lemma {:induction false} RedactItemsMasks(lower: string -> string, items: seq<Json>)
    ensures MaskedItems(lower, IsRedacted, RedactItems(lower, items))
    decreases items, 0
  {
    if items != [] {
      RedactMasks(lower, items[0]);
      RedactItemsMasks(lower, items[1..]);
      assert RedactItems(lower, items)[1..] == RedactItems(lower, items[1..]);
    }
  }

  lemma {:induction false} RedactFieldsMasks(lower: string -> string, fields: seq<Field>)
    ensures MaskedFields(lower, IsRedacted, RedactFields(lower, fields))
    decreases fields, 0
  {
    if fields != [] {
      if !IsSecretKey(lower, fields[0].key) { RedactMasks(lower, fields[0].value); }
      RedactFieldsMasks(lower, fields[1..]);
      assert RedactFields(lower, fields)[1..] == RedactFields(lower, fields[1..]);
    }
  }

  /** Redacting a redacted value changes nothing. */
  lemma {:induction false} RedactKeepsMasked(lower: string -> string, j: Json)
    requires Masked(lower, IsRedacted, j)
    ensures Redact(lower, j) == j
    decreases j, 1
  {
    match j
    case Object(fields) => RedactKeepsMaskedFields(lower, fields);
    case List(items) => RedactKeepsMaskedItems(lower, items);
    case _ =>
  }

  lemma {:induction false} RedactKeepsMaskedItems(lower: string -> string, items: seq<Json>)
    requires MaskedItems(lower, IsRedacted, items)
    ensures RedactItems(lower, items) == items
    decreases items, 0
  {
    if items != [] {
      RedactKeepsMasked(lower, items[0]);
      RedactKeepsMaskedItems(lower, items[1..]);
      HeadTail(items);
    }
  }

  lemma {:induction false} RedactKeepsMaskedFields(lower: string -> string, fields: seq<Field>)
    requires MaskedFields(lower, IsRedacted, fields)
    ensures RedactFields(lower, fields) == fields
    decreases fields, 0
  {
    if fields != [] {
      if !IsSecretKey(lower, fields[0].key) { RedactKeepsMasked(lower, fields[0].value); }
      RedactKeepsMaskedFields(lower, fields[1..]);
      HeadTail(fields);
    }
  }

  /** Redaction is exactly masking: a value is its own redaction if and only if nothing but the mask
      stands under a secret key, at any depth; and redacting twice is redacting once. */
  lemma RedactionIsComplete(lower: string -> string, j: Json)
    ensures Redact(lower, j) == j <==> Masked(lower, IsRedacted, j)
    ensures Redact(lower, Redact(lower, j)) == Redact(lower, j)
  {
    RedactMasks(lower, j);
    RedactKeepsMasked(lower, Redact(lower, j));
    if Masked(lower, IsRedacted, j) { RedactKeepsMasked(lower, j); }
  }

  /** An object keeps its keys, in order; only values under secret keys are replaced by the mask. */
  lemma {:induction false} RedactKeepsKeys(lower: string -> string, fields: seq<Field>, i: nat)
    requires i < |fields|
    ensures var f, f' := fields[i], RedactFields(lower, fields)[i];
      && f'.key == f.key
      && f'.value == if IsSecretKey(lower, f.key) then REDACTED else Redact(lower, f.value)
  {
    if i > 0 {
      RedactKeepsKeys(lower, fields[1..], i - 1);
      assert RedactFields(lower, fields)[i] == RedactFields(lower, fields[1..])[i - 1];
    }
  }

  lemma PartInside(before: string, part: string, after: string)
    ensures Contains(before + part + after, part)
  {
    assert PartAt(before + part + after, part, |before|);
  }

  lemma InsideIsPart(s: string, part: string) returns (before: string, after: string)
    requires Contains(s, part)
    ensures s == before + part + after
  {
    var i :| 0 <= i <= |s| && PartAt(s, part, i);
    before, after := s[..i], s[i + |part|..];
  }

  /** What stands under a secret key is masked, and so is what stands under a key that holds a secret word in lower
      case; unless the key is one to keep or names a host. */
  lemma SecretWordsAreMasked(lower: string -> string, fields: seq<Field>, i: nat, before: string, word: string,
                             after: string)
    requires i < |fields| && fields[i].key !in PRESERVE_KEYS
    requires fields[i].key in FORBIDDEN_KEYS
             || (word in FORBIDDEN_KEYS && lower(fields[i].key) == before + word + after
                 && forall a, b :: lower(fields[i].key) != a + "hostname" + b)
    ensures RedactFields(lower, fields)[i] == Field(fields[i].key, Str("[REDACTED]"))
  {
    var lowered := lower(fields[i].key);
    if fields[i].key !in FORBIDDEN_KEYS {
      PartInside(before, word, after);
      if Contains(lowered, "hostname") { var a, b := InsideIsPart(lowered, "hostname"); }
    }
    RedactKeepsKeys(lower, fields, i);
  }

  /** What stands under a key without a secret word is not masked but looked into, and so is what stands under a key
      to keep. */
  lemma OtherKeysAreKept(lower: string -> string, fields: seq<Field>, i: nat)
    requires i < |fields|
    requires fields[i].key in PRESERVE_KEYS
             || (fields[i].key !in FORBIDDEN_KEYS
                 && forall word, a, b :: word in FORBIDDEN_KEYS ==> lower(fields[i].key) != a + word + b)
    ensures RedactFields(lower, fields)[i] == Field(fields[i].key, Redact(lower, fields[i].value))
  {
    var lowered := lower(fields[i].key);
    if fields[i].key !in PRESERVE_KEYS {
      forall k | 0 <= k < |FORBIDDEN_KEYS| ensures !Contains(lowered, FORBIDDEN_KEYS[k]) {
        if Contains(lowered, FORBIDDEN_KEYS[k]) { var a, b := InsideIsPart(lowered, FORBIDDEN_KEYS[k]); }
      }
    }
    RedactKeepsKeys(lower, fields, i);
  }

  // ------------------------------------------------- truncation keeps the mask

  const MASK := "[REDACTED]"

  /** The mask, or what a cut leaves of it. */
  ghost const IsMask := (v: Json) => v == REDACTED || exists n :: v == CutMask(n)

  function CutMask(n: int): Json { Str(Prefix(MASK, n) + "…") }

  predicate PlainMarkers(lower: string -> string) {
    !IsSecretKey(lower, "_truncated") && !IsSecretKey(lower, "_original_size")
  }

  lemma {:induction false} MaskedWeaker(lower: string -> string, j: Json)
    requires Masked(lower, IsRedacted, j)
    ensures Masked(lower, IsMask, j)
    decreases j, 1
  {
    match j
    case Object(fields) => MaskedFieldsWeaker(lower, fields);
    case List(items) => MaskedItemsWeaker(lower, items);
    case _ =>
  }

  lemma {:induction false} MaskedItemsWeaker(lower: string -> string, items: seq<Json>)
    requires MaskedItems(lower, IsRedacted, items)
    ensures MaskedItems(lower, IsMask, items)
    decreases items, 0
  {
    if items != [] {
      MaskedWeaker(lower, items[0]);
      MaskedItemsWeaker(lower, items[1..]);
    }
  }

  lemma {:induction false} MaskedFieldsWeaker(lower: string -> string, fields: seq<Field>)
    requires MaskedFields(lower, IsRedacted, fields)
    ensures MaskedFields(lower, IsMask, fields)
    decreases fields, 0
  {
    if fields != [] {
      if !IsSecretKey(lower, fields[0].key) { MaskedWeaker(lower, fields[0].value); }
      MaskedFieldsWeaker(lower, fields[1..]);
    }
  }

  lemma {:induction false} MaskedItemsAppend(lower: string -> string, a: seq<Json>, b: seq<Json>)
    ensures MaskedItems(lower, IsMask, a + b) <==> MaskedItems(lower, IsMask, a) && MaskedItems(lower, IsMask, b)
    decreases |a|
  {
    if a == [] {
      NothingMore(b, a);
    } else {
      assert (a + b)[1..] == a[1..] + b;
      MaskedItemsAppend(lower, a[1..], b);
    }
  }

  lemma {:induction false} MaskedFieldsAppend(lower: string -> string, a: seq<Field>, b: seq<Field>)
    ensures MaskedFields(lower, IsMask, a + b) <==> MaskedFields(lower, IsMask, a) && MaskedFields(lower, IsMask, b)
    decreases |a|
  {
    if a == [] {
      NothingMore(b, a);
    } else {
      assert (a + b)[1..] == a[1..] + b;
      MaskedFieldsAppend(lower, a[1..], b);
    }
  }

  lemma MaskedOneField(lower: string -> string, f: Field)
    ensures MaskedFields(lower, IsMask, [f]) == MaskedField(lower, IsMask, f)
  {
    assert [f][1..] == [];
  }

  lemma MarkersMasked(lower: string -> string, size: nat)
    requires PlainMarkers(lower)
    ensures MaskedFields(lower, IsMask, Markers(size))
  {
    var m := Markers(size);
    MaskedOneField(lower, m[1]);
    assert m[1..] == [m[1]];
  }

  lemma CutListMasked(lower: string -> string, items: seq<Json>, n: nat)
    requires n <= |items| && MaskedItems(lower, IsMask, items)
    ensures MaskedItems(lower, IsMask, items[..n] + [Str("…(truncated)")])
  {
    assert items == items[..n] + items[n..];
    MaskedItemsAppend(lower, items[..n], items[n..]);
    MaskedItemsAppend(lower, items[..n], [Str("…(truncated)")]);
    assert [Str("…(truncated)")][1..] == [];
  }

  /** Cutting a redacted value leaves no secret: at every depth a secret key holds the mask or a piece
      of it. */
  lemma {:induction false} TruncationKeepsMask(lower: string -> string, j: Json, max: int)
    requires PlainMarkers(lower) && Masked(lower, IsRedacted, j)
    ensures Masked(lower, IsMask, Truncate(j, max))
    decreases j, 1
  {
    MaskedWeaker(lower, j);
    if |Print(j)| > max {
      match j
      case Object(fields) =>
        MarkersMasked(lower, |Print(j)|);
        AddedKeepMask(lower, Markers(|Print(j)|), fields, max);
      case List(items) =>
        MaskedItemsWeaker(lower, items);
        if items != [] { CutListMasked(lower, items, if |items| <= 5 then |items| else 5); }
      case _ =>
    }
  }

  lemma {:induction false} AddedKeepMask(lower: string -> string, acc: seq<Field>, fields: seq<Field>, max: int)
    requires PlainMarkers(lower) && MaskedFields(lower, IsMask, acc) && MaskedFields(lower, IsRedacted, fields)
    ensures MaskedFields(lower, IsMask, AddWhileFits(acc, fields, max))
    decreases fields, 0
  {
    if fields != [] {
      var next := acc + [Shrunk(fields[0], max / 2)];
      if Hidden(fields[0].key) {
        AddedKeepMask(lower, acc, fields[1..], max);
      } else if |Print(Object(next))| <= max {
        CutFieldMasked(lower, fields[0], max / 2);
        OneMoreMasked(lower, acc, Shrunk(fields[0], max / 2));
        AddedKeepMask(lower, next, fields[1..], max);
        assert AddWhileFits(acc, fields, max) == AddWhileFits(next, fields[1..], max);
      }
    }
  }

  lemma OneMoreMasked(lower: string -> string, acc: seq<Field>, f: Field)
    requires MaskedFields(lower, IsMask, acc) && MaskedField(lower, IsMask, f)
    ensures MaskedFields(lower, IsMask, acc + [f])
  {
    MaskedOneField(lower, f);
    MaskedFieldsAppend(lower, acc, [f]);
  }

  lemma {:induction false} CutFieldMasked(lower: string -> string, f: Field, max: int)
    requires PlainMarkers(lower) && MaskedField(lower, IsRedacted, f)
    ensures MaskedField(lower, IsMask, Shrunk(f, max))
    decreases f, 0
  {
    if IsSecretKey(lower, f.key) {
      assert Truncate(f.value, max) == REDACTED || Truncate(f.value, max) == CutMask(max);
    } else {
      TruncationKeepsMask(lower, f.value, max);
    }
  }

  function Shrunk(f: Field, max: int): Field { Field(f.key, Truncate(f.value, max)) }

  /** A string or a list that is cut starts as it did: with `max` characters, or with five items. */
  lemma CutKeepsStart(j: Json, max: nat)
    requires |Print(j)| > max
    ensures j.Str? && max <= |j.s| ==>
              Truncate(j, max).Str? && j.s[..max] <= Truncate(j, max).s && |Truncate(j, max).s| == max + 1
    ensures j.List? && |j.items| > 5 ==>
              Truncate(j, max).List? && j.items[..5] <= Truncate(j, max).items && |Truncate(j, max).items| == 6
    ensures j.List? && 0 < |j.items| <= 5 ==>
              Truncate(j, max).List? && j.items <= Truncate(j, max).items && |Truncate(j, max).items| == |j.items| + 1
  {
    if j.List? && 0 < |j.items| <= 5 { assert j.items[..|j.items|] == j.items; }
  }

  // -------------------------------------------------------- the size bound

  function VisibleFields(fields: seq<Field>): seq<Field> {
    Filter(fields, (f: Field) => f.key == "" || f.key[0] != '_')
  }

  /** The first `n` visible fields, cut. */
  function FirstCut(fields: seq<Field>, n: nat, max: int): seq<Field>
    requires n <= |VisibleFields(fields)|
  {
    Map(VisibleFields(fields)[..n], (f: Field) => Shrunk(f, max))
  }

  lemma VisibleHead(fields: seq<Field>)
    requires fields != []
    ensures VisibleFields(fields) == if Hidden(fields[0].key) then VisibleFields(fields[1..])
                                     else [fields[0]] + VisibleFields(fields[1..])
  {
    NothingMore(VisibleFields(fields[1..]), []);
  }

  lemma FirstCutHead(fields: seq<Field>, m: nat, max: int)
    requires fields != [] && !Hidden(fields[0].key) && m <= |VisibleFields(fields[1..])|
    ensures m + 1 <= |VisibleFields(fields)|
    ensures FirstCut(fields, m + 1, max) == [Shrunk(fields[0], max)] + FirstCut(fields[1..], m, max)
  {
    VisibleHead(fields);
    var rest := VisibleFields(fields[1..]);
    assert ([fields[0]] + rest)[..m + 1] == [fields[0]] + rest[..m];
    assert ([fields[0]] + rest[..m])[1..] == rest[..m];
  }

  /** The fields kept are the first `n` visible ones, each cut to half the budget, and `n` is as large as
      it can be: all of them, or one more would not fit. */
  lemma {:induction false} KeepsLongestPrefix(acc: seq<Field>, fields: seq<Field>, max: int) returns (n: nat)
    ensures n <= |VisibleFields(fields)|
    ensures AddWhileFits(acc, fields, max) == acc + FirstCut(fields, n, max / 2)
    ensures n < |VisibleFields(fields)| ==>
      |Print(Object(AddWhileFits(acc, fields, max) + [Shrunk(VisibleFields(fields)[n], max / 2)]))| > max
    decreases |fields|
  {
    n := 0;
    NothingMore(acc, FirstCut(fields, 0, max / 2));
    if fields != [] {
      VisibleHead(fields);
      var f := Shrunk(fields[0], max / 2);
      if Hidden(fields[0].key) {
        n := KeepsLongestPrefix(acc, fields[1..], max);
      } else if |Print(Object(acc + [f]))| <= max {
        var m := KeepsLongestPrefix(acc + [f], fields[1..], max);
        n := m + 1;
        FirstCutHead(fields, m, max / 2);
        Associative(acc, [f], FirstCut(fields[1..], m, max / 2));
      }
    }
  }

  lemma {:induction false} AddWhileFitsBound(acc: seq<Field>, fields: seq<Field>, max: int)
    ensures AddWhileFits(acc, fields, max) == acc || |Print(Object(AddWhileFits(acc, fields, max)))| <= max
    decreases |fields|
  {
    if fields != [] {
      AddWhileFitsBound(acc, fields[1..], max);
      AddWhileFitsBound(acc + [Field(fields[0].key, Truncate(fields[0].value, max / 2))], fields[1..], max);
    }
  }

  lemma {:induction false} PrintLonger(a: seq<Field>, f: Field)
    ensures |PrintFields(a + [f])| >= |PrintFields(a)|
    decreases |a|
  {
    if a != [] {
      assert (a + [f])[1..] == a[1..] + [f];
      PrintLonger(a[1..], f);
    }
  }

  lemma {:induction false} AddWhileFitsLonger(acc: seq<Field>, fields: seq<Field>, max: int)
    ensures |PrintFields(AddWhileFits(acc, fields, max))| >= |PrintFields(acc)|
    decreases |fields|
  {
    if fields != [] {
      var f := Field(fields[0].key, Truncate(fields[0].value, max / 2));
      PrintLonger(acc, f);
      AddWhileFitsLonger(acc, fields[1..], max);
      AddWhileFitsLonger(acc + [f], fields[1..], max);
    }
  }

  predicate Letters(s: string) { forall i :: 0 <= i < |s| ==> 'a' <= s[i] <= 'z' || s[i] == '_' }

  lemma {:induction false} LettersPrintAsThey(s: string)
    requires Letters(s)
    ensures EscapeAll(s) == s
  {
    if s != "" {
      LettersPrintAsThey(s[1..]);
      HeadTail(s);
    }
  }

  lemma QuotedLetters(s: string)
    requires Letters(s)
    ensures |Quote(s)| == |s| + 2
  {
    LettersPrintAsThey(s);
  }

  /** The keys as variables: on the texts themselves the verifier would compute. */
  lemma MarkerKeys(a: string, b: string)
    requires a == "_truncated" && b == "_original_size"
    ensures |Quote(a)| == 12 && |Quote(b)| == 16
  {
    QuotedLetters(a);
    QuotedLetters(b);
  }

  lemma TwoFieldsSize(a: Field, b: Field)
    ensures |Print(Object([a, b]))| == |Quote(a.key)| + |Print(a.value)| + |Quote(b.key)| + |Print(b.value)| + 8
  {
    assert [b][1..] == [];
    assert |PrintFields([b])| == |Quote(b.key)| + |Print(b.value)| + 2;
    assert [a, b][1..] == [b];
  }

  /** The two marker fields print as 40 characters and the digits of the size. */
  lemma MarkersSize(size: nat)
    ensures |Print(Object(Markers(size)))| == 40 + |Decimal(size)|
  {
    MarkerKeys(Markers(size)[0].key, Markers(size)[1].key);
    TwoFieldsSize(Markers(size)[0], Markers(size)[1]);
  }

  /** A cut object prints within the budget exactly when its two marker fields alone do; otherwise it holds
      nothing but the markers. */
  lemma CutObjectFits(fields: seq<Field>, max: int)
    requires |Print(Object(fields))| > max
    ensures var r, size := Truncate(Object(fields), max), |Print(Object(fields))|;
      && r.Object?
      && (|Print(r)| <= max <==> 40 + |Decimal(size)| <= max)
      && (|Print(r)| <= max || r.fields == Markers(size))
  {
    var markers := Markers(|Print(Object(fields))|);
    AddWhileFitsBound(markers, fields, max);
    AddWhileFitsLonger(markers, fields, max);
    MarkersSize(|Print(Object(fields))|);
  }

  /** An object of 10 characters that a budget of 5 turns into one of 42. */
  lemma SmallBudgetOverflows()
    ensures var j := Object([Field("a", Str("b"))]); |Print(j)| == 10 && |Print(Truncate(j, 5))| == 42
  {
    var fields := [Field("a", Str("b"))];
    LettersPrintAsThey("a");
    LettersPrintAsThey("b");
    assert fields[1..] == [];
    assert |Print(Object(fields))| == 10;
    assert |Decimal(10)| == 2 by { assert Decimal(1) == ['1']; }
    CutObjectFits(fields, 5);
    MarkersSize(10);
  }

  // ------------------------------------------------- compact_tool_result_content

  /** `parse` is `_try_parse_json` and `scrub` the line-based `_strip_forbidden`. */
  datatype Text = Text(parse: string -> Option<Json>, scrub: string -> string, lower: string -> string)

  method CompactToolResultContent(t: Text, content: string, max: int) returns (out: string)
    ensures content == "" ==> out == ""
    ensures content != "" && t.parse(content).None? ==> out == t.scrub(Prefix(content, max))
    ensures content != "" && t.parse(content).Some? ==>
      out == Print(Truncate(Redact(t.lower, t.parse(content).value), max))
    ensures content != "" && t.parse(content).Some? && t.parse(content).value.Object? ==>
      |out| <= max || exists size :: out == Print(Object(Markers(size)))
  {
    if content == "" { return content; }
    var parsed := t.parse(content);
    if parsed.None? {
      if |content| > max { return t.scrub(Prefix(content, max)); }
      return t.scrub(content);
    }
    var redacted := Redact(t.lower, parsed.value);
    var text := Print(redacted);
    if |text| <= max { return text; }
    if redacted.Object? { CutObjectFits(redacted.fields, max); }
    var truncated := TruncateJson(redacted, max);
    return Print(truncated);
  }
}
