/** Fitting a prompt context into its character budget: prompts/renderer.py. */
module PromptBudget {
  import opened Seqs

  /** A context value; a dict is given by its keys and its values, in order. */
  datatype Value =
    | Dict(keys: seq<string>, children: seq<Value>)
    | List(children: seq<Value>)
    | Tuple(children: seq<Value>)
    | Str(s: string)
    | Leaf(text: string)

  // ---------------------------------------------------------- bounding strings

  function Cut(s: string, cap: nat): string { if |s| <= cap then s else s[..cap] + "..." }

  function BoundStrings(v: Value, cap: nat): Value
    decreases v, 1
  {
    match v
    case Dict(keys, children) => Dict(keys, BoundAll(children, cap))
    case List(children) => List(BoundAll(children, cap))
    case Tuple(children) => Tuple(BoundAll(children, cap))
    case Str(s) => Str(Cut(s, cap))
    case Leaf(_) => v
  }

  function BoundAll(vs: seq<Value>, cap: nat): (out: seq<Value>)
    ensures |out| == |vs|
    decreases vs, 0
  {
    if vs == [] then [] else [BoundStrings(vs[0], cap)] + BoundAll(vs[1..], cap)
  }

  lemma CutTwice(s: string, cap: nat)
    ensures Cut(Cut(s, cap), cap) == Cut(s, cap)
  {
    if |s| > cap { assert (s[..cap] + "...")[..cap] == s[..cap]; }
  }

  /** A cut string starts with the first `cap` characters of the original; a short one stays. */
  lemma CutKeepsStart(s: string, cap: nat)
    ensures |s| <= cap ==> Cut(s, cap) == s
    ensures |s| > cap ==> s[..cap] <= Cut(s, cap) && |Cut(s, cap)| == cap + 3
  {
  }

  /** Bounding again with the same cap changes nothing. */
  lemma {:induction false} BoundIdempotent(v: Value, cap: nat)
    ensures BoundStrings(BoundStrings(v, cap), cap) == BoundStrings(v, cap)
    decreases v, 1
  {
    match v
    case Dict(_, children) => BoundAllIdempotent(children, cap);
    case List(children) => BoundAllIdempotent(children, cap);
    case Tuple(children) => BoundAllIdempotent(children, cap);
    case Str(s) => CutTwice(s, cap);
    case Leaf(_) =>
  }

  lemma {:induction false} BoundAllIdempotent(vs: seq<Value>, cap: nat)
    ensures BoundAll(BoundAll(vs, cap), cap) == BoundAll(vs, cap)
    decreases vs, 0
  {
    if vs != [] {
      BoundIdempotent(vs[0], cap);
      BoundAllIdempotent(vs[1..], cap);
      assert BoundAll(vs, cap)[1..] == BoundAll(vs[1..], cap);
    }
  }

  /** No string of the value is longer than `n`. */
  predicate Within(v: Value, n: nat)
    decreases v, 1
  {
    match v
    case Dict(_, children) => AllWithin(children, n)
    case List(children) => AllWithin(children, n)
    case Tuple(children) => AllWithin(children, n)
    case Str(s) => |s| <= n
    case Leaf(_) => true
  }

  predicate AllWithin(vs: seq<Value>, n: nat)
    decreases vs, 0
  {
    vs == [] || (Within(vs[0], n) && AllWithin(vs[1..], n))
  }

  /** Every string, also inside tuples, is at most the cap and its three dots long. */
  lemma {:induction false} BoundedWithin(v: Value, cap: nat)
    ensures Within(BoundStrings(v, cap), cap + 3)
    decreases v, 1
  {
    if v.Dict? || v.List? || v.Tuple? { AllBoundedWithin(v.children, cap); }
  }

  lemma {:induction false} AllBoundedWithin(vs: seq<Value>, cap: nat)
    ensures AllWithin(BoundAll(vs, cap), cap + 3)
    decreases vs, 0
  {
    if vs != [] {
      BoundedWithin(vs[0], cap);
      AllBoundedWithin(vs[1..], cap);
      assert BoundAll(vs, cap)[1..] == BoundAll(vs[1..], cap);
    }
  }

  // --------------------------------------------------------------- list items

  /** The list items that dropping can reach: through dicts and lists, not into tuples. */
  function Items(v: Value): nat
    decreases v, 1
  {
    match v
    case Dict(_, children) => AllItems(children)
    case List(children) => |children| + AllItems(children)
    case Tuple(_) => 0
    case Str(_) => 0
    case Leaf(_) => 0
  }

  function AllItems(vs: seq<Value>): nat
    decreases vs, 0
  {
    if vs == [] then 0 else Items(vs[0]) + AllItems(vs[1..])
  }

  lemma {:induction false} AllItemsAppend(a: seq<Value>, b: seq<Value>)
    ensures AllItems(a + b) == AllItems(a) + AllItems(b)
  {
    if a == [] {
      NothingMore(b, a);
    } else {
      assert (a + b)[0] == a[0] && (a + b)[1..] == a[1..] + b;
      AllItemsAppend(a[1..], b);
    }
  }

  lemma AllItemsSplit(vs: seq<Value>, i: nat)
    requires i < |vs|
    ensures AllItems(vs) == AllItems(vs[..i]) + Items(vs[i]) + AllItems(vs[i + 1..])
    ensures AllItems(vs[i..]) == Items(vs[i]) + AllItems(vs[i + 1..])
  {
    TailOfTail(vs, i);
    assert vs == vs[..i] + vs[i..];
    AllItemsAppend(vs[..i], vs[i..]);
  }

  // ------------------------------------------------------------ dropping one

  /** `after` is `before` without its last reachable list item: everything else is where it was. */
  predicate LastDropped(before: Value, after: Value)
    decreases before, 1
  {
    match before
    case Dict(keys, children) => after.Dict? && after.keys == keys && LastDroppedIn(children, after.children)
    case List(children) =>
      && after.List?
      && (if AllItems(children) > 0 then LastDroppedIn(children, after.children)
          else children != [] && after.children == children[..|children| - 1])
    case Tuple(_) => false
    case Str(_) => false
    case Leaf(_) => false
  }

  /** One child has lost its last item; the children before it are the same, those after it have none. */
  predicate LastDroppedIn(before: seq<Value>, after: seq<Value>)
    decreases before, 0
  {
    && before != [] && |after| == |before|
    && (if AllItems(before[1..]) > 0 then after[0] == before[0] && LastDroppedIn(before[1..], after[1..])
        else LastDropped(before[0], after[0]) && after[1..] == before[1..])
  }

  /** Dropping takes exactly one list item away. */
  lemma {:induction false} DropsOneItem(before: Value, after: Value)
    requires LastDropped(before, after)
    ensures Items(after) == Items(before) - 1
    decreases before, 1
  {
    if before.Dict? {
      DropsOneIn(before.children, after.children);
    } else if AllItems(before.children) > 0 {
      DropsOneIn(before.children, after.children);
    } else {
      var n := |before.children| - 1;
      assert before.children == before.children[..n] + [before.children[n]];
      AllItemsAppend(before.children[..n], [before.children[n]]);
    }
  }

  lemma {:induction false} DropsOneIn(before: seq<Value>, after: seq<Value>)
    requires LastDroppedIn(before, after)
    ensures AllItems(after) == AllItems(before) - 1
    decreases before, 0
  {
    if AllItems(before[1..]) > 0 { DropsOneIn(before[1..], after[1..]); } else { DropsOneItem(before[0], after[0]); }
  }

  /** There is only one way to drop the last item. */
  lemma {:induction false} DropIsUnique(before: Value, a: Value, b: Value)
    requires LastDropped(before, a) && LastDropped(before, b)
    ensures a == b
    decreases before, 1
  {
    if before.Dict? || AllItems(before.children) > 0 { DropInIsUnique(before.children, a.children, b.children); }
  }

  lemma {:induction false} DropInIsUnique(before: seq<Value>, a: seq<Value>, b: seq<Value>)
    requires LastDroppedIn(before, a) && LastDroppedIn(before, b)
    ensures a == b
    decreases before, 0
  {
    if AllItems(before[1..]) > 0 {
      DropInIsUnique(before[1..], a[1..], b[1..]);
    } else {
      DropIsUnique(before[0], a[0], b[0]);
    }
    HeadTail(a);
    HeadTail(b);
  }

  /** The last child that has an item decides. */
  lemma {:induction false} DropAt(before: seq<Value>, i: nat, child: Value)
    requires i < |before| && LastDropped(before[i], child) && AllItems(before[i + 1..]) == 0
    ensures LastDroppedIn(before, before[i := child])
    decreases before
  {
    var after := before[i := child];
    if i == 0 {
      assert after[1..] == before[1..];
    } else {
      DropOfTail(before, i);
      assert before[1..][i - 1] == before[i];
      DropAt(before[1..], i - 1, child);
      assert after[1..] == before[1..][i - 1 := child];
      DropsOneItem(before[i], child);
      AllItemsSplit(before[1..], i - 1);
    }
  }

  // ------------------------------------------------------------- the whole fit

  /** `after` is reached from `before` by `n` drops, each from a value that is still too large. */
  ghost predicate DroppedTimes(tooLarge: Value -> bool, before: Value, n: nat, after: Value)
    decreases n
  {
    if n == 0 then after == before
    else tooLarge(before) && exists mid :: LastDropped(before, mid) && DroppedTimes(tooLarge, mid, n - 1, after)
  }

  lemma {:induction false} DropOnceMore(tooLarge: Value -> bool, before: Value, n: nat, mid: Value, after: Value)
    requires DroppedTimes(tooLarge, before, n, mid) && tooLarge(mid) && LastDropped(mid, after)
    ensures DroppedTimes(tooLarge, before, n + 1, after)
    decreases n
  {
    if n == 0 {
      assert DroppedTimes(tooLarge, after, 0, after);
    } else {
      var first :| LastDropped(before, first) && DroppedTimes(tooLarge, first, n - 1, mid);
      DropOnceMore(tooLarge, first, n - 1, mid, after);
    }
  }

  /** What shrinking may do: strings are cut, lists lose items at their end, and nothing else changes; dicts
      keep all their keys. */
  predicate Shrunk(v: Value, w: Value)
    decreases v, 1
  {
    match v
    case Dict(keys, children) =>
      w.Dict? && w.keys == keys && |w.children| == |children| && AllShrunk(children, w.children)
    case List(children) => w.List? && AllShrunk(children, w.children)
    case Tuple(children) => w.Tuple? && |w.children| == |children| && AllShrunk(children, w.children)
    case Str(s) => w.Str? && (w.s == s || exists cap :: 0 <= cap < |s| && w.s == s[..cap] + "...")
    case Leaf(_) => w == v
  }

  predicate AllShrunk(vs: seq<Value>, ws: seq<Value>)
    decreases vs, 0
  {
    ws == [] || (vs != [] && Shrunk(vs[0], ws[0]) && AllShrunk(vs[1..], ws[1..]))
  }

  lemma {:induction false} ShrunkSame(v: Value)
    ensures Shrunk(v, v)
    decreases v, 1
  {
    if v.Dict? || v.List? || v.Tuple? { AllShrunkSame(v.children); }
  }

  lemma {:induction false} AllShrunkSame(vs: seq<Value>)
    ensures AllShrunk(vs, vs)
    decreases vs, 0
  {
    if vs != [] {
      ShrunkSame(vs[0]);
      AllShrunkSame(vs[1..]);
    }
  }

  lemma {:induction false} BoundShrinks(v: Value, cap: nat)
    ensures Shrunk(v, BoundStrings(v, cap))
    decreases v, 1
  {
    if v.Dict? || v.List? || v.Tuple? { BoundAllShrinks(v.children, cap); }
  }

  lemma {:induction false} BoundAllShrinks(vs: seq<Value>, cap: nat)
    ensures AllShrunk(vs, BoundAll(vs, cap))
    decreases vs, 0
  {
    if vs != [] {
      BoundShrinks(vs[0], cap);
      BoundAllShrinks(vs[1..], cap);
      assert BoundAll(vs, cap)[1..] == BoundAll(vs[1..], cap);
    }
  }

  lemma {:induction false} DropShrinks(v: Value, w: Value, x: Value)
    requires Shrunk(v, w) && LastDropped(w, x)
    ensures Shrunk(v, x)
    decreases v, 1
  {
    if w.List? && AllItems(w.children) == 0 {
      PrefixShrunk(v.children, w.children);
    } else {
      DropInShrinks(v.children, w.children, x.children);
    }
  }

  lemma {:induction false} DropInShrinks(vs: seq<Value>, ws: seq<Value>, xs: seq<Value>)
    requires AllShrunk(vs, ws) && LastDroppedIn(ws, xs)
    ensures AllShrunk(vs, xs) && |xs| == |ws|
    decreases vs, 0
  {
    if AllItems(ws[1..]) > 0 { DropInShrinks(vs[1..], ws[1..], xs[1..]); } else { DropShrinks(vs[0], ws[0], xs[0]); }
  }

  lemma {:induction false} PrefixShrunk(vs: seq<Value>, ws: seq<Value>)
    requires AllShrunk(vs, ws) && ws != []
    ensures AllShrunk(vs, ws[..|ws| - 1])
    decreases vs
  {
    if |ws| > 1 {
      PrefixShrunk(vs[1..], ws[1..]);
      assert ws[..|ws| - 1][1..] == ws[1..][..|ws[1..]| - 1];
    }
  }

  const CAPS: seq<nat> := [1000, 500, 250, 125]

  /** No cap of the first `n` is small enough. */
  ghost predicate NoneFits(tooLarge: Value -> bool, value: Value, n: nat)
    requires n <= |CAPS|
  {
    tooLarge(value) && forall k :: 0 <= k < n ==> tooLarge(BoundStrings(value, CAPS[k]))
  }

  ghost predicate FitsAt(tooLarge: Value -> bool, value: Value, bounded: Value, n: nat) {
    n < |CAPS| && bounded == BoundStrings(value, CAPS[n]) && !tooLarge(bounded) && NoneFits(tooLarge, value, n)
  }

  /** What the fit returns: the value itself if it fits; else with strings cut by the largest cap that makes it
      fit; else with strings cut to 80 characters and as few of the last list items dropped as needed. */
  ghost predicate Fitted(tooLarge: Value -> bool, value: Value, bounded: Value) {
    || (bounded == value && !tooLarge(value))
    || (exists n: nat :: FitsAt(tooLarge, value, bounded, n))
    || (NoneFits(tooLarge, value, |CAPS|)
        && exists n: nat :: DroppedTimes(tooLarge, BoundStrings(value, 80), n, bounded))
  }

  ghost function TooLarge(size: Value -> nat, maxChars: nat): Value -> bool { (v: Value) => size(v) > maxChars }
}
