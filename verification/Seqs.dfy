/** Facts about sequences that several modules share. */
module Seqs {
  lemma Associative<T>(a: seq<T>, b: seq<T>, c: seq<T>)
    ensures (a + b) + c == a + (b + c)
  {
  }

  lemma NothingMore<T>(a: seq<T>, b: seq<T>)
    requires b == []
    ensures a + b == a && b + a == a
  {
  }

  lemma TailOfTail<T>(s: seq<T>, i: nat)
    requires i < |s|
    ensures s[i..][0] == s[i] && s[i..][1..] == s[i + 1..]
  {
  }

  lemma DropOfTail<T>(s: seq<T>, i: nat)
    requires i < |s|
    ensures s[1..][i..] == s[i + 1..]
  {
  }

  /** The elements of `s` that satisfy `p`, in order. */
  function Filter<T>(s: seq<T>, p: T -> bool): (t: seq<T>)
    ensures |t| <= |s|
  {
    if s == [] then [] else (if p(s[0]) then [s[0]] else []) + Filter(s[1..], p)
  }

  lemma {:induction false} FilterAppend<T>(a: seq<T>, b: seq<T>, p: T -> bool)
    ensures Filter(a + b, p) == Filter(a, p) + Filter(b, p)
  {
    if a == [] {
      NothingMore(b, a);
      NothingMore(Filter(b, p), Filter(a, p));
    } else {
      assert (a + b)[1..] == a[1..] + b;
      FilterAppend(a[1..], b, p);
      Associative(if p(a[0]) then [a[0]] else [], Filter(a[1..], p), Filter(b, p));
    }
  }

  lemma FilterSnoc<T>(a: seq<T>, x: T, p: T -> bool)
    ensures Filter(a + [x], p) == if p(x) then Filter(a, p) + [x] else Filter(a, p)
  {
    FilterAppend(a, [x], p);
    NothingMore([x], []);
    NothingMore(Filter(a, p), []);
    assert Filter([x], p) == if p(x) then [x] else [] by { assert [x][1..] == []; }
  }

  lemma {:induction false} FilterMember<T>(s: seq<T>, p: T -> bool, x: T)
    ensures x in Filter(s, p) <==> x in s && p(x)
  {
    if s != [] {
      FilterMember(s[1..], p, x);
      assert s == [s[0]] + s[1..];
    }
  }

  lemma {:induction false} FilterAll<T>(s: seq<T>, p: T -> bool)
    requires forall x :: x in s ==> p(x)
    ensures Filter(s, p) == s
  {
    if s != [] {
      FilterAll(s[1..], p);
      HeadTail(s);
    }
  }

  lemma {:induction false} FilterNone<T>(s: seq<T>, p: T -> bool)
    requires forall x :: x in s ==> !p(x)
    ensures Filter(s, p) == []
  {
    if s != [] {
      FilterNone(s[1..], p);
    }
  }

  lemma {:induction false} FilterSame<T>(s: seq<T>, p: T -> bool, q: T -> bool)
    requires forall x :: x in s ==> p(x) == q(x)
    ensures Filter(s, p) == Filter(s, q)
  {
    if s != [] {
      HeadTail(s);
      FilterSame(s[1..], p, q);
    }
  }

  lemma {:induction false} FilterFilter<T>(s: seq<T>, p: T -> bool, q: T -> bool, both: T -> bool)
    requires forall x :: x in s ==> (both(x) <==> p(x) && q(x))
    ensures Filter(Filter(s, p), q) == Filter(s, both)
  {
    if s != [] {
      assert s[0] in s && forall x :: x in s[1..] ==> x in s;
      FilterFilter(s[1..], p, q, both);
      FilterAppend(if p(s[0]) then [s[0]] else [], Filter(s[1..], p), q);
      assert Filter([s[0]], q) == if q(s[0]) then [s[0]] else [] by { assert [s[0]][1..] == []; }
    }
  }

  lemma HeadTail<T>(s: seq<T>)
    requires s != []
    ensures [s[0]] + s[1..] == s
  {
  }

  function Map<A, B>(s: seq<A>, f: A -> B): (t: seq<B>)
    ensures |t| == |s| && forall i :: 0 <= i < |s| ==> t[i] == f(s[i])
  {
    if s == [] then [] else [f(s[0])] + Map(s[1..], f)
  }

  predicate Increasing(places: seq<nat>) { forall a, b :: 0 <= a < b < |places| ==> places[a] < places[b] }

  /** The elements that satisfy `keep` together with what follows them. */
  function KeptBy<T>(s: seq<T>, keep: (T, seq<T>) -> bool): seq<T> {
    if s == [] then [] else (if keep(s[0], s[1..]) then [s[0]] else []) + KeptBy(s[1..], keep)
  }

  /** Their places, counted from `start`. */
  function Places<T>(s: seq<T>, keep: (T, seq<T>) -> bool, start: nat): (places: seq<nat>)
    ensures |places| == |KeptBy(s, keep)|
  {
    if s == [] then [] else (if keep(s[0], s[1..]) then [start] else []) + Places(s[1..], keep, start + 1)
  }

  lemma {:induction false} PlacesExact<T>(s: seq<T>, keep: (T, seq<T>) -> bool, start: nat, i: nat)
    ensures i in Places(s, keep, start) <==> start <= i < start + |s| && keep(s[i - start], s[i - start + 1..])
  {
    if s != [] {
      PlacesExact(s[1..], keep, start + 1, i);
      if start < i < start + |s| { DropOfTail(s, i - start); }
    }
  }

  lemma IncreasingCons(first: nat, rest: seq<nat>)
    requires Increasing(rest) && forall i :: i in rest ==> first < i
    ensures Increasing([first] + rest)
  {
    forall b | 0 < b < |[first] + rest| ensures first < ([first] + rest)[b] { assert rest[b - 1] in rest; }
  }

  lemma {:induction false} PlacesIncrease<T>(s: seq<T>, keep: (T, seq<T>) -> bool, start: nat)
    ensures Increasing(Places(s, keep, start))
  {
    if s != [] {
      var rest := Places(s[1..], keep, start + 1);
      PlacesIncrease(s[1..], keep, start + 1);
      NothingMore(rest, []);
      forall i | i in rest ensures start < i { PlacesExact(s[1..], keep, start + 1, i); }
      IncreasingCons(start, rest);
    }
  }

  lemma {:induction false} PlacesHold<T>(s: seq<T>, keep: (T, seq<T>) -> bool, start: nat, k: nat)
    requires k < |KeptBy(s, keep)|
    ensures var i := Places(s, keep, start)[k] - start; 0 <= i < |s| && s[i] == KeptBy(s, keep)[k]
  {
    var kept, places := KeptBy(s[1..], keep), Places(s[1..], keep, start + 1);
    if keep(s[0], s[1..]) {
      assert KeptBy(s, keep) == [s[0]] + kept && Places(s, keep, start) == [start] + places;
      if k > 0 { PlacesHold(s[1..], keep, start + 1, k - 1); }
    } else {
      NothingMore(kept, []);
      NothingMore(places, []);
      PlacesHold(s[1..], keep, start + 1, k);
    }
  }
}
