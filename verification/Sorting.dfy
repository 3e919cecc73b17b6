/** Counting, permutations and stable sorting of sequences. */
module Sorting {
  import opened Seqs

  function Count<T>(s: seq<T>, p: T -> bool): nat { |Filter(s, p)| }

  function Without<T>(s: seq<T>, i: nat): seq<T>
    requires i < |s|
  {
    s[..i] + s[i + 1..]
  }

  lemma CountAppend<T>(a: seq<T>, b: seq<T>, p: T -> bool)
    ensures Count(a + b, p) == Count(a, p) + Count(b, p)
  {
    FilterAppend(a, b, p);
  }

  lemma SplitAt<T>(s: seq<T>, i: nat)
    requires i < |s|
    ensures s[..i + 1] == s[..i] + [s[i]] && s == s[..i + 1] + s[i + 1..]
  {
  }

  lemma CountWithout<T>(s: seq<T>, i: nat, p: T -> bool)
    requires i < |s|
    ensures Count(s, p) == Count(Without(s, i), p) + if p(s[i]) then 1 else 0
  {
    SplitAt(s, i);
    FilterSnoc(s[..i], s[i], p);
    CountAppend(s[..i + 1], s[i + 1..], p);
    CountAppend(s[..i], s[i + 1..], p);
  }

  lemma MultisetWithout<T>(s: seq<T>, i: nat)
    requires i < |s|
    ensures multiset(s) == multiset(Without(s, i)) + multiset{s[i]}
  {
    SplitAt(s, i);
  }

  lemma Cancel<T>(a: multiset<T>, b: multiset<T>, x: T)
    requires a + multiset{x} == b + multiset{x}
    ensures a == b
  {
    assert a == (a + multiset{x}) - multiset{x};
    assert b == (b + multiset{x}) - multiset{x};
  }

  lemma FindIn<T>(s: seq<T>, x: T) returns (i: nat)
    requires x in multiset(s)
    ensures i < |s| && s[i] == x
  {
    i :| 0 <= i < |s| && s[i] == x;
  }

  lemma {:induction false} CountPermuted<T>(a: seq<T>, b: seq<T>, p: T -> bool)
    requires multiset(a) == multiset(b)
    ensures Count(a, p) == Count(b, p)
    decreases |a|
  {
    if a == [] {
      assert |multiset(b)| == 0;
    } else {
      MultisetWithout(a, 0);
      var i := FindIn(b, a[0]);
      MultisetWithout(b, i);
      Cancel(multiset(Without(a, 0)), multiset(Without(b, i)), a[0]);
      CountWithout(a, 0, p);
      CountWithout(b, i, p);
      CountPermuted(Without(a, 0), Without(b, i), p);
    }
  }

  // ------------------------------------------------------------ no repetition

  predicate NoRepeat<T(==)>(s: seq<T>) { forall i, j :: 0 <= i < j < |s| ==> s[i] != s[j] }

  lemma NoRepeatCons<T>(x: T, rest: seq<T>)
    requires NoRepeat(rest) && x !in rest
    ensures NoRepeat([x] + rest)
  {
  }

  lemma NoRepeatSnoc<T>(s: seq<T>, x: T)
    requires NoRepeat(s) && x !in s
    ensures NoRepeat(s + [x])
  {
  }

  lemma NoRepeatAppend<T>(a: seq<T>, b: seq<T>)
    requires NoRepeat(a) && NoRepeat(b) && forall x :: x in b ==> x !in a
    ensures NoRepeat(a + b)
  {
    assert forall j :: |a| <= j < |a + b| ==> (a + b)[j] == b[j - |a|] && b[j - |a|] in b;
  }

  /** Any sublist of a list without repetition is one. */
  lemma {:induction false} FilterNoRepeat<T>(s: seq<T>, p: T -> bool)
    requires NoRepeat(s)
    ensures NoRepeat(Filter(s, p))
  {
    if s != [] {
      var rest := Filter(s[1..], p);
      FilterNoRepeat(s[1..], p);
      FilterMember(s[1..], p, s[0]);
      NothingMore(rest, []);
      assert s[0] !in s[1..];
      NoRepeatCons(s[0], rest);
    }
  }

  lemma {:induction false} OneEach<T(!new)>(s: seq<T>)
    requires NoRepeat(s)
    ensures forall x :: multiset(s)[x] <= 1
  {
    if s != [] {
      OneEach(s[1..]);
      HeadTail(s);
      assert s[0] !in s[1..];
    }
  }

  lemma RepeatCounts<T>(s: seq<T>, i: nat, j: nat)
    requires i < j < |s|
    ensures s[i] == s[j] ==> multiset(s)[s[i]] >= 2
  {
    assert s == s[..i] + [s[i]] + s[i + 1..j] + [s[j]] + s[j + 1..];
  }

  lemma NoRepeatPermuted<T(!new)>(a: seq<T>, b: seq<T>)
    requires multiset(a) == multiset(b) && NoRepeat(a)
    ensures NoRepeat(b)
  {
    OneEach(a);
    forall i, j | 0 <= i < j < |b| ensures b[i] != b[j] { RepeatCounts(b, i, j); }
  }

  // ------------------------------------------------------------ stable insertion

  function Insert<T>(x: T, s: seq<T>, earlier: (T, T) -> bool): (t: seq<T>)
    ensures |t| == |s| + 1
  {
    if s == [] || !earlier(s[0], x) then [x] + s else [s[0]] + Insert(x, s[1..], earlier)
  }

  /** A stable sort: elements of which neither is earlier keep their order. */
  function Sorted<T>(s: seq<T>, earlier: (T, T) -> bool): (t: seq<T>)
    ensures |t| == |s|
  {
    if s == [] then [] else Insert(s[0], Sorted(s[1..], earlier), earlier)
  }

  predicate Ordered<T>(s: seq<T>, earlier: (T, T) -> bool) {
    forall i, j :: 0 <= i < j < |s| ==> !earlier(s[j], s[i])
  }

  lemma {:induction false} InsertPermutes<T>(x: T, s: seq<T>, earlier: (T, T) -> bool)
    ensures multiset(Insert(x, s, earlier)) == multiset(s) + multiset{x}
  {
    if s != [] && earlier(s[0], x) {
      InsertPermutes(x, s[1..], earlier);
      HeadTail(s);
    }
  }

  lemma {:induction false} SortedPermutes<T>(s: seq<T>, earlier: (T, T) -> bool)
    ensures multiset(Sorted(s, earlier)) == multiset(s)
  {
    if s != [] {
      SortedPermutes(s[1..], earlier);
      InsertPermutes(s[0], Sorted(s[1..], earlier), earlier);
      HeadTail(s);
    }
  }

  /** A strict order in which being no later is transitive. */
  ghost predicate StrictWeak<T(!new)>(earlier: (T, T) -> bool) {
    && (forall a, b :: !(earlier(a, b) && earlier(b, a)))
    && (forall a, b, c :: !earlier(b, a) && !earlier(c, b) ==> !earlier(c, a))
  }

  lemma OrderedCons<T>(x: T, s: seq<T>, earlier: (T, T) -> bool)
    requires Ordered(s, earlier) && forall y :: y in s ==> !earlier(y, x)
    ensures Ordered([x] + s, earlier)
  {
    var t := [x] + s;
    forall i, j | 0 <= i < j < |t| ensures !earlier(t[j], t[i]) {
      assert t[j] == s[j - 1] && s[j - 1] in s;
    }
  }

  lemma {:induction false} InsertOrders<T(!new)>(x: T, s: seq<T>, earlier: (T, T) -> bool)
    requires StrictWeak(earlier) && Ordered(s, earlier)
    ensures Ordered(Insert(x, s, earlier), earlier)
  {
    if s == [] {
    } else if !earlier(s[0], x) {
      forall y | y in s ensures !earlier(y, x) {
        var i :| 0 <= i < |s| && s[i] == y;
        assert i > 0 ==> !earlier(s[i], s[0]);
      }
      OrderedCons(x, s, earlier);
    } else {
      InsertOrders(x, s[1..], earlier);
      InsertPermutes(x, s[1..], earlier);
      forall y | y in Insert(x, s[1..], earlier) ensures !earlier(y, s[0]) {
        assert y in multiset(Insert(x, s[1..], earlier));
        assert y == x || y in s[1..];
      }
      OrderedCons(s[0], Insert(x, s[1..], earlier), earlier);
    }
  }

  lemma {:induction false} SortedIsOrdered<T(!new)>(s: seq<T>, earlier: (T, T) -> bool)
    requires StrictWeak(earlier)
    ensures Ordered(Sorted(s, earlier), earlier)
  {
    if s != [] {
      SortedIsOrdered(s[1..], earlier);
      InsertOrders(s[0], Sorted(s[1..], earlier), earlier);
    }
  }
}
