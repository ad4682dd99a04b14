/** Sorting and counting over sequences.

The detector, the scorer, the service, the analytics job's accumulator and the evaluator sort with library routines
(`sort.Slice`, `sort.Float64s`, `sort.Strings`, `Collections.sort`, `sorted`).  All that they rely on is that the result
is an ordered permutation of the input, which is what `SortBy` promises; when the order is antisymmetric on the elements,
that determines the result. */
module Ordering {

  ghost predicate TotalPreorder<T(!new)>(le: (T, T) -> bool) {
    && (forall a, b :: le(a, b) || le(b, a))
    && (forall a, b, c :: le(a, b) && le(b, c) ==> le(a, c))
  }

  ghost predicate Antisymmetric<T(!new)>(le: (T, T) -> bool) {
    forall a, b :: le(a, b) && le(b, a) ==> a == b
  }

  ghost predicate SortedBy<T>(s: seq<T>, le: (T, T) -> bool) {
    forall i, j :: 0 <= i < j < |s| ==> le(s[i], s[j])
  }

  function Insert<T>(x: T, s: seq<T>, le: (T, T) -> bool): (r: seq<T>)
    ensures multiset(r) == multiset(s) + multiset{x}
  {
    if s == [] then [x]
    else if le(x, s[0]) then [x] + s
    else
      assert s == [s[0]] + s[1..];
      [s[0]] + Insert(x, s[1..], le)
  }

  function SortBy<T>(s: seq<T>, le: (T, T) -> bool): (r: seq<T>)
    ensures multiset(r) == multiset(s)
    ensures |r| == |s|
  {
    if s == [] then []
    else
      assert s == [s[0]] + s[1..];
      var r := Insert(s[0], SortBy(s[1..], le), le);
      SameSize(r, s);
      r
  }

  lemma SameSize<T>(a: seq<T>, b: seq<T>)
    requires multiset(a) == multiset(b)
    ensures |a| == |b|
  {
    assert |multiset(a)| == |a| && |multiset(b)| == |b|;
  }

  lemma SameMembers<T>(a: seq<T>, b: seq<T>)
    requires multiset(a) == multiset(b)
    ensures forall x :: x in a <==> x in b
  {
    forall x ensures x in a <==> x in b {
      assert x in a <==> x in multiset(a);
      assert x in b <==> x in multiset(b);
    }
  }

  lemma {:induction false} InsertSorted<T(!new)>(x: T, s: seq<T>, le: (T, T) -> bool)
    requires TotalPreorder(le) && SortedBy(s, le)
    ensures SortedBy(Insert(x, s, le), le)
  {
    if s == [] || le(x, s[0]) {
    } else {
      var tail := s[1..];
      InsertSorted(x, tail, le);
      var r := Insert(x, tail, le);
      assert le(s[0], x);
      forall i | 0 <= i < |r| ensures le(s[0], r[i]) {
        assert r[i] in multiset(r);
        assert r[i] in multiset(tail) + multiset{x};
        if r[i] != x { assert r[i] in tail; }
      }
    }
  }

  lemma {:induction false} SortBySorted<T(!new)>(s: seq<T>, le: (T, T) -> bool)
    requires TotalPreorder(le)
    ensures SortedBy(SortBy(s, le), le)
  {
    if s != [] {
      SortBySorted(s[1..], le);
      InsertSorted(s[0], SortBy(s[1..], le), le);
    }
  }

  ghost predicate TiesAreEqual<T(!new)>(s: seq<T>, le: (T, T) -> bool) {
    forall x, y :: x in s && y in s && le(x, y) && le(y, x) ==> x == y
  }

  lemma SortedHeads<T(!new)>(a: seq<T>, b: seq<T>, le: (T, T) -> bool)
    requires a != [] && b != [] && a[0] in b && b[0] in a
    requires SortedBy(a, le) && SortedBy(b, le) && TiesAreEqual(a, le)
    ensures a[0] == b[0]
  {
    var i :| 0 <= i < |b| && b[i] == a[0];
    var j :| 0 <= j < |a| && a[j] == b[0];
    if 0 < i && 0 < j {
      assert le(b[0], b[i]) && le(a[0], a[j]);
    }
  }

  /** An ordered permutation is unique when only equal elements tie. */
  lemma {:induction false} SortedUnique<T(!new)>(a: seq<T>, b: seq<T>, le: (T, T) -> bool)
    requires multiset(a) == multiset(b)
    requires SortedBy(a, le) && SortedBy(b, le) && TiesAreEqual(a, le)
    ensures a == b
  {
    SameSize(a, b);
    if a != [] {
      SameMembers(a, b);
      assert a[0] in b && b[0] in a;
      SortedHeads(a, b, le);
      DropHead(a);
      DropHead(b);
      SortedUnique(a[1..], b[1..], le);
    }
  }

  lemma DropHead<T>(a: seq<T>)
    requires a != []
    ensures a == [a[0]] + a[1..]
    ensures multiset(a[1..]) == multiset(a) - multiset{a[0]}
  {
    assert a == [a[0]] + a[1..];
  }

  // ---------------------------------------------------------------- counting

  function Count<T>(s: seq<T>, p: T -> bool): nat {
    if s == [] then 0 else (if p(s[0]) then 1 else 0) + Count(s[1..], p)
  }

  lemma {:induction false} CountConcat<T>(a: seq<T>, b: seq<T>, p: T -> bool)
    ensures Count(a + b, p) == Count(a, p) + Count(b, p)
  {
    if a == [] {
      assert a + b == b;
    } else {
      assert (a + b)[1..] == a[1..] + b;
      CountConcat(a[1..], b, p);
    }
  }

  lemma SplitAt<T>(s: seq<T>, i: nat)
    requires i < |s|
    ensures s == s[..i] + ([s[i]] + s[i + 1..])
    ensures ([s[i]] + s[i + 1..])[1..] == s[i + 1..]
  {
  }

  lemma CountRemove<T>(s: seq<T>, i: nat, p: T -> bool)
    requires i < |s|
    ensures Count(s, p) == (if p(s[i]) then 1 else 0) + Count(s[..i] + s[i + 1..], p)
  {
    var front, back := s[..i], s[i + 1..];
    SplitAt(s, i);
    assert Count([s[i]] + back, p) == (if p(s[i]) then 1 else 0) + Count(back, p);
    hide Count;
    CountConcat(front, [s[i]] + back, p);
    CountConcat(front, back, p);
  }

  lemma RemoveAt<T>(s: seq<T>, i: nat)
    requires i < |s|
    ensures multiset(s[..i] + s[i + 1..]) == multiset(s) - multiset{s[i]}
  {
    assert s == s[..i] + [s[i]] + s[i + 1..];
  }

  lemma {:induction false} CountPermutation<T>(a: seq<T>, b: seq<T>, p: T -> bool)
    requires multiset(a) == multiset(b)
    ensures Count(a, p) == Count(b, p)
  {
    SameSize(a, b);
    if a != [] {
      SameMembers(a, b);
      assert a[0] in b;
      var i :| 0 <= i < |b| && b[i] == a[0];
      RemoveAt(b, i);
      DropHead(a);
      CountPermutation(a[1..], b[..i] + b[i + 1..], p);
      CountRemove(b, i, p);
    }
  }

  lemma {:induction false} CountBounds<T>(s: seq<T>, p: T -> bool)
    ensures Count(s, p) <= |s|
    ensures (forall x :: x in s ==> !p(x)) ==> Count(s, p) == 0
    ensures (forall x :: x in s ==> p(x)) ==> Count(s, p) == |s|
  {
    if s != [] { CountBounds(s[1..], p); }
  }

  /** A predicate that fails from index k on holds of at most k elements. */
  lemma CountAtMost<T>(s: seq<T>, p: T -> bool, k: nat)
    requires k <= |s|
    requires forall i :: k <= i < |s| ==> !p(s[i])
    ensures Count(s, p) <= k
  {
    assert s == s[..k] + s[k..];
    CountConcat(s[..k], s[k..], p);
    CountBounds(s[..k], p);
    CountBounds(s[k..], p);
  }

  /** A predicate that holds up to index k holds of at least k elements. */
  lemma CountAtLeast<T>(s: seq<T>, p: T -> bool, k: nat)
    requires k <= |s|
    requires forall i :: 0 <= i < k ==> p(s[i])
    ensures Count(s, p) >= k
  {
    assert s == s[..k] + s[k..];
    CountConcat(s[..k], s[k..], p);
    CountBounds(s[..k], p);
  }

  lemma {:induction false} CountMonotone<T>(s: seq<T>, p: T -> bool, q: T -> bool)
    requires forall x :: x in s && p(x) ==> q(x)
    ensures Count(s, p) <= Count(s, q)
  {
    if s != [] { CountMonotone(s[1..], p, q); }
  }

  lemma {:induction false} CountAgree<T>(s: seq<T>, p: T -> bool, q: T -> bool)
    requires forall i :: 0 <= i < |s| ==> (p(s[i]) <==> q(s[i]))
    ensures Count(s, p) == Count(s, q)
  {
    if s != [] { CountAgree(s[1..], p, q); }
  }

  // ---------------------------------------------------------------- listings

  function MapSeq<T, R>(s: seq<T>, f: T -> R): (r: seq<R>)
    ensures |r| == |s|
    ensures forall i :: 0 <= i < |s| ==> r[i] == f(s[i])
  {
    seq(|s|, i requires 0 <= i < |s| => f(s[i]))
  }

  lemma MapRemoveAt<T, R>(s: seq<T>, i: nat, f: T -> R)
    requires i < |s|
    ensures multiset(MapSeq(s[..i] + s[i + 1..], f)) == multiset(MapSeq(s, f)) - multiset{f(s[i])}
  {
    var r := MapSeq(s, f);
    assert MapSeq(s[..i] + s[i + 1..], f) == r[..i] + r[i + 1..];
    RemoveAt(r, i);
  }

  lemma AddBack<T>(a: multiset<T>, b: multiset<T>, x: T)
    requires x in a && x in b && a - multiset{x} == b - multiset{x}
    ensures a == b
  {
    assert a == (a - multiset{x}) + multiset{x} && b == (b - multiset{x}) + multiset{x};
  }

  lemma {:induction false} MapPermutation<T, R>(a: seq<T>, b: seq<T>, f: T -> R)
    requires multiset(a) == multiset(b)
    ensures multiset(MapSeq(a, f)) == multiset(MapSeq(b, f))
  {
    SameSize(a, b);
    if a != [] {
      SameMembers(a, b);
      assert a[0] in b;
      var i :| 0 <= i < |b| && b[i] == a[0];
      RemoveAt(b, i);
      DropHead(a);
      MapPermutation(a[1..], b[..i] + b[i + 1..], f);
      MapRemoveAt(b, i, f);
      MapRemoveAt(a, 0, f);
      assert a[..0] + a[1..] == a[1..];
      assert MapSeq(a, f)[0] == f(a[0]) && MapSeq(b, f)[i] == f(a[0]);
      AddBack(multiset(MapSeq(a, f)), multiset(MapSeq(b, f)), f(a[0]));
    }
  }

  ghost predicate Distinct<T>(s: seq<T>) {
    forall i, j :: 0 <= i < j < |s| ==> s[i] != s[j]
  }

  /** `s` enumerates the set `keys`, each member once; a map iteration visits its keys in such an order. */
  ghost predicate Lists<T>(s: seq<T>, keys: set<T>) {
    && Distinct(s)
    && (forall x :: x in s ==> x in keys)
    && (forall x :: x in keys ==> x in s)
  }

  /** Visits the members of a set (the keys of a Go map) in an arbitrary order. */
  method Enumerate<T(==)>(keys: set<T>) returns (order: seq<T>)
    ensures Lists(order, keys)
  {
    order := [];
    var todo := keys;
    while todo != {}
      invariant todo <= keys && Lists(order, keys - todo)
      decreases |todo|
    {
      var x :| x in todo;
      order := order + [x];
      todo := todo - {x};
    }
  }

  /** Every finite set can be listed. */
  lemma ListingOf<T>(keys: set<T>) returns (order: seq<T>)
    ensures Lists(order, keys)
    decreases |keys|
  {
    if keys == {} {
      order := [];
    } else {
      var x :| x in keys;
      var rest := ListingOf(keys - {x});
      order := [x] + rest;
    }
  }

  lemma {:induction false} DistinctMultiplicity<T>(s: seq<T>, x: T)
    requires Distinct(s)
    ensures multiset(s)[x] == if x in s then 1 else 0
  {
    if s != [] {
      DropHead(s);
      DistinctMultiplicity(s[1..], x);
      assert multiset(s) == multiset{s[0]} + multiset(s[1..]);
    }
  }

  lemma TwiceMultiplicity<T>(s: seq<T>, i: nat, j: nat)
    requires i < j < |s| && s[i] == s[j]
    ensures multiset(s)[s[i]] >= 2
  {
    assert s == s[..j] + ([s[j]] + s[j + 1..]);
    assert s[i] in s[..j];
    assert multiset(s) == multiset(s[..j]) + multiset([s[j]]) + multiset(s[j + 1..]);
  }

  lemma DistinctPermutation<T>(a: seq<T>, b: seq<T>)
    requires multiset(a) == multiset(b) && Distinct(a)
    ensures Distinct(b)
  {
    forall i, j | 0 <= i < j < |b| ensures b[i] != b[j] {
      DistinctMultiplicity(a, b[i]);
      if b[i] == b[j] { TwiceMultiplicity(b, i, j); }
    }
  }

  lemma ListingsPermute<T(!new)>(a: seq<T>, b: seq<T>, keys: set<T>)
    requires Lists(a, keys) && Lists(b, keys)
    ensures multiset(a) == multiset(b)
  {
    forall x ensures multiset(a)[x] == multiset(b)[x] {
      DistinctMultiplicity(a, x);
      DistinctMultiplicity(b, x);
    }
  }

  lemma ListsConcat<T>(a: seq<T>, b: seq<T>, part: set<T>, keys: set<T>)
    requires part <= keys && Lists(a, part) && Lists(b, keys - part)
    ensures Lists(a + b, keys)
  {
    forall x | x in keys ensures x in a + b {
      assert x in part || x in keys - part;
    }
    forall i, j | 0 <= i < j < |a + b| ensures (a + b)[i] != (a + b)[j] {
      assert i < |a| ==> (a + b)[i] == a[i] && a[i] in part;
      assert j >= |a| ==> (a + b)[j] == b[j - |a|] && b[j - |a|] in keys - part;
    }
  }

  lemma {:induction false} ListingSize<T(!new)>(s: seq<T>, keys: set<T>)
    requires Lists(s, keys)
    ensures |s| == |keys|
    decreases |s|
  {
    if s == [] {
      assert keys == {};
    } else {
      var last := |s| - 1;
      assert Lists(s[..last], keys - {s[last]});
      ListingSize(s[..last], keys - {s[last]});
    }
  }

  // ---------------------------------------------------------------- sums over listings

  function SumOver<T>(items: seq<T>, f: T -> nat): nat {
    if items == [] then 0 else f(items[0]) + SumOver(items[1..], f)
  }

  lemma {:induction false} SumSame<T>(items: seq<T>, f: T -> nat, g: T -> nat)
    requires forall i :: 0 <= i < |items| ==> f(items[i]) == g(items[i])
    ensures SumOver(items, f) == SumOver(items, g)
  {
    if items != [] { SumSame(items[1..], f, g); }
  }

  /** Raising f by one at a single listed item raises the sum by one. */
  lemma {:induction false} SumBump<T>(items: seq<T>, f: T -> nat, g: T -> nat, x: T)
    requires Distinct(items) && x in items
    requires forall y :: y in items ==> g(y) == f(y) + (if y == x then 1 else 0)
    ensures SumOver(items, g) == SumOver(items, f) + 1
  {
    if items[0] == x {
      SumSame(items[1..], f, g);
    } else {
      SumBump(items[1..], f, g, x);
    }
  }

  lemma {:induction false} SumZero<T>(items: seq<T>, f: T -> nat)
    requires forall x :: x in items ==> f(x) == 0
    ensures SumOver(items, f) == 0
  {
    if items != [] { SumZero(items[1..], f); }
  }

  lemma {:induction false} SumConcat<T>(a: seq<T>, b: seq<T>, f: T -> nat)
    ensures SumOver(a + b, f) == SumOver(a, f) + SumOver(b, f)
  {
    if a == [] {
      assert a + b == b;
    } else {
      assert (a + b)[1..] == a[1..] + b;
      SumConcat(a[1..], b, f);
    }
  }

  lemma {:induction false} SumPermutation<T>(a: seq<T>, b: seq<T>, f: T -> nat)
    requires multiset(a) == multiset(b)
    ensures SumOver(a, f) == SumOver(b, f)
  {
    SameSize(a, b);
    if a != [] {
      SameMembers(a, b);
      assert a[0] in b;
      var i :| 0 <= i < |b| && b[i] == a[0];
      RemoveAt(b, i);
      DropHead(a);
      SumPermutation(a[1..], b[..i] + b[i + 1..], f);
      SumRemove(b, i, f);
    }
  }

  lemma SumRemove<T>(s: seq<T>, i: nat, f: T -> nat)
    requires i < |s|
    ensures SumOver(s, f) == f(s[i]) + SumOver(s[..i] + s[i + 1..], f)
  {
    var front, back := s[..i], s[i + 1..];
    SplitAt(s, i);
    assert SumOver([s[i]] + back, f) == f(s[i]) + SumOver(back, f);
    hide SumOver;
    SumConcat(front, [s[i]] + back, f);
    SumConcat(front, back, f);
  }

  // ---------------------------------------------------------------- sums of reals

  function RealSum<T>(items: seq<T>, f: T -> real): real {
    if items == [] then 0.0 else f(items[0]) + RealSum(items[1..], f)
  }

  lemma {:induction false} RealSumConcat<T>(a: seq<T>, b: seq<T>, f: T -> real)
    ensures RealSum(a + b, f) == RealSum(a, f) + RealSum(b, f)
  {
    if a == [] {
      assert a + b == b;
    } else {
      assert (a + b)[1..] == a[1..] + b;
      RealSumConcat(a[1..], b, f);
    }
  }

  lemma RealSumRemove<T>(s: seq<T>, i: nat, f: T -> real)
    requires i < |s|
    ensures RealSum(s, f) == f(s[i]) + RealSum(s[..i] + s[i + 1..], f)
  {
    var front, back := s[..i], s[i + 1..];
    SplitAt(s, i);
    assert RealSum([s[i]] + back, f) == f(s[i]) + RealSum(back, f);
    hide RealSum;
    RealSumConcat(front, [s[i]] + back, f);
    RealSumConcat(front, back, f);
  }

  lemma {:induction false} RealSumPermutation<T>(a: seq<T>, b: seq<T>, f: T -> real)
    requires multiset(a) == multiset(b)
    ensures RealSum(a, f) == RealSum(b, f)
  {
    SameSize(a, b);
    if a != [] {
      SameMembers(a, b);
      assert a[0] in b;
      var i :| 0 <= i < |b| && b[i] == a[0];
      RemoveAt(b, i);
      DropHead(a);
      RealSumPermutation(a[1..], b[..i] + b[i + 1..], f);
      RealSumRemove(b, i, f);
    }
  }

  lemma {:induction false} RealSumAgree<T>(items: seq<T>, f: T -> real, g: T -> real)
    requires forall i :: 0 <= i < |items| ==> f(items[i]) == g(items[i])
    ensures RealSum(items, f) == RealSum(items, g)
  {
    if items != [] { RealSumAgree(items[1..], f, g); }
  }

  lemma {:induction false} RealSumZero<T>(items: seq<T>, f: T -> real)
    requires forall x :: x in items ==> f(x) == 0.0
    ensures RealSum(items, f) == 0.0
  {
    if items != [] { RealSumZero(items[1..], f); }
  }

  // ---------------------------------------------------------------- strings

  /** The byte-wise order of Go's `<` on strings (a Dafny `<=` on sequences is the prefix order). */
  predicate LexLe(a: string, b: string) {
    if a == [] then true
    else if b == [] then false
    else if a[0] != b[0] then a[0] < b[0]
    else LexLe(a[1..], b[1..])
  }

  lemma {:induction false} LexTotal(a: string, b: string)
    ensures LexLe(a, b) || LexLe(b, a)
    ensures LexLe(a, b) && LexLe(b, a) ==> a == b
  {
    if a != [] && b != [] && a[0] == b[0] {
      LexTotal(a[1..], b[1..]);
      assert a == [a[0]] + a[1..] && b == [b[0]] + b[1..];
    }
  }

  lemma {:induction false} LexTransitive(a: string, b: string, c: string)
    requires LexLe(a, b) && LexLe(b, c)
    ensures LexLe(a, c)
  {
    if a != [] && a[0] == b[0] == c[0] {
      LexTransitive(a[1..], b[1..], c[1..]);
    }
  }

  /** A string comes before another exactly when it is a prefix of it or has the smaller character at the first
      difference. */
  lemma {:induction false} LexLaw(a: string, b: string)
    ensures LexLe(a, b) <==>
            a <= b || exists k :: 0 <= k < |a| && k < |b| && a[..k] == b[..k] && a[k] < b[k]
  {
    if a != [] && b != [] {
      if a[0] == b[0] {
        LexLaw(a[1..], b[1..]);
        assert a == [a[0]] + a[1..] && b == [b[0]] + b[1..];
        if k :| 0 <= k < |a| - 1 && k < |b| - 1 && a[1..][..k] == b[1..][..k] && a[1..][k] < b[1..][k] {
          assert a[..k + 1] == [a[0]] + a[1..][..k] && b[..k + 1] == [b[0]] + b[1..][..k];
        }
        if k :| 0 <= k < |a| && k < |b| && a[..k] == b[..k] && a[k] < b[k] {
          assert k > 0 && a[1..][..k - 1] == a[..k][1..] && b[1..][..k - 1] == b[..k][1..];
        }
      } else {
        assert a[..0] == b[..0];
        if k :| 0 <= k < |a| && k < |b| && a[..k] == b[..k] && a[k] < b[k] {
          if k > 0 { assert a[..k][0] == b[..k][0]; }
        }
      }
    }
  }

  lemma LexOrder()
    ensures TotalPreorder(LexLe) && Antisymmetric(LexLe)
  {
    forall a, b ensures LexLe(a, b) || LexLe(b, a) { LexTotal(a, b); }
    forall a, b | LexLe(a, b) && LexLe(b, a) ensures a == b { LexTotal(a, b); }
    forall a, b, c | LexLe(a, b) && LexLe(b, c) ensures LexLe(a, c) { LexTransitive(a, b, c); }
  }
}
