/**
 Sorting by a strict order that separates the elements at hand. The result does not depend on the algorithm:
 any ordered permutation is the one defined here.
 */
module Sorting {
  ghost predicate StrictOrder<T(!new)>(less: (T, T) -> bool) {
    && (forall a :: !less(a, a))
    && (forall a, b, c :: less(a, b) && less(b, c) ==> less(a, c))
  }

  /** No two different elements of s tie. */
  ghost predicate Separates<T(!new)>(less: (T, T) -> bool, s: seq<T>) {
    StrictOrder(less) && forall a, b :: a in s && b in s && a != b ==> less(a, b) || less(b, a)
  }

  ghost predicate Ordered<T(!new)>(less: (T, T) -> bool, s: seq<T>) {
    forall i, j | 0 <= i < j < |s| :: !less(s[j], s[i])
  }

  function Insert<T>(less: (T, T) -> bool, x: T, s: seq<T>): (r: seq<T>)
    ensures multiset(r) == multiset{x} + multiset(s)
  {
    if s == [] then [x]
    else if less(s[0], x) then
      assert s == [s[0]] + s[1..];
      [s[0]] + Insert(less, x, s[1..])
    else [x] + s
  }

  function Sort<T>(less: (T, T) -> bool, s: seq<T>): (r: seq<T>)
    ensures multiset(r) == multiset(s)
  {
    if s == [] then []
    else
      assert s == [s[0]] + s[1..];
      Insert(less, s[0], Sort(less, s[1..]))
  }

  lemma SameElements<T>(a: seq<T>, b: seq<T>)
    requires multiset(a) == multiset(b)
    ensures |a| == |b| && forall x :: x in a <==> x in b
  {
    assert |multiset(a)| == |a| && |multiset(b)| == |b|;
    forall x ensures x in a <==> x in b { assert x in a <==> x in multiset(a); }
  }

  lemma {:induction false} InsertKeepsOrder<T(!new)>(less: (T, T) -> bool, x: T, s: seq<T>)
    requires Ordered(less, s) && Separates(less, [x] + s)
    ensures Ordered(less, Insert(less, x, s))
  {
    if s != [] {
      var r := Insert(less, x, s);
      assert forall y :: y in [x] + s <==> y == x || y in s;
      if less(s[0], x) {
        var tail := Insert(less, x, s[1..]);
        InsertKeepsOrder(less, x, s[1..]);
        SameElements(tail, [x] + s[1..]);
        forall j | 0 < j < |r| ensures !less(r[j], r[0]) {
          assert r[j] in tail && (r[j] == x || r[j] in s[1..]);
        }
      } else {
        forall j | 0 < j < |r| ensures !less(r[j], x) {
          assert r[j] == s[j - 1];
          assert r[j] == s[0] || less(s[0], r[j]);
          assert s[0] == x || less(x, s[0]);
        }
      }
    }
  }

  lemma {:induction false} SortIsOrdered<T(!new)>(less: (T, T) -> bool, s: seq<T>)
    requires Separates(less, s)
    ensures Ordered(less, Sort(less, s))
  {
    if s != [] {
      var tail := Sort(less, s[1..]);
      SortIsOrdered(less, s[1..]);
      SameElements(tail, s[1..]);
      assert forall y :: y in [s[0]] + tail ==> y in s;
      InsertKeepsOrder(less, s[0], tail);
    }
  }

  lemma FirstIsLeast<T(!new)>(less: (T, T) -> bool, s: seq<T>, x: T)
    requires Ordered(less, s) && x in s && StrictOrder(less)
    ensures !less(x, s[0])
  {
  }

  lemma TailsMatch<T>(a: seq<T>, b: seq<T>)
    requires a != [] && b != [] && a[0] == b[0] && multiset(a) == multiset(b)
    ensures multiset(a[1..]) == multiset(b[1..])
  {
    assert a == [a[0]] + a[1..] && b == [b[0]] + b[1..];
    assert multiset(a[1..]) == multiset(a) - multiset{a[0]};
    assert multiset(b[1..]) == multiset(b) - multiset{b[0]};
  }

  /** An order that separates the elements leaves one ordered permutation only. */
  lemma {:induction false} OrderedIsUnique<T(!new)>(less: (T, T) -> bool, a: seq<T>, b: seq<T>)
    requires multiset(a) == multiset(b) && Separates(less, a) && Ordered(less, a) && Ordered(less, b)
    ensures a == b
  {
    SameElements(a, b);
    if a != [] {
      assert a[0] in a && b[0] in a;
      FirstIsLeast(less, a, b[0]);
      FirstIsLeast(less, b, a[0]);
      TailsMatch(a, b);
      var s, t := a[1..], b[1..];
      assert Ordered(less, s) && Ordered(less, t);
      assert Separates(less, s) by { assert forall x | x in s :: x in a; }
      OrderedIsUnique(less, s, t);
      assert a == [a[0]] + s && b == [b[0]] + t;
    }
  }

  /** Whatever order the elements arrive in, they are sorted the same. */
  lemma ArrivalOrderDoesNotMatter<T(!new)>(less: (T, T) -> bool, a: seq<T>, b: seq<T>)
    requires multiset(a) == multiset(b) && Separates(less, a)
    ensures Sort(less, a) == Sort(less, b)
  {
    SameElements(a, b);
    SameElements(a, Sort(less, a));
    SortIsOrdered(less, a);
    SortIsOrdered(less, b);
    OrderedIsUnique(less, Sort(less, a), Sort(less, b));
  }

  ghost predicate DistinctBy<T(!new), K(!new)>(key: T -> K, s: seq<T>) {
    forall i, j | 0 <= i < j < |s| :: key(s[i]) != key(s[j])
  }

  lemma {:induction false} DistinctOccurOnce<T(!new), K(!new)>(key: T -> K, s: seq<T>, x: T)
    requires DistinctBy(key, s)
    ensures multiset(s)[x] <= 1
  {
    if s != [] {
      DistinctOccurOnce(key, s[1..], x);
      assert s == [s[0]] + s[1..];
      if x in s[1..] { assert x != s[0]; }
    }
  }

  lemma TwiceCounted<T>(s: seq<T>, i: nat, j: nat)
    requires i < j < |s| && s[i] == s[j]
    ensures multiset(s)[s[i]] >= 2
  {
    assert s == s[..j] + s[j..];
    assert s[..j][i] == s[i] && s[j..][0] == s[i];
    assert s[i] in multiset(s[..j]) && s[i] in multiset(s[j..]);
  }

  /** Keys that are distinct stay distinct in any other order. */
  lemma PermutationKeepsDistinct<T(!new), K(!new)>(key: T -> K, a: seq<T>, b: seq<T>)
    requires multiset(a) == multiset(b) && DistinctBy(key, a)
    ensures DistinctBy(key, b)
  {
    SameElements(a, b);
    forall i, j | 0 <= i < j < |b| ensures key(b[i]) != key(b[j]) {
      DistinctOccurOnce(key, a, b[i]);
      if b[i] == b[j] { TwiceCounted(b, i, j); }
      assert b[i] in a && b[j] in a;
    }
  }

  /** How many elements of a list have the key k. */
  function Count<T, K(==)>(key: T -> K, s: seq<T>, k: K): nat {
    if s == [] then 0 else Count(key, s[..|s| - 1], k) + if key(s[|s| - 1]) == k then 1 else 0
  }

  lemma CountOneMore<T, K>(key: T -> K, s: seq<T>, x: T, k: K)
    ensures Count(key, s + [x], k) == Count(key, s, k) + if key(x) == k then 1 else 0
  {
    assert (s + [x])[..|s|] == s;
  }

  lemma {:induction false} CountAppends<T, K>(key: T -> K, a: seq<T>, b: seq<T>, k: K)
    ensures Count(key, a + b, k) == Count(key, a, k) + Count(key, b, k)
  {
    if b == [] {
      assert a + b == a;
    } else {
      CountAppends(key, a, b[..|b| - 1], k);
      CountOneMore(key, a + b[..|b| - 1], b[|b| - 1], k);
      assert a + b == (a + b[..|b| - 1]) + [b[|b| - 1]];
    }
  }

  lemma WithoutOne<T>(s: seq<T>, i: nat)
    requires i < |s|
    ensures s == s[..i] + [s[i]] + s[i + 1..]
    ensures multiset(s[..i] + s[i + 1..]) == multiset(s) - multiset{s[i]}
  {
    assert s == s[..i] + [s[i]] + s[i + 1..];
  }

  lemma CountWithoutOne<T, K>(key: T -> K, s: seq<T>, i: nat, k: K)
    requires i < |s|
    ensures Count(key, s, k) == Count(key, s[..i] + s[i + 1..], k) + if key(s[i]) == k then 1 else 0
  {
    hide Count;
    WithoutOne(s, i);
    CountAppends(key, s[..i] + [s[i]], s[i + 1..], k);
    CountOneMore(key, s[..i], s[i], k);
    CountAppends(key, s[..i], s[i + 1..], k);
  }

  lemma Removable<T>(a: seq<T>, b: seq<T>) returns (i: nat)
    requires a != [] && multiset(a) == multiset(b)
    ensures i < |b| && b[i] == a[0] && multiset(a[1..]) == multiset(b[..i] + b[i + 1..])
  {
    SameElements(a, b);
    assert a[0] in a;
    i :| i < |b| && b[i] == a[0];
    WithoutOne(a, 0);
    WithoutOne(b, i);
    assert a[..0] + a[1..] == a[1..];
  }

  /** Permuted lists count the same. */
  lemma {:induction false} CountPermutes<T, K>(key: T -> K, a: seq<T>, b: seq<T>, k: K)
    requires multiset(a) == multiset(b)
    ensures Count(key, a, k) == Count(key, b, k)
  {
    hide Count;
    if a == [] {
      SameElements(a, b);
      assert a == b;
    } else {
      var i := Removable(a, b);
      CountPermutes(key, a[1..], b[..i] + b[i + 1..], k);
      assert a[..0] + a[1..] == a[1..];
      CountWithoutOne(key, a, 0, k);
      CountWithoutOne(key, b, i, k);
    }
  }

  lemma {:induction false} CountByPlace<A, B, K>(f: A -> K, a: seq<A>, g: B -> K, b: seq<B>, k: K)
    requires |a| == |b| && forall i | 0 <= i < |a| :: f(a[i]) == g(b[i])
    ensures Count(f, a, k) == Count(g, b, k)
  {
    if a != [] { CountByPlace(f, a[..|a| - 1], g, b[..|b| - 1], k); }
  }

  lemma {:induction false} CountIsMultiplicity<T>(id: T -> T, s: seq<T>, k: T)
    requires forall i | 0 <= i < |s| :: id(s[i]) == s[i]
    ensures Count(id, s, k) == multiset(s)[k]
  {
    if s != [] {
      CountIsMultiplicity(id, s[..|s| - 1], k);
      assert s == s[..|s| - 1] + [s[|s| - 1]];
    }
  }
}
