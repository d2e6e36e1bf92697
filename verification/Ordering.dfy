/**
 Stable sorting by a comparator, and when its result does not depend on the order of the input.

 JavaScript's sort is stable, and a stable sort by a comparator that is a total preorder has only
 one possible result, so an insertion sort stands for any of them.
 */
module Ordering {

  function Insert<T>(x: T, s: seq<T>, le: (T, T) -> bool): seq<T> {
    if s == [] || le(x, s[0]) then [x] + s else [s[0]] + Insert(x, s[1..], le)
  }

  function Sort<T>(s: seq<T>, le: (T, T) -> bool): seq<T> {
    if s == [] then [] else Insert(s[0], Sort(s[1..], le), le)
  }

  ghost predicate Sorted<T>(s: seq<T>, le: (T, T) -> bool) {
    forall i, j :: 0 <= i < j < |s| ==> le(s[i], s[j])
  }

  /** On the elements of s, le is total and transitive. */
  ghost predicate Preorder<T>(s: seq<T>, le: (T, T) -> bool) {
    && (forall i, j :: 0 <= i < |s| && 0 <= j < |s| ==> le(s[i], s[j]) || le(s[j], s[i]))
    && (forall i, j, k ::
        0 <= i < |s| && 0 <= j < |s| && 0 <= k < |s| && le(s[i], s[j]) && le(s[j], s[k]) ==> le(s[i], s[k]))
  }

  /** And two elements that tie are the same. */
  ghost predicate TotalOrder<T>(s: seq<T>, le: (T, T) -> bool) {
    && Preorder(s, le)
    && forall i, j :: 0 <= i < |s| && 0 <= j < |s| && le(s[i], s[j]) && le(s[j], s[i]) ==> s[i] == s[j]
  }

  lemma {:induction false} InsertIsPermutation<T>(x: T, s: seq<T>, le: (T, T) -> bool)
    ensures multiset(Insert(x, s, le)) == multiset([x]) + multiset(s)
  {
    if s != [] && !le(x, s[0]) {
      InsertIsPermutation(x, s[1..], le);
      assert s == [s[0]] + s[1..];
    }
  }

  lemma {:induction false} SortIsPermutation<T>(s: seq<T>, le: (T, T) -> bool)
    ensures multiset(Sort(s, le)) == multiset(s)
  {
    if s != [] {
      SortIsPermutation(s[1..], le);
      InsertIsPermutation(s[0], Sort(s[1..], le), le);
      assert s == [s[0]] + s[1..];
    }
  }

  /** Elements of a permutation are elements of the original. */
  lemma SameElements<T>(a: seq<T>, b: seq<T>, x: T)
    requires multiset(a) == multiset(b)
    ensures x in a <==> x in b
  {
    assert x in a <==> x in multiset(a);
  }

  /** What holds of all pairs and triples of elements does not depend on their order. */
  lemma PreorderOfPermutation<T>(a: seq<T>, b: seq<T>, le: (T, T) -> bool)
    requires multiset(a) == multiset(b) && Preorder(b, le)
    ensures Preorder(a, le)
  {
    forall i | 0 <= i < |a| ensures a[i] in b { SameElements(a, b, a[i]); }
  }

  lemma TotalOrderOfPermutation<T>(a: seq<T>, b: seq<T>, le: (T, T) -> bool)
    requires multiset(a) == multiset(b) && TotalOrder(b, le)
    ensures TotalOrder(a, le)
  {
    PreorderOfPermutation(a, b, le);
    forall i | 0 <= i < |a| ensures a[i] in b { SameElements(a, b, a[i]); }
  }

  lemma SmallestFirst<T>(x: T, s: seq<T>, le: (T, T) -> bool)
    requires Sorted(s, le) && forall k :: 0 <= k < |s| ==> le(x, s[k])
    ensures Sorted([x] + s, le)
  {
  }

  lemma PreorderOfPart<T>(part: seq<T>, s: seq<T>, le: (T, T) -> bool)
    requires Preorder(s, le) && forall k :: 0 <= k < |part| ==> part[k] in s
    ensures Preorder(part, le)
  {
  }

  lemma BelowAll<T>(x: T, s: seq<T>, le: (T, T) -> bool)
    requires Sorted(s, le) && s != [] && le(x, s[0]) && Preorder([x] + s, le)
    ensures forall k :: 0 <= k < |s| ==> le(x, s[k])
  {
    var all := [x] + s;
    assert all[0] == x && all[1] == s[0];
    forall k | 0 <= k < |s| ensures le(x, s[k]) {
      assert all[k + 1] == s[k];
      assert k > 0 ==> le(all[1], all[k + 1]);
    }
  }

  lemma {:induction false} InsertSorts<T>(x: T, s: seq<T>, le: (T, T) -> bool)
    requires Sorted(s, le) && Preorder([x] + s, le)
    ensures Sorted(Insert(x, s, le), le)
  {
    if s == [] {
    } else if le(x, s[0]) {
      BelowAll(x, s, le);
      SmallestFirst(x, s, le);
    } else {
      assert ([x] + s)[0] == x && ([x] + s)[1] == s[0];
      assert le(s[0], x);
      PreorderOfPart([x] + s[1..], [x] + s, le);
      InsertSorts(x, s[1..], le);
      InsertIsPermutation(x, s[1..], le);
      var rest := Insert(x, s[1..], le);
      forall k | 0 <= k < |rest| ensures le(s[0], rest[k]) {
        assert rest[k] in multiset(rest);
        assert rest[k] == x || rest[k] in s[1..];
      }
      SmallestFirst(s[0], rest, le);
    }
  }

  lemma {:induction false} SortSorts<T>(s: seq<T>, le: (T, T) -> bool)
    requires Preorder(s, le)
    ensures Sorted(Sort(s, le), le)
  {
    if s != [] {
      var rest := Sort(s[1..], le);
      SortSorts(s[1..], le);
      SortIsPermutation(s[1..], le);
      assert s == [s[0]] + s[1..];
      PreorderOfPermutation([s[0]] + rest, s, le);
      InsertSorts(s[0], rest, le);
    }
  }

  /** Sorting a sorted sequence changes nothing. */
  lemma {:induction false} SortedIsFixed<T>(s: seq<T>, le: (T, T) -> bool)
    requires Sorted(s, le)
    ensures Sort(s, le) == s
  {
    if s != [] {
      SortedIsFixed(s[1..], le);
      assert s == [s[0]] + s[1..];
    }
  }

  lemma SortedHead<T>(a: seq<T>, le: (T, T) -> bool, x: T)
    requires Sorted(a, le) && x in a && le(a[0], a[0])
    ensures le(a[0], x)
  {
  }

  lemma SortedHeadsAgree<T>(a: seq<T>, b: seq<T>, le: (T, T) -> bool)
    requires Sorted(a, le) && Sorted(b, le) && multiset(a) == multiset(b) && TotalOrder(a, le) && a != [] && b != []
    ensures a[0] == b[0]
  {
    SameElements(a, b, a[0]);
    SameElements(a, b, b[0]);
    TotalOrderOfPermutation(b, a, le);
    SortedHead(a, le, b[0]);
    SortedHead(b, le, a[0]);
    var j :| 0 <= j < |a| && a[j] == b[0];
    assert le(a[0], a[j]) && le(a[j], a[0]);
  }

  lemma RestOfPermutation<T>(a: seq<T>, b: seq<T>)
    requires multiset(a) == multiset(b) && a != [] && b != [] && a[0] == b[0]
    ensures multiset(a[1..]) == multiset(b[1..])
  {
    assert a == [a[0]] + a[1..] && b == [b[0]] + b[1..];
    assert multiset(a[1..]) == multiset(a) - multiset{a[0]};
    assert multiset(b[1..]) == multiset(b) - multiset{b[0]};
  }

  lemma RestIsOrdered<T>(a: seq<T>, le: (T, T) -> bool)
    requires a != []
    ensures Sorted(a, le) ==> Sorted(a[1..], le)
    ensures TotalOrder(a, le) ==> TotalOrder(a[1..], le)
  {
    assert forall k :: 0 <= k < |a[1..]| ==> a[1..][k] == a[k + 1];
  }

  lemma {:induction false} SortedIsUnique<T>(a: seq<T>, b: seq<T>, le: (T, T) -> bool)
    requires Sorted(a, le) && Sorted(b, le) && multiset(a) == multiset(b) && TotalOrder(a, le)
    ensures a == b
  {
    assert |a| == |multiset(a)| == |multiset(b)| == |b|;
    if a != [] {
      SortedHeadsAgree(a, b, le);
      RestOfPermutation(a, b);
      RestIsOrdered(a, le);
      RestIsOrdered(b, le);
      SortedIsUnique(a[1..], b[1..], le);
      assert a == [a[0]] + a[1..] && b == [b[0]] + b[1..];
    }
  }

  /** Under a total order the result is canonical: it depends on the elements, not on their order. */
  lemma SortIsCanonical<T>(a: seq<T>, b: seq<T>, le: (T, T) -> bool)
    requires multiset(a) == multiset(b) && TotalOrder(b, le)
    ensures Sort(a, le) == Sort(b, le)
  {
    TotalOrderOfPermutation(a, b, le);
    SortSorts(a, le);
    SortSorts(b, le);
    SortIsPermutation(a, le);
    SortIsPermutation(b, le);
    TotalOrderOfPermutation(Sort(a, le), a, le);
    SortedIsUnique(Sort(a, le), Sort(b, le), le);
  }

  lemma SortTwice<T>(s: seq<T>, le: (T, T) -> bool)
    requires Preorder(s, le)
    ensures Sort(Sort(s, le), le) == Sort(s, le)
  {
    SortSorts(s, le);
    SortedIsFixed(Sort(s, le), le);
  }

  // ---- Order kept by insertion ----

  /** a stands somewhere before b. */
  ghost predicate Precedes<T>(s: seq<T>, a: T, b: T) {
    exists i, j :: 0 <= i < j < |s| && s[i] == a && s[j] == b
  }

  lemma PrecedesOneLater<T>(x: T, s: seq<T>, a: T, b: T)
    requires Precedes(s, a, b)
    ensures Precedes([x] + s, a, b)
  {
    var i, j :| 0 <= i < j < |s| && s[i] == a && s[j] == b;
    assert ([x] + s)[i + 1] == a && ([x] + s)[j + 1] == b;
  }

  lemma {:induction false} InsertKeepsOrder<T>(x: T, s: seq<T>, le: (T, T) -> bool, a: T, b: T)
    requires Precedes(s, a, b)
    ensures Precedes(Insert(x, s, le), a, b)
  {
    if le(x, s[0]) {
      PrecedesOneLater(x, s, a, b);
    } else {
      var rest := Insert(x, s[1..], le);
      var i, j :| 0 <= i < j < |s| && s[i] == a && s[j] == b;
      if i > 0 {
        assert s[1..][i - 1] == a && s[1..][j - 1] == b;
        InsertKeepsOrder(x, s[1..], le, a, b);
        PrecedesOneLater(s[0], rest, a, b);
      } else {
        InsertIsPermutation(x, s[1..], le);
        assert b == s[1..][j - 1];
        assert b in multiset(rest);
        var k :| 0 <= k < |rest| && rest[k] == b;
        assert ([s[0]] + rest)[0] == a && ([s[0]] + rest)[k + 1] == b;
      }
    }
  }

  /** Sorting keeps the order that two elements come out in when they are last in the input. */
  lemma {:induction false} SortKeepsOrderOfTail<T>(s: seq<T>, tail: seq<T>, le: (T, T) -> bool, a: T, b: T)
    requires Precedes(Sort(tail, le), a, b)
    ensures Precedes(Sort(s + tail, le), a, b)
  {
    if s == [] {
      assert s + tail == tail;
    } else {
      assert (s + tail)[1..] == s[1..] + tail;
      SortKeepsOrderOfTail(s[1..], tail, le, a, b);
      InsertKeepsOrder(s[0], Sort(s[1..] + tail, le), le, a, b);
    }
  }

  // ---- Sorting and mapping ----

  function Map<T, U>(s: seq<T>, f: T -> U): (r: seq<U>)
    ensures |r| == |s| && forall i :: 0 <= i < |s| ==> r[i] == f(s[i])
  {
    if s == [] then [] else [f(s[0])] + Map(s[1..], f)
  }

  /** f keeps the order of the elements of s. */
  ghost predicate KeepsOrder<T, U>(s: seq<T>, f: T -> U, le: (T, T) -> bool, leU: (U, U) -> bool) {
    forall x, y :: x in s && y in s ==> leU(f(x), f(y)) == le(x, y)
  }

  lemma {:induction false} InsertMap<T, U>(x: T, s: seq<T>, f: T -> U, le: (T, T) -> bool, leU: (U, U) -> bool)
    requires KeepsOrder([x] + s, f, le, leU)
    ensures Map(Insert(x, s, le), f) == Insert(f(x), Map(s, f), leU)
  {
    if s != [] {
      assert x in [x] + s && s[0] in [x] + s;
      assert Map(s, f)[1..] == Map(s[1..], f);
      if le(x, s[0]) {
        assert ([x] + s)[1..] == s;
      } else {
        assert forall y :: y in [x] + s[1..] ==> y in [x] + s;
        InsertMap(x, s[1..], f, le, leU);
        var rest := Insert(x, s[1..], le);
        assert ([s[0]] + rest)[1..] == rest;
      }
    } else {
      assert Insert(x, s, le) == [x];
      assert Map([x], f) == [f(x)];
    }
  }

  lemma {:induction false} SortMap<T, U>(s: seq<T>, f: T -> U, le: (T, T) -> bool, leU: (U, U) -> bool)
    requires KeepsOrder(s, f, le, leU)
    ensures Map(Sort(s, le), f) == Sort(Map(s, f), leU)
  {
    if s != [] {
      var rest := Sort(s[1..], le);
      assert forall y :: y in s[1..] ==> y in s;
      SortMap(s[1..], f, le, leU);
      SortIsPermutation(s[1..], le);
      forall y | y in [s[0]] + rest ensures y in s {
        if y in rest { SameElements(rest, s[1..], y); }
      }
      InsertMap(s[0], rest, f, le, leU);
      assert Map(s, f)[1..] == Map(s[1..], f);
    }
  }

  lemma SortedMap<T, U>(s: seq<T>, f: T -> U, le: (T, T) -> bool, leU: (U, U) -> bool)
    requires Sorted(s, le) && KeepsOrder(s, f, le, leU)
    ensures Sorted(Map(s, f), leU)
  {
  }

  lemma {:induction false} MapInsert<T, U>(x: T, s: seq<T>, le: (T, T) -> bool, f: T -> U)
    ensures multiset(Map(Insert(x, s, le), f)) == multiset([f(x)]) + multiset(Map(s, f))
  {
    if s == [] || le(x, s[0]) {
      assert ([x] + s)[1..] == s;
    } else {
      MapInsert(x, s[1..], le, f);
      var rest := Insert(x, s[1..], le);
      assert ([s[0]] + rest)[1..] == rest;
    }
  }

  lemma {:induction false} MapSort<T, U>(s: seq<T>, le: (T, T) -> bool, f: T -> U)
    ensures multiset(Map(Sort(s, le), f)) == multiset(Map(s, f))
  {
    if s != [] {
      MapSort(s[1..], le, f);
      MapInsert(s[0], Sort(s[1..], le), le, f);
    }
  }

  lemma {:induction false} MapMap<T, U, V>(s: seq<T>, f: T -> U, g: U -> V, h: T -> V)
    requires forall x :: x in s ==> g(f(x)) == h(x)
    ensures Map(Map(s, f), g) == Map(s, h)
  {
  }

  lemma {:induction false} MapConcat<T, U>(a: seq<T>, b: seq<T>, f: T -> U)
    ensures Map(a + b, f) == Map(a, f) + Map(b, f)
  {
  }

  lemma MapSnoc<T, U>(s: seq<T>, i: nat, f: T -> U)
    requires i < |s|
    ensures Map(s[..i + 1], f) == Map(s[..i], f) + [f(s[i])]
  {
  }

  // ---- Flattening ----

  /** The lists f gives for the elements of s, one after the other. */
  function Flat<T, U>(s: seq<T>, f: T -> seq<U>): seq<U> {
    if s == [] then [] else f(s[0]) + Flat(s[1..], f)
  }

  lemma {:induction false} FlatConcat<T, U>(a: seq<T>, b: seq<T>, f: T -> seq<U>)
    ensures Flat(a + b, f) == Flat(a, f) + Flat(b, f)
  {
    if a == [] {
      assert a + b == b;
    } else {
      assert (a + b)[1..] == a[1..] + b;
      FlatConcat(a[1..], b, f);
    }
  }

  lemma {:induction false} FlatPermutation<T, U>(a: seq<T>, b: seq<T>, f: T -> seq<U>)
    requires multiset(a) == multiset(b)
    ensures multiset(Flat(a, f)) == multiset(Flat(b, f))
    decreases |a|
  {
    assert |a| == |multiset(a)| == |multiset(b)| == |b|;
    if a != [] {
      SameElements(a, b, a[0]);
      var i :| 0 <= i < |b| && b[i] == a[0];
      FlatAround(b, i, f);
      WithoutOne(a, b, i);
      FlatPermutation(a[1..], b[..i] + b[i + 1..], f);
    }
  }

  lemma WithoutOne<T>(a: seq<T>, b: seq<T>, i: nat)
    requires multiset(a) == multiset(b) && i < |b| && a != [] && b[i] == a[0]
    ensures multiset(a[1..]) == multiset(b[..i] + b[i + 1..])
  {
    assert a == [a[0]] + a[1..] && b == b[..i] + [b[i]] + b[i + 1..];
    assert multiset(a[1..]) == multiset(a) - multiset{a[0]};
    assert multiset(b[..i] + b[i + 1..]) == multiset(b) - multiset{b[i]};
  }

  lemma FlatAround<T, U>(b: seq<T>, i: nat, f: T -> seq<U>)
    requires i < |b|
    ensures multiset(Flat(b, f)) == multiset(f(b[i])) + multiset(Flat(b[..i] + b[i + 1..], f))
  {
    assert b == b[..i] + b[i..];
    FlatConcat(b[..i], b[i..], f);
    FlatConcat(b[..i], b[i + 1..], f);
    assert b[i..][1..] == b[i + 1..];
  }

  lemma FlatSnoc<T, U>(s: seq<T>, i: nat, f: T -> seq<U>)
    requires i < |s|
    ensures Flat(s[..i + 1], f) == Flat(s[..i], f) + f(s[i])
  {
    assert s[..i + 1] == s[..i] + [s[i]] && [s[i]][1..] == [];
    FlatConcat(s[..i], [s[i]], f);
  }

  lemma {:induction false} FlatAlike<T, U>(s: seq<T>, f: T -> seq<U>, g: T -> seq<U>)
    requires forall x :: x in s ==> f(x) == g(x)
    ensures Flat(s, f) == Flat(s, g)
  {
    if s != [] { FlatAlike(s[1..], f, g); }
  }

  lemma {:induction false} FlatIsEmptyExactlyWhen<T, U>(s: seq<T>, f: T -> seq<U>)
    ensures Flat(s, f) == [] <==> forall x :: x in s ==> f(x) == []
  {
    if s != [] {
      FlatIsEmptyExactlyWhen(s[1..], f);
      assert forall x :: x in s <==> x == s[0] || x in s[1..];
    }
  }

  // ---- Duplicates ----

  ghost predicate NoDuplicates<T>(s: seq<T>) {
    forall i, j :: 0 <= i < j < |s| ==> s[i] != s[j]
  }

  lemma NoDuplicatesStep<T>(s: seq<T>)
    requires s != []
    ensures NoDuplicates(s) <==> s[0] !in s[1..] && NoDuplicates(s[1..])
  {
    assert forall i :: 0 <= i < |s[1..]| ==> s[1..][i] == s[i + 1];
    if s[0] !in s[1..] && NoDuplicates(s[1..]) {
      forall i, j | 0 <= i < j < |s| ensures s[i] != s[j] {
        assert s[j] == s[1..][j - 1];
        assert i > 0 ==> s[i] == s[1..][i - 1];
      }
    }
  }

  ghost predicate CountsAtMostOne<T(!new)>(m: multiset<T>) {
    forall x :: m[x] <= 1
  }

  lemma CountsStep<T(!new)>(x: T, m: multiset<T>)
    ensures CountsAtMostOne(multiset{x} + m) <==> x !in m && CountsAtMostOne(m)
  {
    var all := multiset{x} + m;
    assert all[x] == m[x] + 1;
    assert forall y :: y != x ==> all[y] == m[y];
  }

  lemma {:induction false} NoDuplicatesCounts<T(!new)>(s: seq<T>)
    ensures NoDuplicates(s) <==> CountsAtMostOne(multiset(s))
  {
    if s != [] {
      NoDuplicatesCounts(s[1..]);
      NoDuplicatesStep(s);
      CountsStep(s[0], multiset(s[1..]));
      assert s == [s[0]] + s[1..];
      assert s[0] in s[1..] <==> s[0] in multiset(s[1..]);
    }
  }

  lemma NoDuplicatesOfPermutation<T(!new)>(a: seq<T>, b: seq<T>)
    requires multiset(a) == multiset(b)
    ensures NoDuplicates(a) <==> NoDuplicates(b)
  {
    NoDuplicatesCounts(a);
    NoDuplicatesCounts(b);
  }

  lemma NoDuplicatesAppend<T>(s: seq<T>, x: T)
    ensures NoDuplicates(s + [x]) <==> NoDuplicates(s) && x !in s
  {
    var all := s + [x];
    assert forall i :: 0 <= i < |s| ==> all[i] == s[i];
    assert all[|s|] == x;
  }

  lemma NoDuplicatesPrefix<T>(a: seq<T>, b: seq<T>)
    requires NoDuplicates(a + b)
    ensures NoDuplicates(a)
  {
    assert forall i :: 0 <= i < |a| ==> (a + b)[i] == a[i];
  }

  lemma NoDuplicatesConcat<T>(a: seq<T>, b: seq<T>)
    ensures NoDuplicates(a + b) <==> NoDuplicates(a) && NoDuplicates(b) && forall x :: x in a ==> x !in b
  {
    var all := a + b;
    assert forall i :: 0 <= i < |a| ==> all[i] == a[i];
    assert forall i :: 0 <= i < |b| ==> all[|a| + i] == b[i];
    if NoDuplicates(all) {
      forall x | x in a ensures x !in b {
        var i :| 0 <= i < |a| && a[i] == x;
        forall j | 0 <= j < |b| ensures b[j] != x { assert all[i] != all[|a| + j]; }
      }
      forall i, j | 0 <= i < j < |b| ensures b[i] != b[j] { assert all[|a| + i] != all[|a| + j]; }
    }
    if NoDuplicates(a) && NoDuplicates(b) && forall x :: x in a ==> x !in b {
      forall i, j | 0 <= i < j < |all| ensures all[i] != all[j] {
        if i < |a| <= j { assert a[i] !in b; }
      }
    }
  }

  // ---- Strings ----

  /** JavaScript's `<` on strings, by code point. */
  predicate StringLess(a: string, b: string) {
    b != "" && (a == "" || a[0] < b[0] || (a[0] == b[0] && StringLess(a[1..], b[1..])))
  }

  predicate StringLe(a: string, b: string) {
    !StringLess(b, a)
  }

  lemma {:induction false} StringTrichotomy(a: string, b: string)
    ensures StringLess(a, b) || StringLess(b, a) || a == b
    ensures !(StringLess(a, b) && StringLess(b, a)) && !StringLess(a, a)
  {
    if a != "" {
      StringIrreflexive(a);
      if b != "" {
        StringTrichotomy(a[1..], b[1..]);
        if a[0] == b[0] && a[1..] == b[1..] {
          assert a == [a[0]] + a[1..] && b == [b[0]] + b[1..];
        }
      }
    }
  }

  lemma {:induction false} StringIrreflexive(a: string)
    ensures !StringLess(a, a)
  {
    if a != "" { StringIrreflexive(a[1..]); }
  }

  lemma {:induction false} StringTransitive(a: string, b: string, c: string)
    requires StringLess(a, b) && StringLess(b, c)
    ensures StringLess(a, c)
  {
    if a != "" && a[0] == b[0] && b[0] == c[0] {
      StringTransitive(a[1..], b[1..], c[1..]);
    }
  }
}
