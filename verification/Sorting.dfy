// Total orders, sorting and what a sort promises. The repository sorts with std::sort on total keys,
// so the result is the one sorted permutation, whatever the algorithm.
module Sorting {
  import opened Base

  // A comparison that may tie distinct values.
  ghost predicate TotalPreorder<T(!new)>(leq: (T, T) -> bool) {
    && (forall a, b :: leq(a, b) || leq(b, a))
    && (forall a, b, c :: leq(a, b) && leq(b, c) ==> leq(a, c))
  }

  ghost predicate TotalOrder<T(!new)>(leq: (T, T) -> bool) {
    && TotalPreorder(leq)
    && (forall a, b :: leq(a, b) && leq(b, a) ==> a == b)
  }

  // No two values of a list tie.
  ghost predicate Decides<T(!new)>(leq: (T, T) -> bool, s: seq<T>) {
    forall a, b :: a in s && b in s && leq(a, b) && leq(b, a) ==> a == b
  }

  ghost predicate IsSorted<T>(s: seq<T>, leq: (T, T) -> bool) {
    forall i, j :: 0 <= i < j < |s| ==> leq(s[i], s[j])
  }

  function Insert<T>(x: T, s: seq<T>, leq: (T, T) -> bool): seq<T> {
    if s == [] || leq(x, s[0]) then [x] + s else [s[0]] + Insert(x, s[1..], leq)
  }

  function SortBy<T>(s: seq<T>, leq: (T, T) -> bool): seq<T> {
    if s == [] then [] else Insert(s[0], SortBy(s[1..], leq), leq)
  }

  lemma {:induction false} InsertContents<T>(x: T, s: seq<T>, leq: (T, T) -> bool)
    ensures multiset(Insert(x, s, leq)) == multiset(s) + multiset{x}
  {
    if s != [] && !leq(x, s[0]) {
      InsertContents(x, s[1..], leq);
      assert s == [s[0]] + s[1..];
    }
  }

  lemma {:induction false} InsertSorted<T(!new)>(x: T, s: seq<T>, leq: (T, T) -> bool)
    requires TotalPreorder(leq) && IsSorted(s, leq)
    ensures IsSorted(Insert(x, s, leq), leq)
  {
    if s != [] && !leq(x, s[0]) {
      InsertSorted(x, s[1..], leq);
      var rest := Insert(x, s[1..], leq);
      forall j | 0 <= j < |rest| ensures leq(s[0], rest[j]) {
        InsertContents(x, s[1..], leq);
        assert rest[j] in multiset(rest);
        assert rest[j] in multiset(s[1..]) + multiset{x};
      }
    }
  }

  lemma {:induction false} SortPermutes<T>(s: seq<T>, leq: (T, T) -> bool)
    ensures multiset(SortBy(s, leq)) == multiset(s)
    ensures |SortBy(s, leq)| == |s|
  {
    if s != [] {
      SortPermutes(s[1..], leq);
      InsertContents(s[0], SortBy(s[1..], leq), leq);
      assert s == [s[0]] + s[1..];
    }
    assert |multiset(SortBy(s, leq))| == |multiset(s)|;
  }

  lemma {:induction false} SortSorts<T(!new)>(s: seq<T>, leq: (T, T) -> bool)
    requires TotalPreorder(leq)
    ensures IsSorted(SortBy(s, leq), leq)
  {
    if s != [] {
      SortSorts(s[1..], leq);
      InsertSorted(s[0], SortBy(s[1..], leq), leq);
    }
  }

  lemma TailContents<T>(s: seq<T>)
    requires s != []
    ensures multiset(s[1..]) == multiset(s) - multiset{s[0]}
  {
    assert s == [s[0]] + s[1..];
  }

  lemma HeadIsLeast<T(!new)>(s: seq<T>, x: T, leq: (T, T) -> bool)
    requires TotalPreorder(leq) && IsSorted(s, leq) && s != [] && x in s
    ensures leq(s[0], x)
  {
    var i :| 0 <= i < |s| && s[i] == x;
  }

  lemma HeadsAgree<T(!new)>(s: seq<T>, t: seq<T>, leq: (T, T) -> bool)
    requires TotalPreorder(leq) && IsSorted(s, leq) && IsSorted(t, leq) && Decides(leq, s)
    requires s != [] && t != [] && multiset(s) == multiset(t)
    ensures s[0] == t[0]
  {
    assert t[0] in s by {
      assert t[0] in multiset(t);
      assert t[0] in multiset(s);
    }
    assert s[0] in t by {
      assert s[0] in multiset(s);
      assert s[0] in multiset(t);
    }
    HeadIsLeast(s, t[0], leq);
    HeadIsLeast(t, s[0], leq);
  }

  lemma TailSorted<T(!new)>(s: seq<T>, leq: (T, T) -> bool)
    requires IsSorted(s, leq) && s != []
    ensures IsSorted(s[1..], leq)
  {
  }

  lemma SameLength<T>(s: seq<T>, t: seq<T>)
    requires multiset(s) == multiset(t)
    ensures |s| == |t|
  {
    assert |s| == |multiset(s)| == |multiset(t)| == |t|;
  }

  // The sorted permutation is unique.
  lemma {:induction false} SortedUnique<T(!new)>(s: seq<T>, t: seq<T>, leq: (T, T) -> bool)
    requires TotalPreorder(leq) && IsSorted(s, leq) && IsSorted(t, leq) && Decides(leq, s)
    requires multiset(s) == multiset(t)
    ensures s == t
    decreases |s|
  {
    SameLength(s, t);
    if s != [] {
      HeadsAgree(s, t, leq);
      TailContents(s);
      TailContents(t);
      TailSorted(s, leq);
      TailSorted(t, leq);
      SortedUnique(s[1..], t[1..], leq);
      assert s == [s[0]] + s[1..];
      assert t == [t[0]] + t[1..];
    }
  }

  lemma DecidesPermuted<T(!new)>(leq: (T, T) -> bool, s: seq<T>, t: seq<T>)
    requires Decides(leq, s) && multiset(s) == multiset(t)
    ensures Decides(leq, t)
  {
    forall a | a in t ensures a in s {
      assert a in multiset(t);
      assert a in multiset(s);
    }
  }

  // Sorting forgets the order of its input.
  lemma SortForgetsOrder<T(!new)>(s: seq<T>, t: seq<T>, leq: (T, T) -> bool)
    requires TotalPreorder(leq) && Decides(leq, s) && multiset(s) == multiset(t)
    ensures SortBy(s, leq) == SortBy(t, leq)
  {
    SortPermutes(s, leq);
    DecidesPermuted(leq, s, SortBy(s, leq));
    SortPermutes(t, leq);
    SortSorts(s, leq);
    SortSorts(t, leq);
    SortedUnique(SortBy(s, leq), SortBy(t, leq), leq);
  }

  // ---- Mapping a list, and permutations of its input ----

  function Map<T, U>(f: T -> U, s: seq<T>): (r: seq<U>)
    ensures |r| == |s|
    ensures forall i :: 0 <= i < |s| ==> r[i] == f(s[i])
  {
    if s == [] then [] else [f(s[0])] + Map(f, s[1..])
  }

  lemma {:induction false} MapConcat<T, U>(f: T -> U, a: seq<T>, b: seq<T>)
    ensures Map(f, a + b) == Map(f, a) + Map(f, b)
  {
    assert |Map(f, a + b)| == |Map(f, a) + Map(f, b)|;
    forall i | 0 <= i < |a| + |b| ensures Map(f, a + b)[i] == (Map(f, a) + Map(f, b))[i] {
    }
  }

  // A list with x in it is a permutation of x followed by the others.
  lemma TakeOut<T>(s: seq<T>, x: T) returns (k: nat)
    requires x in s
    ensures k < |s| && s[k] == x && s == s[..k] + ([x] + s[k + 1..])
    ensures multiset(s[..k] + s[k + 1..]) == multiset(s) - multiset{x}
  {
    k :| 0 <= k < |s| && s[k] == x;
    assert s == s[..k] + ([x] + s[k + 1..]);
    assert multiset(s) == multiset(s[..k]) + (multiset{x} + multiset(s[k + 1..]));
  }

  lemma {:induction false} MapPermutes<T, U>(f: T -> U, s: seq<T>, t: seq<T>)
    requires multiset(s) == multiset(t)
    ensures multiset(Map(f, s)) == multiset(Map(f, t))
    decreases |s|
  {
    assert |s| == |multiset(s)| == |multiset(t)| == |t|;
    if s != [] {
      assert s[0] in multiset(t);
      var k := TakeOut(t, s[0]);
      var rest := t[..k] + t[k + 1..];
      TailContents(s);
      MapPermutes(f, s[1..], rest);
      MapConcat(f, t[..k], t[k + 1..]);
      MapConcat(f, t[..k], [s[0]] + t[k + 1..]);
      MapConcat(f, [s[0]], t[k + 1..]);
    }
  }

  // ---- Lists without repetition ----

  // Ascending without repetition: how an ordered map or set lists its keys.
  ghost predicate Ascends<T>(s: seq<T>, leq: (T, T) -> bool) {
    forall i, j :: 0 <= i < j < |s| ==> leq(s[i], s[j]) && s[i] != s[j]
  }

  lemma AscendsAppend<T>(s: seq<T>, x: T, leq: (T, T) -> bool)
    requires Ascends(s, leq) && forall y :: y in s ==> leq(y, x) && y != x
    ensures Ascends(s + [x], leq)
  {
  }

  // Sorting distinct elements lists them in ascending order.
  lemma SortAscends<T(!new)>(s: seq<T>, leq: (T, T) -> bool)
    requires TotalOrder(leq)
    requires forall i, j :: 0 <= i < j < |s| ==> s[i] != s[j]
    ensures Ascends(SortBy(s, leq), leq)
    ensures forall x :: x in SortBy(s, leq) <==> x in s
  {
    var t := SortBy(s, leq);
    SortPermutes(s, leq);
    SortSorts(s, leq);
    forall x ensures x in t <==> x in s {
      assert x in t <==> x in multiset(t);
      assert x in s <==> x in multiset(s);
    }
    forall x ensures multiset(t)[x] <= 1 {
      Once(s, x);
    }
    Distinct(t);
  }

  lemma Twice<T>(s: seq<T>, i: nat, j: nat)
    requires i < j < |s|
    ensures s[i] == s[j] ==> multiset(s)[s[i]] >= 2
  {
    assert s == s[..j] + ([s[j]] + s[j + 1..]);
    assert s[i] in s[..j];
  }

  lemma Distinct<T(!new)>(s: seq<T>)
    requires forall x :: multiset(s)[x] <= 1
    ensures forall i, j :: 0 <= i < j < |s| ==> s[i] != s[j]
  {
    forall i, j | 0 <= i < j < |s| ensures s[i] != s[j] {
      Twice(s, i, j);
    }
  }

  lemma {:induction false} Once<T>(s: seq<T>, x: T)
    requires forall i, j :: 0 <= i < j < |s| ==> s[i] != s[j]
    ensures multiset(s)[x] <= 1
  {
    if s != [] {
      Once(s[1..], x);
      assert s == [s[0]] + s[1..];
      if s[0] == x {
        assert x !in s[1..];
      }
    }
  }

  lemma InsertAscends<T(!new)>(x: T, s: seq<T>, leq: (T, T) -> bool)
    requires TotalOrder(leq) && Ascends(s, leq) && x !in s
    ensures Ascends(Insert(x, s, leq), leq)
    ensures forall y :: y in Insert(x, s, leq) <==> y in s || y == x
  {
    var t := Insert(x, s, leq);
    assert IsSorted(s, leq);
    InsertSorted(x, s, leq);
    InsertContents(x, s, leq);
    forall y ensures y in t <==> y in s || y == x {
      assert y in t <==> y in multiset(t);
      assert y in s <==> y in multiset(s);
    }
    forall y ensures multiset(t)[y] <= 1 {
      Once(s, y);
      assert x !in multiset(s);
    }
    Distinct(t);
  }

  predicate NatLeq(a: nat, b: nat) { a <= b }

  // Removes repetitions from an ascending list.
  function Unique<T(==)>(s: seq<T>): seq<T> {
    if |s| <= 1 then s
    else if s[0] == s[1] then Unique(s[1..])
    else [s[0]] + Unique(s[1..])
  }

  lemma {:induction false} UniqueAscends<T(!new)>(s: seq<T>, leq: (T, T) -> bool)
    requires TotalOrder(leq) && IsSorted(s, leq)
    ensures Ascends(Unique(s), leq)
    ensures forall x :: x in Unique(s) <==> x in s
    ensures s != [] ==> Unique(s) != [] && Unique(s)[0] == s[0]
  {
    if |s| > 1 {
      UniqueAscends(s[1..], leq);
      assert s == [s[0]] + s[1..];
    }
  }

  lemma SortMembers<T(!new)>(s: seq<T>, leq: (T, T) -> bool)
    requires TotalOrder(leq)
    ensures IsSorted(SortBy(s, leq), leq)
    ensures forall x :: x in SortBy(s, leq) <==> x in s
    ensures |SortBy(s, leq)| == |s|
  {
    SortPermutes(s, leq);
    SortSorts(s, leq);
    forall x ensures x in SortBy(s, leq) <==> x in s {
      assert x in SortBy(s, leq) <==> x in multiset(SortBy(s, leq));
      assert x in s <==> x in multiset(s);
    }
  }

  // ---- Selecting from a list ----

  function Filter<T>(p: T -> bool, s: seq<T>): seq<T> {
    if s == [] then []
    else if p(s[|s| - 1]) then Filter(p, s[..|s| - 1]) + [s[|s| - 1]]
    else Filter(p, s[..|s| - 1])
  }

  lemma {:induction false} FilterMembers<T>(p: T -> bool, s: seq<T>)
    ensures forall x :: x in Filter(p, s) <==> x in s && p(x)
  {
    if s != [] {
      FilterMembers(p, s[..|s| - 1]);
      assert s == s[..|s| - 1] + [s[|s| - 1]];
    }
  }

  lemma FilterMember<T>(p: T -> bool, s: seq<T>, x: T)
    ensures x in Filter(p, s) <==> x in s && p(x)
  {
    FilterMembers(p, s);
  }

  lemma FilterNext<T>(p: T -> bool, s: seq<T>, x: T)
    ensures Filter(p, s + [x]) == if p(x) then Filter(p, s) + [x] else Filter(p, s)
  {
    assert (s + [x])[..|s|] == s;
  }

  lemma {:induction false} FilterCount<T>(p: T -> bool, s: seq<T>, x: T)
    ensures multiset(Filter(p, s))[x] == if p(x) then multiset(s)[x] else 0
  {
    if s != [] {
      FilterCount(p, s[..|s| - 1], x);
      assert s == s[..|s| - 1] + [s[|s| - 1]];
    }
  }

  lemma FilterPermutes<T(!new)>(p: T -> bool, s: seq<T>, t: seq<T>)
    requires multiset(s) == multiset(t)
    ensures multiset(Filter(p, s)) == multiset(Filter(p, t))
  {
    forall x ensures multiset(Filter(p, s))[x] == multiset(Filter(p, t))[x] {
      FilterCount(p, s, x);
      FilterCount(p, t, x);
    }
  }

  lemma {:induction false} FilterSplit<T>(p: T -> bool, q: T -> bool, both: T -> bool, only: T -> bool, s: seq<T>)
    requires forall x :: x in s ==> both(x) == (p(x) && q(x)) && only(x) == (p(x) && !q(x))
    ensures |Filter(p, s)| == |Filter(both, s)| + |Filter(only, s)|
  {
    if s != [] {
      FilterSplit(p, q, both, only, s[..|s| - 1]);
    }
  }

  lemma {:induction false} FilterNested<T>(p: T -> bool, q: T -> bool, s: seq<T>)
    requires forall x :: x in s && q(x) ==> p(x)
    ensures Filter(q, Filter(p, s)) == Filter(q, s)
  {
    if s != [] {
      var before, last := s[..|s| - 1], s[|s| - 1];
      FilterNested(p, q, before);
      if p(last) {
        FilterNext(q, Filter(p, before), last);
      }
    }
  }

  // ---- Names compare as byte strings ----

  predicate BytesLeq(a: Bytes, b: Bytes) {
    if a == [] then true
    else if b == [] then false
    else a[0] < b[0] || (a[0] == b[0] && BytesLeq(a[1..], b[1..]))
  }

  lemma {:induction false} BytesTotal(a: Bytes, b: Bytes)
    ensures BytesLeq(a, b) || BytesLeq(b, a)
    ensures BytesLeq(a, b) && BytesLeq(b, a) ==> a == b
  {
    if a != [] && b != [] {
      BytesTotal(a[1..], b[1..]);
      assert a == [a[0]] + a[1..] && b == [b[0]] + b[1..];
    }
  }

  lemma {:induction false} BytesTransitive(a: Bytes, b: Bytes, c: Bytes)
    requires BytesLeq(a, b) && BytesLeq(b, c)
    ensures BytesLeq(a, c)
  {
    if a != [] && a[0] == b[0] == c[0] {
      BytesTransitive(a[1..], b[1..], c[1..]);
    }
  }

  lemma BytesOrder()
    ensures TotalOrder(BytesLeq)
  {
    forall a, b ensures (BytesLeq(a, b) || BytesLeq(b, a)) && (BytesLeq(a, b) && BytesLeq(b, a) ==> a == b) {
      BytesTotal(a, b);
    }
    forall a, b, c | BytesLeq(a, b) && BytesLeq(b, c) ensures BytesLeq(a, c) {
      BytesTransitive(a, b, c);
    }
  }
}
