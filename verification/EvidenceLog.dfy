// The one insertion-ordered list that the evidence store refines, and the views its two indexes give
// of it (include/congestion/evidence/store.hpp, src/evidence/store.cpp).
module EvidenceLog {
  import opened Base
  import opened Model
  import opened Sorting

  type Log = seq<Evidence>

  // How a subject is named in the indexes; the store is built with Model.Key.
  type Naming = Subject -> Name

  // Ascending insertion order.
  ghost predicate Ordered(log: Log) {
    forall i, j :: 0 <= i < j < |log| ==> log[i].insertionIndex < log[j].insertionIndex
  }

  // The records of one subject, oldest first.
  function Bucket(key: Naming, log: Log, k: Name): Log {
    if log == [] then []
    else if key(log[0].subject) == k then [log[0]] + Bucket(key, log[1..], k)
    else Bucket(key, log[1..], k)
  }

  // The global eviction index: insertion index to subject key.
  function IndexOf(key: Naming, log: Log): map<nat, Name> {
    if log == [] then map[] else IndexOf(key, log[1..])[log[0].insertionIndex := key(log[0].subject)]
  }

  // The records whose insertion index is not in `gone`.
  function Without(log: Log, gone: set<nat>): Log {
    if log == [] then []
    else if log[0].insertionIndex in gone then Without(log[1..], gone)
    else [log[0]] + Without(log[1..], gone)
  }

  function Indices(log: Log): set<nat> {
    if log == [] then {} else {log[0].insertionIndex} + Indices(log[1..])
  }

  // Every record of a source, marked as superseded by a newer incarnation.
  function Retire(log: Log, source: Name): Log {
    if log == [] then []
    else [if log[0].source == source then log[0].(retired := true) else log[0]] + Retire(log[1..], source)
  }

  // ---- Buckets ----

  lemma {:induction false} BucketConcat(key: Naming, a: Log, b: Log, k: Name)
    ensures Bucket(key, a + b, k) == Bucket(key, a, k) + Bucket(key, b, k)
  {
    if a == [] {
      assert a + b == b;
    } else {
      assert (a + b)[1..] == a[1..] + b && (a + b)[0] == a[0];
      BucketConcat(key, a[1..], b, k);
      var x, y := Bucket(key, a[1..], k), Bucket(key, b, k);
      assert [a[0]] + (x + y) == ([a[0]] + x) + y;
    }
  }

  lemma {:induction false} BucketMembers(key: Naming, log: Log, k: Name, r: Evidence)
    ensures r in Bucket(key, log, k) <==> r in log && key(r.subject) == k
  {
    if log != [] {
      BucketMembers(key, log[1..], k, r);
      assert r in log <==> r == log[0] || r in log[1..];
    }
  }

  lemma {:induction false} BucketOrdered(key: Naming, log: Log, k: Name)
    requires Ordered(log)
    ensures Ordered(Bucket(key, log, k))
  {
    if log != [] {
      BucketOrdered(key, log[1..], k);
      var rest := Bucket(key, log[1..], k);
      forall i | 0 <= i < |rest| ensures log[0].insertionIndex < rest[i].insertionIndex {
        BucketMembers(key, log[1..], k, rest[i]);
      }
    }
  }

  // ---- Removal ----

  lemma {:induction false} WithoutMembers(log: Log, gone: set<nat>, r: Evidence)
    ensures r in Without(log, gone) <==> r in log && r.insertionIndex !in gone
  {
    if log != [] {
      WithoutMembers(log[1..], gone, r);
      assert r in log <==> r == log[0] || r in log[1..];
    }
  }

  lemma {:induction false} WithoutNone(log: Log, gone: set<nat>)
    requires forall r :: r in log ==> r.insertionIndex !in gone
    ensures Without(log, gone) == log
  {
    if log != [] {
      WithoutNone(log[1..], gone);
    }
  }

  lemma {:induction false} WithoutMore(log: Log, gone: set<nat>, i: nat)
    requires forall r :: r in log ==> r.insertionIndex != i
    ensures Without(log, gone + {i}) == Without(log, gone)
  {
    if log != [] {
      WithoutMore(log[1..], gone, i);
    }
  }

  lemma {:induction false} WithoutOrdered(log: Log, gone: set<nat>)
    requires Ordered(log)
    ensures Ordered(Without(log, gone))
  {
    if log != [] {
      WithoutOrdered(log[1..], gone);
      var rest := Without(log[1..], gone);
      forall i | 0 <= i < |rest| ensures log[0].insertionIndex < rest[i].insertionIndex {
        WithoutMembers(log[1..], gone, rest[i]);
      }
    }
  }

  lemma {:induction false} IndicesMember(log: Log, i: nat)
    ensures i in Indices(log) <==> exists r :: r in log && r.insertionIndex == i
  {
    if log != [] {
      IndicesMember(log[1..], i);
      assert log == [log[0]] + log[1..];
      if i in Indices(log[1..]) {
        var r :| r in log[1..] && r.insertionIndex == i;
        assert r in log;
      }
    }
  }

  lemma HeadIsFresh(log: Log)
    requires Ordered(log) && log != []
    ensures log[0].insertionIndex !in Indices(log[1..])
    ensures forall r :: r in log[1..] ==> r.insertionIndex != log[0].insertionIndex
  {
    IndicesMember(log[1..], log[0].insertionIndex);
  }

  lemma {:induction false} WithoutLength(log: Log, gone: set<nat>)
    requires Ordered(log)
    requires gone <= Indices(log)
    ensures |Without(log, gone)| == |log| - |gone|
    decreases |log|
  {
    if log == [] {
      assert gone == {};
    } else {
      var i := log[0].insertionIndex;
      HeadIsFresh(log);
      if i in gone {
        var rest := gone - {i};
        assert gone == rest + {i};
        WithoutLength(log[1..], rest);
        WithoutMore(log[1..], rest, i);
      } else {
        WithoutLength(log[1..], gone);
      }
    }
  }

  lemma {:induction false} BucketWithout(key: Naming, log: Log, gone: set<nat>, k: Name)
    ensures Bucket(key, Without(log, gone), k) == Without(Bucket(key, log, k), gone)
  {
    if log != [] {
      var rest := Without(log[1..], gone);
      BucketWithout(key, log[1..], gone, k);
      if log[0].insertionIndex !in gone {
        assert Without(log, gone)[1..] == rest;
      }
      if key(log[0].subject) == k {
        assert Bucket(key, log, k)[1..] == Bucket(key, log[1..], k);
      }
    }
  }

  lemma DropHead(log: Log)
    requires Ordered(log) && log != []
    ensures Without(log, {log[0].insertionIndex}) == log[1..]
  {
    WithoutNone(log[1..], {log[0].insertionIndex});
  }

  // ---- The index ----

  lemma {:induction false} IndexKeys(key: Naming, log: Log)
    ensures IndexOf(key, log).Keys == Indices(log)
  {
    if log != [] {
      IndexKeys(key, log[1..]);
    }
  }

  lemma {:induction false} IndexWithout(key: Naming, log: Log, gone: set<nat>)
    requires Ordered(log)
    ensures IndexOf(key, Without(log, gone)) == IndexOf(key, log) - gone
  {
    if log != [] {
      var rest := Without(log[1..], gone);
      IndexWithout(key, log[1..], gone);
      if log[0].insertionIndex in gone {
        assert Without(log, gone) == rest;
      } else {
        assert Without(log, gone)[1..] == rest;
      }
    }
  }

  lemma {:induction false} IndexAppend(key: Naming, log: Log, r: Evidence)
    requires r.insertionIndex !in Indices(log)
    ensures IndexOf(key, log + [r]) == IndexOf(key, log)[r.insertionIndex := key(r.subject)]
  {
    if log == [] {
      assert log + [r] == [r];
    } else {
      assert (log + [r])[1..] == log[1..] + [r] && (log + [r])[0] == log[0];
      IndexAppend(key, log[1..], r);
    }
  }

  lemma {:induction false} IndexValue(key: Naming, log: Log, i: nat)
    requires Ordered(log) && i < |log|
    ensures log[i].insertionIndex in IndexOf(key, log) && IndexOf(key, log)[log[i].insertionIndex] == key(log[i].subject)
  {
    if i > 0 {
      IndexValue(key, log[1..], i - 1);
      assert log[0].insertionIndex < log[i].insertionIndex;
    }
  }

  // ---- Retirement ----

  lemma {:induction false} RetireAt(log: Log, source: Name)
    ensures |Retire(log, source)| == |log|
    ensures forall i :: 0 <= i < |log| ==>
              Retire(log, source)[i] == if log[i].source == source then log[i].(retired := true) else log[i]
  {
    if log != [] {
      RetireAt(log[1..], source);
    }
  }

  lemma {:induction false} BucketRetire(key: Naming, log: Log, source: Name, k: Name)
    ensures Bucket(key, Retire(log, source), k) == Retire(Bucket(key, log, k), source)
  {
    if log != [] {
      BucketRetire(key, log[1..], source, k);
      assert Retire(log, source)[1..] == Retire(log[1..], source);
      if key(log[0].subject) == k {
        assert Bucket(key, log, k)[1..] == Bucket(key, log[1..], k);
      }
    }
  }

  lemma {:induction false} IndexRetire(key: Naming, log: Log, source: Name)
    ensures IndexOf(key, Retire(log, source)) == IndexOf(key, log)
  {
    if log != [] {
      IndexRetire(key, log[1..], source);
      assert Retire(log, source)[1..] == Retire(log[1..], source);
    }
  }

  // ---- The order of the buckets ----

  // Buckets come by the name of their subject, and each holds its records by age.
  function ByBucket(key: Naming): (Evidence, Evidence) -> bool {
    (a: Evidence, b: Evidence) =>
      if key(a.subject) != key(b.subject) then BytesLeq(key(a.subject), key(b.subject)) else a.insertionIndex <= b.insertionIndex
  }

  // The least of some names is the next key of an ordered map.
  lemma {:induction false} LeastName(names: set<Name>) returns (least: Name)
    requires names != {}
    ensures least in names && forall n :: n in names ==> BytesLeq(least, n)
    decreases |names|
  {
    var n :| n in names;
    BytesOrder();
    if names == {n} {
      least := n;
    } else {
      var others := names - {n};
      assert names == others + {n};
      var first := LeastName(others);
      least := if BytesLeq(n, first) then n else first;
    }
  }

  method NextName(names: set<Name>) returns (k: Name)
    requires names != {}
    ensures k in names && forall n :: n in names ==> BytesLeq(k, n)
  {
    ghost var least := LeastName(names);
    k :| k in names && forall n :: n in names ==> BytesLeq(k, n);
  }

  // ---- Sweeping ----

  // The records observed before the horizon.
  function Outdated(log: Log, horizon: int): set<nat> {
    if log == [] then {}
    else (if log[0].observedAt < horizon then {log[0].insertionIndex} else {}) + Outdated(log[1..], horizon)
  }

  lemma {:induction false} OutdatedMember(log: Log, horizon: int, i: nat)
    ensures i in Outdated(log, horizon) <==> exists r :: r in log && r.insertionIndex == i && r.observedAt < horizon
  {
    if log != [] {
      OutdatedMember(log[1..], horizon, i);
      assert log == [log[0]] + log[1..];
      if i in Outdated(log[1..], horizon) {
        var r :| r in log[1..] && r.insertionIndex == i && r.observedAt < horizon;
        assert r in log;
      }
    }
  }

  lemma {:induction false} WithoutConcat(a: Log, b: Log, gone: set<nat>)
    ensures Without(a + b, gone) == Without(a, gone) + Without(b, gone)
  {
    if a == [] {
      assert a + b == b;
    } else {
      assert (a + b)[1..] == a[1..] + b && (a + b)[0] == a[0];
      WithoutConcat(a[1..], b, gone);
      var x, y := Without(a[1..], gone), Without(b, gone);
      assert [a[0]] + (x + y) == ([a[0]] + x) + y;
    }
  }

  lemma {:induction false} OutdatedConcat(a: Log, b: Log, horizon: int)
    ensures Outdated(a + b, horizon) == Outdated(a, horizon) + Outdated(b, horizon)
  {
    if a == [] {
      assert a + b == b;
    } else {
      assert (a + b)[1..] == a[1..] + b && (a + b)[0] == a[0];
      OutdatedConcat(a[1..], b, horizon);
    }
  }

  lemma OutdatedAreIndices(log: Log, horizon: int)
    ensures Outdated(log, horizon) <= Indices(log)
  {
    forall i | i in Outdated(log, horizon) ensures i in Indices(log) {
      OutdatedMember(log, horizon, i);
      IndicesMember(log, i);
    }
  }

  // What compaction has removed and kept after reading n records.
  function Removed(log: Log, n: nat, horizon: int): set<nat>
    requires n <= |log|
  {
    Outdated(log[..n], horizon)
  }

  function Kept(log: Log, n: nat, horizon: int): Log
    requires n <= |log|
  {
    Without(log[..n], Outdated(log[..n], horizon))
  }

  // One record more: an outdated one leaves, any other is kept behind the rest.
  lemma CompactStep(log: Log, n: nat, horizon: int)
    requires Ordered(log) && n < |log|
    ensures var old_ := log[n].observedAt < horizon;
            && Removed(log, n + 1, horizon) == (if old_ then Removed(log, n, horizon) + {log[n].insertionIndex} else Removed(log, n, horizon))
            && |Removed(log, n + 1, horizon)| == |Removed(log, n, horizon)| + (if old_ then 1 else 0)
            && Kept(log, n + 1, horizon) == (if old_ then Kept(log, n, horizon) else Kept(log, n, horizon) + [log[n]])
  {
    var gone, i := Outdated(log[..n], horizon), log[n].insertionIndex;
    assert log[..n + 1] == log[..n] + [log[n]];
    OutdatedAreIndices(log[..n], horizon);
    IndicesMember(log[..n], i);
    OutdatedConcat(log[..n], [log[n]], horizon);
    WithoutConcat(log[..n], [log[n]], gone + {i});
    WithoutConcat(log[..n], [log[n]], gone);
    WithoutMore(log[..n], gone, i);
  }

  // Stopping after n records and keeping the rest removes exactly what was removed so far.
  lemma StopAfter(log: Log, n: nat, horizon: int)
    requires Ordered(log) && n <= |log|
    ensures Removed(log, n, horizon) <= Outdated(log, horizon)
    ensures Without(log, Removed(log, n, horizon)) == Kept(log, n, horizon) + log[n..]
  {
    var gone := Outdated(log[..n], horizon);
    assert log == log[..n] + log[n..];
    OutdatedConcat(log[..n], log[n..], horizon);
    WithoutConcat(log[..n], log[n..], gone);
    OutdatedAreIndices(log[..n], horizon);
    forall r | r in log[n..] ensures r.insertionIndex !in gone {
      IndicesMember(log[..n], r.insertionIndex);
    }
    WithoutNone(log[n..], gone);
  }

  // What is removed of a bucket is the front of what could be.
  ghost predicate IsFront(log: Log, gone: set<nat>, horizon: int) {
    forall i, r :: i in gone && r in log && r.observedAt < horizon && r.insertionIndex !in gone ==> i < r.insertionIndex
  }

  lemma RemovedFront(log: Log, n: nat, horizon: int)
    requires Ordered(log) && n <= |log|
    ensures IsFront(log, Removed(log, n, horizon), horizon)
  {
    forall i, r | i in Removed(log, n, horizon) && r in log && r.observedAt < horizon && r.insertionIndex !in Removed(log, n, horizon)
      ensures i < r.insertionIndex
    {
      OutdatedMember(log[..n], horizon, i);
      OutdatedMember(log[..n], horizon, r.insertionIndex);
      assert forall c :: 0 <= c < n ==> log[c] == log[..n][c];
      var x :| x in log[..n] && x.insertionIndex == i;
      var a :| 0 <= a < n && log[a] == x;
      var b :| 0 <= b < |log| && log[b] == r;
    }
  }

  lemma {:induction false} WithoutShorter(log: Log, gone: set<nat>)
    ensures |Without(log, gone)| <= |log|
  {
    if log != [] {
      WithoutShorter(log[1..], gone);
    }
  }

  lemma {:induction false} BucketShorter(key: Naming, log: Log, k: Name)
    ensures |Bucket(key, log, k)| <= |log|
  {
    if log != [] {
      BucketShorter(key, log[1..], k);
    }
  }

  lemma {:induction false} WithoutTwice(log: Log, a: set<nat>, b: set<nat>)
    ensures Without(Without(log, a), b) == Without(log, a + b)
  {
    if log != [] {
      WithoutTwice(log[1..], a, b);
      if log[0].insertionIndex !in a {
        assert Without(log, a)[1..] == Without(log[1..], a);
      }
    }
  }

  // ---- Dropping the oldest record of a subject ----

  function OldestIndex(key: Naming, log: Log, k: Name): nat
    requires Bucket(key, log, k) != []
  {
    Bucket(key, log, k)[0].insertionIndex
  }

  function DropOldest(key: Naming, log: Log, k: Name): Log
    requires Bucket(key, log, k) != []
  {
    Without(log, {OldestIndex(key, log, k)})
  }

  lemma SameIndexSameRecord(log: Log, r: Evidence, s: Evidence)
    requires Ordered(log) && r in log && s in log && r.insertionIndex == s.insertionIndex
    ensures r == s
  {
    var i :| 0 <= i < |log| && log[i] == r;
    var j :| 0 <= j < |log| && log[j] == s;
    assert !(i < j) && !(j < i);
  }

  lemma DropOldestBuckets(key: Naming, log: Log, k: Name, j: Name)
    requires Ordered(log) && Bucket(key, log, k) != []
    ensures Bucket(key, DropOldest(key, log, k), j) == if j == k then Bucket(key, log, k)[1..] else Bucket(key, log, j)
  {
    var mine := Bucket(key, log, k);
    var i := OldestIndex(key, log, k);
    BucketWithout(key, log, {i}, j);
    BucketMembers(key, log, k, mine[0]);
    if j == k {
      BucketOrdered(key, log, k);
      DropHead(mine);
    } else {
      forall r | r in Bucket(key, log, j) ensures r.insertionIndex != i {
        BucketMembers(key, log, j, r);
        if r.insertionIndex == i {
          SameIndexSameRecord(log, r, mine[0]);
        }
      }
      WithoutNone(Bucket(key, log, j), {i});
    }
  }

  lemma DropOldestSize(key: Naming, log: Log, k: Name)
    requires Ordered(log) && Bucket(key, log, k) != []
    ensures |DropOldest(key, log, k)| == |log| - 1
    ensures Ordered(DropOldest(key, log, k))
    ensures forall r :: r in DropOldest(key, log, k) ==> r in log
  {
    var i := OldestIndex(key, log, k);
    BucketMembers(key, log, k, Bucket(key, log, k)[0]);
    IndicesMember(log, i);
    WithoutLength(log, {i});
    WithoutOrdered(log, {i});
    forall r | r in DropOldest(key, log, k) ensures r in log {
      WithoutMembers(log, {i}, r);
    }
  }

  // The list head is the oldest record of its own subject.
  lemma HeadIsOldest(key: Naming, log: Log)
    requires Ordered(log) && log != []
    ensures Bucket(key, log, key(log[0].subject)) != []
    ensures OldestIndex(key, log, key(log[0].subject)) == log[0].insertionIndex
    ensures DropOldest(key, log, key(log[0].subject)) == log[1..]
  {
    DropHead(log);
  }

  // ---- Admission ----

  // At the global cap the list head goes, then at the subject cap the subject's oldest record goes;
  // the new record is appended to what is left.
  function Evicted(key: Naming, log: Log, k: Name, maxRetained: nat, maxPerSubject: nat): Log {
    var a := if |log| >= maxRetained && log != [] then log[1..] else log;
    if |Bucket(key, a, k)| >= maxPerSubject && Bucket(key, a, k) != [] then DropOldest(key, a, k) else a
  }

  // ---- What admission may cost ----

  // At the bound of the whole store its oldest record has to go.
  ghost predicate GoesForStore(before: Log, r: Evidence, maxRetained: nat) {
    before != [] && r == before[0] && |before| >= maxRetained
  }

  // The records of one subject that are left then.
  ghost function LeftOf(key: Naming, before: Log, k: Name, maxRetained: nat): set<Evidence> {
    set r | r in before && key(r.subject) == k && !GoesForStore(before, r, maxRetained)
  }

  // At the bound of the subject the oldest of these has to go.
  ghost predicate GoesForSubject(key: Naming, before: Log, k: Name, r: Evidence, maxRetained: nat, maxPerSubject: nat) {
    var left := LeftOf(key, before, k, maxRetained);
    r in left && |left| >= maxPerSubject && forall x :: x in left ==> r.insertionIndex <= x.insertionIndex
  }

  // The list after an admission: everything that did not have to go, in order, and the new record behind it.
  ghost predicate Admits(key: Naming, before: Log, after: Log, stored: Evidence, maxRetained: nat, maxPerSubject: nat) {
    var k := key(stored.subject);
    && after != [] && after[|after| - 1] == stored && Ordered(after[..|after| - 1])
    && forall r :: r in after[..|after| - 1] <==>
         r in before && !GoesForStore(before, r, maxRetained) && !GoesForSubject(key, before, k, r, maxRetained, maxPerSubject)
  }

  // The records left of the subject, as a bucket.
  lemma LeftIsBucket(key: Naming, before: Log, left: Log, k: Name, maxRetained: nat)
    requires Ordered(before) && Ordered(left)
    requires forall r :: r in left <==> r in before && !GoesForStore(before, r, maxRetained)
    ensures |LeftOf(key, before, k, maxRetained)| == |Bucket(key, left, k)|
    ensures forall r :: r in LeftOf(key, before, k, maxRetained) <==> r in Bucket(key, left, k)
  {
    var mine := Bucket(key, left, k);
    forall r ensures r in LeftOf(key, before, k, maxRetained) <==> r in mine {
      BucketMembers(key, left, k, r);
    }
    BucketOrdered(key, left, k);
    OrderedSize(mine);
    assert LeftOf(key, before, k, maxRetained) == set r | r in mine;
  }

  lemma {:induction false} OrderedSize(log: Log)
    requires Ordered(log)
    ensures |set r | r in log| == |log|
  {
    if log == [] {
      assert (set r | r in log) == {};
    } else {
      OrderedSize(log[1..]);
      assert (set r | r in log) == {log[0]} + set r | r in log[1..];
    }
  }

  lemma FirstIsLeast(log: Log, r: Evidence)
    requires Ordered(log) && log != [] && r in log
    ensures log[0].insertionIndex <= r.insertionIndex
    ensures (forall x :: x in log ==> r.insertionIndex <= x.insertionIndex) <==> r == log[0]
  {
    var i :| 0 <= i < |log| && log[i] == r;
    if r != log[0] {
      assert log[0] in log && log[0].insertionIndex < r.insertionIndex;
    }
    forall x | x in log ensures log[0].insertionIndex <= x.insertionIndex {
      var j :| 0 <= j < |log| && log[j] == x;
    }
  }

  // Without the head.
  lemma AfterStore(before: Log, maxRetained: nat) returns (left: Log)
    requires Ordered(before)
    ensures left == if |before| >= maxRetained && before != [] then before[1..] else before
    ensures Ordered(left) && forall r :: r in left <==> r in before && !GoesForStore(before, r, maxRetained)
  {
    left := if |before| >= maxRetained && before != [] then before[1..] else before;
    if before != [] {
      assert before == [before[0]] + before[1..];
    }
  }

  lemma EvictedExactly(key: Naming, before: Log, k: Name, maxRetained: nat, maxPerSubject: nat, r: Evidence)
    requires Ordered(before)
    ensures r in Evicted(key, before, k, maxRetained, maxPerSubject) <==>
      r in before && !GoesForStore(before, r, maxRetained) && !GoesForSubject(key, before, k, r, maxRetained, maxPerSubject)
  {
    var left := AfterStore(before, maxRetained);
    LeftIsBucket(key, before, left, k, maxRetained);
    BucketOrdered(key, left, k);
    if Bucket(key, left, k) != [] {
      DroppedExactly(key, left, k, r);
    }
  }

  lemma DroppedExactly(key: Naming, left: Log, k: Name, r: Evidence)
    requires Ordered(left) && Bucket(key, left, k) != []
    ensures r in DropOldest(key, left, k)
      <==> r in left && !(r in Bucket(key, left, k) && forall x :: x in Bucket(key, left, k) ==> r.insertionIndex <= x.insertionIndex)
  {
    var mine := Bucket(key, left, k);
    BucketOrdered(key, left, k);
    WithoutMembers(left, {mine[0].insertionIndex}, r);
    BucketMembers(key, left, k, mine[0]);
    OldestGoes(left, mine, r);
    forall x | x in mine ensures mine[0].insertionIndex <= x.insertionIndex {
      FirstIsLeast(mine, x);
    }
  }

  // The oldest record of a bucket is the only one in the list with its place.
  lemma OldestGoes(left: Log, mine: Log, r: Evidence)
    requires Ordered(left) && Ordered(mine) && mine != [] && mine[0] in left
    ensures r in left && r.insertionIndex == mine[0].insertionIndex ==> r == mine[0]
    ensures r in mine ==> mine[0].insertionIndex <= r.insertionIndex
  {
    if r in left && r.insertionIndex == mine[0].insertionIndex {
      SameIndexSameRecord(left, r, mine[0]);
    }
    if r in mine {
      FirstIsLeast(mine, r);
    }
  }

  lemma EvictedOrdered(key: Naming, before: Log, k: Name, maxRetained: nat, maxPerSubject: nat)
    requires Ordered(before)
    ensures Ordered(Evicted(key, before, k, maxRetained, maxPerSubject))
  {
    var left := AfterStore(before, maxRetained);
    if Bucket(key, left, k) != [] {
      DropOldestSize(key, left, k);
    }
  }

  // An admission costs the oldest record of all exactly at the bound of the store, the oldest one left of the
  // subject exactly at its bound, and no other.
  lemma AdmitsExactly(key: Naming, before: Log, stored: Evidence, maxRetained: nat, maxPerSubject: nat)
    requires Ordered(before)
    ensures Admits(key, before, Evicted(key, before, key(stored.subject), maxRetained, maxPerSubject) + [stored], stored, maxRetained, maxPerSubject)
  {
    var kept := Evicted(key, before, key(stored.subject), maxRetained, maxPerSubject);
    assert (kept + [stored])[..|kept|] == kept;
    EvictedOrdered(key, before, key(stored.subject), maxRetained, maxPerSubject);
    forall r ensures r in kept <==> r in before && !GoesForStore(before, r, maxRetained)
                                    && !GoesForSubject(key, before, key(stored.subject), r, maxRetained, maxPerSubject) {
      EvictedExactly(key, before, key(stored.subject), maxRetained, maxPerSubject, r);
    }
  }

  lemma {:induction false} SameMembers(a: Log, b: Log)
    requires Ordered(a) && Ordered(b) && forall r :: r in a <==> r in b
    ensures a == b
  {
    OrderedSize(a);
    OrderedSize(b);
    assert (set r | r in a) == set r | r in b;
    if a != [] {
      assert a[0] in b && b[0] in a;
      FirstIsLeast(a, b[0]);
      FirstIsLeast(b, a[0]);
      SameIndexSameRecord(a, a[0], b[0]);
      forall r ensures r in a[1..] <==> r in b[1..] {
        TailMember(a, r);
        TailMember(b, r);
      }
      SameMembers(a[1..], b[1..]);
    }
  }

  lemma TailMember(a: Log, r: Evidence)
    requires Ordered(a) && a != []
    ensures r in a[1..] <==> r in a && r != a[0]
  {
    assert a == [a[0]] + a[1..];
  }

  // There is one list that an admission can leave.
  lemma AdmissionUnique(key: Naming, before: Log, a: Log, b: Log, stored: Evidence, maxRetained: nat, maxPerSubject: nat)
    requires Admits(key, before, a, stored, maxRetained, maxPerSubject) && Admits(key, before, b, stored, maxRetained, maxPerSubject)
    ensures a == b
  {
    var x, y := a[..|a| - 1], b[..|b| - 1];
    forall r ensures r in x <==> r in y {
      assert r in x <==> r in before && !GoesForStore(before, r, maxRetained)
                         && !GoesForSubject(key, before, key(stored.subject), r, maxRetained, maxPerSubject);
    }
    SameMembers(x, y);
    assert a == x + [stored] && b == y + [stored];
  }

  // Nothing goes while there is room.
  lemma RoomAppends(key: Naming, before: Log, after: Log, stored: Evidence, maxRetained: nat, maxPerSubject: nat)
    requires Ordered(before) && Admits(key, before, after, stored, maxRetained, maxPerSubject)
    requires |before| < maxRetained && |set r | r in before && key(r.subject) == key(stored.subject)| < maxPerSubject
    ensures after == before + [stored]
  {
    var kept := after[..|after| - 1];
    assert LeftOf(key, before, key(stored.subject), maxRetained) == set r | r in before && key(r.subject) == key(stored.subject);
    SameMembers(kept, before);
    assert after == kept + [stored];
  }
}
