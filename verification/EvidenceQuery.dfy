// What a query of the evidence store answers, in terms of the one list the store refines
// (src/evidence/store.cpp:10-24,211-254).
module EvidenceQueries {
  import opened Base
  import opened Model
  import opened EvidenceLog
  import opened EvidenceViews
  import opened Fencing
  import opened Sorting

  datatype EvidenceQuery = EvidenceQuery(subject: Option<Subject>, kind: Option<EvidenceKind>, windowStart: int, windowEnd: int,
                                         maxRecords: nat, includeRecovered: bool, includeNonLive: bool, newestFirst: bool)

  // A window left at zero is the whole retention horizon.
  predicate Matches(r: Evidence, q: EvidenceQuery) {
    && (q.kind.Some? ==> r.kind == q.kind.value)
    && (q.windowStart != 0 || q.windowEnd != 0 ==> q.windowStart <= r.observedAt <= q.windowEnd)
    && (r.recovered ==> q.includeRecovered)
    && (r.retired || r.recovered ==> q.includeNonLive)
  }

  // What keeps a record out of an answer: another kind, a moment outside the window, or a recovered or retired
  // record that was not asked for. A recovered one has to be asked for as such and as one that is not live.
  lemma LeftOutExactly(r: Evidence, q: EvidenceQuery)
    ensures !Matches(r, q) <==>
      || (q.kind.Some? && q.kind.value != r.kind)
      || ((q.windowStart, q.windowEnd) != (0, 0) && !(q.windowStart <= r.observedAt <= q.windowEnd))
      || (r.recovered && !(q.includeRecovered && q.includeNonLive))
      || (r.retired && !q.includeNonLive)
  {
  }

  function Wanted(q: EvidenceQuery): Evidence -> bool { (r: Evidence) => Matches(r, q) }

  function PartIn(key: Naming, q: EvidenceQuery, names: set<Name>): Evidence -> bool {
    (r: Evidence) => key(r.subject) in names && Matches(r, q)
  }

  // The records a query is about, in the order in which they are met.
  function Asked(key: Naming, log: Log, q: EvidenceQuery): Log {
    match q.subject
    case None => SortBy(Filter(Wanted(q), log), ByBucket(key))
    case Some(s) => Filter(Wanted(q), Bucket(key, log, key(s)))
  }

  // ---- The order of an answer ----

  predicate OlderLeq(a: Evidence, b: Evidence) {
    || a.observedAt < b.observedAt
    || (a.observedAt == b.observedAt
        && (a.insertionIndex < b.insertionIndex || (a.insertionIndex == b.insertionIndex && a.id <= b.id)))
  }

  predicate NewerLeq(a: Evidence, b: Evidence) { OlderLeq(b, a) }

  function OrderOf(newestFirst: bool): (Evidence, Evidence) -> bool { if newestFirst then NewerLeq else OlderLeq }

  lemma OlderOrder()
    ensures TotalPreorder(OlderLeq)
  {
  }

  function Reversed(s: Log): (r: Log)
    ensures |r| == |s| && forall i :: 0 <= i < |s| ==> r[i] == s[|s| - 1 - i]
  {
    if s == [] then [] else Reversed(s[1..]) + [s[0]]
  }

  lemma {:induction false} ReversedContents(s: Log)
    ensures multiset(Reversed(s)) == multiset(s)
  {
    if s != [] {
      ReversedContents(s[1..]);
      assert s == [s[0]] + s[1..];
    }
  }

  function Presented(found: Log, newestFirst: bool): Log {
    if newestFirst then Reversed(SortBy(found, OlderLeq)) else SortBy(found, OlderLeq)
  }

  lemma PresentedInOrder(found: Log, newestFirst: bool)
    ensures IsSorted(Presented(found, newestFirst), OrderOf(newestFirst))
    ensures multiset(Presented(found, newestFirst)) == multiset(found) && |Presented(found, newestFirst)| == |found|
  {
    OlderOrder();
    SortSorts(found, OlderLeq);
    SortPermutes(found, OlderLeq);
    ReversedContents(SortBy(found, OlderLeq));
  }

  // Which bucket a record was met in first does not show: the answer depends on its records only.
  lemma PresentedForgetsOrder(log: Log, a: Log, b: Log, newestFirst: bool)
    requires Ordered(log) && multiset(a) == multiset(b) && forall r :: r in a ==> r in log
    ensures Presented(a, newestFirst) == Presented(b, newestFirst)
  {
    OlderOrder();
    forall x, y | x in a && y in a && OlderLeq(x, y) && OlderLeq(y, x) ensures x == y {
      SameIndexSameRecord(log, x, y);
    }
    SortForgetsOrder(a, b, OlderLeq);
  }

  // ---- Collecting bucket by bucket ----

  lemma {:induction false} FilterSame(p: Evidence -> bool, q: Evidence -> bool, s: Log)
    requires forall r :: r in s ==> p(r) == q(r)
    ensures Filter(p, s) == Filter(q, s)
  {
    if s != [] {
      FilterSame(p, q, s[..|s| - 1]);
    }
  }

  lemma BucketNext(key: Naming, log: Log, last: Evidence, q: EvidenceQuery, k: Name)
    ensures multiset(Filter(Wanted(q), Bucket(key, log + [last], k)))
      == multiset(Filter(Wanted(q), Bucket(key, log, k)))
         + if key(last.subject) == k && Matches(last, q) then multiset{last} else multiset{}
  {
    BucketConcat(key, log, [last], k);
    if key(last.subject) == k {
      assert Bucket(key, [last], k) == [last];
      FilterNext(Wanted(q), Bucket(key, log, k), last);
    } else {
      assert Bucket(key, [last], k) == [];
      assert Bucket(key, log, k) + [] == Bucket(key, log, k);
    }
  }

  lemma PartNext(key: Naming, log: Log, last: Evidence, q: EvidenceQuery, names: set<Name>)
    ensures multiset(Filter(PartIn(key, q, names), log + [last]))
      == multiset(Filter(PartIn(key, q, names), log))
         + if key(last.subject) in names && Matches(last, q) then multiset{last} else multiset{}
  {
    FilterNext(PartIn(key, q, names), log, last);
  }

  // One more bucket is one more part of the list.
  lemma {:induction false} OneMoreBucket(key: Naming, log: Log, q: EvidenceQuery, names: set<Name>, k: Name)
    requires k !in names
    ensures multiset(Filter(PartIn(key, q, names + {k}), log))
      == multiset(Filter(PartIn(key, q, names), log)) + multiset(Filter(Wanted(q), Bucket(key, log, k)))
  {
    if log != [] {
      var before, last := log[..|log| - 1], log[|log| - 1];
      assert log == before + [last];
      OneMoreBucket(key, before, q, names, k);
      BucketNext(key, before, last, q, k);
      PartNext(key, before, last, q, names);
      PartNext(key, before, last, q, names + {k});
    }
  }

  lemma {:induction false} CollectedNothing(key: Naming, log: Log, q: EvidenceQuery)
    ensures Filter(PartIn(key, q, {}), log) == []
  {
    if log != [] {
      CollectedNothing(key, log[..|log| - 1], q);
    }
  }

  lemma {:induction false} FilterOrdered(p: Evidence -> bool, s: Log)
    requires Ordered(s)
    ensures Ordered(Filter(p, s))
  {
    if s != [] {
      FilterOrdered(p, s[..|s| - 1]);
      var kept := Filter(p, s[..|s| - 1]);
      forall i | 0 <= i < |kept| ensures kept[i].insertionIndex < s[|s| - 1].insertionIndex {
        FilterMember(p, s[..|s| - 1], kept[i]);
        var j :| 0 <= j < |s| - 1 && s[j] == kept[i];
      }
    }
  }

  lemma ByBucketOrder(key: Naming)
    ensures TotalPreorder(ByBucket(key))
  {
    var leq := ByBucket(key);
    forall a, b ensures leq(a, b) || leq(b, a) {
      BytesTotal(key(a.subject), key(b.subject));
    }
    forall a, b, c | leq(a, b) && leq(b, c) ensures leq(a, c) {
      BytesTotal(key(a.subject), key(b.subject));
      BytesTotal(key(b.subject), key(c.subject));
      BytesTransitive(key(a.subject), key(b.subject), key(c.subject));
    }
  }

  // All of the buckets visited so far, as if there were no budget.
  ghost predicate Collected(key: Naming, log: Log, q: EvidenceQuery, names: set<Name>, all: Log) {
    && multiset(all) == multiset(Filter(PartIn(key, q, names), log))
    && IsSorted(all, ByBucket(key))
    && forall r :: r in all ==> key(r.subject) in names
  }

  lemma BucketSorted(key: Naming, log: Log, q: EvidenceQuery, k: Name)
    requires Ordered(log)
    ensures var more := Filter(Wanted(q), Bucket(key, log, k));
      IsSorted(more, ByBucket(key)) && forall r :: r in more ==> key(r.subject) == k
  {
    var more := Filter(Wanted(q), Bucket(key, log, k));
    BucketOrdered(key, log, k);
    FilterOrdered(Wanted(q), Bucket(key, log, k));
    forall r | r in more ensures key(r.subject) == k {
      FilterMember(Wanted(q), Bucket(key, log, k), r);
      BucketMembers(key, log, k, r);
    }
  }

  lemma SortedAcross(key: Naming, a: Log, b: Log, names: set<Name>, k: Name)
    requires IsSorted(a, ByBucket(key)) && IsSorted(b, ByBucket(key)) && k !in names
    requires (forall r :: r in a ==> key(r.subject) in names) && (forall r :: r in b ==> key(r.subject) == k)
    requires forall n :: n in names ==> BytesLeq(n, k)
    ensures IsSorted(a + b, ByBucket(key))
  {
    forall i, j | 0 <= i < j < |a + b| ensures ByBucket(key)((a + b)[i], (a + b)[j]) {
      if i < |a| <= j {
        assert a[i] in a && b[j - |a|] in b;
      }
    }
  }

  lemma CollectedMore(key: Naming, log: Log, q: EvidenceQuery, names: set<Name>, all: Log, k: Name)
    requires Ordered(log) && Collected(key, log, q, names, all) && k !in names && forall n :: n in names ==> BytesLeq(n, k)
    ensures Collected(key, log, q, names + {k}, all + Filter(Wanted(q), Bucket(key, log, k)))
  {
    OneMoreBucket(key, log, q, names, k);
    BucketSorted(key, log, q, k);
    SortedAcross(key, all, Filter(Wanted(q), Bucket(key, log, k)), names, k);
  }

  lemma PrefixConcat(a: Log, b: Log, n: nat)
    ensures Prefix(a + b, n) == Prefix(a, n) + Prefix(b, n - |Prefix(a, n)|)
  {
  }

  lemma PrefixPart(s: Log, n: nat)
    ensures multiset(Prefix(s, n)) <= multiset(s) && |Prefix(s, n)| == Min(n, |s|)
  {
    if |s| > n {
      assert s == s[..n] + s[n..];
    }
  }

  lemma NoTies(key: Naming, log: Log, q: EvidenceQuery)
    requires Ordered(log)
    ensures Decides(ByBucket(key), Filter(Wanted(q), log))
  {
    var wanted := Filter(Wanted(q), log);
    forall x, y | x in wanted && y in wanted && ByBucket(key)(x, y) && ByBucket(key)(y, x) ensures x == y {
      FilterMember(Wanted(q), log, x);
      FilterMember(Wanted(q), log, y);
      BytesTotal(key(x.subject), key(y.subject));
      SameIndexSameRecord(log, x, y);
    }
  }

  // With every bucket visited, what was met is what was asked for.
  lemma CollectedAll(key: Naming, view: Buckets, log: Log, q: EvidenceQuery, all: Log)
    requires Ordered(log) && (forall k :: At(view, k) == Bucket(key, log, k)) && q.subject == None
    requires Collected(key, log, q, view.Keys, all)
    ensures all == Asked(key, log, q)
  {
    var wanted := Filter(Wanted(q), log);
    AllBuckets(key, view, log, q);
    ByBucketOrder(key);
    NoTies(key, log, q);
    SortPermutes(wanted, ByBucket(key));
    SortSorts(wanted, ByBucket(key));
    DecidesPermuted(ByBucket(key), wanted, all);
    SortedUnique(all, SortBy(wanted, ByBucket(key)), ByBucket(key));
  }

  // Every record lies in a bucket, so all the buckets give the whole list.
  lemma AllBuckets(key: Naming, view: Buckets, log: Log, q: EvidenceQuery)
    requires forall k :: At(view, k) == Bucket(key, log, k)
    ensures Filter(PartIn(key, q, view.Keys), log) == Filter(Wanted(q), log)
  {
    forall r | r in log ensures PartIn(key, q, view.Keys)(r) == Wanted(q)(r) {
      BucketMembers(key, log, key(r.subject), r);
    }
    FilterSame(PartIn(key, q, view.Keys), Wanted(q), log);
  }

  // ---- What an answer is ----

  // The first records met that the budget allows, in the order asked for.
  function Answer(key: Naming, log: Log, q: EvidenceQuery): Log {
    Presented(Prefix(Asked(key, log, q), q.maxRecords), q.newestFirst)
  }

  lemma AskedMembers(key: Naming, log: Log, q: EvidenceQuery, r: Evidence)
    ensures r in Asked(key, log, q)
      <==> r in log && Matches(r, q) && (q.subject.Some? ==> key(r.subject) == key(q.subject.value))
  {
    match q.subject
    case None =>
      FilterMembers(Wanted(q), log);
      SortPermutes(Filter(Wanted(q), log), ByBucket(key));
      assert r in SortBy(Filter(Wanted(q), log), ByBucket(key)) <==> r in multiset(SortBy(Filter(Wanted(q), log), ByBucket(key)));
      assert r in Filter(Wanted(q), log) <==> r in multiset(Filter(Wanted(q), log));
    case Some(s) =>
      FilterMembers(Wanted(q), Bucket(key, log, key(s)));
      BucketMembers(key, log, key(s), r);
  }

  // An answer holds records of the list that match, in the order asked for, and as many of them as the budget allows.
  lemma AnswerMeaning(key: Naming, log: Log, q: EvidenceQuery)
    ensures var found, asked := Answer(key, log, q), Asked(key, log, q);
      && IsSorted(found, OrderOf(q.newestFirst)) && |found| == Min(q.maxRecords, |asked|)
      && multiset(found) <= multiset(asked)
      && forall r :: r in found ==> r in log && Matches(r, q) && (q.subject.Some? ==> key(r.subject) == key(q.subject.value))
  {
    var found, asked := Answer(key, log, q), Asked(key, log, q);
    PrefixPart(asked, q.maxRecords);
    PresentedInOrder(Prefix(asked, q.maxRecords), q.newestFirst);
    forall r | r in found ensures r in log && Matches(r, q) && (q.subject.Some? ==> key(r.subject) == key(q.subject.value)) {
      assert r in multiset(found);
      assert r in multiset(asked);
      AskedMembers(key, log, q, r);
    }
  }

  // Where everything fits the budget, the buckets do not show: all matching records of the list, sorted.
  lemma AllFit(key: Naming, log: Log, q: EvidenceQuery)
    requires Ordered(log) && q.subject == None && |Filter(Wanted(q), log)| <= q.maxRecords
    ensures Answer(key, log, q) == Presented(Filter(Wanted(q), log), q.newestFirst)
  {
    var wanted := Filter(Wanted(q), log);
    SortPermutes(wanted, ByBucket(key));
    forall r | r in Asked(key, log, q) ensures r in log {
      AskedMembers(key, log, q, r);
    }
    PresentedForgetsOrder(log, Asked(key, log, q), wanted, q.newestFirst);
  }

  // A query that asks for live records only never answers with a superseded incarnation.
  lemma LiveAnswersAreCurrent(key: Naming, log: Log, sources: map<Name, SourceState>, q: EvidenceQuery)
    requires LiveIsCurrent(log, sources) && !q.includeNonLive
    ensures forall r :: r in Answer(key, log, q) ==> Current(r, sources)
  {
    AnswerMeaning(key, log, q);
    forall r | r in Answer(key, log, q) ensures Current(r, sources) {
      assert Live(r);
    }
  }

  // ---- The loops ----

  // One bucket, read until the budget is used up.
  method Consider(bucket: Log, q: EvidenceQuery, found: Log) returns (out: Log)
    requires |found| <= q.maxRecords
    ensures out == found + Prefix(Filter(Wanted(q), bucket), q.maxRecords - |found|)
  {
    out := found;
    for i := 0 to |bucket|
      invariant out == found + Prefix(Filter(Wanted(q), bucket[..i]), q.maxRecords - |found|)
    {
      FilterNext(Wanted(q), bucket[..i], bucket[i]);
      OneMore(bucket, i);
      if |out| < q.maxRecords && Matches(bucket[i], q) {
        out := out + [bucket[i]];
      }
    }
    assert bucket[..|bucket|] == bucket;
  }

  method ConsiderAll(key: Naming, view: Buckets, q: EvidenceQuery, ghost log: Log) returns (out: Log)
    requires Ordered(log) && (forall k :: At(view, k) == Bucket(key, log, k)) && q.subject == None
    ensures out == Prefix(Asked(key, log, q), q.maxRecords)
  {
    CollectedNothing(key, log, q);
    out := [];
    ghost var all: Log := [];
    var todo := view.Keys;
    assert view.Keys - todo == {};
    while todo != {}
      invariant todo <= view.Keys && out == Prefix(all, q.maxRecords)
      invariant Collected(key, log, q, view.Keys - todo, all)
      invariant forall n, m :: n in view.Keys - todo && m in todo ==> BytesLeq(n, m)
      decreases todo
    {
      var k := NextName(todo);
      assert At(view, k) == view[k];
      CollectedMore(key, log, q, view.Keys - todo, all, k);
      PrefixConcat(all, Filter(Wanted(q), view[k]), q.maxRecords);
      assert view.Keys - (todo - {k}) == (view.Keys - todo) + {k};
      out := Consider(view[k], q, out);
      all := all + Filter(Wanted(q), view[k]);
      todo := todo - {k};
    }
    assert view.Keys - {} == view.Keys;
    CollectedAll(key, view, log, q, all);
  }

  method ConsiderOne(key: Naming, view: Buckets, q: EvidenceQuery, k: Name, ghost log: Log) returns (out: Log)
    requires At(view, k) == Bucket(key, log, k)
    ensures out == Prefix(Filter(Wanted(q), Bucket(key, log, k)), q.maxRecords)
  {
    out := [];
    if k in view {
      out := Consider(view[k], q, out);
    }
  }

  method Collect(key: Naming, view: Buckets, q: EvidenceQuery, ghost log: Log) returns (found: Log)
    requires Ordered(log) && forall k :: At(view, k) == Bucket(key, log, k)
    ensures found == Prefix(Asked(key, log, q), q.maxRecords)
  {
    match q.subject {
      case None =>
        found := ConsiderAll(key, view, q, log);
      case Some(subject) =>
        found := ConsiderOne(key, view, q, key(subject), log);
    }
  }
}
