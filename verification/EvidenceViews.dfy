// The store's two indexes as views of one list, and what each operation does to them
// (src/evidence/store.cpp).
module EvidenceViews {
  import opened Base
  import opened Model
  import opened Fencing
  import opened Sorting
  import opened EvidenceLog

  // ---- The state and its invariant ----

  type Buckets = map<Name, Log>

  function At(view: Buckets, k: Name): Log { if k in view then view[k] else [] }

  function StateOf(sources: map<Name, SourceState>, source: Name): SourceState {
    if source in sources then sources[source] else UNKNOWN_SOURCE
  }

  ghost predicate Sound(key: Naming, log: Log, next: nat) {
    Ordered(log) && forall r :: r in log ==> r.insertionIndex < next && key(r.subject) != []
  }

  ghost predicate Capped(key: Naming, log: Log, limits: Limits) {
    && |log| <= limits.maxRetainedEvidence
    && forall k :: |Bucket(key, log, k)| <= limits.maxEvidencePerSubject
  }

  // Buckets, index and count are views of one insertion-ordered list.
  ghost predicate Views(key: Naming, view: Buckets, order: map<nat, Name>, retained: int, log: Log) {
    && (forall k :: At(view, k) == Bucket(key, log, k))
    && order == IndexOf(key, log)
    && retained == |log|
  }

  // A record still able to prove something about the present.
  predicate Live(r: Evidence) { !r.retired && !r.recovered }

  // It belongs to the incarnation its source last spoke from.
  predicate Current(r: Evidence, sources: map<Name, SourceState>) {
    var s := StateOf(sources, r.source);
    s.hasState && r.fence.boot == s.last.boot && r.fence.incarnation == s.last.incarnation
  }

  ghost predicate LiveIsCurrent(log: Log, sources: map<Name, SourceState>) {
    forall r :: r in log && Live(r) ==> Current(r, sources)
  }

  // Only records of the current incarnation can be assessed fresh.
  lemma FreshIsCurrent(log: Log, sources: map<Name, SourceState>, r: Evidence, now: int, policy: FreshnessPolicy)
    requires LiveIsCurrent(log, sources) && r in log
    requires AssessFreshness(r, now, policy) == Fresh
    ensures Current(r, sources)
  {
    assert Live(r);
  }

  // ---- What each operation does to the views ----

  lemma OldestKept(key: Naming, log: Log, k: Name, next: nat, limits: Limits)
    requires Sound(key, log, next) && Capped(key, log, limits) && Bucket(key, log, k) != []
    ensures Sound(key, DropOldest(key, log, k), next) && Capped(key, DropOldest(key, log, k), limits)
  {
    DropOldestSize(key, log, k);
    forall j ensures |Bucket(key, DropOldest(key, log, k), j)| <= limits.maxEvidencePerSubject {
      DropOldestBuckets(key, log, k, j);
    }
  }

  lemma ViewsDropOldest(key: Naming, view: Buckets, order: map<nat, Name>, retained: nat, log: Log, k: Name)
    requires Ordered(log) && Views(key, view, order, retained, log) && At(view, k) != []
    ensures Bucket(key, log, k) == view[k] && retained > 0
    ensures Views(key, view[k := view[k][1..]], order - {OldestIndex(key, log, k)}, retained - 1, DropOldest(key, log, k))
  {
    assert At(view, k) == Bucket(key, log, k);
    DropOldestSize(key, log, k);
    IndexWithout(key, log, {OldestIndex(key, log, k)});
    var view' := view[k := view[k][1..]];
    forall j ensures At(view', j) == Bucket(key, DropOldest(key, log, k), j) {
      DropOldestBuckets(key, log, k, j);
      assert At(view, j) == Bucket(key, log, j);
    }
  }

  lemma HeadIsMinimal(key: Naming, order: map<nat, Name>, log: Log)
    requires Ordered(log) && log != [] && order == IndexOf(key, log)
    ensures log[0].insertionIndex in order && order[log[0].insertionIndex] == key(log[0].subject)
    ensures forall i :: i in order ==> log[0].insertionIndex <= i
  {
    IndexKeys(key, log);
    IndexValue(key, log, 0);
    forall i | i in order ensures log[0].insertionIndex <= i {
      IndicesMember(log, i);
    }
  }

  lemma Append(key: Naming, log: Log, r: Evidence, next: nat, limits: Limits)
    requires Sound(key, log, next) && Capped(key, log, limits)
    requires r.insertionIndex == next && key(r.subject) != []
    requires |log| < limits.maxRetainedEvidence && |Bucket(key, log, key(r.subject))| < limits.maxEvidencePerSubject
    ensures Sound(key, log + [r], next + 1) && Capped(key, log + [r], limits)
  {
    forall j ensures |Bucket(key, log + [r], j)| <= limits.maxEvidencePerSubject {
      BucketConcat(key, log, [r], j);
    }
  }

  lemma ViewsAppend(key: Naming, view: Buckets, order: map<nat, Name>, retained: nat, log: Log, r: Evidence, next: nat)
    requires Views(key, view, order, retained, log) && Sound(key, log, next)
    requires r.insertionIndex == next
    ensures var k := key(r.subject);
            Views(key, view[k := At(view, k) + [r]], order[r.insertionIndex := k], retained + 1, log + [r])
  {
    var k := key(r.subject);
    IndicesMember(log, r.insertionIndex);
    IndexAppend(key, log, r);
    var view' := view[k := At(view, k) + [r]];
    forall j ensures At(view', j) == Bucket(key, log + [r], j) {
      BucketConcat(key, log, [r], j);
      assert At(view, j) == Bucket(key, log, j);
    }
  }

  lemma RetireKeepsSound(key: Naming, log: Log, source: Name, next: nat, limits: Limits)
    requires Sound(key, log, next) && Capped(key, log, limits)
    ensures Sound(key, Retire(log, source), next) && Capped(key, Retire(log, source), limits)
  {
    RetireAt(log, source);
    forall j ensures |Bucket(key, Retire(log, source), j)| <= limits.maxEvidencePerSubject {
      BucketRetire(key, log, source, j);
      RetireAt(Bucket(key, log, j), source);
    }
  }

  lemma RetireKeepsViews(key: Naming, view: Buckets, order: map<nat, Name>, retained: nat, log: Log, source: Name)
    requires Views(key, view, order, retained, log)
    ensures Views(key, map k | k in view :: Retire(view[k], source), order, retained, Retire(log, source))
  {
    RetireAt(log, source);
    IndexRetire(key, log, source);
    var view' := map k | k in view :: Retire(view[k], source);
    forall j ensures At(view', j) == Bucket(key, Retire(log, source), j) {
      BucketRetire(key, log, source, j);
      assert At(view, j) == Bucket(key, log, j);
    }
  }

  lemma ViewsRetire(key: Naming, view: Buckets, order: map<nat, Name>, retained: nat, log: Log, source: Name, next: nat, limits: Limits)
    requires Views(key, view, order, retained, log) && Sound(key, log, next) && Capped(key, log, limits)
    ensures Views(key, map k | k in view :: Retire(view[k], source), order, retained, Retire(log, source))
    ensures Sound(key, Retire(log, source), next) && Capped(key, Retire(log, source), limits)
  {
    RetireKeepsSound(key, log, source, next, limits);
    RetireKeepsViews(key, view, order, retained, log, source);
  }

  // ---- Incarnations ----

  lemma LiveSubset(log: Log, fewer: Log, sources: map<Name, SourceState>)
    requires LiveIsCurrent(log, sources)
    requires forall r :: r in fewer ==> r in log
    ensures LiveIsCurrent(fewer, sources)
  {
  }

  // An accepted fence leaves every live record current: a new boot retires the old ones first, and
  // without a new boot the incarnation cannot have changed.
  lemma LiveAfterAccept(log: Log, sources: map<Name, SourceState>, fence: FenceVector, authority: AuthorityLevel,
                        minimum: AuthorityLevel, source: Name, next: SourceState)
    requires LiveIsCurrent(log, sources)
    requires var o := EvaluateFence(fence, authority, minimum, StateOf(sources, source)); o.decision.Accepted()
    requires next.hasState && next.last == fence
    ensures var o := EvaluateFence(fence, authority, minimum, StateOf(sources, source));
            LiveIsCurrent(if o.livenessReset then Retire(log, source) else log, sources[source := next])
  {
    var prev := StateOf(sources, source);
    var o := EvaluateFence(fence, authority, minimum, prev);
    AcceptsExactly(fence, authority, minimum, prev);
    OutcomeFlags(fence, authority, minimum, prev);
    RetireAt(log, source);
    var log' := if o.livenessReset then Retire(log, source) else log;
    forall r | r in log' && Live(r) ensures Current(r, sources[source := next]) {
      var i :| 0 <= i < |log'| && log'[i] == r;
      assert log[i] in log;
      if r.source == source {
        assert log[i] == r;
        assert Current(r, sources);
      }
    }
  }

  lemma LiveAfterDenial(log: Log, sources: map<Name, SourceState>, source: Name)
    requires LiveIsCurrent(log, sources)
    ensures LiveIsCurrent(log, sources[source := Denied(StateOf(sources, source), source)])
  {
  }

  lemma RetireKeepsLive(log: Log, sources: map<Name, SourceState>, source: Name)
    requires LiveIsCurrent(log, sources)
    ensures LiveIsCurrent(Retire(log, source), sources)
  {
    RetireAt(log, source);
    forall r | r in Retire(log, source) && Live(r) ensures Current(r, sources) {
      var i :| 0 <= i < |log| && Retire(log, source)[i] == r;
      assert log[i] in log && log[i] == r;
    }
  }

  lemma EvictedIsSubset(key: Naming, log: Log, k: Name, maxRetained: nat, maxPerSubject: nat)
    requires Ordered(log)
    ensures forall r :: r in Evicted(key, log, k, maxRetained, maxPerSubject) ==> r in log
  {
    var a := if |log| >= maxRetained && log != [] then log[1..] else log;
    if |Bucket(key, a, k)| >= maxPerSubject && Bucket(key, a, k) != [] {
      DropOldestSize(key, a, k);
    }
  }

  lemma UpdateSize<K, V>(m: map<K, V>, k: K, v: V, limit: nat)
    requires |m| <= limit && (k in m || |m| < limit)
    ensures |m[k := v]| <= limit
  {
    var n := m[k := v];
    if k in m {
      assert n.Keys == m.Keys;
    } else {
      assert n.Keys == m.Keys + {k};
      assert |n.Keys| == |m.Keys| + 1;
    }
    assert |n| == |n.Keys| && |m| == |m.Keys|;
  }

  // What admission evicts and appends leaves every live record current.
  lemma LiveAfterAdmit(key: Naming, log: Log, k: Name, stored: Evidence, limits: Limits, sources: map<Name, SourceState>)
    requires Ordered(log) && LiveIsCurrent(log, sources)
    requires Live(stored) ==> Current(stored, sources)
    ensures LiveIsCurrent(Evicted(key, log, k, limits.maxRetainedEvidence, limits.maxEvidencePerSubject) + [stored], sources)
  {
    EvictedIsSubset(key, log, k, limits.maxRetainedEvidence, limits.maxEvidencePerSubject);
  }

  // ---- Sweeping ----

  lemma SweptSound(key: Naming, log: Log, gone: set<nat>, next: nat, limits: Limits)
    requires Sound(key, log, next) && Capped(key, log, limits)
    ensures Sound(key, Without(log, gone), next) && Capped(key, Without(log, gone), limits)
    ensures forall r :: r in Without(log, gone) ==> r in log
  {
    WithoutOrdered(log, gone);
    WithoutShorter(log, gone);
    forall r | r in Without(log, gone) ensures r in log {
      WithoutMembers(log, gone, r);
    }
    forall j ensures |Bucket(key, Without(log, gone), j)| <= limits.maxEvidencePerSubject {
      BucketWithout(key, log, gone, j);
      WithoutShorter(Bucket(key, log, j), gone);
    }
  }

  // A sweep part way: the buckets are what is left of the list, and those in `todo` are untouched.
  ghost predicate Sweeping(key: Naming, view: Buckets, order: map<nat, Name>, retained: int, log: Log,
                           gone: set<nat>, todo: set<Name>, horizon: int)
  {
    && (forall j :: At(view, j) == Without(Bucket(key, log, j), gone))
    && order == IndexOf(key, log) - gone
    && retained == |log| - |gone|
    && gone <= Outdated(log, horizon)
    && (forall r :: r in log && r.insertionIndex in gone ==> key(r.subject) !in todo)
  }

  // Every outdated record outside `todo` is gone unless the budget is spent.
  ghost predicate Thorough(key: Naming, log: Log, gone: set<nat>, todo: set<Name>, horizon: int, budget: nat) {
    forall r :: r in log && r.observedAt < horizon && key(r.subject) !in todo && |gone| < budget ==> r.insertionIndex in gone
  }

  // Outdated records go bucket by bucket in the order of their names, each bucket from its front.
  ghost predicate InTurn(key: Naming, log: Log, gone: set<nat>, horizon: int) {
    forall x, y :: x in log && y in log && x.insertionIndex in gone && y.observedAt < horizon && y.insertionIndex !in gone
      ==> ByBucket(key)(x, y)
  }

  lemma SameSize<T>(a: set<T>, b: set<T>)
    requires |a| == |b| && a <= b
    ensures a == b
  {
    assert b == a + (b - a);
  }

  // The order of the buckets and the number removed decide which records a sweep removes.
  lemma InTurnUnique(key: Naming, log: Log, a: set<nat>, b: set<nat>, horizon: int)
    requires a <= Outdated(log, horizon) && b <= Outdated(log, horizon) && |a| == |b|
    requires InTurn(key, log, a, horizon) && InTurn(key, log, b, horizon)
    ensures a == b
  {
    if !(a <= b) && !(b <= a) {
      var i, j :| i in a && i !in b && j in b && j !in a;
      OutdatedMember(log, horizon, i);
      OutdatedMember(log, horizon, j);
      var x :| x in log && x.insertionIndex == i && x.observedAt < horizon;
      var y :| y in log && y.insertionIndex == j && y.observedAt < horizon;
      assert ByBucket(key)(x, y) && ByBucket(key)(y, x);
      BytesTotal(key(x.subject), key(y.subject));
    } else if a <= b {
      SameSize(a, b);
    } else {
      SameSize(b, a);
    }
  }

  lemma SweepOneInTurn(key: Naming, log: Log, gone: set<nat>, todo: set<Name>, horizon: int, budget: nat, k: Name, more: set<nat>)
    requires Ordered(log) && InTurn(key, log, gone, horizon) && Thorough(key, log, gone, todo, horizon, budget)
    requires k in todo && forall n :: n in todo ==> BytesLeq(k, n)
    requires |gone + more| == |gone| + |more| <= budget
    requires more <= Outdated(Bucket(key, log, k), horizon) && IsFront(Bucket(key, log, k), more, horizon)
    ensures InTurn(key, log, gone + more, horizon)
  {
    forall x, y | x in log && y in log && x.insertionIndex in gone + more && y.observedAt < horizon && y.insertionIndex !in gone + more
      ensures ByBucket(key)(x, y)
    {
      if x.insertionIndex !in gone {
        SweptFromOne(key, log, k, more, horizon, x);
        BucketMembers(key, log, k, y);
        LeftBehind(key, log, gone, todo, horizon, budget, more, x.insertionIndex, y);
      }
    }
  }

  // A bucket swept before has nothing more to give while another one gives.
  lemma LeftBehind(key: Naming, log: Log, gone: set<nat>, todo: set<Name>, horizon: int, budget: nat, more: set<nat>, i: nat, y: Evidence)
    requires Thorough(key, log, gone, todo, horizon, budget) && |gone + more| == |gone| + |more| <= budget
    requires i in more && y in log && y.observedAt < horizon && y.insertionIndex !in gone
    ensures key(y.subject) in todo
  {
    SubsetSize({i}, more);
  }

  lemma SweepStarts(key: Naming, view: Buckets, order: map<nat, Name>, retained: nat, log: Log, horizon: int, budget: nat)
    requires Views(key, view, order, retained, log)
    ensures Sweeping(key, view, order, retained, log, {}, view.Keys, horizon)
    ensures Thorough(key, log, {}, view.Keys, horizon, budget)
    ensures Without(log, {}) == log
  {
    WithoutNone(log, {});
    forall j ensures At(view, j) == Without(Bucket(key, log, j), {}) {
      WithoutNone(Bucket(key, log, j), {});
    }
    forall r | r in log ensures key(r.subject) in view.Keys {
      BucketMembers(key, log, key(r.subject), r);
      assert At(view, key(r.subject)) == Bucket(key, log, key(r.subject));
    }
    assert IndexOf(key, log) - {} == IndexOf(key, log);
  }

  lemma SweepUntouched(key: Naming, view: Buckets, order: map<nat, Name>, retained: int, log: Log,
                       gone: set<nat>, todo: set<Name>, horizon: int, k: Name)
    requires Ordered(log) && Sweeping(key, view, order, retained, log, gone, todo, horizon) && k in todo
    ensures At(view, k) == Bucket(key, log, k) && Ordered(At(view, k))
    ensures retained >= |At(view, k)|
  {
    assert At(view, k) == Without(Bucket(key, log, k), gone);
    forall r | r in Bucket(key, log, k) ensures r.insertionIndex !in gone {
      BucketMembers(key, log, k, r);
    }
    WithoutNone(Bucket(key, log, k), gone);
    BucketOrdered(key, log, k);
    OutdatedAreIndices(log, horizon);
    WithoutLength(log, gone);
    BucketWithout(key, log, gone, k);
    BucketShorter(key, Without(log, gone), k);
  }

  // What one bucket loses was in no other bucket.
  lemma SweptFromOne(key: Naming, log: Log, k: Name, more: set<nat>, horizon: int, r: Evidence)
    requires Ordered(log) && more <= Outdated(Bucket(key, log, k), horizon)
    requires r in log && r.insertionIndex in more
    ensures key(r.subject) == k && r.observedAt < horizon
  {
    var mine := Bucket(key, log, k);
    OutdatedMember(mine, horizon, r.insertionIndex);
    var s :| s in mine && s.insertionIndex == r.insertionIndex && s.observedAt < horizon;
    BucketMembers(key, log, k, s);
    SameIndexSameRecord(log, r, s);
  }

  lemma SweptAreOutdated(key: Naming, log: Log, k: Name, more: set<nat>, horizon: int)
    requires more <= Outdated(Bucket(key, log, k), horizon)
    ensures more <= Outdated(log, horizon)
    ensures forall i :: i in more ==> exists r :: r in log && r.insertionIndex == i && key(r.subject) == k
  {
    var mine := Bucket(key, log, k);
    forall i | i in more
      ensures i in Outdated(log, horizon) && exists r :: r in log && r.insertionIndex == i && key(r.subject) == k
    {
      OutdatedMember(mine, horizon, i);
      var s :| s in mine && s.insertionIndex == i && s.observedAt < horizon;
      BucketMembers(key, log, k, s);
      OutdatedMember(log, horizon, i);
    }
  }

  lemma SweepBucketView(key: Naming, view: Buckets, log: Log, gone: set<nat>, horizon: int, k: Name, kept: Log, more: set<nat>, j: Name)
    requires Ordered(log)
    requires At(view, j) == Without(Bucket(key, log, j), gone)
    requires kept == Without(Bucket(key, log, k), more) && more <= Outdated(Bucket(key, log, k), horizon)
    requires forall r :: r in log && r.insertionIndex in gone ==> key(r.subject) != k
    ensures At(view[k := kept], j) == Without(Bucket(key, log, j), gone + more)
  {
    WithoutTwice(Bucket(key, log, j), gone, more);
    if j == k {
      WithoutTwice(Bucket(key, log, k), more, gone);
      assert more + gone == gone + more;
      forall r | r in kept ensures r.insertionIndex !in gone {
        WithoutMembers(Bucket(key, log, k), more, r);
        BucketMembers(key, log, k, r);
      }
      WithoutNone(kept, gone);
    } else {
      forall r | r in At(view, j) ensures r.insertionIndex !in more {
        WithoutMembers(Bucket(key, log, j), gone, r);
        BucketMembers(key, log, j, r);
        if r.insertionIndex in more {
          SweptFromOne(key, log, k, more, horizon, r);
        }
      }
      WithoutNone(At(view, j), more);
    }
  }

  lemma SweepOne(key: Naming, view: Buckets, order: map<nat, Name>, retained: int, log: Log,
                 gone: set<nat>, todo: set<Name>, horizon: int, k: Name, kept: Log, more: set<nat>)
    requires Ordered(log) && Sweeping(key, view, order, retained, log, gone, todo, horizon)
    requires k in todo
    requires kept == Without(Bucket(key, log, k), more) && more <= Outdated(Bucket(key, log, k), horizon)
    ensures gone !! more && |gone + more| == |gone| + |more|
    ensures Sweeping(key, view[k := kept], order - more, retained - |more|, log, gone + more, todo - {k}, horizon)
  {
    SweptAreOutdated(key, log, k, more, horizon);
    var gone' := gone + more;
    forall j ensures At(view[k := kept], j) == Without(Bucket(key, log, j), gone') {
      SweepBucketView(key, view, log, gone, horizon, k, kept, more, j);
    }
    assert (IndexOf(key, log) - gone) - more == IndexOf(key, log) - gone';
    forall r | r in log && r.insertionIndex in gone' ensures key(r.subject) !in todo - {k} {
      if r.insertionIndex in more {
        SweptFromOne(key, log, k, more, horizon, r);
      }
    }
  }

  lemma SweepOneThorough(key: Naming, log: Log, gone: set<nat>, todo: set<Name>, horizon: int, budget: nat, k: Name, more: set<nat>)
    requires Thorough(key, log, gone, todo, horizon, budget) && |gone + more| == |gone| + |more|
    requires |gone| + |more| < budget ==> more == Outdated(Bucket(key, log, k), horizon)
    ensures Thorough(key, log, gone + more, todo - {k}, horizon, budget)
  {
    forall r | r in log && r.observedAt < horizon && key(r.subject) !in todo - {k} && |gone + more| < budget
      ensures r.insertionIndex in gone + more
    {
      if key(r.subject) == k {
        BucketMembers(key, log, k, r);
        OutdatedMember(Bucket(key, log, k), horizon, r.insertionIndex);
      }
    }
  }

  // Whenever a sweep stops, what it leaves is consistent again.
  lemma SweepEnds(key: Naming, view: Buckets, order: map<nat, Name>, retained: int, log: Log,
                  gone: set<nat>, todo: set<Name>, horizon: int)
    requires Ordered(log) && Sweeping(key, view, order, retained, log, gone, todo, horizon)
    ensures Views(key, view, order, retained, Without(log, gone))
  {
    OutdatedAreIndices(log, horizon);
    WithoutLength(log, gone);
    IndexWithout(key, log, gone);
    forall j ensures At(view, j) == Bucket(key, Without(log, gone), j) {
      BucketWithout(key, log, gone, j);
    }
  }

  // A completed sweep removes as many older records as the budget allows.
  lemma SweepCompletes(key: Naming, log: Log, gone: set<nat>, horizon: int, budget: nat)
    requires gone <= Outdated(log, horizon) && Thorough(key, log, gone, {}, horizon, budget) && |gone| <= budget
    ensures |gone| == Min(budget, |Outdated(log, horizon)|)
  {
    if |gone| < budget {
      forall i | i in Outdated(log, horizon) ensures i in gone {
        OutdatedMember(log, horizon, i);
      }
      assert gone == Outdated(log, horizon);
    } else {
      SubsetSize(gone, Outdated(log, horizon));
    }
  }
}
