// The bounded evidence store: per-subject buckets, a global eviction index and the fence table, kept
// in step by every operation (src/evidence/store.cpp).
module EvidenceStorage {
  import opened Base
  import opened Model
  import opened Fencing
  import opened Sorting
  import opened EvidenceLog
  import opened EvidenceQueries
  import opened EvidenceRuns
  import opened EvidenceViews

  datatype Stats = Stats(accepted: nat, rejectedFence: nat, rejectedInvalid: nat, rejectedUnknownSubject: nat,
                         evicted: int, retentionSweeps: nat)

  datatype IngestOutcome = IngestOutcome(id: nat, stored: bool, fence: Decision, freshness: Freshness,
                                         livenessReset: bool, sequenceGap: bool, evicted: int)

  // The outcome up to the number of evictions, which is stated apart.
  predicate StoredAs(r: Result<IngestOutcome>, expected: IngestOutcome) {
    r.Ok? && r.value == expected.(evicted := r.value.evicted)
  }

  // ---- The store ----

  class EvidenceStore {
    const limits: Limits
    const identify: Evidence -> nat
    const naming: Naming

    var bySubject: Buckets
    var insertionOrder: map<nat, Name>
    var sources: map<Name, SourceState>
    var nextInsertionIndex: nat
    var retained: nat
    var stats: Stats
    ghost var log: Log

    ghost predicate Indexed()
      reads `bySubject, `insertionOrder, `nextInsertionIndex, `retained, `log
    {
      && limits.maxRetainedEvidence > 0 && limits.maxEvidencePerSubject > 0
      && Sound(naming, log, nextInsertionIndex) && Capped(naming, log, limits)
      && Views(naming, bySubject, insertionOrder, retained, log)
    }

    ghost predicate Valid()
      reads `bySubject, `insertionOrder, `nextInsertionIndex, `retained, `log, `sources
    {
      && Indexed()
      && LiveIsCurrent(log, sources)
      && |sources| <= limits.maxSources
    }

    // What concerns the list and the fence table only.
    ghost predicate Listed()
      reads `nextInsertionIndex, `log, `sources
    {
      && limits.maxRetainedEvidence > 0 && limits.maxEvidencePerSubject > 0
      && Sound(naming, log, nextInsertionIndex) && Capped(naming, log, limits)
      && LiveIsCurrent(log, sources) && |sources| <= limits.maxSources
    }

    constructor (bounds: Limits, id: Evidence -> nat, names: Naming)
      requires bounds.maxRetainedEvidence > 0 && bounds.maxEvidencePerSubject > 0
      ensures Valid() && log == [] && sources == map[] && limits == bounds && identify == id && naming == names
    {
      limits, identify, naming := bounds, id, names;
      bySubject, insertionOrder, sources, nextInsertionIndex, retained := map[], map[], map[], 1, 0;
      stats := Stats(0, 0, 0, 0, 0, 0);
      log := [];
    }

    // The record as the store keeps it.
    function Stored(record: Evidence, recovered: bool, index: nat): Evidence {
      record.(id := identify(record), insertionIndex := index, recovered := recovered || record.recovered)
    }

    // Drops the oldest record of one subject from its bucket, the index and the count.
    method EvictFront(k: Name)
      requires Indexed() && At(bySubject, k) != []
      modifies this`bySubject, this`insertionOrder, this`retained, this`log
      ensures Bucket(naming, old(log), k) != [] && log == DropOldest(naming, old(log), k)
      ensures Indexed()
    {
      ViewsDropOldest(naming, bySubject, insertionOrder, retained, log, k);
      OldestKept(naming, log, k, nextInsertionIndex, limits);
      var evictedIndex := bySubject[k][0].insertionIndex;
      bySubject := bySubject[k := bySubject[k][1..]];
      insertionOrder := insertionOrder - {evictedIndex};
      retained := retained - 1;
      log := DropOldest(naming, log, k);
    }

    method StoreBack(stored: Evidence)
      requires Indexed()
      requires stored.insertionIndex == nextInsertionIndex && naming(stored.subject) != []
      requires |log| < limits.maxRetainedEvidence && |Bucket(naming, log, naming(stored.subject))| < limits.maxEvidencePerSubject
      modifies this`bySubject, this`insertionOrder, this`nextInsertionIndex, this`retained, this`log
      ensures Indexed() && log == old(log) + [stored] && nextInsertionIndex == old(nextInsertionIndex) + 1
    {
      Append(naming, log, stored, nextInsertionIndex, limits);
      ViewsAppend(naming, bySubject, insertionOrder, retained, log, stored, nextInsertionIndex);
      var k := naming(stored.subject);
      bySubject := bySubject[k := At(bySubject, k) + [stored]];
      insertionOrder := insertionOrder[stored.insertionIndex := k];
      retained := retained + 1;
      nextInsertionIndex := nextInsertionIndex + 1;
      log := log + [stored];
    }

    // The globally oldest retained record: the smallest insertion index still present.
    method EvictGlobal()
      requires Indexed() && log != []
      modifies this`bySubject, this`insertionOrder, this`retained, this`log
      ensures Indexed() && log == old(log)[1..]
    {
      HeadIsMinimal(naming, insertionOrder, log);
      HeadIsOldest(naming, log);
      var oldest :| oldest in insertionOrder && forall j :: j in insertionOrder ==> oldest <= j;
      var subject := insertionOrder[oldest];
      assert At(bySubject, subject) == Bucket(naming, log, subject);
      EvictFront(subject);
    }

    method MakeRoom(k: Name) returns (evicted: nat)
      requires Indexed()
      modifies this`bySubject, this`insertionOrder, this`retained, this`log
      ensures Indexed()
      ensures log == Evicted(naming, old(log), k, limits.maxRetainedEvidence, limits.maxEvidencePerSubject)
      ensures |log| < limits.maxRetainedEvidence && |Bucket(naming, log, k)| < limits.maxEvidencePerSubject
      ensures evicted == |old(log)| - |log|
    {
      evicted := 0;
      if retained >= limits.maxRetainedEvidence {
        EvictGlobal();
        evicted := evicted + 1;
      }
      assert At(bySubject, k) == Bucket(naming, log, k);
      if |At(bySubject, k)| >= limits.maxEvidencePerSubject {
        DropOldestBuckets(naming, log, k, k);
        DropOldestSize(naming, log, k);
        EvictFront(k);
        evicted := evicted + 1;
      }
    }

    method Replace(stored: Evidence, k: Name) returns (evicted: nat)
      requires Indexed()
      requires stored.insertionIndex == nextInsertionIndex && k == naming(stored.subject) && k != []
      modifies this`bySubject, this`insertionOrder, this`nextInsertionIndex, this`retained, this`log
      ensures Indexed() && nextInsertionIndex == old(nextInsertionIndex) + 1
      ensures log == Evicted(naming, old(log), k, limits.maxRetainedEvidence, limits.maxEvidencePerSubject) + [stored]
      ensures evicted == |old(log)| + 1 - |log|
    {
      evicted := MakeRoom(k);
      StoreBack(stored);
    }

    method AdmitLocked(record: Evidence, recovered: bool) returns (r: Result<nat>)
      requires Indexed()
      modifies this`bySubject, this`insertionOrder, this`nextInsertionIndex, this`retained, this`stats, this`log
      ensures Indexed()
      ensures naming(record.subject) == [] ==>
                r == Err(InvalidArgument) && log == old(log) && stats == old(stats) && nextInsertionIndex == old(nextInsertionIndex)
      ensures naming(record.subject) != [] ==>
                && nextInsertionIndex == old(nextInsertionIndex) + 1
                && log == Evicted(naming, old(log), naming(record.subject), limits.maxRetainedEvidence, limits.maxEvidencePerSubject)
                          + [Stored(record, recovered, old(nextInsertionIndex))]
                && r.Ok? && r.value == |old(log)| + 1 - |log|
                && stats == old(stats).(evicted := stats.evicted) && stats.evicted == old(stats.evicted) + r.value
    {
      var k := naming(record.subject);
      if k == [] {
        return Err(InvalidArgument);
      }
      var evicted := Replace(Stored(record, recovered, nextInsertionIndex), k);
      stats := stats.(evicted := stats.evicted + evicted);
      return Ok(evicted);
    }

    // The walk over every bucket when a source is retired.
    method RetireBuckets(source: Name)
      modifies this`bySubject
      ensures bySubject == map k | k in old(bySubject) :: Retire(old(bySubject)[k], source)
    {
      ghost var before := bySubject;
      var todo := bySubject.Keys;
      while todo != {}
        invariant todo <= bySubject.Keys == before.Keys
        invariant forall k :: k in before ==> bySubject[k] == if k in todo then before[k] else Retire(before[k], source)
        decreases todo
      {
        var k :| k in todo;
        var bucket := RetireBucket(bySubject[k], source);
        bySubject := bySubject[k := bucket];
        todo := todo - {k};
      }
    }

    // A new incarnation retires the previous one: every bucket is walked and its records marked.
    method RetireSource(source: Name)
      requires Indexed()
      modifies this`bySubject, this`log
      ensures Indexed() && log == Retire(old(log), source)
    {
      ViewsRetire(naming, bySubject, insertionOrder, retained, log, source, nextInsertionIndex, limits);
      RetireBuckets(source);
      log := Retire(log, source);
    }

    method RetireBucket(bucket: Log, source: Name) returns (marked: Log)
      ensures marked == Retire(bucket, source)
    {
      marked := bucket;
      RetireAt(bucket, source);
      for i := 0 to |bucket|
        invariant |marked| == |bucket|
        invariant forall j :: 0 <= j < |bucket| ==> marked[j] == if j < i then Retire(bucket, source)[j] else bucket[j]
      {
        if marked[i].source == source {
          marked := marked[i := marked[i].(retired := true)];
        }
      }
    }

    // What an admission leaves of a list, and what it reports.
    ghost predicate Admitted(before: Log, after: Log, stored: Evidence, evicted: int) {
      && Admits(naming, before, after, stored, limits.maxRetainedEvidence, limits.maxEvidencePerSubject)
      && evicted == |before| + 1 - |after|
    }

    // Everything that refuses a record before its fence is looked at.
    function Refusal(record: Evidence, policy: IngestPolicy, known: Option<Subject -> bool>): Option<ErrorCode>
      reads `sources
    {
      RefusalBy(sources, record, policy, known, limits)
    }

    function Fence(record: Evidence, policy: IngestPolicy): FenceOutcome
      reads `sources
    {
      FenceBy(sources, record, policy)
    }

    // The retained list once the record's fence is accepted: a reset retires before anything is admitted.
    ghost function Fenced(record: Evidence, policy: IngestPolicy): Log
      reads `sources, `log
    {
      if Fence(record, policy).livenessReset then Retire(log, record.source) else log
    }

    // A refused fence is counted against its source and changes nothing else.
    method Deny(record: Evidence, fence: FenceOutcome) returns (outcome: IngestOutcome)
      requires Valid() && (record.source in sources || |sources| < limits.maxSources)
      modifies this`sources, this`stats
      ensures Valid()
      ensures sources == old(sources)[record.source := Denied(old(StateOf(sources, record.source)), record.source)]
      ensures outcome == IngestOutcome(identify(record), false, fence.decision, UnknownFreshness,
                                       fence.livenessReset, fence.sequenceGap, 0)
    {
      var source := record.source;
      LiveAfterDenial(log, sources, source);
      UpdateSize(sources, source, Denied(StateOf(sources, source), source), limits.maxSources);
      sources := sources[source := Denied(StateOf(sources, source), source)];
      stats := stats.(rejectedFence := stats.rejectedFence + 1);
      return IngestOutcome(identify(record), false, fence.decision, UnknownFreshness,
                           fence.livenessReset, fence.sequenceGap, 0);
    }

    // The store after an accepted fence, before the fence table is updated: what is retained is already
    // consistent with the table to come, `soon`.
    method Admit(record: Evidence, reset: bool, ghost soon: map<Name, SourceState>) returns (r: Result<int>)
      requires Indexed()
      requires LiveIsCurrent(if reset then Retire(log, record.source) else log, soon)
      requires Current(record, soon)
      modifies this`bySubject, this`insertionOrder, this`nextInsertionIndex, this`retained, this`stats, this`log
      ensures Indexed()
      ensures naming(record.subject) == [] ==>
                r == Err(InvalidArgument) && log == (if reset then Retire(old(log), record.source) else old(log))
      ensures naming(record.subject) != [] ==>
                && LiveIsCurrent(log, soon)
                && log == Evicted(naming, if reset then Retire(old(log), record.source) else old(log), naming(record.subject),
                                  limits.maxRetainedEvidence, limits.maxEvidencePerSubject)
                          + [Stored(record, false, old(nextInsertionIndex))]
                && r.Ok? && r.value == |old(log)| + 1 - |log|
                && Admitted(if reset then Retire(old(log), record.source) else old(log), log, Stored(record, false, old(nextInsertionIndex)), r.value)
    {
      RetireAt(log, record.source);
      if reset {
        RetireSource(record.source);
      }
      LiveAfterAdmit(naming, log, naming(record.subject), Stored(record, false, nextInsertionIndex), limits, soon);
      assert |log| == |old(log)|;
      AdmitsExactly(naming, log, Stored(record, false, nextInsertionIndex), limits.maxRetainedEvidence, limits.maxEvidencePerSubject);
      r := AdmitLocked(record, false);
    }

    // A record that nothing refuses before its fence is looked at.
    method IngestFenced(record: Evidence, now: int, policy: IngestPolicy) returns (r: Result<IngestOutcome>)
      requires Valid() && (record.source in sources || |sources| < limits.maxSources)
      modifies this
      ensures Valid()
      ensures var o := old(Fence(record, policy));
              !o.decision.Accepted() ==>
                && r == Ok(IngestOutcome(identify(record), false, o.decision, UnknownFreshness, o.livenessReset, o.sequenceGap, 0))
                && log == old(log)
                && sources == old(sources)[record.source := Denied(old(StateOf(sources, record.source)), record.source)]
      ensures var o := old(Fence(record, policy));
              o.decision.Accepted() && naming(record.subject) == [] ==>
                r == Err(InvalidArgument) && log == old(Fenced(record, policy)) && sources == old(sources)
      ensures var o := old(Fence(record, policy));
              o.decision.Accepted() && naming(record.subject) != [] ==>
                r.Ok? && Admitted(old(Fenced(record, policy)), log, Stored(record, false, old(nextInsertionIndex)), r.value.evicted)
      ensures var o := old(Fence(record, policy));
              o.decision.Accepted() && naming(record.subject) != [] ==>
                && log == Evicted(naming, old(Fenced(record, policy)), naming(record.subject), limits.maxRetainedEvidence, limits.maxEvidencePerSubject)
                          + [Stored(record, false, old(nextInsertionIndex))]
                && sources == old(sources)[record.source := Advanced(old(StateOf(sources, record.source)), record.source, record.fence, now, record.authority)]
                && StoredAs(r, IngestOutcome(identify(record), true, o.decision, AssessFreshness(record, now, policy.freshness),
                                             o.livenessReset, o.sequenceGap, 0))
                && r.value.evicted == |old(log)| + 1 - |log|
    {
      var source := record.source;
      var previous := StateOf(sources, source);
      var fence := Fence(record, policy);
      if !fence.decision.Accepted() {
        var outcome := Deny(record, fence);
        return Ok(outcome);
      }
      var next := Advanced(previous, source, record.fence, now, record.authority);
      LiveAfterAccept(log, sources, record.fence, record.authority, policy.minimumAuthority, source, next);
      RetireKeepsLive(log, sources, source);
      UpdateSize(sources, source, next, limits.maxSources);
      var admitted := Admit(record, fence.livenessReset, sources[source := next]);
      if admitted.Err? {
        return Err(admitted.error);
      }
      sources := sources[source := next];
      stats := stats.(accepted := stats.accepted + 1);
      return Ok(IngestOutcome(identify(record), true, fence.decision, AssessFreshness(record, now, policy.freshness),
                              fence.livenessReset, fence.sequenceGap, admitted.value));
    }

    method Ingest(record: Evidence, now: int, policy: IngestPolicy, known: Option<Subject -> bool>) returns (r: Result<IngestOutcome>)
      requires Valid()
      modifies this
      ensures Valid()
      ensures sources == TableAfter(old(sources), Ingested(record, now, policy, known), limits, naming)
      ensures old(Refusal(record, policy, known)).Some? ==>
                r == Err(old(Refusal(record, policy, known)).value) && log == old(log) && sources == old(sources)
      ensures var o := old(Fence(record, policy));
              old(Refusal(record, policy, known)).None? && !o.decision.Accepted() ==>
                && r == Ok(IngestOutcome(identify(record), false, o.decision, UnknownFreshness, o.livenessReset, o.sequenceGap, 0))
                && log == old(log)
                && sources == old(sources)[record.source := Denied(old(StateOf(sources, record.source)), record.source)]
      ensures var o := old(Fence(record, policy));
              old(Refusal(record, policy, known)).None? && o.decision.Accepted() && naming(record.subject) == [] ==>
                r == Err(InvalidArgument) && log == old(Fenced(record, policy)) && sources == old(sources)
      ensures var o := old(Fence(record, policy));
              old(Refusal(record, policy, known)).None? && o.decision.Accepted() && naming(record.subject) != [] ==>
                r.Ok? && Admitted(old(Fenced(record, policy)), log, Stored(record, false, old(nextInsertionIndex)), r.value.evicted)
      ensures var o := old(Fence(record, policy));
              old(Refusal(record, policy, known)).None? && o.decision.Accepted() && naming(record.subject) != [] ==>
                && log == Evicted(naming, old(Fenced(record, policy)), naming(record.subject), limits.maxRetainedEvidence, limits.maxEvidencePerSubject)
                          + [Stored(record, false, old(nextInsertionIndex))]
                && sources == old(sources)[record.source := Advanced(old(StateOf(sources, record.source)), record.source, record.fence, now, record.authority)]
                && StoredAs(r, IngestOutcome(identify(record), true, o.decision, AssessFreshness(record, now, policy.freshness),
                                             o.livenessReset, o.sequenceGap, 0))
                && r.value.evicted == |old(log)| + 1 - |log|
    {
      var invalid := Validate(record, limits);
      if invalid.Some? {
        stats := stats.(rejectedInvalid := stats.rejectedInvalid + 1);
        return Err(invalid.value);
      }
      if policy.requireKnownSubject && known.Some? {
        if !known.value(record.subject) {
          stats := stats.(rejectedUnknownSubject := stats.rejectedUnknownSubject + 1);
          return Err(NotFound);
        }
      }
      if policy.requireIncarnation && record.fence.incarnation == 0 {
        stats := stats.(rejectedInvalid := stats.rejectedInvalid + 1);
        return Err(InvalidArgument);
      }
      if record.source !in sources && |sources| >= limits.maxSources {
        stats := stats.(rejectedInvalid := stats.rejectedInvalid + 1);
        return Err(LimitExceeded);
      }
      r := IngestFenced(record, now, policy);
    }

    // A record from a snapshot bypasses the fence, and is marked so that it never counts as live.
    method IngestRecovered(record: Evidence) returns (r: Result<IngestOutcome>)
      requires Valid()
      modifies this
      ensures Valid()
      ensures sources == TableAfter(old(sources), Recovered(record), limits, naming)
      ensures Validate(record, limits).Some? ==>
                r == Err(Validate(record, limits).value) && log == old(log) && sources == old(sources)
      ensures Validate(record, limits).None? && record.source !in old(sources) && |old(sources)| >= limits.maxSources ==>
                r == Err(LimitExceeded) && log == old(log) && sources == old(sources)
      ensures Validate(record, limits).None? && (record.source in old(sources) || |old(sources)| < limits.maxSources) ==>
                && sources == (if record.source in old(sources) then old(sources)
                               else old(sources)[record.source := UNKNOWN_SOURCE.(source := record.source)])
                && (naming(record.subject) == [] ==> r == Err(InvalidArgument) && log == old(log))
                && (naming(record.subject) != [] ==>
                      && log == Evicted(naming, old(log), naming(record.subject), limits.maxRetainedEvidence, limits.maxEvidencePerSubject)
                                + [Stored(record, true, old(nextInsertionIndex))]
                      && StoredAs(r, IngestOutcome(identify(record), true, FirstObservation, UnknownFreshness, false, false, 0))
                      && r.value.evicted == |old(log)| + 1 - |log|
                      && Admitted(old(log), log, Stored(record, true, old(nextInsertionIndex)), r.value.evicted))
    {
      if Validate(record, limits).Some? {
        stats := stats.(rejectedInvalid := stats.rejectedInvalid + 1);
        return Err(Validate(record, limits).value);
      }
      var source := record.source;
      ghost var sources0 := sources;
      if source !in sources {
        if |sources| >= limits.maxSources {
          stats := stats.(rejectedInvalid := stats.rejectedInvalid + 1);
          return Err(LimitExceeded);
        }
        UpdateSize(sources, source, UNKNOWN_SOURCE.(source := source), limits.maxSources);
        sources := sources[source := UNKNOWN_SOURCE.(source := source)];
        assert LiveIsCurrent(log, sources) by {
          forall r | r in log && Live(r) ensures Current(r, sources) {
            assert Current(r, sources0);
          }
        }
      }
      r := AdmitRecovered(record);
    }

    // The admission of a record from a snapshot, whose source is known by now.
    method AdmitRecovered(record: Evidence) returns (r: Result<IngestOutcome>)
      requires Valid()
      modifies this`bySubject, this`insertionOrder, this`nextInsertionIndex, this`retained, this`stats, this`log
      ensures Valid()
      ensures naming(record.subject) == [] ==> r == Err(InvalidArgument) && log == old(log)
      ensures naming(record.subject) != [] ==>
                && log == Evicted(naming, old(log), naming(record.subject), limits.maxRetainedEvidence, limits.maxEvidencePerSubject)
                          + [Stored(record, true, old(nextInsertionIndex))]
                && StoredAs(r, IngestOutcome(identify(record), true, FirstObservation, UnknownFreshness, false, false, 0))
                && r.value.evicted == |old(log)| + 1 - |log|
                && Admitted(old(log), log, Stored(record, true, old(nextInsertionIndex)), r.value.evicted)
    {
      LiveAfterAdmit(naming, log, naming(record.subject), Stored(record, true, nextInsertionIndex), limits, sources);
      AdmitsExactly(naming, log, Stored(record, true, nextInsertionIndex), limits.maxRetainedEvidence, limits.maxEvidencePerSubject);
      var admitted := AdmitLocked(record, true);
      if admitted.Err? {
        return Err(admitted.error);
      }
      return Ok(IngestOutcome(identify(record), true, FirstObservation, UnknownFreshness, false, false, admitted.value));
    }

    method ResetLiveness()
      requires Valid()
      modifies this`sources
      ensures Valid()
      ensures sources == TableAfter(old(sources), LivenessDropped, limits, naming)
      ensures sources == map s | s in old(sources) :: old(sources)[s].(live := false)
    {
      ghost var before := sources;
      var todo := sources.Keys;
      while todo != {}
        invariant todo <= sources.Keys == before.Keys
        invariant forall s :: s in before ==> sources[s] == if s in todo then before[s] else before[s].(live := false)
        decreases todo
      {
        var s :| s in todo;
        sources := sources[s := sources[s].(live := false)];
        todo := todo - {s};
      }
      assert |sources| == |sources.Keys| == |before.Keys| == |before|;
      forall r | r in log && Live(r) ensures Current(r, sources) {
        assert Current(r, before);
      }
    }

    // Compacts one bucket in place: `write` trails `read`. Stops at the budget or on cancellation,
    // keeping everything not yet read.
    method SweepBucket(bucket: Log, horizon: int, budget: nat, removed: nat, polls: nat, cancelAt: nat)
      returns (kept: Log, removed': nat, polls': nat, cancelled: bool, ghost read: nat)
      requires Ordered(bucket) && retained >= |bucket| && removed <= budget && polls <= cancelAt
      modifies this`insertionOrder, this`retained
      ensures read <= |bucket| && kept == Kept(bucket, read, horizon) + bucket[read..]
      ensures removed' == removed + |Removed(bucket, read, horizon)| <= budget
      ensures insertionOrder == old(insertionOrder) - Removed(bucket, read, horizon)
      ensures retained == old(retained) - |Removed(bucket, read, horizon)|
      ensures !cancelled ==> polls' <= cancelAt && (removed' < budget ==> read == |bucket|)
    {
      kept, removed', polls', cancelled := bucket, removed, polls, false;
      var write, next := 0, 0;
      assert bucket[..0] == [];
      while next < |bucket|
        invariant 0 <= write <= next <= |bucket| == |kept|
        invariant kept[..write] == Kept(bucket, next, horizon) && kept[next..] == bucket[next..]
        invariant removed' == removed + |Removed(bucket, next, horizon)| <= budget && polls' <= cancelAt
        invariant insertionOrder == old(insertionOrder) - Removed(bucket, next, horizon)
        invariant retained == old(retained) - |Removed(bucket, next, horizon)| && retained >= |bucket| - next
      {
        read := next;
        if removed' >= budget {
          kept := KeepRest(kept, write, next);
          return;
        }
        polls' := polls' + 1;
        if polls' > cancelAt {
          kept := KeepRest(kept, write, next);
          cancelled := true;
          return;
        }
        CompactStep(bucket, next, horizon);
        assert kept[next] == kept[next..][0] == bucket[next];
        assert kept[next + 1..] == kept[next..][1..] == bucket[next + 1..];
        if kept[next].observedAt < horizon {
          insertionOrder := insertionOrder - {kept[next].insertionIndex};
          retained := retained - 1;
          removed' := removed' + 1;
        } else {
          kept := MoveDown(kept, write, next);
          write := write + 1;
        }
        next := next + 1;
      }
      read := next;
      assert bucket[next..] == [];
      kept := kept[..write];
    }

    static lemma OneFurther<T>(s: seq<T>, i: nat, j: nat)
      requires i <= j < |s|
      ensures s[i..j + 1] == s[i..j] + [s[j]]
    {
    }

    method MoveDown<T>(bucket: seq<T>, write: nat, read: nat) returns (moved: seq<T>)
      requires write <= read < |bucket|
      ensures |moved| == |bucket| && moved[..write + 1] == bucket[..write] + [bucket[read]] && moved[read + 1..] == bucket[read + 1..]
    {
      moved := bucket[write := bucket[read]];
    }

    // The tail of a stopped compaction: the unread records move down behind the kept ones.
    method KeepRest<T>(bucket: seq<T>, write: nat, read: nat) returns (kept: seq<T>)
      requires write <= read <= |bucket|
      ensures kept == bucket[..write] + bucket[read..]
    {
      kept := bucket;
      var w := write;
      for rest := read to |bucket|
        invariant w == write + (rest - read) <= rest
        invariant |kept| == |bucket|
        invariant kept[..w] == bucket[..write] + bucket[read..rest]
        invariant kept[rest..] == bucket[rest..]
      {
        assert kept[rest] == kept[rest..][0] == bucket[rest];
        assert kept[rest + 1..] == kept[rest..][1..] == bucket[rest + 1..];
        OneFurther(bucket, read, rest);
        Regroup(bucket[..write], bucket[read..rest], [bucket[rest]]);
        kept := MoveDown(kept, w, rest);
        w := w + 1;
      }
      kept := kept[..w];
    }

    // The records asked for.
    method Query(q: EvidenceQuery) returns (found: Log)
      requires Valid()
      ensures found == Answer(naming, log, q)
      ensures !q.includeNonLive ==> forall r :: r in found ==> Current(r, sources)
    {
      found := Collect(naming, bySubject, q, log);
      found := Presented(found, q.newestFirst);
      if !q.includeNonLive {
        LiveAnswersAreCurrent(naming, log, sources, q);
      }
    }

    // The retention sweep. The token is a one-way latch: poll number `cancelAt` and all later ones
    // find it cancelled. Buckets are visited in the order of their names.
    method Sweep(horizon: int, maxRecords: nat, cancelAt: nat) returns (r: Result<nat>, ghost gone: set<nat>)
      requires Valid()
      modifies this`bySubject, this`insertionOrder, this`retained, this`stats, this`log
      ensures Valid()
      ensures sources == TableAfter(old(sources), Swept, limits, naming)
      ensures log == Without(old(log), gone) && gone <= Outdated(old(log), horizon) && |gone| <= maxRecords
      ensures InTurn(naming, old(log), gone, horizon)
      ensures r.Ok? ==> r.value == |gone| == Min(maxRecords, |Outdated(old(log), horizon)|)
      ensures r.Err? ==> r.error == Cancelled && maxRecords > 0
      ensures cancelAt == 0 && maxRecords > 0 ==> r == Err(Cancelled) && log == old(log) && stats == old(stats)
    {
      WithoutNone(log, {});
      if maxRecords == 0 {
        return Ok(0), {};
      }
      var polls: nat := 1;
      if polls > cancelAt {
        return Err(Cancelled), {};
      }
      stats := stats.(retentionSweeps := stats.retentionSweeps + 1);
      r, gone := SweepBuckets(horizon, maxRecords, polls, cancelAt);
    }

    method SweepBuckets(horizon: int, maxRecords: nat, polls0: nat, cancelAt: nat) returns (r: Result<nat>, ghost gone: set<nat>)
      requires Valid() && polls0 <= cancelAt
      modifies this`bySubject, this`insertionOrder, this`retained, this`log
      ensures Valid()
      ensures log == Without(old(log), gone) && gone <= Outdated(old(log), horizon) && |gone| <= maxRecords
      ensures InTurn(naming, old(log), gone, horizon)
      ensures r.Ok? ==> r.value == |gone| == Min(maxRecords, |Outdated(old(log), horizon)|)
      ensures r.Err? ==> r.error == Cancelled
    {
      SweepStarts(naming, bySubject, insertionOrder, retained, log, horizon, maxRecords);
      gone := {};
      var polls: nat, removed: nat := polls0, 0;
      var todo := bySubject.Keys;
      while todo != {}
        invariant Listed() && log == old(log) && todo <= bySubject.Keys
        invariant Sweeping(naming, bySubject, insertionOrder, retained, log, gone, todo, horizon)
        invariant Thorough(naming, log, gone, todo, horizon, maxRecords)
        invariant removed == |gone| <= maxRecords && polls <= cancelAt && InTurn(naming, log, gone, horizon)
        decreases todo
      {
        var k := NextName(todo);
        var cancelled;
        ghost var more;
        removed, polls, cancelled, more := SweepNext(k, gone, todo, horizon, maxRecords, removed, polls, cancelAt);
        SweepOneInTurn(naming, log, gone, todo, horizon, maxRecords, k, more);
        if cancelled {
          gone := gone + more;
          CloseSweep(gone, todo - {k}, horizon);
          return Err(Cancelled), gone;
        }
        SweepOneThorough(naming, log, gone, todo, horizon, maxRecords, k, more);
        gone := gone + more;
        todo := todo - {k};
      }
      SweepCompletes(naming, log, gone, horizon, maxRecords);
      CloseSweep(gone, todo, horizon);
      return Ok(removed), gone;
    }

    // One bucket of the sweep, compacted and put back.
    method SweepNext(k: Name, ghost gone: set<nat>, ghost todo: set<Name>, horizon: int, budget: nat,
                     removed: nat, polls: nat, cancelAt: nat)
      returns (removed': nat, polls': nat, cancelled: bool, ghost more: set<nat>)
      requires Ordered(log) && Sweeping(naming, bySubject, insertionOrder, retained, log, gone, todo, horizon)
      requires k in todo && todo <= bySubject.Keys && removed == |gone| <= budget && polls <= cancelAt
      modifies this`bySubject, this`insertionOrder, this`retained
      ensures Sweeping(naming, bySubject, insertionOrder, retained, log, gone + more, todo - {k}, horizon)
      ensures bySubject.Keys == old(bySubject).Keys
      ensures |gone + more| == |gone| + |more| && removed' == |gone| + |more| <= budget
      ensures more <= Outdated(Bucket(naming, log, k), horizon) && IsFront(Bucket(naming, log, k), more, horizon)
      ensures !cancelled ==> polls' <= cancelAt
      ensures !cancelled && removed' < budget ==> more == Outdated(Bucket(naming, log, k), horizon)
    {
      SweepUntouched(naming, bySubject, insertionOrder, retained, log, gone, todo, horizon, k);
      ghost var view0, order0, retained0 := bySubject, insertionOrder, retained;
      ghost var bucket := bySubject[k];
      var kept;
      ghost var read;
      kept, removed', polls', cancelled, read := SweepBucket(bySubject[k], horizon, budget, removed, polls, cancelAt);
      more := Removed(bucket, read, horizon);
      StopAfter(bucket, read, horizon);
      RemovedFront(bucket, read, horizon);
      assert read == |bucket| ==> bucket[..read] == bucket;
      SweepOne(naming, view0, order0, retained0, log, gone, todo, horizon, k, kept, more);
      bySubject := bySubject[k := kept];
    }

    // Once a sweep stops, the list is what its buckets kept.
    ghost method CloseSweep(gone: set<nat>, todo: set<Name>, horizon: int)
      requires Listed()
      requires Sweeping(naming, bySubject, insertionOrder, retained, log, gone, todo, horizon)
      modifies this`log
      ensures Valid() && log == Without(old(log), gone)
    {
      SweepEnds(naming, bySubject, insertionOrder, retained, log, gone, todo, horizon);
      SweptSound(naming, log, gone, nextInsertionIndex, limits);
      LiveSubset(log, Without(log, gone), sources);
      log := Without(log, gone);
    }
  }
}
