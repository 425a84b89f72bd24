// Runs of the evidence store as its fence table sees them: ingests of many sources, recoveries, sweeps and
// liveness resets in any order (src/evidence/store.cpp).
module EvidenceRuns {
  import opened Base
  import opened Model
  import opened Fencing
  import opened EvidenceLog
  import opened EvidenceViews

  datatype IngestPolicy = IngestPolicy(minimumAuthority: AuthorityLevel, requireKnownSubject: bool,
                                       requireIncarnation: bool, freshness: FreshnessPolicy)

  // ---- What refuses a record before its fence is looked at ----

  function Validate(r: Evidence, limits: Limits): Option<ErrorCode> {
    if r.kind == UnknownKind then Some(InvalidArgument)
    else if !r.subject.Valid() then Some(InvalidArgument)
    else if r.source == [] then Some(InvalidArgument)
    else if r.fence.source != r.source then Some(PreconditionFailed)
    else if r.support == Supported && r.unit_ == UnknownUnit then Some(InvalidArgument)
    else if r.validity < 0 then Some(InvalidArgument)
    else if |r.labels| > limits.maxLabels then Some(LimitExceeded)
    else if exists l :: l in r.labels && l == [] then Some(InvalidArgument)
    else if |r.metadata| > limits.maxMetadataEntries then Some(LimitExceeded)
    else if exists m :: m in r.metadata && (|m.0| > limits.maxMetadataKeyBytes || |m.1| > limits.maxMetadataValueBytes)
      then Some(LimitExceeded)
    else if |r.note| > limits.maxNoteBytes then Some(LimitExceeded)
    else None
  }

  function RefusalBy(sources: map<Name, SourceState>, record: Evidence, policy: IngestPolicy, known: Option<Subject -> bool>,
                     limits: Limits): Option<ErrorCode>
  {
    if Validate(record, limits).Some? then Validate(record, limits)
    else if policy.requireKnownSubject && known.Some? && !known.value(record.subject) then Some(NotFound)
    else if policy.requireIncarnation && record.fence.incarnation == 0 then Some(InvalidArgument)
    else if record.source !in sources && |sources| >= limits.maxSources then Some(LimitExceeded)
    else None
  }

  function FenceBy(sources: map<Name, SourceState>, record: Evidence, policy: IngestPolicy): FenceOutcome {
    EvaluateFence(record.fence, record.authority, policy.minimumAuthority, StateOf(sources, record.source))
  }

  // ---- Events ----

  datatype Event =
    | Ingested(record: Evidence, now: int, policy: IngestPolicy, known: Option<Subject -> bool>)
    | Recovered(record: Evidence)
    | Swept
    | LivenessDropped

  // An ingest whose fence is looked at and accepted.
  predicate Passes(sources: map<Name, SourceState>, e: Event, limits: Limits) {
    e.Ingested? && RefusalBy(sources, e.record, e.policy, e.known, limits).None? && FenceBy(sources, e.record, e.policy).decision.Accepted()
  }

  // The fence table after an event. An accepted fence is not noted when the record's subject has no name to
  // be stored under.
  function TableAfter(sources: map<Name, SourceState>, e: Event, limits: Limits, naming: Naming): map<Name, SourceState> {
    match e
    case Ingested(record, now, policy, known) =>
      var state := StateOf(sources, record.source);
      if RefusalBy(sources, record, policy, known, limits).Some? then sources
      else if !FenceBy(sources, record, policy).decision.Accepted() then sources[record.source := Denied(state, record.source)]
      else if naming(record.subject) == [] then sources
      else sources[record.source := Advanced(state, record.source, record.fence, now, record.authority)]
    case Recovered(record) =>
      if Validate(record, limits).Some? || record.source in sources || |sources| >= limits.maxSources then sources
      else sources[record.source := UNKNOWN_SOURCE.(source := record.source)]
    case Swept => sources
    case LivenessDropped => map s | s in sources :: sources[s].(live := false)
  }

  // The event stores a record of this source.
  predicate Stores(sources: map<Name, SourceState>, e: Event, source: Name, limits: Limits, naming: Naming) {
    Passes(sources, e, limits) && e.record.source == source && naming(e.record.subject) != []
  }

  // The fences under which records of one source were stored, in order, with the gaps that were reported.
  function StoredSteps(sources: map<Name, SourceState>, events: seq<Event>, source: Name, limits: Limits, naming: Naming): seq<Step>
    decreases |events|
  {
    if events == [] then []
    else
      (if Stores(sources, events[0], source, limits, naming)
       then [Step(events[0].record.fence, FenceBy(sources, events[0].record, events[0].policy).gapSize)] else [])
      + StoredSteps(TableAfter(sources, events[0], limits, naming), events[1..], source, limits, naming)
  }

  // An ingest of this source that nothing refuses before its fence is looked at.
  predicate LooksAt(sources: map<Name, SourceState>, e: Event, source: Name, limits: Limits) {
    e.Ingested? && e.record.source == source && RefusalBy(sources, e.record, e.policy, e.known, limits).None?
  }

  // The fence is accepted but the record has no name to be stored under, so the table is not told.
  predicate Unnoted(sources: map<Name, SourceState>, e: Event, limits: Limits, naming: Naming) {
    Passes(sources, e, limits) && naming(e.record.subject) == []
  }

  // What the fence of one source is shown by an event: every ingest whose fence is looked at, accepted or not, that
  // the table is told of.
  function Observed(sources: map<Name, SourceState>, e: Event, source: Name, limits: Limits, naming: Naming): seq<Observation> {
    if LooksAt(sources, e, source, limits) && !Unnoted(sources, e, limits, naming)
    then [Observation(e.record.fence, e.record.authority, e.policy.minimumAuthority, e.now)]
    else []
  }

  function Observations(sources: map<Name, SourceState>, events: seq<Event>, source: Name, limits: Limits, naming: Naming): seq<Observation>
    decreases |events|
  {
    if events == [] then []
    else Observed(sources, events[0], source, limits, naming)
         + Observations(TableAfter(sources, events[0], limits, naming), events[1..], source, limits, naming)
  }

  // All that a fence reads of a table entry.
  predicate SameFence(a: SourceState, b: SourceState) { a.hasState == b.hasState && (a.hasState ==> a.last == b.last) }

  lemma FenceReads(f: FenceVector, authority: AuthorityLevel, minimum: AuthorityLevel, a: SourceState, b: SourceState)
    requires SameFence(a, b)
    ensures EvaluateFence(f, authority, minimum, a) == EvaluateFence(f, authority, minimum, b)
  {
  }

  // An event that stores nothing of a source leaves what its fence reads.
  lemma QuietEvent(sources: map<Name, SourceState>, e: Event, source: Name, limits: Limits, naming: Naming)
    requires !Stores(sources, e, source, limits, naming)
    ensures SameFence(StateOf(TableAfter(sources, e, limits, naming), source), StateOf(sources, source))
  {
  }

  lemma StoringEvent(sources: map<Name, SourceState>, e: Event, source: Name, limits: Limits, naming: Naming)
    requires Stores(sources, e, source, limits, naming)
    ensures StateOf(TableAfter(sources, e, limits, naming), source)
      == Advanced(StateOf(sources, source), source, e.record.fence, e.now, e.record.authority)
  {
  }

  // What one observation adds to the accepted steps.
  lemma ObservedFirst(state: SourceState, o: Observation, later: seq<Observation>)
    ensures var outcome := EvaluateFence(o.fence, o.authority, o.minimum, state);
      AcceptedSteps(state, [o] + later)
      == (if outcome.decision.Accepted() then [Step(o.fence, outcome.gapSize)] else []) + AcceptedSteps(Observe(state, o), later)
  {
    assert ([o] + later)[1..] == later && ([o] + later)[0] == o;
    assert [] + AcceptedSteps(Observe(state, o), later) == AcceptedSteps(Observe(state, o), later);
  }

  // The state a source's fence is in after an event agrees with what its observations lead to.
  lemma ObservedState(sources: map<Name, SourceState>, e: Event, source: Name, limits: Limits, naming: Naming, state: SourceState)
    requires SameFence(StateOf(sources, source), state)
    ensures var seen := Observed(sources, e, source, limits, naming);
      && |seen| <= 1
      && SameFence(StateOf(TableAfter(sources, e, limits, naming), source), if seen == [] then state else Observe(state, seen[0]))
      && (seen == [] ==> !Stores(sources, e, source, limits, naming))
      && (seen != [] ==>
            var outcome := EvaluateFence(seen[0].fence, seen[0].authority, seen[0].minimum, state);
            && (Stores(sources, e, source, limits, naming) <==> outcome.decision.Accepted())
            && seen[0].fence == e.record.fence && FenceBy(sources, e.record, e.policy) == outcome)
  {
    if LooksAt(sources, e, source, limits) {
      FenceReads(e.record.fence, e.record.authority, e.policy.minimumAuthority, StateOf(sources, source), state);
    }
    if Stores(sources, e, source, limits, naming) {
      StoringEvent(sources, e, source, limits, naming);
    } else {
      QuietEvent(sources, e, source, limits, naming);
    }
  }

  // The stored records of a source are the accepted ones among all its observations, denied ones included, whatever
  // happens in between.
  lemma {:induction false} StoredAreAccepted(sources: map<Name, SourceState>, events: seq<Event>, source: Name, limits: Limits,
                                             naming: Naming, state: SourceState)
    requires SameFence(StateOf(sources, source), state)
    ensures StoredSteps(sources, events, source, limits, naming)
      == AcceptedSteps(state, Observations(sources, events, source, limits, naming))
    decreases |events|
  {
    if events != [] {
      var e, next := events[0], TableAfter(sources, events[0], limits, naming);
      var seen, later := Observed(sources, e, source, limits, naming), Observations(next, events[1..], source, limits, naming);
      ObservedState(sources, e, source, limits, naming, state);
      if seen == [] {
        StoredAreAccepted(next, events[1..], source, limits, naming, state);
        assert seen + later == later;
      } else {
        assert seen == [seen[0]];
        ObservedFirst(state, seen[0], later);
        StoredAreAccepted(next, events[1..], source, limits, naming, Observe(state, seen[0]));
      }
    }
  }

  // Over any run of the store, the records stored of one source have strictly later fences; within one boot the
  // incarnation is constant and neither epoch nor generation goes back.
  lemma StoredIncrease(sources: map<Name, SourceState>, events: seq<Event>, source: Name, limits: Limits, naming: Naming, i: nat, j: nat)
    requires i < j < |StoredSteps(sources, events, source, limits, naming)|
    ensures var steps := StoredSteps(sources, events, source, limits, naming);
      Follows(steps[i].fence, steps[j].fence) && steps[i].fence != steps[j].fence
  {
    var state, run := StateOf(sources, source), Observations(sources, events, source, limits, naming);
    StoredAreAccepted(sources, events, source, limits, naming, state);
    AcceptedIncrease(state, run, i, j);
    NoReplay(state, run, i, j);
  }

  // And nothing is lost silently: within one line, what was stored after i and the gaps reported account for
  // every sequence number up to j.
  lemma StoredAccountForSequence(sources: map<Name, SourceState>, events: seq<Event>, source: Name, limits: Limits, naming: Naming,
                                 i: nat, j: nat)
    requires i <= j < |StoredSteps(sources, events, source, limits, naming)|
    requires var steps := StoredSteps(sources, events, source, limits, naming); SameLine(steps[i].fence, steps[j].fence)
    ensures var steps := StoredSteps(sources, events, source, limits, naming);
      (j - i) + GapSum(steps[i + 1..j + 1]) == steps[j].fence.sequence - steps[i].fence.sequence
  {
    var state, run := StateOf(sources, source), Observations(sources, events, source, limits, naming);
    StoredAreAccepted(sources, events, source, limits, naming, state);
    GapsAccountForSequence(state, run, i, j);
  }

  // An accepted fence would be accepted once more exactly when its record could not be stored, because its
  // subject's rendering is too long to be a name: the table has then not been told of it.
  lemma AcceptedAgainExactly(sources: map<Name, SourceState>, e: Event, limits: Limits, naming: Naming)
    requires Passes(sources, e, limits)
    ensures FenceBy(TableAfter(sources, e, limits, naming), e.record, e.policy).decision.Accepted() <==> naming(e.record.subject) == []
  {
    var next := StateOf(TableAfter(sources, e, limits, naming), e.record.source);
    AcceptsExactly(e.record.fence, e.record.authority, e.policy.minimumAuthority, next);
    BeforeIsOrder(e.record.fence, e.record.fence, e.record.fence);
  }

  function Repeated(c: Byte, n: nat): Bytes { if n == 0 then [] else [c] + Repeated(c, n - 1) }

  lemma {:induction false} RepeatedLength(c: Byte, n: nat)
    ensures |Repeated(c, n)| == n && forall i :: 0 <= i < n ==> Repeated(c, n)[i] == c
  {
    if n > 0 {
      RepeatedLength(c, n - 1);
    }
  }

  // Such subjects exist: a link whose name has 96 letters is valid, and its key is no name.
  lemma NamelessSubject()
    ensures var s := Subject(Link, Repeated(0x61, MAX_NAME_LENGTH)); s.Valid() && IsCanonical(s.name) && Key(s) == []
  {
    RepeatedLength(0x61, MAX_NAME_LENGTH);
  }
}
