// Episodes: identity, lifecycle and bounded history of asserted congestion (src/episode/episode.cpp).
module Episodes {
  import opened Base
  import opened Model
  import opened Assessing

  datatype EpisodeKey = EpisodeKey(scope: Subject, tenant: Name, mechanism: Mechanism, generation: GenerationVector,
                                   policyVersion: Bytes)

  datatype EpisodeState = Open | Quiescent | Resolved | Expired

  datatype TransitionKind = Opened | Updated | Escalated | Deescalated | Quiesced | Resolving | Expiring | Reopened

  datatype AssessmentDigest = AssessmentDigest(at: int, verdict: Verdict, mechanisms: set<Mechanism>, severity: Severity,
                                               confidence: nat, citationCount: nat, confirming: bool, representative: Option<nat>)

  datatype Cause = CongestionAsserted | Refreshed | Reasserted | NoAssertion | WindowElapsed

  datatype Transition = Transition(revision: nat, kind: TransitionKind, at: int, severityBefore: Severity, severityAfter: Severity,
                                   verdictBefore: Verdict, verdictAfter: Verdict, confidence: nat, cause: Cause, citations: seq<nat>)

  datatype Episode = Episode(
    id: nat, key: EpisodeKey, state: EpisodeState, revision: nat, currentSeverity: Severity, peakSeverity: Severity,
    confidence: nat, firstSeen: int, lastSeen: int, lastUpdated: int, resolvedAt: int, observations: nat,
    transitions: seq<Transition>, assessments: seq<AssessmentDigest>, citations: seq<nat>, sources: seq<Name>,
    transitionsDropped: nat, assessmentsDropped: nat, historyTruncated: bool)

  datatype EpisodePolicy = EpisodePolicy(resolveAfter: int, expireAfter: int)

  datatype UpdateKind = DidOpen | DidUpdate | DidEscalate | DidDeescalate | DidQuiesce | DidResolve | DidExpire | Unchanged

  datatype EpisodeUpdate = EpisodeUpdate(id: nat, kind: UpdateKind, state: EpisodeState, revision: nat, severity: Severity, created: bool)

  const NO_UPDATE: EpisodeUpdate := EpisodeUpdate(0, Unchanged, Open, 0, NoSeverity, false)

  // ---- Bounded history ----

  // The most recent entries, at most max of them.
  function Recent<T>(s: seq<T>, max: nat): seq<T> { if |s| > max then s[|s| - max..] else s }

  function Overflow<T>(s: seq<T>, max: nat): nat { if |s| > max then |s| - max else 0 }

  function WithTransition(e: Episode, t: Transition, max: nat): Episode {
    var all := e.transitions + [t];
    e.(transitions := Recent(all, max), transitionsDropped := e.transitionsDropped + Overflow(all, max),
       historyTruncated := e.historyTruncated || |all| > max)
  }

  function WithAssessment(e: Episode, d: AssessmentDigest, max: nat): Episode {
    var all := e.assessments + [d];
    e.(assessments := Recent(all, max), assessmentsDropped := e.assessmentsDropped + Overflow(all, max),
       historyTruncated := e.historyTruncated || |all| > max)
  }

  lemma Behind<T>(all: seq<T>, n: nat)
    requires n < |all|
    ensures all[n..][1..] == all[n + 1..] && |all[n..]| == |all| - n
  {
  }

  // Appending drops the oldest entries one at a time and counts each.
  method AppendTransition(e: Episode, t: Transition, max: nat) returns (r: Episode)
    ensures r == WithTransition(e, t, max)
  {
    ghost var all := e.transitions + [t];
    var kept, dropped, truncated := e.transitions + [t], e.transitionsDropped, e.historyTruncated;
    while |kept| > max
      invariant |kept| <= |all| && kept == all[|all| - |kept|..]
      invariant |kept| >= Min(|all|, max)
      invariant dropped == e.transitionsDropped + (|all| - |kept|)
      invariant truncated == (e.historyTruncated || |kept| < |all|)
    {
      Behind(all, |all| - |kept|);
      kept, dropped, truncated := kept[1..], dropped + 1, true;
    }
    r := e.(transitions := kept, transitionsDropped := dropped, historyTruncated := truncated);
  }

  method AppendAssessment(e: Episode, d: AssessmentDigest, max: nat) returns (r: Episode)
    ensures r == WithAssessment(e, d, max)
  {
    ghost var all := e.assessments + [d];
    var kept, dropped, truncated := e.assessments + [d], e.assessmentsDropped, e.historyTruncated;
    while |kept| > max
      invariant |kept| <= |all| && kept == all[|all| - |kept|..]
      invariant |kept| >= Min(|all|, max)
      invariant dropped == e.assessmentsDropped + (|all| - |kept|)
      invariant truncated == (e.historyTruncated || |kept| < |all|)
    {
      Behind(all, |all| - |kept|);
      kept, dropped, truncated := kept[1..], dropped + 1, true;
    }
    r := e.(assessments := kept, assessmentsDropped := dropped, historyTruncated := truncated);
  }

  // ---- One episode ----

  function DigestOf(a: CongestionAssessment): AssessmentDigest {
    AssessmentDigest(a.evaluatedAt, a.verdict, a.mechanisms, a.severity, a.confidence, |a.citations|, a.asserted,
                     if a.citations == [] then None else Some(a.citations[0]))
  }

  function LastVerdict(e: Episode): Verdict {
    if e.assessments == [] then NoEvidence else e.assessments[|e.assessments| - 1].verdict
  }

  predicate IsTerminal(e: Episode) { e.state == Resolved || e.state == EpisodeState.Expired }

  function Raised(peak: Severity, now: Severity): Severity { if now.Rank() > peak.Rank() then now else peak }

  // The scope was assessed without an assertion.
  function Quiesce(e: Episode, a: CongestionAssessment, now: int, limits: Limits): Episode {
    var calm := e.(state := Quiescent, currentSeverity := NoSeverity, lastUpdated := now, revision := e.revision + 1,
                   observations := e.observations + 1);
    var t := Transition(e.revision + 1, Quiesced, now, e.currentSeverity, NoSeverity, LastVerdict(e), a.verdict, a.confidence, NoAssertion, a.citations);
    WithAssessment(WithTransition(calm, t, limits.maxEpisodeTransitions), DigestOf(a), limits.maxEpisodeAssessments)
  }

  function RefreshKind(e: Episode, severity: Severity): TransitionKind {
    if IsTerminal(e) then Reopened
    else if severity.Rank() > e.currentSeverity.Rank() then Escalated
    else if severity.Rank() < e.currentSeverity.Rank() then Deescalated
    else Updated
  }

  function RefreshCause(e: Episode): Cause { if IsTerminal(e) then Reasserted else Refreshed }

  // Congestion was asserted again.
  function Refresh(e: Episode, a: CongestionAssessment, now: int, limits: Limits): Episode {
    var live := e.(state := Open, currentSeverity := a.severity, peakSeverity := Raised(e.peakSeverity, a.severity),
                   confidence := a.confidence, lastSeen := now, lastUpdated := now, observations := e.observations + 1,
                   citations := a.citations, sources := if a.sources != [] then a.sources else e.sources, revision := e.revision + 1);
    var t := Transition(e.revision + 1, RefreshKind(e, a.severity), now, e.currentSeverity, a.severity, LastVerdict(e), a.verdict,
                        a.confidence, RefreshCause(e), a.citations);
    WithAssessment(WithTransition(live, t, limits.maxEpisodeTransitions), DigestOf(a), limits.maxEpisodeAssessments)
  }

  // Congestion was asserted for the first time under this identity.
  function Create(id: nat, key: EpisodeKey, a: CongestionAssessment, now: int, limits: Limits): Episode {
    var e := Episode(id, key, Open, 1, a.severity, a.severity, a.confidence, now, now, now, 0, 1, [], [], a.citations, a.sources, 0, 0, false);
    var t := Transition(1, Opened, now, NoSeverity, a.severity, NoEvidence, a.verdict, a.confidence, CongestionAsserted, a.citations);
    WithAssessment(WithTransition(e, t, limits.maxEpisodeTransitions), DigestOf(a), limits.maxEpisodeAssessments)
  }

  // Where the passage of time takes an episode, if anywhere.
  function NextState(e: Episode, now: int, policy: EpisodePolicy): Option<EpisodeState> {
    var idle := now - e.lastSeen;
    if idle < 0 then None
    else if e.state == Open && idle > policy.resolveAfter then Some(Quiescent)
    else if e.state == Quiescent && idle > policy.resolveAfter * 2 then Some(Resolved)
    else if (e.state == Resolved || e.state == Quiescent) && idle > policy.expireAfter then Some(EpisodeState.Expired)
    else None
  }

  function KindOf(s: EpisodeState): TransitionKind {
    match s
    case Quiescent => Quiesced
    case Resolved => Resolving
    case Expired => Expiring
    case Open => Updated
  }

  function Advance(e: Episode, now: int, policy: EpisodePolicy, limits: Limits): Episode {
    match NextState(e, now, policy)
    case None => e
    case Some(next) =>
      var ends := next == Resolved || next == EpisodeState.Expired;
      var severity := if ends then NoSeverity else e.currentSeverity;
      var moved := e.(state := next, lastUpdated := now, revision := e.revision + 1,
                      resolvedAt := if ends then now else e.resolvedAt, currentSeverity := severity);
      var t := Transition(e.revision + 1, KindOf(next), now, e.currentSeverity, severity, LastVerdict(e), LastVerdict(e), e.confidence, WindowElapsed, []);
      WithTransition(moved, t, limits.maxEpisodeTransitions)
  }

  // ---- What every step keeps of an episode that this registry opened ----

  // Revisions and observations are all accounted for, retained revisions are consecutive and end at the
  // current one, truncation is admitted exactly when it happened, and the peak is never below the present.
  ghost predicate Accounted(e: Episode, limits: Limits) {
    && e.revision == |e.transitions| + e.transitionsDropped
    && e.observations == |e.assessments| + e.assessmentsDropped
    && (forall i :: 0 <= i < |e.transitions| ==> e.transitions[i].revision == e.transitionsDropped + i + 1)
    && (e.historyTruncated <==> e.transitionsDropped > 0 || e.assessmentsDropped > 0)
    && e.peakSeverity.Rank() >= e.currentSeverity.Rank()
    && |e.transitions| <= limits.maxEpisodeTransitions && |e.assessments| <= limits.maxEpisodeAssessments
  }

  // The same history, at the next revision.
  ghost predicate Continues(e: Episode, live: Episode) {
    && live.transitions == e.transitions && live.transitionsDropped == e.transitionsDropped
    && live.assessments == e.assessments && live.assessmentsDropped == e.assessmentsDropped
    && live.historyTruncated == e.historyTruncated && live.revision == e.revision + 1
    && live.peakSeverity.Rank() >= live.currentSeverity.Rank()
  }

  lemma TransitionAccounted(e: Episode, live: Episode, t: Transition, limits: Limits)
    requires Accounted(e, limits) && Continues(e, live) && live.observations == e.observations
    requires t.revision == live.revision
    ensures Accounted(WithTransition(live, t, limits.maxEpisodeTransitions), limits)
  {
    var all := e.transitions + [t];
    assert forall i :: 0 <= i < |all| ==> all[i].revision == e.transitionsDropped + i + 1;
  }

  lemma StepAccounted(e: Episode, live: Episode, t: Transition, d: AssessmentDigest, limits: Limits)
    requires Accounted(e, limits) && Continues(e, live) && live.observations == e.observations + 1
    requires t.revision == live.revision
    ensures Accounted(WithAssessment(WithTransition(live, t, limits.maxEpisodeTransitions), d, limits.maxEpisodeAssessments), limits)
  {
    TransitionAccounted(e, live.(observations := e.observations), t, limits);
  }

  lemma QuiesceAccounted(e: Episode, a: CongestionAssessment, now: int, limits: Limits)
    requires Accounted(e, limits)
    ensures Accounted(Quiesce(e, a, now, limits), limits)
  {
    var calm := e.(state := Quiescent, currentSeverity := NoSeverity, lastUpdated := now, revision := e.revision + 1,
                   observations := e.observations + 1);
    var t := Transition(e.revision + 1, Quiesced, now, e.currentSeverity, NoSeverity, LastVerdict(e), a.verdict, a.confidence, NoAssertion, a.citations);
    StepAccounted(e, calm, t, DigestOf(a), limits);
  }

  lemma RefreshAccounted(e: Episode, a: CongestionAssessment, now: int, limits: Limits)
    requires Accounted(e, limits)
    ensures Accounted(Refresh(e, a, now, limits), limits)
  {
    var live := e.(state := Open, currentSeverity := a.severity, peakSeverity := Raised(e.peakSeverity, a.severity),
                   confidence := a.confidence, lastSeen := now, lastUpdated := now, observations := e.observations + 1,
                   citations := a.citations, sources := if a.sources != [] then a.sources else e.sources, revision := e.revision + 1);
    var t := Transition(e.revision + 1, RefreshKind(e, a.severity), now, e.currentSeverity, a.severity, LastVerdict(e), a.verdict,
                        a.confidence, RefreshCause(e), a.citations);
    StepAccounted(e, live, t, DigestOf(a), limits);
  }

  lemma CreateAccounted(id: nat, key: EpisodeKey, a: CongestionAssessment, now: int, limits: Limits)
    ensures Accounted(Create(id, key, a, now, limits), limits)
  {
    var live := Episode(id, key, Open, 1, a.severity, a.severity, a.confidence, now, now, now, 0, 1, [], [], a.citations, a.sources, 0, 0, false);
    var t := Transition(1, Opened, now, NoSeverity, a.severity, NoEvidence, a.verdict, a.confidence, CongestionAsserted, a.citations);
    StepAccounted(live.(revision := 0, observations := 0), live, t, DigestOf(a), limits);
  }

  lemma AdvanceAccounted(e: Episode, now: int, policy: EpisodePolicy, limits: Limits)
    requires Accounted(e, limits)
    ensures Accounted(Advance(e, now, policy, limits), limits)
  {
    match NextState(e, now, policy)
    case None =>
    case Some(next) =>
      var ends := next == Resolved || next == EpisodeState.Expired;
      var severity := if ends then NoSeverity else e.currentSeverity;
      var moved := e.(state := next, lastUpdated := now, revision := e.revision + 1,
                      resolvedAt := if ends then now else e.resolvedAt, currentSeverity := severity);
      var t := Transition(e.revision + 1, KindOf(next), now, e.currentSeverity, severity, LastVerdict(e), LastVerdict(e), e.confidence, WindowElapsed, []);
      TransitionAccounted(e, moved, t, limits);
  }

  // ---- The lifecycle ----

  // Time alone never opens an episode, only moves it on, and at one instant at most three times.
  lemma TimeOnlyCloses(e: Episode, now: int, policy: EpisodePolicy, limits: Limits)
    ensures Advance(e, now, policy, limits).state == Open ==> e.state == Open
    ensures e.state == EpisodeState.Expired ==> Advance(e, now, policy, limits) == e
    ensures Advance(e, now, policy, limits) != e ==> Advance(e, now, policy, limits).revision == e.revision + 1
  {
  }

  function Depth(s: EpisodeState): nat {
    match s
    case Open => 3
    case Quiescent => 2
    case Resolved => 1
    case Expired => 0
  }

  lemma TimeDescends(e: Episode, now: int, policy: EpisodePolicy, limits: Limits)
    ensures var f := Advance(e, now, policy, limits);
      f == e || (Depth(f.state) < Depth(e.state) && f.lastSeen == e.lastSeen)
  {
  }

  // Advancing repeatedly at one instant settles after three steps.
  lemma TimeSettles(e: Episode, now: int, policy: EpisodePolicy, limits: Limits)
    ensures var f := Advance(Advance(Advance(e, now, policy, limits), now, policy, limits), now, policy, limits);
      Advance(f, now, policy, limits) == f
  {
    var one := Advance(e, now, policy, limits);
    var two := Advance(one, now, policy, limits);
    var three := Advance(two, now, policy, limits);
    TimeDescends(e, now, policy, limits);
    TimeDescends(one, now, policy, limits);
    TimeDescends(two, now, policy, limits);
    TimeDescends(three, now, policy, limits);
  }

  // When time moves an episode, and where: an open one after the resolution time, a quiescent one after
  // twice that or else after the expiry time, a resolved one after the expiry time.
  lemma LeftExactly(e: Episode, now: int, policy: EpisodePolicy, limits: Limits)
    ensures var idle, f := now - e.lastSeen, Advance(e, now, policy, limits);
      && (f.state == Quiescent && e.state != Quiescent <==> e.state == Open && idle >= 0 && idle > policy.resolveAfter)
      && (f.state == Resolved && e.state != Resolved <==> e.state == Quiescent && idle >= 0 && idle > 2 * policy.resolveAfter)
      && (f.state == EpisodeState.Expired && e.state != EpisodeState.Expired <==>
            && idle >= 0 && idle > policy.expireAfter
            && (e.state == Resolved || (e.state == Quiescent && idle <= 2 * policy.resolveAfter)))
      && (f.state == e.state <==> f == e)
  {
  }

  // Where an episode stands once time has moved it as far as it can at one moment.
  lemma SettledState(e: Episode, now: int, policy: EpisodePolicy, limits: Limits)
    ensures var idle := now - e.lastSeen;
      var f := Advance(Advance(Advance(e, now, policy, limits), now, policy, limits), now, policy, limits);
      f.state
      == if idle < 0 || e.state == EpisodeState.Expired || (e.state == Open && idle <= policy.resolveAfter) then e.state
         else if idle > policy.expireAfter then EpisodeState.Expired
         else if e.state == Resolved || idle > 2 * policy.resolveAfter then Resolved
         else Quiescent
  {
    var one := Advance(e, now, policy, limits);
    var two := Advance(one, now, policy, limits);
    LeftExactly(e, now, policy, limits);
    LeftExactly(one, now, policy, limits);
    LeftExactly(two, now, policy, limits);
    TimeDescends(e, now, policy, limits);
    TimeDescends(one, now, policy, limits);
    TimeDescends(two, now, policy, limits);
  }

  // ---- The registry ----

  type Store = map<nat, Episode>

  predicate IsOpenIn(e: Episode, scope: Subject) { e.key.scope == scope && e.state == Open }

  // What one pass over the store does to each episode.
  type Step = Episode -> Episode

  function CalmWith(a: CongestionAssessment, now: int, limits: Limits): Step {
    e => if IsOpenIn(e, a.subject) then Quiesce(e, a, now, limits) else e
  }

  function AdvanceWith(now: int, policy: EpisodePolicy, limits: Limits): Step {
    e => Advance(e, now, policy, limits)
  }

  // The store when the step has been taken for some of its episodes.
  ghost function After(store: Store, done: set<nat>, step: Step): Store {
    map id | id in store :: if id in done then step(store[id]) else store[id]
  }

  lemma AfterOne(store: Store, done: set<nat>, step: Step, id: nat)
    requires id in store && id !in done
    ensures After(store, done + {id}, step) == After(store, done, step)[id := step(store[id])]
    ensures After(store, done, step)[id] == store[id]
  {
  }

  // Whatever part of a pass was made, the store stays in order.
  lemma AfterValid(store: Store, done: set<nat>, step: Step, restored: set<nat>, limits: Limits)
    requires forall e: Episode {:trigger step(e)} :: step(e).id == e.id && (Accounted(e, limits) ==> Accounted(step(e), limits))
    requires InOrder(store, restored, limits)
    ensures InOrder(After(store, done, step), restored, limits)
  {
    var after := After(store, done, step);
    assert after.Keys == store.Keys;
    assert |after| == |after.Keys| && |store| == |store.Keys|;
  }

  // A pass over a set in ascending order: what is left and what is done.
  ghost predicate Divided(todo: set<nat>, done: set<nat>, all: set<nat>) {
    && todo !! done && todo + done == all && |all| == |todo| + |done|
    && forall n, m :: n in done && m in todo ==> n < m
  }

  predicate IsLeast(id: nat, ids: set<nat>) { id in ids && forall n :: n in ids ==> id <= n }

  lemma {:induction false} SomeLeast(ids: set<nat>)
    requires ids != {}
    ensures exists id :: IsLeast(id, ids)
    decreases |ids|
  {
    var id :| id in ids;
    if ids == {id} {
      assert IsLeast(id, ids);
    } else {
      SomeLeast(ids - {id});
      var other :| IsLeast(other, ids - {id});
      var least := if id < other then id else other;
      forall n | n in ids ensures least <= n {
        assert n == id || n in ids - {id};
      }
      assert IsLeast(least, ids);
    }
  }

  // The next key of an ordered map.
  method Next(todo: set<nat>) returns (id: nat)
    requires todo != {}
    ensures IsLeast(id, todo)
  {
    SomeLeast(todo);
    id :| id in todo && IsLeast(id, todo);
  }

  lemma DivideOne(todo: set<nat>, done: set<nat>, all: set<nat>, id: nat)
    requires Divided(todo, done, all) && IsLeast(id, todo)
    ensures Divided(todo - {id}, done + {id}, all) && id in all && id !in done
    ensures |todo - {id}| == |todo| - 1 && |done + {id}| == |done| + 1
  {
    assert todo == (todo - {id}) + {id};
    assert forall n :: n in todo - {id} ==> id < n;
  }

  // The store within its bound, each episode under its own identity, and every episode that did not come
  // from a snapshot accounted for.
  ghost predicate InOrder(store: Store, restored: set<nat>, limits: Limits) {
    && |store| <= limits.maxEpisodes
    && (forall id :: id in store ==> store[id].id == id)
    && forall id :: id in store && id !in restored ==> Accounted(store[id], limits)
  }

  lemma CalmKeeps(a: CongestionAssessment, now: int, limits: Limits)
    ensures forall e: Episode {:trigger CalmWith(a, now, limits)(e)} ::
      CalmWith(a, now, limits)(e).id == e.id && (Accounted(e, limits) ==> Accounted(CalmWith(a, now, limits)(e), limits))
  {
    forall e: Episode
      ensures CalmWith(a, now, limits)(e).id == e.id && (Accounted(e, limits) ==> Accounted(CalmWith(a, now, limits)(e), limits))
    {
      if Accounted(e, limits) {
        QuiesceAccounted(e, a, now, limits);
      }
    }
  }

  lemma AdvanceKeeps(now: int, policy: EpisodePolicy, limits: Limits)
    ensures forall e: Episode {:trigger AdvanceWith(now, policy, limits)(e)} ::
      AdvanceWith(now, policy, limits)(e).id == e.id && (Accounted(e, limits) ==> Accounted(AdvanceWith(now, policy, limits)(e), limits))
  {
    forall e: Episode
      ensures AdvanceWith(now, policy, limits)(e).id == e.id && (Accounted(e, limits) ==> Accounted(AdvanceWith(now, policy, limits)(e), limits))
    {
      if Accounted(e, limits) {
        AdvanceAccounted(e, now, policy, limits);
      }
    }
  }

  function KeyFor(a: CongestionAssessment, m: Mechanism): EpisodeKey {
    EpisodeKey(a.subject, a.tenant, m, a.generation, a.policyVersion)
  }

  // The ended episode that was touched longest ago, the first in order of identity if there are several.
  ghost predicate IsVictim(store: Store, id: nat) {
    id in store && IsTerminal(store[id]) && forall other :: other in store && IsTerminal(store[other]) ==> GoesFirst(store, id, other)
  }

  predicate GoesFirst(store: Store, id: nat, other: nat)
    requires id in store && other in store
  {
    store[id].lastUpdated < store[other].lastUpdated || (store[id].lastUpdated == store[other].lastUpdated && id <= other)
  }

  // What an assertion does to the store and the count of refused and evicted episodes.
  ghost predicate Asserted(before: Store, dropped: nat, a: CongestionAssessment, m: Mechanism, now: int, limits: Limits,
                           identify: EpisodeKey -> nat, r: Result<EpisodeUpdate>, after: Store, droppedNow: nat)
  {
    var key := KeyFor(a, m);
    var id := identify(key);
    if id in before then
      && r == Ok(RefreshUpdate(before[id], a)) && droppedNow == dropped
      && after == before[id := Refresh(before[id], a, now, limits)]
    else if |before| < limits.maxEpisodes then
      && r == Ok(EpisodeUpdate(id, DidOpen, Open, 1, a.severity, true)) && droppedNow == dropped
      && after == before[id := Create(id, key, a, now, limits)]
    else if forall other :: other in before ==> !IsTerminal(before[other]) then
      r == Err(LimitExceeded) && after == before && droppedNow == dropped + 1
    else
      && r == Ok(EpisodeUpdate(id, DidOpen, Open, 1, a.severity, true)) && droppedNow == dropped + 1
      && (exists victim: nat :: IsVictim(before, victim) && after == (before - {victim})[id := Create(id, key, a, now, limits)])
  }

  // ---- The passes ----

  method QuiesceOne(e: Episode, a: CongestionAssessment, now: int, limits: Limits) returns (r: Episode)
    requires IsOpenIn(e, a.subject)
    ensures r == CalmWith(a, now, limits)(e)
    ensures r.state == Quiescent && r.currentSeverity == NoSeverity
  {
    var calm := e.(state := Quiescent, currentSeverity := NoSeverity, lastUpdated := now, revision := e.revision + 1,
                   observations := e.observations + 1);
    var t := Transition(calm.revision, Quiesced, now, e.currentSeverity, NoSeverity, LastVerdict(e), a.verdict, a.confidence, NoAssertion, a.citations);
    r := AppendTransition(calm, t, limits.maxEpisodeTransitions);
    r := AppendAssessment(r, DigestOf(a), limits.maxEpisodeAssessments);
  }

  // What a pass that quiesced episodes reports: the first of them.
  ghost predicate Reports(update: EpisodeUpdate, before: Store, done: set<nat>, store: Store, scope: Subject) {
    if update.kind == Unchanged then
      update == NO_UPDATE && forall id :: id in before && id in done ==> !IsOpenIn(before[id], scope)
    else
      && update.id in before && update.id in done && IsOpenIn(before[update.id], scope) && update.id in store
      && (forall id :: id in before && id in done && IsOpenIn(before[id], scope) ==> update.id <= id)
      && update == EpisodeUpdate(update.id, DidQuiesce, Quiescent, store[update.id].revision, NoSeverity, false)
  }

  method CalmEach(before: Store, a: CongestionAssessment, now: int, limits: Limits) returns (store: Store, update: EpisodeUpdate)
    ensures store == After(before, before.Keys, CalmWith(a, now, limits))
    ensures Reports(update, before, before.Keys, store, a.subject)
  {
    store, update := before, NO_UPDATE;
    ghost var done: set<nat> := {};
    var todo := before.Keys;
    while todo != {}
      invariant Divided(todo, done, before.Keys)
      invariant store == After(before, done, CalmWith(a, now, limits))
      invariant Reports(update, before, done, store, a.subject)
      decreases |todo|
    {
      var id := Next(todo);
      DivideOne(todo, done, before.Keys, id);
      store, update := CalmOne(store, id, a, now, limits, update, before, done);
      todo, done := todo - {id}, done + {id};
    }
  }

  method CalmOne(store0: Store, id: nat, a: CongestionAssessment, now: int, limits: Limits, first: EpisodeUpdate,
                 ghost before: Store, ghost done: set<nat>)
    returns (store: Store, update: EpisodeUpdate)
    requires id in before && id !in done && store0 == After(before, done, CalmWith(a, now, limits))
    requires forall n :: n in done ==> n < id
    requires Reports(first, before, done, store0, a.subject)
    ensures store == After(before, done + {id}, CalmWith(a, now, limits))
    ensures Reports(update, before, done + {id}, store, a.subject)
  {
    AfterOne(before, done, CalmWith(a, now, limits), id);
    store, update := store0, first;
    if !IsOpenIn(store[id], a.subject) {
      assert store == store[id := before[id]];
      return;
    }
    var calm := QuiesceOne(store[id], a, now, limits);
    store := store[id := calm];
    if update.kind == Unchanged {
      update := EpisodeUpdate(id, DidQuiesce, calm.state, calm.revision, calm.currentSeverity, false);
    }
  }

  // What one episode's move is reported as.
  function MoveUpdate(e: Episode, moved: Episode): EpisodeUpdate {
    EpisodeUpdate(e.id, UpdateOf(KindOf(moved.state)), moved.state, e.revision + 1, moved.currentSeverity, false)
  }

  // The episodes that time moves.
  ghost function Moving(store: Store, done: set<nat>, now: int, policy: EpisodePolicy): set<nat> {
    set id | id in store && id in done && NextState(store[id], now, policy) != None
  }

  // Each of these moves is reported, once, in order of identity, and nothing else is.
  ghost predicate ReportsMoves(updates: seq<EpisodeUpdate>, before: Store, moving: set<nat>, step: Step) {
    && (forall i, j :: 0 <= i < j < |updates| ==> updates[i].id < updates[j].id)
    && (forall i :: 0 <= i < |updates| ==>
          updates[i].id in moving && updates[i].id in before
          && updates[i] == MoveUpdate(before[updates[i].id], step(before[updates[i].id])))
    && (forall id :: id in moving ==> exists i :: 0 <= i < |updates| && updates[i].id == id)
  }

  lemma MoveReported(updates: seq<EpisodeUpdate>, update: EpisodeUpdate, before: Store, moving: set<nat>, step: Step)
    requires ReportsMoves(updates, before, moving, step) && update.id in before && forall id :: id in moving ==> id < update.id
    requires update == MoveUpdate(before[update.id], step(before[update.id]))
    ensures ReportsMoves(updates + [update], before, moving + {update.id}, step)
  {
    var more := updates + [update];
    forall id | id in moving + {update.id} ensures exists i :: 0 <= i < |more| && more[i].id == id {
      if id in moving {
        var i :| 0 <= i < |updates| && updates[i].id == id;
        assert more[i].id == id;
      } else {
        assert more[|updates|].id == id;
      }
    }
  }

  lemma MovingMore(store: Store, done: set<nat>, now: int, policy: EpisodePolicy, id: nat)
    requires id in store && id !in done
    ensures id !in Moving(store, done, now, policy)
    ensures Moving(store, done + {id}, now, policy)
      == if NextState(store[id], now, policy) == None then Moving(store, done, now, policy) else Moving(store, done, now, policy) + {id}
  {
  }

  lemma NoneMoved(before: Store, now: int, policy: EpisodePolicy, step: Step)
    ensures before == After(before, {}, step) && ReportsMoves([], before, Moving(before, {}, now, policy), step)
  {
    assert Moving(before, {}, now, policy) == {};
  }

  method AdvanceEach(before: Store, now: int, policy: EpisodePolicy, limits: Limits, patience: nat)
    returns (store: Store, r: Result<seq<EpisodeUpdate>>, ghost done: set<nat>)
    requires forall id :: id in before ==> before[id].id == id
    ensures done <= before.Keys && store == After(before, done, AdvanceWith(now, policy, limits))
    ensures r.Ok? <==> |before| <= patience
    ensures r.Ok? ==> done == before.Keys
    ensures r.Ok? ==> ReportsMoves(r.value, before, Moving(before, before.Keys, now, policy), AdvanceWith(now, policy, limits))
    ensures r.Err? ==> r.error == Cancelled && |done| == patience && forall n, m :: n in done && m in before.Keys - done ==> n < m
  {
    var updates: seq<EpisodeUpdate>, polls := [], 0;
    store, done := before, {};
    var todo := before.Keys;
    assert |before| == |before.Keys|;
    NoneMoved(before, now, policy, AdvanceWith(now, policy, limits));
    while todo != {}
      invariant Divided(todo, done, before.Keys) && |done| == polls <= patience
      invariant store == After(before, done, AdvanceWith(now, policy, limits))
      invariant ReportsMoves(updates, before, Moving(before, done, now, policy), AdvanceWith(now, policy, limits))
      decreases |todo|
    {
      if polls >= patience {
        return store, Err(Cancelled), done;
      }
      polls := polls + 1;
      var id := Next(todo);
      DivideOne(todo, done, before.Keys, id);
      store, updates := AdvanceNext(store, id, now, policy, limits, updates, before, done);
      todo, done := todo - {id}, done + {id};
    }
    r := Ok(updates);
  }

  method AdvanceNext(store0: Store, id: nat, now: int, policy: EpisodePolicy, limits: Limits, updates0: seq<EpisodeUpdate>,
                     ghost before: Store, ghost done: set<nat>)
    returns (store: Store, updates: seq<EpisodeUpdate>)
    requires id in before && before[id].id == id && store0 == After(before, done, AdvanceWith(now, policy, limits))
    requires forall n :: n in done ==> n < id
    requires ReportsMoves(updates0, before, Moving(before, done, now, policy), AdvanceWith(now, policy, limits))
    ensures store == After(before, done + {id}, AdvanceWith(now, policy, limits))
    ensures ReportsMoves(updates, before, Moving(before, done + {id}, now, policy), AdvanceWith(now, policy, limits))
  {
    AfterOne(before, done, AdvanceWith(now, policy, limits), id);
    MovingMore(before, done, now, policy, id);
    var moved, update := AdvanceOne(store0[id], now, policy, limits);
    store, updates := store0[id := moved], updates0;
    if update.Some? {
      MoveReported(updates, update.value, before, Moving(before, done, now, policy), AdvanceWith(now, policy, limits));
      updates := updates + [update.value];
    }
  }

  method AdvanceOne(e: Episode, now: int, policy: EpisodePolicy, limits: Limits) returns (r: Episode, update: Option<EpisodeUpdate>)
    ensures r == AdvanceWith(now, policy, limits)(e)
    ensures update == None <==> NextState(e, now, policy) == None
    ensures update.Some? ==> update.value == MoveUpdate(e, r)
  {
    var next := NextState(e, now, policy);
    if next == None {
      return e, None;
    }
    var moved := e.(state := next.value, lastUpdated := now, revision := e.revision + 1);
    if next.value == Resolved || next.value == EpisodeState.Expired {
      moved := moved.(resolvedAt := now, currentSeverity := NoSeverity);
    }
    var t := Transition(moved.revision, KindOf(next.value), now, e.currentSeverity, moved.currentSeverity, LastVerdict(e), LastVerdict(e),
                        e.confidence, WindowElapsed, []);
    r := AppendTransition(moved, t, limits.maxEpisodeTransitions);
    update := Some(EpisodeUpdate(e.id, UpdateOf(KindOf(next.value)), r.state, r.revision, r.currentSeverity, false));
  }

  class EpisodeRegistry {
    const limits: Limits
    const identify: EpisodeKey -> nat

    var episodes: Store
    var dropped: nat
    // Which episodes came from a snapshot; their history is whatever the snapshot said.
    ghost var restored: set<nat>

    ghost predicate Valid()
      reads this
    {
      InOrder(episodes, restored, limits)
    }

    constructor (bounds: Limits, identity: EpisodeKey -> nat)
      ensures Valid() && episodes == map[] && dropped == 0 && limits == bounds && identify == identity
    {
      limits, identify, episodes, dropped, restored := bounds, identity, map[], 0, {};
    }

    // An assessment that asserts nothing quiesces every open episode of its scope.
    method Calm(a: CongestionAssessment, now: int) returns (update: EpisodeUpdate)
      requires Valid()
      modifies `episodes
      ensures Valid() && episodes == After(old(episodes), old(episodes).Keys, CalmWith(a, now, limits))
      ensures forall id :: id in episodes ==> !IsOpenIn(episodes[id], a.subject)
      ensures Reports(update, old(episodes), old(episodes).Keys, episodes, a.subject)
    {
      CalmedAll(episodes, restored, a, now, limits);
      episodes, update := CalmEach(episodes, a, now, limits);
    }

    // Refreshes a known episode with a new assertion.
    method RefreshOne(e: Episode, a: CongestionAssessment, now: int) returns (r: Episode, update: EpisodeUpdate)
      ensures r == Refresh(e, a, now, limits)
      ensures update == RefreshUpdate(e, a)
    {
      var reopened := IsTerminal(e);
      var live := e.(state := Open, currentSeverity := a.severity,
                     peakSeverity := if a.severity.Rank() > e.peakSeverity.Rank() then a.severity else e.peakSeverity,
                     confidence := a.confidence, lastSeen := now, lastUpdated := now, observations := e.observations + 1,
                     citations := a.citations, sources := if a.sources != [] then a.sources else e.sources,
                     revision := e.revision + 1);
      var kind := Updated;
      if reopened {
        kind := Reopened;
      } else if a.severity.Rank() > e.currentSeverity.Rank() {
        kind := Escalated;
      } else if a.severity.Rank() < e.currentSeverity.Rank() {
        kind := Deescalated;
      }
      var t := Transition(live.revision, kind, now, e.currentSeverity, a.severity, LastVerdict(e), a.verdict, a.confidence,
                          if reopened then Reasserted else Refreshed, a.citations);
      r := AppendTransition(live, t, limits.maxEpisodeTransitions);
      r := AppendAssessment(r, DigestOf(a), limits.maxEpisodeAssessments);
      update := EpisodeUpdate(e.id, UpdateOf(kind), Open, live.revision, a.severity, false);
    }

    method CreateOne(id: nat, key: EpisodeKey, a: CongestionAssessment, now: int) returns (r: Episode)
      ensures r == Create(id, key, a, now, limits)
    {
      var e := Episode(id, key, Open, 1, a.severity, a.severity, a.confidence, now, now, now, 0, 1, [], [], a.citations, a.sources, 0, 0, false);
      var t := Transition(1, Opened, now, NoSeverity, a.severity, NoEvidence, a.verdict, a.confidence, CongestionAsserted, a.citations);
      r := AppendTransition(e, t, limits.maxEpisodeTransitions);
      r := AppendAssessment(r, DigestOf(a), limits.maxEpisodeAssessments);
    }

    // The terminal episode that goes first, if there is any terminal one.
    method Victim() returns (victim: Option<nat>)
      ensures victim == None <==> forall id :: id in episodes ==> !IsTerminal(episodes[id])
      ensures victim.Some? ==> IsVictim(episodes, victim.value)
    {
      victim := None;
      var todo := episodes.Keys;
      while todo != {}
        invariant todo <= episodes.Keys && forall n, m :: n in episodes.Keys - todo && m in todo ==> n < m
        invariant victim == None ==> forall id :: id in episodes && id !in todo ==> !IsTerminal(episodes[id])
        invariant victim.Some? ==> victim.value in episodes.Keys - todo && IsTerminal(episodes[victim.value])
        invariant victim.Some? ==>
          (forall id :: id in episodes && id !in todo && IsTerminal(episodes[id]) ==> GoesFirst(episodes, victim.value, id))
        decreases |todo|
      {
        var id := Next(todo);
        forall n, m | n in episodes.Keys - (todo - {id}) && m in todo - {id} ensures n < m {
          assert n == id || n in episodes.Keys - todo;
        }
        todo := todo - {id};
        if IsTerminal(episodes[id]) {
          if victim == None || episodes[id].lastUpdated < episodes[victim.value].lastUpdated {
            victim := Some(id);
          }
        }
      }
    }

    // An assertion refreshes its episode or opens one; for a new one at the budget, only an ended episode
    // gives way.
    method Assert(a: CongestionAssessment, m: Mechanism, now: int) returns (r: Result<EpisodeUpdate>)
      requires Valid()
      modifies this
      ensures Valid()
      ensures Asserted(old(episodes), old(dropped), a, m, now, limits, identify, r, episodes, dropped)
    {
      var key := KeyFor(a, m);
      var id := identify(key);
      if id in episodes {
        var refreshed, update := RefreshOne(episodes[id], a, now);
        RefreshValid(episodes, restored, id, a, now, limits);
        episodes := episodes[id := refreshed];
        return Ok(update);
      }
      if |episodes| >= limits.maxEpisodes {
        var victim := Victim();
        if victim == None {
          dropped := dropped + 1;
          return Err(LimitExceeded);
        }
        EvictValid(episodes, restored, victim.value, limits);
        episodes := episodes - {victim.value};
        dropped := dropped + 1;
      }
      var created := CreateOne(id, key, a, now);
      CreateValid(episodes, restored, id, key, a, now, limits);
      episodes := episodes[id := created];
      restored := restored - {id};
      return Ok(EpisodeUpdate(id, DidOpen, Open, 1, a.severity, true));
    }

    // One classification result.
    method Observe(a: CongestionAssessment, now: int) returns (r: Result<EpisodeUpdate>)
      requires Valid()
      modifies this
      ensures Valid()
      ensures !a.subject.Valid() ==> r == Err(InvalidArgument) && episodes == old(episodes) && dropped == old(dropped)
      ensures a.subject.Valid() && !a.asserted ==>
        && r.Ok? && dropped == old(dropped) && episodes == After(old(episodes), old(episodes).Keys, CalmWith(a, now, limits))
        && Reports(r.value, old(episodes), old(episodes).Keys, episodes, a.subject)
        && (forall id :: id in episodes ==> !IsOpenIn(episodes[id], a.subject))
      ensures a.subject.Valid() && a.asserted && a.mechanisms == {} ==>
        r == Err(PreconditionFailed) && episodes == old(episodes) && dropped == old(dropped)
      ensures a.subject.Valid() && a.asserted && a.mechanisms != {} ==>
        && Primary(a.mechanisms).Some?
        && Asserted(old(episodes), old(dropped), a, Primary(a.mechanisms).value, now, limits, identify, r, episodes, dropped)
        && (r.Ok? || r.error == LimitExceeded)
        && (r.Err? ==> episodes == old(episodes))
        && (r.Ok? ==> r.value.id in episodes && episodes[r.value.id].state == Open)
      ensures a.asserted ==> forall id :: id in old(episodes) && !IsTerminal(old(episodes)[id]) ==> id in episodes
    {
      if !a.subject.Valid() {
        return Err(InvalidArgument);
      }
      if !a.asserted {
        var update := Calm(a, now);
        return Ok(update);
      }
      PrimaryExactly(a.mechanisms);
      if Primary(a.mechanisms) == None {
        return Err(PreconditionFailed);
      }
      RefreshOpens(a, now, limits);
      r := Assert(a, Primary(a.mechanisms).value, now);
    }

    // The passage of time, polled for cancellation before each episode: `patience` is how many polls go by
    // before the token says stop. What was advanced before that stays advanced.
    method AdvanceAll(now: int, policy: EpisodePolicy, patience: nat) returns (r: Result<seq<EpisodeUpdate>>, ghost done: set<nat>)
      requires Valid()
      modifies `episodes
      ensures Valid() && done <= old(episodes).Keys
      ensures episodes == After(old(episodes), done, AdvanceWith(now, policy, limits))
      ensures r.Ok? <==> |old(episodes)| <= patience
      ensures r.Ok? ==> done == old(episodes).Keys
      ensures r.Ok? ==> ReportsMoves(r.value, old(episodes), Moving(old(episodes), old(episodes).Keys, now, policy),
                                     AdvanceWith(now, policy, limits))
      ensures r.Err? ==> r.error == Cancelled && |done| == patience
      ensures forall n, m :: n in done && m in old(episodes).Keys - done ==> n < m
    {
      ghost var before := episodes;
      episodes, r, done := AdvanceEach(episodes, now, policy, limits, patience);
      AdvancedSome(before, done, restored, now, policy, limits);
    }

    // Loads an episode from a snapshot, unless a newer revision is already known.
    method Restore(e: Episode, hasIdentity: bool) returns (refused: Option<ErrorCode>)
      requires Valid()
      modifies `episodes, `restored
      ensures Valid()
      ensures refused ==
        if !hasIdentity then Some(InvalidArgument)
        else if e.id in old(episodes) then
          if old(episodes)[e.id].revision > e.revision then Some(Conflict) else None
        else if |old(episodes)| >= limits.maxEpisodes then Some(LimitExceeded)
        else None
      ensures episodes == if refused == None then old(episodes)[e.id := e] else old(episodes)
    {
      if !hasIdentity {
        return Some(InvalidArgument);
      }
      if e.id in episodes {
        if episodes[e.id].revision > e.revision {
          return Some(Conflict);
        }
      } else if |episodes| >= limits.maxEpisodes {
        return Some(LimitExceeded);
      }
      SizeWith(episodes, e.id, e);
      episodes := episodes[e.id := e];
      restored := restored + {e.id};
      return None;
    }
  }

  lemma CalmedAll(store: Store, restored: set<nat>, a: CongestionAssessment, now: int, limits: Limits)
    requires InOrder(store, restored, limits)
    ensures var calmed := After(store, store.Keys, CalmWith(a, now, limits));
      InOrder(calmed, restored, limits) && forall id :: id in calmed ==> !IsOpenIn(calmed[id], a.subject)
  {
    CalmKeeps(a, now, limits);
    AfterValid(store, store.Keys, CalmWith(a, now, limits), restored, limits);
  }

  lemma AdvancedSome(store: Store, done: set<nat>, restored: set<nat>, now: int, policy: EpisodePolicy, limits: Limits)
    requires InOrder(store, restored, limits)
    ensures InOrder(After(store, done, AdvanceWith(now, policy, limits)), restored, limits)
  {
    AdvanceKeeps(now, policy, limits);
    AfterValid(store, done, AdvanceWith(now, policy, limits), restored, limits);
  }

  function UpdateOf(kind: TransitionKind): UpdateKind {
    match kind
    case Escalated => DidEscalate
    case Deescalated => DidDeescalate
    case Reopened => DidOpen
    case Opened => DidOpen
    case Quiesced => DidQuiesce
    case Resolving => DidResolve
    case Expiring => DidExpire
    case Updated => DidUpdate
  }

  function RefreshUpdate(e: Episode, a: CongestionAssessment): EpisodeUpdate {
    EpisodeUpdate(e.id, UpdateOf(RefreshKind(e, a.severity)), Open, e.revision + 1, a.severity, false)
  }

  lemma SizeWith(store: Store, id: nat, e: Episode)
    ensures |store[id := e]| == if id in store then |store| else |store| + 1
  {
    assert store[id := e].Keys == store.Keys + {id};
    assert |store| == |store.Keys| && |store[id := e]| == |store[id := e].Keys|;
  }

  lemma RefreshOpens(a: CongestionAssessment, now: int, limits: Limits)
    ensures forall e: Episode {:trigger Refresh(e, a, now, limits)} ::
      Refresh(e, a, now, limits).state == Open && Refresh(e, a, now, limits).id == e.id
  {
  }

  lemma RefreshValid(store: Store, restored: set<nat>, id: nat, a: CongestionAssessment, now: int, limits: Limits)
    requires InOrder(store, restored, limits) && id in store
    ensures InOrder(store[id := Refresh(store[id], a, now, limits)], restored, limits)
  {
    SizeWith(store, id, Refresh(store[id], a, now, limits));
    if id !in restored {
      RefreshAccounted(store[id], a, now, limits);
    }
  }

  lemma EvictValid(store: Store, restored: set<nat>, id: nat, limits: Limits)
    requires InOrder(store, restored, limits) && id in store
    ensures InOrder(store - {id}, restored, limits) && |store - {id}| == |store| - 1
  {
    assert store.Keys == (store - {id}).Keys + {id};
    assert |store| == |store.Keys| && |store - {id}| == |(store - {id}).Keys|;
  }

  lemma CreateValid(store: Store, restored: set<nat>, id: nat, key: EpisodeKey, a: CongestionAssessment, now: int, limits: Limits)
    requires InOrder(store, restored, limits) && id !in store && |store| < limits.maxEpisodes
    ensures InOrder(store[id := Create(id, key, a, now, limits)], restored - {id}, limits)
  {
    SizeWith(store, id, Create(id, key, a, now, limits));
    CreateAccounted(id, key, a, now, limits);
  }
}
