// What an observation leaves behind, episode by episode and field by field (src/episode/episode.cpp): which
// episode answers it, which one gives way, and what each of them says afterwards.
module EpisodeAnswers {
  import opened Base
  import opened Model
  import opened Assessing
  import opened Episodes

  // An episode that is over.
  predicate Over(e: Episode) { e.state in {Resolved, EpisodeState.Expired} }

  // The episode that an assertion belongs to.
  function IdFor(a: CongestionAssessment, m: Mechanism, identify: EpisodeKey -> nat): nat {
    identify(EpisodeKey(a.subject, a.tenant, m, a.generation, a.policyVersion))
  }

  // The greater of two severities.
  predicate IsPeak(peak: Severity, before: Severity, now: Severity) {
    if before.Rank() >= now.Rank() then peak == before else peak == now
  }

  // An episode shows what was asserted last.
  predicate Shows(e: Episode, a: CongestionAssessment, now: int) {
    && e.state == Open && e.currentSeverity == a.severity && e.confidence == a.confidence && e.lastSeen == e.lastUpdated == now
    && e.citations == a.citations
  }

  // It goes on from where it was.
  predicate GoesOn(e: Episode, before: Episode, a: CongestionAssessment) {
    && e.id == before.id && e.key == before.key && e.firstSeen == before.firstSeen && e.resolvedAt == before.resolvedAt
    && e.revision == before.revision + 1 && e.observations == before.observations + 1
    && IsPeak(e.peakSeverity, before.peakSeverity, a.severity)
    && e.sources == if a.sources == [] then before.sources else a.sources
  }

  // It begins.
  predicate Begins(e: Episode, a: CongestionAssessment, m: Mechanism, id: nat, now: int) {
    && e.id == id && e.key == EpisodeKey(a.subject, a.tenant, m, a.generation, a.policyVersion) && e.firstSeen == now && e.resolvedAt == 0
    && e.revision == 1 && e.observations == 1 && e.peakSeverity == a.severity && e.sources == a.sources
  }

  // What kind of change an assertion is to an episode that is known.
  predicate IsKind(kind: UpdateKind, before: Episode, a: CongestionAssessment) {
    kind == if Over(before) then DidOpen
            else if a.severity.Rank() > before.currentSeverity.Rank() then DidEscalate
            else if a.severity.Rank() < before.currentSeverity.Rank() then DidDeescalate
            else DidUpdate
  }

  // The one that gives way to a new episode at the bound: over, and of those the one updated longest ago.
  ghost predicate GivesWay(store: Store, id: nat) {
    && id in store && Over(store[id])
    && forall other :: other in store && Over(store[other]) ==>
         store[id].lastUpdated < store[other].lastUpdated || (store[id].lastUpdated == store[other].lastUpdated && id <= other)
  }

  lemma GivesWayExactly(store: Store, id: nat)
    ensures IsVictim(store, id) <==> GivesWay(store, id)
  {
    if IsVictim(store, id) {
      forall other | other in store && Over(store[other])
        ensures store[id].lastUpdated < store[other].lastUpdated || (store[id].lastUpdated == store[other].lastUpdated && id <= other)
      {
        assert GoesFirst(store, id, other);
      }
    }
  }

  lemma RefreshShows(e: Episode, a: CongestionAssessment, now: int, limits: Limits)
    ensures Shows(Refresh(e, a, now, limits), a, now) && GoesOn(Refresh(e, a, now, limits), e, a)
    ensures IsKind(RefreshUpdate(e, a).kind, e, a)
  {
  }

  lemma CreateShows(a: CongestionAssessment, m: Mechanism, id: nat, now: int, limits: Limits)
    ensures Shows(Create(id, KeyFor(a, m), a, now, limits), a, now) && Begins(Create(id, KeyFor(a, m), a, now, limits), a, m, id, now)
  {
  }

  // Nothing but the episode itself, and at most one that gives way, is touched.
  ghost predicate OthersStay(before: Store, after: Store, id: nat, full: bool) {
    forall other :: other != id ==>
      && (other in after <==> other in before && !(full && GivesWay(before, other)))
      && (other in after ==> after[other] == before[other])
  }

  // An assertion is answered by its own episode, known or new. At the bound a new one takes the place of the
  // one that is over and was updated longest ago; it is refused exactly when none is over.
  lemma AnsweredExactly(before: Store, dropped: nat, a: CongestionAssessment, m: Mechanism, now: int, limits: Limits,
                        identify: EpisodeKey -> nat, r: Result<EpisodeUpdate>, after: Store, droppedNow: nat)
    requires Asserted(before, dropped, a, m, now, limits, identify, r, after, droppedNow)
    ensures var id := IdFor(a, m, identify); var full := id !in before && |before| >= limits.maxEpisodes;
      && (r.Err? <==> full && forall other :: other in before ==> !Over(before[other]))
      && (r.Err? ==> r.error == LimitExceeded && after == before)
      && (r.Ok? ==> id in after && Shows(after[id], a, now) && OthersStay(before, after, id, full))
      && (r.Ok? && id in before ==> GoesOn(after[id], before[id], a) && IsKind(r.value.kind, before[id], a) && !r.value.created)
      && (r.Ok? && id !in before ==> Begins(after[id], a, m, id, now) && r.value.kind == DidOpen && r.value.created)
      && droppedNow == dropped + if full then 1 else 0
  {
    var id := IdFor(a, m, identify);
    assert id == identify(KeyFor(a, m));
    if id in before {
      RefreshShows(before[id], a, now, limits);
    } else {
      CreateShows(a, m, id, now, limits);
      if |before| >= limits.maxEpisodes && r.Ok? {
        var victim: nat :| IsVictim(before, victim) && after == (before - {victim})[id := Create(id, KeyFor(a, m), a, now, limits)];
        GivesWayExactly(before, victim);
        OneGivesWay(before, victim);
      }
    }
  }

  lemma OneGivesWay(store: Store, victim: nat)
    requires GivesWay(store, victim)
    ensures forall other :: GivesWay(store, other) ==> other == victim
  {
  }

  // An assessment that asserts nothing ends no episode and touches only the open ones of its scope.
  lemma QuietExactly(before: Store, a: CongestionAssessment, now: int, limits: Limits, id: nat)
    requires id in before
    ensures var after := After(before, before.Keys, CalmWith(a, now, limits));
      && after.Keys == before.Keys
      && (!(before[id].key.scope == a.subject && before[id].state == Open) ==> after[id] == before[id])
      && (before[id].key.scope == a.subject && before[id].state == Open ==>
            && after[id].state == Quiescent && after[id].currentSeverity == NoSeverity && after[id].peakSeverity == before[id].peakSeverity
            && after[id].firstSeen == before[id].firstSeen && after[id].lastSeen == before[id].lastSeen && after[id].lastUpdated == now
            && after[id].revision == before[id].revision + 1 && after[id].observations == before[id].observations + 1)
  {
  }
}
