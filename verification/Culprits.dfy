// What localization reports, in terms of the records and the ranking alone: who is a candidate, what it scores and who
// is named (src/localization/localize.cpp:141-300).
module Culprits {
  import opened Base
  import opened Model
  import opened Observations
  import opened Readings
  import opened Sorting
  import opened CausalGraphs
  import opened VisitOrders
  import opened Searching
  import opened Localizing

  // ---- Which records speak for a subject ----

  // Of the subject, in the window, live, not unsupported and fresh.
  ghost predicate SpeaksFor(e: Evidence, node: Subject, q: Request, p: EvidencePolicy) {
    && e.subject == node && q.windowStart <= e.observedAt <= q.windowEnd && !e.recovered && !e.retired
    && e.support != Support.Unsupported && IsFresh(e, q.evaluatedAt, p.freshness)
  }

  ghost predicate Attests(records: seq<Evidence>, node: Subject, q: Request, p: EvidencePolicy, kinds: set<EvidenceKind>) {
    exists e :: e in records && SpeaksFor(e, node, q, p) && e.kind in kinds
  }

  lemma CountsExactly(e: Evidence, node: Subject, q: Request, p: EvidencePolicy)
    ensures Counts(e, node, q, p) <==> SpeaksFor(e, node, q, p)
  {
    FreshExactly(e, q.evaluatedAt, p.freshness);
  }

  lemma PresentAttests(records: seq<Evidence>, node: Subject, q: Request, p: EvidencePolicy, property: Evidence -> bool, kinds: set<EvidenceKind>)
    requires forall e: Evidence :: property(e) <==> e.kind in kinds
    ensures Present(records, CountsFor(node, q, p), property) <==> Attests(records, node, q, p, kinds)
  {
    if e :| e in records && CountsFor(node, q, p)(e) && property(e) {
      CountsExactly(e, node, q, p);
    }
    if e :| e in records && SpeaksFor(e, node, q, p) && e.kind in kinds {
      CountsExactly(e, node, q, p);
      assert CountsFor(node, q, p)(e) && property(e);
    }
  }

  // ---- Candidates ----

  const DECIDING: set<EvidenceKind> := DEMANDS + BACKLOGS + CONTENTIONS + HARMS

  lemma SignalsAttest(records: seq<Evidence>, node: Subject, q: Request, p: EvidencePolicy)
    ensures var s := SignalsOf(records, node, q, p);
      && (s.demand <==> Attests(records, node, q, p, DEMANDS)) && (s.pressure <==> Attests(records, node, q, p, BACKLOGS))
      && (s.contention <==> Attests(records, node, q, p, CONTENTIONS)) && (s.impairment <==> Attests(records, node, q, p, HARMS))
      && (s.buffer <==> Attests(records, node, q, p, {BufferOccupancy}))
  {
    GatheredExactly(records, CountsFor(node, q, p));
    forall e: Evidence
      ensures (DEMANDING(e) <==> e.kind in DEMANDS) && (PRESSING(e) <==> e.kind in BACKLOGS) && (CONTENDING(e) <==> e.kind in CONTENTIONS)
      ensures (IMPAIRING(e) <==> e.kind in HARMS) && (BUFFERING(e) <==> e.kind in {BufferOccupancy})
    {
      RolesExactly(e.kind);
    }
    PresentAttests(records, node, q, p, DEMANDING, DEMANDS);
    PresentAttests(records, node, q, p, PRESSING, BACKLOGS);
    PresentAttests(records, node, q, p, CONTENDING, CONTENTIONS);
    PresentAttests(records, node, q, p, IMPAIRING, HARMS);
    PresentAttests(records, node, q, p, BUFFERING, {BufferOccupancy});
  }

  lemma LiveAttests(records: seq<Evidence>, node: Subject, q: Request, p: EvidencePolicy)
    ensures SignalsOf(records, node, q, p).live <==> exists e :: e in records && SpeaksFor(e, node, q, p)
  {
    GatheredExactly(records, CountsFor(node, q, p));
    if e :| e in records && CountsFor(node, q, p)(e) && ANY(e) {
      CountsExactly(e, node, q, p);
    }
    if e :| e in records && SpeaksFor(e, node, q, p) {
      CountsExactly(e, node, q, p);
      assert CountsFor(node, q, p)(e) && ANY(e);
    }
  }

  lemma DecisiveExactly(records: seq<Evidence>, node: Subject, q: Request, p: EvidencePolicy)
    ensures Decisive(SignalsOf(records, node, q, p)) <==> Attests(records, node, q, p, DECIDING)
  {
    SignalsAttest(records, node, q, p);
    LiveAttests(records, node, q, p);
  }

  // A subject that the search reached is ranked exactly when a record of its own decides, or none needs to.
  lemma RankedExactly(names: Naming, edges: map<EdgeKey, CausalEdge>, s: Name, max: nat, reached: map<Name, Step>, paths: nat, limited: bool,
                      ranked: seq<Candidate>, records: seq<Evidence>, q: Request, p: EvidencePolicy, l: LocalizationPolicy, n: Name)
    requires IsSearch(names, edges, s, max, reached, paths, limited) && n in reached
    requires IsRanking(ranked, CandidatesOf(reached, records, q, p, l))
    ensures (exists c :: c in ranked && c.subject == reached[n].node)
      <==> (l.requireDecisive ==> Attests(records, reached[n].node, q, p, DECIDING))
  {
    NodesDistinct(names, edges, s, max, reached, paths, limited);
    DecisiveExactly(records, reached[n].node, q, p);
    if Admitted(reached[n], records, q, p, l) {
      assert CandidateOf(reached[n], records, q, p) in ranked;
    }
  }

  // ---- Scores ----

  // Some backlog, and a ratio of one at the bound.
  ghost predicate BacklogAt(records: seq<Evidence>, node: Subject, q: Request, p: EvidencePolicy, bound: real) {
    && Attests(records, node, q, p, BACKLOGS)
    && (bound <= 0.0 || exists e :: e in records && SpeaksFor(e, node, q, p) && e.kind in BACKLOGS && e.unit_ == Ratio && e.scalar >= bound)
  }

  lemma BacklogExactly(records: seq<Evidence>, node: Subject, q: Request, p: EvidencePolicy)
    ensures var s := SignalsOf(records, node, q, p);
      s.pressure && s.ratio >= p.pressureOccupancyRatio <==> BacklogAt(records, node, q, p, p.pressureOccupancyRatio)
  {
    var s := SignalsOf(records, node, q, p);
    SignalsAttest(records, node, q, p);
    GatheredExactly(records, CountsFor(node, q, p));
    if s.ratio >= p.pressureOccupancyRatio > 0.0 {
      var e :| e in records && CountsFor(node, q, p)(e) && FILLING(e) && e.scalar == s.ratio;
      CountsExactly(e, node, q, p);
      RolesExactly(e.kind);
    }
    if e :| e in records && SpeaksFor(e, node, q, p) && e.kind in BACKLOGS && e.unit_ == Ratio && e.scalar >= p.pressureOccupancyRatio {
      CountsExactly(e, node, q, p);
      RolesExactly(e.kind);
      assert CountsFor(node, q, p)(e) && FILLING(e);
    }
  }

  ghost function SpeakersFor(node: Subject, q: Request, p: EvidencePolicy): Evidence -> bool { (e: Evidence) => SpeaksFor(e, node, q, p) }

  lemma SaturatesFor(records: seq<Evidence>, node: Subject, q: Request, p: EvidencePolicy)
    ensures DemandExceeds(SignalsOf(records, node, q, p), p) <==> Saturates(records, SpeakersFor(node, q, p), p.demandCapacityRatio)
  {
    var s, counts := SignalsOf(records, node, q, p), CountsFor(node, q, p);
    GatheredExactly(records, counts);
    forall e: Evidence ensures (OFFERING(e) <==> e.kind == OfferedDemand) && (CAPACITY(e) <==> e.kind == CapacityAdvertisement) {
      RolesExactly(e.kind);
    }
    PeaksSaturate(s.offered, s.capacity, records, counts, OFFERING, CAPACITY, p.demandCapacityRatio);
    SameGreatest(records, node, q, p);
  }

  lemma SameGreatest(records: seq<Evidence>, node: Subject, q: Request, p: EvidencePolicy)
    ensures Saturates(records, CountsFor(node, q, p), p.demandCapacityRatio) <==> Saturates(records, SpeakersFor(node, q, p), p.demandCapacityRatio)
  {
    forall e: Evidence ensures CountsFor(node, q, p)(e) <==> SpeakersFor(node, q, p)(e) {
      CountsExactly(e, node, q, p);
    }
    forall e, kind ensures IsGreatest(e, records, CountsFor(node, q, p), kind) <==> IsGreatest(e, records, SpeakersFor(node, q, p), kind) {
    }
  }

  // What a candidate's records are worth, at most a hundred.
  ghost function Worth(records: seq<Evidence>, step: Step, q: Request, p: EvidencePolicy): nat {
    Points(exists e :: e in records && SpeaksFor(e, step.node, q, p), 10)
    + Points(Attests(records, step.node, q, p, DEMANDS), 10)
    + Points(Saturates(records, SpeakersFor(step.node, q, p), p.demandCapacityRatio), 25)
    + Points(Attests(records, step.node, q, p, BACKLOGS), 20)
    + Points(BacklogAt(records, step.node, q, p, p.pressureOccupancyRatio), 15)
    + Points(Attests(records, step.node, q, p, {BufferOccupancy}), 10)
    + Points(Attests(records, step.node, q, p, CONTENTIONS), 10)
    + Points(Attests(records, step.node, q, p, HARMS), 5)
    + Points(step.via.observational, 10)
    + if 1 <= step.depth <= 4 then 5 - step.depth else 0
  }

  lemma ScoreExactly(records: seq<Evidence>, step: Step, q: Request, p: EvidencePolicy)
    ensures CandidateOf(step, records, q, p).score == Min(100, Worth(records, step, q, p))
  {
    LiveAttests(records, step.node, q, p);
    SignalsAttest(records, step.node, q, p);
    SaturatesFor(records, step.node, q, p);
    BacklogExactly(records, step.node, q, p);
  }

  // ---- Who is reported ----

  // The leaders are too close to tell apart.
  predicate Close(ranked: seq<Candidate>, l: LocalizationPolicy, limits: Limits) {
    && 2 <= Min(l.maxCandidates, limits.maxResultCandidates) && 2 <= |ranked|
    && ranked[1].score >= l.minimumScore && ranked[0].score - ranked[1].score < l.ambiguityMargin
  }

  // The leader counts, if anyone may be reported at all.
  predicate Leads(ranked: seq<Candidate>, l: LocalizationPolicy, limits: Limits) {
    1 <= Min(l.maxCandidates, limits.maxResultCandidates) && 1 <= |ranked| && ranked[0].score >= l.minimumScore
  }

  lemma ShortlistSizes(ranked: seq<Candidate>, l: LocalizationPolicy, limits: Limits)
    requires Ascends(ranked, CandidateLeq)
    ensures Shortlist(ranked, l, limits) != [] <==> Leads(ranked, l, limits)
    ensures TooClose(Shortlist(ranked, l, limits), l.ambiguityMargin) <==> Close(ranked, l, limits)
  {
    ShortlistMeaning(ranked, l, limits);
    RankedDescends(ranked);
  }

  // The outcome, and for every rank whether it is reported.
  lemma ReportedExactly(r: Localization, reached: map<Name, Step>, ranked: seq<Candidate>, records: seq<Evidence>, q: Request,
                        p: EvidencePolicy, l: LocalizationPolicy, limits: Limits, i: nat)
    requires IsLocalization(r, reached, ranked, records, q, p, l, limits) && i < |ranked|
    ensures r.outcome == if !Leads(ranked, l, limits) then Unlocalized else if Close(ranked, l, limits) then Ambiguous else Localized
    ensures i < |r.candidates| <==>
      && i < Min(l.maxCandidates, limits.maxResultCandidates) && ranked[i].score >= l.minimumScore
      && (Close(ranked, l, limits) ==> ranked[0].score - ranked[i].score < l.ambiguityMargin)
    ensures i < |r.candidates| ==>
      r.candidates[i].subject == ranked[i].subject && r.candidates[i].score == ranked[i].score && r.candidates[i].depth == ranked[i].depth
  {
    ShortlistSizes(ranked, l, limits);
    ShortlistMeaning(ranked, l, limits);
    var reported := Decide(ranked, l, limits).1;
    if Close(ranked, l, limits) {
      NearPrefix(Shortlist(ranked, l, limits), ranked[0].score, l.ambiguityMargin);
    }
    assert reported <= ranked;
  }

  // ---- How sure a report is ----

  // Two sources speak for the subject.
  ghost predicate Corroborated(records: seq<Evidence>, node: Subject, q: Request, p: EvidencePolicy) {
    exists a, b :: a in records && b in records && SpeaksFor(a, node, q, p) && SpeaksFor(b, node, q, p) && a.source != b.source
  }

  lemma TwoNames(names: set<Name>)
    ensures |names| >= 2 <==> exists a, b :: a in names && b in names && a != b
  {
    if |names| >= 2 {
      var a :| a in names;
      assert names == {a} + (names - {a});
      assert names - {a} != {};
      var b :| b in names - {a};
      assert b in names && a != b;
    }
    if a, b :| a in names && b in names && a != b {
      SubsetSize({a, b}, names);
    }
  }

  lemma SourcesSpeak(records: seq<Evidence>, node: Subject, q: Request, p: EvidencePolicy)
    ensures |SignalsOf(records, node, q, p).sources| >= 2 <==> Corroborated(records, node, q, p)
  {
    var names := SignalsOf(records, node, q, p).sources;
    GatheredExactly(records, CountsFor(node, q, p));
    TwoNames(names);
    forall e: Evidence ensures CountsFor(node, q, p)(e) <==> SpeaksFor(e, node, q, p) {
      CountsExactly(e, node, q, p);
    }
    if x, y :| x in names && y in names && x != y {
      var a :| a in records && CountsFor(node, q, p)(a) && a.source == x;
      var b :| b in records && CountsFor(node, q, p)(b) && b.source == y;
      assert SpeaksFor(a, node, q, p) && SpeaksFor(b, node, q, p);
    }
    if a, b :| a in records && b in records && SpeaksFor(a, node, q, p) && SpeaksFor(b, node, q, p) && a.source != b.source {
      assert a.source in names && b.source in names;
    }
  }

  // A report is worth its score when two sources speak for it, and seven tenths of it when only one does.
  lemma ConfidenceExactly(r: Localization, reached: map<Name, Step>, ranked: seq<Candidate>, records: seq<Evidence>, q: Request,
                          p: EvidencePolicy, l: LocalizationPolicy, limits: Limits, i: nat)
    requires IsLocalization(r, reached, ranked, records, q, p, l, limits) && i < |r.candidates|
    ensures r.candidates[i].confidence
      == if Corroborated(records, r.candidates[i].subject, q, p) then r.candidates[i].score else r.candidates[i].score * 7 / 10
  {
    var reported := Decide(ranked, l, limits).1;
    DecideWithin(ranked, l, limits);
    assert reported[i] in ranked;
    var n :| n in reached && Admitted(reached[n], records, q, p, l) && CandidateOf(reached[n], records, q, p) == reported[i];
    SourcesSpeak(records, reached[n].node, q, p);
  }

  // The ranking goes by score, highest first, and among equals by identity: kind, then name.
  lemma RankedInOrder(ranked: seq<Candidate>, i: nat, j: nat)
    requires Ascends(ranked, CandidateLeq) && i < j < |ranked|
    ensures ranked[i].score >= ranked[j].score
    ensures ranked[i].score == ranked[j].score && ranked[i].subject != ranked[j].subject ==>
      var a, b := ranked[i].subject, ranked[j].subject;
      if a.kind != b.kind then KindCode(a.kind) < KindCode(b.kind) else BytesLeq(a.name, b.name)
  {
    assert CandidateLeq(ranked[i], ranked[j]);
  }
}
