// Localization of an asserted symptom (src/localization/localize.cpp): the subjects the search reached are
// scored by their own fresh evidence, ranked, and reported apart or as ambiguous.
module Localizing {
  import opened Base
  import opened Model
  import opened Observations
  import opened Sorting
  import opened CausalGraphs
  import opened VisitOrders
  import opened Searching

  datatype EvidencePolicy = EvidencePolicy(freshness: FreshnessPolicy, demandCapacityRatio: real, pressureOccupancyRatio: real)

  datatype LocalizationPolicy = LocalizationPolicy(maxDepth: nat, maxCandidates: nat, ambiguityMargin: nat,
                                                   minimumScore: nat, requireDecisive: bool)

  datatype Request = Request(symptom: Subject, windowStart: int, windowEnd: int, evaluatedAt: int)

  // ---- What a candidate's records say ----

  // The records that speak for a subject: in the window, live, supported and fresh.
  predicate Counts(r: Evidence, node: Subject, q: Request, p: EvidencePolicy) {
    && r.subject == node
    && q.windowStart <= r.observedAt <= q.windowEnd
    && !r.recovered && !r.retired
    && r.support != Support.Unsupported
    && AssessFreshness(r, q.evaluatedAt, p.freshness) == Fresh
  }

  datatype Signals = Signals(live: bool, sources: set<Name>, demand: bool, offered: real, capacity: real, pressure: bool,
                             ratio: real, buffer: bool, contention: bool, impairment: bool)

  const SILENCE: Signals := Signals(false, {}, false, 0.0, 0.0, false, 0.0, false, false, false)

  function Absorb(s: Signals, r: Evidence): Signals { AbsorbAs(s, RoleOf(r.kind), r) }

  function AbsorbAs(s: Signals, role: EvidenceRole, r: Evidence): Signals {
    var t := s.(live := true, sources := s.sources + {r.source});
    match role
    case Demand => t.(demand := true, offered := if r.kind == OfferedDemand then Larger(t.offered, r.scalar) else t.offered)
    case Capacity => t.(capacity := Larger(t.capacity, r.scalar))
    case Pressure =>
      t.(pressure := true, buffer := t.buffer || r.kind == BufferOccupancy,
         ratio := if r.unit_ == Ratio then Larger(t.ratio, r.scalar) else t.ratio)
    case Contention => t.(contention := true)
    case Impairment => t.(impairment := true)
    case _ => t
  }

  function Gathered(records: seq<Evidence>, counts: Evidence -> bool): Signals {
    if records == [] then SILENCE
    else
      var last := records[|records| - 1];
      var before := Gathered(records[..|records| - 1], counts);
      if counts(last) then Absorb(before, last) else before
  }

  function CountsFor(node: Subject, q: Request, p: EvidencePolicy): Evidence -> bool { r => Counts(r, node, q, p) }

  function SignalsOf(records: seq<Evidence>, node: Subject, q: Request, p: EvidencePolicy): Signals {
    Gathered(records, CountsFor(node, q, p))
  }

  const ANY: Evidence -> bool := (r: Evidence) => true
  const DEMANDING: Evidence -> bool := (r: Evidence) => RoleOf(r.kind) == Demand
  const OFFERING: Evidence -> bool := (r: Evidence) => RoleOf(r.kind) == Demand && r.kind == OfferedDemand
  const CAPACITY: Evidence -> bool := (r: Evidence) => RoleOf(r.kind) == Capacity
  const PRESSING: Evidence -> bool := (r: Evidence) => RoleOf(r.kind) == Pressure
  const FILLING: Evidence -> bool := (r: Evidence) => RoleOf(r.kind) == Pressure && r.unit_ == Ratio
  const BUFFERING: Evidence -> bool := (r: Evidence) => RoleOf(r.kind) == Pressure && r.kind == BufferOccupancy
  const CONTENDING: Evidence -> bool := (r: Evidence) => RoleOf(r.kind) == Contention
  const IMPAIRING: Evidence -> bool := (r: Evidence) => RoleOf(r.kind) == Impairment

  // What the signals mean, record by record.
  ghost predicate IsSignals(s: Signals, records: seq<Evidence>, counts: Evidence -> bool) {
    IsFlags(s, records, counts) && IsPeaks(s, records, counts)
  }

  ghost predicate IsFlags(s: Signals, records: seq<Evidence>, counts: Evidence -> bool) {
    && (s.live <==> Present(records, counts, ANY))
    && s.sources == (set r | r in records && counts(r) :: r.source)
    && (s.demand <==> Present(records, counts, DEMANDING))
    && (s.pressure <==> Present(records, counts, PRESSING))
    && (s.buffer <==> Present(records, counts, BUFFERING))
    && (s.contention <==> Present(records, counts, CONTENDING))
    && (s.impairment <==> Present(records, counts, IMPAIRING))
  }

  ghost predicate IsPeaks(s: Signals, records: seq<Evidence>, counts: Evidence -> bool) {
    && IsPeak(s.offered, records, counts, OFFERING)
    && IsPeak(s.capacity, records, counts, CAPACITY)
    && IsPeak(s.ratio, records, counts, FILLING)
  }

  lemma {:induction false} GatheredExactly(records: seq<Evidence>, counts: Evidence -> bool)
    ensures IsSignals(Gathered(records, counts), records, counts)
  {
    if records != [] {
      var before, last := records[..|records| - 1], records[|records| - 1];
      assert records == before + [last];
      GatheredExactly(before, counts);
      SignalsNext(Gathered(before, counts), before, last, counts);
    }
  }

  // What one record adds, signal by signal.
  lemma AbsorbFlags(s: Signals, role: EvidenceRole, r: Evidence)
    ensures var t := AbsorbAs(s, role, r);
      t.live && t.sources == s.sources + {r.source}
      && t.demand == (s.demand || role == Demand) && t.pressure == (s.pressure || role == Pressure)
      && t.buffer == (s.buffer || (role == Pressure && r.kind == BufferOccupancy))
      && t.contention == (s.contention || role == Contention) && t.impairment == (s.impairment || role == Impairment)
  {
  }

  lemma AbsorbPeaks(s: Signals, role: EvidenceRole, r: Evidence)
    ensures var t := AbsorbAs(s, role, r);
      t.offered == (if role == Demand && r.kind == OfferedDemand then Larger(s.offered, r.scalar) else s.offered)
      && t.capacity == (if role == Capacity then Larger(s.capacity, r.scalar) else s.capacity)
      && t.ratio == if role == Pressure && r.unit_ == Ratio then Larger(s.ratio, r.scalar) else s.ratio
  {
  }

  lemma FlagNext(was: bool, flag: bool, records: seq<Evidence>, last: Evidence, counts: Evidence -> bool, property: Evidence -> bool)
    requires was <==> Present(records, counts, property)
    requires flag == (was || (counts(last) && property(last)))
    ensures flag <==> Present(records + [last], counts, property)
  {
    PresentNext(records, last, counts, property);
  }

  lemma FlagsNext(s: Signals, records: seq<Evidence>, last: Evidence, counts: Evidence -> bool)
    requires IsFlags(s, records, counts)
    ensures IsFlags(if counts(last) then Absorb(s, last) else s, records + [last], counts)
  {
    var t := if counts(last) then Absorb(s, last) else s;
    AbsorbFlags(s, RoleOf(last.kind), last);
    FlagNext(s.live, t.live, records, last, counts, ANY);
    SourcesNext(records, last, counts);
    FlagNext(s.demand, t.demand, records, last, counts, DEMANDING);
    FlagNext(s.pressure, t.pressure, records, last, counts, PRESSING);
    FlagNext(s.buffer, t.buffer, records, last, counts, BUFFERING);
    FlagNext(s.contention, t.contention, records, last, counts, CONTENDING);
    FlagNext(s.impairment, t.impairment, records, last, counts, IMPAIRING);
  }

  lemma PeaksNext(s: Signals, records: seq<Evidence>, last: Evidence, counts: Evidence -> bool)
    requires IsPeaks(s, records, counts)
    ensures IsPeaks(if counts(last) then Absorb(s, last) else s, records + [last], counts)
  {
    AbsorbPeaks(s, RoleOf(last.kind), last);
    PeakNext(s.offered, records, last, counts, OFFERING);
    PeakNext(s.capacity, records, last, counts, CAPACITY);
    PeakNext(s.ratio, records, last, counts, FILLING);
  }

  lemma SignalsNext(s: Signals, records: seq<Evidence>, last: Evidence, counts: Evidence -> bool)
    requires IsSignals(s, records, counts)
    ensures IsSignals(if counts(last) then Absorb(s, last) else s, records + [last], counts)
  {
    FlagsNext(s, records, last, counts);
    PeaksNext(s, records, last, counts);
  }

  lemma FlagsForgetOrder(s: Signals, t: Signals, a: seq<Evidence>, b: seq<Evidence>, counts: Evidence -> bool)
    requires forall r :: r in a <==> r in b
    requires IsFlags(s, a, counts) && IsFlags(t, b, counts)
    ensures s.live == t.live && s.sources == t.sources && s.demand == t.demand && s.pressure == t.pressure
    ensures s.buffer == t.buffer && s.contention == t.contention && s.impairment == t.impairment
  {
    forall property: Evidence -> bool ensures Present(a, counts, property) <==> Present(b, counts, property) {
    }
  }

  // The signals depend only on which records there are: not on their order, nor on repetition.
  lemma SignalsForgetOrder(a: seq<Evidence>, b: seq<Evidence>, counts: Evidence -> bool)
    requires forall r :: r in a <==> r in b
    ensures Gathered(a, counts) == Gathered(b, counts)
  {
    GatheredExactly(a, counts);
    GatheredExactly(b, counts);
    var s, t := Gathered(a, counts), Gathered(b, counts);
    FlagsForgetOrder(s, t, a, b, counts);
    PeakUnique(s.offered, t.offered, a, b, counts, OFFERING);
    PeakUnique(s.capacity, t.capacity, a, b, counts, CAPACITY);
    PeakUnique(s.ratio, t.ratio, a, b, counts, FILLING);
  }

  method Gather(records: seq<Evidence>, node: Subject, q: Request, p: EvidencePolicy) returns (s: Signals)
    ensures s == SignalsOf(records, node, q, p)
  {
    s := SILENCE;
    for i := 0 to |records|
      invariant s == Gathered(records[..i], CountsFor(node, q, p))
    {
      assert records[..i + 1][..i] == records[..i];
      var r := records[i];
      if Counts(r, node, q, p) {
        s := Absorb(s, r);
      }
    }
    assert records[..|records|] == records;
  }

  // ---- Scores ----

  datatype Candidate = Candidate(score: nat, subject: Subject, depth: nat, sources: nat)

  function Points(condition: bool, points: nat): nat { if condition then points else 0 }

  predicate DemandExceeds(s: Signals, p: EvidencePolicy) {
    s.capacity > 0.0 && s.offered > 0.0 && s.offered / s.capacity >= p.demandCapacityRatio
  }

  predicate Decisive(s: Signals) { s.live && (s.demand || s.pressure || s.contention || s.impairment) }

  function Proximity(depth: nat): nat { if depth == 0 then 0 else if 5 > depth then 5 - depth else 0 }

  const MAX_SCORE: nat := 100

  function ScoreOf(s: Signals, observational: bool, depth: nat, p: EvidencePolicy): (score: nat)
    ensures score <= MAX_SCORE
  {
    var total := Points(s.live, 10) + Points(s.demand, 10) + Points(DemandExceeds(s, p), 25) + Points(s.pressure, 20)
      + Points(s.pressure && s.ratio >= p.pressureOccupancyRatio, 15) + Points(s.buffer, 10) + Points(s.contention, 10)
      + Points(s.impairment, 5) + Points(observational, 10) + Proximity(depth);
    if total > MAX_SCORE then MAX_SCORE else total
  }

  function CandidateOf(step: Step, records: seq<Evidence>, q: Request, p: EvidencePolicy): Candidate {
    var s := SignalsOf(records, step.node, q, p);
    Candidate(ScoreOf(s, step.via.observational, step.depth, p), step.node, step.depth, |s.sources|)
  }

  predicate Admitted(step: Step, records: seq<Evidence>, q: Request, p: EvidencePolicy, l: LocalizationPolicy) {
    l.requireDecisive ==> Decisive(SignalsOf(records, step.node, q, p))
  }

  // The candidates of a search, whatever order its results are read in.
  ghost function CandidatesOf(reached: map<Name, Step>, records: seq<Evidence>, q: Request, p: EvidencePolicy, l: LocalizationPolicy): set<Candidate> {
    set n | n in reached && Admitted(reached[n], records, q, p, l) :: CandidateOf(reached[n], records, q, p)
  }

  lemma CandidatesForgetOrder(reached: map<Name, Step>, a: seq<Evidence>, b: seq<Evidence>, q: Request, p: EvidencePolicy, l: LocalizationPolicy)
    requires forall r :: r in a <==> r in b
    ensures CandidatesOf(reached, a, q, p, l) == CandidatesOf(reached, b, q, p, l)
  {
    forall n | n in reached
      ensures SignalsOf(a, reached[n].node, q, p) == SignalsOf(b, reached[n].node, q, p)
    {
      SignalsForgetOrder(a, b, CountsFor(reached[n].node, q, p));
    }
  }

  // ---- Ranking ----

  // Subjects of one kind share their rendered prefix, so their names decide.
  predicate SubjectLeq(a: Subject, b: Subject) {
    if a.kind != b.kind then KindCode(a.kind) < KindCode(b.kind) else BytesLeq(a.name, b.name)
  }

  // Score first, highest first, then identity. Depth and sources never decide between distinct subjects;
  // they make the order total on all candidates.
  predicate CandidateLeq(a: Candidate, b: Candidate) {
    if a.score != b.score then a.score > b.score
    else if a.subject != b.subject then SubjectLeq(a.subject, b.subject)
    else if a.depth != b.depth then a.depth < b.depth
    else a.sources <= b.sources
  }

  lemma KindCodeInjective(a: SubjectKind, b: SubjectKind)
    ensures KindCode(a) == KindCode(b) ==> a == b
  {
  }

  lemma SubjectTotal(a: Subject, b: Subject)
    ensures SubjectLeq(a, b) || SubjectLeq(b, a)
    ensures SubjectLeq(a, b) && SubjectLeq(b, a) ==> a == b
  {
    KindCodeInjective(a.kind, b.kind);
    BytesTotal(a.name, b.name);
  }

  lemma SubjectTransitive(a: Subject, b: Subject, c: Subject)
    requires SubjectLeq(a, b) && SubjectLeq(b, c)
    ensures SubjectLeq(a, c)
  {
    if a.kind == b.kind == c.kind {
      BytesTransitive(a.name, b.name, c.name);
    }
  }

  lemma CandidateTransitive(a: Candidate, b: Candidate, c: Candidate)
    requires CandidateLeq(a, b) && CandidateLeq(b, c)
    ensures CandidateLeq(a, c)
  {
    if a.score == b.score == c.score {
      SubjectTotal(a.subject, b.subject);
      SubjectTotal(b.subject, c.subject);
      if a.subject != b.subject && b.subject != c.subject {
        SubjectTransitive(a.subject, b.subject, c.subject);
      }
    }
  }

  lemma CandidateOrder()
    ensures TotalOrder(CandidateLeq)
  {
    forall a, b ensures (CandidateLeq(a, b) || CandidateLeq(b, a)) && (CandidateLeq(a, b) && CandidateLeq(b, a) ==> a == b) {
      SubjectTotal(a.subject, b.subject);
    }
    forall a, b, c | CandidateLeq(a, b) && CandidateLeq(b, c) ensures CandidateLeq(a, c) {
      CandidateTransitive(a, b, c);
    }
  }

  ghost predicate IsRanking(ranked: seq<Candidate>, all: set<Candidate>) {
    Ascends(ranked, CandidateLeq) && forall c :: c in ranked <==> c in all
  }

  lemma SilentScore(records: seq<Evidence>, step: Step, q: Request, p: EvidencePolicy)
    requires step.depth >= 1 && !SignalsOf(records, step.node, q, p).live
    ensures CandidateOf(step, records, q, p).score <= 14
  {
    var s, counts := SignalsOf(records, step.node, q, p), CountsFor(step.node, q, p);
    GatheredExactly(records, counts);
    assert !s.demand && !s.pressure && !s.buffer && !s.contention && !s.impairment;
    assert s.offered == 0.0 || Present(records, counts, OFFERING);
  }

  // A subject that only the graph speaks for ranks behind every one with fresh evidence of a deciding kind.
  lemma EvidenceOutranksStructure(records: seq<Evidence>, silent: Step, decisive: Step, q: Request, p: EvidencePolicy)
    requires silent.depth >= 1 && !SignalsOf(records, silent.node, q, p).live
    requires Decisive(SignalsOf(records, decisive.node, q, p))
    ensures CandidateLeq(CandidateOf(decisive, records, q, p), CandidateOf(silent, records, q, p))
    ensures !CandidateLeq(CandidateOf(silent, records, q, p), CandidateOf(decisive, records, q, p))
  {
    SilentScore(records, silent, q, p);
    assert CandidateOf(decisive, records, q, p).score >= 15;
  }

  // There is one ranking of a set of candidates.
  lemma {:induction false} RankingUnique(a: seq<Candidate>, b: seq<Candidate>, all: set<Candidate>)
    requires IsRanking(a, all) && IsRanking(b, all)
    ensures a == b
  {
    CandidateOrder();
    forall c ensures multiset(a)[c] == multiset(b)[c] {
      Once(a, c);
      Once(b, c);
      assert c in a <==> c in multiset(a);
      assert c in b <==> c in multiset(b);
    }
    SortedUnique(a, b, CandidateLeq);
  }

  // ---- The decision ----

  datatype Outcome = Localized | Ambiguous | Unlocalized | NotAttempted

  datatype Report = Report(subject: Subject, score: nat, confidence: nat, depth: nat)

  datatype Localization = Localization(outcome: Outcome, candidates: seq<Report>, paths: nat, limited: bool)

  // Evidence from a single source counts for less.
  function ReportOf(c: Candidate): Report {
    Report(c.subject, c.score, if c.sources >= 2 then c.score else c.score * 7 / 10, c.depth)
  }

  // The candidates that reach the minimum score, best first.
  function Qualifying(ranked: seq<Candidate>, minimum: nat): seq<Candidate> {
    if ranked == [] then []
    else if ranked[|ranked| - 1].score >= minimum then Qualifying(ranked[..|ranked| - 1], minimum) + [ranked[|ranked| - 1]]
    else Qualifying(ranked[..|ranked| - 1], minimum)
  }

  // Those within the margin of the best.
  function Near(qualifying: seq<Candidate>, best: nat, margin: nat): seq<Candidate> {
    if qualifying == [] then []
    else
      var last := qualifying[|qualifying| - 1];
      var before := Near(qualifying[..|qualifying| - 1], best, margin);
      if best - last.score < margin then before + [last] else before
  }

  function Shortlist(ranked: seq<Candidate>, l: LocalizationPolicy, limits: Limits): seq<Candidate> {
    Qualifying(ranked[..Cap(ranked, l, limits)], l.minimumScore)
  }

  predicate TooClose(qualifying: seq<Candidate>, margin: nat) {
    |qualifying| >= 2 && qualifying[0].score - qualifying[1].score < margin
  }

  function Decide(ranked: seq<Candidate>, l: LocalizationPolicy, limits: Limits): (Outcome, seq<Candidate>) {
    var qualifying := Shortlist(ranked, l, limits);
    if qualifying == [] then (Unlocalized, [])
    else if TooClose(qualifying, l.ambiguityMargin) then (Ambiguous, Near(qualifying, qualifying[0].score, l.ambiguityMargin))
    else (Localized, qualifying)
  }

  ghost predicate Descends(s: seq<Candidate>) { forall i, j :: 0 <= i < j < |s| ==> s[i].score >= s[j].score }

  // On descending scores the qualifying candidates are the leading ones.
  lemma {:induction false} QualifyingPrefix(ranked: seq<Candidate>, minimum: nat)
    requires Descends(ranked)
    ensures Qualifying(ranked, minimum) <= ranked
    ensures forall i :: 0 <= i < |ranked| ==> (i < |Qualifying(ranked, minimum)| <==> ranked[i].score >= minimum)
  {
    if ranked != [] {
      QualifyingPrefix(ranked[..|ranked| - 1], minimum);
    }
  }

  lemma {:induction false} NearPrefix(qualifying: seq<Candidate>, best: nat, margin: nat)
    requires Descends(qualifying)
    ensures Near(qualifying, best, margin) <= qualifying
    ensures forall i :: 0 <= i < |qualifying| ==> (i < |Near(qualifying, best, margin)| <==> best - qualifying[i].score < margin)
  {
    if qualifying != [] {
      NearPrefix(qualifying[..|qualifying| - 1], best, margin);
    }
  }

  lemma RankedDescends(ranked: seq<Candidate>)
    requires Ascends(ranked, CandidateLeq)
    ensures Descends(ranked)
  {
  }

  function Cap(ranked: seq<Candidate>, l: LocalizationPolicy, limits: Limits): nat {
    Min(|ranked|, Min(l.maxCandidates, limits.maxResultCandidates))
  }

  lemma ShortlistMeaning(ranked: seq<Candidate>, l: LocalizationPolicy, limits: Limits)
    requires Ascends(ranked, CandidateLeq)
    ensures var q := Shortlist(ranked, l, limits);
      q <= ranked && |q| <= Cap(ranked, l, limits) && Descends(q)
      && forall i :: 0 <= i < Cap(ranked, l, limits) ==> (i < |q| <==> ranked[i].score >= l.minimumScore)
  {
    RankedDescends(ranked);
    QualifyingPrefix(ranked[..Cap(ranked, l, limits)], l.minimumScore);
  }

  // Nothing is reported exactly when no candidate within the cap reaches the minimum score.
  lemma UnlocalizedExactly(ranked: seq<Candidate>, l: LocalizationPolicy, limits: Limits)
    requires Ascends(ranked, CandidateLeq)
    ensures Decide(ranked, l, limits).0 == Unlocalized
      <==> forall i :: 0 <= i < Cap(ranked, l, limits) ==> ranked[i].score < l.minimumScore
  {
    ShortlistMeaning(ranked, l, limits);
    if Shortlist(ranked, l, limits) != [] {
      assert ranked[0].score >= l.minimumScore;
    }
  }

  // When localized, the first candidate leads every other by the margin, and every candidate within the cap
  // that reaches the minimum score is reported, best first.
  lemma LocalizedMeaning(ranked: seq<Candidate>, l: LocalizationPolicy, limits: Limits)
    requires Ascends(ranked, CandidateLeq) && Decide(ranked, l, limits).0 == Localized
    ensures var reported := Decide(ranked, l, limits).1;
      && reported != [] && reported <= ranked
      && (forall i :: 1 <= i < |reported| ==> reported[0].score - reported[i].score >= l.ambiguityMargin)
      && (forall i :: 0 <= i < Cap(ranked, l, limits) ==> (i < |reported| <==> ranked[i].score >= l.minimumScore))
  {
    ShortlistMeaning(ranked, l, limits);
  }

  // When ambiguous, at least two candidates are reported: exactly the qualifying ones within the margin of
  // the best.
  lemma AmbiguousMeaning(ranked: seq<Candidate>, l: LocalizationPolicy, limits: Limits)
    requires Ascends(ranked, CandidateLeq) && Decide(ranked, l, limits).0 == Ambiguous
    ensures var reported := Decide(ranked, l, limits).1;
      && |reported| >= 2 && reported <= ranked
      && (forall i :: 0 <= i < Cap(ranked, l, limits) ==>
            (i < |reported| <==> ranked[i].score >= l.minimumScore && ranked[0].score - ranked[i].score < l.ambiguityMargin))
  {
    ShortlistMeaning(ranked, l, limits);
    var q := Shortlist(ranked, l, limits);
    NearPrefix(q, q[0].score, l.ambiguityMargin);
  }

  // ---- localize ----

  // The steps of a search in the order a map yields them: each name once, in some order.
  method Entries(reached: map<Name, Step>) returns (steps: seq<Step>, ghost order: seq<Name>)
    ensures |steps| == |order| && forall i :: 0 <= i < |steps| ==> order[i] in reached && steps[i] == reached[order[i]]
    ensures forall i, j :: 0 <= i < j < |order| ==> order[i] != order[j]
    ensures forall n :: n in reached ==> n in order
  {
    steps, order := [], [];
    var todo := reached.Keys;
    while todo != {}
      invariant |steps| == |order| && forall i :: 0 <= i < |steps| ==> order[i] in reached && steps[i] == reached[order[i]]
      invariant forall i, j :: 0 <= i < j < |order| ==> order[i] != order[j]
      invariant forall n :: n in reached ==> n in order || n in todo
      invariant forall n :: n in todo ==> n in reached && n !in order
      decreases |todo|
    {
      var n :| n in todo;
      steps, order := steps + [reached[n]], order + [n];
      todo := todo - {n};
    }
  }

  // The candidates of the admitted steps, in order.
  function Build(steps: seq<Step>, admits: Step -> bool, make: Step -> Candidate): seq<Candidate> {
    if steps == [] then []
    else
      var before := Build(steps[..|steps| - 1], admits, make);
      if admits(steps[|steps| - 1]) then before + [make(steps[|steps| - 1])] else before
  }

  lemma {:induction false} BuildExactly(steps: seq<Step>, admits: Step -> bool, make: Step -> Candidate)
    requires forall i, j :: 0 <= i < j < |steps| ==> make(steps[i]) != make(steps[j])
    ensures forall c :: c in Build(steps, admits, make) <==>
      exists i :: 0 <= i < |steps| && admits(steps[i]) && c == make(steps[i])
    ensures forall i, j :: 0 <= i < j < |Build(steps, admits, make)| ==>
      Build(steps, admits, make)[i] != Build(steps, admits, make)[j]
  {
    if steps != [] {
      BuildExactly(steps[..|steps| - 1], admits, make);
      var before := Build(steps[..|steps| - 1], admits, make);
      assert make(steps[|steps| - 1]) !in before;
      assert forall i :: 0 <= i < |before| ==> before[i] in before;
    }
  }

  function Admitting(records: seq<Evidence>, q: Request, p: EvidencePolicy, l: LocalizationPolicy): Step -> bool {
    step => Admitted(step, records, q, p, l)
  }

  function Making(records: seq<Evidence>, q: Request, p: EvidencePolicy): Step -> Candidate {
    step => CandidateOf(step, records, q, p)
  }

  method Consider(before: seq<Candidate>, step: Step, records: seq<Evidence>, q: Request, p: EvidencePolicy, l: LocalizationPolicy)
    returns (candidates: seq<Candidate>)
    ensures candidates == if Admitted(step, records, q, p, l) then before + [CandidateOf(step, records, q, p)] else before
  {
    var s := Gather(records, step.node, q, p);
    if l.requireDecisive && !Decisive(s) {
      return before;
    }
    candidates := before + [Candidate(ScoreOf(s, step.via.observational, step.depth, p), step.node, step.depth, |s.sources|)];
  }

  method Gathering(steps: seq<Step>, records: seq<Evidence>, q: Request, p: EvidencePolicy, l: LocalizationPolicy)
    returns (candidates: seq<Candidate>)
    ensures candidates == Build(steps, Admitting(records, q, p, l), Making(records, q, p))
  {
    candidates := [];
    for i := 0 to |steps|
      invariant candidates == Build(steps[..i], Admitting(records, q, p, l), Making(records, q, p))
    {
      assert steps[..i + 1][..i] == steps[..i];
      candidates := Consider(candidates, steps[i], records, q, p, l);
    }
    assert steps[..|steps|] == steps;
  }

  lemma MakingDistinct(steps: seq<Step>, records: seq<Evidence>, q: Request, p: EvidencePolicy)
    requires forall i, j :: 0 <= i < j < |steps| ==> steps[i].node != steps[j].node
    ensures forall i, j :: 0 <= i < j < |steps| ==> Making(records, q, p)(steps[i]) != Making(records, q, p)(steps[j])
  {
  }

  // Whatever the order of the entries, the candidates are those of the search, each once.
  lemma BuiltAll(steps: seq<Step>, order: seq<Name>, reached: map<Name, Step>, records: seq<Evidence>, q: Request, p: EvidencePolicy, l: LocalizationPolicy)
    requires |steps| == |order| && forall i :: 0 <= i < |steps| ==> order[i] in reached && steps[i] == reached[order[i]]
    requires forall n :: n in reached ==> n in order
    requires forall i, j :: 0 <= i < j < |order| ==> order[i] != order[j]
    requires forall m, n :: m in reached && n in reached && m != n ==> reached[m].node != reached[n].node
    ensures var c := Build(steps, Admitting(records, q, p, l), Making(records, q, p));
      && (forall x :: x in c <==> x in CandidatesOf(reached, records, q, p, l))
      && (forall i, j :: 0 <= i < j < |c| ==> c[i] != c[j])
  {
    MakingDistinct(steps, records, q, p);
    BuildExactly(steps, Admitting(records, q, p, l), Making(records, q, p));
  }

  // What a localization that went as far as the search reports.
  ghost predicate IsLocalization(r: Localization, reached: map<Name, Step>, ranked: seq<Candidate>,
                                 records: seq<Evidence>, q: Request, p: EvidencePolicy, l: LocalizationPolicy, limits: Limits)
  {
    && IsRanking(ranked, CandidatesOf(reached, records, q, p, l))
    && r.outcome == Decide(ranked, l, limits).0
    && r.candidates == Map(ReportOf, Decide(ranked, l, limits).1)
  }

  lemma NodesDistinct(names: Naming, edges: map<EdgeKey, CausalEdge>, s: Name, max: nat, reached: map<Name, Step>, paths: nat, limited: bool)
    requires IsSearch(names, edges, s, max, reached, paths, limited)
    ensures forall m, n :: m in reached && n in reached && m != n ==> reached[m].node != reached[n].node
  {
    forall m, n | m in reached && n in reached && m != n ensures reached[m].node != reached[n].node {
      assert IsReached(names, edges, s, max, m, reached[m]) && IsReached(names, edges, s, max, n, reached[n]);
    }
  }

  method Localize(q: Request, asserted: bool, graph: CausalGraph, records: seq<Evidence>, p: EvidencePolicy,
                  l: LocalizationPolicy, limits: Limits)
    returns (r: Result<Localization>, ghost reached: map<Name, Step>, ghost ranked: seq<Candidate>)
    requires graph.Valid()
    ensures !q.symptom.Valid() ==> r == Err(InvalidArgument)
    ensures q.symptom.Valid() && !asserted ==> r == Ok(Localization(NotAttempted, [], 0, false))
    ensures q.symptom.Valid() && asserted && graph.edges == map[] ==> r == Ok(Localization(Unlocalized, [], 0, false))
    ensures q.symptom.Valid() && asserted && graph.edges != map[] ==>
      && r.Ok?
      && IsSearch(graph.naming, graph.edges, graph.naming(q.symptom), Min(l.maxDepth, limits.maxLocalizationDepth),
                  reached, r.value.paths, r.value.limited)
      && IsLocalization(r.value, reached, ranked, records, q, p, l, limits)
  {
    reached, ranked := map[], [];
    if !q.symptom.Valid() {
      return Err(InvalidArgument), reached, ranked;
    }
    if !asserted {
      return Ok(Localization(NotAttempted, [], 0, false)), reached, ranked;
    }
    if |graph.edges| == 0 {
      return Ok(Localization(Unlocalized, [], 0, false)), reached, ranked;
    }
    var max := Min(l.maxDepth, limits.maxLocalizationDepth);
    var found, paths, limited := Search(graph, q.symptom, max);
    NodesDistinct(graph.naming, graph.edges, graph.naming(q.symptom), max, found, paths, limited);
    var steps, order := Entries(found);
    var candidates := Gathering(steps, records, q, p, l);
    BuiltAll(steps, order, found, records, q, p, l);
    CandidateOrder();
    SortAscends(candidates, CandidateLeq);
    var sorted := SortBy(candidates, CandidateLeq);
    var decision := Decide(sorted, l, limits);
    r := Ok(Localization(decision.0, Map(ReportOf, decision.1), paths, limited));
    reached, ranked := found, sorted;
  }

  // Structure alone never produces a culprit: whatever is reported reaches the symptom along at most the
  // allowed number of causal edges and has fresh evidence of its own of a deciding kind.
  lemma ReportedIsBacked(names: Naming, edges: map<EdgeKey, CausalEdge>, s: Name, max: nat, reached: map<Name, Step>, paths: nat, limited: bool,
                         r: Localization, ranked: seq<Candidate>, records: seq<Evidence>,
                         q: Request, p: EvidencePolicy, l: LocalizationPolicy, limits: Limits, i: nat)
    requires IsSearch(names, edges, s, max, reached, paths, limited)
    requires IsLocalization(r, reached, ranked, records, q, p, l, limits) && i < |r.candidates| && l.requireDecisive
    ensures var subject := r.candidates[i].subject;
      && (exists path :: IsPath(edges.Keys, path, s) && path[0] == names(subject) && 2 <= |path| <= max + 1)
      && (exists e :: e in records && Counts(e, subject, q, p) && RoleOf(e.kind) in {Demand, Pressure, Contention, Impairment})
  {
    var reported := Decide(ranked, l, limits).1;
    DecideWithin(ranked, l, limits);
    assert reported[i] in ranked;
    var n :| n in reached && Admitted(reached[n], records, q, p, l) && CandidateOf(reached[n], records, q, p) == reported[i];
    var subject := reached[n].node;
    assert IsReached(names, edges, s, max, n, reached[n]);
    BallIsPaths(edges.Keys, s, n, max);
    ReachedFar(edges.Keys, s, n, max);
    GatheredExactly(records, CountsFor(subject, q, p));
    DecisiveWitness(SignalsOf(records, subject, q, p), records, CountsFor(subject, q, p));
  }

  lemma DecideWithin(ranked: seq<Candidate>, l: LocalizationPolicy, limits: Limits)
    requires Ascends(ranked, CandidateLeq)
    ensures Decide(ranked, l, limits).1 <= ranked
  {
    ShortlistMeaning(ranked, l, limits);
    var q := Shortlist(ranked, l, limits);
    if q != [] {
      NearPrefix(q, q[0].score, l.ambiguityMargin);
    }
  }

  lemma ReachedFar(e: Edges, s: Name, n: Name, max: nat)
    requires n in Ball(e, s, max) && n != s
    ensures exists path :: IsPath(e, path, s) && path[0] == n && 2 <= |path| <= max + 1
  {
    var path := BallHasPath(e, s, n, max);
  }

  lemma DecisiveWitness(signals: Signals, records: seq<Evidence>, counts: Evidence -> bool)
    requires IsFlags(signals, records, counts) && Decisive(signals)
    ensures exists e :: e in records && counts(e) && RoleOf(e.kind) in {Demand, Pressure, Contention, Impairment}
  {
  }

  // The report depends on the edges, the policy and which records there are: on no order among them.
  lemma LocalizationUnique(names: Naming, edges: map<EdgeKey, CausalEdge>, s: Name, max: nat, p: EvidencePolicy, l: LocalizationPolicy,
                           limits: Limits, q: Request, mine: seq<Evidence>, yours: seq<Evidence>,
                           a: Localization, b: Localization, found: map<Name, Step>, met: map<Name, Step>,
                           ranked: seq<Candidate>, listed: seq<Candidate>)
    requires forall r :: r in mine <==> r in yours
    requires IsSearch(names, edges, s, max, found, a.paths, a.limited) && IsLocalization(a, found, ranked, mine, q, p, l, limits)
    requires IsSearch(names, edges, s, max, met, b.paths, b.limited) && IsLocalization(b, met, listed, yours, q, p, l, limits)
    ensures a == b
  {
    SearchUnique(names, edges, s, max, found, met, a.paths, b.paths, a.limited, b.limited);
    CandidatesForgetOrder(found, mine, yours, q, p, l);
    RankingUnique(ranked, listed, CandidatesOf(found, mine, q, p, l));
  }
}
