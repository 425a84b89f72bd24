// Classification of one subject from its evidence (src/assessment/classify.cpp): which features the usable
// records show, what the rules make of them, and why nothing else matters.
module Classifying {
  import opened Base
  import opened Model
  import opened Sorting
  import opened Observations
  import opened Assessing

  datatype Policy = Policy(
    utilizationAttention: real, utilizationHigh: real, pressureOccupancyRatio: real,
    dropRateThreshold: real, markRateThreshold: real, pauseRateThreshold: real, retransmitRateThreshold: real,
    latencyInflationFactor: real, demandCapacityRatio: real, freshness: FreshnessPolicy)

  datatype Request = Request(subject: Subject, windowStart: int, windowEnd: int, evaluatedAt: int, generation: GenerationVector)

  // ---- Which records are usable ----

  predicate GenerationMatches(r: Evidence, requested: GenerationVector) {
    requested == GenerationVector(0, 0, 0) || r.fence.gen == requested
  }

  predicate IsDeciding(r: Evidence, q: Request, p: Policy) {
    AssessFreshness(r, q.evaluatedAt, p.freshness) == Fresh && r.support != Support.Unsupported
  }

  predicate IsUsable(r: Evidence, q: Request, p: Policy) {
    r.subject == q.subject && GenerationMatches(r, q.generation) && IsDeciding(r, q, p)
  }

  function UsableBy(q: Request, p: Policy): Evidence -> bool { (r: Evidence) => IsUsable(r, q, p) }

  // The records that may decide: of the subject, of the generation asked for, fresh and supported.
  function Usable(records: seq<Evidence>, q: Request, p: Policy): seq<Evidence> { Filter(UsableBy(q, p), records) }

  // ---- What a record shows ----

  const ALL: Evidence -> bool := (r: Evidence) => true

  function OfRole(role: EvidenceRole): Evidence -> bool { (r: Evidence) => RoleOf(r.kind) == role }

  predicate IsCounting(unit_: ObservationUnit) { unit_ in {Packets, Frames, Count, Cells} }

  // Present harm: a positive ratio or amount. A cumulative counter cannot show that anything happened now.
  predicate ShowsHarm(r: Evidence) {
    r.scalar > 0.0 && (r.unit_ == Ratio || !(IsCounting(r.unit_) && r.semantics == CumulativeCounter))
  }

  predicate Unquantified(r: Evidence) { r.unit_ != Ratio && ShowsHarm(r) }

  function RatioOf(kind: EvidenceKind): Evidence -> bool { (r: Evidence) => r.kind == kind && r.unit_ == Ratio }

  function HarmOf(kind: EvidenceKind): Evidence -> bool { (r: Evidence) => r.kind == kind && ShowsHarm(r) }

  function AmountOf(kind: EvidenceKind): Evidence -> bool { (r: Evidence) => r.kind == kind && Unquantified(r) }

  function LifetimeOf(kind: EvidenceKind): Evidence -> bool {
    (r: Evidence) => r.kind == kind && IsCounting(r.unit_) && r.semantics == CumulativeCounter
  }

  datatype RateObservation = RateObservation(rate: real, unquantified: bool, lifetimeOnly: bool, observed: bool)

  ghost predicate IsRate(o: RateObservation, u: seq<Evidence>, kind: EvidenceKind) {
    && IsPeak(o.rate, u, ALL, RatioOf(kind))
    && (o.unquantified <==> Present(u, ALL, AmountOf(kind)))
    && (o.lifetimeOnly <==> Present(u, ALL, LifetimeOf(kind)))
    && (o.observed <==> Present(u, ALL, HarmOf(kind)))
  }

  function ObserveOne(o: RateObservation, r: Evidence): RateObservation {
    if r.unit_ == Ratio then
      o.(rate := Larger(o.rate, r.scalar), observed := o.observed || r.scalar > 0.0)
    else if !IsCounting(r.unit_) then
      if r.scalar > 0.0 then o.(observed := true, unquantified := true) else o
    else if r.semantics == CumulativeCounter then o.(lifetimeOnly := true)
    else if r.scalar > 0.0 then o.(observed := true, unquantified := true)
    else o
  }

  lemma ObserveNext(o: RateObservation, u: seq<Evidence>, r: Evidence, kind: EvidenceKind)
    requires IsRate(o, u, kind)
    ensures IsRate(if r.kind == kind then ObserveOne(o, r) else o, u + [r], kind)
  {
    PeakNext(o.rate, u, r, ALL, RatioOf(kind));
    PresentNext(u, r, ALL, AmountOf(kind));
    PresentNext(u, r, ALL, LifetimeOf(kind));
    PresentNext(u, r, ALL, HarmOf(kind));
  }

  method ObserveRate(u: seq<Evidence>, kind: EvidenceKind) returns (o: RateObservation)
    ensures IsRate(o, u, kind)
  {
    o := RateObservation(0.0, false, false, false);
    for i := 0 to |u|
      invariant IsRate(o, u[..i], kind)
    {
      assert u[..i + 1] == u[..i] + [u[i]];
      ObserveNext(o, u[..i], u[i], kind);
      if u[i].kind != kind {
        continue;
      }
      o := ObserveOne(o, u[i]);
    }
    assert u[..|u|] == u;
  }

  // ---- Latency ----

  predicate IsLatency(r: Evidence) { r.kind == LatencySample && r.scalar > 0.0 }

  const LATENCIES: Evidence -> bool := (r: Evidence) => IsLatency(r)

  // Inflation needs a baseline: two positive samples, some pair of which differs by the factor.
  ghost predicate Inflated(u: seq<Evidence>, factor: real) {
    && |Filter(LATENCIES, u)| >= 2
    && exists low, high :: low in u && high in u && IsLatency(low) && IsLatency(high) && high.scalar >= factor * low.scalar
  }

  predicate Reaches(least: real, greatest: real, factor: real)
    requires least > 0.0
  {
    greatest / least >= factor
  }

  lemma Divides(a: real, b: real)
    requires 0.0 < a
    ensures (b / a) * a == b
  {
  }

  lemma Scales(a: real, b: real, f: real)
    requires 0.0 < a
    ensures Reaches(a, b, f) <==> b >= f * a
  {
    Divides(a, b);
    var ratio := b / a;
    if ratio >= f {
      TimesUp(f, ratio, a);
    } else {
      TimesUpStrict(ratio, f, a);
    }
  }

  lemma TimesUp(x: real, y: real, a: real)
    requires x <= y && 0.0 < a
    ensures x * a <= y * a
  {
  }

  lemma TimesUpStrict(x: real, y: real, a: real)
    requires x < y && 0.0 < a
    ensures x * a < y * a
  {
  }

  // The extremes decide for all pairs.
  lemma ExtremesDecide(least: real, greatest: real, low: real, high: real, f: real)
    requires 0.0 < least <= low && high <= greatest && 0.0 < high && high >= f * low
    ensures greatest >= f * least
  {
    if f >= 0.0 {
      assert f * least <= f * low;
    } else {
      TimesUpStrict(f, 0.0, least);
    }
  }

  ghost predicate IsSpan(u: seq<Evidence>, n: nat, least: real, greatest: real) {
    && n == |Filter(LATENCIES, u)|
    && (forall r :: r in u && IsLatency(r) ==> n > 0 && least <= r.scalar <= greatest)
    && (n > 0 ==> (exists r :: r in u && IsLatency(r) && r.scalar == least) && (exists r :: r in u && IsLatency(r) && r.scalar == greatest))
  }

  lemma SpanNext(u: seq<Evidence>, r: Evidence, n: nat, least: real, greatest: real)
    requires IsSpan(u, n, least, greatest)
    ensures !IsLatency(r) ==> IsSpan(u + [r], n, least, greatest)
    ensures IsLatency(r) ==> IsSpan(u + [r], n + 1, if n == 0 || r.scalar < least then r.scalar else least,
                                    if n == 0 || r.scalar > greatest then r.scalar else greatest)
  {
    FilterNext(LATENCIES, u, r);
    assert r in u + [r];
    assert forall x :: x in u ==> x in u + [r];
  }

  method ObserveLatency(u: seq<Evidence>, factor: real) returns (demonstrated: bool)
    ensures demonstrated <==> Inflated(u, factor)
  {
    var least, greatest, n := 0.0, 0.0, 0;
    for i := 0 to |u|
      invariant IsSpan(u[..i], n, least, greatest)
    {
      assert u[..i + 1] == u[..i] + [u[i]];
      SpanNext(u[..i], u[i], n, least, greatest);
      var value := u[i].scalar;
      if u[i].kind != LatencySample || value <= 0.0 {
        continue;
      }
      if n == 0 || value < least {
        least := value;
      }
      if n == 0 || value > greatest {
        greatest := value;
      }
      n := n + 1;
    }
    assert u[..|u|] == u;
    SpanDecides(u, n, least, greatest, factor);
    demonstrated := n >= 2 && least > 0.0 && Reaches(least, greatest, factor);
  }

  lemma SpanPositive(u: seq<Evidence>, n: nat, least: real, greatest: real)
    requires IsSpan(u, n, least, greatest) && n > 0
    ensures 0.0 < least <= greatest
  {
  }

  lemma SpanHolds(u: seq<Evidence>, n: nat, least: real, greatest: real, r: Evidence)
    requires IsSpan(u, n, least, greatest) && r in u && IsLatency(r)
    ensures 0.0 < least <= r.scalar <= greatest
  {
  }

  lemma InflatedSpan(u: seq<Evidence>, n: nat, least: real, greatest: real, factor: real)
    requires IsSpan(u, n, least, greatest) && Inflated(u, factor)
    ensures greatest >= factor * least
  {
    var a, b :| a in u && b in u && IsLatency(a) && IsLatency(b) && b.scalar >= factor * a.scalar;
    SpanHolds(u, n, least, greatest, a);
    SpanHolds(u, n, least, greatest, b);
    ExtremesDecide(least, greatest, a.scalar, b.scalar, factor);
  }

  lemma SpanInflates(u: seq<Evidence>, n: nat, least: real, greatest: real, factor: real)
    requires IsSpan(u, n, least, greatest) && n >= 2 && greatest >= factor * least
    ensures Inflated(u, factor)
  {
    var low :| low in u && IsLatency(low) && low.scalar == least;
    var high :| high in u && IsLatency(high) && high.scalar == greatest;
  }

  lemma SpanDecides(u: seq<Evidence>, n: nat, least: real, greatest: real, factor: real)
    requires IsSpan(u, n, least, greatest)
    ensures n >= 2 && least > 0.0 && Reaches(least, greatest, factor) <==> Inflated(u, factor)
  {
    if n >= 2 {
      SpanPositive(u, n, least, greatest);
      Scales(least, greatest, factor);
      if Inflated(u, factor) {
        InflatedSpan(u, n, least, greatest, factor);
      } else if greatest >= factor * least {
        SpanInflates(u, n, least, greatest, factor);
      }
    }
  }

  // ---- Features ----

  datatype Features = Features(
    inWindow: nat, mismatched: nat, unsupported: nat, anyFresh: bool, sources: set<Name>,
    utilizationPresent: bool, utilization: real,
    pressurePresent: bool, ratioAvailable: bool, pressureRatio: real,
    contentionPresent: bool,
    demandPresent: bool, offered: real, capacity: real,
    impairmentPresent: bool, drops: RateObservation, marks: RateObservation, pauses: RateObservation,
    retransmits: RateObservation, inflated: bool,
    staleImpairment: bool, stalePressure: bool, staleLoad: bool)

  // The largest value of a nonempty selection, or zero of an empty one.
  ghost predicate IsLargest(m: real, u: seq<Evidence>, property: Evidence -> bool) {
    if Present(u, ALL, property) then
      && (forall r :: r in u && property(r) ==> r.scalar <= m)
      && exists r :: r in u && property(r) && r.scalar == m
    else m == 0.0
  }

  const PRESSURE_RATIO: Evidence -> bool := (r: Evidence) => RoleOf(r.kind) == Pressure && r.unit_ == Ratio
  const OFFERED: Evidence -> bool := (r: Evidence) => r.kind == OfferedDemand

  ghost function SourcesIn(u: seq<Evidence>): set<Name> { set r | r in u :: r.source }

  ghost predicate IsLoad(f: Features, u: seq<Evidence>) {
    && (f.anyFresh <==> u != [])
    && f.sources == SourcesIn(u)
    && (f.utilizationPresent <==> Present(u, ALL, OfRole(Utilization)))
    && IsLargest(f.utilization, u, OfRole(Utilization))
    && (f.pressurePresent <==> Present(u, ALL, OfRole(Pressure)))
    && (f.ratioAvailable <==> Present(u, ALL, PRESSURE_RATIO))
    && IsPeak(f.pressureRatio, u, ALL, PRESSURE_RATIO)
  }

  ghost predicate IsDemandSide(f: Features, u: seq<Evidence>) {
    && (f.contentionPresent <==> Present(u, ALL, OfRole(Contention)))
    && (f.demandPresent <==> Present(u, ALL, OfRole(Demand)))
    && IsPeak(f.offered, u, ALL, OFFERED)
    && IsLargest(f.capacity, u, OfRole(Capacity))
  }

  ghost predicate IsHarm(f: Features, u: seq<Evidence>, p: Policy) {
    && (f.impairmentPresent <==> Present(u, ALL, OfRole(Impairment)))
    && IsRate(f.drops, u, DropCount) && IsRate(f.marks, u, MarkCount)
    && IsRate(f.pauses, u, PauseCount) && IsRate(f.retransmits, u, RetransmitCount)
    && (f.inflated <==> Inflated(u, p.latencyInflationFactor))
  }

  // What the features say of the usable records.
  ghost predicate IsFeatures(f: Features, u: seq<Evidence>, p: Policy) {
    IsLoad(f, u) && IsDemandSide(f, u) && IsHarm(f, u, p)
  }

  function OfSubject(q: Request): Evidence -> bool { (r: Evidence) => r.subject == q.subject }

  function Foreign(q: Request): Evidence -> bool {
    (r: Evidence) => r.subject == q.subject && !GenerationMatches(r, q.generation)
  }

  function Refused(q: Request): Evidence -> bool {
    (r: Evidence) => r.subject == q.subject && r.support == Support.Unsupported
  }

  ghost predicate IsCounts(f: Features, records: seq<Evidence>, q: Request) {
    && f.inWindow == |Filter(OfSubject(q), records)|
    && f.mismatched == |Filter(Foreign(q), records)|
    && f.unsupported == |Filter(Refused(q), records)|
  }

  // Records of the subject and the generation that may not decide.
  function UnusableBy(q: Request, p: Policy): Evidence -> bool {
    (r: Evidence) => r.subject == q.subject && GenerationMatches(r, q.generation) && !IsDeciding(r, q, p)
  }

  predicate IsLoadRole(role: EvidenceRole) { role in {Utilization, Demand, Contention} }

  const LOADING: Evidence -> bool := (r: Evidence) => IsLoadRole(RoleOf(r.kind))

  ghost predicate IsStale(impairment: bool, pressure: bool, load: bool, records: seq<Evidence>, unusable: Evidence -> bool) {
    && (impairment <==> Present(records, unusable, OfRole(Impairment)))
    && (pressure <==> Present(records, unusable, OfRole(Pressure)))
    && (load <==> Present(records, unusable, LOADING))
  }

  ghost predicate IsExtract(f: Features, records: seq<Evidence>, q: Request, p: Policy) {
    && IsCounts(f, records, q) && IsFeatures(f, Usable(records, q, p), p)
    && IsStale(f.staleImpairment, f.stalePressure, f.staleLoad, records, UnusableBy(q, p))
  }

  // ---- The rules ----

  datatype Judgement = Judgement(verdict: Verdict, mechanisms: set<Mechanism>, severity: Severity)

  predicate Exceeds(rate: real, threshold: real) { rate >= threshold && rate > 0.0 }

  predicate AmountSeen(f: Features) {
    f.drops.unquantified || f.marks.unquantified || f.pauses.unquantified || f.retransmits.unquantified
  }

  predicate ImpairmentIsDecisive(f: Features, p: Policy) {
    && f.impairmentPresent
    && (RateDecisive(f, p) || f.inflated || AmountSeen(f))
  }

  function When(condition: bool, m: Mechanism): set<Mechanism> { if condition then {m} else {} }

  function Mechanisms(f: Features): set<Mechanism> {
    When(f.drops.observed, PacketDrop) + When(f.marks.observed, EcnMarking) + When(f.pauses.observed, PauseBackpressure)
    + When(f.retransmits.observed, Retransmission) + When(f.inflated, LatencyInflation)
  }

  function Times(rate: real, threshold: real): real { if threshold > 0.0 then rate / threshold else 0.0 }

  function SeverityForRates(f: Features, p: Policy): Severity {
    var worst := Larger(Times(f.drops.rate, p.dropRateThreshold), Times(f.marks.rate, p.markRateThreshold));
    if worst >= 100.0 || |Mechanisms(f)| >= 3 then Critical
    else if worst >= 10.0 || |Mechanisms(f)| >= 2 then High
    else Moderate
  }

  predicate DemandMeetsCapacity(f: Features, p: Policy) {
    f.demandPresent && f.capacity > 0.0 && f.offered > 0.0 && f.offered / f.capacity >= p.demandCapacityRatio
  }

  predicate BacklogMeaningful(f: Features, p: Policy) {
    (f.ratioAvailable && f.pressureRatio >= p.pressureOccupancyRatio) || (f.pressurePresent && !f.ratioAvailable)
  }

  predicate Contended(f: Features, p: Policy) {
    f.contentionPresent && f.utilizationPresent && f.utilization >= p.utilizationAttention
  }

  predicate Busy(f: Features, p: Policy) {
    f.utilizationPresent && (f.utilization >= p.utilizationHigh || f.utilization >= p.utilizationAttention)
  }

  // The verdict of the first rule that applies.
  function Judge(f: Features, p: Policy): Judgement {
    if f.inWindow == 0 then Judgement(NoEvidence, {}, NoSeverity)
    else if f.mismatched == f.inWindow then Judgement(Indeterminate, {}, NoSeverity)
    else if f.unsupported == f.inWindow then Judgement(Indeterminate, {}, NoSeverity)
    else if !f.anyFresh then Judgement(Indeterminate, {}, NoSeverity)
    else JudgeFresh(f, p)
  }

  function JudgeFresh(f: Features, p: Policy): Judgement {
    if ImpairmentIsDecisive(f, p) then Judgement(CongestionConfirmed, Mechanisms(f), SeverityForRates(f, p))
    else if DemandMeetsCapacity(f, p) then Judgement(Saturated, {}, Moderate)
    else if BacklogMeaningful(f, p) then Judgement(PressureObserved, {}, Low)
    else if Contended(f, p) then Judgement(ContentionObserved, {}, Low)
    else if Busy(f, p) then Judgement(UtilizedHealthy, {}, Informational)
    else Judgement(Idle, {}, NoSeverity)
  }

  // ---- Nothing else matters ----

  lemma Same(u: seq<Evidence>, v: seq<Evidence>)
    requires multiset(u) == multiset(v)
    ensures forall r :: r in u <==> r in v
    ensures |u| == |v|
  {
    assert |u| == |multiset(u)| == |multiset(v)| == |v|;
    forall r ensures r in u <==> r in v {
      assert r in u <==> r in multiset(u);
      assert r in v <==> r in multiset(v);
    }
  }

  lemma RateUnique(a: RateObservation, b: RateObservation, u: seq<Evidence>, v: seq<Evidence>, kind: EvidenceKind)
    requires forall r :: r in u <==> r in v
    requires IsRate(a, u, kind) && IsRate(b, v, kind)
    ensures a == b
  {
    PeakUnique(a.rate, b.rate, u, v, ALL, RatioOf(kind));
  }

  lemma LoadUnique(f: Features, g: Features, u: seq<Evidence>, v: seq<Evidence>)
    requires forall r :: r in u <==> r in v
    requires |u| == |v| && IsLoad(f, u) && IsLoad(g, v)
    ensures f.anyFresh == g.anyFresh && f.sources == g.sources
    ensures f.utilizationPresent == g.utilizationPresent && f.utilization == g.utilization
    ensures f.pressurePresent == g.pressurePresent && f.ratioAvailable == g.ratioAvailable && f.pressureRatio == g.pressureRatio
  {
    PeakUnique(f.pressureRatio, g.pressureRatio, u, v, ALL, PRESSURE_RATIO);
  }

  lemma DemandUnique(f: Features, g: Features, u: seq<Evidence>, v: seq<Evidence>)
    requires forall r :: r in u <==> r in v
    requires IsDemandSide(f, u) && IsDemandSide(g, v)
    ensures f.contentionPresent == g.contentionPresent && f.demandPresent == g.demandPresent
    ensures f.offered == g.offered && f.capacity == g.capacity
  {
    PeakUnique(f.offered, g.offered, u, v, ALL, OFFERED);
  }

  lemma InflatedForgetsOrder(u: seq<Evidence>, v: seq<Evidence>, factor: real)
    requires multiset(u) == multiset(v)
    ensures Inflated(u, factor) <==> Inflated(v, factor)
  {
    Same(u, v);
    FilterPermutes(LATENCIES, u, v);
    Same(Filter(LATENCIES, u), Filter(LATENCIES, v));
  }

  lemma HarmUnique(f: Features, g: Features, u: seq<Evidence>, v: seq<Evidence>, p: Policy)
    requires multiset(u) == multiset(v)
    requires IsHarm(f, u, p) && IsHarm(g, v, p)
    ensures f.impairmentPresent == g.impairmentPresent && f.inflated == g.inflated
    ensures f.drops == g.drops && f.marks == g.marks && f.pauses == g.pauses && f.retransmits == g.retransmits
  {
    Same(u, v);
    RateUnique(f.drops, g.drops, u, v, DropCount);
    RateUnique(f.marks, g.marks, u, v, MarkCount);
    RateUnique(f.pauses, g.pauses, u, v, PauseCount);
    RateUnique(f.retransmits, g.retransmits, u, v, RetransmitCount);
    InflatedForgetsOrder(u, v, p.latencyInflationFactor);
  }

  // The features of one extract with what another says of the records that may not decide.
  function Counting(g: Features, f: Features): Features {
    g.(inWindow := f.inWindow, mismatched := f.mismatched, unsupported := f.unsupported,
       staleImpairment := f.staleImpairment, stalePressure := f.stalePressure, staleLoad := f.staleLoad)
  }

  // The features of the usable records do not depend on their order.
  lemma FeaturesForgetOrder(f: Features, g: Features, u: seq<Evidence>, v: seq<Evidence>, p: Policy)
    requires multiset(u) == multiset(v) && IsFeatures(f, u, p) && IsFeatures(g, v, p)
    ensures f == Counting(g, f)
  {
    Same(u, v);
    LoadUnique(f, g, u, v);
    DemandUnique(f, g, u, v);
    HarmUnique(f, g, u, v, p);
  }

  // A usable record is in the window, of the generation and supported, so the early rules do not apply.
  lemma UsableCounts(f: Features, records: seq<Evidence>, q: Request, p: Policy)
    requires IsCounts(f, records, q) && Usable(records, q, p) != []
    ensures f.mismatched < f.inWindow && f.unsupported < f.inWindow
  {
    var r := Usable(records, q, p)[0];
    UsableMember(records, r, q, p);
    UsableApart(records, r, q, p);
  }

  lemma UsableMember(records: seq<Evidence>, r: Evidence, q: Request, p: Policy)
    requires r in Usable(records, q, p)
    ensures r in records && IsUsable(r, q, p)
  {
    FilterMembers(UsableBy(q, p), records);
    assert r in records && UsableBy(q, p)(r);
  }

  lemma UsableApart(records: seq<Evidence>, r: Evidence, q: Request, p: Policy)
    requires r in records && IsUsable(r, q, p)
    ensures |Filter(Foreign(q), records)| < |Filter(OfSubject(q), records)|
    ensures |Filter(Refused(q), records)| < |Filter(OfSubject(q), records)|
  {
    FewerThan(OfSubject(q), Foreign(q), records, r);
    FewerThan(OfSubject(q), Refused(q), records, r);
  }

  lemma FewerThan(p: Evidence -> bool, q: Evidence -> bool, s: seq<Evidence>, r: Evidence)
    requires (forall x :: q(x) ==> p(x)) && r in s && p(r) && !q(r)
    ensures |Filter(q, s)| < |Filter(p, s)|
  {
    var others := (x: Evidence) => p(x) && !q(x);
    FilterSplit(p, q, q, others, s);
    FilterMembers(others, s);
    assert r in Filter(others, s);
  }

  // With a usable record the later rules decide; without one nothing is asserted.
  lemma JudgeByUsable(f: Features, records: seq<Evidence>, q: Request, p: Policy)
    requires IsExtract(f, records, q, p)
    ensures Usable(records, q, p) != [] ==> f.anyFresh && Judge(f, p) == JudgeFresh(f, p)
    ensures Usable(records, q, p) == [] ==> !IsAssertion(Judge(f, p).verdict)
  {
    if Usable(records, q, p) != [] {
      UsableCounts(f, records, q, p);
    }
  }

  lemma JudgeFreshCongruent(f: Features, g: Features, p: Policy)
    requires f == Counting(g, f)
    ensures JudgeFresh(f, p) == JudgeFresh(g, p)
  {
  }

  // Whether congestion is asserted never depends on anything but the usable records; neither does the
  // verdict, once there is one. Every other record, and the order, may change freely.
  lemma OnlyUsableMatters(f: Features, g: Features, a: seq<Evidence>, b: seq<Evidence>, q: Request, p: Policy)
    requires IsExtract(f, a, q, p) && IsExtract(g, b, q, p)
    requires multiset(Usable(a, q, p)) == multiset(Usable(b, q, p))
    ensures IsAssertion(Judge(f, p).verdict) == IsAssertion(Judge(g, p).verdict)
    ensures Usable(a, q, p) != [] ==> Judge(f, p) == Judge(g, p)
  {
    Same(Usable(a, q, p), Usable(b, q, p));
    FeaturesForgetOrder(f, g, Usable(a, q, p), Usable(b, q, p), p);
    JudgeFreshCongruent(f, g, p);
    JudgeByUsable(f, a, q, p);
    JudgeByUsable(g, b, q, p);
  }

  // ---- What an assertion means ----

  function Threshold(kind: EvidenceKind, p: Policy): Option<real> {
    match kind
    case DropCount => Some(p.dropRateThreshold)
    case MarkCount => Some(p.markRateThreshold)
    case PauseCount => Some(p.pauseRateThreshold)
    case RetransmitCount => Some(p.retransmitRateThreshold)
    case _ => None
  }

  // A record that by itself shows decisive harm: an amount, or a ratio at the policy's threshold.
  predicate IsDecisive(r: Evidence, p: Policy) {
    Threshold(r.kind, p).Some? && ShowsHarm(r) && (r.unit_ == Ratio ==> r.scalar >= Threshold(r.kind, p).value)
  }

  ghost predicate Decisive(u: seq<Evidence>, p: Policy) {
    (exists r :: r in u && IsDecisive(r, p)) || Inflated(u, p.latencyInflationFactor)
  }

  lemma RateDecides(o: RateObservation, u: seq<Evidence>, kind: EvidenceKind, threshold: real, p: Policy)
    requires IsRate(o, u, kind) && Threshold(kind, p) == Some(threshold)
    ensures Exceeds(o.rate, threshold) || o.unquantified <==> SomeDecisive(u, kind, p)
  {
    if Exceeds(o.rate, threshold) {
      var r :| r in u && RatioOf(kind)(r) && r.scalar == o.rate;
      assert r.kind == kind && IsDecisive(r, p);
    }
    if o.unquantified {
      var r :| r in u && AmountOf(kind)(r);
      assert r.kind == kind && IsDecisive(r, p);
    }
    if r :| r in u && r.kind == kind && IsDecisive(r, p) {
      if r.unit_ == Ratio {
        assert RatioOf(kind)(r);
      } else {
        assert AmountOf(kind)(r);
      }
    }
  }

  lemma FreshAsserts(f: Features, p: Policy)
    ensures IsAssertion(JudgeFresh(f, p).verdict) <==> ImpairmentIsDecisive(f, p)
  {
  }

  // Congestion is asserted exactly when some usable record is decisive or latency is inflated.
  lemma AssertedExactly(f: Features, records: seq<Evidence>, q: Request, p: Policy)
    requires IsExtract(f, records, q, p)
    ensures IsAssertion(Judge(f, p).verdict) <==> Decisive(Usable(records, q, p), p)
  {
    JudgeByUsable(f, records, q, p);
    FreshAsserts(f, p);
    ImpairmentDecides(f, Usable(records, q, p), p);
    if Usable(records, q, p) == [] {
      assert !Decisive(Usable(records, q, p), p);
    }
  }

  // What the rule reads of the features, and what it means of the records.
  ghost predicate SomeDecisive(u: seq<Evidence>, kind: EvidenceKind, p: Policy) {
    exists r :: r in u && r.kind == kind && IsDecisive(r, p)
  }

  lemma KindsDecide(u: seq<Evidence>, p: Policy)
    ensures (exists r :: r in u && IsDecisive(r, p))
      <==> SomeDecisive(u, DropCount, p) || SomeDecisive(u, MarkCount, p) || SomeDecisive(u, PauseCount, p)
           || SomeDecisive(u, RetransmitCount, p)
  {
    if r :| r in u && IsDecisive(r, p) {
      assert SomeDecisive(u, r.kind, p);
    }
  }

  lemma DecisiveIsImpairment(u: seq<Evidence>, p: Policy)
    requires Decisive(u, p)
    ensures u != [] && Present(u, ALL, OfRole(Impairment))
    ensures exists r :: r in u && RoleOf(r.kind) == Impairment && r.scalar > 0.0
  {
    var r: Evidence;
    if x :| x in u && IsDecisive(x, p) {
      r := x;
    } else {
      r :| r in u && IsLatency(r);
    }
    assert r in u && RoleOf(r.kind) == Impairment && OfRole(Impairment)(r);
  }

  predicate RateDecisive(f: Features, p: Policy) {
    || Exceeds(f.drops.rate, p.dropRateThreshold)
    || Exceeds(f.marks.rate, p.markRateThreshold)
    || Exceeds(f.pauses.rate, p.pauseRateThreshold)
    || Exceeds(f.retransmits.rate, p.retransmitRateThreshold)
  }

  lemma Thresholds(p: Policy)
    ensures Threshold(DropCount, p) == Some(p.dropRateThreshold) && Threshold(MarkCount, p) == Some(p.markRateThreshold)
    ensures Threshold(PauseCount, p) == Some(p.pauseRateThreshold)
    ensures Threshold(RetransmitCount, p) == Some(p.retransmitRateThreshold)
  {
  }

  lemma RatesDecideEach(f: Features, u: seq<Evidence>, p: Policy)
    requires IsHarm(f, u, p)
    ensures Exceeds(f.drops.rate, p.dropRateThreshold) || f.drops.unquantified <==> SomeDecisive(u, DropCount, p)
    ensures Exceeds(f.marks.rate, p.markRateThreshold) || f.marks.unquantified <==> SomeDecisive(u, MarkCount, p)
    ensures Exceeds(f.pauses.rate, p.pauseRateThreshold) || f.pauses.unquantified <==> SomeDecisive(u, PauseCount, p)
    ensures Exceeds(f.retransmits.rate, p.retransmitRateThreshold) || f.retransmits.unquantified
      <==> SomeDecisive(u, RetransmitCount, p)
  {
    Thresholds(p);
    RateDecides(f.drops, u, DropCount, p.dropRateThreshold, p);
    RateDecides(f.marks, u, MarkCount, p.markRateThreshold, p);
    RateDecides(f.pauses, u, PauseCount, p.pauseRateThreshold, p);
    RateDecides(f.retransmits, u, RetransmitCount, p.retransmitRateThreshold, p);
  }

  lemma RatesDecide(f: Features, u: seq<Evidence>, p: Policy)
    requires IsHarm(f, u, p)
    ensures RateDecisive(f, p) || AmountSeen(f) <==> exists r :: r in u && IsDecisive(r, p)
  {
    RatesDecideEach(f, u, p);
    KindsDecide(u, p);
  }

  lemma ImpairmentDecides(f: Features, u: seq<Evidence>, p: Policy)
    requires IsHarm(f, u, p)
    ensures ImpairmentIsDecisive(f, p) <==> Decisive(u, p)
  {
    RatesDecide(f, u, p);
    if Decisive(u, p) {
      DecisiveIsImpairment(u, p);
    }
  }

  // A larger collection of usable records never withdraws an assertion.
  lemma AssertionMonotone(f: Features, g: Features, a: seq<Evidence>, b: seq<Evidence>, q: Request, p: Policy)
    requires IsExtract(f, a, q, p) && IsExtract(g, b, q, p)
    requires multiset(Usable(a, q, p)) <= multiset(Usable(b, q, p))
    ensures IsAssertion(Judge(f, p).verdict) ==> IsAssertion(Judge(g, p).verdict)
  {
    AssertedExactly(f, a, q, p);
    AssertedExactly(g, b, q, p);
    DecisiveMonotone(Usable(a, q, p), Usable(b, q, p), p);
  }

  lemma Within(u: seq<Evidence>, v: seq<Evidence>)
    requires multiset(u) <= multiset(v)
    ensures forall r :: r in u ==> r in v
    ensures |u| <= |v|
  {
    forall r | r in u ensures r in v {
      assert r in multiset(u);
      assert r in multiset(v);
    }
    assert multiset(v) == multiset(u) + (multiset(v) - multiset(u));
    assert |multiset(v)| == |multiset(u)| + |multiset(v) - multiset(u)|;
  }

  lemma DecisiveMonotone(u: seq<Evidence>, v: seq<Evidence>, p: Policy)
    requires multiset(u) <= multiset(v)
    ensures Decisive(u, p) ==> Decisive(v, p)
  {
    Within(u, v);
    InflatedMonotone(u, v, p.latencyInflationFactor);
  }

  lemma InflatedMonotone(u: seq<Evidence>, v: seq<Evidence>, factor: real)
    requires multiset(u) <= multiset(v)
    ensures Inflated(u, factor) ==> Inflated(v, factor)
  {
    Within(u, v);
    forall x ensures multiset(Filter(LATENCIES, u))[x] <= multiset(Filter(LATENCIES, v))[x] {
      FilterCount(LATENCIES, u, x);
      FilterCount(LATENCIES, v, x);
    }
    Within(Filter(LATENCIES, u), Filter(LATENCIES, v));
  }

  lemma HarmSeen(o: RateObservation, u: seq<Evidence>, kind: EvidenceKind, r: Evidence)
    requires IsRate(o, u, kind) && r in u && r.kind == kind && ShowsHarm(r)
    ensures o.observed
  {
    assert HarmOf(kind)(r);
  }

  lemma MechanismSeen(f: Features, u: seq<Evidence>, p: Policy)
    requires IsHarm(f, u, p) && Decisive(u, p)
    ensures f.drops.observed || f.marks.observed || f.pauses.observed || f.retransmits.observed || f.inflated
  {
    if !f.inflated {
      var r :| r in u && IsDecisive(r, p);
      match r.kind {
        case DropCount => HarmSeen(f.drops, u, DropCount, r);
        case MarkCount => HarmSeen(f.marks, u, MarkCount, r);
        case PauseCount => HarmSeen(f.pauses, u, PauseCount, r);
        case RetransmitCount => HarmSeen(f.retransmits, u, RetransmitCount, r);
        case _ =>
      }
    }
  }

  lemma MechanismNamed(f: Features)
    requires f.drops.observed || f.marks.observed || f.pauses.observed || f.retransmits.observed || f.inflated
    ensures Mechanisms(f) != {} && Primary(Mechanisms(f)) != None
  {
    assert f.drops.observed ==> PacketDrop in Mechanisms(f);
    assert f.marks.observed ==> EcnMarking in Mechanisms(f);
    assert f.pauses.observed ==> PauseBackpressure in Mechanisms(f);
    assert f.retransmits.observed ==> Retransmission in Mechanisms(f);
    assert f.inflated ==> LatencyInflation in Mechanisms(f);
    PrimaryExactly(Mechanisms(f));
  }

  lemma ConfirmedMechanisms(f: Features, p: Policy)
    requires IsAssertion(Judge(f, p).verdict)
    ensures Judge(f, p).mechanisms == Mechanisms(f)
  {
  }

  // An assertion names a mechanism, and rests on a usable record of impairment.
  lemma AssertionIsBacked(f: Features, records: seq<Evidence>, q: Request, p: Policy)
    requires IsExtract(f, records, q, p) && IsAssertion(Judge(f, p).verdict)
    ensures Judge(f, p).mechanisms != {} && Primary(Judge(f, p).mechanisms) != None
    ensures exists r :: r in records && IsUsable(r, q, p) && RoleOf(r.kind) == Impairment && r.scalar > 0.0
  {
    AssertedExactly(f, records, q, p);
    MechanismSeen(f, Usable(records, q, p), p);
    MechanismNamed(f);
    ConfirmedMechanisms(f, p);
    ImpairmentBehind(records, q, p);
  }

  lemma ImpairmentBehind(records: seq<Evidence>, q: Request, p: Policy)
    requires Decisive(Usable(records, q, p), p)
    ensures exists r :: r in records && IsUsable(r, q, p) && RoleOf(r.kind) == Impairment && r.scalar > 0.0
  {
    var u := Usable(records, q, p);
    DecisiveIsImpairment(u, p);
    FilterMembers(UsableBy(q, p), records);
    var r :| r in u && RoleOf(r.kind) == Impairment && r.scalar > 0.0;
    assert r in records && UsableBy(q, p)(r);
  }

  // ---- More evidence of harm never softens an assertion ----

  lemma PeakMonotone(x: real, y: real, u: seq<Evidence>, v: seq<Evidence>, property: Evidence -> bool)
    requires forall r :: r in u ==> r in v
    requires IsPeak(x, u, ALL, property) && IsPeak(y, v, ALL, property)
    ensures x <= y
  {
  }

  lemma RateMonotone(a: RateObservation, b: RateObservation, u: seq<Evidence>, v: seq<Evidence>, kind: EvidenceKind)
    requires forall r :: r in u ==> r in v
    requires IsRate(a, u, kind) && IsRate(b, v, kind)
    ensures a.rate <= b.rate && (a.observed ==> b.observed)
  {
    PeakMonotone(a.rate, b.rate, u, v, RatioOf(kind));
  }

  lemma TimesMonotone(a: real, b: real, threshold: real)
    requires a <= b
    ensures Times(a, threshold) <= Times(b, threshold)
  {
    if threshold > 0.0 {
      QuotientMonotone(a, b, threshold);
    }
  }

  lemma QuotientMonotone(a: real, b: real, t: real)
    requires a <= b && t > 0.0
    ensures a / t <= b / t
  {
    var x, y := a / t, b / t;
    Divides(t, a);
    Divides(t, b);
    if y < x {
      TimesUpStrict(y, x, t);
    }
  }

  lemma SeverityMonotone(f: Features, g: Features, p: Policy)
    requires f.drops.rate <= g.drops.rate && f.marks.rate <= g.marks.rate && Mechanisms(f) <= Mechanisms(g)
    ensures SeverityForRates(f, p).Rank() <= SeverityForRates(g, p).Rank()
  {
    TimesMonotone(f.drops.rate, g.drops.rate, p.dropRateThreshold);
    TimesMonotone(f.marks.rate, g.marks.rate, p.markRateThreshold);
    SubsetSize(Mechanisms(f), Mechanisms(g));
  }

  lemma HarmMonotone(f: Features, g: Features, u: seq<Evidence>, v: seq<Evidence>, p: Policy)
    requires multiset(u) <= multiset(v) && IsHarm(f, u, p) && IsHarm(g, v, p)
    ensures f.drops.rate <= g.drops.rate && f.marks.rate <= g.marks.rate
    ensures (f.drops.observed ==> g.drops.observed) && (f.marks.observed ==> g.marks.observed)
    ensures (f.pauses.observed ==> g.pauses.observed) && (f.retransmits.observed ==> g.retransmits.observed)
    ensures f.inflated ==> g.inflated
  {
    Within(u, v);
    RateMonotone(f.drops, g.drops, u, v, DropCount);
    RateMonotone(f.marks, g.marks, u, v, MarkCount);
    RateMonotone(f.pauses, g.pauses, u, v, PauseCount);
    RateMonotone(f.retransmits, g.retransmits, u, v, RetransmitCount);
    InflatedMonotone(u, v, p.latencyInflationFactor);
  }

  lemma MechanismsMonotone(f: Features, g: Features)
    requires (f.drops.observed ==> g.drops.observed) && (f.marks.observed ==> g.marks.observed)
    requires (f.pauses.observed ==> g.pauses.observed) && (f.retransmits.observed ==> g.retransmits.observed)
    requires f.inflated ==> g.inflated
    ensures Mechanisms(f) <= Mechanisms(g)
  {
  }

  // More usable records keep an assertion, its mechanisms and at least its severity.
  lemma AssertionHardens(f: Features, g: Features, a: seq<Evidence>, b: seq<Evidence>, q: Request, p: Policy)
    requires IsExtract(f, a, q, p) && IsExtract(g, b, q, p)
    requires multiset(Usable(a, q, p)) <= multiset(Usable(b, q, p))
    requires IsAssertion(Judge(f, p).verdict)
    ensures Judge(f, p).mechanisms <= Judge(g, p).mechanisms
    ensures Judge(f, p).severity.Rank() <= Judge(g, p).severity.Rank()
  {
    AssertionMonotone(f, g, a, b, q, p);
    HarmMonotone(f, g, Usable(a, q, p), Usable(b, q, p), p);
    MechanismsMonotone(f, g);
    SeverityMonotone(f, g, p);
    Confirmed(f, p);
    Confirmed(g, p);
  }

  lemma Confirmed(f: Features, p: Policy)
    requires IsAssertion(Judge(f, p).verdict)
    ensures Judge(f, p).mechanisms == Mechanisms(f) && Judge(f, p).severity == SeverityForRates(f, p)
  {
  }

  // ---- The loops ----

  // The usable records by role, in input order.
  datatype Buckets = Buckets(utilization: seq<Evidence>, pressure: seq<Evidence>, contention: seq<Evidence>,
                             demand: seq<Evidence>, capacity: seq<Evidence>, impairment: seq<Evidence>)

  function Put(b: Buckets, role: EvidenceRole, r: Evidence): Buckets {
    match role
    case Utilization => b.(utilization := b.utilization + [r])
    case Pressure => b.(pressure := b.pressure + [r])
    case Contention => b.(contention := b.contention + [r])
    case Demand => b.(demand := b.demand + [r])
    case Capacity => b.(capacity := b.capacity + [r])
    case Impairment => b.(impairment := b.impairment + [r])
    case _ => b
  }

  ghost predicate AreBuckets(b: Buckets, u: seq<Evidence>) {
    && b.utilization == Filter(OfRole(Utilization), u) && b.pressure == Filter(OfRole(Pressure), u)
    && b.contention == Filter(OfRole(Contention), u) && b.demand == Filter(OfRole(Demand), u)
    && b.capacity == Filter(OfRole(Capacity), u) && b.impairment == Filter(OfRole(Impairment), u)
  }

  lemma BucketsNext(b: Buckets, u: seq<Evidence>, r: Evidence, role: EvidenceRole)
    requires AreBuckets(b, u) && role == RoleOf(r.kind)
    ensures AreBuckets(Put(b, role, r), u + [r])
  {
    FilterNext(OfRole(Utilization), u, r);
    FilterNext(OfRole(Pressure), u, r);
    FilterNext(OfRole(Contention), u, r);
    FilterNext(OfRole(Demand), u, r);
    FilterNext(OfRole(Capacity), u, r);
    FilterNext(OfRole(Impairment), u, r);
  }

  datatype Tally = Tally(inWindow: nat, mismatched: nat, unsupported: nat, sources: set<Name>, buckets: Buckets,
                         staleImpairment: bool, stalePressure: bool, staleLoad: bool)

  ghost predicate IsTally(t: Tally, records: seq<Evidence>, q: Request, p: Policy) {
    && t.inWindow == |Filter(OfSubject(q), records)|
    && t.mismatched == |Filter(Foreign(q), records)|
    && t.unsupported == |Filter(Refused(q), records)|
    && t.sources == SourcesIn(Usable(records, q, p))
    && AreBuckets(t.buckets, Usable(records, q, p))
    && IsStale(t.staleImpairment, t.stalePressure, t.staleLoad, records, UnusableBy(q, p))
  }

  // One pass of the extraction loop over a record.
  function TallyOne(t: Tally, r: Evidence, q: Request, p: Policy): Tally {
    if r.subject != q.subject then t
    else
      var seen := t.(inWindow := t.inWindow + 1,
                     unsupported := t.unsupported + if r.support == Support.Unsupported then 1 else 0);
      if !GenerationMatches(r, q.generation) then seen.(mismatched := seen.mismatched + 1)
      else if !IsDeciding(r, q, p) then TallyStale(seen, RoleOf(r.kind))
      else seen.(sources := seen.sources + {r.source}, buckets := Put(seen.buckets, RoleOf(r.kind), r))
  }

  function TallyStale(t: Tally, role: EvidenceRole): Tally {
    t.(staleImpairment := t.staleImpairment || role == Impairment, stalePressure := t.stalePressure || role == Pressure,
       staleLoad := t.staleLoad || IsLoadRole(role))
  }

  lemma StaleNext(t: Tally, records: seq<Evidence>, r: Evidence, unusable: Evidence -> bool)
    requires IsStale(t.staleImpairment, t.stalePressure, t.staleLoad, records, unusable)
    ensures var next := if unusable(r) then TallyStale(t, RoleOf(r.kind)) else t;
      IsStale(next.staleImpairment, next.stalePressure, next.staleLoad, records + [r], unusable)
  {
    PresentNext(records, r, unusable, OfRole(Impairment));
    PresentNext(records, r, unusable, OfRole(Pressure));
    PresentNext(records, r, unusable, LOADING);
  }

  lemma CountsNext(records: seq<Evidence>, r: Evidence, q: Request)
    ensures |Filter(OfSubject(q), records + [r])| == |Filter(OfSubject(q), records)| + if r.subject == q.subject then 1 else 0
    ensures |Filter(Foreign(q), records + [r])|
      == |Filter(Foreign(q), records)| + if r.subject == q.subject && !GenerationMatches(r, q.generation) then 1 else 0
    ensures |Filter(Refused(q), records + [r])|
      == |Filter(Refused(q), records)| + if r.subject == q.subject && r.support == Support.Unsupported then 1 else 0
  {
    FilterNext(OfSubject(q), records, r);
    FilterNext(Foreign(q), records, r);
    FilterNext(Refused(q), records, r);
  }

  lemma UsableNext(records: seq<Evidence>, r: Evidence, q: Request, p: Policy)
    ensures Usable(records + [r], q, p) == if IsUsable(r, q, p) then Usable(records, q, p) + [r] else Usable(records, q, p)
  {
    FilterNext(UsableBy(q, p), records, r);
  }

  lemma SourcesOfNext(u: seq<Evidence>, r: Evidence)
    ensures SourcesIn(u + [r]) == SourcesIn(u) + {r.source}
  {
    assert r in u + [r];
  }

  lemma TallyNext(t: Tally, records: seq<Evidence>, r: Evidence, q: Request, p: Policy)
    requires IsTally(t, records, q, p)
    ensures IsTally(TallyOne(t, r, q, p), records + [r], q, p)
  {
    CountsNext(records, r, q);
    UsableNext(records, r, q, p);
    SourcesOfNext(Usable(records, q, p), r);
    BucketsNext(t.buckets, Usable(records, q, p), r, RoleOf(r.kind));
    StaleNext(t, records, r, UnusableBy(q, p));
  }

  method TallyRecords(records: seq<Evidence>, q: Request, p: Policy) returns (t: Tally)
    ensures IsTally(t, records, q, p)
  {
    t := Tally(0, 0, 0, {}, Buckets([], [], [], [], [], []), false, false, false);
    for i := 0 to |records|
      invariant IsTally(t, records[..i], q, p)
    {
      assert records[..i + 1] == records[..i] + [records[i]];
      TallyNext(t, records[..i], records[i], q, p);
      t := TallyOne(t, records[i], q, p);
    }
    assert records[..|records|] == records;
  }

  method MaxScalar(bucket: seq<Evidence>) returns (m: real)
    ensures IsLargest(m, bucket, ALL)
  {
    m := 0.0;
    var first := true;
    for i := 0 to |bucket|
      invariant first <==> i == 0
      invariant i > 0 ==> exists r :: r in bucket && r.scalar == m
      invariant i == 0 ==> m == 0.0
      invariant forall j :: 0 <= j < i ==> bucket[j].scalar <= m
    {
      if first || bucket[i].scalar > m {
        m := bucket[i].scalar;
        first := false;
        assert bucket[i] in bucket;
      }
    }
    if bucket != [] {
      assert bucket[0] in bucket && ALL(bucket[0]);
      assert Present(bucket, ALL, ALL);
    }
  }

  const RATIO: Evidence -> bool := (r: Evidence) => r.unit_ == Ratio

  // Whether any value is a ratio, and the largest that is.
  method MaxRatio(bucket: seq<Evidence>) returns (any: bool, m: real)
    ensures any <==> Present(bucket, ALL, RATIO)
    ensures IsPeak(m, bucket, ALL, RATIO)
  {
    any, m := false, 0.0;
    for i := 0 to |bucket|
      invariant any <==> Present(bucket[..i], ALL, RATIO)
      invariant IsPeak(m, bucket[..i], ALL, RATIO)
    {
      assert bucket[..i + 1] == bucket[..i] + [bucket[i]];
      PresentNext(bucket[..i], bucket[i], ALL, RATIO);
      PeakNext(m, bucket[..i], bucket[i], ALL, RATIO);
      if bucket[i].unit_ == Ratio {
        any := true;
        m := Larger(m, bucket[i].scalar);
      }
    }
    assert bucket[..|bucket|] == bucket;
  }

  method MaxOffered(bucket: seq<Evidence>) returns (m: real)
    ensures IsPeak(m, bucket, ALL, OFFERED)
  {
    m := 0.0;
    for i := 0 to |bucket|
      invariant IsPeak(m, bucket[..i], ALL, OFFERED)
    {
      assert bucket[..i + 1] == bucket[..i] + [bucket[i]];
      PeakNext(m, bucket[..i], bucket[i], ALL, OFFERED);
      if bucket[i].kind == OfferedDemand {
        m := Larger(m, bucket[i].scalar);
      }
    }
    assert bucket[..|bucket|] == bucket;
  }

  // ---- From a bucket back to the usable records ----

  lemma BucketPresent(u: seq<Evidence>, role: Evidence -> bool, inBucket: Evidence -> bool, property: Evidence -> bool)
    requires forall r :: r in u ==> property(r) == (role(r) && inBucket(r))
    ensures Present(Filter(role, u), ALL, inBucket) <==> Present(u, ALL, property)
  {
    FilterMembers(role, u);
  }

  lemma BucketPeak(m: real, u: seq<Evidence>, role: Evidence -> bool, inBucket: Evidence -> bool, property: Evidence -> bool)
    requires forall r :: r in u ==> property(r) == (role(r) && inBucket(r))
    requires IsPeak(m, Filter(role, u), ALL, inBucket)
    ensures IsPeak(m, u, ALL, property)
  {
    FilterMembers(role, u);
    if m != 0.0 {
      var r :| r in Filter(role, u) && inBucket(r) && r.scalar == m;
      assert r in u && property(r);
    }
  }

  lemma BucketLargest(m: real, u: seq<Evidence>, role: Evidence -> bool)
    requires IsLargest(m, Filter(role, u), ALL)
    ensures IsLargest(m, u, role)
  {
    FilterMembers(role, u);
    BucketPresent(u, role, ALL, role);
    if Present(u, ALL, role) {
      var r :| r in Filter(role, u) && r.scalar == m;
      assert r in u && role(r);
      forall x | x in u && role(x) ensures x.scalar <= m {
        assert x in Filter(role, u) && ALL(x);
      }
    }
  }

  lemma BucketRate(o: RateObservation, u: seq<Evidence>, kind: EvidenceKind)
    requires RoleOf(kind) == Impairment && IsRate(o, Filter(OfRole(Impairment), u), kind)
    ensures IsRate(o, u, kind)
  {
    BucketPeak(o.rate, u, OfRole(Impairment), RatioOf(kind), RatioOf(kind));
    BucketPresent(u, OfRole(Impairment), AmountOf(kind), AmountOf(kind));
    BucketPresent(u, OfRole(Impairment), LifetimeOf(kind), LifetimeOf(kind));
    BucketPresent(u, OfRole(Impairment), HarmOf(kind), HarmOf(kind));
  }

  lemma LatencyInBucket(u: seq<Evidence>, r: Evidence)
    requires IsLatency(r)
    ensures r in Filter(OfRole(Impairment), u) <==> r in u
  {
    FilterMembers(OfRole(Impairment), u);
    assert OfRole(Impairment)(r);
  }

  lemma LatenciesInBucket(u: seq<Evidence>)
    ensures Filter(LATENCIES, Filter(OfRole(Impairment), u)) == Filter(LATENCIES, u)
  {
    forall r | r in u && LATENCIES(r) ensures OfRole(Impairment)(r) {
    }
    FilterNested(OfRole(Impairment), LATENCIES, u);
  }

  lemma BucketInflated(u: seq<Evidence>, factor: real)
    ensures Inflated(Filter(OfRole(Impairment), u), factor) <==> Inflated(u, factor)
  {
    var bucket := Filter(OfRole(Impairment), u);
    LatenciesInBucket(u);
    forall r | IsLatency(r) ensures r in bucket <==> r in u {
      LatencyInBucket(u, r);
    }
  }

  lemma BucketNonempty(u: seq<Evidence>, role: Evidence -> bool)
    ensures Filter(role, u) != [] <==> Present(u, ALL, role)
  {
    FilterMembers(role, u);
    if Filter(role, u) != [] {
      assert Filter(role, u)[0] in Filter(role, u);
    }
  }

  // ---- extract_features ----

  method HarmFeatures(t: Tally, ghost u: seq<Evidence>, p: Policy, f0: Features) returns (f: Features)
    requires AreBuckets(t.buckets, u)
    ensures f == f0.(impairmentPresent := f.impairmentPresent, drops := f.drops, marks := f.marks, pauses := f.pauses,
                     retransmits := f.retransmits, inflated := f.inflated)
    ensures IsHarm(f, u, p)
  {
    var bucket := t.buckets.impairment;
    var drops := ObserveRate(bucket, DropCount);
    var marks := ObserveRate(bucket, MarkCount);
    var pauses := ObserveRate(bucket, PauseCount);
    var retransmits := ObserveRate(bucket, RetransmitCount);
    var inflated := ObserveLatency(bucket, p.latencyInflationFactor);
    BucketNonempty(u, OfRole(Impairment));
    BucketRate(drops, u, DropCount);
    BucketRate(marks, u, MarkCount);
    BucketRate(pauses, u, PauseCount);
    BucketRate(retransmits, u, RetransmitCount);
    BucketInflated(u, p.latencyInflationFactor);
    f := f0.(impairmentPresent := bucket != [], drops := drops, marks := marks, pauses := pauses, retransmits := retransmits,
             inflated := inflated);
  }

  method DemandFeatures(t: Tally, ghost u: seq<Evidence>, f0: Features) returns (f: Features)
    requires AreBuckets(t.buckets, u)
    ensures f == f0.(contentionPresent := f.contentionPresent, demandPresent := f.demandPresent, offered := f.offered, capacity := f.capacity)
    ensures IsDemandSide(f, u)
  {
    var offered := MaxOffered(t.buckets.demand);
    var capacity := MaxScalar(t.buckets.capacity);
    BucketNonempty(u, OfRole(Contention));
    BucketNonempty(u, OfRole(Demand));
    BucketPeak(offered, u, OfRole(Demand), OFFERED, OFFERED);
    BucketLargest(capacity, u, OfRole(Capacity));
    f := f0.(contentionPresent := t.buckets.contention != [], demandPresent := t.buckets.demand != [], offered := offered,
             capacity := capacity);
  }

  method PressureFeatures(bucket: seq<Evidence>, ghost u: seq<Evidence>) returns (present: bool, any: bool, ratio: real)
    requires bucket == Filter(OfRole(Pressure), u)
    ensures present <==> Present(u, ALL, OfRole(Pressure))
    ensures any <==> Present(u, ALL, PRESSURE_RATIO)
    ensures IsPeak(ratio, u, ALL, PRESSURE_RATIO)
  {
    present := bucket != [];
    any, ratio := MaxRatio(bucket);
    BucketNonempty(u, OfRole(Pressure));
    BucketPresent(u, OfRole(Pressure), RATIO, PRESSURE_RATIO);
    BucketPeak(ratio, u, OfRole(Pressure), RATIO, PRESSURE_RATIO);
  }

  method UtilizationFeatures(bucket: seq<Evidence>, ghost u: seq<Evidence>) returns (present: bool, utilization: real)
    requires bucket == Filter(OfRole(Utilization), u)
    ensures present <==> Present(u, ALL, OfRole(Utilization))
    ensures IsLargest(utilization, u, OfRole(Utilization))
  {
    present := bucket != [];
    utilization := MaxScalar(bucket);
    BucketNonempty(u, OfRole(Utilization));
    BucketLargest(utilization, u, OfRole(Utilization));
  }

  method LoadFeatures(t: Tally, ghost u: seq<Evidence>, f0: Features) returns (f: Features)
    requires AreBuckets(t.buckets, u) && t.sources == SourcesIn(u)
    ensures f == f0.(anyFresh := f.anyFresh, sources := f.sources, utilizationPresent := f.utilizationPresent,
                     utilization := f.utilization, pressurePresent := f.pressurePresent,
                     ratioAvailable := f.ratioAvailable, pressureRatio := f.pressureRatio)
    ensures IsLoad(f, u)
  {
    var busy, utilization := UtilizationFeatures(t.buckets.utilization, u);
    var pressed, any, ratio := PressureFeatures(t.buckets.pressure, u);
    SomeSource(u);
    f := f0.(anyFresh := t.sources != {}, sources := t.sources, utilizationPresent := busy, utilization := utilization,
             pressurePresent := pressed, ratioAvailable := any, pressureRatio := ratio);
  }

  lemma SomeSource(u: seq<Evidence>)
    ensures SourcesIn(u) != {} <==> u != []
  {
    if u != [] {
      assert u[0] in u;
      assert u[0].source in SourcesIn(u);
    }
  }

  const NOTHING: RateObservation := RateObservation(0.0, false, false, false)

  method ExtractFeatures(records: seq<Evidence>, q: Request, p: Policy) returns (f: Features)
    ensures IsExtract(f, records, q, p)
  {
    var t := TallyRecords(records, q, p);
    ghost var u := Usable(records, q, p);
    f := Features(t.inWindow, t.mismatched, t.unsupported, false, {}, false, 0.0, false, false, 0.0, false, false, 0.0, 0.0,
                  false, NOTHING, NOTHING, NOTHING, NOTHING, false, t.staleImpairment, t.stalePressure, t.staleLoad);
    f := LoadFeatures(t, u, f);
    f := DemandFeatures(t, u, f);
    f := HarmFeatures(t, u, p, f);
  }

  // ---- The rule engine ----

  datatype Blocker =
    | AbsenceOfEvidence | GenerationMismatch | UnsupportedEvidence
    | StaleImpairment | StalePressure | UnknownFreshness | NoFreshEvidence
    | CounterWithoutDelta | BelowThreshold | BacklogBelow | UtilizationAlone

  function If(condition: bool, code: Blocker): seq<Blocker> { if condition then [code] else [] }

  predicate LifetimeOnly(f: Features) {
    f.drops.lifetimeOnly || f.marks.lifetimeOnly || f.pauses.lifetimeOnly || f.retransmits.lifetimeOnly
  }

  function WhyNotFresh(f: Features): Blocker {
    if f.staleImpairment then StaleImpairment
    else if f.stalePressure then StalePressure
    else if f.staleLoad then Blocker.UnknownFreshness
    else NoFreshEvidence
  }

  function WhyNotDecisive(f: Features): Blocker { if LifetimeOnly(f) then CounterWithoutDelta else BelowThreshold }

  // What the rules say stood in the way of a stronger verdict, in the order they say it.
  function Raised(f: Features, p: Policy): seq<Blocker> {
    if f.inWindow == 0 then [AbsenceOfEvidence]
    else If(f.mismatched > 0, GenerationMismatch) + if f.mismatched == f.inWindow then [] else RaisedMatching(f, p)
  }

  function RaisedMatching(f: Features, p: Policy): seq<Blocker> {
    If(f.unsupported > 0, UnsupportedEvidence)
    + if f.unsupported == f.inWindow then [] else if !f.anyFresh then [WhyNotFresh(f)] else RaisedFresh(f, p)
  }

  function RaisedFresh(f: Features, p: Policy): seq<Blocker> {
    if ImpairmentIsDecisive(f, p) then [] else If(f.impairmentPresent, WhyNotDecisive(f)) + RaisedByLoad(f, p)
  }

  function RaisedByLoad(f: Features, p: Policy): seq<Blocker> {
    if DemandMeetsCapacity(f, p) || BacklogMeaningful(f, p) then []
    else If(f.pressurePresent, BacklogBelow) + If(f.stalePressure, StalePressure) + If(!Contended(f, p) && Busy(f, p), UtilizationAlone)
  }

  lemma Joined(a: seq<Blocker>, b: seq<Blocker>, code: Blocker)
    ensures code in a + b <==> code in a || code in b
  {
  }

  lemma LoadRaises(f: Features, p: Policy, code: Blocker)
    ensures code in RaisedByLoad(f, p) <==>
      !DemandMeetsCapacity(f, p) && !BacklogMeaningful(f, p)
      && match code
         case BacklogBelow => f.pressurePresent
         case StalePressure => f.stalePressure
         case UtilizationAlone => !Contended(f, p) && Busy(f, p)
         case _ => false
  {
    var below, stale, alone := If(f.pressurePresent, BacklogBelow), If(f.stalePressure, StalePressure), If(!Contended(f, p) && Busy(f, p), UtilizationAlone);
    Joined(below + stale, alone, code);
    Joined(below, stale, code);
  }

  lemma FreshRaises(f: Features, p: Policy, code: Blocker)
    ensures code in RaisedFresh(f, p) <==>
      !ImpairmentIsDecisive(f, p) && ((f.impairmentPresent && code == WhyNotDecisive(f)) || code in RaisedByLoad(f, p))
  {
    Joined(If(f.impairmentPresent, WhyNotDecisive(f)), RaisedByLoad(f, p), code);
  }

  lemma EarlyRaises(f: Features, p: Policy, code: Blocker)
    ensures code in Raised(f, p) <==>
      if f.inWindow == 0 then code == AbsenceOfEvidence
      else
        || (code == GenerationMismatch && f.mismatched > 0)
        || (f.mismatched != f.inWindow && code == UnsupportedEvidence && f.unsupported > 0)
        || (f.mismatched != f.inWindow && f.unsupported != f.inWindow && code in if f.anyFresh then RaisedFresh(f, p) else [WhyNotFresh(f)])
  {
    var late := if f.unsupported == f.inWindow then [] else if !f.anyFresh then [WhyNotFresh(f)] else RaisedFresh(f, p);
    Joined(If(f.unsupported > 0, UnsupportedEvidence), late, code);
    Joined(If(f.mismatched > 0, GenerationMismatch), if f.mismatched == f.inWindow then [] else RaisedMatching(f, p), code);
  }

  lemma FilterSome(p: Evidence -> bool, s: seq<Evidence>)
    ensures |Filter(p, s)| > 0 <==> exists r :: r in s && p(r)
  {
    if Filter(p, s) != [] {
      FilterMember(p, s, Filter(p, s)[0]);
    } else if r :| r in s && p(r) {
      FilterMember(p, s, r);
    }
  }

  lemma FilterNotAll(p: Evidence -> bool, q: Evidence -> bool, s: seq<Evidence>)
    requires forall r :: q(r) ==> p(r)
    ensures |Filter(q, s)| <= |Filter(p, s)|
    ensures |Filter(q, s)| < |Filter(p, s)| <==> exists r :: r in s && p(r) && !q(r)
  {
    var others := (x: Evidence) => p(x) && !q(x);
    FilterSplit(p, q, q, others, s);
    FilterSome(others, s);
    if r :| r in s && p(r) && !q(r) {
      assert others(r);
    }
  }

  // The blockers raised before freshness is asked about, in terms of the records.
  lemma EarlyBlockers(f: Features, records: seq<Evidence>, q: Request, p: Policy)
    requires IsExtract(f, records, q, p)
    ensures AbsenceOfEvidence in Raised(f, p) <==> !exists r :: r in records && OfSubject(q)(r)
    ensures GenerationMismatch in Raised(f, p) <==> exists r :: r in records && Foreign(q)(r)
    ensures UnsupportedEvidence in Raised(f, p) <==>
      (exists r :: r in records && Refused(q)(r)) && exists r :: r in records && OfSubject(q)(r) && !Foreign(q)(r)
  {
    RaisedEarly(f, p);
    FilterSome(OfSubject(q), records);
    FilterSome(Foreign(q), records);
    FilterSome(Refused(q), records);
    FilterNotAll(OfSubject(q), Foreign(q), records);
    FilterNotAll(OfSubject(q), Refused(q), records);
  }

  lemma RaisedEarly(f: Features, p: Policy)
    ensures AbsenceOfEvidence in Raised(f, p) <==> f.inWindow == 0
    ensures GenerationMismatch in Raised(f, p) <==> f.inWindow != 0 && f.mismatched > 0
    ensures UnsupportedEvidence in Raised(f, p) <==> f.inWindow != 0 && f.mismatched != f.inWindow && f.unsupported > 0
  {
    RaisedOnly(f, p, AbsenceOfEvidence);
    RaisedOnly(f, p, GenerationMismatch);
    RaisedOnly(f, p, UnsupportedEvidence);
  }

  lemma RaisedOnly(f: Features, p: Policy, code: Blocker)
    requires code in {AbsenceOfEvidence, GenerationMismatch, UnsupportedEvidence}
    ensures code in Raised(f, p) <==>
      if f.inWindow == 0 then code == AbsenceOfEvidence
      else (code == GenerationMismatch && f.mismatched > 0) || (f.mismatched != f.inWindow && code == UnsupportedEvidence && f.unsupported > 0)
  {
    EarlyRaises(f, p, code);
    FreshRaises(f, p, code);
    LoadRaises(f, p, code);
  }

  lemma RaisedLate(f: Features, p: Policy, code: Blocker)
    requires code in {CounterWithoutDelta, BelowThreshold, UtilizationAlone}
    ensures code in Raised(f, p) <==>
      f.inWindow != 0 && f.mismatched != f.inWindow && f.unsupported != f.inWindow && f.anyFresh && code in RaisedFresh(f, p)
  {
    EarlyRaises(f, p, code);
  }

  // Fresh harm that does not decide is always answered for, and nothing else is blamed on it.
  lemma HarmAnswered(f: Features, records: seq<Evidence>, q: Request, p: Policy)
    requires IsExtract(f, records, q, p)
    ensures var u := Usable(records, q, p);
      (CounterWithoutDelta in Raised(f, p) || BelowThreshold in Raised(f, p)) <==> Present(u, ALL, OfRole(Impairment)) && !Decisive(u, p)
  {
    var u := Usable(records, q, p);
    HarmRaised(f, p);
    ImpairmentDecides(f, u, p);
    FreshCounts(f, records, q, p);
  }

  lemma FreshCounts(f: Features, records: seq<Evidence>, q: Request, p: Policy)
    requires IsExtract(f, records, q, p)
    ensures f.anyFresh <==> Usable(records, q, p) != []
    ensures f.anyFresh ==> f.mismatched < f.inWindow && f.unsupported < f.inWindow
    ensures f.impairmentPresent ==> f.anyFresh
  {
    if Usable(records, q, p) != [] {
      UsableCounts(f, records, q, p);
    }
  }

  lemma HarmRaised(f: Features, p: Policy)
    ensures CounterWithoutDelta in Raised(f, p) || BelowThreshold in Raised(f, p) <==>
      f.inWindow != 0 && f.mismatched != f.inWindow && f.unsupported != f.inWindow && f.anyFresh
      && f.impairmentPresent && !ImpairmentIsDecisive(f, p)
  {
    RaisedLate(f, p, CounterWithoutDelta);
    RaisedLate(f, p, BelowThreshold);
    FreshRaises(f, p, CounterWithoutDelta);
    FreshRaises(f, p, BelowThreshold);
    LoadRaises(f, p, CounterWithoutDelta);
    LoadRaises(f, p, BelowThreshold);
  }

  // High utilization alone is named exactly when it is all there is.
  lemma UtilizationNamed(f: Features, p: Policy)
    ensures UtilizationAlone in Raised(f, p) <==> Judge(f, p).verdict == UtilizedHealthy
  {
    RaisedLate(f, p, UtilizationAlone);
    FreshRaises(f, p, UtilizationAlone);
    LoadRaises(f, p, UtilizationAlone);
  }

  // A verdict that decides nothing says why, and an assertion leaves only what it was made in spite of.
  lemma VerdictsExplained(f: Features, p: Policy)
    ensures Judge(f, p).verdict in {NoEvidence, Indeterminate} ==> Raised(f, p) != []
    ensures IsAssertion(Judge(f, p).verdict) ==> forall b :: b in Raised(f, p) ==> b in {GenerationMismatch, UnsupportedEvidence}
  {
    if IsAssertion(Judge(f, p).verdict) {
      assert RaisedFresh(f, p) == [];
      forall b | b in Raised(f, p) ensures b in {GenerationMismatch, UnsupportedEvidence} {
        EarlyRaises(f, p, b);
      }
    } else if Judge(f, p).verdict == Indeterminate {
      UndecidedSays(f, p);
    }
  }

  lemma UndecidedSays(f: Features, p: Policy)
    requires f.inWindow != 0 && (f.mismatched == f.inWindow || f.unsupported == f.inWindow || !f.anyFresh)
    ensures Raised(f, p) != []
  {
    EarlyRaises(f, p, GenerationMismatch);
    EarlyRaises(f, p, UnsupportedEvidence);
    EarlyRaises(f, p, WhyNotFresh(f));
  }

  const MAX_BLOCKERS: nat := 32

  class RuleEngine {
    var verdict: Verdict
    var mechanisms: set<Mechanism>
    var severity: Severity
    var blockers: seq<Blocker>

    constructor ()
      ensures verdict == NoEvidence && mechanisms == {} && severity == NoSeverity && blockers == []
    {
      verdict, mechanisms, severity, blockers := NoEvidence, {}, NoSeverity, [];
    }

    ghost predicate BlockersDistinct()
      reads `blockers
    {
      |blockers| <= MAX_BLOCKERS && forall i, j :: 0 <= i < j < |blockers| ==> blockers[i] != blockers[j]
    }

    // A blocker is reported once, and only so many are.
    method Block(code: Blocker)
      requires BlockersDistinct()
      modifies `blockers
      ensures BlockersDistinct()
      ensures blockers == if code in old(blockers) || |old(blockers)| >= MAX_BLOCKERS then old(blockers) else old(blockers) + [code]
    {
      for i := 0 to |blockers|
        invariant code !in blockers[..i] && blockers == old(blockers)
      {
        if blockers[i] == code {
          return;
        }
      }
      if |blockers| >= MAX_BLOCKERS {
        return;
      }
      blockers := blockers + [code];
    }

    method Conclude(v: Verdict, m: set<Mechanism>, s: Severity)
      modifies `verdict, `mechanisms, `severity
      ensures verdict == v && mechanisms == m && severity == s
    {
      verdict, mechanisms, severity := v, m, s;
    }

    method AssessRules(f: Features, p: Policy)
      requires blockers == [] && verdict == NoEvidence && mechanisms == {} && severity == NoSeverity
      modifies this
      ensures Judgement(verdict, mechanisms, severity) == Judge(f, p)
      ensures blockers == Raised(f, p) && BlockersDistinct()
    {
      if f.inWindow == 0 {
        Block(AbsenceOfEvidence);
        return;
      }
      if f.mismatched > 0 {
        Block(GenerationMismatch);
        if f.mismatched == f.inWindow {
          verdict := Indeterminate;
          return;
        }
      }
      AssessMatching(f, p);
    }

    method AssessMatching(f: Features, p: Policy)
      requires blockers == If(f.mismatched > 0, GenerationMismatch)
      requires f.inWindow != 0 && f.mismatched != f.inWindow
      requires verdict == NoEvidence && mechanisms == {} && severity == NoSeverity
      modifies this
      ensures Judgement(verdict, mechanisms, severity) == Judge(f, p)
      ensures blockers == old(blockers) + RaisedMatching(f, p) && BlockersDistinct()
    {
      ghost var before, early := blockers, If(f.unsupported > 0, UnsupportedEvidence);
      if f.unsupported > 0 {
        Block(UnsupportedEvidence);
      }
      assert blockers == before + early && OnlyEarly();
      if f.unsupported > 0 && f.unsupported == f.inWindow {
        verdict := Indeterminate;
        assert early + [] == early;
        return;
      }
      AssessSupported(f, p);
      Regroup(before, early, if f.anyFresh then RaisedFresh(f, p) else [WhyNotFresh(f)]);
    }

    method AssessSupported(f: Features, p: Policy)
      requires OnlyEarly() && f.inWindow != 0 && f.mismatched != f.inWindow && f.unsupported != f.inWindow
      requires verdict == NoEvidence && mechanisms == {} && severity == NoSeverity
      modifies this
      ensures Judgement(verdict, mechanisms, severity) == Judge(f, p)
      ensures blockers == old(blockers) + (if f.anyFresh then RaisedFresh(f, p) else [WhyNotFresh(f)]) && BlockersDistinct()
    {
      if !f.anyFresh {
        verdict := Indeterminate;
        BlockFreshness(f);
        return;
      }
      AssessFresh(f, p);
    }

    ghost predicate OnlyEarly()
      reads `blockers
    {
      BlockersDistinct() && |blockers| <= 2 && forall b :: b in blockers ==> b in {GenerationMismatch, UnsupportedEvidence}
    }

    method BlockFreshness(f: Features)
      requires OnlyEarly()
      modifies `blockers
      ensures blockers == old(blockers) + [WhyNotFresh(f)] && BlockersDistinct()
    {
      if f.staleImpairment {
        Block(StaleImpairment);
      } else if f.stalePressure {
        Block(StalePressure);
      } else if f.staleLoad {
        Block(Blocker.UnknownFreshness);
      } else {
        Block(NoFreshEvidence);
      }
    }

    method AssessFresh(f: Features, p: Policy)
      requires OnlyEarly() && mechanisms == {}
      modifies this
      ensures Judgement(verdict, mechanisms, severity) == JudgeFresh(f, p)
      ensures blockers == old(blockers) + RaisedFresh(f, p) && BlockersDistinct()
    {
      if ImpairmentIsDecisive(f, p) {
        Conclude(CongestionConfirmed, Mechanisms(f), SeverityForRates(f, p));
        return;
      }
      if f.impairmentPresent {
        if LifetimeOnly(f) {
          Block(CounterWithoutDelta);
        } else {
          Block(BelowThreshold);
        }
      }
      AssessLoad(f, p);
    }

    method AssessLoad(f: Features, p: Policy)
      requires BlockersDistinct() && |blockers| <= 3 && mechanisms == {} && !ImpairmentIsDecisive(f, p)
      requires BacklogBelow !in blockers && StalePressure !in blockers && UtilizationAlone !in blockers
      modifies this
      ensures Judgement(verdict, mechanisms, severity) == JudgeFresh(f, p)
      ensures blockers == old(blockers) + RaisedByLoad(f, p) && BlockersDistinct()
    {
      if DemandMeetsCapacity(f, p) {
        Conclude(Saturated, {}, Moderate);
        return;
      }
      if BacklogMeaningful(f, p) {
        Conclude(PressureObserved, {}, Low);
        return;
      }
      if f.pressurePresent {
        Block(BacklogBelow);
      }
      if f.stalePressure {
        Block(StalePressure);
      }
      if Contended(f, p) {
        Conclude(ContentionObserved, {}, Low);
        return;
      }
      if Busy(f, p) {
        Conclude(UtilizedHealthy, {}, Informational);
        Block(UtilizationAlone);
        return;
      }
      Conclude(Idle, {}, NoSeverity);
    }
  }

  method ClassifySubject(records: seq<Evidence>, q: Request, p: Policy) returns (r: Result<Judgement>, blockers: seq<Blocker>, ghost f: Features)
    ensures !q.subject.Valid() || q.windowEnd < q.windowStart <==> r.Err?
    ensures r.Err? ==> r.error == InvalidArgument
    ensures r.Ok? ==> IsExtract(f, records, q, p) && r.value == Judge(f, p) && blockers == Raised(f, p)
  {
    f := Features(0, 0, 0, false, {}, false, 0.0, false, false, 0.0, false, false, 0.0, 0.0,
                  false, NOTHING, NOTHING, NOTHING, NOTHING, false, false, false, false);
    if !q.subject.Valid() {
      return Err(InvalidArgument), [], f;
    }
    if q.windowEnd < q.windowStart {
      return Err(InvalidArgument), [], f;
    }
    var features := ExtractFeatures(records, q, p);
    var engine := new RuleEngine();
    engine.AssessRules(features, p);
    return Ok(Judgement(engine.verdict, engine.mechanisms, engine.severity)), engine.blockers, features;
  }
}
