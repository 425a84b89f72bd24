// Every verdict in terms of the records alone: which of them, by their fields, call for which verdict, mechanism and
// severity (src/assessment/classify.cpp:85-151,203-369).
module Verdicts {
  import opened Base
  import opened Model
  import opened Sorting
  import opened Observations
  import opened Readings
  import opened Assessing
  import opened Classifying

  // ---- What the records say ----

  // A record that may decide: of the subject, of the generation asked for if one is, fresh and not unsupported.
  ghost predicate Speaks(r: Evidence, q: Request, p: Policy) {
    && r.subject == q.subject && (q.generation != GenerationVector(0, 0, 0) ==> r.fence.gen == q.generation)
    && IsFresh(r, q.evaluatedAt, p.freshness) && r.support != Support.Unsupported
  }

  ghost function SpeaksBy(q: Request, p: Policy): Evidence -> bool { (r: Evidence) => Speaks(r, q, p) }

  ghost predicate Says(records: seq<Evidence>, q: Request, p: Policy, property: Evidence -> bool) {
    Present(records, SpeaksBy(q, p), property)
  }

  // A positive ratio or amount; a cumulative count says nothing of now.
  predicate Harms(r: Evidence) {
    r.scalar > 0.0 && (r.unit_ in {Packets, Frames, Count, Cells} && r.semantics == CumulativeCounter ==> r.unit_ == Ratio)
  }

  // An amount, or a ratio that reaches the threshold of its kind.
  predicate Decides(r: Evidence, p: Policy) {
    && Harms(r)
    && match r.kind
       case DropCount => r.unit_ == Ratio ==> r.scalar >= p.dropRateThreshold
       case MarkCount => r.unit_ == Ratio ==> r.scalar >= p.markRateThreshold
       case PauseCount => r.unit_ == Ratio ==> r.scalar >= p.pauseRateThreshold
       case RetransmitCount => r.unit_ == Ratio ==> r.scalar >= p.retransmitRateThreshold
       case _ => false
  }

  ghost predicate IsSample(r: Evidence, q: Request, p: Policy) { Speaks(r, q, p) && r.kind == LatencySample && r.scalar > 0.0 }

  // Two positive latency samples lie the factor apart.
  ghost predicate Inflates(records: seq<Evidence>, q: Request, p: Policy) {
    exists i: nat, j: nat :: LieApart(records, i, j, q, p)
  }

  ghost predicate LieApart(records: seq<Evidence>, i: nat, j: nat, q: Request, p: Policy) {
    && i < |records| && j < |records| && i != j
    && IsSample(records[i], q, p) && IsSample(records[j], q, p) && Apart(records[i].scalar, records[j].scalar, p.latencyInflationFactor)
  }

  predicate Apart(low: real, high: real, factor: real) { high >= factor * low }

  // Properties of single records.
  ghost function Deciding(p: Policy): Evidence -> bool { (r: Evidence) => Decides(r, p) }

  ghost function HarmBy(kind: EvidenceKind): Evidence -> bool { (r: Evidence) => r.kind == kind && Harms(r) }

  ghost function RateOver(kind: EvidenceKind, bound: real): Evidence -> bool {
    (r: Evidence) => r.kind == kind && r.unit_ == Ratio && r.scalar >= bound
  }

  ghost function Among(kinds: set<EvidenceKind>): Evidence -> bool { (r: Evidence) => r.kind in kinds }

  ghost function AmongAt(kinds: set<EvidenceKind>, bound: real): Evidence -> bool { (r: Evidence) => r.kind in kinds && r.scalar >= bound }

  ghost function RatioAmong(kinds: set<EvidenceKind>): Evidence -> bool { (r: Evidence) => r.kind in kinds && r.unit_ == Ratio }

  ghost function RatioAmongAt(kinds: set<EvidenceKind>, bound: real): Evidence -> bool {
    (r: Evidence) => r.kind in kinds && r.unit_ == Ratio && r.scalar >= bound
  }

  ghost predicate Congested(records: seq<Evidence>, q: Request, p: Policy) {
    Says(records, q, p, Deciding(p)) || Inflates(records, q, p)
  }

  // A backlog: a ratio at the policy's bound, or one that nobody could put as a ratio.
  ghost predicate Backlogged(records: seq<Evidence>, q: Request, p: Policy) {
    if Says(records, q, p, RatioAmong(BACKLOGS)) then
      p.pressureOccupancyRatio <= 0.0 || Says(records, q, p, RatioAmongAt(BACKLOGS, p.pressureOccupancyRatio))
    else Says(records, q, p, Among(BACKLOGS))
  }

  ghost predicate LoadedAt(records: seq<Evidence>, q: Request, p: Policy, bound: real) {
    Says(records, q, p, AmongAt(LOADS, bound))
  }

  ghost predicate Contends(records: seq<Evidence>, q: Request, p: Policy) {
    Says(records, q, p, Among(CONTENTIONS)) && LoadedAt(records, q, p, p.utilizationAttention)
  }

  ghost predicate Shown(m: Mechanism, records: seq<Evidence>, q: Request, p: Policy) {
    match m
    case PacketDrop => Says(records, q, p, HarmBy(DropCount))
    case EcnMarking => Says(records, q, p, HarmBy(MarkCount))
    case PauseBackpressure => Says(records, q, p, HarmBy(PauseCount))
    case Retransmission => Says(records, q, p, HarmBy(RetransmitCount))
    case LatencyInflation => Inflates(records, q, p)
  }

  // Some ratio is so many times its threshold.
  ghost predicate RateAt(records: seq<Evidence>, q: Request, p: Policy, kind: EvidenceKind, threshold: real, times: real) {
    threshold > 0.0 && Says(records, q, p, RateOver(kind, times * threshold))
  }

  ghost predicate LossAt(records: seq<Evidence>, q: Request, p: Policy, times: real) {
    RateAt(records, q, p, DropCount, p.dropRateThreshold, times) || RateAt(records, q, p, MarkCount, p.markRateThreshold, times)
  }

  ghost function ShownBy(records: seq<Evidence>, q: Request, p: Policy): set<Mechanism> { set m: Mechanism | Shown(m, records, q, p) }

  // How grave it is follows from the rates and from how many mechanisms show.
  ghost function Gravity(records: seq<Evidence>, q: Request, p: Policy): Severity {
    if LossAt(records, q, p, 100.0) || |ShownBy(records, q, p)| >= 3 then Critical
    else if LossAt(records, q, p, 10.0) || |ShownBy(records, q, p)| >= 2 then High
    else Moderate
  }

  // The verdict, its mechanisms and its severity.
  ghost predicate IsVerdict(j: Judgement, records: seq<Evidence>, q: Request, p: Policy) {
    if forall r :: r in records ==> r.subject != q.subject then j == Judgement(NoEvidence, {}, NoSeverity)
    else if forall r :: r in records ==> !Speaks(r, q, p) then j == Judgement(Indeterminate, {}, NoSeverity)
    else if Congested(records, q, p) then j == Judgement(CongestionConfirmed, ShownBy(records, q, p), Gravity(records, q, p))
    else if Saturates(records, SpeaksBy(q, p), p.demandCapacityRatio) then j == Judgement(Saturated, {}, Moderate)
    else if Backlogged(records, q, p) then j == Judgement(PressureObserved, {}, Low)
    else if Contends(records, q, p) then j == Judgement(ContentionObserved, {}, Low)
    else if LoadedAt(records, q, p, p.utilizationHigh) || LoadedAt(records, q, p, p.utilizationAttention) then
      j == Judgement(UtilizedHealthy, {}, Informational)
    else j == Judgement(Idle, {}, NoSeverity)
  }

  // ---- Usable records are those that speak ----

  lemma UsableSpeaks(records: seq<Evidence>, r: Evidence, q: Request, p: Policy)
    ensures r in Usable(records, q, p) <==> r in records && Speaks(r, q, p)
  {
    FilterMember(UsableBy(q, p), records, r);
    FreshExactly(r, q.evaluatedAt, p.freshness);
  }

  lemma UsableSays(records: seq<Evidence>, q: Request, p: Policy, inBucket: Evidence -> bool, property: Evidence -> bool)
    requires forall r :: r in records ==> (inBucket(r) <==> property(r))
    ensures Present(Usable(records, q, p), ALL, inBucket) <==> Says(records, q, p, property)
  {
    if Present(Usable(records, q, p), ALL, inBucket) {
      var r :| r in Usable(records, q, p) && inBucket(r);
      UsableSpeaks(records, r, q, p);
    }
    if Says(records, q, p, property) {
      var r :| r in records && SpeaksBy(q, p)(r) && property(r);
      UsableSpeaks(records, r, q, p);
      assert ALL(r);
    }
  }

  lemma HarmsExactly(r: Evidence)
    ensures ShowsHarm(r) <==> Harms(r)
  {
  }

  lemma DecidesExactly(r: Evidence, p: Policy)
    ensures IsDecisive(r, p) <==> Decides(r, p)
  {
    HarmsExactly(r);
  }

  // ---- Latency ----

  lemma {:induction false} FilterBoth(p: Evidence -> bool, q: Evidence -> bool, both: Evidence -> bool, s: seq<Evidence>)
    requires forall r :: both(r) <==> p(r) && q(r)
    ensures Filter(q, Filter(p, s)) == Filter(both, s)
  {
    if s != [] {
      FilterBoth(p, q, both, s[..|s| - 1]);
      if p(s[|s| - 1]) {
        FilterNext(q, Filter(p, s[..|s| - 1]), s[|s| - 1]);
      }
    }
  }

  // Two of a filtered list stand at two places of the list.
  lemma {:induction false} TwoPlaces(p: Evidence -> bool, s: seq<Evidence>)
    ensures |Filter(p, s)| >= 2 <==> exists i, j :: 0 <= i < j < |s| && p(s[i]) && p(s[j])
  {
    if s != [] {
      var n := |s| - 1;
      TwoPlaces(p, s[..n]);
      OnePlace(p, s[..n]);
      if i, j :| 0 <= i < j < |s| && p(s[i]) && p(s[j]) {
        assert s[..n][i] == s[i];
        if j < n {
          assert s[..n][j] == s[j];
        }
      }
    }
  }

  lemma OnePlace(p: Evidence -> bool, s: seq<Evidence>)
    ensures |Filter(p, s)| >= 1 <==> exists i :: 0 <= i < |s| && p(s[i])
  {
    FilterSome(p, s);
    if i :| 0 <= i < |s| && p(s[i]) {
      assert s[i] in s;
    }
  }

  // A sample that lies the factor from itself lies it from any other, one way or the other.
  lemma ApartAnyway(x: real, y: real, factor: real)
    requires x > 0.0 && y > 0.0 && Apart(x, x, factor)
    ensures Apart(x, y, factor) || Apart(y, x, factor)
  {
    if factor > 1.0 {
      ScaledStrictly(1.0, factor, x);
    } else {
      Scaled(factor, 1.0, y);
      assert factor * y <= y;
      assert if y < x then Apart(y, x, factor) else Apart(x, y, factor);
    }
  }

  lemma SampleOf(records: seq<Evidence>, q: Request, p: Policy, r: Evidence)
    requires r in Usable(records, q, p) && IsLatency(r)
    ensures exists i :: 0 <= i < |records| && records[i] == r && IsSample(records[i], q, p)
  {
    UsableSpeaks(records, r, q, p);
    var i :| 0 <= i < |records| && records[i] == r;
    assert IsSample(records[i], q, p);
  }

  ghost function Samples(q: Request, p: Policy): Evidence -> bool { (r: Evidence) => IsSample(r, q, p) }

  // There are two samples exactly when they stand at two places.
  lemma SamplesCounted(records: seq<Evidence>, q: Request, p: Policy)
    ensures |Filter(LATENCIES, Usable(records, q, p))| >= 2
      <==> exists i, j :: 0 <= i < j < |records| && IsSample(records[i], q, p) && IsSample(records[j], q, p)
  {
    forall r ensures Samples(q, p)(r) <==> UsableBy(q, p)(r) && LATENCIES(r) {
      FreshExactly(r, q.evaluatedAt, p.freshness);
    }
    FilterBoth(UsableBy(q, p), LATENCIES, Samples(q, p), records);
    TwoPlaces(Samples(q, p), records);
  }

  // A sample that lies the factor from itself, and another one.
  lemma OtherSample(records: seq<Evidence>, q: Request, p: Policy, i: nat)
    requires i < |records| && IsSample(records[i], q, p) && Apart(records[i].scalar, records[i].scalar, p.latencyInflationFactor)
    requires |Filter(LATENCIES, Usable(records, q, p))| >= 2
    ensures Inflates(records, q, p)
  {
    SamplesCounted(records, q, p);
    var a, b :| 0 <= a < b < |records| && IsSample(records[a], q, p) && IsSample(records[b], q, p);
    var c: nat := if a == i then b else a;
    ApartAnyway(records[i].scalar, records[c].scalar, p.latencyInflationFactor);
    assert LieApart(records, i, c, q, p) || LieApart(records, c, i, q, p);
  }

  lemma InflatedApart(records: seq<Evidence>, q: Request, p: Policy)
    requires Inflated(Usable(records, q, p), p.latencyInflationFactor)
    ensures Inflates(records, q, p)
  {
    var u := Usable(records, q, p);
    var low, high :| low in u && high in u && IsLatency(low) && IsLatency(high) && high.scalar >= p.latencyInflationFactor * low.scalar;
    assert Apart(low.scalar, high.scalar, p.latencyInflationFactor);
    SampleOf(records, q, p, low);
    SampleOf(records, q, p, high);
    var i: nat :| i < |records| && records[i] == low && IsSample(records[i], q, p);
    var j: nat :| j < |records| && records[j] == high && IsSample(records[j], q, p);
    if i != j {
      assert LieApart(records, i, j, q, p);
    } else {
      OtherSample(records, q, p, i);
    }
  }

  lemma ApartInflates(records: seq<Evidence>, q: Request, p: Policy, i: nat, j: nat)
    requires LieApart(records, i, j, q, p)
    ensures Inflated(Usable(records, q, p), p.latencyInflationFactor)
  {
    SamplesCounted(records, q, p);
    var a: nat, b: nat := if i < j then i else j, if i < j then j else i;
    assert 0 <= a < b < |records| && IsSample(records[a], q, p) && IsSample(records[b], q, p);
    UsableSpeaks(records, records[i], q, p);
    UsableSpeaks(records, records[j], q, p);
    assert IsLatency(records[i]) && IsLatency(records[j]);
  }

  lemma InflatesExactly(records: seq<Evidence>, q: Request, p: Policy)
    ensures Inflated(Usable(records, q, p), p.latencyInflationFactor) <==> Inflates(records, q, p)
  {
    if Inflated(Usable(records, q, p), p.latencyInflationFactor) {
      InflatedApart(records, q, p);
    }
    if i: nat, j: nat :| LieApart(records, i, j, q, p) {
      ApartInflates(records, q, p, i, j);
    }
  }

  // ---- What the features come to ----

  lemma CongestedExactly(f: Features, records: seq<Evidence>, q: Request, p: Policy)
    requires IsHarm(f, Usable(records, q, p), p)
    ensures ImpairmentIsDecisive(f, p) <==> Congested(records, q, p)
  {
    var u := Usable(records, q, p);
    ImpairmentDecides(f, u, p);
    InflatesExactly(records, q, p);
    DecisiveSays(records, q, p);
  }

  lemma DecisiveSays(records: seq<Evidence>, q: Request, p: Policy)
    ensures (exists r :: r in Usable(records, q, p) && IsDecisive(r, p)) <==> Says(records, q, p, Deciding(p))
  {
    forall r ensures IsDecisive(r, p) <==> Deciding(p)(r) {
      DecidesExactly(r, p);
    }
    UsableSays(records, q, p, (r: Evidence) => IsDecisive(r, p), Deciding(p));
    if r :| r in Usable(records, q, p) && IsDecisive(r, p) {
      assert ALL(r);
    }
  }

  lemma SaturatesUsable(records: seq<Evidence>, q: Request, p: Policy)
    ensures Saturates(Usable(records, q, p), ALL, p.demandCapacityRatio) <==> Saturates(records, SpeaksBy(q, p), p.demandCapacityRatio)
  {
    forall r, kind ensures IsGreatest(r, Usable(records, q, p), ALL, kind) <==> IsGreatest(r, records, SpeaksBy(q, p), kind) {
      GreatestUsable(records, q, p, r, kind);
    }
  }

  lemma GreatestUsable(records: seq<Evidence>, q: Request, p: Policy, r: Evidence, kind: EvidenceKind)
    ensures IsGreatest(r, Usable(records, q, p), ALL, kind) <==> IsGreatest(r, records, SpeaksBy(q, p), kind)
  {
    forall x ensures x in Usable(records, q, p) && ALL(x) <==> x in records && SpeaksBy(q, p)(x) {
      UsableSpeaks(records, x, q, p);
    }
  }

  lemma LargestPeak(m: real, u: seq<Evidence>, property: Evidence -> bool)
    requires IsLargest(m, u, property)
    ensures IsPeak(if m > 0.0 then m else 0.0, u, ALL, property)
  {
    if m > 0.0 {
      var r :| r in u && property(r) && r.scalar == m;
      assert ALL(r);
    } else {
      forall r | r in u && property(r) ensures r.scalar <= 0.0 {
        assert ALL(r);
      }
    }
  }

  lemma SaturatedUsable(f: Features, u: seq<Evidence>, p: Policy)
    requires IsDemandSide(f, u)
    ensures DemandMeetsCapacity(f, p) <==> Saturates(u, ALL, p.demandCapacityRatio)
  {
    var capacity := if f.capacity > 0.0 then f.capacity else 0.0;
    LargestPeak(f.capacity, u, OfRole(Capacity));
    forall r | r in u ensures OfRole(Capacity)(r) <==> r.kind == CapacityAdvertisement {
      RolesExactly(r.kind);
    }
    PeaksSaturate(f.offered, capacity, u, ALL, OFFERED, OfRole(Capacity), p.demandCapacityRatio);
    if f.offered > 0.0 {
      OfferIsDemand(f, u);
    }
  }

  lemma SaturatedExactly(f: Features, records: seq<Evidence>, q: Request, p: Policy)
    requires IsDemandSide(f, Usable(records, q, p))
    ensures DemandMeetsCapacity(f, p) <==> Saturates(records, SpeaksBy(q, p), p.demandCapacityRatio)
  {
    SaturatedUsable(f, Usable(records, q, p), p);
    SaturatesUsable(records, q, p);
  }

  lemma OfferIsDemand(f: Features, u: seq<Evidence>)
    requires IsDemandSide(f, u) && f.offered > 0.0
    ensures f.demandPresent
  {
    var r :| r in u && ALL(r) && OFFERED(r) && r.scalar == f.offered;
    RolesExactly(r.kind);
    assert OfRole(Demand)(r);
  }

  lemma BackloggedExactly(f: Features, records: seq<Evidence>, q: Request, p: Policy)
    requires IsLoad(f, Usable(records, q, p))
    ensures BacklogMeaningful(f, p) <==> Backlogged(records, q, p)
    ensures f.pressurePresent <==> Says(records, q, p, Among(BACKLOGS))
  {
    var u := Usable(records, q, p);
    forall r ensures OfRole(Pressure)(r) <==> r.kind in BACKLOGS {
      RolesExactly(r.kind);
    }
    UsableSays(records, q, p, OfRole(Pressure), Among(BACKLOGS));
    UsableSays(records, q, p, PRESSURE_RATIO, RatioAmong(BACKLOGS));
    PeakReaches(f.pressureRatio, u, PRESSURE_RATIO, p.pressureOccupancyRatio);
    UsableSays(records, q, p, Reaching(PRESSURE_RATIO, p.pressureOccupancyRatio),
               RatioAmongAt(BACKLOGS, p.pressureOccupancyRatio));
    if f.ratioAvailable {
      var r :| r in u && ALL(r) && PRESSURE_RATIO(r);
      assert OfRole(Pressure)(r);
    }
  }

  ghost function Reaching(property: Evidence -> bool, bound: real): Evidence -> bool { (r: Evidence) => property(r) && r.scalar >= bound }

  lemma PeakReaches(m: real, u: seq<Evidence>, property: Evidence -> bool, bound: real)
    requires IsPeak(m, u, ALL, property)
    ensures m >= bound <==> bound <= 0.0 || Present(u, ALL, Reaching(property, bound))
  {
    if m >= bound > 0.0 {
      var r :| r in u && ALL(r) && property(r) && r.scalar == m;
      assert Reaching(property, bound)(r);
    }
  }

  lemma LargestReaches(m: real, u: seq<Evidence>, property: Evidence -> bool, bound: real)
    requires IsLargest(m, u, property) && Present(u, ALL, property)
    ensures m >= bound <==> Present(u, ALL, Reaching(property, bound))
  {
    if m >= bound {
      var r :| r in u && property(r) && r.scalar == m;
      assert ALL(r) && Reaching(property, bound)(r);
    }
  }

  lemma ReachingPresent(u: seq<Evidence>, property: Evidence -> bool, bound: real)
    ensures Present(u, ALL, Reaching(property, bound)) ==> Present(u, ALL, property)
  {
    if r :| r in u && ALL(r) && Reaching(property, bound)(r) {
      assert property(r);
    }
  }

  lemma LoadedExactly(f: Features, records: seq<Evidence>, q: Request, p: Policy, bound: real)
    requires IsLoad(f, Usable(records, q, p))
    ensures f.utilizationPresent && f.utilization >= bound <==> LoadedAt(records, q, p, bound)
  {
    var u := Usable(records, q, p);
    forall r ensures OfRole(Utilization)(r) <==> r.kind in LOADS {
      RolesExactly(r.kind);
    }
    UsableSays(records, q, p, Reaching(OfRole(Utilization), bound), AmongAt(LOADS, bound));
    if f.utilizationPresent {
      LargestReaches(f.utilization, u, OfRole(Utilization), bound);
    }
    ReachingPresent(u, OfRole(Utilization), bound);
  }

  lemma ContendedExactly(f: Features, records: seq<Evidence>, q: Request, p: Policy)
    requires IsLoad(f, Usable(records, q, p)) && IsDemandSide(f, Usable(records, q, p))
    ensures Contended(f, p) <==> Contends(records, q, p)
  {
    forall r ensures OfRole(Contention)(r) <==> r.kind in CONTENTIONS {
      RolesExactly(r.kind);
    }
    UsableSays(records, q, p, OfRole(Contention), Among(CONTENTIONS));
    LoadedExactly(f, records, q, p, p.utilizationAttention);
  }

  // ---- Mechanisms and severity ----

  lemma HarmShown(o: RateObservation, records: seq<Evidence>, q: Request, p: Policy, kind: EvidenceKind)
    requires IsRate(o, Usable(records, q, p), kind)
    ensures o.observed <==> Says(records, q, p, HarmBy(kind))
  {
    forall r ensures HarmOf(kind)(r) <==> HarmBy(kind)(r) {
      HarmsExactly(r);
    }
    UsableSays(records, q, p, HarmOf(kind), HarmBy(kind));
  }

  lemma ShownExactly(f: Features, records: seq<Evidence>, q: Request, p: Policy, m: Mechanism)
    requires IsHarm(f, Usable(records, q, p), p)
    ensures m in Mechanisms(f) <==> Shown(m, records, q, p)
  {
    MechanismsMembers(f);
    match m {
      case PacketDrop => HarmShown(f.drops, records, q, p, DropCount);
      case EcnMarking => HarmShown(f.marks, records, q, p, MarkCount);
      case PauseBackpressure => HarmShown(f.pauses, records, q, p, PauseCount);
      case Retransmission => HarmShown(f.retransmits, records, q, p, RetransmitCount);
      case LatencyInflation => InflatesExactly(records, q, p);
    }
  }

  lemma MechanismsExactly(f: Features, records: seq<Evidence>, q: Request, p: Policy)
    requires IsHarm(f, Usable(records, q, p), p)
    ensures Mechanisms(f) == ShownBy(records, q, p)
  {
    forall m: Mechanism ensures m in Mechanisms(f) <==> Shown(m, records, q, p) {
      ShownExactly(f, records, q, p, m);
    }
  }

  lemma MechanismsMembers(f: Features)
    ensures PacketDrop in Mechanisms(f) <==> f.drops.observed
    ensures EcnMarking in Mechanisms(f) <==> f.marks.observed
    ensures PauseBackpressure in Mechanisms(f) <==> f.pauses.observed
    ensures Retransmission in Mechanisms(f) <==> f.retransmits.observed
    ensures LatencyInflation in Mechanisms(f) <==> f.inflated
  {
  }

  lemma TimesExactly(rate: real, threshold: real, times: real)
    requires times > 0.0
    ensures Times(rate, threshold) >= times <==> threshold > 0.0 && Covers(rate, threshold, times)
  {
    if threshold > 0.0 {
      Quotient(rate, threshold, times);
    }
  }

  lemma Positive(x: real, y: real)
    requires x > 0.0 && y > 0.0
    ensures x * y > 0.0
  {
  }

  lemma RateSays(o: RateObservation, records: seq<Evidence>, q: Request, p: Policy, kind: EvidenceKind, bound: real)
    requires IsRate(o, Usable(records, q, p), kind) && bound > 0.0
    ensures o.rate >= bound <==> Says(records, q, p, RateOver(kind, bound))
  {
    PeakReaches(o.rate, Usable(records, q, p), RatioOf(kind), bound);
    UsableSays(records, q, p, Reaching(RatioOf(kind), bound), RateOver(kind, bound));
  }

  lemma RateReaches(o: RateObservation, records: seq<Evidence>, q: Request, p: Policy, kind: EvidenceKind, threshold: real, times: real)
    requires IsRate(o, Usable(records, q, p), kind) && times > 0.0
    ensures Times(o.rate, threshold) >= times <==> RateAt(records, q, p, kind, threshold, times)
  {
    TimesExactly(o.rate, threshold, times);
    if threshold > 0.0 {
      Positive(times, threshold);
      RateSays(o, records, q, p, kind, times * threshold);
    }
  }

  lemma LargerReaches(x: real, y: real, bound: real)
    ensures Larger(x, y) >= bound <==> x >= bound || y >= bound
  {
  }

  lemma RatesReach(drops: RateObservation, marks: RateObservation, records: seq<Evidence>, q: Request, p: Policy, times: real)
    requires IsRate(drops, Usable(records, q, p), DropCount) && IsRate(marks, Usable(records, q, p), MarkCount) && times > 0.0
    ensures Larger(Times(drops.rate, p.dropRateThreshold), Times(marks.rate, p.markRateThreshold)) >= times <==> LossAt(records, q, p, times)
  {
    RateReaches(drops, records, q, p, DropCount, p.dropRateThreshold, times);
    RateReaches(marks, records, q, p, MarkCount, p.markRateThreshold, times);
    LargerReaches(Times(drops.rate, p.dropRateThreshold), Times(marks.rate, p.markRateThreshold), times);
  }

  lemma GravityAs(f: Features, records: seq<Evidence>, q: Request, p: Policy, worst: real)
    requires worst == Larger(Times(f.drops.rate, p.dropRateThreshold), Times(f.marks.rate, p.markRateThreshold))
    requires (worst >= 100.0 <==> LossAt(records, q, p, 100.0)) && (worst >= 10.0 <==> LossAt(records, q, p, 10.0))
    requires Mechanisms(f) == ShownBy(records, q, p)
    ensures SeverityForRates(f, p) == Gravity(records, q, p)
  {
  }

  lemma GravityExactly(f: Features, records: seq<Evidence>, q: Request, p: Policy)
    requires IsHarm(f, Usable(records, q, p), p)
    ensures SeverityForRates(f, p) == Gravity(records, q, p)
  {
    var worst := Larger(Times(f.drops.rate, p.dropRateThreshold), Times(f.marks.rate, p.markRateThreshold));
    assert worst >= 100.0 <==> LossAt(records, q, p, 100.0) by { RatesReach(f.drops, f.marks, records, q, p, 100.0); }
    assert worst >= 10.0 <==> LossAt(records, q, p, 10.0) by { RatesReach(f.drops, f.marks, records, q, p, 10.0); }
    MechanismsExactly(f, records, q, p);
    GravityAs(f, records, q, p, worst);
  }

  // ---- The verdict ----

  lemma FreshVerdict(f: Features, records: seq<Evidence>, q: Request, p: Policy)
    requires IsExtract(f, records, q, p) && exists r :: r in records && Speaks(r, q, p)
    ensures IsVerdict(JudgeFresh(f, p), records, q, p)
  {
    CongestedExactly(f, records, q, p);
    MechanismsExactly(f, records, q, p);
    GravityExactly(f, records, q, p);
    SaturatedExactly(f, records, q, p);
    BackloggedExactly(f, records, q, p);
    ContendedExactly(f, records, q, p);
    LoadedExactly(f, records, q, p, p.utilizationHigh);
    LoadedExactly(f, records, q, p, p.utilizationAttention);
  }

  lemma SilentVerdict(f: Features, records: seq<Evidence>, q: Request, p: Policy)
    requires IsExtract(f, records, q, p) && Usable(records, q, p) == []
    ensures Judge(f, p) == if f.inWindow == 0 then Judgement(NoEvidence, {}, NoSeverity) else Judgement(Indeterminate, {}, NoSeverity)
  {
    FreshCounts(f, records, q, p);
  }

  lemma SomeSpeaks(records: seq<Evidence>, q: Request, p: Policy)
    ensures Usable(records, q, p) != [] <==> exists r :: r in records && Speaks(r, q, p)
  {
    var u := Usable(records, q, p);
    if u != [] {
      UsableSpeaks(records, u[0], q, p);
    }
    if r :| r in records && Speaks(r, q, p) {
      UsableSpeaks(records, r, q, p);
    }
  }

  // The verdict, the mechanisms and the severity, for any records at all.
  lemma VerdictExactly(f: Features, records: seq<Evidence>, q: Request, p: Policy)
    requires IsExtract(f, records, q, p)
    ensures IsVerdict(Judge(f, p), records, q, p)
  {
    SomeSpeaks(records, q, p);
    if Usable(records, q, p) != [] {
      JudgeByUsable(f, records, q, p);
      FreshVerdict(f, records, q, p);
    } else {
      SilentVerdict(f, records, q, p);
      FilterSome(OfSubject(q), records);
      assert f.inWindow == 0 <==> forall r :: r in records ==> r.subject != q.subject;
    }
  }

  // ---- What stood in the way ----

  ghost predicate OfGeneration(r: Evidence, q: Request) { q.generation != GenerationVector(0, 0, 0) ==> r.fence.gen == q.generation }

  // A record of the subject and the generation that may not decide.
  ghost predicate Muted(r: Evidence, q: Request, p: Policy) { r.subject == q.subject && OfGeneration(r, q) && !Speaks(r, q, p) }

  ghost function MutedBy(q: Request, p: Policy): Evidence -> bool { (r: Evidence) => Muted(r, q, p) }

  ghost predicate Mutes(records: seq<Evidence>, q: Request, p: Policy, kinds: set<EvidenceKind>) {
    Present(records, MutedBy(q, p), Among(kinds))
  }

  ghost predicate Silent(records: seq<Evidence>, q: Request, p: Policy) { forall r :: r in records ==> !Speaks(r, q, p) }

  // Nothing may decide, though some records are of the generation and some are supported.
  ghost predicate Unheard(records: seq<Evidence>, q: Request, p: Policy) {
    && Silent(records, q, p)
    && (exists r :: r in records && r.subject == q.subject && OfGeneration(r, q))
    && (exists r :: r in records && r.subject == q.subject && r.support != Support.Unsupported)
  }

  // A cumulative count of harm.
  ghost function CountsHarm(): Evidence -> bool {
    (r: Evidence) => r.kind in {DropCount, MarkCount, PauseCount, RetransmitCount} && r.unit_ in {Packets, Frames, Count, Cells}
                     && r.semantics == CumulativeCounter
  }

  ghost predicate HarmsWithout(records: seq<Evidence>, q: Request, p: Policy) {
    Says(records, q, p, Among(HARMS)) && !Congested(records, q, p)
  }

  // Nothing stronger than load is left to look at.
  ghost predicate OnlyLoad(records: seq<Evidence>, q: Request, p: Policy) {
    && !Silent(records, q, p) && !Congested(records, q, p)
    && !Saturates(records, SpeaksBy(q, p), p.demandCapacityRatio) && !Backlogged(records, q, p)
  }

  ghost predicate Blocks(code: Blocker, records: seq<Evidence>, q: Request, p: Policy) {
    match code
    case AbsenceOfEvidence => forall r :: r in records ==> r.subject != q.subject
    case GenerationMismatch => exists r :: r in records && r.subject == q.subject && !OfGeneration(r, q)
    case UnsupportedEvidence =>
      && (exists r :: r in records && r.subject == q.subject && r.support == Support.Unsupported)
      && (exists r :: r in records && r.subject == q.subject && OfGeneration(r, q))
    case StaleImpairment => Unheard(records, q, p) && Mutes(records, q, p, HARMS)
    case StalePressure =>
      Mutes(records, q, p, BACKLOGS) && ((Unheard(records, q, p) && !Mutes(records, q, p, HARMS)) || OnlyLoad(records, q, p))
    case UnknownFreshness =>
      Unheard(records, q, p) && !Mutes(records, q, p, HARMS + BACKLOGS) && Mutes(records, q, p, LOADS + DEMANDS + CONTENTIONS)
    case NoFreshEvidence => Unheard(records, q, p) && !Mutes(records, q, p, HARMS + BACKLOGS + LOADS + DEMANDS + CONTENTIONS)
    case CounterWithoutDelta => HarmsWithout(records, q, p) && Says(records, q, p, CountsHarm())
    case BelowThreshold => HarmsWithout(records, q, p) && !Says(records, q, p, CountsHarm())
    case BacklogBelow => OnlyLoad(records, q, p) && Says(records, q, p, Among(BACKLOGS))
    case UtilizationAlone =>
      OnlyLoad(records, q, p) && !Contends(records, q, p)
      && (LoadedAt(records, q, p, p.utilizationHigh) || LoadedAt(records, q, p, p.utilizationAttention))
  }

  lemma MutedExactly(records: seq<Evidence>, q: Request, p: Policy, role: Evidence -> bool, kinds: set<EvidenceKind>)
    requires forall r :: role(r) <==> r.kind in kinds
    ensures Present(records, UnusableBy(q, p), role) <==> Mutes(records, q, p, kinds)
  {
    forall r ensures UnusableBy(q, p)(r) <==> MutedBy(q, p)(r) {
      FreshExactly(r, q.evaluatedAt, p.freshness);
    }
    if r :| r in records && UnusableBy(q, p)(r) && role(r) {
      assert MutedBy(q, p)(r) && Among(kinds)(r);
    }
    if r :| r in records && MutedBy(q, p)(r) && Among(kinds)(r) {
      assert UnusableBy(q, p)(r) && role(r);
    }
  }

  lemma MutesMore(records: seq<Evidence>, q: Request, p: Policy, a: set<EvidenceKind>, b: set<EvidenceKind>)
    ensures Mutes(records, q, p, a + b) <==> Mutes(records, q, p, a) || Mutes(records, q, p, b)
  {
    if r :| r in records && MutedBy(q, p)(r) && Among(a + b)(r) {
      assert Among(a)(r) || Among(b)(r);
    }
    if r :| r in records && MutedBy(q, p)(r) && (Among(a)(r) || Among(b)(r)) {
      assert Among(a + b)(r);
    }
  }

  lemma StaleExactly(f: Features, records: seq<Evidence>, q: Request, p: Policy)
    requires IsStale(f.staleImpairment, f.stalePressure, f.staleLoad, records, UnusableBy(q, p))
    ensures f.staleImpairment <==> Mutes(records, q, p, HARMS)
    ensures f.stalePressure <==> Mutes(records, q, p, BACKLOGS)
    ensures f.staleLoad <==> Mutes(records, q, p, LOADS + DEMANDS + CONTENTIONS)
  {
    forall r ensures (OfRole(Impairment)(r) <==> r.kind in HARMS) && (OfRole(Pressure)(r) <==> r.kind in BACKLOGS)
                     && (LOADING(r) <==> r.kind in LOADS + DEMANDS + CONTENTIONS) {
      RolesExactly(r.kind);
    }
    MutedExactly(records, q, p, OfRole(Impairment), HARMS);
    MutedExactly(records, q, p, OfRole(Pressure), BACKLOGS);
    MutedExactly(records, q, p, LOADING, LOADS + DEMANDS + CONTENTIONS);
  }

  lemma LifetimeSays(o: RateObservation, records: seq<Evidence>, q: Request, p: Policy, kind: EvidenceKind)
    requires IsRate(o, Usable(records, q, p), kind)
    ensures o.lifetimeOnly <==> Says(records, q, p, LifetimeOf(kind))
  {
    UsableSays(records, q, p, LifetimeOf(kind), LifetimeOf(kind));
  }

  lemma LifetimeExactly(f: Features, records: seq<Evidence>, q: Request, p: Policy)
    requires IsHarm(f, Usable(records, q, p), p)
    ensures LifetimeOnly(f) <==> Says(records, q, p, CountsHarm())
    ensures f.impairmentPresent <==> Says(records, q, p, Among(HARMS))
  {
    LifetimeSays(f.drops, records, q, p, DropCount);
    LifetimeSays(f.marks, records, q, p, MarkCount);
    LifetimeSays(f.pauses, records, q, p, PauseCount);
    LifetimeSays(f.retransmits, records, q, p, RetransmitCount);
    CountedHarm(records, q, p);
    forall r ensures OfRole(Impairment)(r) <==> Among(HARMS)(r) {
      RolesExactly(r.kind);
    }
    UsableSays(records, q, p, OfRole(Impairment), Among(HARMS));
  }

  lemma CountedHarm(records: seq<Evidence>, q: Request, p: Policy)
    ensures Says(records, q, p, CountsHarm())
      <==> Says(records, q, p, LifetimeOf(DropCount)) || Says(records, q, p, LifetimeOf(MarkCount))
           || Says(records, q, p, LifetimeOf(PauseCount)) || Says(records, q, p, LifetimeOf(RetransmitCount))
  {
    if r :| r in records && SpeaksBy(q, p)(r) && CountsHarm()(r) {
      assert LifetimeOf(r.kind)(r);
    }
    forall kind | kind in {DropCount, MarkCount, PauseCount, RetransmitCount} && Says(records, q, p, LifetimeOf(kind))
      ensures Says(records, q, p, CountsHarm())
    {
      var r :| r in records && SpeaksBy(q, p)(r) && LifetimeOf(kind)(r);
      assert CountsHarm()(r);
    }
  }

  // The counts that the early rules compare.
  lemma CountsExactly(f: Features, records: seq<Evidence>, q: Request, p: Policy)
    requires IsCounts(f, records, q)
    ensures f.inWindow == 0 <==> forall r :: r in records ==> r.subject != q.subject
    ensures f.mismatched > 0 <==> exists r :: r in records && r.subject == q.subject && !OfGeneration(r, q)
    ensures f.mismatched != f.inWindow <==> exists r :: r in records && r.subject == q.subject && OfGeneration(r, q)
    ensures f.unsupported > 0 <==> exists r :: r in records && r.subject == q.subject && r.support == Support.Unsupported
    ensures f.unsupported != f.inWindow <==> exists r :: r in records && r.subject == q.subject && r.support != Support.Unsupported
    ensures f.inWindow == 0 ==> f.mismatched == 0 && f.unsupported == 0
  {
    FilterSome(OfSubject(q), records);
    FilterSome(Foreign(q), records);
    FilterSome(Refused(q), records);
    FilterNotAll(OfSubject(q), Foreign(q), records);
    FilterNotAll(OfSubject(q), Refused(q), records);
    ForeignExactly(records, q);
  }

  lemma ForeignExactly(records: seq<Evidence>, q: Request)
    ensures forall r :: Foreign(q)(r) <==> r.subject == q.subject && !OfGeneration(r, q)
  {
  }

  // The stage that the rules reach, read off the features.
  predicate NothingHeard(f: Features) { f.inWindow != 0 && f.mismatched != f.inWindow && f.unsupported != f.inWindow && !f.anyFresh }

  predicate LoadLeft(f: Features, p: Policy) {
    f.anyFresh && !ImpairmentIsDecisive(f, p) && !DemandMeetsCapacity(f, p) && !BacklogMeaningful(f, p)
  }

  lemma HeardExactly(f: Features, records: seq<Evidence>, q: Request, p: Policy)
    requires IsExtract(f, records, q, p)
    ensures f.anyFresh <==> !Silent(records, q, p)
    ensures f.anyFresh ==> f.inWindow != 0 && f.mismatched != f.inWindow && f.unsupported != f.inWindow
  {
    SomeSpeaks(records, q, p);
    FreshCounts(f, records, q, p);
  }

  lemma NothingHeardExactly(f: Features, records: seq<Evidence>, q: Request, p: Policy)
    requires IsCounts(f, records, q) && (f.anyFresh <==> !Silent(records, q, p))
    ensures NothingHeard(f) <==> Unheard(records, q, p)
  {
    CountsExactly(f, records, q, p);
  }

  lemma LoadLeftExactly(f: Features, records: seq<Evidence>, q: Request, p: Policy)
    requires IsExtract(f, records, q, p)
    ensures LoadLeft(f, p) <==> OnlyLoad(records, q, p)
  {
    HeardExactly(f, records, q, p);
    CongestedExactly(f, records, q, p);
    SaturatedExactly(f, records, q, p);
    BackloggedExactly(f, records, q, p);
  }

  // When the rules raise what, by the stage they reach.
  lemma FreshnessRaised(f: Features, p: Policy, code: Blocker)
    requires f.anyFresh ==> f.inWindow != 0 && f.mismatched != f.inWindow && f.unsupported != f.inWindow
    requires code in {StaleImpairment, Blocker.UnknownFreshness, NoFreshEvidence}
    ensures code in Raised(f, p) <==> NothingHeard(f) && code == WhyNotFresh(f)
  {
    EarlyRaises(f, p, code);
    FreshRaises(f, p, code);
    LoadRaises(f, p, code);
  }

  lemma StalePressureRaised(f: Features, p: Policy)
    requires f.anyFresh ==> f.inWindow != 0 && f.mismatched != f.inWindow && f.unsupported != f.inWindow
    ensures StalePressure in Raised(f, p) <==> (NothingHeard(f) && WhyNotFresh(f) == StalePressure) || (LoadLeft(f, p) && f.stalePressure)
  {
    EarlyRaises(f, p, StalePressure);
    FreshRaises(f, p, StalePressure);
    LoadRaises(f, p, StalePressure);
  }

  lemma LoadRaised(f: Features, p: Policy, code: Blocker)
    requires f.anyFresh ==> f.inWindow != 0 && f.mismatched != f.inWindow && f.unsupported != f.inWindow
    requires code in {BacklogBelow, UtilizationAlone}
    ensures code in Raised(f, p) <==> LoadLeft(f, p) && if code == BacklogBelow then f.pressurePresent else !Contended(f, p) && Busy(f, p)
  {
    EarlyRaises(f, p, code);
    FreshRaises(f, p, code);
    LoadRaises(f, p, code);
  }

  lemma HarmRaisedAs(f: Features, p: Policy, code: Blocker)
    requires f.anyFresh ==> f.inWindow != 0 && f.mismatched != f.inWindow && f.unsupported != f.inWindow
    requires f.impairmentPresent ==> f.anyFresh
    requires code in {CounterWithoutDelta, BelowThreshold}
    ensures code in Raised(f, p) <==> f.impairmentPresent && !ImpairmentIsDecisive(f, p) && code == WhyNotDecisive(f)
  {
    EarlyRaises(f, p, code);
    FreshRaises(f, p, code);
    LoadRaises(f, p, code);
  }

  // The stale records of each side, and of all of them together.
  ghost predicate StaleAs(f: Features, records: seq<Evidence>, q: Request, p: Policy) {
    && (f.staleImpairment <==> Mutes(records, q, p, HARMS))
    && (f.stalePressure <==> Mutes(records, q, p, BACKLOGS))
    && (f.staleLoad <==> Mutes(records, q, p, LOADS + DEMANDS + CONTENTIONS))
    && (f.staleImpairment || f.stalePressure <==> Mutes(records, q, p, HARMS + BACKLOGS))
    && (f.staleImpairment || f.stalePressure || f.staleLoad <==> Mutes(records, q, p, HARMS + BACKLOGS + LOADS + DEMANDS + CONTENTIONS))
  }

  lemma StaleTogether(f: Features, records: seq<Evidence>, q: Request, p: Policy)
    requires IsStale(f.staleImpairment, f.stalePressure, f.staleLoad, records, UnusableBy(q, p))
    ensures StaleAs(f, records, q, p)
  {
    StaleExactly(f, records, q, p);
    MutesMore(records, q, p, HARMS, BACKLOGS);
    MutesMore(records, q, p, HARMS + BACKLOGS, LOADS + DEMANDS + CONTENTIONS);
    assert HARMS + BACKLOGS + LOADS + DEMANDS + CONTENTIONS == (HARMS + BACKLOGS) + (LOADS + DEMANDS + CONTENTIONS);
  }

  lemma StaleImpairmentAs(f: Features, records: seq<Evidence>, q: Request, p: Policy)
    requires (f.staleImpairment <==> Mutes(records, q, p, HARMS)) && (NothingHeard(f) <==> Unheard(records, q, p))
    ensures NothingHeard(f) && WhyNotFresh(f) == StaleImpairment <==> Blocks(StaleImpairment, records, q, p)
  {
  }

  lemma UnknownFreshnessAs(f: Features, records: seq<Evidence>, q: Request, p: Policy)
    requires f.staleImpairment || f.stalePressure <==> Mutes(records, q, p, HARMS + BACKLOGS)
    requires (f.staleLoad <==> Mutes(records, q, p, LOADS + DEMANDS + CONTENTIONS)) && (NothingHeard(f) <==> Unheard(records, q, p))
    ensures NothingHeard(f) && WhyNotFresh(f) == Blocker.UnknownFreshness <==> Blocks(Blocker.UnknownFreshness, records, q, p)
  {
  }

  lemma NoFreshEvidenceAs(f: Features, records: seq<Evidence>, q: Request, p: Policy)
    requires f.staleImpairment || f.stalePressure || f.staleLoad <==> Mutes(records, q, p, HARMS + BACKLOGS + LOADS + DEMANDS + CONTENTIONS)
    requires NothingHeard(f) <==> Unheard(records, q, p)
    ensures NothingHeard(f) && WhyNotFresh(f) == NoFreshEvidence <==> Blocks(NoFreshEvidence, records, q, p)
  {
  }

  lemma StalePressureAs(f: Features, records: seq<Evidence>, q: Request, p: Policy)
    requires (f.staleImpairment <==> Mutes(records, q, p, HARMS)) && (f.stalePressure <==> Mutes(records, q, p, BACKLOGS))
    requires (NothingHeard(f) <==> Unheard(records, q, p)) && (LoadLeft(f, p) <==> OnlyLoad(records, q, p))
    ensures (NothingHeard(f) && WhyNotFresh(f) == StalePressure) || (LoadLeft(f, p) && f.stalePressure) <==> Blocks(StalePressure, records, q, p)
  {
  }

  lemma BusyExactly(f: Features, records: seq<Evidence>, q: Request, p: Policy)
    requires IsLoad(f, Usable(records, q, p)) && IsDemandSide(f, Usable(records, q, p))
    ensures !Contended(f, p) && Busy(f, p)
      <==> !Contends(records, q, p) && (LoadedAt(records, q, p, p.utilizationHigh) || LoadedAt(records, q, p, p.utilizationAttention))
  {
    ContendedExactly(f, records, q, p);
    LoadedExactly(f, records, q, p, p.utilizationHigh);
    LoadedExactly(f, records, q, p, p.utilizationAttention);
  }

  // The features as far as the blockers look at them.
  ghost predicate Stages(f: Features, records: seq<Evidence>, q: Request, p: Policy) {
    && (f.anyFresh ==> f.inWindow != 0 && f.mismatched != f.inWindow && f.unsupported != f.inWindow)
    && (f.impairmentPresent ==> f.anyFresh)
    && (NothingHeard(f) <==> Unheard(records, q, p)) && (LoadLeft(f, p) <==> OnlyLoad(records, q, p))
    && (ImpairmentIsDecisive(f, p) <==> Congested(records, q, p))
  }

  ghost predicate Sides(f: Features, records: seq<Evidence>, q: Request, p: Policy) {
    && (f.pressurePresent <==> Says(records, q, p, Among(BACKLOGS)))
    && (f.impairmentPresent <==> Says(records, q, p, Among(HARMS))) && (LifetimeOnly(f) <==> Says(records, q, p, CountsHarm()))
    && (!Contended(f, p) && Busy(f, p)
        <==> !Contends(records, q, p) && (LoadedAt(records, q, p, p.utilizationHigh) || LoadedAt(records, q, p, p.utilizationAttention)))
  }

  lemma StagesExactly(f: Features, records: seq<Evidence>, q: Request, p: Policy)
    requires IsExtract(f, records, q, p)
    ensures Stages(f, records, q, p)
  {
    HeardExactly(f, records, q, p);
    FreshCounts(f, records, q, p);
    NothingHeardExactly(f, records, q, p);
    LoadLeftExactly(f, records, q, p);
    CongestedExactly(f, records, q, p);
  }

  lemma SidesExactly(f: Features, records: seq<Evidence>, q: Request, p: Policy)
    requires IsExtract(f, records, q, p)
    ensures Sides(f, records, q, p)
  {
    BackloggedExactly(f, records, q, p);
    LifetimeExactly(f, records, q, p);
    BusyExactly(f, records, q, p);
  }

  lemma FreshnessBlocks(f: Features, records: seq<Evidence>, q: Request, p: Policy, code: Blocker)
    requires Stages(f, records, q, p) && StaleAs(f, records, q, p)
    requires code in {StaleImpairment, StalePressure, Blocker.UnknownFreshness, NoFreshEvidence}
    ensures code in Raised(f, p) <==> Blocks(code, records, q, p)
  {
    if code == StalePressure {
      StalePressureRaised(f, p);
      StalePressureAs(f, records, q, p);
    } else {
      FreshnessRaised(f, p, code);
      StaleImpairmentAs(f, records, q, p);
      UnknownFreshnessAs(f, records, q, p);
      NoFreshEvidenceAs(f, records, q, p);
    }
  }

  lemma LoadBlocks(f: Features, records: seq<Evidence>, q: Request, p: Policy, code: Blocker)
    requires f.anyFresh ==> f.inWindow != 0 && f.mismatched != f.inWindow && f.unsupported != f.inWindow
    requires (LoadLeft(f, p) <==> OnlyLoad(records, q, p)) && (f.pressurePresent <==> Says(records, q, p, Among(BACKLOGS)))
    requires !Contended(f, p) && Busy(f, p)
      <==> !Contends(records, q, p) && (LoadedAt(records, q, p, p.utilizationHigh) || LoadedAt(records, q, p, p.utilizationAttention))
    requires code in {BacklogBelow, UtilizationAlone}
    ensures code in Raised(f, p) <==> Blocks(code, records, q, p)
  {
    LoadRaised(f, p, code);
  }

  lemma HarmBlocks(f: Features, records: seq<Evidence>, q: Request, p: Policy, code: Blocker)
    requires f.anyFresh ==> f.inWindow != 0 && f.mismatched != f.inWindow && f.unsupported != f.inWindow
    requires f.impairmentPresent ==> f.anyFresh
    requires (ImpairmentIsDecisive(f, p) <==> Congested(records, q, p)) && (f.impairmentPresent <==> Says(records, q, p, Among(HARMS)))
    requires (LifetimeOnly(f) <==> Says(records, q, p, CountsHarm())) && code in {CounterWithoutDelta, BelowThreshold}
    ensures code in Raised(f, p) <==> Blocks(code, records, q, p)
  {
    HarmRaisedAs(f, p, code);
    HarmLeft(f, p, code, Says(records, q, p, Among(HARMS)), Congested(records, q, p), Says(records, q, p, CountsHarm()));
  }

  lemma HarmLeft(f: Features, p: Policy, code: Blocker, harm: bool, decisive: bool, counts: bool)
    requires f.impairmentPresent == harm && ImpairmentIsDecisive(f, p) == decisive && LifetimeOnly(f) == counts
    requires code in {CounterWithoutDelta, BelowThreshold}
    ensures f.impairmentPresent && !ImpairmentIsDecisive(f, p) && code == WhyNotDecisive(f)
      <==> harm && !decisive && (if code == CounterWithoutDelta then counts else !counts)
  {
  }

  lemma EarlyBlocks(f: Features, records: seq<Evidence>, q: Request, p: Policy, code: Blocker)
    requires IsCounts(f, records, q) && code in {AbsenceOfEvidence, GenerationMismatch, UnsupportedEvidence}
    ensures code in Raised(f, p) <==> Blocks(code, records, q, p)
  {
    RaisedEarly(f, p);
    CountsExactly(f, records, q, p);
  }

  // Each blocker is raised exactly when the records call for it.
  lemma BlockersExactly(f: Features, records: seq<Evidence>, q: Request, p: Policy, code: Blocker)
    requires IsExtract(f, records, q, p)
    ensures code in Raised(f, p) <==> Blocks(code, records, q, p)
  {
    if code in {AbsenceOfEvidence, GenerationMismatch, UnsupportedEvidence} {
      EarlyBlocks(f, records, q, p, code);
    } else {
      StagesExactly(f, records, q, p);
      SidesExactly(f, records, q, p);
      StaleTogether(f, records, q, p);
      if code in {StaleImpairment, StalePressure, Blocker.UnknownFreshness, NoFreshEvidence} {
        FreshnessBlocks(f, records, q, p, code);
      } else if code in {BacklogBelow, UtilizationAlone} {
        LoadBlocks(f, records, q, p, code);
      } else {
        HarmBlocks(f, records, q, p, code);
      }
    }
  }
}
