// What a record says of itself, read off its fields alone (src/evidence/evidence.cpp:298-362,
// include/congestion/evidence/evidence.hpp).
module Readings {
  import opened Model
  import opened Observations

  // ---- Freshness ----

  // Nothing disqualifies the record: it is live, its clock and both its times are known, and under a policy that asks
  // for plausible times none of them lies further ahead than the skew allows.
  ghost predicate IsPlausible(r: Evidence, now: int, policy: FreshnessPolicy) {
    && !r.recovered && !r.retired && r.clock != UnknownClock && r.observedAt != 0 && r.receivedAt != 0
    && (policy.requirePlausible ==>
          && r.observedAt - r.receivedAt <= policy.maxFutureSkew
          && r.receivedAt - now <= policy.maxFutureSkew && r.observedAt - now <= policy.maxFutureSkew)
  }

  // It is within the policy's bounds and its own.
  ghost predicate IsYoung(r: Evidence, now: int, within: int, policy: FreshnessPolicy) {
    now - r.observedAt <= within && now - r.observedAt <= policy.staleWithin && now - r.observedAt <= r.validity
  }

  ghost predicate IsFresh(r: Evidence, now: int, policy: FreshnessPolicy) {
    IsPlausible(r, now, policy) && IsYoung(r, now, policy.freshWithin, policy) && now - r.observedAt <= policy.agingWithin
  }

  // A record is fresh exactly when nothing disqualifies it and it is younger than every bound, its own among them;
  // past its own bound or the last of the policy's it has expired.
  lemma FreshExactly(r: Evidence, now: int, policy: FreshnessPolicy)
    ensures AssessFreshness(r, now, policy) == Fresh <==> IsFresh(r, now, policy)
    ensures AssessFreshness(r, now, policy) == UnknownFreshness <==> !IsPlausible(r, now, policy)
    ensures AssessFreshness(r, now, policy) == Expired
      <==> IsPlausible(r, now, policy) && (now - r.observedAt > policy.staleWithin || now - r.observedAt > r.validity)
    ensures AssessFreshness(r, now, policy) in {Fresh, Aging}
      <==> IsPlausible(r, now, policy) && IsYoung(r, now, policy.agingWithin, policy)
  {
  }

  // ---- Kinds ----

  // The kinds that speak of each side of congestion.
  const DEMANDS: set<EvidenceKind> := {OfferedDemand, AchievedThroughput}
  const BACKLOGS: set<EvidenceKind> := {QueueOccupancy, QueueDepth, BufferOccupancy}
  const CONTENTIONS: set<EvidenceKind> := {ActiveFlowCount, ActiveClassCount}
  const HARMS: set<EvidenceKind> := {DropCount, MarkCount, PauseCount, PauseDuration, LatencySample, RetransmitCount}
  const LOADS: set<EvidenceKind> := {LinkUtilization, PortUtilization}

  lemma RolesExactly(kind: EvidenceKind)
    ensures RoleOf(kind) == Demand <==> kind in DEMANDS
    ensures RoleOf(kind) == Pressure <==> kind in BACKLOGS
    ensures RoleOf(kind) == Contention <==> kind in CONTENTIONS
    ensures RoleOf(kind) == Impairment <==> kind in HARMS
    ensures RoleOf(kind) == Utilization <==> kind in LOADS
    ensures RoleOf(kind) == Capacity <==> kind == CapacityAdvertisement
  {
  }

  // ---- Demand against capacity ----

  // The greatest positive value of a kind among the records that count.
  ghost predicate IsGreatest(r: Evidence, records: seq<Evidence>, counts: Evidence -> bool, kind: EvidenceKind) {
    && r in records && counts(r) && r.kind == kind && r.scalar > 0.0
    && forall x :: x in records && counts(x) && x.kind == kind ==> x.scalar <= r.scalar
  }

  predicate Covers(offered: real, capacity: real, ratio: real) { offered >= ratio * capacity }

  // The greatest demand offered is at least so many times the greatest capacity.
  ghost predicate Saturates(records: seq<Evidence>, counts: Evidence -> bool, ratio: real) {
    exists offer, capacity ::
      IsGreatest(offer, records, counts, OfferedDemand) && IsGreatest(capacity, records, counts, CapacityAdvertisement)
      && Covers(offer.scalar, capacity.scalar, ratio)
  }

  lemma Quotient(a: real, b: real, ratio: real)
    requires b > 0.0
    ensures a / b >= ratio <==> Covers(a, b, ratio)
  {
    var q := a / b;
    assert q * b == a;
    if q >= ratio {
      Scaled(ratio, q, b);
    } else {
      ScaledStrictly(q, ratio, b);
    }
  }

  lemma Scaled(x: real, y: real, b: real)
    requires x <= y && b > 0.0
    ensures x * b <= y * b
  {
  }

  lemma ScaledStrictly(x: real, y: real, b: real)
    requires x < y && b > 0.0
    ensures x * b < y * b
  {
  }

  lemma PeakIsGreatest(peak: real, records: seq<Evidence>, counts: Evidence -> bool, property: Evidence -> bool, kind: EvidenceKind)
    requires IsPeak(peak, records, counts, property) && forall r :: r in records ==> (property(r) <==> r.kind == kind)
    ensures peak > 0.0 <==> exists r :: IsGreatest(r, records, counts, kind)
    ensures forall r :: IsGreatest(r, records, counts, kind) ==> r.scalar == peak
  {
    if peak > 0.0 {
      var r :| r in records && counts(r) && property(r) && r.scalar == peak;
      assert IsGreatest(r, records, counts, kind);
    }
    forall r | IsGreatest(r, records, counts, kind) ensures r.scalar == peak && peak > 0.0 {
      assert property(r);
    }
  }

  // The quotient of the two peaks decides the same.
  lemma PeaksSaturate(offered: real, capacity: real, records: seq<Evidence>, counts: Evidence -> bool, offers: Evidence -> bool,
                      capacities: Evidence -> bool, ratio: real)
    requires IsPeak(offered, records, counts, offers) && forall r :: r in records ==> (offers(r) <==> r.kind == OfferedDemand)
    requires IsPeak(capacity, records, counts, capacities) && forall r :: r in records ==> (capacities(r) <==> r.kind == CapacityAdvertisement)
    ensures capacity > 0.0 && offered > 0.0 && offered / capacity >= ratio <==> Saturates(records, counts, ratio)
  {
    PeakIsGreatest(offered, records, counts, offers, OfferedDemand);
    PeakIsGreatest(capacity, records, counts, capacities, CapacityAdvertisement);
    if capacity > 0.0 && offered > 0.0 {
      Quotient(offered, capacity, ratio);
      PeaksCover(offered, capacity, records, counts, ratio);
    }
  }

  lemma PeaksCover(offered: real, capacity: real, records: seq<Evidence>, counts: Evidence -> bool, ratio: real)
    requires exists r :: IsGreatest(r, records, counts, OfferedDemand)
    requires exists r :: IsGreatest(r, records, counts, CapacityAdvertisement)
    requires forall r :: IsGreatest(r, records, counts, OfferedDemand) ==> r.scalar == offered
    requires forall r :: IsGreatest(r, records, counts, CapacityAdvertisement) ==> r.scalar == capacity
    ensures Saturates(records, counts, ratio) <==> Covers(offered, capacity, ratio)
  {
    var offer :| IsGreatest(offer, records, counts, OfferedDemand);
    var limit :| IsGreatest(limit, records, counts, CapacityAdvertisement);
    assert offer.scalar == offered && limit.scalar == capacity;
  }
}
