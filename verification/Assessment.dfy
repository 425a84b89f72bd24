// The verdict vocabulary shared by classification and episodes (include/congestion/assessment/classify.hpp).
module Assessing {
  import opened Base
  import opened Model

  datatype Verdict =
    | NoEvidence | Idle | UtilizedHealthy | ContentionObserved | PressureObserved | Saturated
    | CongestionConfirmed | Indeterminate

  datatype Mechanism = PacketDrop | EcnMarking | PauseBackpressure | LatencyInflation | Retransmission

  datatype Severity = NoSeverity | Informational | Low | Moderate | High | Critical
  {
    function Rank(): nat {
      match this
      case NoSeverity => 0
      case Informational => 1
      case Low => 2
      case Moderate => 3
      case High => 4
      case Critical => 5
    }
  }

  // Only one verdict asserts observed harm.
  predicate IsAssertion(v: Verdict) { v == CongestionConfirmed }

  // The mechanism that names an episode: the first present, in a fixed order.
  function Primary(set_: set<Mechanism>): Option<Mechanism> {
    if PacketDrop in set_ then Some(PacketDrop)
    else if EcnMarking in set_ then Some(EcnMarking)
    else if PauseBackpressure in set_ then Some(PauseBackpressure)
    else if LatencyInflation in set_ then Some(LatencyInflation)
    else if Retransmission in set_ then Some(Retransmission)
    else None
  }

  // The order in which they are numbered.
  const MECHANISMS: seq<Mechanism> := [PacketDrop, EcnMarking, PauseBackpressure, LatencyInflation, Retransmission]

  // The primary one is the lowest in number of those there are.
  lemma PrimaryIsFirst(set_: set<Mechanism>, i: nat)
    requires i < |MECHANISMS|
    ensures Primary(set_) == Some(MECHANISMS[i]) <==> MECHANISMS[i] in set_ && forall j :: 0 <= j < i ==> MECHANISMS[j] !in set_
  {
    assert MECHANISMS[0] == PacketDrop && MECHANISMS[1] == EcnMarking && MECHANISMS[2] == PauseBackpressure;
    assert MECHANISMS[3] == LatencyInflation && MECHANISMS[4] == Retransmission;
  }

  lemma PrimaryExactly(set_: set<Mechanism>)
    ensures Primary(set_) == None <==> set_ == {}
    ensures Primary(set_) != None ==> Primary(set_).value in set_
  {
    if set_ != {} {
      var m :| m in set_;
      match m {
        case PacketDrop => assert PacketDrop in set_;
        case EcnMarking => assert EcnMarking in set_;
        case PauseBackpressure => assert PauseBackpressure in set_;
        case LatencyInflation => assert LatencyInflation in set_;
        case Retransmission => assert Retransmission in set_;
      }
    }
  }

  // What classification says of a subject, as episodes read it.
  datatype CongestionAssessment = CongestionAssessment(
    subject: Subject, tenant: Name, verdict: Verdict, mechanisms: set<Mechanism>, severity: Severity, confidence: nat,
    citations: seq<nat>, sources: seq<Name>, generation: GenerationVector, policyVersion: Bytes, evaluatedAt: int,
    asserted: bool)
}
