// Identities, fences and the evidence record (include/congestion/model, include/congestion/evidence).
module Model {
  import opened Base
  import opened LittleEndian

  // ---- Names: canonical text, empty when invalid (src/core/name.cpp) ----

  type Name = Bytes

  const MAX_NAME_LENGTH: nat := 96

  predicate IsAllowed(c: Byte) {
    || 0x61 <= c <= 0x7A || 0x41 <= c <= 0x5A || 0x30 <= c <= 0x39
    || c in [0x2D, 0x5F, 0x2E, 0x3A, 0x2F, 0x40, 0x23, 0x7C, 0x2B, 0x3D, 0x2C]
  }

  predicate IsSeparator(c: Byte) { c in [0x2F, 0x3A, 0x7C, 0x2C, 0x2E] }

  predicate IsCanonical(text: Bytes) {
    && 0 < |text| <= MAX_NAME_LENGTH
    && (forall i :: 0 <= i < |text| ==> IsAllowed(text[i]))
    && !IsSeparator(text[0])
    && !IsSeparator(text[|text| - 1])
    && (forall i :: 1 <= i < |text| ==> !(IsSeparator(text[i]) && IsSeparator(text[i - 1])))
  }

  // The unchecked constructor: anything that is not canonical becomes the invalid name.
  function Unchecked(text: Bytes): Name { if IsCanonical(text) then text else [] }

  // ---- Subjects, rendered as "kind:name" (src/model/identities.cpp) ----

  datatype SubjectKind =
    NoKind | Node | Port | Link | Queue | Buffer | Path | Flow | Tenant | Class | Source | Topology

  datatype Subject = Subject(kind: SubjectKind, name: Name)
  {
    predicate Valid() { !kind.NoKind? }
  }

  function KindLabel(kind: SubjectKind): Bytes {
    match kind
    case NoKind => [0x6E, 0x6F, 0x6E, 0x65]
    case Node => [0x6E, 0x6F, 0x64, 0x65]
    case Port => [0x70, 0x6F, 0x72, 0x74]
    case Link => [0x6C, 0x69, 0x6E, 0x6B]
    case Queue => [0x71, 0x75, 0x65, 0x75, 0x65]
    case Buffer => [0x62, 0x75, 0x66, 0x66, 0x65, 0x72]
    case Path => [0x70, 0x61, 0x74, 0x68]
    case Flow => [0x66, 0x6C, 0x6F, 0x77]
    case Tenant => [0x74, 0x65, 0x6E, 0x61, 0x6E, 0x74]
    case Class => [0x63, 0x6C, 0x61, 0x73, 0x73]
    case Source => [0x73, 0x6F, 0x75, 0x72, 0x63, 0x65]
    case Topology => [0x74, 0x6F, 0x70, 0x6F, 0x6C, 0x6F, 0x67, 0x79]
  }

  // The place of a kind in its enumeration, which is its code on the wire.
  function KindCode(kind: SubjectKind): nat {
    match kind
    case NoKind => 0
    case Node => 1
    case Port => 2
    case Link => 3
    case Queue => 4
    case Buffer => 5
    case Path => 6
    case Flow => 7
    case Tenant => 8
    case Class => 9
    case Source => 10
    case Topology => 11
  }

  const COLON: Byte := 0x3A

  function Render(s: Subject): Bytes {
    KindLabel(s.kind) + [COLON] + if s.Valid() then s.name else []
  }

  function Key(s: Subject): Name { Unchecked(Render(s)) }

  lemma LabelsHaveNoColon(kind: SubjectKind)
    ensures COLON !in KindLabel(kind)
  {
  }

  lemma {:induction false} SplitAtColon(a: Bytes, b: Bytes, x: Bytes, y: Bytes)
    requires COLON !in a && COLON !in b
    requires a + [COLON] + x == b + [COLON] + y
    ensures a == b && x == y
  {
    var s := a + [COLON] + x;
    assert s[|a|] == COLON && s[|b|] == COLON;
    assert |a| == |b|;
    assert a == s[..|a|] && b == s[..|a|];
    assert x == s[|a| + 1..] && y == s[|a| + 1..];
  }

  lemma LabelInjective(a: SubjectKind, b: SubjectKind)
    requires KindLabel(a) == KindLabel(b)
    ensures a == b
  {
  }

  // Two valid subjects with the same canonical key are the same subject.
  lemma KeyInjective(s: Subject, t: Subject)
    requires s.Valid() && t.Valid()
    requires Key(s) == Key(t) && Key(s) != []
    ensures s == t
  {
    LabelsHaveNoColon(s.kind);
    LabelsHaveNoColon(t.kind);
    SplitAtColon(KindLabel(s.kind), KindLabel(t.kind), s.name, t.name);
    LabelInjective(s.kind, t.kind);
  }

  // ---- Generations and fences (include/congestion/model/generation.hpp) ----

  datatype GenerationVector = GenerationVector(epoch: u64, generation: u64, revision: u64)

  datatype FenceVector = FenceVector(source: Name, boot: u64, incarnation: u64, gen: GenerationVector, sequence: u64)

  datatype AuthorityLevel = UnknownAuthority | Unverified | Reported | Measured | Corroborated
  {
    function Rank(): nat {
      match this
      case UnknownAuthority => 0
      case Unverified => 1
      case Reported => 2
      case Measured => 3
      case Corroborated => 4
    }
  }

  // ---- Evidence (include/congestion/evidence/evidence.hpp) ----

  datatype EvidenceKind =
    | UnknownKind | LinkUtilization | PortUtilization | QueueOccupancy | QueueDepth | BufferOccupancy
    | DropCount | MarkCount | PauseCount | PauseDuration | LatencySample | OfferedDemand | AchievedThroughput
    | ActiveFlowCount | ActiveClassCount | OperState | SourceHeartbeat | TopologyAdvertisement
    | CapacityAdvertisement | RetransmitCount

  datatype EvidenceRole =
    UnknownRole | Utilization | Contention | Pressure | Impairment | Demand | Capacity | TopologyRole | Liveness

  function RoleOf(kind: EvidenceKind): EvidenceRole {
    match kind
    case UnknownKind => UnknownRole
    case LinkUtilization | PortUtilization => Utilization
    case QueueOccupancy | QueueDepth | BufferOccupancy => Pressure
    case DropCount | MarkCount | PauseCount | PauseDuration | LatencySample | RetransmitCount => Impairment
    case OfferedDemand | AchievedThroughput => Demand
    case ActiveFlowCount | ActiveClassCount => Contention
    case OperState | TopologyAdvertisement => TopologyRole
    case SourceHeartbeat => Liveness
    case CapacityAdvertisement => Capacity
  }

  datatype ObservationUnit =
    UnknownUnit | Ratio | Cells | Packets | OctetCount | Nanoseconds | BitsPerSecond | Count | Boolean | Frames

  datatype ValueSemantics = UnknownSemantics | Gauge | CumulativeCounter | DeltaCounter | Rate

  datatype Support = Supported | Unsupported | UnknownSupport

  datatype Completeness = Complete | Partial | Incomplete | UnknownCompleteness

  datatype ClockDomain = UnknownClock | SourceMonotonic | SourceWallClock | CollectorMonotonic | CollectorWallClock

  // An observation. Timestamps and durations are nanosecond counts; the measured value is of type
  // Scalar: a real in the analysis, a 64-bit pattern in the snapshot format.
  datatype EvidenceRecord<Scalar> = EvidenceRecord(
    id: nat,
    kind: EvidenceKind,
    subject: Subject,
    source: Name,
    authority: AuthorityLevel,
    transport: Bytes,
    collector: Bytes,
    fence: FenceVector,
    observedAt: int,
    receivedAt: int,
    clock: ClockDomain,
    scalar: Scalar,
    unit_: ObservationUnit,
    semantics: ValueSemantics,
    validity: int,
    completeness: Completeness,
    support: Support,
    labels: seq<Name>,
    metadata: seq<(Bytes, Bytes)>,
    note: Bytes,
    recovered: bool,
    retired: bool,
    insertionIndex: nat)

  type Evidence = EvidenceRecord<real>

  // ---- Freshness (src/evidence/evidence.cpp) ----

  datatype Freshness = Fresh | Aging | Stale | Expired | UnknownFreshness

  datatype FreshnessPolicy = FreshnessPolicy(freshWithin: int, agingWithin: int, staleWithin: int,
                                             maxFutureSkew: int, requirePlausible: bool)

  function AssessFreshness<S>(r: EvidenceRecord<S>, now: int, policy: FreshnessPolicy): Freshness {
    if r.recovered then UnknownFreshness
    else if r.retired then UnknownFreshness
    else if r.clock == UnknownClock then UnknownFreshness
    else if r.observedAt == 0 || r.receivedAt == 0 then UnknownFreshness
    else if policy.requirePlausible
            && (|| r.observedAt > r.receivedAt + policy.maxFutureSkew
                || r.receivedAt > now + policy.maxFutureSkew
                || r.observedAt > now + policy.maxFutureSkew) then UnknownFreshness
    else
      var age := now - r.observedAt;
      if age > policy.staleWithin || age > r.validity then Expired
      else if age > policy.agingWithin then Stale
      else if age > policy.freshWithin then Aging
      else Fresh
  }

  // ---- Resource bounds (include/congestion/core/limits.hpp) ----

  datatype Limits = Limits(
    maxSources: nat, maxRetainedEvidence: nat, maxEvidencePerSubject: nat,
    maxMetadataEntries: nat, maxMetadataKeyBytes: nat, maxMetadataValueBytes: nat, maxNoteBytes: nat, maxLabels: nat,
    maxJsonDepth: nat, maxJsonNodes: nat, maxDocumentBytes: nat,
    maxCitations: nat, maxResultCandidates: nat, maxLocalizationDepth: nat, maxGraphNodes: nat, maxGraphEdges: nat,
    maxEpisodes: nat, maxEpisodeAssessments: nat, maxEpisodeTransitions: nat, maxGroups: nat, maxGroupMembers: nat,
    maxSnapshotBytes: nat, maxSnapshotSections: nat, maxSnapshotEvidence: nat, maxSnapshotEpisodes: nat,
    maxNodes: nat, maxPorts: nat, maxLinks: nat, maxQueues: nat, maxBuffers: nat, maxPaths: nat, maxFlows: nat,
    maxPathHops: nat, maxPortsPerNode: nat,
    workerThreads: nat, maxFrameBytes: nat, maxWindowRecords: nat, maxExplanationSteps: nat, maxBlockers: nat,
    maxEpisodeFilterResults: nat, maxPendingTasks: nat, maxIngestQueueDepth: nat)
}
