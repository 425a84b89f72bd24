// An episode as the row it is stored as (src/persistence/snapshot.cpp:270-320).
module SnapshotEpisodes {
  import opened Base
  import opened LittleEndian
  import opened Model
  import opened Assessing
  import opened Episodes
  import opened SnapshotWire
  import opened SnapshotTopology
  import opened SnapshotSections
  import SnapshotRebuild
  import Records = SnapshotRecords

  function CodeOfVerdict(v: Verdict): nat {
    match v
    case NoEvidence => 0
    case Idle => 1
    case UtilizedHealthy => 2
    case ContentionObserved => 3
    case PressureObserved => 4
    case Saturated => 5
    case CongestionConfirmed => 6
    case Indeterminate => 7
  }

  function CodeOfMechanism(m: Mechanism): nat {
    match m
    case PacketDrop => 1
    case EcnMarking => 2
    case PauseBackpressure => 3
    case LatencyInflation => 4
    case Retransmission => 5
  }

  function BitIf(present: bool, bit: nat): nat { if present then bit else 0 }

  // The mechanisms as a bit set: bit k for the mechanism of code k.
  function MaskOf(ms: set<Mechanism>): nat {
    BitIf(PacketDrop in ms, 2) + BitIf(EcnMarking in ms, 4) + BitIf(PauseBackpressure in ms, 8)
    + BitIf(LatencyInflation in ms, 16) + BitIf(Retransmission in ms, 32)
  }

  function CodeOfState(s: EpisodeState): nat {
    match s
    case Open => 0
    case Quiescent => 1
    case Resolved => 2
    case Expired => 3
  }

  function CodeOfTransition(k: TransitionKind): nat {
    match k
    case Opened => 0
    case Updated => 1
    case Escalated => 2
    case Deescalated => 3
    case Quiesced => 4
    case Resolving => 5
    case Expiring => 6
    case Reopened => 7
  }

  // "congestion_asserted", "refreshed_by_fresh_evidence", "reopened_by_fresh_evidence",
  // "verdict_without_congestion_assertion" and "policy_window_elapsed".
  function CauseText(c: Cause): Bytes {
    match c
    case CongestionAsserted => Ascii("congestion_asserted")
    case Refreshed => Ascii("refreshed_by_fresh_evidence")
    case Reasserted => Ascii("reopened_by_fresh_evidence")
    case NoAssertion => Ascii("verdict_without_congestion_assertion")
    case WindowElapsed => Ascii("policy_window_elapsed")
  }

  function Ascii(s: string): (r: Bytes)
    ensures |r| == |s|
  {
    seq(|s|, i requires 0 <= i < |s| => if s[i] as int < 128 then s[i] as int as Byte else 0x3F)
  }

  // No citation is the identity of zeros.
  function IdOrZero(id: Option<nat>): nat { if id.Some? then id.value else 0 }

  function IdRows(ids: seq<nat>): seq<Row> { seq(|ids|, i requires 0 <= i < |ids| => Row([Num(ids[i])])) }

  function TransitionRow(t: Transition): Row {
    Row([Num(t.revision), Num(CodeOfTransition(t.kind)), Num(Wrap(t.at)), Num(t.severityBefore.Rank()), Num(t.severityAfter.Rank()),
         Num(CodeOfVerdict(t.verdictBefore)), Num(CodeOfVerdict(t.verdictAfter)), Num(t.confidence), Chars(CauseText(t.cause)),
         Rows(IdRows(t.citations))])
  }

  function AssessmentRow(d: AssessmentDigest): Row {
    Row([Num(Wrap(d.at)), Num(CodeOfVerdict(d.verdict)), Num(MaskOf(d.mechanisms)), Num(d.severity.Rank()), Num(d.confidence),
         Num(d.citationCount), Num(Records.Bit(d.confirming)), Num(IdOrZero(d.representative))])
  }

  function TransitionRows(ts: seq<Transition>): seq<Row> { seq(|ts|, i requires 0 <= i < |ts| => TransitionRow(ts[i])) }

  function AssessmentRows(ds: seq<AssessmentDigest>): seq<Row> { seq(|ds|, i requires 0 <= i < |ds| => AssessmentRow(ds[i])) }

  function KeyOf(e: Episode): seq<Field> {
    [Num(e.id), About(e.key.scope), Chars(e.key.tenant), Num(CodeOfMechanism(e.key.mechanism)), Num(e.key.generation.epoch),
     Num(e.key.generation.generation), Num(e.key.generation.revision), Chars(e.key.policyVersion)]
  }

  function StateOf(e: Episode): seq<Field> {
    [Num(CodeOfState(e.state)), Num(e.revision), Num(e.currentSeverity.Rank()), Num(e.peakSeverity.Rank()), Num(e.confidence),
     Num(Wrap(e.firstSeen)), Num(Wrap(e.lastSeen)), Num(Wrap(e.lastUpdated)), Num(Wrap(e.resolvedAt)), Num(e.observations)]
  }

  function HistoryOf(e: Episode): seq<Field> {
    [Rows(IdRows(e.citations)), Rows(Records.NameRows(e.sources)), Rows(TransitionRows(e.transitions)),
     Rows(AssessmentRows(e.assessments)), Num(e.transitionsDropped), Num(e.assessmentsDropped), Num(Records.Bit(e.historyTruncated))]
  }

  function EpisodeRow(e: Episode): Row { Row(KeyOf(e) + StateOf(e) + HistoryOf(e)) }

  // ---- Rows tell episodes apart ----

  ghost predicate TimedTransition(t: Transition) { InRange(t.at) }

  ghost predicate TimedAssessment(d: AssessmentDigest) { InRange(d.at) && d.representative != Some(0) }

  ghost predicate TimedEpisode(e: Episode) {
    && InRange(e.firstSeen) && InRange(e.lastSeen) && InRange(e.lastUpdated) && InRange(e.resolvedAt)
    && (forall i :: 0 <= i < |e.transitions| ==> TimedTransition(e.transitions[i]))
    && (forall i :: 0 <= i < |e.assessments| ==> TimedAssessment(e.assessments[i]))
  }

  lemma MechanismsApart()
    ensures forall a, b :: CodeOfMechanism(a) == CodeOfMechanism(b) ==> a == b
  {
  }

  lemma VerdictsApart()
    ensures forall a, b :: CodeOfVerdict(a) == CodeOfVerdict(b) ==> a == b
  {
  }

  lemma StatesApart()
    ensures forall a, b :: CodeOfState(a) == CodeOfState(b) ==> a == b
    ensures forall a, b :: CodeOfTransition(a) == CodeOfTransition(b) ==> a == b
  {
  }

  lemma SeveritiesApart()
    ensures forall a: Severity, b: Severity :: a.Rank() == b.Rank() ==> a == b
  {
  }

  lemma CausesApart(a: Cause, b: Cause)
    requires CauseText(a) == CauseText(b)
    ensures a == b
  {
    assert |CauseText(CongestionAsserted)| == 19 && |CauseText(Refreshed)| == 27 && |CauseText(Reasserted)| == 26;
    assert |CauseText(NoAssertion)| == 36 && |CauseText(WindowElapsed)| == 21;
  }

  lemma MasksApart(a: set<Mechanism>, b: set<Mechanism>)
    requires MaskOf(a) == MaskOf(b)
    ensures a == b
  {
    assert PacketDrop in a <==> PacketDrop in b;
    assert EcnMarking in a <==> EcnMarking in b;
    assert PauseBackpressure in a <==> PauseBackpressure in b;
    assert LatencyInflation in a <==> LatencyInflation in b;
    assert Retransmission in a <==> Retransmission in b;
    forall m ensures m in a <==> m in b {
      match m {
        case PacketDrop =>
        case EcnMarking =>
        case PauseBackpressure =>
        case LatencyInflation =>
        case Retransmission =>
      }
    }
  }

  lemma IdsApart(a: seq<nat>, b: seq<nat>)
    requires IdRows(a) == IdRows(b)
    ensures a == b
  {
    assert |a| == |IdRows(a)| && |b| == |IdRows(b)|;
    forall i | 0 <= i < |a| ensures a[i] == b[i] {
      assert IdRows(a)[i].fields[0] == IdRows(b)[i].fields[0];
    }
  }

  lemma TransitionInjective(a: Transition, b: Transition)
    requires TimedTransition(a) && TimedTransition(b) && TransitionRow(a) == TransitionRow(b)
    ensures a == b
  {
    var x, y := TransitionRow(a).fields, TransitionRow(b).fields;
    assert x[0] == y[0] && x[1] == y[1] && x[2] == y[2] && x[3] == y[3] && x[4] == y[4];
    assert x[5] == y[5] && x[6] == y[6] && x[7] == y[7] && x[8] == y[8] && x[9] == y[9];
    StatesApart();
    VerdictsApart();
    SeveritiesApart();
    WrapInjective(a.at, b.at);
    CausesApart(a.cause, b.cause);
    IdsApart(a.citations, b.citations);
  }

  lemma AssessmentInjective(a: AssessmentDigest, b: AssessmentDigest)
    requires TimedAssessment(a) && TimedAssessment(b) && AssessmentRow(a) == AssessmentRow(b)
    ensures a == b
  {
    var x, y := AssessmentRow(a).fields, AssessmentRow(b).fields;
    assert x[0] == y[0] && x[1] == y[1] && x[2] == y[2] && x[3] == y[3];
    assert x[4] == y[4] && x[5] == y[5] && x[6] == y[6] && x[7] == y[7];
    VerdictsApart();
    SeveritiesApart();
    WrapInjective(a.at, b.at);
    MasksApart(a.mechanisms, b.mechanisms);
  }

  lemma KeyInjective(a: Episode, b: Episode)
    requires KeyOf(a) == KeyOf(b)
    ensures a.id == b.id && a.key == b.key
  {
    var x, y := KeyOf(a), KeyOf(b);
    assert x[0] == y[0] && x[1] == y[1] && x[2] == y[2] && x[3] == y[3];
    assert x[4] == y[4] && x[5] == y[5] && x[6] == y[6] && x[7] == y[7];
    MechanismsApart();
  }

  lemma StateInjective(a: Episode, b: Episode)
    requires TimedEpisode(a) && TimedEpisode(b) && StateOf(a) == StateOf(b)
    ensures a.state == b.state && a.revision == b.revision && a.currentSeverity == b.currentSeverity
    ensures a.peakSeverity == b.peakSeverity && a.confidence == b.confidence && a.firstSeen == b.firstSeen
    ensures a.lastSeen == b.lastSeen && a.lastUpdated == b.lastUpdated && a.resolvedAt == b.resolvedAt && a.observations == b.observations
  {
    var x, y := StateOf(a), StateOf(b);
    assert x[0] == y[0] && x[1] == y[1] && x[2] == y[2] && x[3] == y[3] && x[4] == y[4];
    assert x[5] == y[5] && x[6] == y[6] && x[7] == y[7] && x[8] == y[8] && x[9] == y[9];
    StatesApart();
    SeveritiesApart();
    WrapInjective(a.firstSeen, b.firstSeen);
    WrapInjective(a.lastSeen, b.lastSeen);
    WrapInjective(a.lastUpdated, b.lastUpdated);
    WrapInjective(a.resolvedAt, b.resolvedAt);
  }

  lemma TransitionsInjective(a: seq<Transition>, b: seq<Transition>)
    requires TransitionRows(a) == TransitionRows(b)
    requires forall i :: 0 <= i < |a| ==> TimedTransition(a[i])
    requires forall i :: 0 <= i < |b| ==> TimedTransition(b[i])
    ensures a == b
  {
    assert |a| == |TransitionRows(a)| && |b| == |TransitionRows(b)|;
    forall i | 0 <= i < |a| ensures a[i] == b[i] {
      assert TransitionRows(a)[i] == TransitionRows(b)[i];
      TransitionInjective(a[i], b[i]);
    }
  }

  lemma AssessmentsInjective(a: seq<AssessmentDigest>, b: seq<AssessmentDigest>)
    requires AssessmentRows(a) == AssessmentRows(b)
    requires forall i :: 0 <= i < |a| ==> TimedAssessment(a[i])
    requires forall i :: 0 <= i < |b| ==> TimedAssessment(b[i])
    ensures a == b
  {
    assert |a| == |AssessmentRows(a)| && |b| == |AssessmentRows(b)|;
    forall i | 0 <= i < |a| ensures a[i] == b[i] {
      assert AssessmentRows(a)[i] == AssessmentRows(b)[i];
      AssessmentInjective(a[i], b[i]);
    }
  }

  lemma HistoryInjective(a: Episode, b: Episode)
    requires TimedEpisode(a) && TimedEpisode(b) && HistoryOf(a) == HistoryOf(b)
    ensures a.citations == b.citations && a.sources == b.sources && a.transitions == b.transitions && a.assessments == b.assessments
    ensures a.transitionsDropped == b.transitionsDropped && a.assessmentsDropped == b.assessmentsDropped
    ensures a.historyTruncated == b.historyTruncated
  {
    var x, y := HistoryOf(a), HistoryOf(b);
    assert x[0] == y[0] && x[1] == y[1] && x[2] == y[2] && x[3] == y[3] && x[4] == y[4] && x[5] == y[5] && x[6] == y[6];
    IdsApart(a.citations, b.citations);
    Records.NamesInjective(a.sources, b.sources);
    TransitionsInjective(a.transitions, b.transitions);
    AssessmentsInjective(a.assessments, b.assessments);
  }

  // Two episodes with the same row are the same episode.
  lemma EpisodeRowInjective(a: Episode, b: Episode)
    requires TimedEpisode(a) && TimedEpisode(b) && EpisodeRow(a) == EpisodeRow(b)
    ensures a == b
  {
    var x, y := EpisodeRow(a).fields, EpisodeRow(b).fields;
    assert KeyOf(a) == x[..8] && KeyOf(b) == y[..8];
    assert StateOf(a) == x[8..18] && StateOf(b) == y[8..18];
    assert HistoryOf(a) == x[18..] && HistoryOf(b) == y[18..];
    KeyInjective(a, b);
    StateInjective(a, b);
    HistoryInjective(a, b);
  }

  // ---- Which episodes can be stored ----

  ghost predicate FitsIds(ids: seq<nat>, bound: nat) {
    |ids| <= Min(bound, U32_MAX) && forall i :: 0 <= i < |ids| ==> ids[i] < Pow256(ID_WIDTH)
  }

  ghost predicate StorableTransition(t: Transition, lim: Limits) {
    && t.revision <= U64_MAX && TimedTransition(t) && t.confidence <= U32_MAX && FitsIds(t.citations, lim.maxCitations)
    && FitsText(CauseText(t.cause), lim.maxDocumentBytes)
  }

  ghost predicate StorableAssessment(d: AssessmentDigest) {
    && TimedAssessment(d) && d.confidence <= U32_MAX && d.citationCount <= U32_MAX
    && (d.representative.Some? ==> d.representative.value < Pow256(ID_WIDTH))
  }

  // Names are canonical, texts and histories within the bounds, numbers of their width.
  ghost predicate Storable(e: Episode, lim: Limits) {
    && TimedEpisode(e) && StorableKey(e, lim)
    && e.revision <= U64_MAX && e.confidence <= U32_MAX && e.observations <= U64_MAX
    && e.transitionsDropped <= U64_MAX && e.assessmentsDropped <= U64_MAX
    && FitsIds(e.citations, lim.maxCitations)
    && |e.sources| <= Min(lim.maxSources, U32_MAX) && |e.transitions| <= Min(lim.maxEpisodeTransitions, U32_MAX)
    && |e.assessments| <= Min(lim.maxEpisodeAssessments, U32_MAX)
    && (forall i :: 0 <= i < |e.sources| ==> Records.FitsName(e.sources[i], lim.maxDocumentBytes))
    && (forall i :: 0 <= i < |e.transitions| ==> StorableTransition(e.transitions[i], lim))
    && (forall i :: 0 <= i < |e.assessments| ==> StorableAssessment(e.assessments[i]))
  }

  ghost predicate StorableKey(e: Episode, lim: Limits) {
    && e.id < Pow256(ID_WIDTH) && FitsSubject(e.key.scope, lim.maxDocumentBytes)
    && FitsText(e.key.tenant, lim.maxDocumentBytes) && (e.key.tenant == [] || IsCanonical(e.key.tenant))
    && FitsText(e.key.policyVersion, lim.maxDocumentBytes)
  }

  lemma WordFits(n: nat, max: nat)
    requires n <= U32_MAX
    ensures Fits(Num(n), Number(WORD), max)
  {
    Widths();
  }

  lemma CodesFit(s: Severity, v: Verdict, max: nat)
    ensures Fits(Num(s.Rank()), Number(BYTE), max) && Fits(Num(CodeOfVerdict(v)), Number(BYTE), max)
  {
    Records.ByteFits(s.Rank(), max);
    Records.ByteFits(CodeOfVerdict(v), max);
  }

  lemma IdsFit(ids: seq<nat>, bound: nat, max: nat)
    requires FitsIds(ids, bound)
    ensures Fits(Rows(IdRows(ids)), Table(bound, [Number(ID_WIDTH)]), max)
  {
    forall i | 0 <= i < |ids| ensures FitsRow(IdRows(ids)[i], [Number(ID_WIDTH)], max) {
      assert Fits(Num(ids[i]), Number(ID_WIDTH), max);
    }
  }

  lemma TransitionFits(t: Transition, lim: Limits)
    requires StorableTransition(t, lim)
    ensures FitsRow(TransitionRow(t), TransitionColumns(lim), lim.maxDocumentBytes)
  {
    var max := lim.maxDocumentBytes;
    Records.LongFits(t.revision, max);
    Records.ByteFits(CodeOfTransition(t.kind), max);
    Records.LongFits(Wrap(t.at), max);
    CodesFit(t.severityBefore, t.verdictBefore, max);
    CodesFit(t.severityAfter, t.verdictAfter, max);
    WordFits(t.confidence, max);
    IdsFit(t.citations, lim.maxCitations, max);
  }

  lemma AssessmentFits(d: AssessmentDigest, max: nat)
    requires StorableAssessment(d)
    ensures FitsRow(AssessmentRow(d), AssessmentColumns(), max)
  {
    Records.LongFits(Wrap(d.at), max);
    CodesFit(d.severity, d.verdict, max);
    WordFits(MaskOf(d.mechanisms), max);
    WordFits(d.confidence, max);
    WordFits(d.citationCount, max);
    assert Fits(Num(IdOrZero(d.representative)), Number(ID_WIDTH), max);
  }

  lemma KeyFits(e: Episode, lim: Limits)
    requires StorableKey(e, lim)
    ensures FitsFields(KeyOf(e), KeyColumns(), lim.maxDocumentBytes)
  {
    var max := lim.maxDocumentBytes;
    Records.ByteFits(CodeOfMechanism(e.key.mechanism), max);
    Records.LongFits(e.key.generation.epoch, max);
    Records.LongFits(e.key.generation.generation, max);
    Records.LongFits(e.key.generation.revision, max);
  }

  lemma StateFits(e: Episode, lim: Limits)
    requires Storable(e, lim)
    ensures FitsFields(StateOf(e), StateColumns(), lim.maxDocumentBytes)
  {
    var max := lim.maxDocumentBytes;
    Records.ByteFits(CodeOfState(e.state), max);
    Records.LongFits(e.revision, max);
    Records.ByteFits(e.currentSeverity.Rank(), max);
    Records.ByteFits(e.peakSeverity.Rank(), max);
    WordFits(e.confidence, max);
    Records.LongFits(Wrap(e.firstSeen), max);
    Records.LongFits(Wrap(e.lastSeen), max);
    Records.LongFits(Wrap(e.lastUpdated), max);
    Records.LongFits(Wrap(e.resolvedAt), max);
    Records.LongFits(e.observations, max);
  }

  lemma SourcesFit(e: Episode, lim: Limits)
    requires Storable(e, lim)
    ensures Fits(Rows(Records.NameRows(e.sources)), Table(lim.maxSources, [PLAIN]), lim.maxDocumentBytes)
  {
    forall i | 0 <= i < |e.sources| ensures FitsRow(Records.NameRows(e.sources)[i], [PLAIN], lim.maxDocumentBytes) {
      assert Fits(Chars(e.sources[i]), PLAIN, lim.maxDocumentBytes);
    }
  }

  lemma TransitionsFit(e: Episode, lim: Limits)
    requires Storable(e, lim)
    ensures Fits(Rows(TransitionRows(e.transitions)), Table(lim.maxEpisodeTransitions, TransitionColumns(lim)), lim.maxDocumentBytes)
  {
    var rows := TransitionRows(e.transitions);
    forall i | 0 <= i < |rows| ensures FitsRow(rows[i], TransitionColumns(lim), lim.maxDocumentBytes) {
      TransitionFits(e.transitions[i], lim);
    }
  }

  lemma AssessmentsFit(e: Episode, lim: Limits)
    requires Storable(e, lim)
    ensures Fits(Rows(AssessmentRows(e.assessments)), Table(lim.maxEpisodeAssessments, AssessmentColumns()), lim.maxDocumentBytes)
  {
    var rows := AssessmentRows(e.assessments);
    forall i | 0 <= i < |rows| ensures FitsRow(rows[i], AssessmentColumns(), lim.maxDocumentBytes) {
      AssessmentFits(e.assessments[i], lim.maxDocumentBytes);
    }
  }

  lemma HistoryFits(e: Episode, lim: Limits)
    requires Storable(e, lim)
    ensures FitsFields(HistoryOf(e), HistoryColumns(lim), lim.maxDocumentBytes)
  {
    IdsFit(e.citations, lim.maxCitations, lim.maxDocumentBytes);
    SourcesFit(e, lim);
    TransitionsFit(e, lim);
    AssessmentsFit(e, lim);
    Records.LongFits(e.transitionsDropped, lim.maxDocumentBytes);
    Records.LongFits(e.assessmentsDropped, lim.maxDocumentBytes);
    FlagFits(e.historyTruncated, lim.maxDocumentBytes);
  }

  lemma FlagFits(b: bool, max: nat)
    ensures Fits(Num(Records.Bit(b)), Flag, max)
  {
  }

  lemma StorableFits(e: Episode, lim: Limits)
    requires Storable(e, lim)
    ensures FitsRow(EpisodeRow(e), EpisodeColumns(lim), lim.maxDocumentBytes)
  {
    KeyFits(e, lim);
    StateFits(e, lim);
    HistoryFits(e, lim);
    Records.FitsJoin(KeyOf(e), StateOf(e), KeyColumns(), StateColumns(), lim.maxDocumentBytes);
    Records.FitsJoin(KeyOf(e) + StateOf(e), HistoryOf(e), KeyColumns() + StateColumns(), HistoryColumns(lim), lim.maxDocumentBytes);
  }

  function EpisodeRows(episodes: seq<Episode>): seq<Row> {
    seq(|episodes|, i requires 0 <= i < |episodes| => EpisodeRow(episodes[i]))
  }

  // Storable episodes come back as they were, in their order.
  lemma EpisodesSurvive(episodes: seq<Episode>, lim: Limits, identity: Row -> nat)
    requires forall i :: 0 <= i < |episodes| ==> Storable(episodes[i], lim) && identity(EpisodeRow(episodes[i])) == episodes[i].id
    requires |episodes| <= Min(lim.maxSnapshotEpisodes, U32_MAX)
    ensures ReadEpisodes(SnapshotRebuild.WriteTable(EpisodeRows(episodes), EpisodeColumns(lim)), lim, identity) == Ok(EpisodeRows(episodes))
  {
    var rows := EpisodeRows(episodes);
    forall i | 0 <= i < |rows|
      ensures FitsRow(rows[i], EpisodeColumns(lim), lim.maxDocumentBytes) && identity(rows[i]) == NumAt(rows[i], 0)
    {
      StorableFits(episodes[i], lim);
    }
    EpisodesRoundTrip(rows, lim, identity);
  }
}
