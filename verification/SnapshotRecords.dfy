// An evidence record as the row it is stored as (src/persistence/snapshot.cpp:228-268).
module SnapshotRecords {
  import opened Base
  import opened LittleEndian
  import opened Model
  import opened SnapshotWire
  import opened SnapshotTopology
  import opened SnapshotSections
  import SnapshotRebuild

  // In a snapshot the measured value is its 64-bit pattern.
  type Stored = EvidenceRecord<u64>

  function CodeOfKind(kind: EvidenceKind): nat {
    match kind
    case UnknownKind => 0
    case LinkUtilization => 1
    case PortUtilization => 2
    case QueueOccupancy => 3
    case QueueDepth => 4
    case BufferOccupancy => 5
    case DropCount => 6
    case MarkCount => 7
    case PauseCount => 8
    case PauseDuration => 9
    case LatencySample => 10
    case OfferedDemand => 11
    case AchievedThroughput => 12
    case ActiveFlowCount => 13
    case ActiveClassCount => 14
    case OperState => 15
    case SourceHeartbeat => 16
    case TopologyAdvertisement => 17
    case CapacityAdvertisement => 18
    case RetransmitCount => 19
  }

  function CodeOfUnit(u: ObservationUnit): nat {
    match u
    case UnknownUnit => 0
    case Ratio => 1
    case Cells => 2
    case Packets => 3
    case OctetCount => 4
    case Nanoseconds => 5
    case BitsPerSecond => 6
    case Count => 7
    case Boolean => 8
    case Frames => 9
  }

  function CodeOfSemantics(s: ValueSemantics): nat {
    match s
    case UnknownSemantics => 0
    case Gauge => 1
    case CumulativeCounter => 2
    case DeltaCounter => 3
    case Rate => 4
  }

  function CodeOfClock(c: ClockDomain): nat {
    match c
    case UnknownClock => 0
    case SourceMonotonic => 1
    case SourceWallClock => 2
    case CollectorMonotonic => 3
    case CollectorWallClock => 4
  }

  function CodeOfCompleteness(c: Completeness): nat {
    match c
    case Complete => 0
    case Partial => 1
    case Incomplete => 2
    case UnknownCompleteness => 3
  }

  function CodeOfSupport(s: Support): nat {
    match s
    case Supported => 0
    case Unsupported => 1
    case UnknownSupport => 2
  }

  function Bit(b: bool): nat { if b then 1 else 0 }

  function NameRows(names: seq<Name>): seq<Row> { seq(|names|, i requires 0 <= i < |names| => Row([Chars(names[i])])) }

  function PairRows(pairs: seq<(Bytes, Bytes)>): seq<Row> {
    seq(|pairs|, i requires 0 <= i < |pairs| => Row([Chars(pairs[i].0), Chars(pairs[i].1)]))
  }

  // ---- The row of a record, in the order of the writer ----

  function OriginOf(r: Stored): seq<Field> {
    [Num(r.id), Num(CodeOfKind(r.kind)), About(r.subject), Chars(r.source), Num(r.authority.Rank()), Chars(r.transport),
     Chars(r.collector)]
  }

  function FenceOf(r: Stored): seq<Field> {
    [Chars(r.fence.source), Num(r.fence.boot), Num(r.fence.incarnation), Num(r.fence.gen.epoch), Num(r.fence.gen.generation),
     Num(r.fence.gen.revision), Num(r.fence.sequence)]
  }

  function MeasureOf(r: Stored): seq<Field> {
    [Num(Wrap(r.observedAt)), Num(Wrap(r.receivedAt)), Num(CodeOfClock(r.clock)), Num(r.scalar), Num(CodeOfUnit(r.unit_)),
     Num(CodeOfSemantics(r.semantics)), Num(Wrap(r.validity)), Num(CodeOfCompleteness(r.completeness)),
     Num(CodeOfSupport(r.support))]
  }

  function MarksOf(r: Stored): seq<Field> {
    [Num(Bit(r.recovered)), Num(Bit(r.retired)), Chars(r.note), Rows(NameRows(r.labels)), Rows(PairRows(r.metadata))]
  }

  function EvidenceRow(r: Stored): Row { Row(OriginOf(r) + FenceOf(r) + MeasureOf(r) + MarksOf(r)) }

  // ---- Rows tell records apart ----

  ghost predicate Timed(r: Stored) { InRange(r.observedAt) && InRange(r.receivedAt) && InRange(r.validity) }

  lemma OriginInjective(a: Stored, b: Stored)
    requires OriginOf(a) == OriginOf(b)
    ensures a.id == b.id && a.kind == b.kind && a.subject == b.subject && a.source == b.source
    ensures a.authority == b.authority && a.transport == b.transport && a.collector == b.collector
  {
    var x, y := OriginOf(a), OriginOf(b);
    assert x[0] == y[0] && x[1] == y[1] && x[2] == y[2] && x[3] == y[3] && x[4] == y[4] && x[5] == y[5] && x[6] == y[6];
  }

  lemma FenceInjective(a: Stored, b: Stored)
    requires FenceOf(a) == FenceOf(b)
    ensures a.fence == b.fence
  {
    var x, y := FenceOf(a), FenceOf(b);
    assert x[0] == y[0] && x[1] == y[1] && x[2] == y[2] && x[3] == y[3] && x[4] == y[4] && x[5] == y[5] && x[6] == y[6];
  }

  lemma MeasureInjective(a: Stored, b: Stored)
    requires Timed(a) && Timed(b) && MeasureOf(a) == MeasureOf(b)
    ensures a.observedAt == b.observedAt && a.receivedAt == b.receivedAt && a.clock == b.clock && a.scalar == b.scalar
    ensures a.unit_ == b.unit_ && a.semantics == b.semantics && a.validity == b.validity
    ensures a.completeness == b.completeness && a.support == b.support
  {
    var x, y := MeasureOf(a), MeasureOf(b);
    assert x[0] == y[0] && x[1] == y[1] && x[2] == y[2] && x[3] == y[3] && x[4] == y[4];
    assert x[5] == y[5] && x[6] == y[6] && x[7] == y[7] && x[8] == y[8];
    WrapInjective(a.observedAt, b.observedAt);
    WrapInjective(a.receivedAt, b.receivedAt);
    WrapInjective(a.validity, b.validity);
  }

  lemma NamesInjective(a: seq<Name>, b: seq<Name>)
    requires NameRows(a) == NameRows(b)
    ensures a == b
  {
    assert |a| == |NameRows(a)| && |b| == |NameRows(b)|;
    forall i | 0 <= i < |a| ensures a[i] == b[i] {
      assert NameRows(a)[i].fields[0] == NameRows(b)[i].fields[0];
    }
  }

  lemma PairsInjective(a: seq<(Bytes, Bytes)>, b: seq<(Bytes, Bytes)>)
    requires PairRows(a) == PairRows(b)
    ensures a == b
  {
    assert |a| == |PairRows(a)| && |b| == |PairRows(b)|;
    forall i | 0 <= i < |a| ensures a[i] == b[i] {
      assert PairRows(a)[i].fields[0] == PairRows(b)[i].fields[0] && PairRows(a)[i].fields[1] == PairRows(b)[i].fields[1];
    }
  }

  lemma MarksInjective(a: Stored, b: Stored)
    requires MarksOf(a) == MarksOf(b)
    ensures a.recovered == b.recovered && a.retired == b.retired && a.note == b.note && a.labels == b.labels && a.metadata == b.metadata
  {
    var x, y := MarksOf(a), MarksOf(b);
    assert x[0] == y[0] && x[1] == y[1] && x[2] == y[2] && x[3] == y[3] && x[4] == y[4];
    NamesInjective(a.labels, b.labels);
    PairsInjective(a.metadata, b.metadata);
  }

  // Two records with the same row are the same, but for their place in the store, which is not stored.
  lemma EvidenceRowInjective(a: Stored, b: Stored)
    requires Timed(a) && Timed(b) && EvidenceRow(a) == EvidenceRow(b)
    ensures a == b.(insertionIndex := a.insertionIndex)
  {
    var x, y := EvidenceRow(a).fields, EvidenceRow(b).fields;
    assert OriginOf(a) == x[..7] && OriginOf(b) == y[..7];
    assert FenceOf(a) == x[7..14] && FenceOf(b) == y[7..14];
    assert MeasureOf(a) == x[14..23] && MeasureOf(b) == y[14..23];
    assert MarksOf(a) == x[23..] && MarksOf(b) == y[23..];
    OriginInjective(a, b);
    FenceInjective(a, b);
    MeasureInjective(a, b);
    MarksInjective(a, b);
  }

  // ---- Which records can be stored ----

  ghost predicate FitsName(name: Name, max: nat) { IsCanonical(name) && |name| <= max }

  // Names are canonical, texts within the bounds, instants 64 bits wide.
  ghost predicate Storable(r: Stored, lim: Limits) {
    var max := lim.maxDocumentBytes;
    && r.id < Pow256(ID_WIDTH) && Timed(r)
    && FitsSubject(r.subject, max) && FitsName(r.source, max) && FitsName(r.fence.source, max)
    && FitsText(r.transport, max) && FitsText(r.collector, max) && FitsText(r.note, max)
    && |r.labels| <= Min(lim.maxLabels, 0xFFFF_FFFF) && |r.metadata| <= Min(lim.maxMetadataEntries, 0xFFFF_FFFF)
    && (forall i :: 0 <= i < |r.labels| ==> FitsName(r.labels[i], max))
    && (forall i :: 0 <= i < |r.metadata| ==>
          && FitsText(r.metadata[i].0, Min(lim.maxMetadataKeyBytes, max))
          && FitsText(r.metadata[i].1, Min(lim.maxMetadataValueBytes, max)))
  }

  lemma FitsJoin(a: seq<Field>, b: seq<Field>, x: seq<Shape>, y: seq<Shape>, max: nat)
    requires FitsFields(a, x, max) && FitsFields(b, y, max)
    ensures FitsFields(a + b, x + y, max)
  {
    forall i | 0 <= i < |a + b| ensures Fits((a + b)[i], (x + y)[i], max) {
      if i < |a| {
        assert Fits(a[i], x[i], max);
      } else {
        assert Fits(b[i - |a|], y[i - |a|], max);
      }
    }
  }

  lemma ByteFits(n: nat, max: nat)
    requires n < 256
    ensures Fits(Num(n), Number(BYTE), max)
  {
    Widths();
  }

  lemma HalfFits(n: nat, max: nat)
    requires n < 0x1_0000
    ensures Fits(Num(n), Number(HALF), max)
  {
    Widths();
  }

  lemma LongFits(n: nat, max: nat)
    requires n < 0x1_0000_0000_0000_0000
    ensures Fits(Num(n), Number(LONG), max)
  {
    Widths();
  }

  lemma OriginFits(r: Stored, lim: Limits)
    requires Storable(r, lim)
    ensures FitsFields(OriginOf(r), OriginColumns(), lim.maxDocumentBytes)
  {
    OriginWithin(r, ID_WIDTH, lim.maxDocumentBytes);
  }

  lemma OriginWithin(r: Stored, width: nat, max: nat)
    requires r.id < Pow256(width) && FitsSubject(r.subject, max) && FitsName(r.source, max)
    requires FitsText(r.transport, max) && FitsText(r.collector, max)
    ensures FitsFields(OriginOf(r), [Number(width), Number(HALF), SubjectText, PLAIN, Number(BYTE), Text, Text], max)
  {
    HalfFits(CodeOfKind(r.kind), max);
    ByteFits(r.authority.Rank(), max);
    SevenFit(Num(r.id), Num(CodeOfKind(r.kind)), About(r.subject), Chars(r.source), Num(r.authority.Rank()), Chars(r.transport),
             Chars(r.collector), [Number(width), Number(HALF), SubjectText, PLAIN, Number(BYTE), Text, Text], max);
  }

  lemma SevenFit(a: Field, b: Field, c: Field, d: Field, e: Field, f: Field, g: Field, columns: seq<Shape>, max: nat)
    requires |columns| == 7 && Fits(a, columns[0], max) && Fits(b, columns[1], max) && Fits(c, columns[2], max)
    requires Fits(d, columns[3], max) && Fits(e, columns[4], max) && Fits(f, columns[5], max) && Fits(g, columns[6], max)
    ensures FitsFields([a, b, c, d, e, f, g], columns, max)
  {
  }

  lemma StartFits(f: FenceVector, max: nat)
    requires FitsName(f.source, max) && |f.source| <= 0xFFFF_FFFF
    ensures FitsFields([Chars(f.source), Num(f.boot), Num(f.incarnation)], [PLAIN, Number(LONG), Number(LONG)], max)
  {
    LongFits(f.boot, max);
    LongFits(f.incarnation, max);
  }

  lemma OrderFits(f: FenceVector, max: nat)
    ensures FitsFields([Num(f.gen.epoch), Num(f.gen.generation), Num(f.gen.revision), Num(f.sequence)],
                       [Number(LONG), Number(LONG), Number(LONG), Number(LONG)], max)
  {
    LongFits(f.gen.epoch, max);
    LongFits(f.gen.generation, max);
    LongFits(f.gen.revision, max);
    LongFits(f.sequence, max);
  }

  lemma FenceFits(r: Stored, lim: Limits)
    requires Storable(r, lim)
    ensures FitsFields(FenceOf(r), FenceColumns(), lim.maxDocumentBytes)
  {
    var max, f := lim.maxDocumentBytes, r.fence;
    StartFits(f, max);
    OrderFits(f, max);
    var start, order := [Chars(f.source), Num(f.boot), Num(f.incarnation)], FenceOf(r)[3..];
    assert order == [Num(f.gen.epoch), Num(f.gen.generation), Num(f.gen.revision), Num(f.sequence)];
    assert FenceOf(r) == start + order;
    assert FenceColumns() == [PLAIN, Number(LONG), Number(LONG)] + [Number(LONG), Number(LONG), Number(LONG), Number(LONG)];
    FitsJoin(start, order, [PLAIN, Number(LONG), Number(LONG)], [Number(LONG), Number(LONG), Number(LONG), Number(LONG)], max);
  }

  function TimesOf(r: Stored): seq<Field> { [Num(Wrap(r.observedAt)), Num(Wrap(r.receivedAt)), Num(CodeOfClock(r.clock))] }

  function ValueOf(r: Stored): seq<Field> { [Num(r.scalar), Num(CodeOfUnit(r.unit_)), Num(CodeOfSemantics(r.semantics))] }

  function StandingOf(r: Stored): seq<Field> {
    [Num(Wrap(r.validity)), Num(CodeOfCompleteness(r.completeness)), Num(CodeOfSupport(r.support))]
  }

  const TIMES: seq<Shape> := [Number(LONG), Number(LONG), Number(BYTE)]
  const VALUES: seq<Shape> := [Number(LONG), Number(BYTE), Number(BYTE)]

  lemma TimesFit(r: Stored, max: nat)
    requires Timed(r)
    ensures FitsFields(TimesOf(r), TIMES, max)
  {
    LongFits(Wrap(r.observedAt), max);
    LongFits(Wrap(r.receivedAt), max);
    ByteFits(CodeOfClock(r.clock), max);
  }

  lemma ValueFits(r: Stored, max: nat)
    requires Timed(r)
    ensures FitsFields(ValueOf(r), VALUES, max)
  {
    LongFits(r.scalar, max);
    ByteFits(CodeOfUnit(r.unit_), max);
    ByteFits(CodeOfSemantics(r.semantics), max);
  }

  lemma StandingFits(r: Stored, max: nat)
    requires Timed(r)
    ensures FitsFields(StandingOf(r), VALUES, max)
  {
    LongFits(Wrap(r.validity), max);
    ByteFits(CodeOfCompleteness(r.completeness), max);
    ByteFits(CodeOfSupport(r.support), max);
  }

  lemma MeasureParts(r: Stored)
    ensures MeasureOf(r) == TimesOf(r) + ValueOf(r) + StandingOf(r) && MeasureColumns() == TIMES + VALUES + VALUES
  {
  }

  lemma MeasureFits(r: Stored, lim: Limits)
    requires Storable(r, lim)
    ensures FitsFields(MeasureOf(r), MeasureColumns(), lim.maxDocumentBytes)
  {
    MeasureWithin(r, lim.maxDocumentBytes);
  }

  lemma MeasureWithin(r: Stored, max: nat)
    requires Timed(r)
    ensures FitsFields(MeasureOf(r), MeasureColumns(), max)
  {
    TimesFit(r, max);
    ValueFits(r, max);
    StandingFits(r, max);
    MeasureParts(r);
    ThreeJoin(TimesOf(r), ValueOf(r), StandingOf(r), TIMES, VALUES, VALUES, max);
  }

  lemma ThreeJoin(a: seq<Field>, b: seq<Field>, c: seq<Field>, x: seq<Shape>, y: seq<Shape>, z: seq<Shape>, max: nat)
    requires FitsFields(a, x, max) && FitsFields(b, y, max) && FitsFields(c, z, max)
    ensures FitsFields(a + b + c, x + y + z, max)
  {
    FitsJoin(a, b, x, y, max);
    FitsJoin(a + b, c, x + y, z, max);
  }

  lemma LabelsFit(r: Stored, lim: Limits)
    requires Storable(r, lim)
    ensures Fits(Rows(NameRows(r.labels)), Table(lim.maxLabels, [PLAIN]), lim.maxDocumentBytes)
  {
    forall i | 0 <= i < |r.labels| ensures FitsRow(NameRows(r.labels)[i], [PLAIN], lim.maxDocumentBytes) {
      assert Fits(Chars(r.labels[i]), PLAIN, lim.maxDocumentBytes);
    }
  }

  lemma PairsFit(r: Stored, lim: Limits)
    requires Storable(r, lim)
    ensures Fits(Rows(PairRows(r.metadata)),
                 Table(lim.maxMetadataEntries, [Short(lim.maxMetadataKeyBytes), Short(lim.maxMetadataValueBytes)]), lim.maxDocumentBytes)
  {
    var columns := [Short(lim.maxMetadataKeyBytes), Short(lim.maxMetadataValueBytes)];
    forall i | 0 <= i < |r.metadata| ensures FitsRow(PairRows(r.metadata)[i], columns, lim.maxDocumentBytes) {
      assert Fits(Chars(r.metadata[i].0), columns[0], lim.maxDocumentBytes);
      assert Fits(Chars(r.metadata[i].1), columns[1], lim.maxDocumentBytes);
    }
  }

  lemma MarksFit(r: Stored, lim: Limits)
    requires Storable(r, lim)
    ensures FitsFields(MarksOf(r), MarkColumns(lim), lim.maxDocumentBytes)
  {
    LabelsFit(r, lim);
    PairsFit(r, lim);
  }

  // What can be stored fits the columns of its section, so it is read back.
  lemma StorableFits(r: Stored, lim: Limits)
    requires Storable(r, lim)
    ensures FitsRow(EvidenceRow(r), EvidenceColumns(lim), lim.maxDocumentBytes)
  {
    OriginFits(r, lim);
    FenceFits(r, lim);
    MeasureFits(r, lim);
    MarksFit(r, lim);
    FitsJoin(OriginOf(r), FenceOf(r), OriginColumns(), FenceColumns(), lim.maxDocumentBytes);
    FitsJoin(OriginOf(r) + FenceOf(r), MeasureOf(r), OriginColumns() + FenceColumns(), MeasureColumns(), lim.maxDocumentBytes);
    FitsJoin(OriginOf(r) + FenceOf(r) + MeasureOf(r), MarksOf(r), OriginColumns() + FenceColumns() + MeasureColumns(),
             MarkColumns(lim), lim.maxDocumentBytes);
  }

  function EvidenceRows(records: seq<Stored>): seq<Row> {
    seq(|records|, i requires 0 <= i < |records| => EvidenceRow(records[i]))
  }

  // Storable records come back as they were, in their order.
  lemma RecordsRoundTrip(records: seq<Stored>, lim: Limits, identity: Row -> nat)
    requires forall i :: 0 <= i < |records| ==> Storable(records[i], lim) && identity(EvidenceRow(records[i])) == records[i].id
    requires |records| <= Min(lim.maxSnapshotEvidence, 0xFFFF_FFFF)
    ensures ReadEvidence(SnapshotRebuild.WriteTable(EvidenceRows(records), EvidenceColumns(lim)), lim, identity)
      == Ok((EvidenceRows(records), false))
  {
    var rows := EvidenceRows(records);
    forall i | 0 <= i < |rows|
      ensures FitsRow(rows[i], EvidenceColumns(lim), lim.maxDocumentBytes) && identity(rows[i]) == NumAt(rows[i], 0)
    {
      StorableFits(records[i], lim);
    }
    EvidenceRoundTrip(rows, lim, identity);
  }
}
