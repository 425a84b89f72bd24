// The metadata, episode and evidence sections (src/persistence/snapshot.cpp:228-320,783-1013).
module SnapshotSections {
  import opened Base
  import opened LittleEndian
  import opened Model
  import opened SnapshotWire
  import opened SnapshotTopology
  import opened SnapshotRebuild

  const ID_WIDTH: nat := 16

  // ---- Columns ----

  function OriginColumns(): seq<Shape> {
    [Number(ID_WIDTH), Number(HALF), SubjectText, PLAIN, Number(BYTE), Text, Text]
  }

  function FenceColumns(): seq<Shape> {
    [PLAIN, Number(LONG), Number(LONG), Number(LONG), Number(LONG), Number(LONG), Number(LONG)]
  }

  function MeasureColumns(): seq<Shape> {
    [Number(LONG), Number(LONG), Number(BYTE), Number(LONG), Number(BYTE), Number(BYTE), Number(LONG), Number(BYTE), Number(BYTE)]
  }

  function MarkColumns(lim: Limits): seq<Shape> {
    [Flag, Flag, Text, Table(lim.maxLabels, [PLAIN]),
     Table(lim.maxMetadataEntries, [Short(lim.maxMetadataKeyBytes), Short(lim.maxMetadataValueBytes)])]
  }

  function EvidenceColumns(lim: Limits): seq<Shape> {
    OriginColumns() + FenceColumns() + MeasureColumns() + MarkColumns(lim)
  }

  function TransitionColumns(lim: Limits): seq<Shape> {
    [Number(LONG), Number(BYTE), Number(LONG), Number(BYTE), Number(BYTE), Number(BYTE), Number(BYTE), Number(WORD), Text,
     Table(lim.maxCitations, [Number(ID_WIDTH)])]
  }

  function AssessmentColumns(): seq<Shape> {
    [Number(LONG), Number(BYTE), Number(WORD), Number(BYTE), Number(WORD), Number(WORD), Flag, Number(ID_WIDTH)]
  }

  function KeyColumns(): seq<Shape> {
    [Number(ID_WIDTH), SubjectText, NameText(true), Number(BYTE), Number(LONG), Number(LONG), Number(LONG), Text]
  }

  function StateColumns(): seq<Shape> {
    [Number(BYTE), Number(LONG), Number(BYTE), Number(BYTE), Number(WORD), Number(LONG), Number(LONG), Number(LONG), Number(LONG),
     Number(LONG)]
  }

  function HistoryColumns(lim: Limits): seq<Shape> {
    [Table(lim.maxCitations, [Number(ID_WIDTH)]), Table(lim.maxSources, [PLAIN]),
     Table(lim.maxEpisodeTransitions, TransitionColumns(lim)), Table(lim.maxEpisodeAssessments, AssessmentColumns()),
     Number(LONG), Number(LONG), Flag]
  }

  function EpisodeColumns(lim: Limits): seq<Shape> { KeyColumns() + StateColumns() + HistoryColumns(lim) }

  const METADATA_COLUMNS: seq<Shape> :=
    [Text, Number(LONG), Number(LONG), Number(LONG), Number(LONG), Number(LONG), Number(LONG), Number(LONG),
     Number(LONG), Number(LONG), Number(LONG), Text]

  // ---- Episodes and evidence ----

  // Entries are kept in order; each must be whole and carry the identity its content gives it.
  function Identified(identity: Row -> nat): (seq<Row>, Row, bool) -> Result<seq<Row>> {
    (rows: seq<Row>, row: Row, ok: bool) =>
      if !ok || identity(row) != NumAt(row, 0) then Err(IntegrityFailure) else Ok(rows + [row])
  }

  // A section must have been read to its end, and without a failure.
  function AtEnd<T>(data: Bytes, read: Outcome<T>): Result<T> {
    match read
    case Refused(e) => Err(e)
    case Got(v, c) => if c.ok && c.position == |data| then Ok(v) else Err(IntegrityFailure)
  }

  function ReadEpisodes(data: Bytes, lim: Limits, identity: Row -> nat): Result<seq<Row>> {
    var (n, c) := ReadCount(data, Cursor(0, true), lim.maxSnapshotEpisodes);
    AtEnd(data, ReadEntries(data, c, n, EpisodeColumns(lim), lim.maxDocumentBytes, [], Identified(identity)))
  }

  // Too many records are none at all, so what follows their count is then in excess.
  function ReadEvidence(data: Bytes, lim: Limits, identity: Row -> nat): Result<(seq<Row>, bool)> {
    var (raw, c) := ReadNumber(data, Cursor(0, true), WORD);
    var n := if raw > lim.maxSnapshotEvidence then 0 else raw;
    match AtEnd(data, ReadEntries(data, c, n, EvidenceColumns(lim), lim.maxDocumentBytes, [], Identified(identity)))
    case Err(e) => Err(e)
    case Ok(rows) => Ok((rows, raw > lim.maxSnapshotEvidence))
  }

  ghost predicate Authentic(rows: seq<Row>, identity: Row -> nat) {
    forall i :: 0 <= i < |rows| ==> identity(rows[i]) == NumAt(rows[i], 0)
  }

  lemma {:induction false} AuthenticKept(done: seq<Row>, rows: seq<Row>, identity: Row -> nat)
    requires Authentic(rows, identity)
    ensures AdmitAll(done, rows, Identified(identity)) == Ok(done + rows)
    decreases |rows|
  {
    if rows == [] {
      assert done + rows == done;
    } else {
      AuthenticKept(done + [rows[0]], rows[1..], identity);
      assert done + rows == (done + [rows[0]]) + rows[1..];
    }
  }

  lemma SectionRead(rows: seq<Row>, columns: seq<Shape>, max: nat, bound: nat, identity: Row -> nat)
    requires FitsRows(rows, columns, max) && |rows| <= Min(bound, 0xFFFF_FFFF) && Authentic(rows, identity)
    ensures var data := WriteTable(rows, columns);
      && ReadCount(data, Cursor(0, true), bound) == (|rows|, Cursor(WORD, true))
      && AtEnd(data, ReadEntries(data, Cursor(WORD, true), |rows|, columns, max, [], Identified(identity))) == Ok(rows)
  {
    var data := WriteTable(rows, columns);
    AuthenticKept([], rows, identity);
    assert [] + rows == rows && data[0..|data|] == data;
    TableRead(data, 0, rows, columns, max, bound, [], rows, Identified(identity));
  }

  lemma EpisodesRoundTrip(rows: seq<Row>, lim: Limits, identity: Row -> nat)
    requires FitsRows(rows, EpisodeColumns(lim), lim.maxDocumentBytes) && Authentic(rows, identity)
    requires |rows| <= Min(lim.maxSnapshotEpisodes, 0xFFFF_FFFF)
    ensures ReadEpisodes(WriteTable(rows, EpisodeColumns(lim)), lim, identity) == Ok(rows)
  {
    SectionRead(rows, EpisodeColumns(lim), lim.maxDocumentBytes, lim.maxSnapshotEpisodes, identity);
  }

  lemma EvidenceRoundTrip(rows: seq<Row>, lim: Limits, identity: Row -> nat)
    requires FitsRows(rows, EvidenceColumns(lim), lim.maxDocumentBytes) && Authentic(rows, identity)
    requires |rows| <= Min(lim.maxSnapshotEvidence, 0xFFFF_FFFF)
    ensures ReadEvidence(WriteTable(rows, EvidenceColumns(lim)), lim, identity) == Ok((rows, false))
  {
    SectionRead(rows, EvidenceColumns(lim), lim.maxDocumentBytes, lim.maxSnapshotEvidence, identity);
    var data := WriteTable(rows, EvidenceColumns(lim));
    CountIsNumber(data, Cursor(0, true), lim.maxSnapshotEvidence);
  }

  lemma CountIsNumber(data: Bytes, c: Cursor, bound: nat)
    requires c.position <= |data|
    ensures var (n, c1) := ReadCount(data, c, bound);
      c1.ok ==> ReadNumber(data, c, WORD) == (n, c1)
  {
  }

  lemma OnlyAuthentic(data: Bytes, c: Cursor, n: nat, columns: seq<Shape>, max: nat, rows: seq<Row>, identity: Row -> nat)
    requires c.position <= |data| && Authentic(rows, identity)
    ensures var r := ReadEntries(data, c, n, columns, max, rows, Identified(identity)); r.Got? ==> Authentic(r.value, identity)
  {
    ghost var kept := (s: seq<Row>) => Authentic(s, identity);
    forall s: seq<Row>, row, ok | kept(s) && Identified(identity)(s, row, ok).Ok? ensures kept(Identified(identity)(s, row, ok).value) {
    }
    EntriesKeep(data, c, n, columns, max, rows, Identified(identity), kept);
  }

  // Whatever the bytes, the entries that are read carry the identities their contents give them.
  lemma ReadIsAuthentic(data: Bytes, lim: Limits, identity: Row -> nat)
    ensures var r := ReadEpisodes(data, lim, identity); r.Ok? ==> Authentic(r.value, identity)
    ensures var r := ReadEvidence(data, lim, identity); r.Ok? ==> Authentic(r.value.0, identity)
  {
    var (n, c) := ReadCount(data, Cursor(0, true), lim.maxSnapshotEpisodes);
    OnlyAuthentic(data, c, n, EpisodeColumns(lim), lim.maxDocumentBytes, [], identity);
    var (raw, d) := ReadNumber(data, Cursor(0, true), WORD);
    OnlyAuthentic(data, d, if raw > lim.maxSnapshotEvidence then 0 else raw, EvidenceColumns(lim), lim.maxDocumentBytes, [], identity);
  }

  // ---- Metadata ----

  // Timestamps are written as their 64-bit pattern.
  function Wrap(t: int): nat { t % 0x1_0000_0000_0000_0000 }

  ghost predicate InRange(t: int) { -0x8000_0000_0000_0000 <= t < 0x8000_0000_0000_0000 }

  lemma WrapInjective(a: int, b: int)
    requires InRange(a) && InRange(b) && Wrap(a) == Wrap(b)
    ensures a == b
  {
  }

  // The section is not checked for bytes behind its last field.
  function ReadMetadata(data: Bytes, lim: Limits): Result<Row> {
    match ReadRow(data, Cursor(0, true), METADATA_COLUMNS, lim.maxDocumentBytes)
    case Refused(e) => Err(e)
    case Got(row, c) => if c.ok then Ok(row) else Err(IntegrityFailure)
  }

  lemma MetadataRoundTrip(row: Row, lim: Limits)
    requires FitsRow(row, METADATA_COLUMNS, lim.maxDocumentBytes)
    ensures ReadMetadata(WriteRow(row, METADATA_COLUMNS), lim) == Ok(row)
  {
    var data := WriteRow(row, METADATA_COLUMNS);
    assert data[0..|data|] == data;
    RowRoundTrip(data, 0, row, METADATA_COLUMNS, lim.maxDocumentBytes);
  }
}
