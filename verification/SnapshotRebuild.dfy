// Writing a topology and reading it back (src/persistence/snapshot.cpp:210-215,322-376).
module SnapshotRebuild {
  import opened Base
  import opened LittleEndian
  import opened Model
  import opened SnapshotWire
  import opened SnapshotTopology

  type Lists = l: seq<seq<Row>> | |l| == TABLES witness [[], [], [], [], [], [], []]

  // The rows of each table in some order; the maps of the source give them by ascending identity.
  ghost predicate Enumerates(lists: Lists, tables: Tables) {
    forall k: nat :: k < TABLES ==> ListsTable(lists[k], tables[k])
  }

  lemma StageFacts(whole: Tables, k: nat, building: Table)
    requires k < TABLES
    ensures Stage(whole, k, building)[k] == building && forall j: nat :: j < k ==> Stage(whole, k, building)[j] == whole[j]
  {
  }

  lemma StageUpdate(whole: Tables, k: nat, building: Table, more: Table)
    requires k < TABLES
    ensures Stage(whole, k, building)[k := more] == Stage(whole, k, more)
  {
  }

  lemma PartExtends(list: seq<Row>, i: nat)
    requires i < |list|
    ensures TableOf(list[..i + 1]) == TableOf(list[..i])[Id(list[i]) := list[i]]
  {
    assert list[..i + 1][..i] == list[..i];
  }

  lemma PartIsNew(list: seq<Row>, i: nat)
    requires IdsApart(list) && i < |list|
    ensures Id(list[i]) !in TableOf(list[..i])
  {
    TableOfIds(list[..i], Id(list[i]));
    assert forall j :: 0 <= j < i ==> list[..i][j] == list[j];
  }

  lemma PartOf(list: seq<Row>, i: nat)
    requires IdsApart(list) && i < |list|
    ensures |TableOf(list[..i])| == i < |TableOf(list)|
    ensures Id(list[i]) in TableOf(list) && TableOf(list)[Id(list[i])] == list[i]
  {
    TableOfSize(list[..i]);
    TableOfSize(list);
    TableOfRow(list, i);
  }

  lemma PartWithin(list: seq<Row>, i: nat)
    requires IdsApart(list) && i <= |list|
    ensures TableOf(list[..i]).Keys <= TableOf(list).Keys
    ensures forall id :: id in TableOf(list[..i]) ==> TableOf(list[..i])[id] == TableOf(list)[id]
  {
    forall id | id in TableOf(list[..i]) ensures id in TableOf(list) && TableOf(list[..i])[id] == TableOf(list)[id] {
      TableOfIds(list[..i], id);
      var j :| 0 <= j < i && Id(list[..i][j]) == id;
      TableOfRow(list[..i], j);
      TableOfRow(list, j);
    }
  }

  // A row of a sound table raises no objection when the tables before its own are there.
  lemma NoObjection(whole: Tables, k: nat, building: Table, row: Row, lim: Limits)
    requires k < TABLES && Sound(whole, lim) && Id(row) in whole[k] && whole[k][Id(row)] == row
    ensures Id(row) != [] && Objection(k, Stage(whole, k, building), row, lim) == None
  {
    StageFacts(whole, k, building);
    assert SoundRow(k, whole, Id(row), lim);
    ObjectionLooksBack(k, whole, Stage(whole, k, building), row, lim);
  }

  lemma AddAccepts(k: nat, tables: Tables, row: Row, lim: Limits)
    requires k < TABLES && Id(row) != [] && Id(row) !in tables[k] && |tables[k]| < Most(k, lim) && Objection(k, tables, row, lim) == None
    requires k == PORTS ==> |PortsOn(tables[PORTS], TextAt(row, 1))| < lim.maxPortsPerNode
    ensures Add(k, tables, row, lim) == Ok(tables[k := tables[k][Id(row) := row]])
  {
  }

  lemma AddToStage(whole: Tables, k: nat, list: seq<Row>, i: nat, lim: Limits)
    requires k < TABLES && Sound(whole, lim) && ListsTable(list, whole[k]) && i < |list|
    ensures Add(k, Stage(whole, k, TableOf(list[..i])), list[i], lim) == Ok(Stage(whole, k, TableOf(list[..i + 1])))
  {
    var part, row := TableOf(list[..i]), list[i];
    PartOf(list, i);
    PartIsNew(list, i);
    PartExtends(list, i);
    PartWithin(list, i);
    StageFacts(whole, k, part);
    NoObjection(whole, k, part, row, lim);
    if k == PORTS {
      PortsGrow(part, whole[k], row);
    }
    AddAccepts(k, Stage(whole, k, part), row, lim);
    StageUpdate(whole, k, part, part[Id(row) := row]);
  }

  lemma {:induction false} Rebuild(whole: Tables, k: nat, list: seq<Row>, i: nat, lim: Limits)
    requires k < TABLES && Sound(whole, lim) && ListsTable(list, whole[k]) && i <= |list|
    ensures AdmitAll(Stage(whole, k, TableOf(list[..i])), list[i..], Keep(k, lim)) == Ok(Stage(whole, k, whole[k]))
    decreases |list| - i
  {
    if i == |list| {
      assert list[..i] == list;
    } else {
      AddToStage(whole, k, list, i, lim);
      Rebuild(whole, k, list, i + 1, lim);
      assert list[i..][0] == list[i] && list[i..][1..] == list[i + 1..];
    }
  }

  // ---- Writing ----

  const LABELS_WRITTEN: nat := 64

  // A node is written with its first labels only.
  function Clip(row: Row): Row {
    if 2 < |row.fields| && row.fields[2].Rows? && |row.fields[2].rows| > LABELS_WRITTEN
    then Row(row.fields[2 := Rows(row.fields[2].rows[..LABELS_WRITTEN])])
    else row
  }

  function ClipAll(rows: seq<Row>): seq<Row> { seq(|rows|, i requires 0 <= i < |rows| => Clip(rows[i])) }

  function WriteTable(rows: seq<Row>, columns: seq<Shape>): Bytes { Put(|rows|, WORD) + WriteRows(rows, columns) }

  function WriteTables(lists: seq<seq<Row>>, schemas: seq<Schema>): Bytes {
    if lists == [] || schemas == [] then [] else WriteTable(lists[0], schemas[0].columns) + WriteTables(lists[1..], schemas[1..])
  }

  function HeaderOf(f: Fabric): Row {
    Row([Num(f.generation.epoch), Num(f.generation.generation), Num(f.generation.revision), Chars(f.revision)])
  }

  function WriteFabric(f: Fabric, lists: Lists, lim: Limits): Bytes {
    WriteRow(HeaderOf(f), HEADER) + WriteTables(lists[NODES := ClipAll(lists[NODES])], Schemas(lim))
  }

  // Every row can be read back: its names are names, its numbers have their width, its texts are within the bound.
  ghost predicate Fitting(tables: Tables, lim: Limits) {
    forall k: nat :: k < TABLES ==>
      |tables[k]| <= 0xFFFF_FFFF && forall id :: id in tables[k] ==> FitsRow(tables[k][id], Columns(k, lim), lim.maxDocumentBytes)
  }

  lemma ListFits(list: seq<Row>, k: nat, tables: Tables, lim: Limits)
    requires k < TABLES && ListsTable(list, tables[k]) && Fitting(tables, lim)
    ensures FitsRows(list, Columns(k, lim), lim.maxDocumentBytes) && |list| == |tables[k]|
  {
    TableOfSize(list);
    forall i | 0 <= i < |list| ensures FitsRow(list[i], Columns(k, lim), lim.maxDocumentBytes) {
      TableOfRow(list, i);
      assert tables[k][Id(list[i])] == list[i];
    }
  }

  lemma StageEnds(whole: Tables, k: nat)
    requires k < TABLES
    ensures Stage(whole, k, whole[k]) == if k + 1 == TABLES then whole else Stage(whole, k + 1, map[])
  {
    if k + 1 == TABLES {
      assert forall j: nat :: j < TABLES ==> Stage(whole, k, whole[k])[j] == whole[j];
    }
  }

  ghost function AtTable(whole: Tables, k: nat): Tables
    requires k <= TABLES
  {
    if k == TABLES then whole else Stage(whole, k, map[])
  }

  lemma RebuildTable(whole: Tables, list: seq<Row>, k: nat, lim: Limits)
    requires k < TABLES && Sound(whole, lim) && ListsTable(list, whole[k])
    ensures AdmitAll(AtTable(whole, k), list, Keep(k, lim)) == Ok(AtTable(whole, k + 1))
  {
    Rebuild(whole, k, list, 0, lim);
    assert list[..0] == [] && list[0..] == list;
    StageEnds(whole, k);
  }

  lemma EntriesRead<S>(data: Bytes, position: nat, rows: seq<Row>, columns: seq<Shape>, max: nat, from: S, to: S,
                       admit: (S, Row, bool) -> Result<S>)
    requires FitsRows(rows, columns, max) && At(data, position, WriteRows(rows, columns))
    requires AdmitAll(from, rows, admit) == Ok(to)
    ensures ReadEntries(data, Cursor(position, true), |rows|, columns, max, from, admit)
      == Got(to, Cursor(position + |WriteRows(rows, columns)|, true))
  {
    EntriesRoundTrip(data, position, rows, columns, max, from, admit);
  }

  // A counted table: its rows are handed over in order.
  lemma TableRead<S>(data: Bytes, position: nat, rows: seq<Row>, columns: seq<Shape>, max: nat, bound: nat, from: S, to: S,
                     admit: (S, Row, bool) -> Result<S>)
    requires FitsRows(rows, columns, max) && |rows| <= Min(bound, 0xFFFF_FFFF) && AdmitAll(from, rows, admit) == Ok(to)
    requires At(data, position, WriteTable(rows, columns))
    ensures ReadCount(data, Cursor(position, true), bound) == (|rows|, Cursor(position + WORD, true))
    ensures ReadEntries(data, Cursor(position + WORD, true), |rows|, columns, max, from, admit)
      == Got(to, Cursor(position + |WriteTable(rows, columns)|, true))
  {
    AtSplit(data, position, Put(|rows|, WORD), WriteRows(rows, columns));
    CountRead(data, position, |rows|, bound);
    EntriesRead(data, position + WORD, rows, columns, max, from, to, admit);
  }

  // The rows of every table fit its columns and lead from one stage of the tables to the next.
  ghost predicate Leads(lists: seq<seq<Row>>, schemas: seq<Schema>, max: nat, stage: nat -> Tables) {
    |lists| == |schemas| && forall k :: 0 <= k < |schemas| ==> LeadsAt(lists[k], schemas[k], max, stage(k), stage(k + 1))
  }

  ghost predicate LeadsAt(rows: seq<Row>, schema: Schema, max: nat, from: Tables, to: Tables) {
    && FitsRows(rows, schema.columns, max)
    && |rows| <= Min(schema.most, 0xFFFF_FFFF)
    && AdmitAll(from, rows, schema.keep) == Ok(to)
  }

  // Reading one table leads from one stage to the next.
  ghost predicate TableReads(data: Bytes, start: Cursor, end: Cursor, schema: Schema, max: nat, from: Tables, to: Tables) {
    && start.position <= |data|
    && end.position <= |data|
    && var (n, c) := ReadCount(data, start, schema.most);
       ReadEntries(data, c, n, schema.columns, max, from, schema.keep) == Got(to, end)
  }

  lemma TablesUnroll(data: Bytes, start: Cursor, end: Cursor, schemas: seq<Schema>, max: nat, from: Tables, to: Tables)
    requires schemas != [] && TableReads(data, start, end, schemas[0], max, from, to)
    ensures ReadTables(data, start, schemas, from, max) == ReadTables(data, end, schemas[1..], to, max)
  {
  }

  lemma WrittenReads(data: Bytes, position: nat, rows: seq<Row>, schema: Schema, max: nat, from: Tables, to: Tables)
    requires LeadsAt(rows, schema, max, from, to) && At(data, position, WriteTable(rows, schema.columns))
    ensures TableReads(data, Cursor(position, true), Cursor(position + |WriteTable(rows, schema.columns)|, true), schema, max, from, to)
  {
    TableRead(data, position, rows, schema.columns, max, schema.most, from, to, schema.keep);
  }

  lemma WriteUnroll(lists: seq<seq<Row>>, schemas: seq<Schema>, k: nat)
    requires k < |lists| == |schemas|
    ensures WriteTables(lists[k..], schemas[k..])
      == WriteTable(lists[k], schemas[k].columns) + WriteTables(lists[k + 1..], schemas[k + 1..])
  {
    assert lists[k..][1..] == lists[k + 1..] && schemas[k..][1..] == schemas[k + 1..];
  }

  ghost function TextOf(lists: seq<seq<Row>>, schemas: seq<Schema>): nat -> Bytes {
    (k: nat) => if k < |lists| && k < |schemas| then WriteTable(lists[k], schemas[k].columns) else []
  }

  ghost function RestOf(lists: seq<seq<Row>>, schemas: seq<Schema>): nat -> Bytes {
    (k: nat) => if k <= |lists| && k <= |schemas| then WriteTables(lists[k..], schemas[k..]) else []
  }

  ghost function ReaderOf(data: Bytes, schemas: seq<Schema>, max: nat, stage: nat -> Tables): (nat, nat) -> Outcome<Tables> {
    (p: nat, k: nat) =>
      if p <= |data| && k <= |schemas| then ReadTables(data, Cursor(p, true), schemas[k..], stage(k), max) else Refused(IoError)
  }

  lemma RestSteps(lists: seq<seq<Row>>, schemas: seq<Schema>, k: nat)
    requires k < |lists| == |schemas|
    ensures RestOf(lists, schemas)(k) == TextOf(lists, schemas)(k) + RestOf(lists, schemas)(k + 1)
  {
    WriteUnroll(lists, schemas, k);
  }

  lemma ReaderSteps(data: Bytes, p: nat, k: nat, lists: seq<seq<Row>>, schemas: seq<Schema>, max: nat, stage: nat -> Tables)
    requires Leads(lists, schemas, max, stage) && k < |schemas| && At(data, p, TextOf(lists, schemas)(k))
    ensures ReaderOf(data, schemas, max, stage)(p, k)
      == ReaderOf(data, schemas, max, stage)(p + |TextOf(lists, schemas)(k)|, k + 1)
  {
    assert LeadsAt(lists[k], schemas[k], max, stage(k), stage(k + 1));
    RowsStep(data, p, k, lists[k], TextOf(lists, schemas)(k), schemas, max, stage);
  }

  lemma RowsStep(data: Bytes, p: nat, k: nat, rows: seq<Row>, text: Bytes, schemas: seq<Schema>, max: nat, stage: nat -> Tables)
    requires k < |schemas| && LeadsAt(rows, schemas[k], max, stage(k), stage(k + 1))
    requires text == WriteTable(rows, schemas[k].columns) && At(data, p, text)
    ensures ReaderOf(data, schemas, max, stage)(p, k) == ReaderOf(data, schemas, max, stage)(p + |text|, k + 1)
  {
    TableSteps(data, p, k, rows, schemas, max, stage(k), stage(k + 1));
    ReaderMoves(data, p, k, text, schemas, max, stage);
  }

  lemma ReaderMoves(data: Bytes, p: nat, k: nat, text: Bytes, schemas: seq<Schema>, max: nat, stage: nat -> Tables)
    requires k < |schemas| && p + |text| <= |data|
    requires ReadTables(data, Cursor(p, true), schemas[k..], stage(k), max)
      == ReadTables(data, Cursor(p + |text|, true), schemas[k + 1..], stage(k + 1), max)
    ensures ReaderOf(data, schemas, max, stage)(p, k) == ReaderOf(data, schemas, max, stage)(p + |text|, k + 1)
  {
  }

  lemma TableSteps(data: Bytes, p: nat, k: nat, rows: seq<Row>, schemas: seq<Schema>, max: nat, from: Tables, to: Tables)
    requires k < |schemas| && LeadsAt(rows, schemas[k], max, from, to) && At(data, p, WriteTable(rows, schemas[k].columns))
    ensures ReadTables(data, Cursor(p, true), schemas[k..], from, max)
      == ReadTables(data, Cursor(p + |WriteTable(rows, schemas[k].columns)|, true), schemas[k + 1..], to, max)
  {
    var here := schemas[k..];
    assert here[0] == schemas[k] && here[1..] == schemas[k + 1..];
    WrittenReads(data, p, rows, schemas[k], max, from, to);
    TablesUnroll(data, Cursor(p, true), Cursor(p + |WriteTable(rows, schemas[k].columns)|, true), here, max, from, to);
  }

  lemma TablesRoundTrip(data: Bytes, position: nat, lists: seq<seq<Row>>, schemas: seq<Schema>, max: nat, stage: nat -> Tables)
    requires Leads(lists, schemas, max, stage) && At(data, position, RestOf(lists, schemas)(0))
    ensures ReaderOf(data, schemas, max, stage)(position, 0)
      == ReaderOf(data, schemas, max, stage)(position + |RestOf(lists, schemas)(0)|, |schemas|)
  {
    forall k: nat | k < |schemas| ensures RestOf(lists, schemas)(k) == TextOf(lists, schemas)(k) + RestOf(lists, schemas)(k + 1) {
      RestSteps(lists, schemas, k);
    }
    forall k: nat, p: nat | k < |schemas| && At(data, p, TextOf(lists, schemas)(k))
      ensures ReaderOf(data, schemas, max, stage)(p, k)
        == ReaderOf(data, schemas, max, stage)(p + |TextOf(lists, schemas)(k)|, k + 1)
    {
      ReaderSteps(data, p, k, lists, schemas, max, stage);
    }
    ReadOn(data, position, 0, |schemas|, TextOf(lists, schemas), RestOf(lists, schemas), ReaderOf(data, schemas, max, stage));
  }

  // From the first table to the end of the text.
  lemma AllRead(data: Bytes, position: nat, lists: seq<seq<Row>>, schemas: seq<Schema>, max: nat, stage: nat -> Tables)
    requires Leads(lists, schemas, max, stage) && At(data, position, WriteTables(lists, schemas))
    requires |data| == position + |WriteTables(lists, schemas)|
    ensures ReadTables(data, Cursor(position, true), schemas, stage(0), max) == Got(stage(|schemas|), Cursor(|data|, true))
  {
    assert lists[0..] == lists && schemas[0..] == schemas && schemas[|schemas|..] == [];
    TablesRoundTrip(data, position, lists, schemas, max, stage);
  }

  ghost function Stages(whole: Tables): nat -> Tables {
    (k: nat) => if k <= TABLES then AtTable(whole, k) else NOTHING
  }

  // Sound tables are rebuilt from their rows.
  lemma SoundLeads(whole: Tables, lists: Lists, lim: Limits)
    requires Sound(whole, lim) && Fitting(whole, lim) && Enumerates(lists, whole)
    ensures Leads(lists, Schemas(lim), lim.maxDocumentBytes, Stages(whole))
  {
    forall k: nat | k < TABLES
      ensures LeadsAt(lists[k], SchemaOf(k, lim), lim.maxDocumentBytes, AtTable(whole, k), AtTable(whole, k + 1))
    {
      assert ListsTable(lists[k], whole[k]);
      ListFits(lists[k], k, whole, lim);
      RebuildTable(whole, lists[k], k, lim);
    }
  }

  // ---- The label bound of the writer ----

  function ClipTable(table: Table): Table { map id | id in table :: Clip(table[id]) }

  function Clipped(f: Fabric): Fabric { f.(tables := f.tables[NODES := ClipTable(f.tables[NODES])]) }

  lemma ClipKeepsId(row: Row)
    ensures Id(Clip(row)) == Id(row)
  {
  }

  lemma {:induction false} ClipTableOf(rows: seq<Row>)
    ensures TableOf(ClipAll(rows)) == ClipTable(TableOf(rows))
  {
    if rows != [] {
      var n := |rows| - 1;
      ClipTableOf(rows[..n]);
      assert ClipAll(rows)[..n] == ClipAll(rows[..n]);
      ClipKeepsId(rows[n]);
    }
  }

  lemma ClipEnumerates(lists: Lists, f: Fabric)
    requires Enumerates(lists, f.tables)
    ensures Enumerates(lists[NODES := ClipAll(lists[NODES])], Clipped(f).tables)
  {
    ClipTableOf(lists[NODES]);
    var clipped := ClipAll(lists[NODES]);
    forall i, j | 0 <= i < j < |clipped| ensures Id(clipped[i]) != Id(clipped[j]) {
      ClipKeepsId(lists[NODES][i]);
      ClipKeepsId(lists[NODES][j]);
      assert ListsTable(lists[NODES], f.tables[NODES]);
    }
    assert ListsTable(lists[NODES], f.tables[NODES]);
  }

  lemma ClipKeepsSound(f: Fabric, lim: Limits)
    requires Sound(f.tables, lim)
    ensures Sound(Clipped(f).tables, lim)
  {
    var before, after := f.tables, Clipped(f).tables;
    assert after[NODES].Keys == before[NODES].Keys && |after[NODES]| == |after[NODES].Keys| && |before[NODES]| == |before[NODES].Keys|;
    forall k: nat, id | k < TABLES && id in after[k] ensures SoundRow(k, after, id, lim) {
      assert SoundRow(k, before, id, lim);
      if k == NODES {
        ClipKeepsId(before[k][id]);
      } else {
        ObjectionMonotone(k, before, after, before[k][id], lim);
      }
    }
  }

  lemma TableFits(f: Field, shape: Shape, max: nat)
    requires shape.Table? && Fits(f, shape, max)
    ensures f.Rows? && forall i :: 0 <= i < |f.rows| ==> FitsRow(f.rows[i], shape.columns, max)
  {
    assert FitsRows(f.rows, shape.columns, max);
  }

  lemma ClipFits(row: Row, lim: Limits)
    requires FitsRow(row, Columns(NODES, lim), lim.maxDocumentBytes)
    ensures FitsRow(Clip(row), Columns(NODES, lim), lim.maxDocumentBytes)
  {
    var columns := Columns(NODES, lim);
    assert Fits(row.fields[2], columns[2], lim.maxDocumentBytes);
    TableFits(row.fields[2], columns[2], lim.maxDocumentBytes);
    var rows := row.fields[2].rows;
    if |rows| > LABELS_WRITTEN {
      forall i | 0 <= i < LABELS_WRITTEN ensures FitsRow(rows[..LABELS_WRITTEN][i], columns[2].columns, lim.maxDocumentBytes) {
        assert FitsRow(rows[i], columns[2].columns, lim.maxDocumentBytes);
      }
      assert Fits(Rows(rows[..LABELS_WRITTEN]), columns[2], lim.maxDocumentBytes);
      forall i | 0 <= i < |columns| ensures Fits(Clip(row).fields[i], columns[i], lim.maxDocumentBytes) {
        assert Fits(row.fields[i], columns[i], lim.maxDocumentBytes);
      }
    }
  }

  lemma ClipKeepsFitting(f: Fabric, lim: Limits)
    requires Fitting(f.tables, lim)
    ensures Fitting(Clipped(f).tables, lim)
  {
    var before, after := f.tables[NODES], ClipTable(f.tables[NODES]);
    assert after.Keys == before.Keys && |after| == |after.Keys| && |before| == |before.Keys|;
    forall id | id in after ensures FitsRow(after[id], Columns(NODES, lim), lim.maxDocumentBytes) {
      ClipFits(before[id], lim);
    }
  }

  ghost predicate FitsRevision(f: Fabric, lim: Limits) {
    FitsText(f.revision, lim.maxDocumentBytes) && (f.revision == [] || IsCanonical(f.revision))
  }

  lemma HeaderRoundTrip(data: Bytes, f: Fabric, lim: Limits)
    requires FitsRevision(f, lim) && At(data, 0, WriteRow(HeaderOf(f), HEADER))
    ensures ReadRow(data, Cursor(0, true), HEADER, lim.maxDocumentBytes)
      == Got(HeaderOf(f), Cursor(|WriteRow(HeaderOf(f), HEADER)|, true))
  {
    Widths();
    RowRoundTrip(data, 0, HeaderOf(f), HEADER, lim.maxDocumentBytes);
  }

  lemma NothingFirst(whole: Tables)
    ensures AtTable(whole, 0) == NOTHING
  {
  }

  lemma HeaderBack(f: Fabric)
    ensures GenerationOf(HeaderOf(f)) == f.generation && TextAt(HeaderOf(f), 3) == f.revision
  {
  }

  lemma BodyRead(data: Bytes, position: nat, whole: Tables, lists: Lists, lim: Limits)
    requires Sound(whole, lim) && Fitting(whole, lim) && Enumerates(lists, whole)
    requires At(data, position, WriteTables(lists, Schemas(lim)))
    requires |data| == position + |WriteTables(lists, Schemas(lim))|
    ensures ReadTables(data, Cursor(position, true), Schemas(lim), NOTHING, lim.maxDocumentBytes) == Got(whole, Cursor(|data|, true))
  {
    SoundLeads(whole, lists, lim);
    AllRead(data, position, lists, Schemas(lim), lim.maxDocumentBytes, Stages(whole));
    NothingFirst(whole);
  }

  // A header and the tables behind it, up to the end of the section.
  lemma FabricRead(data: Bytes, f: Fabric, lists: Lists, lim: Limits)
    requires Sound(f.tables, lim) && Fitting(f.tables, lim) && FitsRevision(f, lim) && Enumerates(lists, f.tables)
    requires data == WriteRow(HeaderOf(f), HEADER) + WriteTables(lists, Schemas(lim))
    ensures ReadFabric(data, lim) == Ok(f)
  {
    var header := WriteRow(HeaderOf(f), HEADER);
    assert data[0..|data|] == data;
    AtSplit(data, 0, header, WriteTables(lists, Schemas(lim)));
    HeaderRoundTrip(data, f, lim);
    BodyRead(data, |header|, f.tables, lists, lim);
    FinishedSound(data, HeaderOf(f), Got(f.tables, Cursor(|data|, true)), lim);
    HeaderBack(f);
  }

  // What is read back is the topology with the labels that were written.
  lemma ClippedRoundTrip(f: Fabric, lists: Lists, lim: Limits)
    requires Sound(f.tables, lim) && Fitting(f.tables, lim) && FitsRevision(f, lim) && Enumerates(lists, f.tables)
    ensures ReadFabric(WriteFabric(f, lists, lim), lim) == Ok(Clipped(f))
  {
    ClipEnumerates(lists, f);
    ClipKeepsSound(f, lim);
    ClipKeepsFitting(f, lim);
    FabricRead(WriteFabric(f, lists, lim), Clipped(f), lists[NODES := ClipAll(lists[NODES])], lim);
  }

  ghost predicate FewLabels(f: Fabric) {
    forall id :: id in f.tables[NODES] ==> |RowsAt(f.tables[NODES][id], 2)| <= LABELS_WRITTEN
  }

  lemma ClipChanges(f: Fabric)
    ensures Clipped(f) == f <==> FewLabels(f)
  {
    var table := f.tables[NODES];
    if FewLabels(f) {
      assert ClipTable(table) == table;
    } else {
      var id :| id in table && |RowsAt(table[id], 2)| > LABELS_WRITTEN;
      assert |RowsAt(Clip(table[id]), 2)| == LABELS_WRITTEN;
      assert Clipped(f).tables[NODES][id] != table[id];
    }
  }

  // The writer drops labels behind the 64th whatever the configured bound is, so a topology comes back as it
  // was exactly when no node has more.
  lemma TopologySurvivesExactly(f: Fabric, lists: Lists, lim: Limits)
    requires Sound(f.tables, lim) && Fitting(f.tables, lim) && FitsRevision(f, lim) && Enumerates(lists, f.tables)
    ensures ReadFabric(WriteFabric(f, lists, lim), lim) == Ok(f) <==> FewLabels(f)
  {
    ClippedRoundTrip(f, lists, lim);
    ClipChanges(f);
  }
}
