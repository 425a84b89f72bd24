// The topology section: seven tables whose rows refer to one another, rebuilt row by row with every check of
// the builder (src/persistence/snapshot.cpp:322-568, src/model/topology.cpp:254-408).
module SnapshotTopology {
  import opened Base
  import opened LittleEndian
  import opened Model
  import opened SnapshotWire

  const NODES: nat := 0
  const PORTS: nat := 1
  const LINKS: nat := 2
  const QUEUES: nat := 3
  const BUFFERS: nat := 4
  const PATHS: nat := 5
  const FLOWS: nat := 6
  const TABLES: nat := 7

  // The objects of one kind, each under its identity, which is the first field of its row.
  type Table = map<Name, Row>

  type Tables = t: seq<Table> | |t| == TABLES witness [map[], map[], map[], map[], map[], map[], map[]]

  const NOTHING: Tables := [map[], map[], map[], map[], map[], map[], map[]]

  datatype Fabric = Fabric(generation: GenerationVector, revision: Name, tables: Tables)

  const PLAIN: Shape := NameText(false)

  function Columns(k: nat, lim: Limits): seq<Shape> {
    match k
    case 0 => [PLAIN, Number(BYTE), Table(lim.maxLabels, [PLAIN])]
    case 1 => [PLAIN, PLAIN, Number(LONG)]
    case 2 => [PLAIN, PLAIN, PLAIN, Number(LONG)]
    case 3 => [PLAIN, PLAIN, Number(WORD), Number(WORD), Number(WORD)]
    case 4 => [PLAIN, PLAIN, Number(WORD), Number(LONG)]
    case 5 => [PLAIN, Table(lim.maxPathHops, [PLAIN])]
    case _ => [PLAIN, PLAIN, PLAIN, PLAIN]
  }

  function Most(k: nat, lim: Limits): nat {
    match k
    case 0 => lim.maxNodes
    case 1 => lim.maxPorts
    case 2 => lim.maxLinks
    case 3 => lim.maxQueues
    case 4 => lim.maxBuffers
    case 5 => lim.maxPaths
    case _ => lim.maxFlows
  }

  function TextAt(row: Row, i: nat): Bytes { if i < |row.fields| && row.fields[i].Chars? then row.fields[i].text else [] }

  function NumAt(row: Row, i: nat): nat { if i < |row.fields| && row.fields[i].Num? then row.fields[i].n else 0 }

  function RowsAt(row: Row, i: nat): seq<Row> { if i < |row.fields| && row.fields[i].Rows? then row.fields[i].rows else [] }

  function Id(row: Row): Name { TextAt(row, 0) }

  // ---- The builder ----

  const WHOLE_SHARE: nat := 10000

  // What is wrong with a row, given the tables it refers to.
  function Objection(k: nat, tables: Tables, row: Row, lim: Limits): Option<ErrorCode> {
    match k
    case 0 => if |RowsAt(row, 2)| > lim.maxLabels then Some(LimitExceeded) else None
    case 1 => if TextAt(row, 1) !in tables[NODES] then Some(NotFound) else None
    case 2 =>
      if TextAt(row, 1) == TextAt(row, 2) then Some(InvalidArgument)
      else if TextAt(row, 1) !in tables[PORTS] || TextAt(row, 2) !in tables[PORTS] then Some(NotFound)
      else None
    case 3 =>
      if TextAt(row, 1) !in tables[LINKS] then Some(NotFound)
      else if NumAt(row, 3) > NumAt(row, 4) || NumAt(row, 4) > WHOLE_SHARE then Some(OutOfRange)
      else None
    case 4 => if TextAt(row, 1) !in tables[PORTS] then Some(NotFound) else None
    case 5 =>
      if RowsAt(row, 1) == [] then Some(InvalidArgument)
      else if |RowsAt(row, 1)| > lim.maxPathHops then Some(LimitExceeded)
      else if exists i :: 0 <= i < |RowsAt(row, 1)| && Id(RowsAt(row, 1)[i]) !in tables[LINKS] then Some(NotFound)
      else None
    case _ => if TextAt(row, 1) !in tables[PATHS] then Some(NotFound) else None
  }

  // The ports on a node.
  function PortsOn(ports: Table, node: Name): set<Name> { set id | id in ports && TextAt(ports[id], 1) == node }

  function Add(k: nat, tables: Tables, row: Row, lim: Limits): Result<Tables>
    requires k < TABLES
  {
    if Id(row) == [] then Err(InvalidArgument)
    else if Id(row) in tables[k] then Err(AlreadyExists)
    else if |tables[k]| >= Most(k, lim) then Err(LimitExceeded)
    else
      match Objection(k, tables, row, lim)
      case Some(e) => Err(e)
      case None =>
        if k == PORTS && |PortsOn(tables[PORTS], TextAt(row, 1))| >= lim.maxPortsPerNode then Err(LimitExceeded)
        else Ok(tables[k := tables[k][Id(row) := row]])
  }

  // Within every bound, every reference leads somewhere, and every row is under its own identity.
  ghost predicate Sound(tables: Tables, lim: Limits) {
    && (forall k: nat :: k < TABLES ==> |tables[k]| <= Most(k, lim))
    && (forall k: nat, id :: k < TABLES && id in tables[k] ==> SoundRow(k, tables, id, lim))
    && (forall node :: |PortsOn(tables[PORTS], node)| <= lim.maxPortsPerNode)
  }

  ghost predicate SoundRow(k: nat, tables: Tables, id: Name, lim: Limits)
    requires k < TABLES && id in tables[k]
  {
    id != [] && Id(tables[k][id]) == id && Objection(k, tables, tables[k][id], lim) == None
  }

  // The final check of the builder looks at sizes and references once more.
  ghost predicate Dangling(k: nat, tables: Tables, lim: Limits)
    requires k < TABLES
  {
    exists id :: id in tables[k] && Objection(k, tables, tables[k][id], lim) == Some(NotFound)
  }

  ghost function Build(tables: Tables, lim: Limits): Result<Tables> {
    if exists k: nat :: k < TABLES && |tables[k]| > Most(k, lim) then Err(LimitExceeded)
    else if exists k: nat :: k < TABLES && Dangling(k, tables, lim) then Err(NotFound)
    else Ok(tables)
  }

  lemma BuildAccepts(tables: Tables, lim: Limits)
    requires Sound(tables, lim)
    ensures Build(tables, lim) == Ok(tables)
  {
    forall k: nat | k < TABLES ensures !Dangling(k, tables, lim) {
      forall id | id in tables[k] ensures Objection(k, tables, tables[k][id], lim) == None {
        assert SoundRow(k, tables, id, lim);
      }
    }
  }

  // A row that was fine stays fine as tables grow.
  lemma ObjectionMonotone(k: nat, tables: Tables, more: Tables, row: Row, lim: Limits)
    requires forall j: nat :: j < TABLES ==> tables[j].Keys <= more[j].Keys
    requires Objection(k, tables, row, lim) == None
    ensures Objection(k, more, row, lim) == None
  {
  }

  lemma OnePortMore(ports: Table, row: Row, node: Name)
    requires Id(row) !in ports
    ensures PortsOn(ports[Id(row) := row], node)
      == if TextAt(row, 1) == node then PortsOn(ports, node) + {Id(row)} else PortsOn(ports, node)
  {
  }

  // The builder keeps what it holds sound.
  lemma AddKeepsSound(k: nat, tables: Tables, row: Row, lim: Limits)
    requires k < TABLES && Sound(tables, lim) && Add(k, tables, row, lim).Ok?
    ensures Sound(Add(k, tables, row, lim).value, lim)
  {
    var more := Add(k, tables, row, lim).value;
    forall j: nat, id | j < TABLES && id in more[j] ensures SoundRow(j, more, id, lim) {
      if id in tables[j] && !(j == k && id == Id(row)) {
        assert SoundRow(j, tables, id, lim) && more[j][id] == tables[j][id];
        ObjectionMonotone(j, tables, more, tables[j][id], lim);
      } else {
        ObjectionMonotone(k, tables, more, row, lim);
      }
    }
    if k == PORTS {
      forall node ensures |PortsOn(more[PORTS], node)| <= lim.maxPortsPerNode {
        OnePortMore(tables[PORTS], row, node);
      }
    }
  }

  // ---- Reading ----

  const HEADER: seq<Shape> := [Number(LONG), Number(LONG), Number(LONG), NameText(true)]

  // How a table is read: its columns, its bound, and what takes its rows over.
  datatype Schema = Schema(columns: seq<Shape>, most: nat, keep: (Tables, Row, bool) -> Result<Tables>)

  function Keep(k: nat, lim: Limits): (Tables, Row, bool) -> Result<Tables> {
    (tables: Tables, row: Row, ok: bool) => if k < TABLES then Add(k, tables, row, lim) else Ok(tables)
  }

  function SchemaOf(k: nat, lim: Limits): Schema { Schema(Columns(k, lim), Most(k, lim), Keep(k, lim)) }

  function Schemas(lim: Limits): (r: seq<Schema>)
    ensures |r| == TABLES && forall k: nat :: k < TABLES ==> r[k] == SchemaOf(k, lim)
  {
    seq(TABLES, (k: nat) => SchemaOf(k, lim))
  }

  // The tables one after the other.
  function ReadTables(data: Bytes, c: Cursor, schemas: seq<Schema>, tables: Tables, max: nat): (r: Outcome<Tables>)
    requires c.position <= |data|
    ensures r.Got? ==> Within(data, c, r.at)
    decreases |schemas|
  {
    if schemas == [] then Got(tables, c)
    else
      var (n, c1) := ReadCount(data, c, schemas[0].most);
      match ReadEntries(data, c1, n, schemas[0].columns, max, tables, schemas[0].keep)
      case Refused(e) => Refused(e)
      case Got(next, c2) => ReadTables(data, c2, schemas[1..], next, max)
  }

  function GenerationOf(row: Row): GenerationVector {
    GenerationVector(NumAt(row, 0) % 0x1_0000_0000_0000_0000, NumAt(row, 1) % 0x1_0000_0000_0000_0000,
                     NumAt(row, 2) % 0x1_0000_0000_0000_0000)
  }

  // The checks behind the tables.
  ghost function Finished(data: Bytes, header: Row, read: Outcome<Tables>, lim: Limits): Result<Fabric> {
    match read
    case Refused(e) => Err(e)
    case Got(tables, c) =>
      if !c.ok || c.position != |data| then Err(IntegrityFailure)
      else
        match Build(tables, lim)
        case Err(e) => Err(e)
        case Ok(built) => Ok(Fabric(GenerationOf(header), TextAt(header, 3), built))
  }

  ghost function ReadFabric(data: Bytes, lim: Limits): Result<Fabric> {
    match ReadRow(data, Cursor(0, true), HEADER, lim.maxDocumentBytes)
    case Refused(e) => Err(e)
    case Got(header, c) => Finished(data, header, ReadTables(data, c, Schemas(lim), NOTHING, lim.maxDocumentBytes), lim)
  }

  // Reading any bytes into tables keeps what every admission keeps.
  lemma {:induction false} TablesKeep(data: Bytes, c: Cursor, schemas: seq<Schema>, tables: Tables, max: nat, kept: Tables -> bool)
    requires c.position <= |data| && kept(tables)
    requires forall k :: 0 <= k < |schemas| ==> KeptBy(kept, schemas[k].keep)
    ensures var r := ReadTables(data, c, schemas, tables, max); r.Got? ==> kept(r.value)
    decreases |schemas|
  {
    if schemas != [] {
      var (n, c1) := ReadCount(data, c, schemas[0].most);
      EntriesKeep(data, c1, n, schemas[0].columns, max, tables, schemas[0].keep, kept);
      var next := ReadEntries(data, c1, n, schemas[0].columns, max, tables, schemas[0].keep);
      if next.Got? {
        TablesKeep(data, next.at, schemas[1..], next.value, max, kept);
      }
    }
  }

  lemma TablesKeepSound(data: Bytes, c: Cursor, lim: Limits)
    requires c.position <= |data|
    ensures var r := ReadTables(data, c, Schemas(lim), NOTHING, lim.maxDocumentBytes); r.Got? ==> Sound(r.value, lim)
  {
    ghost var kept := (t: Tables) => Sound(t, lim);
    forall k: nat | k < TABLES ensures KeptBy(kept, Schemas(lim)[k].keep) {
      forall t: Tables, row, ok | kept(t) && Keep(k, lim)(t, row, ok).Ok? ensures kept(Keep(k, lim)(t, row, ok).value) {
        AddKeepsSound(k, t, row, lim);
      }
    }
    NothingIsSound(lim);
    TablesKeep(data, c, Schemas(lim), NOTHING, lim.maxDocumentBytes, kept);
  }

  lemma NothingIsSound(lim: Limits)
    ensures Sound(NOTHING, lim)
  {
    forall node ensures PortsOn(NOTHING[PORTS], node) == {} {
    }
  }

  lemma FinishedSound(data: Bytes, header: Row, read: Outcome<Tables>, lim: Limits)
    requires read.Got? ==> Sound(read.value, lim)
    ensures var r := Finished(data, header, read, lim);
      && (r.Ok? ==> Sound(r.value.tables, lim))
      && (read.Got? && read.at.ok && read.at.position == |data| ==>
            r == Ok(Fabric(GenerationOf(header), TextAt(header, 3), read.value)))
  {
    if read.Got? {
      BuildAccepts(read.value, lim);
    }
  }

  lemma TablesRead(data: Bytes, c: Cursor, header: Row, lim: Limits)
    requires c.position <= |data|
    ensures var r := Finished(data, header, ReadTables(data, c, Schemas(lim), NOTHING, lim.maxDocumentBytes), lim); r.Ok? ==> Sound(r.value.tables, lim)
  {
    TablesKeepSound(data, c, lim);
    FinishedSound(data, header, ReadTables(data, c, Schemas(lim), NOTHING, lim.maxDocumentBytes), lim);
  }

  // Whatever the bytes, a topology that is read is sound.
  lemma ReadIsSound(data: Bytes, lim: Limits)
    ensures var r := ReadFabric(data, lim); r.Ok? ==> Sound(r.value.tables, lim)
  {
    var header := ReadRow(data, Cursor(0, true), HEADER, lim.maxDocumentBytes);
    if header.Got? {
      TablesRead(data, header.at, header.value, lim);
    }
  }

  // ---- Rebuilding: the rows of sound tables, added in any order, give the same tables ----

  function TableOf(rows: seq<Row>): Table {
    if rows == [] then map[] else TableOf(rows[..|rows| - 1])[Id(rows[|rows| - 1]) := rows[|rows| - 1]]
  }

  ghost predicate IdsApart(rows: seq<Row>) {
    forall i, j :: 0 <= i < j < |rows| ==> Id(rows[i]) != Id(rows[j])
  }

  // The rows of a table, each once, in some order.
  ghost predicate ListsTable(rows: seq<Row>, table: Table) { IdsApart(rows) && TableOf(rows) == table }

  lemma {:induction false} TableOfIds(rows: seq<Row>, id: Name)
    ensures id in TableOf(rows) <==> exists i :: 0 <= i < |rows| && Id(rows[i]) == id
  {
    if rows != [] {
      var n := |rows| - 1;
      TableOfIds(rows[..n], id);
      if id in TableOf(rows[..n]) {
        var i :| 0 <= i < n && Id(rows[..n][i]) == id;
        assert Id(rows[i]) == id;
      }
      if i :| 0 <= i < |rows| && Id(rows[i]) == id {
        assert i < n ==> Id(rows[..n][i]) == id;
      }
    }
  }

  lemma {:induction false} TableOfRow(rows: seq<Row>, i: nat)
    requires IdsApart(rows) && i < |rows|
    ensures Id(rows[i]) in TableOf(rows) && TableOf(rows)[Id(rows[i])] == rows[i]
  {
    if i < |rows| - 1 {
      TableOfRow(rows[..|rows| - 1], i);
    }
  }

  lemma {:induction false} TableOfSize(rows: seq<Row>)
    requires IdsApart(rows)
    ensures |TableOf(rows)| == |rows|
  {
    if rows != [] {
      var n := |rows| - 1;
      TableOfSize(rows[..n]);
      TableOfIds(rows[..n], Id(rows[n]));
    }
  }

  // The tables up to one of them, which is built so far.
  ghost function Stage(whole: Tables, k: nat, building: Table): Tables
    requires k < TABLES
  {
    seq(TABLES, (j: nat) => if j < k then if j < TABLES then whole[j] else map[] else if j == k then building else map[])
  }

  // A row refers to tables before its own only.
  lemma ObjectionLooksBack(k: nat, a: Tables, b: Tables, row: Row, lim: Limits)
    requires k < TABLES && forall j: nat :: j < k ==> a[j] == b[j]
    ensures Objection(k, a, row, lim) == Objection(k, b, row, lim)
  {
  }

  lemma PortsGrow(part: Table, whole: Table, row: Row)
    requires part.Keys <= whole.Keys && (forall id :: id in part ==> part[id] == whole[id])
    requires Id(row) !in part && Id(row) in whole && whole[Id(row)] == row
    ensures |PortsOn(part, TextAt(row, 1))| < |PortsOn(whole, TextAt(row, 1))|
  {
    var few, many := PortsOn(part, TextAt(row, 1)), PortsOn(whole, TextAt(row, 1));
    assert few <= many - {Id(row)} && Id(row) in many;
    SubsetSize(few, many - {Id(row)});
  }
}
