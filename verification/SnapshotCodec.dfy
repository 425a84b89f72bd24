// Encoding and decoding step by step, with the writer, the reader and the topology builder
// (src/persistence/snapshot.cpp:378-687,689-1021, src/model/topology.cpp:254-408).
module SnapshotCodec {
  import opened Base
  import opened LittleEndian
  import opened Model
  import opened ResourceLimits
  import opened SnapshotWire
  import opened SnapshotIo
  import opened SnapshotTopology
  import opened SnapshotRebuild
  import opened SnapshotSections
  import opened SnapshotContainer
  import opened SnapshotFormat
  import SnapshotIntegrity

  // ---- The builder ----

  class TopologyBuilder {
    const lim: Limits
    var tables: Tables

    constructor (limits: Limits)
      ensures lim == limits && tables == NOTHING
    {
      lim, tables := limits, NOTHING;
    }

    // The ports on a node, counted by going through them all.
    method CountPorts(node: Name) returns (n: nat)
      ensures n == |PortsOn(tables[PORTS], node)|
    {
      n := 0;
      var todo := tables[PORTS].Keys;
      ghost var counted: set<Name> := {};
      while todo != {}
        invariant todo <= tables[PORTS].Keys && counted == PortsOn(tables[PORTS], node) - todo && n == |counted|
        decreases |todo|
      {
        var id :| id in todo;
        todo := todo - {id};
        if TextAt(tables[PORTS][id], 1) == node {
          counted := counted + {id};
          n := n + 1;
        }
      }
      assert PortsOn(tables[PORTS], node) - {} == PortsOn(tables[PORTS], node);
    }

    method AddRow(k: nat, row: Row) returns (error: Option<ErrorCode>)
      requires k < TABLES
      modifies this
      ensures match Add(k, old(tables), row, lim)
              case Err(e) => error == Some(e) && tables == old(tables)
              case Ok(more) => error == None && tables == more
    {
      if Id(row) == [] {
        return Some(InvalidArgument);
      }
      if Id(row) in tables[k] {
        return Some(AlreadyExists);
      }
      if |tables[k]| >= Most(k, lim) {
        return Some(LimitExceeded);
      }
      var objection := Objection(k, tables, row, lim);
      if objection != None {
        return objection;
      }
      if k == PORTS {
        var n := CountPorts(TextAt(row, 1));
        if n >= lim.maxPortsPerNode {
          return Some(LimitExceeded);
        }
      }
      tables := tables[k := tables[k][Id(row) := row]];
      return None;
    }

    method IsDangling(k: nat) returns (r: bool)
      requires k < TABLES
      ensures r == Dangling(k, tables, lim)
    {
      var todo := tables[k].Keys;
      while todo != {}
        invariant todo <= tables[k].Keys
        invariant forall id :: id in tables[k] && id !in todo ==> Objection(k, tables, tables[k][id], lim) != Some(NotFound)
        decreases |todo|
      {
        var id :| id in todo;
        if Objection(k, tables, tables[k][id], lim) == Some(NotFound) {
          return true;
        }
        todo := todo - {id};
      }
      return false;
    }

    method Build() returns (r: Result<Tables>)
      ensures r == SnapshotTopology.Build(tables, lim)
    {
      for k := 0 to TABLES
        invariant forall j: nat :: j < k ==> |tables[j]| <= Most(j, lim)
      {
        if |tables[k]| > Most(k, lim) {
          return Err(LimitExceeded);
        }
      }
      for k := 0 to TABLES
        invariant forall j: nat :: j < k ==> !Dangling(j, tables, lim)
      {
        var dangling := IsDangling(k);
        if dangling {
          return Err(NotFound);
        }
      }
      return Ok(tables);
    }
  }

  // ---- Decoding ----

  // A table of the topology, each row added as it is read.
  method DecodeTable(reader: ByteReader, builder: TopologyBuilder, k: nat, n: nat) returns (error: Option<ErrorCode>)
    requires reader.Valid() && k < TABLES && reader.max == builder.lim.maxDocumentBytes
    modifies reader, builder
    ensures reader.Valid()
    ensures match ReadEntries(reader.data, old(reader.Here()), n, Columns(k, builder.lim), reader.max, old(builder.tables), Keep(k, builder.lim))
            case Refused(e) => error == Some(e)
            case Got(tables, c) => error == None && builder.tables == tables && reader.Here() == c
  {
    ghost var said := ReadEntries(reader.data, reader.Here(), n, Columns(k, builder.lim), reader.max, builder.tables, Keep(k, builder.lim));
    var i := 0;
    while i < n && reader.ok
      invariant i <= n && reader.Valid()
      invariant said == ReadEntries(reader.data, reader.Here(), n - i, Columns(k, builder.lim), reader.max, builder.tables, Keep(k, builder.lim))
    {
      var row := reader.TakeRow(Columns(k, builder.lim));
      if row.Err? {
        return Some(row.error);
      }
      var added := builder.AddRow(k, row.value);
      if added.Some? {
        return added;
      }
      i := i + 1;
    }
    return None;
  }

  method DecodeTables(reader: ByteReader, builder: TopologyBuilder) returns (error: Option<ErrorCode>)
    requires reader.Valid() && reader.max == builder.lim.maxDocumentBytes
    modifies reader, builder
    ensures reader.Valid()
    ensures match ReadTables(reader.data, old(reader.Here()), Schemas(builder.lim), old(builder.tables), reader.max)
            case Refused(e) => error == Some(e)
            case Got(tables, c) => error == None && builder.tables == tables && reader.Here() == c
  {
    ghost var schemas := Schemas(builder.lim);
    ghost var said := ReadTables(reader.data, reader.Here(), schemas, builder.tables, reader.max);
    assert schemas[0..] == schemas;
    for k := 0 to TABLES
      invariant reader.Valid()
      invariant said == ReadTables(reader.data, reader.Here(), schemas[k..], builder.tables, reader.max)
    {
      assert schemas[k..][0] == SchemaOf(k, builder.lim) && schemas[k..][1..] == schemas[k + 1..];
      var n := reader.TakeCount(Most(k, builder.lim));
      error := DecodeTable(reader, builder, k, n);
      if error.Some? {
        return;
      }
    }
    return None;
  }

  method DecodeTopology(data: Bytes, lim: Limits) returns (r: Result<Fabric>)
    ensures r == ReadFabric(data, lim)
  {
    var reader := new ByteReader(data, lim.maxDocumentBytes);
    var builder := new TopologyBuilder(lim);
    var header := reader.TakeRow(HEADER);
    if header.Err? {
      return Err(header.error);
    }
    var error := DecodeTables(reader, builder);
    if error.Some? {
      return Err(error.value);
    }
    if !reader.ok || reader.position != |data| {
      return Err(IntegrityFailure);
    }
    var built := builder.Build();
    if built.Err? {
      return Err(built.error);
    }
    return Ok(Fabric(GenerationOf(header.value), TextAt(header.value, 3), built.value));
  }

  // The entries of a section, each checked against its identity.
  method DecodeEntries(reader: ByteReader, n: nat, columns: seq<Shape>, identity: Row -> nat) returns (r: Result<seq<Row>>)
    requires reader.Valid()
    modifies reader
    ensures reader.Valid()
    ensures r == AtEnd(reader.data, ReadEntries(reader.data, old(reader.Here()), n, columns, reader.max, [], Identified(identity)))
  {
    var rows: seq<Row> := [];
    ghost var said := ReadEntries(reader.data, reader.Here(), n, columns, reader.max, rows, Identified(identity));
    var i := 0;
    while i < n && reader.ok
      invariant i <= n && reader.Valid()
      invariant said == ReadEntries(reader.data, reader.Here(), n - i, columns, reader.max, rows, Identified(identity))
    {
      var row := reader.TakeRow(columns);
      if row.Err? {
        return Err(row.error);
      }
      if !reader.ok || identity(row.value) != NumAt(row.value, 0) {
        return Err(IntegrityFailure);
      }
      rows := rows + [row.value];
      i := i + 1;
    }
    if !reader.ok || reader.position != |reader.data| {
      return Err(IntegrityFailure);
    }
    return Ok(rows);
  }

  method DecodeEpisodeSection(data: Bytes, lim: Limits, identity: Row -> nat) returns (r: Result<seq<Row>>)
    ensures r == ReadEpisodes(data, lim, identity)
  {
    var reader := new ByteReader(data, lim.maxDocumentBytes);
    var n := reader.TakeCount(lim.maxSnapshotEpisodes);
    r := DecodeEntries(reader, n, EpisodeColumns(lim), identity);
  }

  method DecodeEvidenceSection(data: Bytes, lim: Limits, identity: Row -> nat) returns (r: Result<(seq<Row>, bool)>)
    ensures r == ReadEvidence(data, lim, identity)
  {
    var reader := new ByteReader(data, lim.maxDocumentBytes);
    var raw := reader.TakeNumber(WORD);
    var truncated := raw > lim.maxSnapshotEvidence;
    var rows := DecodeEntries(reader, if truncated then 0 else raw, EvidenceColumns(lim), identity);
    if rows.Err? {
      return Err(rows.error);
    }
    return Ok((rows.value, truncated));
  }

  method DecodeMetadataSection(data: Bytes, lim: Limits) returns (r: Result<Row>)
    ensures r == ReadMetadata(data, lim)
  {
    var reader := new ByteReader(data, lim.maxDocumentBytes);
    r := reader.TakeRow(METADATA_COLUMNS);
    if r.Ok? && !reader.ok {
      return Err(IntegrityFailure);
    }
  }

  lemma HeaderEnds(data: Bytes)
    requires HEADER_BYTES <= |data|
    ensures var r := ReadRow(data, Cursor(0, true), HeaderColumns(), 0);
      r.Got? && r.at == Cursor(HEADER_BYTES, true) && HeaderFrom(r.value) == ReadHeader(data)
  {
    SnapshotIntegrity.HeaderWidth();
    SnapshotIntegrity.NumbersEnd(data, HeaderColumns());
  }

  // Header, table and checksums, before anything of the payload is looked at.
  method OpenContainer(data: Bytes, lim: Limits, env: Env) returns (r: Result<map<nat, Bytes>>)
    ensures r == Unpack(data, lim, env)
  {
    if |data| < HEADER_BYTES {
      return Err(IntegrityFailure);
    }
    HeaderEnds(data);
    var reader := new ByteReader(data, 0);
    var header := reader.TakeRow(HeaderColumns());
    var h := HeaderFrom(header.value);
    var problem := CheckHeader(h, lim, env);
    if problem.Some? {
      return Err(problem.value);
    }
    var table := reader.TakeRows(h.sections, ExtentColumns());
    if table.Err? {
      return Err(table.error);
    }
    if !reader.ok || reader.position + h.payloadBytes != |data| {
      return Err(IntegrityFailure);
    }
    var payload := data[reader.position..];
    if env.checksum(payload) != h.payloadCrc {
      return Err(IntegrityFailure);
    }
    r := CollectSections(table.value, payload, env);
  }

  method DecodeFound(found: map<nat, Bytes>, digest: nat, lim: Limits, env: Env) returns (r: Result<Content>)
    ensures r == DecodeSections(found, digest, lim, env)
  {
    if METADATA_SECTION !in found {
      return Err(IntegrityFailure);
    }
    var metadata := DecodeMetadataSection(found[METADATA_SECTION], lim);
    if metadata.Err? {
      return Err(metadata.error);
    }
    if TextAt(metadata.value, VERSION_FIELD) != env.policyVersion {
      return Err(VersionMismatch);
    }
    if TOPOLOGY_SECTION !in found {
      return Err(IntegrityFailure);
    }
    var fabric := DecodeTopology(found[TOPOLOGY_SECTION], lim);
    if fabric.Err? {
      return Err(fabric.error);
    }
    if env.topologyDigest(fabric.value) != digest {
      return Err(IntegrityFailure);
    }
    var episodes: Result<seq<Row>> := Ok([]);
    if EPISODE_SECTION in found {
      episodes := DecodeEpisodeSection(found[EPISODE_SECTION], lim, env.episodeId);
      if episodes.Err? {
        return Err(episodes.error);
      }
    }
    var evidence: Result<(seq<Row>, bool)> := Ok(([], false));
    if EVIDENCE_SECTION in found {
      evidence := DecodeEvidenceSection(found[EVIDENCE_SECTION], lim, env.evidenceId);
      if evidence.Err? {
        return Err(evidence.error);
      }
    }
    return Ok(Content(Settle(metadata.value, fabric.value.generation), fabric.value, episodes.value, evidence.value.0, evidence.value.1));
  }

  method DecodeSnapshot(data: Bytes, lim: Limits, env: Env) returns (r: Result<Content>)
    ensures r == Decode(data, lim, env)
  {
    var found := OpenContainer(data, lim, env);
    if found.Err? {
      return Err(found.error);
    }
    r := DecodeFound(found.value, ReadHeader(data).topologyDigest, lim, env);
  }

  // ---- Encoding ----

  lemma FromNothing(text: Bytes)
    ensures [] + text == text
  {
  }

  // A counted table.
  method WriteEntries(rows: seq<Row>, columns: seq<Shape>) returns (out: Bytes)
    ensures out == WriteTable(rows, columns)
  {
    var writer := new ByteWriter();
    writer.PutNumber(|rows|, WORD);
    writer.PutRows(rows, columns);
    FromNothing(Put(|rows|, WORD));
    out := writer.out;
  }

  // The loop over the tables of a topology.
  method EncodeTopology(f: Fabric, lists: Lists, lim: Limits) returns (out: Bytes)
    ensures out == WriteFabric(f, lists, lim)
  {
    var writer := new ByteWriter();
    writer.PutRow(HeaderOf(f), HEADER);
    FromNothing(WriteRow(HeaderOf(f), HEADER));
    var columns := seq(TABLES, (k: nat) => Columns(k, lim));
    var body := EncodeTables(lists[NODES := ClipAll(lists[NODES])], columns, Schemas(lim));
    return writer.out + body;
  }

  // The first tables are written.
  ghost predicate Written(tables: seq<seq<Row>>, schemas: seq<Schema>, k: nat, body: Bytes)
    requires k <= |tables| && k <= |schemas|
  {
    body + WriteTables(tables[k..], schemas[k..]) == WriteTables(tables, schemas)
  }

  lemma WrittenMore(tables: seq<seq<Row>>, schemas: seq<Schema>, k: nat, body: Bytes)
    requires k < |tables| == |schemas| && Written(tables, schemas, k, body)
    ensures Written(tables, schemas, k + 1, body + WriteTable(tables[k], schemas[k].columns))
  {
    WriteUnroll(tables, schemas, k);
    Regroup(body, WriteTable(tables[k], schemas[k].columns), WriteTables(tables[k + 1..], schemas[k + 1..]));
  }

  lemma WrittenAll(tables: seq<seq<Row>>, schemas: seq<Schema>, body: Bytes)
    requires |tables| == |schemas|
    ensures Written(tables, schemas, 0, [])
    ensures Written(tables, schemas, |tables|, body) ==> body == WriteTables(tables, schemas)
  {
    assert tables[0..] == tables && schemas[0..] == schemas;
  }

  method EncodeTables(tables: seq<seq<Row>>, columns: seq<seq<Shape>>, ghost schemas: seq<Schema>) returns (body: Bytes)
    requires |tables| == |columns| == |schemas| && forall k :: 0 <= k < |columns| ==> schemas[k].columns == columns[k]
    ensures body == WriteTables(tables, schemas)
  {
    body := [];
    WrittenAll(tables, schemas, body);
    for k := 0 to |tables|
      invariant Written(tables, schemas, k, body)
    {
      WrittenMore(tables, schemas, k, body);
      var table := WriteEntries(tables[k], columns[k]);
      body := body + table;
    }
    WrittenAll(tables, schemas, body);
  }

  method EncodeSnapshot(content: Content, lists: Lists, lim: Limits, env: Env) returns (r: Result<Bytes>)
    ensures r == match Check(lim) case Some(e) => Err(e) case None => Encode(content, lists, lim, env)
  {
    var refused := Validate(lim);
    if refused != None {
      return Err(refused.value);
    }
    r := EncodeStaged(content, lists, lim, env);
  }

  method EncodeStaged(content: Content, lists: Lists, lim: Limits, env: Env) returns (r: Result<Bytes>)
    ensures r == Encode(content, lists, lim, env)
  {
    var digest := env.topologyDigest(content.fabric);
    var metadata := new ByteWriter();
    metadata.PutRow(Stamp(content.metadata, content.fabric, env), METADATA_COLUMNS);
    FromNothing(WriteRow(Stamp(content.metadata, content.fabric, env), METADATA_COLUMNS));
    var topology := EncodeTopology(content.fabric, lists, lim);
    var episodes := WriteEntries(Prefix(content.episodes, lim.maxSnapshotEpisodes), EpisodeColumns(lim));
    var evidence := WriteEntries(Prefix(content.evidence, lim.maxSnapshotEvidence), EvidenceColumns(lim));
    r := SealSections(Texts(metadata.out, topology, episodes, evidence), digest, Word64(NumAt(content.metadata, POLICY_FIELD)),
                      Word64(NumAt(content.metadata, CREATED_FIELD)), lim, env);
  }

  method SealSections(t: Texts, topologyDigest: u64, policyDigest: u64, createdAt: u64, lim: Limits, env: Env) returns (r: Result<Bytes>)
    ensures r == Seal(t, topologyDigest, policyDigest, createdAt, lim, env)
  {
    var sections := Sections(t);
    var table, payload := LayOut(sections, env);
    if |payload| > U64_MAX {
      return Err(ArithmeticOverflow);
    }
    if |payload| > lim.maxSnapshotBytes {
      return Err(LimitExceeded);
    }
    var writer := new ByteWriter();
    var header := HeaderRow(HeaderFor(env.(policyDigest := policyDigest), topologyDigest, createdAt, sections));
    writer.PutRow(header, HeaderColumns());
    FromNothing(WriteRow(header, HeaderColumns()));
    writer.PutRows(table, ExtentColumns());
    return Ok(writer.out + payload);
  }
}
