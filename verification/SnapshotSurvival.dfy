// Exactly which topologies and which contents come back from a snapshot (src/persistence/snapshot.cpp:323-1021).
module SnapshotSurvival {
  import opened Base
  import opened LittleEndian
  import opened Model
  import opened SnapshotWire
  import opened SnapshotRange
  import opened SnapshotTopology
  import opened SnapshotRebuild
  import opened SnapshotSections
  import opened SnapshotContainer
  import opened SnapshotIntegrity
  import opened SnapshotFormat

  // ---- Topologies ----

  ghost predicate RowsFit(tables: Tables, lim: Limits) {
    forall k: nat, id :: k < TABLES && id in tables[k] ==> FitsRow(tables[k][id], Columns(k, lim), lim.maxDocumentBytes)
  }

  // The tables before one are read, those behind it are still empty.
  ghost predicate Filled(k: nat, tables: Tables, lim: Limits) {
    && RowsFit(tables, lim)
    && (forall j: nat :: j < TABLES && j < k ==> |tables[j]| <= U32_MAX)
    && (forall j: nat :: j < TABLES && j >= k ==> tables[j] == map[])
  }

  // One table is being read, and so many rows of it are still to come.
  ghost predicate Filling(k: nat, tables: Tables, m: nat, lim: Limits)
    requires k < TABLES
  {
    && RowsFit(tables, lim)
    && (forall j: nat :: j < k ==> |tables[j]| <= U32_MAX)
    && |tables[k]| + m <= U32_MAX
    && (forall j: nat :: k < j < TABLES ==> tables[j] == map[])
  }

  lemma AddFills(k: nat, tables: Tables, m: nat, row: Row, lim: Limits)
    requires k < TABLES && m > 0 && Filling(k, tables, m, lim)
    requires FitsRow(row, Columns(k, lim), lim.maxDocumentBytes) && Add(k, tables, row, lim).Ok?
    ensures Filling(k, Add(k, tables, row, lim).value, m - 1, lim)
  {
  }

  lemma NamesOnly(k: nat, lim: Limits)
    ensures NoSubjects(Columns(k, lim))
  {
    assert NoSubjects([PLAIN]);
  }

  lemma TableRange(data: Bytes, c: Cursor, n: nat, k: nat, tables: Tables, lim: Limits)
    requires c.position <= |data| && k < TABLES && n <= U32_MAX && Filled(k, tables, lim)
    ensures var r := ReadEntries(data, c, n, Columns(k, lim), lim.maxDocumentBytes, tables, Keep(k, lim));
      r.Got? && r.at.ok ==> Filled(k + 1, r.value, lim)
  {
    ghost var kept := (t: Tables, m: nat) => Filling(k, t, m, lim);
    forall t: Tables, m: nat, row: Row | m > 0 && kept(t, m) && FitsRow(row, Columns(k, lim), lim.maxDocumentBytes) && Keep(k, lim)(t, row, true).Ok?
      ensures kept(Keep(k, lim)(t, row, true).value, m - 1)
    {
      AddFills(k, t, m, row, lim);
    }
    NamesOnly(k, lim);
    EntriesRange(data, c, n, Columns(k, lim), lim.maxDocumentBytes, tables, Keep(k, lim), kept);
  }

  lemma {:induction false} TablesRange(data: Bytes, c: Cursor, schemas: seq<Schema>, k: nat, tables: Tables, lim: Limits)
    requires c.position <= |data| && k + |schemas| == TABLES && Filled(k, tables, lim)
    requires forall j :: 0 <= j < |schemas| ==> schemas[j] == SchemaOf(k + j, lim)
    ensures var r := ReadTables(data, c, schemas, tables, lim.maxDocumentBytes); r.Got? && r.at.ok ==> Filled(TABLES, r.value, lim)
    decreases |schemas|
  {
    if schemas != [] {
      var (n, c1) := ReadCount(data, c, schemas[0].most);
      NumberRange(data, c, WORD);
      Widths();
      TableRange(data, c1, n, k, tables, lim);
      var next := ReadEntries(data, c1, n, schemas[0].columns, lim.maxDocumentBytes, tables, schemas[0].keep);
      if next.Got? && next.at.ok {
        TablesRange(data, next.at, schemas[1..], k + 1, next.value, lim);
      }
    }
  }

  lemma RevisionRange(data: Bytes, lim: Limits)
    ensures var r := ReadRow(data, Cursor(0, true), HEADER, lim.maxDocumentBytes);
      r.Got? && r.at.ok ==> FitsText(TextAt(r.value, 3), lim.maxDocumentBytes) && (TextAt(r.value, 3) == [] || IsCanonical(TextAt(r.value, 3)))
  {
    RowRange(data, Cursor(0, true), HEADER, lim.maxDocumentBytes);
    var r := ReadRow(data, Cursor(0, true), HEADER, lim.maxDocumentBytes);
    if r.Got? && r.at.ok {
      assert Fits(r.value.fields[3], HEADER[3], lim.maxDocumentBytes);
    }
  }

  // Whatever the bytes, a topology that is read could have been written by this format.
  lemma FabricRange(data: Bytes, lim: Limits)
    ensures var r := ReadFabric(data, lim); r.Ok? ==> Sound(r.value.tables, lim) && Fitting(r.value.tables, lim) && FitsRevision(r.value, lim)
  {
    var header := ReadRow(data, Cursor(0, true), HEADER, lim.maxDocumentBytes);
    ReadIsSound(data, lim);
    RevisionRange(data, lim);
    if header.Got? {
      TablesRange(data, header.at, Schemas(lim), 0, NOTHING, lim);
    }
  }

  // A topology comes back as it was exactly when its references and bounds are sound, every text and name in it can
  // be read back, and no node has more labels than are written.
  lemma TopologyReturnsExactly(f: Fabric, lists: Lists, lim: Limits)
    requires Enumerates(lists, f.tables)
    ensures ReadFabric(WriteFabric(f, lists, lim), lim) == Ok(f)
      <==> Sound(f.tables, lim) && Fitting(f.tables, lim) && FitsRevision(f, lim) && FewLabels(f)
  {
    FabricRange(WriteFabric(f, lists, lim), lim);
    if Sound(f.tables, lim) && Fitting(f.tables, lim) && FitsRevision(f, lim) {
      TopologySurvivesExactly(f, lists, lim);
    }
  }

  // The builder asks a flow for its path only, while the reader refuses the empty name that an unattributed flow is
  // written with: such a topology is sound, and never comes back.
  lemma UnattributedFlowLost(tables: Tables, revision: Name, generation: GenerationVector, id: Name, lists: Lists, lim: Limits)
    requires Sound(tables, lim) && id in tables[FLOWS] && |tables[FLOWS][id].fields| == 4
    requires var blank := Row(tables[FLOWS][id].fields[2 := Chars([])]);
      Enumerates(lists, tables[FLOWS := tables[FLOWS][id := blank]])
    ensures var f := Fabric(generation, revision, tables[FLOWS := tables[FLOWS][id := Row(tables[FLOWS][id].fields[2 := Chars([])])]]);
      Sound(f.tables, lim) && ReadFabric(WriteFabric(f, lists, lim), lim) != Ok(f)
  {
    var blank := Row(tables[FLOWS][id].fields[2 := Chars([])]);
    var f := Fabric(generation, revision, tables[FLOWS := tables[FLOWS][id := blank]]);
    BlankIsSound(tables, id, blank, lim);
    assert !FitsRow(f.tables[FLOWS][id], Columns(FLOWS, lim), lim.maxDocumentBytes) by {
      assert blank.fields[2] == Chars([]) && Columns(FLOWS, lim)[2] == PLAIN;
      assert !Fits(blank.fields[2], Columns(FLOWS, lim)[2], lim.maxDocumentBytes);
    }
    TopologyReturnsExactly(f, lists, lim);
  }

  lemma BlankRowSound(tables: Tables, more: Tables, id: Name, blank: Row, lim: Limits)
    requires id in tables[FLOWS] && SoundRow(FLOWS, tables, id, lim) && |tables[FLOWS][id].fields| == 4
    requires blank == Row(tables[FLOWS][id].fields[2 := Chars([])])
    requires forall j: nat :: j < FLOWS ==> more[j] == tables[j]
    ensures Id(blank) == id && id != [] && Objection(FLOWS, more, blank, lim) == None
  {
    assert TextAt(blank, 1) == TextAt(tables[FLOWS][id], 1);
    ObjectionLooksBack(FLOWS, tables, more, blank, lim);
  }

  lemma OtherRowSound(tables: Tables, more: Tables, k: nat, n: Name, lim: Limits)
    requires k < TABLES && n in tables[k] && SoundRow(k, tables, n, lim) && n in more[k] && more[k][n] == tables[k][n]
    requires forall j: nat :: j < FLOWS ==> more[j] == tables[j]
    ensures SoundRow(k, more, n, lim)
  {
    ObjectionLooksBack(k, tables, more, tables[k][n], lim);
  }

  lemma BlankIsSound(tables: Tables, id: Name, blank: Row, lim: Limits)
    requires Sound(tables, lim) && id in tables[FLOWS] && |tables[FLOWS][id].fields| == 4
    requires blank == Row(tables[FLOWS][id].fields[2 := Chars([])])
    ensures Sound(tables[FLOWS := tables[FLOWS][id := blank]], lim)
  {
    var more := tables[FLOWS := tables[FLOWS][id := blank]];
    assert SoundRow(FLOWS, tables, id, lim);
    assert more[FLOWS].Keys == tables[FLOWS].Keys && |more[FLOWS]| == |more[FLOWS].Keys|;
    BlankRowSound(tables, more, id, blank, lim);
    forall k: nat, n | k < TABLES && n in more[k] ensures SoundRow(k, more, n, lim) {
      if k != FLOWS || n != id {
        assert SoundRow(k, tables, n, lim);
        OtherRowSound(tables, more, k, n, lim);
      }
    }
    assert more[PORTS] == tables[PORTS];
  }

  // ---- Sections of entries ----

  lemma SectionRange(data: Bytes, c: Cursor, n: nat, columns: seq<Shape>, max: nat, identity: Row -> nat)
    requires c.position <= |data| && Readable(columns, max)
    ensures var r := AtEnd(data, ReadEntries(data, c, n, columns, max, [], Identified(identity)));
      r.Ok? ==> FitsRows(r.value, columns, max) && Authentic(r.value, identity) && |r.value| <= n
  {
    ghost var kept := (rows: seq<Row>, m: nat) => FitsRows(rows, columns, max) && Authentic(rows, identity) && |rows| + m <= n;
    forall rows: seq<Row>, m: nat, row: Row |
      m > 0 && kept(rows, m) && FitsRow(row, columns, max) && Identified(identity)(rows, row, true).Ok?
      ensures kept(Identified(identity)(rows, row, true).value, m - 1)
    {
    }
    EntriesRange(data, c, n, columns, max, [], Identified(identity), kept);
  }

  lemma EpisodesRange(data: Bytes, lim: Limits, identity: Row -> nat)
    requires FitsText(Render(NOBODY), lim.maxDocumentBytes)
    ensures var r := ReadEpisodes(data, lim, identity);
      r.Ok? ==> FitsRows(r.value, EpisodeColumns(lim), lim.maxDocumentBytes) && Authentic(r.value, identity) && |r.value| <= U32_MAX
  {
    var (n, c) := ReadCount(data, Cursor(0, true), lim.maxSnapshotEpisodes);
    NumberRange(data, Cursor(0, true), WORD);
    Widths();
    SectionRange(data, c, n, EpisodeColumns(lim), lim.maxDocumentBytes, identity);
  }

  lemma EvidenceRange(data: Bytes, lim: Limits, identity: Row -> nat)
    requires FitsText(Render(NOBODY), lim.maxDocumentBytes)
    ensures var r := ReadEvidence(data, lim, identity);
      r.Ok? ==> FitsRows(r.value.0, EvidenceColumns(lim), lim.maxDocumentBytes) && Authentic(r.value.0, identity) && |r.value.0| <= U32_MAX
  {
    var (raw, c) := ReadNumber(data, Cursor(0, true), WORD);
    NumberRange(data, Cursor(0, true), WORD);
    Widths();
    SectionRange(data, c, if raw > lim.maxSnapshotEvidence then 0 else raw, EvidenceColumns(lim), lim.maxDocumentBytes, identity);
  }

  // ---- Metadata ----

  // A metadata record holds two texts and 64-bit numbers, whatever the format can do with them.
  ghost predicate IsMetadata(row: Row) {
    && |row.fields| == |METADATA_COLUMNS|
    && row.fields[VERSION_FIELD].Chars? && row.fields[|METADATA_COLUMNS| - 1].Chars?
    && forall i :: 0 < i < |METADATA_COLUMNS| - 1 ==> row.fields[i].Num? && row.fields[i].n <= U64_MAX
  }

  lemma MetadataRange(data: Bytes, lim: Limits)
    ensures var r := ReadMetadata(data, lim); r.Ok? ==> FitsRow(r.value, METADATA_COLUMNS, lim.maxDocumentBytes)
  {
    assert NoSubjects(METADATA_COLUMNS);
    RowRange(data, Cursor(0, true), METADATA_COLUMNS, lim.maxDocumentBytes);
  }

  // Stamps and the settled generation are numbers, so the texts are what decides.
  lemma StampsDecideNothing(metadata: Row, read: Row, f: Fabric, lim: Limits, env: Env)
    requires IsMetadata(metadata) && FitsRow(read, METADATA_COLUMNS, lim.maxDocumentBytes)
    requires Settle(read, f.generation) == Settle(Stamp(metadata, f, env), f.generation)
    ensures FitsRow(metadata, METADATA_COLUMNS, lim.maxDocumentBytes) && TextAt(metadata, VERSION_FIELD) == TextAt(read, VERSION_FIELD)
  {
    Widths();
    var last := |METADATA_COLUMNS| - 1;
    assert Settle(read, f.generation).fields[VERSION_FIELD] == read.fields[VERSION_FIELD];
    assert Settle(read, f.generation).fields[last] == read.fields[last];
    forall i | 0 <= i < |METADATA_COLUMNS| ensures Fits(metadata.fields[i], METADATA_COLUMNS[i], lim.maxDocumentBytes) {
      assert Fits(read.fields[i], METADATA_COLUMNS[i], lim.maxDocumentBytes);
    }
  }

  // ---- Whole snapshots ----

  lemma PackedParts(env: Env, topologyDigest: u64, createdAt: u64, sections: seq<Section>)
    ensures Pack(env, topologyDigest, createdAt, sections)
      == WriteRow(HeaderRow(HeaderFor(env, topologyDigest, createdAt, sections)), HeaderColumns())
         + (WriteRows(Extents(sections, 0, env.checksum), ExtentColumns()) + Payload(sections))
  {
  }

  lemma PackedHeader(env: Env, topologyDigest: u64, createdAt: u64, sections: seq<Section>)
    requires |sections| <= U32_MAX && |Payload(sections)| <= U64_MAX
    ensures ReadHeader(Pack(env, topologyDigest, createdAt, sections)) == HeaderFor(env, topologyDigest, createdAt, sections)
  {
    var h := HeaderFor(env, topologyDigest, createdAt, sections);
    MagicText();
    HeaderFits(h);
    PackedParts(env, topologyDigest, createdAt, sections);
    HeaderRead(Pack(env, topologyDigest, createdAt, sections), h, WriteRows(Extents(sections, 0, env.checksum), ExtentColumns()) + Payload(sections));
  }

  lemma OpenedIsChecked(data: Bytes, h: Header, lim: Limits, env: Env)
    requires ReadHeader(data) == h && Unpack(data, lim, env).Ok?
    ensures CheckHeader(h, lim, env) == None
  {
  }

  // Only under the policy it was sealed for, and where four sections are allowed, does a snapshot open.
  lemma SealedOpensOnly(t: Texts, topologyDigest: u64, policyDigest: u64, createdAt: u64, lim: Limits, env: Env, bytes: Bytes)
    requires Seal(t, topologyDigest, policyDigest, createdAt, lim, env) == Ok(bytes)
    ensures Unpack(bytes, lim, env).Ok? ==> policyDigest == env.policyDigest && 4 <= lim.maxSnapshotSections
  {
    var other := env.(policyDigest := policyDigest);
    PackedHeader(other, topologyDigest, createdAt, Sections(t));
    if Unpack(bytes, lim, env).Ok? {
      OpenedIsChecked(bytes, HeaderFor(other, topologyDigest, createdAt, Sections(t)), lim, env);
    }
  }

  // The parts of a decoded content are those its four sections were decoded to.
  lemma PartsReturn(content: Content, lists: Lists, lim: Limits, env: Env, found: map<nat, Bytes>)
    requires FitsText(Render(NOBODY), lim.maxDocumentBytes)
    requires Enumerates(lists, content.fabric.tables) && IsMetadata(content.metadata)
    requires Holds(found, TextsOf(content, lists, lim, env))
    requires DecodeSections(found, env.topologyDigest(content.fabric), lim, env) == Ok(Restored(content, lim, env))
    ensures FitsRow(content.metadata, METADATA_COLUMNS, lim.maxDocumentBytes) && TextAt(content.metadata, VERSION_FIELD) == env.policyVersion
    ensures FabricWellFormed(content.fabric, lists, lim)
    ensures EntriesWellFormed(Prefix(content.episodes, lim.maxSnapshotEpisodes), EpisodeColumns(lim), lim, env.episodeId)
    ensures EntriesWellFormed(Prefix(content.evidence, lim.maxSnapshotEvidence), EvidenceColumns(lim), lim, env.evidenceId)
  {
    var metadata := DecodeMetadata(found, lim, env).value;
    MetadataRange(found[METADATA_SECTION], lim);
    StampsDecideNothing(content.metadata, metadata, content.fabric, lim, env);
    TopologyReturnsExactly(content.fabric, lists, lim);
    EpisodesRange(found[EPISODE_SECTION], lim, env.episodeId);
    EvidenceRange(found[EVIDENCE_SECTION], lim, env.evidenceId);
  }

  lemma DecodedOpens(data: Bytes, lim: Limits, env: Env)
    requires Decode(data, lim, env).Ok?
    ensures Unpack(data, lim, env).Ok?
  {
  }

  lemma PolicyIsWord(metadata: Row)
    requires IsMetadata(metadata)
    ensures Word64(NumAt(metadata, POLICY_FIELD)) == NumAt(metadata, POLICY_FIELD)
  {
    assert NumAt(metadata, POLICY_FIELD) == metadata.fields[POLICY_FIELD].n <= U64_MAX;
  }

  lemma ReturnedPolicy(content: Content, lists: Lists, lim: Limits, env: Env, bytes: Bytes, t: Texts)
    requires IsMetadata(content.metadata) && t == TextsOf(content, lists, lim, env)
    requires Encode(content, lists, lim, env) == Ok(bytes) && Unpack(bytes, lim, env).Ok?
    ensures NumAt(content.metadata, POLICY_FIELD) == env.policyDigest && 4 <= lim.maxSnapshotSections
  {
    PolicyIsWord(content.metadata);
    SealedOpensOnly(t, env.topologyDigest(content.fabric), Word64(NumAt(content.metadata, POLICY_FIELD)),
                    Word64(NumAt(content.metadata, CREATED_FIELD)), lim, env, bytes);
  }

  lemma OnlyWellFormedReturns(content: Content, lists: Lists, lim: Limits, env: Env, bytes: Bytes, t: Texts)
    requires FitsText(Render(NOBODY), lim.maxDocumentBytes)
    requires Enumerates(lists, content.fabric.tables) && IsMetadata(content.metadata)
    requires Encode(content, lists, lim, env) == Ok(bytes) && t == TextsOf(content, lists, lim, env)
    requires Decode(bytes, lim, env) == Ok(Restored(content, lim, env))
    ensures WellFormed(content, lists, lim, env)
  {
    DecodedOpens(bytes, lim, env);
    ReturnedPolicy(content, lists, lim, env, bytes, t);
    EncodedDecodes(content, lists, lim, env, bytes);
    FourHold(t);
    PartsReturn(content, lists, lim, env, ById(Sections(t), map[]));
  }

  // An accepted content comes back from its snapshot, up to the bounds on its lists, exactly when it is of the active
  // policy, its topology is sound with at most 64 labels a node, every entry has the identity of its own content, and
  // every name, text and list in it is one the reader admits.
  lemma SnapshotReturnsExactly(content: Content, lists: Lists, lim: Limits, env: Env, bytes: Bytes)
    requires FitsText(Render(NOBODY), lim.maxDocumentBytes)
    requires Enumerates(lists, content.fabric.tables) && IsMetadata(content.metadata)
    requires Encode(content, lists, lim, env) == Ok(bytes)
    ensures Decode(bytes, lim, env) == Ok(Restored(content, lim, env)) <==> WellFormed(content, lists, lim, env)
  {
    if WellFormed(content, lists, lim, env) {
      SnapshotRoundTrip(content, lists, lim, env, bytes);
    } else if Decode(bytes, lim, env) == Ok(Restored(content, lim, env)) {
      OnlyWellFormedReturns(content, lists, lim, env, bytes, TextsOf(content, lists, lim, env));
      assert false;
    }
  }
}
