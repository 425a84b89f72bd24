// Encoding and decoding whole snapshots (src/persistence/snapshot.cpp:570-687,747-1021).
module SnapshotFormat {
  import opened Base
  import opened LittleEndian
  import opened Model
  import opened SnapshotWire
  import opened SnapshotTopology
  import opened SnapshotRebuild
  import opened SnapshotSections
  import opened SnapshotContainer
  import opened SnapshotIntegrity

  const TOPOLOGY_SECTION: nat := 1
  const EPISODE_SECTION: nat := 2
  const EVIDENCE_SECTION: nat := 3
  const METADATA_SECTION: nat := 4

  datatype Content = Content(metadata: Row, fabric: Fabric, episodes: seq<Row>, evidence: seq<Row>, truncated: bool)

  // ---- Metadata fields ----

  const VERSION_FIELD: nat := 0
  const POLICY_FIELD: nat := 1
  const LIMITS_FIELD: nat := 2
  const TOPOLOGY_FIELD: nat := 3
  const CREATED_FIELD: nat := 4
  const EPOCH_FIELD: nat := 8

  function With(row: Row, i: nat, n: nat): Row { if i < |row.fields| then Row(row.fields[i := Num(n)]) else row }

  // The digests that the encoder derives itself.
  function Stamp(metadata: Row, fabric: Fabric, env: Env): Row {
    With(With(metadata, LIMITS_FIELD, env.limitsDigest), TOPOLOGY_FIELD, env.topologyDigest(fabric))
  }

  // The generation of a decoded snapshot is that of its topology.
  function Settle(metadata: Row, generation: GenerationVector): Row {
    With(With(With(metadata, EPOCH_FIELD, generation.epoch), EPOCH_FIELD + 1, generation.generation), EPOCH_FIELD + 2, generation.revision)
  }

  function Word64(n: nat): u64 { n % 0x1_0000_0000_0000_0000 }

  // ---- Encoding ----

  // The texts of the four sections.
  datatype Texts = Texts(metadata: Bytes, topology: Bytes, episodes: Bytes, evidence: Bytes)

  function TextsOf(content: Content, lists: Lists, lim: Limits, env: Env): Texts {
    Texts(WriteRow(Stamp(content.metadata, content.fabric, env), METADATA_COLUMNS),
          WriteFabric(content.fabric, lists, lim),
          WriteTable(Prefix(content.episodes, lim.maxSnapshotEpisodes), EpisodeColumns(lim)),
          WriteTable(Prefix(content.evidence, lim.maxSnapshotEvidence), EvidenceColumns(lim)))
  }

  function Sections(t: Texts): seq<Section> {
    [Section(METADATA_SECTION, t.metadata), Section(TOPOLOGY_SECTION, t.topology), Section(EPISODE_SECTION, t.episodes),
     Section(EVIDENCE_SECTION, t.evidence)]
  }

  // The payload, not the file, is held to the bound.
  function Seal(t: Texts, topologyDigest: u64, policyDigest: u64, createdAt: u64, lim: Limits, env: Env): Result<Bytes> {
    if |Payload(Sections(t))| > U64_MAX then Err(ArithmeticOverflow)
    else if |Payload(Sections(t))| > lim.maxSnapshotBytes then Err(LimitExceeded)
    else Ok(Pack(env.(policyDigest := policyDigest), topologyDigest, createdAt, Sections(t)))
  }

  // The header carries the policy digest of the content.
  function Encode(content: Content, lists: Lists, lim: Limits, env: Env): Result<Bytes> {
    Seal(TextsOf(content, lists, lim, env), env.topologyDigest(content.fabric), Word64(NumAt(content.metadata, POLICY_FIELD)),
         Word64(NumAt(content.metadata, CREATED_FIELD)), lim, env)
  }

  // ---- Decoding ----

  function DecodeMetadata(found: map<nat, Bytes>, lim: Limits, env: Env): Result<Row> {
    if METADATA_SECTION !in found then Err(IntegrityFailure)
    else
      match ReadMetadata(found[METADATA_SECTION], lim)
      case Err(e) => Err(e)
      case Ok(row) => if TextAt(row, VERSION_FIELD) != env.policyVersion then Err(VersionMismatch) else Ok(row)
  }

  ghost function DecodeFabric(found: map<nat, Bytes>, digest: nat, lim: Limits, env: Env): Result<Fabric> {
    if TOPOLOGY_SECTION !in found then Err(IntegrityFailure)
    else
      match ReadFabric(found[TOPOLOGY_SECTION], lim)
      case Err(e) => Err(e)
      case Ok(f) => if env.topologyDigest(f) != digest then Err(IntegrityFailure) else Ok(f)
  }

  function DecodeEpisodes(found: map<nat, Bytes>, lim: Limits, env: Env): Result<seq<Row>> {
    if EPISODE_SECTION !in found then Ok([]) else ReadEpisodes(found[EPISODE_SECTION], lim, env.episodeId)
  }

  function DecodeEvidence(found: map<nat, Bytes>, lim: Limits, env: Env): Result<(seq<Row>, bool)> {
    if EVIDENCE_SECTION !in found then Ok(([], false)) else ReadEvidence(found[EVIDENCE_SECTION], lim, env.evidenceId)
  }

  ghost function Assemble(metadata: Result<Row>, fabric: Result<Fabric>, episodes: Result<seq<Row>>, evidence: Result<(seq<Row>, bool)>)
    : Result<Content>
  {
    if metadata.Err? then Err(metadata.error)
    else if fabric.Err? then Err(fabric.error)
    else if episodes.Err? then Err(episodes.error)
    else if evidence.Err? then Err(evidence.error)
    else Ok(Content(Settle(metadata.value, fabric.value.generation), fabric.value, episodes.value, evidence.value.0, evidence.value.1))
  }

  ghost function DecodeSections(found: map<nat, Bytes>, digest: nat, lim: Limits, env: Env): Result<Content> {
    Assemble(DecodeMetadata(found, lim, env), DecodeFabric(found, digest, lim, env), DecodeEpisodes(found, lim, env),
             DecodeEvidence(found, lim, env))
  }

  ghost function Decode(data: Bytes, lim: Limits, env: Env): Result<Content> {
    match Unpack(data, lim, env)
    case Err(e) => Err(e)
    case Ok(found) => DecodeSections(found, ReadHeader(data).topologyDigest, lim, env)
  }

  // ---- Whatever the bytes ----

  // What decodes is sound: references resolve, bounds hold, identities belong to their contents, and the policy
  // is the active one.
  lemma DecodedIsSound(data: Bytes, lim: Limits, env: Env)
    ensures var r := Decode(data, lim, env);
      r.Ok? ==> Sound(r.value.fabric.tables, lim) && Authentic(r.value.episodes, env.episodeId) && Authentic(r.value.evidence, env.evidenceId)
  {
    var found := Unpack(data, lim, env);
    if found.Ok? {
      SectionsAreSound(found.value, ReadHeader(data).topologyDigest, lim, env);
    }
  }

  lemma SectionsAreSound(found: map<nat, Bytes>, digest: nat, lim: Limits, env: Env)
    ensures var r := DecodeSections(found, digest, lim, env);
      r.Ok? ==> Sound(r.value.fabric.tables, lim) && Authentic(r.value.episodes, env.episodeId) && Authentic(r.value.evidence, env.evidenceId)
  {
    if TOPOLOGY_SECTION in found {
      ReadIsSound(found[TOPOLOGY_SECTION], lim);
    }
    if EPISODE_SECTION in found {
      ReadIsAuthentic(found[EPISODE_SECTION], lim, env.episodeId);
    }
    if EVIDENCE_SECTION in found {
      ReadIsAuthentic(found[EVIDENCE_SECTION], lim, env.evidenceId);
    }
  }

  // Of a text and a longer one that continues it, at most one decodes.
  lemma OnlyWholeDecodes(a: Bytes, b: Bytes, lim: Limits, env: Env)
    requires a < b
    ensures Decode(a, lim, env).Err? || Decode(b, lim, env).Err?
  {
    OnlyWholeOpens(a, b, lim, env);
  }

  // ---- Round trip ----

  // The content belongs to the active policy, and every part of it can be read back.
  ghost predicate WellFormed(content: Content, lists: Lists, lim: Limits, env: Env) {
    && FitsRow(content.metadata, METADATA_COLUMNS, lim.maxDocumentBytes)
    && TextAt(content.metadata, VERSION_FIELD) == env.policyVersion && NumAt(content.metadata, POLICY_FIELD) == env.policyDigest
    && FabricWellFormed(content.fabric, lists, lim)
    && EntriesWellFormed(Prefix(content.episodes, lim.maxSnapshotEpisodes), EpisodeColumns(lim), lim, env.episodeId)
    && EntriesWellFormed(Prefix(content.evidence, lim.maxSnapshotEvidence), EvidenceColumns(lim), lim, env.evidenceId)
    && 4 <= lim.maxSnapshotSections
  }

  ghost predicate FabricWellFormed(f: Fabric, lists: Lists, lim: Limits) {
    Sound(f.tables, lim) && Fitting(f.tables, lim) && FitsRevision(f, lim) && Enumerates(lists, f.tables) && FewLabels(f)
  }

  ghost predicate EntriesWellFormed(rows: seq<Row>, columns: seq<Shape>, lim: Limits, identity: Row -> nat) {
    FitsRows(rows, columns, lim.maxDocumentBytes) && Authentic(rows, identity) && |rows| <= 0xFFFF_FFFF
  }

  lemma WithFits(row: Row, i: nat, n: u64, columns: seq<Shape>, max: nat)
    requires FitsRow(row, columns, max) && i < |columns| && columns[i] == Number(LONG)
    ensures FitsRow(With(row, i, n), columns, max)
    ensures i != VERSION_FIELD ==> TextAt(With(row, i, n), VERSION_FIELD) == TextAt(row, VERSION_FIELD)
  {
    Widths();
    forall j | 0 <= j < |columns| ensures Fits(With(row, i, n).fields[j], columns[j], max) {
      assert Fits(row.fields[j], columns[j], max);
    }
  }

  lemma StampFits(metadata: Row, fabric: Fabric, lim: Limits, env: Env)
    requires FitsRow(metadata, METADATA_COLUMNS, lim.maxDocumentBytes)
    ensures FitsRow(Stamp(metadata, fabric, env), METADATA_COLUMNS, lim.maxDocumentBytes)
    ensures TextAt(Stamp(metadata, fabric, env), VERSION_FIELD) == TextAt(metadata, VERSION_FIELD)
  {
    WithFits(metadata, LIMITS_FIELD, env.limitsDigest, METADATA_COLUMNS, lim.maxDocumentBytes);
    WithFits(With(metadata, LIMITS_FIELD, env.limitsDigest), TOPOLOGY_FIELD, env.topologyDigest(fabric), METADATA_COLUMNS,
             lim.maxDocumentBytes);
  }

  // The four sections under their numbers.
  ghost predicate Holds(found: map<nat, Bytes>, t: Texts) {
    && METADATA_SECTION in found && found[METADATA_SECTION] == t.metadata
    && TOPOLOGY_SECTION in found && found[TOPOLOGY_SECTION] == t.topology
    && EPISODE_SECTION in found && found[EPISODE_SECTION] == t.episodes
    && EVIDENCE_SECTION in found && found[EVIDENCE_SECTION] == t.evidence
  }

  lemma {:induction false} ByIdKeeps(sections: seq<Section>, found: map<nat, Bytes>, id: nat)
    requires id in found && forall i :: 0 <= i < |sections| ==> sections[i].id != id
    ensures id in ById(sections, found) && ById(sections, found)[id] == found[id]
  {
    if sections != [] {
      ByIdKeeps(sections[1..], found[sections[0].id := sections[0].bytes], id);
    }
  }

  lemma {:induction false} ByIdHolds(sections: seq<Section>, found: map<nat, Bytes>, i: nat)
    requires NumbersApart(sections) && i < |sections|
    ensures sections[i].id in ById(sections, found) && ById(sections, found)[sections[i].id] == sections[i].bytes
  {
    var next := found[sections[0].id := sections[0].bytes];
    if i == 0 {
      ByIdKeeps(sections[1..], next, sections[0].id);
    } else {
      ByIdHolds(sections[1..], next, i - 1);
    }
  }

  lemma FourHold(t: Texts)
    ensures NumbersApart(Sections(t)) && Holds(ById(Sections(t), map[]), t)
  {
    ByIdHolds(Sections(t), map[], 0);
    ByIdHolds(Sections(t), map[], 1);
    ByIdHolds(Sections(t), map[], 2);
    ByIdHolds(Sections(t), map[], 3);
  }

  lemma SealOpens(t: Texts, topologyDigest: u64, createdAt: u64, lim: Limits, env: Env)
    requires Seal(t, topologyDigest, env.policyDigest, createdAt, lim, env).Ok? && 4 <= lim.maxSnapshotSections
    ensures var bytes := Seal(t, topologyDigest, env.policyDigest, createdAt, lim, env).value;
      Unpack(bytes, lim, env) == Ok(ById(Sections(t), map[])) && ReadHeader(bytes).topologyDigest == topologyDigest
  {
    FourHold(t);
    assert env.(policyDigest := env.policyDigest) == env;
    PackOpens(env, topologyDigest, createdAt, Sections(t), lim);
  }

  lemma MetadataDecodes(metadata: Row, fabric: Fabric, lim: Limits, env: Env, found: map<nat, Bytes>)
    requires FitsRow(metadata, METADATA_COLUMNS, lim.maxDocumentBytes) && TextAt(metadata, VERSION_FIELD) == env.policyVersion
    requires METADATA_SECTION in found && found[METADATA_SECTION] == WriteRow(Stamp(metadata, fabric, env), METADATA_COLUMNS)
    ensures DecodeMetadata(found, lim, env) == Ok(Stamp(metadata, fabric, env))
  {
    StampFits(metadata, fabric, lim, env);
    MetadataRoundTrip(Stamp(metadata, fabric, env), lim);
  }

  lemma FabricDecodes(f: Fabric, lists: Lists, lim: Limits, env: Env, found: map<nat, Bytes>)
    requires FabricWellFormed(f, lists, lim) && TOPOLOGY_SECTION in found && found[TOPOLOGY_SECTION] == WriteFabric(f, lists, lim)
    ensures DecodeFabric(found, env.topologyDigest(f), lim, env) == Ok(f)
  {
    TopologySurvivesExactly(f, lists, lim);
  }

  lemma EpisodesDecode(rows: seq<Row>, lim: Limits, env: Env, found: map<nat, Bytes>)
    requires EntriesWellFormed(rows, EpisodeColumns(lim), lim, env.episodeId) && |rows| <= lim.maxSnapshotEpisodes
    requires EPISODE_SECTION in found && found[EPISODE_SECTION] == WriteTable(rows, EpisodeColumns(lim))
    ensures DecodeEpisodes(found, lim, env) == Ok(rows)
  {
    EpisodesRoundTrip(rows, lim, env.episodeId);
  }

  lemma EvidenceDecodes(rows: seq<Row>, lim: Limits, env: Env, found: map<nat, Bytes>)
    requires EntriesWellFormed(rows, EvidenceColumns(lim), lim, env.evidenceId) && |rows| <= lim.maxSnapshotEvidence
    requires EVIDENCE_SECTION in found && found[EVIDENCE_SECTION] == WriteTable(rows, EvidenceColumns(lim))
    ensures DecodeEvidence(found, lim, env) == Ok((rows, false))
  {
    EvidenceRoundTrip(rows, lim, env.evidenceId);
  }

  // What a snapshot of a content gives back.
  function Restored(content: Content, lim: Limits, env: Env): Content {
    Content(Settle(Stamp(content.metadata, content.fabric, env), content.fabric.generation), content.fabric,
            Prefix(content.episodes, lim.maxSnapshotEpisodes), Prefix(content.evidence, lim.maxSnapshotEvidence), false)
  }

  lemma SectionsRoundTrip(content: Content, lists: Lists, lim: Limits, env: Env, found: map<nat, Bytes>)
    requires WellFormed(content, lists, lim, env) && Holds(found, TextsOf(content, lists, lim, env))
    ensures DecodeSections(found, env.topologyDigest(content.fabric), lim, env) == Ok(Restored(content, lim, env))
  {
    MetadataDecodes(content.metadata, content.fabric, lim, env, found);
    FabricDecodes(content.fabric, lists, lim, env, found);
    EpisodesDecode(Prefix(content.episodes, lim.maxSnapshotEpisodes), lim, env, found);
    EvidenceDecodes(Prefix(content.evidence, lim.maxSnapshotEvidence), lim, env, found);
  }

  // What was sealed is decoded from its four sections.
  lemma SealDecodes(t: Texts, topologyDigest: u64, createdAt: u64, lim: Limits, env: Env, bytes: Bytes)
    requires Seal(t, topologyDigest, env.policyDigest, createdAt, lim, env) == Ok(bytes) && 4 <= lim.maxSnapshotSections
    ensures Decode(bytes, lim, env) == DecodeSections(ById(Sections(t), map[]), topologyDigest, lim, env)
  {
    SealOpens(t, topologyDigest, createdAt, lim, env);
  }

  lemma TextsDecode(content: Content, lists: Lists, lim: Limits, env: Env, t: Texts)
    requires WellFormed(content, lists, lim, env) && t == TextsOf(content, lists, lim, env)
    ensures DecodeSections(ById(Sections(t), map[]), env.topologyDigest(content.fabric), lim, env) == Ok(Restored(content, lim, env))
  {
    FourHold(t);
    SectionsRoundTrip(content, lists, lim, env, ById(Sections(t), map[]));
  }

  lemma EncodedDecodes(content: Content, lists: Lists, lim: Limits, env: Env, bytes: Bytes)
    requires NumAt(content.metadata, POLICY_FIELD) == env.policyDigest && 4 <= lim.maxSnapshotSections
    requires Encode(content, lists, lim, env) == Ok(bytes)
    ensures Decode(bytes, lim, env)
      == DecodeSections(ById(Sections(TextsOf(content, lists, lim, env)), map[]), env.topologyDigest(content.fabric), lim, env)
  {
    var created := Word64(NumAt(content.metadata, CREATED_FIELD));
    SealDecodes(TextsOf(content, lists, lim, env), env.topologyDigest(content.fabric), created, lim, env, bytes);
  }

  // Encoding and decoding a well-formed content under the same limits and policy gives back its topology, its
  // metadata with the digests stamped, and the bounded prefixes of its episodes and its evidence.
  lemma SnapshotRoundTrip(content: Content, lists: Lists, lim: Limits, env: Env, bytes: Bytes)
    requires WellFormed(content, lists, lim, env) && Encode(content, lists, lim, env) == Ok(bytes)
    ensures Decode(bytes, lim, env) == Ok(Restored(content, lim, env))
  {
    EncodedDecodes(content, lists, lim, env, bytes);
    TextsDecode(content, lists, lim, env, TextsOf(content, lists, lim, env));
  }
}
