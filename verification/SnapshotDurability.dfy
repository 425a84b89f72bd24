// The store with the snapshot format it is deployed with: what any run of saves makes a load return, and
// which accepted snapshots are too long to be read back (src/persistence/store.cpp, src/persistence/snapshot.cpp).
module SnapshotDurability {
  import opened Base
  import opened LittleEndian
  import opened Model
  import opened ResourceLimits
  import opened SnapshotWire
  import opened SnapshotTopology
  import opened SnapshotRebuild
  import opened SnapshotSections
  import opened SnapshotContainer
  import opened SnapshotFormat
  import SnapshotIntegrity
  import Durability

  // One save: a content, the order in which its topology is listed, and what befalls its steps.
  datatype Saving = Saving(content: Content, lists: Lists, plan: Durability.Plan)

  ghost function Decoder(lim: Limits, env: Env): Bytes -> Result<Content> { (data: Bytes) => Decode(data, lim, env) }

  // What the saves attempt on disk; a content that does not encode is refused before anything is touched.
  function AttemptsOf(savings: seq<Saving>, lim: Limits, env: Env): seq<Durability.Attempt> {
    if savings == [] then []
    else
      match Encode(savings[0].content, savings[0].lists, lim, env)
      case Err(_) => AttemptsOf(savings[1..], lim, env)
      case Ok(bytes) => [Durability.Attempt(bytes, savings[0].plan)] + AttemptsOf(savings[1..], lim, env)
  }

  // The content of the last save that reported success.
  function LastContent(s: Durability.State, savings: seq<Saving>, lim: Limits, env: Env, before: Option<Content>): Option<Content>
    decreases |savings|
  {
    if savings == [] then before
    else
      match Encode(savings[0].content, savings[0].lists, lim, env)
      case Err(_) => LastContent(s, savings[1..], lim, env, before)
      case Ok(bytes) =>
        var t := Durability.Attempted(s, Durability.Attempt(bytes, savings[0].plan));
        LastContent(t, savings[1..], lim, env, if t.pc == Durability.Stopped(Durability.Saved) then Some(savings[0].content) else before)
  }

  // Every content is well formed, and its file fits the bound on whole files.
  ghost predicate Loadable(savings: seq<Saving>, lim: Limits, env: Env) {
    forall x :: x in savings ==> LoadableOne(x, lim, env)
  }

  ghost predicate LoadableOne(x: Saving, lim: Limits, env: Env) {
    && WellFormed(x.content, x.lists, lim, env)
    && PayloadSize(x.content, x.lists, lim, env) <= lim.maxSnapshotBytes - FRAMING
  }

  function PayloadSize(c: Content, lists: Lists, lim: Limits, env: Env): nat { |Payload(Sections(TextsOf(c, lists, lim, env)))| }

  // The header and the four entries of the table.
  const FRAMING: nat := HEADER_BYTES + ENTRY_BYTES * 4

  // The last saved bytes are those of the last saved content.
  ghost predicate Holds(bytes: Option<Bytes>, content: Option<Content>, lim: Limits, env: Env) {
    match (bytes, content)
    case (None, None) => true
    case (Some(b), Some(c)) => |b| <= lim.maxSnapshotBytes && Decode(b, lim, env) == Ok(Restored(c, lim, env))
    case _ => false
  }

  // What the encoder accepts is a file of the payload and 180 bytes more.
  lemma FileSize(c: Content, lists: Lists, lim: Limits, env: Env, bytes: Bytes)
    requires Encode(c, lists, lim, env) == Ok(bytes)
    ensures |bytes| <= lim.maxSnapshotBytes <==> PayloadSize(c, lists, lim, env) <= lim.maxSnapshotBytes - FRAMING
  {
    SealedSize(TextsOf(c, lists, lim, env), env.topologyDigest(c.fabric), Word64(NumAt(c.metadata, POLICY_FIELD)),
               Word64(NumAt(c.metadata, CREATED_FIELD)), lim, env, bytes);
  }

  lemma SealedSize(t: Texts, topologyDigest: u64, policyDigest: u64, createdAt: u64, lim: Limits, env: Env, bytes: Bytes)
    requires Seal(t, topologyDigest, policyDigest, createdAt, lim, env) == Ok(bytes)
    ensures |bytes| <= lim.maxSnapshotBytes <==> |Payload(Sections(t))| <= lim.maxSnapshotBytes - FRAMING
  {
    SnapshotIntegrity.FileBoundExactly(env.(policyDigest := policyDigest), topologyDigest, createdAt, Sections(t), lim.maxSnapshotBytes);
  }

  lemma LoadableHolds(x: Saving, lim: Limits, env: Env, bytes: Bytes)
    requires LoadableOne(x, lim, env) && Encode(x.content, x.lists, lim, env) == Ok(bytes)
    ensures Holds(Some(bytes), Some(x.content), lim, env)
  {
    FileSize(x.content, x.lists, lim, env, bytes);
    SnapshotRoundTrip(x.content, x.lists, lim, env, bytes);
  }

  lemma {:induction false} LastSavedHolds(s: Durability.State, savings: seq<Saving>, lim: Limits, env: Env,
                                          bytes: Option<Bytes>, content: Option<Content>)
    requires Loadable(savings, lim, env) && Holds(bytes, content, lim, env)
    ensures Holds(Durability.LastSaved(s, AttemptsOf(savings, lim, env), bytes), LastContent(s, savings, lim, env, content), lim, env)
    decreases |savings|
  {
    if savings != [] {
      var x := savings[0];
      match Encode(x.content, x.lists, lim, env) {
        case Err(_) => LastSavedHolds(s, savings[1..], lim, env, bytes, content);
        case Ok(encoded) =>
          LoadableHolds(x, lim, env, encoded);
          var a := Durability.Attempt(encoded, x.plan);
          var t := Durability.Attempted(s, a);
          var saved := t.pc == Durability.Stopped(Durability.Saved);
          assert AttemptsOf(savings, lim, env)[0] == a && AttemptsOf(savings, lim, env)[1..] == AttemptsOf(savings[1..], lim, env);
          LastSavedHolds(t, savings[1..], lim, env, if saved then Some(encoded) else bytes, if saved then Some(x.content) else content);
      }
    }
  }

  // After any run of saves none of which loses the snapshot, a load returns what was saved last: its topology,
  // its metadata and its bounded episodes and evidence.
  lemma LoadRestoresLastSaved(savings: seq<Saving>, lim: Limits, env: Env)
    requires Loadable(savings, lim, env) && Durability.NoneLoses(Durability.EMPTY, AttemptsOf(savings, lim, env))
    ensures var s := Durability.Run(Durability.EMPTY, AttemptsOf(savings, lim, env));
      var loaded := Durability.LoadFrom(s.disk, Durability.Seen, Durability.Seen, lim.maxSnapshotBytes, Decoder(lim, env)).content;
      match LastContent(Durability.EMPTY, savings, lim, env, None)
      case None => loaded == None
      case Some(c) => loaded == Some(Restored(c, lim, env))
  {
    var attempts := AttemptsOf(savings, lim, env);
    Durability.RunKeepsCommitted(Durability.EMPTY, attempts);
    LastSavedHolds(Durability.EMPTY, savings, lim, env, None, None);
    var s := Durability.Run(Durability.EMPTY, attempts);
    Durability.LoadReturnsCommitted(s.disk, s.committed, lim.maxSnapshotBytes, Decoder(lim, env));
  }

  // What the encoder accepts can be read back exactly when its payload leaves room for the framing.
  lemma AcceptedLoadsExactly(c: Content, lists: Lists, lim: Limits, env: Env, bytes: Bytes)
    requires WellFormed(c, lists, lim, env) && Encode(c, lists, lim, env) == Ok(bytes)
    ensures Durability.ReadAndDecode(bytes, lim.maxSnapshotBytes, Decoder(lim, env)).Ok?
      <==> PayloadSize(c, lists, lim, env) <= lim.maxSnapshotBytes - FRAMING
  {
    FileSize(c, lists, lim, env, bytes);
    SnapshotRoundTrip(c, lists, lim, env, bytes);
  }

  // ---- A content in the gap ----

  const NO_LISTS: Lists := [[], [], [], [], [], [], []]

  // Nothing observed yet, under a given policy.
  function Blank(version: Bytes, policyDigest: u64): Content {
    Content(Row([Chars(version), Num(policyDigest), Num(0), Num(0), Num(0), Num(0), Num(0), Num(0), Num(0), Num(0), Num(0), Chars([])]),
            Fabric(GenerationVector(0, 0, 0), [], NOTHING), [], [], false)
  }

  lemma BlankMetadata(version: Bytes, policyDigest: u64, lim: Limits)
    requires FitsText(version, lim.maxDocumentBytes)
    ensures FitsRow(Blank(version, policyDigest).metadata, METADATA_COLUMNS, lim.maxDocumentBytes)
  {
    Widths();
    var row := Blank(version, policyDigest).metadata;
    forall i | 0 <= i < |METADATA_COLUMNS| ensures Fits(row.fields[i], METADATA_COLUMNS[i], lim.maxDocumentBytes) {
    }
  }

  lemma BlankFabric(version: Bytes, policyDigest: u64, lim: Limits)
    ensures FabricWellFormed(Blank(version, policyDigest).fabric, NO_LISTS, lim)
  {
    NothingIsSound(lim);
    forall k: nat | k < TABLES ensures ListsTable(NO_LISTS[k], NOTHING[k]) {
      assert NO_LISTS[k] == [] && NOTHING[k] == map[];
    }
  }

  lemma BlankIsWellFormed(lim: Limits, env: Env)
    requires FitsText(env.policyVersion, lim.maxDocumentBytes) && 4 <= lim.maxSnapshotSections
    ensures WellFormed(Blank(env.policyVersion, env.policyDigest), NO_LISTS, lim, env)
  {
    BlankMetadata(env.policyVersion, env.policyDigest, lim);
    BlankFabric(env.policyVersion, env.policyDigest, lim);
  }

  lemma Encodes(c: Content, lists: Lists, lim: Limits, env: Env)
    requires PayloadSize(c, lists, lim, env) <= lim.maxSnapshotBytes && PayloadSize(c, lists, lim, env) <= U64_MAX
    ensures Encode(c, lists, lim, env).Ok?
  {
  }

  lemma InTheGap(c: Content, lists: Lists, lim: Limits, env: Env, bytes: Bytes)
    requires WellFormed(c, lists, lim, env) && Encode(c, lists, lim, env) == Ok(bytes)
    requires PayloadSize(c, lists, lim, env) > lim.maxSnapshotBytes - FRAMING
    ensures Durability.LoadFrom(Durability.Disk(Some(bytes), None, None), Durability.Seen, Durability.Seen, lim.maxSnapshotBytes,
                                Decoder(lim, env)).outcome == Durability.LoadedNothing
  {
    AcceptedLoadsExactly(c, lists, lim, env, bytes);
  }

  // A payload holds at least the count of episodes.
  lemma PayloadNotEmpty(c: Content, lists: Lists, lim: Limits, env: Env)
    ensures PayloadSize(c, lists, lim, env) > 0
  {
    var sections := Sections(TextsOf(c, lists, lim, env));
    assert |sections[2].bytes| >= WORD;
    assert Payload(sections) == sections[0].bytes + Payload(sections[1..]);
    assert Payload(sections[1..]) == sections[1].bytes + Payload(sections[1..][1..]);
    assert sections[1..][1..] == sections[2..];
    assert Payload(sections[2..]) == sections[2].bytes + Payload(sections[2..][1..]);
  }

  // With a bound that the payload just meets, the encoder accepts a snapshot that cannot be loaded.
  lemma AcceptedButNotLoaded(lim: Limits, env: Env) returns (tight: Limits, bytes: Bytes)
    requires FitsText(env.policyVersion, lim.maxDocumentBytes) && 4 <= lim.maxSnapshotSections
    requires PayloadSize(Blank(env.policyVersion, env.policyDigest), NO_LISTS, lim, env) <= U64_MAX
    ensures exists size :: tight == lim.(maxSnapshotBytes := size)
    ensures Check(lim) == None ==> Check(tight) == None
    ensures Encode(Blank(env.policyVersion, env.policyDigest), NO_LISTS, tight, env) == Ok(bytes)
    ensures Durability.LoadFrom(Durability.Disk(Some(bytes), None, None), Durability.Seen, Durability.Seen, tight.maxSnapshotBytes,
                                Decoder(tight, env)).outcome == Durability.LoadedNothing
  {
    var blank := Blank(env.policyVersion, env.policyDigest);
    var size := PayloadSize(blank, NO_LISTS, lim, env);
    tight := lim.(maxSnapshotBytes := size);
    PayloadNotEmpty(blank, NO_LISTS, lim, env);
    if Check(lim) == None {
      SnapshotBoundIsFree(lim, size);
    }
    BlankIsWellFormed(tight, env);
    SameTexts(blank, lim, size, env);
    Encodes(blank, NO_LISTS, tight, env);
    bytes := Encode(blank, NO_LISTS, tight, env).value;
    InTheGap(blank, NO_LISTS, tight, env, bytes);
  }

  // The texts do not depend on the bound on snapshots.
  lemma SameTexts(content: Content, lim: Limits, size: nat, env: Env)
    ensures TextsOf(content, NO_LISTS, lim.(maxSnapshotBytes := size), env) == TextsOf(content, NO_LISTS, lim, env)
  {
    var tight := lim.(maxSnapshotBytes := size);
    assert EpisodeColumns(tight) == EpisodeColumns(lim) && EvidenceColumns(tight) == EvidenceColumns(lim);
    forall k: nat | k < TABLES ensures Schemas(tight)[k].columns == Schemas(lim)[k].columns {
      assert Columns(k, tight) == Columns(k, lim);
    }
    SameColumns(NO_LISTS[NODES := ClipAll(NO_LISTS[NODES])], Schemas(tight), Schemas(lim));
  }

  lemma {:induction false} SameColumns(lists: seq<seq<Row>>, a: seq<Schema>, b: seq<Schema>)
    requires |a| == |b| && forall k :: 0 <= k < |a| ==> a[k].columns == b[k].columns
    ensures WriteTables(lists, a) == WriteTables(lists, b)
    decreases |a|
  {
    if lists != [] && a != [] {
      SameColumns(lists[1..], a[1..], b[1..]);
    }
  }
}
