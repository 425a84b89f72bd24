// The container of a snapshot: a header that declares the payload, a table of sections, and checksums over
// both (src/persistence/snapshot.cpp:611-781).
module SnapshotContainer {
  import opened Base
  import opened LittleEndian
  import opened Model
  import opened SnapshotWire
  import opened SnapshotTopology

  // "COSNAP01", read as a number.
  const MAGIC_TEXT: Bytes := [0x43, 0x4F, 0x53, 0x4E, 0x41, 0x50, 0x30, 0x31]

  const MAGIC: nat := Get(MAGIC_TEXT)

  const MAJOR: nat := 1
  const MINOR: nat := 0

  const HEADER_BYTES: nat := 68
  const ENTRY_BYTES: nat := 28

  // The magic is eight bytes and is written as its text.
  lemma MagicText()
    ensures MAGIC <= U64_MAX && Put(MAGIC, LONG) == MAGIC_TEXT
  {
    Widths();
    assert |MAGIC_TEXT| == LONG;
    PutGet(MAGIC_TEXT);
  }

  datatype Section = Section(id: nat, bytes: Bytes)

  datatype Header = Header(magic: nat, major: nat, minor: nat, limitsDigest: nat, policyDigest: nat, topologyDigest: nat,
                           createdAt: nat, sections: nat, payloadBytes: nat, payloadCrc: nat)

  datatype Extent = Extent(id: nat, offset: nat, length: nat, crc: nat)

  // What the checks compare with: the checksum in use and the digests of the active configuration.
  datatype Env = Env(checksum: Bytes -> u64, limitsDigest: u64, policyDigest: u64, policyVersion: Bytes,
                     topologyDigest: Fabric -> u64, episodeId: Row -> nat, evidenceId: Row -> nat)

  const HEADER_WIDTHS: seq<nat> := [LONG, WORD, WORD, LONG, LONG, LONG, LONG, WORD, LONG, LONG]
  const ENTRY_WIDTHS: seq<nat> := [WORD, LONG, LONG, LONG]

  function Numbers(widths: seq<nat>): (r: seq<Shape>)
    ensures |r| == |widths| && forall i :: 0 <= i < |widths| ==> r[i] == Number(widths[i])
  {
    seq(|widths|, i requires 0 <= i < |widths| => Number(widths[i]))
  }

  function HeaderColumns(): seq<Shape> { Numbers(HEADER_WIDTHS) }

  function ExtentColumns(): seq<Shape> { Numbers(ENTRY_WIDTHS) }

  function HeaderRow(h: Header): Row {
    Row([Num(h.magic), Num(h.major), Num(h.minor), Num(h.limitsDigest), Num(h.policyDigest), Num(h.topologyDigest),
         Num(h.createdAt), Num(h.sections), Num(h.payloadBytes), Num(h.payloadCrc)])
  }

  function HeaderFrom(row: Row): Header {
    Header(NumAt(row, 0), NumAt(row, 1), NumAt(row, 2), NumAt(row, 3), NumAt(row, 4), NumAt(row, 5), NumAt(row, 6),
           NumAt(row, 7), NumAt(row, 8), NumAt(row, 9))
  }

  function ExtentRow(e: Extent): Row { Row([Num(e.id), Num(e.offset), Num(e.length), Num(e.crc)]) }

  function ExtentFrom(row: Row): Extent { Extent(NumAt(row, 0), NumAt(row, 1), NumAt(row, 2), NumAt(row, 3)) }

  // ---- Packing ----

  function Payload(sections: seq<Section>): Bytes {
    if sections == [] then [] else sections[0].bytes + Payload(sections[1..])
  }

  // Each section lies behind those before it.
  function Extents(sections: seq<Section>, offset: nat, checksum: Bytes -> u64): seq<Row> {
    if sections == [] then []
    else
      [ExtentRow(Extent(sections[0].id, offset, |sections[0].bytes|, checksum(sections[0].bytes)))]
      + Extents(sections[1..], offset + |sections[0].bytes|, checksum)
  }

  function HeaderFor(env: Env, topologyDigest: u64, createdAt: u64, sections: seq<Section>): Header {
    Header(MAGIC, MAJOR, MINOR, env.limitsDigest, env.policyDigest, topologyDigest, createdAt, |sections|, |Payload(sections)|,
           env.checksum(Payload(sections)))
  }

  function Front(env: Env, topologyDigest: u64, createdAt: u64, sections: seq<Section>): Bytes {
    WriteRow(HeaderRow(HeaderFor(env, topologyDigest, createdAt, sections)), HeaderColumns())
    + WriteRows(Extents(sections, 0, env.checksum), ExtentColumns())
  }

  function Pack(env: Env, topologyDigest: u64, createdAt: u64, sections: seq<Section>): Bytes {
    Front(env, topologyDigest, createdAt, sections) + Payload(sections)
  }

  function EntryOf(section: Section, offset: nat, checksum: Bytes -> u64): Row {
    ExtentRow(Extent(section.id, offset, |section.bytes|, checksum(section.bytes)))
  }

  lemma LayOutStep(sections: seq<Section>, i: nat, offset: nat, checksum: Bytes -> u64)
    requires i < |sections|
    ensures Extents(sections[i..], offset, checksum)
      == [EntryOf(sections[i], offset, checksum)] + Extents(sections[i + 1..], offset + |sections[i].bytes|, checksum)
    ensures Payload(sections[i..]) == sections[i].bytes + Payload(sections[i + 1..])
  {
    assert sections[i..][1..] == sections[i + 1..];
  }

  // The first sections are laid out.
  ghost predicate LaidOut(sections: seq<Section>, i: nat, table: seq<Row>, payload: Bytes, checksum: Bytes -> u64)
    requires i <= |sections|
  {
    && table + Extents(sections[i..], |payload|, checksum) == Extents(sections, 0, checksum)
    && payload + Payload(sections[i..]) == Payload(sections)
  }

  lemma LayOutMore(sections: seq<Section>, i: nat, table: seq<Row>, payload: Bytes, checksum: Bytes -> u64)
    requires i < |sections| && LaidOut(sections, i, table, payload, checksum)
    ensures LaidOut(sections, i + 1, table + [EntryOf(sections[i], |payload|, checksum)], payload + sections[i].bytes, checksum)
  {
    LayOutStep(sections, i, |payload|, checksum);
    var entry, later := EntryOf(sections[i], |payload|, checksum), Extents(sections[i + 1..], |payload| + |sections[i].bytes|, checksum);
    assert table + ([entry] + later) == (table + [entry]) + later;
    var bytes, behind := sections[i].bytes, Payload(sections[i + 1..]);
    assert payload + (bytes + behind) == (payload + bytes) + behind;
  }

  // The loop that lays the sections out.
  method LayOut(sections: seq<Section>, env: Env) returns (table: seq<Row>, payload: Bytes)
    ensures table == Extents(sections, 0, env.checksum) && payload == Payload(sections)
  {
    table, payload := [], [];
    assert sections[0..] == sections;
    for i := 0 to |sections|
      invariant LaidOut(sections, i, table, payload, env.checksum)
    {
      LayOutMore(sections, i, table, payload, env.checksum);
      table := table + [EntryOf(sections[i], |payload|, env.checksum)];
      payload := payload + sections[i].bytes;
    }
  }

  // ---- Unpacking ----

  // What the header says, whatever follows it.
  function ReadHeader(data: Bytes): Header {
    match ReadRow(data, Cursor(0, true), HeaderColumns(), 0)
    case Refused(_) => HeaderFrom(Row([]))
    case Got(row, _) => HeaderFrom(row)
  }

  function CheckHeader(h: Header, lim: Limits, env: Env): Option<ErrorCode> {
    if h.magic != MAGIC then Some(IntegrityFailure)
    else if h.major != MAJOR || h.minor > MINOR then Some(VersionMismatch)
    else if h.sections > lim.maxSnapshotSections then Some(IntegrityFailure)
    else if h.payloadBytes > lim.maxSnapshotBytes then Some(LimitExceeded)
    else if h.limitsDigest != env.limitsDigest || h.policyDigest != env.policyDigest then Some(VersionMismatch)
    else None
  }

  // The sections by their number; every extent must lie in the payload, match its checksum and be new.
  function Collect(extents: seq<Row>, payload: Bytes, found: map<nat, Bytes>, checksum: Bytes -> u64): Result<map<nat, Bytes>> {
    if extents == [] then Ok(found)
    else
      var e := ExtentFrom(extents[0]);
      if e.offset + e.length > U64_MAX || e.offset + e.length > |payload| then Err(IntegrityFailure)
      else
        var slice := payload[e.offset..e.offset + e.length];
        if checksum(slice) != e.crc || e.id in found then Err(IntegrityFailure)
        else Collect(extents[1..], payload, found[e.id := slice], checksum)
  }

  // The table behind the header.
  function ReadTable(data: Bytes, n: nat): Outcome<seq<Row>>
    requires HEADER_BYTES <= |data|
  {
    ReadRows(data, Cursor(HEADER_BYTES, true), n, ExtentColumns(), 0)
  }

  function OpenPayload(data: Bytes, h: Header, table: Outcome<seq<Row>>, env: Env): Result<map<nat, Bytes>> {
    match table
    case Refused(e) => Err(e)
    case Got(extents, c) =>
      if !c.ok || c.position + h.payloadBytes != |data| then Err(IntegrityFailure)
      else if env.checksum(data[c.position..]) != h.payloadCrc then Err(IntegrityFailure)
      else Collect(extents, data[c.position..], map[], env.checksum)
  }

  function UnpackBy(h: Header, data: Bytes, lim: Limits, env: Env): Result<map<nat, Bytes>>
    requires HEADER_BYTES <= |data|
  {
    match CheckHeader(h, lim, env)
    case Some(e) => Err(e)
    case None => OpenPayload(data, h, ReadTable(data, h.sections), env)
  }

  function Unpack(data: Bytes, lim: Limits, env: Env): Result<map<nat, Bytes>> {
    if |data| < HEADER_BYTES then Err(IntegrityFailure) else UnpackBy(ReadHeader(data), data, lim, env)
  }

  // The loop over the table.
  method CollectSections(extents: seq<Row>, payload: Bytes, env: Env) returns (r: Result<map<nat, Bytes>>)
    ensures r == Collect(extents, payload, map[], env.checksum)
  {
    var found: map<nat, Bytes> := map[];
    for i := 0 to |extents|
      invariant Collect(extents[i..], payload, found, env.checksum) == Collect(extents, payload, map[], env.checksum)
    {
      var e := ExtentFrom(extents[i]);
      if e.offset + e.length > U64_MAX || e.offset + e.length > |payload| {
        return Err(IntegrityFailure);
      }
      var slice := payload[e.offset..e.offset + e.length];
      if env.checksum(slice) != e.crc || e.id in found {
        return Err(IntegrityFailure);
      }
      found := found[e.id := slice];
    }
    return Ok(found);
  }

  // ---- Packed sections are found again ----

  function ById(sections: seq<Section>, found: map<nat, Bytes>): map<nat, Bytes> {
    if sections == [] then found else ById(sections[1..], found[sections[0].id := sections[0].bytes])
  }

  ghost predicate NumbersApart(sections: seq<Section>) {
    forall i, j :: 0 <= i < j < |sections| ==> sections[i].id != sections[j].id
  }

  lemma CollectUnroll(extents: seq<Row>, payload: Bytes, found: map<nat, Bytes>, checksum: Bytes -> u64, e: Extent, slice: Bytes)
    requires extents != [] && e == ExtentFrom(extents[0]) && e.offset + e.length <= U64_MAX && e.offset + e.length <= |payload|
    requires slice == payload[e.offset..e.offset + e.length] && checksum(slice) == e.crc && e.id !in found
    ensures Collect(extents, payload, found, checksum) == Collect(extents[1..], payload, found[e.id := slice], checksum)
  {
  }

  lemma {:induction false} Collected(sections: seq<Section>, before: Bytes, payload: Bytes, found: map<nat, Bytes>, checksum: Bytes -> u64)
    requires NumbersApart(sections) && forall i :: 0 <= i < |sections| ==> sections[i].id !in found
    requires payload == before + Payload(sections) && |payload| <= U64_MAX
    ensures Collect(Extents(sections, |before|, checksum), payload, found, checksum) == Ok(ById(sections, found))
    decreases |sections|
  {
    if sections != [] {
      var first := sections[0];
      var extent, rows := Extent(first.id, |before|, |first.bytes|, checksum(first.bytes)), Extents(sections, |before|, checksum);
      assert rows[0] == ExtentRow(extent) && rows[1..] == Extents(sections[1..], |before| + |first.bytes|, checksum);
      assert payload[|before|..|before| + |first.bytes|] == first.bytes;
      CollectUnroll(rows, payload, found, checksum, extent, first.bytes);
      assert payload == (before + first.bytes) + Payload(sections[1..]);
      Collected(sections[1..], before + first.bytes, payload, found[first.id := first.bytes], checksum);
    }
  }

  lemma {:induction false} ExtentsFit(sections: seq<Section>, offset: nat, checksum: Bytes -> u64)
    requires forall i :: 0 <= i < |sections| ==> sections[i].id < 0x1_0000_0000
    requires offset + |Payload(sections)| <= U64_MAX
    ensures FitsRows(Extents(sections, offset, checksum), ExtentColumns(), 0) && |Extents(sections, offset, checksum)| == |sections|
    decreases |sections|
  {
    if sections != [] {
      Widths();
      var first := ExtentRow(Extent(sections[0].id, offset, |sections[0].bytes|, checksum(sections[0].bytes)));
      var later := Extents(sections[1..], offset + |sections[0].bytes|, checksum);
      ExtentsFit(sections[1..], offset + |sections[0].bytes|, checksum);
      assert FitsRow(first, ExtentColumns(), 0);
      assert forall i :: 1 <= i < |[first] + later| ==> ([first] + later)[i] == later[i - 1];
    }
  }
}
