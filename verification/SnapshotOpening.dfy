// Which snapshot files open, and why the others do not: whatever header, section table and payload were written
// (src/persistence/snapshot.cpp:689-786).
module SnapshotOpening {
  import opened Base
  import opened LittleEndian
  import opened Model
  import opened SnapshotWire
  import opened SnapshotTopology
  import opened SnapshotRebuild
  import opened SnapshotSections
  import opened SnapshotContainer
  import opened SnapshotIntegrity
  import opened SnapshotFormat

  // A header, a table of as many extents as it declares, and a payload.
  datatype File = File(header: Header, table: seq<Extent>, payload: Bytes)

  predicate IsWord(n: nat) { n <= U64_MAX }

  predicate IsHalfWord(n: nat) { n < 0x1_0000_0000 }

  // Every number fits the place it is written to.
  ghost predicate Writable(f: File) {
    var h := f.header;
    && IsWord(h.magic) && IsHalfWord(h.major) && IsHalfWord(h.minor) && IsWord(h.limitsDigest) && IsWord(h.policyDigest)
    && IsWord(h.topologyDigest) && IsWord(h.createdAt) && IsHalfWord(h.sections) && IsWord(h.payloadBytes) && IsWord(h.payloadCrc)
    && |f.table| == h.sections
    && (forall e :: e in f.table ==> IsHalfWord(e.id) && IsWord(e.offset) && IsWord(e.length) && IsWord(e.crc))
  }

  function RowsOf(table: seq<Extent>): (rows: seq<Row>)
    ensures |rows| == |table| && forall i :: 0 <= i < |table| ==> rows[i] == ExtentRow(table[i])
  {
    seq(|table|, i requires 0 <= i < |table| => ExtentRow(table[i]))
  }

  function Text(f: File): Bytes {
    WriteRow(HeaderRow(f.header), HeaderColumns()) + (WriteRows(RowsOf(f.table), ExtentColumns()) + f.payload)
  }

  // ---- The bytes of a file ----

  // Numbers one behind the other, each with its width.
  function Numerals(numbers: seq<(nat, nat)>): Bytes {
    if numbers == [] then [] else Put(numbers[0].0, numbers[0].1) + Numerals(numbers[1..])
  }

  lemma {:induction false} NumbersWritten(fields: seq<Field>, columns: seq<Shape>, numbers: seq<(nat, nat)>)
    requires |fields| == |columns| == |numbers|
    requires forall i :: 0 <= i < |fields| ==> fields[i] == Num(numbers[i].0) && columns[i] == Number(numbers[i].1)
    ensures WriteFields(fields, columns) == Numerals(numbers)
    decreases |fields|
  {
    if fields != [] {
      NumbersWritten(fields[1..], columns[1..], numbers[1..]);
    }
  }

  // Which number stands where in a header, and how wide it is.
  lemma HeaderLayout(h: Header)
    ensures WriteRow(HeaderRow(h), HeaderColumns())
      == Numerals([(h.magic, 8), (h.major, 4), (h.minor, 4), (h.limitsDigest, 8), (h.policyDigest, 8), (h.topologyDigest, 8),
                   (h.createdAt, 8), (h.sections, 4), (h.payloadBytes, 8), (h.payloadCrc, 8)])
  {
    NumbersWritten(HeaderRow(h).fields, HeaderColumns(),
                   [(h.magic, 8), (h.major, 4), (h.minor, 4), (h.limitsDigest, 8), (h.policyDigest, 8), (h.topologyDigest, 8),
                    (h.createdAt, 8), (h.sections, 4), (h.payloadBytes, 8), (h.payloadCrc, 8)]);
  }

  lemma ExtentLayout(e: Extent)
    ensures WriteRow(ExtentRow(e), ExtentColumns()) == Numerals([(e.id, 4), (e.offset, 8), (e.length, 8), (e.crc, 8)])
  {
    NumbersWritten(ExtentRow(e).fields, ExtentColumns(), [(e.id, 4), (e.offset, 8), (e.length, 8), (e.crc, 8)]);
  }

  function TableText(table: seq<Extent>): Bytes {
    if table == [] then []
    else Numerals([(table[0].id, 4), (table[0].offset, 8), (table[0].length, 8), (table[0].crc, 8)]) + TableText(table[1..])
  }

  lemma {:induction false} TableLayout(table: seq<Extent>)
    ensures WriteRows(RowsOf(table), ExtentColumns()) == TableText(table)
    decreases |table|
  {
    if table != [] {
      ExtentLayout(table[0]);
      TableLayout(table[1..]);
      assert RowsOf(table)[1..] == RowsOf(table[1..]);
    }
  }

  // Where every number of a file stands, and how wide it is.
  lemma FileLayout(f: File)
    ensures var h := f.header;
      Text(f) == Numerals([(h.magic, 8), (h.major, 4), (h.minor, 4), (h.limitsDigest, 8), (h.policyDigest, 8), (h.topologyDigest, 8),
                           (h.createdAt, 8), (h.sections, 4), (h.payloadBytes, 8), (h.payloadCrc, 8)])
                 + (TableText(f.table) + f.payload)
  {
    HeaderLayout(f.header);
    TableLayout(f.table);
  }

  // ---- What makes a file open ----

  // "COSNAP01".
  const NAME: Bytes := [0x43, 0x4F, 0x53, 0x4E, 0x41, 0x50, 0x30, 0x31]

  // Its extents lie in the payload, are what was checked in, and have numbers of their own.
  ghost predicate SectionsHold(table: seq<Extent>, payload: Bytes, checksum: Bytes -> u64) {
    && (forall i :: 0 <= i < |table| ==> ExtentHolds(table[i], payload, checksum))
    && (forall i, j :: 0 <= i < j < |table| ==> table[i].id != table[j].id)
  }

  ghost predicate ExtentHolds(e: Extent, payload: Bytes, checksum: Bytes -> u64) {
    e.offset + e.length <= |payload| && checksum(payload[e.offset..e.offset + e.length]) == e.crc
  }

  // The file is as long as it says, and undamaged.
  ghost predicate Whole(f: File, checksum: Bytes -> u64) {
    f.header.payloadBytes == |f.payload| && checksum(f.payload) == f.header.payloadCrc && SectionsHold(f.table, f.payload, checksum)
  }

  ghost predicate Named(table: seq<Extent>, id: nat) { exists i :: 0 <= i < |table| && table[i].id == id }

  // What a table opens to: each section is its part of the payload.
  ghost predicate OpensTo(table: seq<Extent>, payload: Bytes, found: map<nat, Bytes>) {
    && (forall id :: id in found <==> Named(table, id))
    && (forall i :: 0 <= i < |table| ==>
          table[i].offset + table[i].length <= |payload| && table[i].id in found
          && found[table[i].id] == payload[table[i].offset..table[i].offset + table[i].length])
  }

  // ---- Reading what was written ----

  lemma RowsFit(table: seq<Extent>)
    requires forall e :: e in table ==> IsHalfWord(e.id) && IsWord(e.offset) && IsWord(e.length) && IsWord(e.crc)
    ensures FitsRows(RowsOf(table), ExtentColumns(), 0)
  {
    forall i | 0 <= i < |table| ensures FitsRow(RowsOf(table)[i], ExtentColumns(), 0) {
      assert table[i] in table;
      RowFits(table[i]);
    }
  }

  lemma RowFits(e: Extent)
    requires IsHalfWord(e.id) && IsWord(e.offset) && IsWord(e.length) && IsWord(e.crc)
    ensures FitsRow(ExtentRow(e), ExtentColumns(), 0)
  {
    Widths();
  }

  lemma NameIsMagic(magic: nat)
    requires IsWord(magic)
    ensures magic == MAGIC <==> Put(magic, LONG) == NAME
  {
    MagicText();
    GetPut(magic, LONG) by { Widths(); }
  }

  lemma HeaderBack(h: Header, behind: Bytes)
    requires IsWord(h.magic) && IsHalfWord(h.major) && IsHalfWord(h.minor) && IsWord(h.limitsDigest) && IsWord(h.policyDigest)
    requires IsWord(h.topologyDigest) && IsWord(h.createdAt) && IsHalfWord(h.sections) && IsWord(h.payloadBytes) && IsWord(h.payloadCrc)
    ensures var data := WriteRow(HeaderRow(h), HeaderColumns()) + behind;
      HEADER_BYTES <= |data| && ReadHeader(data) == h && data[HEADER_BYTES..] == behind
  {
    HeaderFits(h);
    HeaderRead(WriteRow(HeaderRow(h), HeaderColumns()) + behind, h, behind);
  }

  // The header and the table are read back, and the payload lies behind them.
  lemma FrontRead(f: File) returns (end: nat)
    requires Writable(f)
    ensures HEADER_BYTES <= |Text(f)| && ReadHeader(Text(f)) == f.header
    ensures end <= |Text(f)| && Text(f)[end..] == f.payload && |Text(f)| == end + |f.payload|
    ensures ReadTable(Text(f), f.header.sections) == Got(RowsOf(f.table), Cursor(end, true))
  {
    var table := WriteRows(RowsOf(f.table), ExtentColumns());
    HeaderBack(f.header, table + f.payload);
    RowsFit(f.table);
    TableFound(Text(f), RowsOf(f.table), f.payload);
    end := HEADER_BYTES + |table|;
  }

  // ---- The sections ----

  lemma NamedMore(table: seq<Extent>, e: Extent, id: nat)
    ensures Named(table + [e], id) <==> Named(table, id) || id == e.id
  {
    var more := table + [e];
    assert more[|table|] == e;
    if Named(table, id) {
      var i :| 0 <= i < |table| && table[i].id == id;
      assert more[i].id == id;
    }
  }

  lemma GatherNext(table: seq<Extent>, e: Extent, payload: Bytes, found: map<nat, Bytes>, slice: Bytes)
    requires OpensTo(table, payload, found) && e.id !in found && e.offset + e.length <= |payload|
    requires slice == payload[e.offset..e.offset + e.length]
    ensures OpensTo(table + [e], payload, found[e.id := slice])
  {
    var more := table + [e];
    forall id ensures Named(more, id) <==> Named(table, id) || id == e.id {
      NamedMore(table, e, id);
    }
    forall i | 0 <= i < |table| ensures more[i].id != e.id {
      assert table[i].id in found;
    }
  }

  // What is left to collect is collected exactly when every extent of it holds and is new.
  ghost predicate RestHolds(done: seq<Extent>, left: seq<Extent>, payload: Bytes, checksum: Bytes -> u64) {
    SectionsHold(left, payload, checksum) && forall i, j :: 0 <= i < |done| && 0 <= j < |left| ==> done[i].id != left[j].id
  }

  lemma RestSplit(done: seq<Extent>, left: seq<Extent>, payload: Bytes, checksum: Bytes -> u64)
    requires left != []
    ensures RestHolds(done, left, payload, checksum) <==>
      && ExtentHolds(left[0], payload, checksum) && (forall i :: 0 <= i < |done| ==> done[i].id != left[0].id)
      && RestHolds(done + [left[0]], left[1..], payload, checksum)
  {
    var more, rest := done + [left[0]], left[1..];
    if RestHolds(more, rest, payload, checksum) {
      forall j | 0 < j < |left| ensures ExtentHolds(left[j], payload, checksum) && left[0].id != left[j].id {
        assert left[j] == rest[j - 1] && more[|done|] == left[0];
      }
      forall i, j | 0 <= i < |done| && 0 < j < |left| ensures done[i].id != left[j].id {
        assert more[i] == done[i] && rest[j - 1] == left[j];
      }
      forall i, j | 0 < i < j < |left| ensures left[i].id != left[j].id {
        assert rest[i - 1] == left[i] && rest[j - 1] == left[j];
      }
    }
  }

  lemma ExtentBack(e: Extent)
    ensures ExtentFrom(ExtentRow(e)) == e
  {
  }

  lemma CollectStep(rows: seq<Row>, e: Extent, payload: Bytes, found: map<nat, Bytes>, checksum: Bytes -> u64)
    requires rows != [] && ExtentFrom(rows[0]) == e && |payload| <= U64_MAX
    ensures Collect(rows, payload, found, checksum)
      == if ExtentHolds(e, payload, checksum) && e.id !in found
         then Collect(rows[1..], payload, found[e.id := payload[e.offset..e.offset + e.length]], checksum) else Err(IntegrityFailure)
  {
  }

  // What collecting comes to.
  ghost predicate Collects(done: seq<Extent>, left: seq<Extent>, payload: Bytes, checksum: Bytes -> u64, r: Result<map<nat, Bytes>>) {
    if RestHolds(done, left, payload, checksum) then r.Ok? && OpensTo(done + left, payload, r.value) else r == Err(IntegrityFailure)
  }

  lemma CollectsOn(done: seq<Extent>, left: seq<Extent>, payload: Bytes, checksum: Bytes -> u64, r: Result<map<nat, Bytes>>)
    requires left != [] && ExtentHolds(left[0], payload, checksum) && forall i :: 0 <= i < |done| ==> done[i].id != left[0].id
    requires Collects(done + [left[0]], left[1..], payload, checksum, r)
    ensures Collects(done, left, payload, checksum, r)
  {
    RestSplit(done, left, payload, checksum);
    assert done + left == (done + [left[0]]) + left[1..];
  }

  lemma {:induction false} CollectsExactly(done: seq<Extent>, left: seq<Extent>, payload: Bytes, found: map<nat, Bytes>, checksum: Bytes -> u64)
    requires OpensTo(done, payload, found) && |payload| <= U64_MAX
    ensures Collects(done, left, payload, checksum, Collect(RowsOf(left), payload, found, checksum))
    decreases |left|, 1
  {
    if left == [] {
      assert done + left == done;
    } else {
      ExtentBack(left[0]);
      CollectStep(RowsOf(left), left[0], payload, found, checksum);
      KnownExactly(done, payload, found, left[0].id);
      assert RowsOf(left)[1..] == RowsOf(left[1..]);
      if ExtentHolds(left[0], payload, checksum) && left[0].id !in found {
        CollectsFurther(done, left, payload, found, checksum);
      } else {
        RestSplit(done, left, payload, checksum);
      }
    }
  }

  lemma {:induction false} CollectsFurther(done: seq<Extent>, left: seq<Extent>, payload: Bytes, found: map<nat, Bytes>, checksum: Bytes -> u64)
    requires OpensTo(done, payload, found) && |payload| <= U64_MAX
    requires left != [] && ExtentHolds(left[0], payload, checksum) && left[0].id !in found
    ensures Collects(done, left, payload, checksum,
                     Collect(RowsOf(left[1..]), payload, found[left[0].id := payload[left[0].offset..left[0].offset + left[0].length]], checksum))
    decreases |left|, 0
  {
    var slice := payload[left[0].offset..left[0].offset + left[0].length];
    GatherNext(done, left[0], payload, found, slice);
    KnownExactly(done, payload, found, left[0].id);
    CollectsExactly(done + [left[0]], left[1..], payload, found[left[0].id := slice], checksum);
    CollectsOn(done, left, payload, checksum, Collect(RowsOf(left[1..]), payload, found[left[0].id := slice], checksum));
  }

  lemma KnownExactly(done: seq<Extent>, payload: Bytes, found: map<nat, Bytes>, id: nat)
    requires OpensTo(done, payload, found)
    ensures id !in found <==> forall i :: 0 <= i < |done| ==> done[i].id != id
  {
  }

  // ---- Which files open ----

  // The format, the bounds and the configuration that a file is read with are those it names.
  ghost predicate Accepted(h: Header, lim: Limits, env: Env) {
    && Put(h.magic, LONG) == NAME && h.major == 1 && h.minor == 0
    && h.sections <= lim.maxSnapshotSections && h.payloadBytes <= lim.maxSnapshotBytes
    && h.limitsDigest == env.limitsDigest && h.policyDigest == env.policyDigest
  }

  // The first thing wrong with a file, in the order in which it is looked for.
  ghost function FirstFault(h: Header, lim: Limits): ErrorCode {
    if Put(h.magic, LONG) != NAME then IntegrityFailure
    else if h.major != 1 || h.minor != 0 then VersionMismatch
    else if h.sections > lim.maxSnapshotSections then IntegrityFailure
    else if h.payloadBytes > lim.maxSnapshotBytes then LimitExceeded
    else VersionMismatch
  }

  lemma HeaderExactly(h: Header, lim: Limits, env: Env)
    requires IsWord(h.magic)
    ensures CheckHeader(h, lim, env) == if Accepted(h, lim, env) then None else Some(FirstFault(h, lim))
  {
    NameIsMagic(h.magic);
  }

  lemma PayloadExactly(f: File, end: nat, env: Env)
    requires Writable(f) && end <= |Text(f)| && Text(f)[end..] == f.payload && |Text(f)| == end + |f.payload|
    ensures var r := OpenPayload(Text(f), f.header, Got(RowsOf(f.table), Cursor(end, true)), env);
      if Whole(f, env.checksum) then r.Ok? && OpensTo(f.table, f.payload, r.value) else r == Err(IntegrityFailure)
  {
    if f.header.payloadBytes == |f.payload| && env.checksum(f.payload) == f.header.payloadCrc {
      CollectsAll(f, env.checksum);
    }
  }

  lemma CollectsAll(f: File, checksum: Bytes -> u64)
    requires |f.payload| <= U64_MAX
    ensures var r := Collect(RowsOf(f.table), f.payload, map[], checksum);
      if SectionsHold(f.table, f.payload, checksum) then r.Ok? && OpensTo(f.table, f.payload, r.value) else r == Err(IntegrityFailure)
  {
    CollectsExactly([], f.table, f.payload, map[], checksum);
    assert [] + f.table == f.table;
  }

  lemma UnpackSteps(data: Bytes, h: Header, table: Outcome<seq<Row>>, lim: Limits, env: Env)
    requires HEADER_BYTES <= |data| && ReadHeader(data) == h && ReadTable(data, h.sections) == table
    ensures Unpack(data, lim, env) == match CheckHeader(h, lim, env) case Some(e) => Err(e) case None => OpenPayload(data, h, table, env)
  {
  }

  // A file opens, and to exactly its sections, if and only if it is accepted and whole; otherwise the first thing
  // wrong with it is reported.
  lemma OpensExactly(f: File, lim: Limits, env: Env)
    requires Writable(f)
    ensures var r := Unpack(Text(f), lim, env);
      if !Accepted(f.header, lim, env) then r == Err(FirstFault(f.header, lim))
      else if !Whole(f, env.checksum) then r == Err(IntegrityFailure)
      else r.Ok? && OpensTo(f.table, f.payload, r.value)
  {
    var end := FrontRead(f);
    UnpackSteps(Text(f), f.header, Got(RowsOf(f.table), Cursor(end, true)), lim, env);
    HeaderExactly(f.header, lim, env);
    PayloadExactly(f, end, env);
  }

  // ---- Files that were sealed elsewhere ----

  function TableOf(sections: seq<Section>, offset: nat, checksum: Bytes -> u64): seq<Extent> {
    if sections == [] then []
    else [Extent(sections[0].id, offset, |sections[0].bytes|, checksum(sections[0].bytes))]
         + TableOf(sections[1..], offset + |sections[0].bytes|, checksum)
  }

  lemma RowsOfMore(e: Extent, later: seq<Extent>)
    ensures RowsOf([e] + later) == [ExtentRow(e)] + RowsOf(later)
  {
  }

  lemma {:induction false} TableRows(sections: seq<Section>, offset: nat, checksum: Bytes -> u64)
    ensures RowsOf(TableOf(sections, offset, checksum)) == Extents(sections, offset, checksum)
    decreases |sections|
  {
    if sections == [] {
      assert RowsOf([]) == [];
    } else {
      var e := Extent(sections[0].id, offset, |sections[0].bytes|, checksum(sections[0].bytes));
      TableRows(sections[1..], offset + |sections[0].bytes|, checksum);
      RowsOfMore(e, TableOf(sections[1..], offset + |sections[0].bytes|, checksum));
    }
  }

  lemma {:induction false} TableFits(sections: seq<Section>, offset: nat, checksum: Bytes -> u64)
    requires (forall i :: 0 <= i < |sections| ==> IsHalfWord(sections[i].id)) && offset + |Payload(sections)| <= U64_MAX
    ensures |TableOf(sections, offset, checksum)| == |sections|
    ensures forall e :: e in TableOf(sections, offset, checksum) ==> IsHalfWord(e.id) && IsWord(e.offset) && IsWord(e.length) && IsWord(e.crc)
    decreases |sections|
  {
    if sections != [] {
      TableFits(sections[1..], offset + |sections[0].bytes|, checksum);
    }
  }

  // Sections that can be sealed at all, whatever the bounds.
  ghost predicate Sealable(sections: seq<Section>) {
    NumbersApart(sections) && (forall i :: 0 <= i < |sections| ==> IsHalfWord(sections[i].id)) && IsHalfWord(|sections|) && IsWord(|Payload(sections)|)
  }

  function SealedFile(env: Env, topologyDigest: u64, createdAt: u64, sections: seq<Section>): File {
    File(HeaderFor(env, topologyDigest, createdAt, sections), TableOf(sections, 0, env.checksum), Payload(sections))
  }

  lemma SealedText(env: Env, topologyDigest: u64, createdAt: u64, sections: seq<Section>)
    requires Sealable(sections)
    ensures Writable(SealedFile(env, topologyDigest, createdAt, sections))
    ensures Text(SealedFile(env, topologyDigest, createdAt, sections)) == Pack(env, topologyDigest, createdAt, sections)
  {
    MagicText();
    TableRows(sections, 0, env.checksum);
    TableFits(sections, 0, env.checksum);
    var h := HeaderFor(env, topologyDigest, createdAt, sections);
    var first, table := WriteRow(HeaderRow(h), HeaderColumns()), WriteRows(Extents(sections, 0, env.checksum), ExtentColumns());
    Regroup(first, table, Payload(sections));
  }

  // What was sealed is whole.
  lemma SealedWhole(env: Env, topologyDigest: u64, createdAt: u64, sections: seq<Section>, lim: Limits)
    requires Sealable(sections)
    ensures Whole(SealedFile(env, topologyDigest, createdAt, sections), env.checksum)
    ensures Accepted(HeaderFor(env, topologyDigest, createdAt, sections), lim.(maxSnapshotSections := |sections|, maxSnapshotBytes := |Payload(sections)|), env)
  {
    var wide := lim.(maxSnapshotSections := |sections|, maxSnapshotBytes := |Payload(sections)|);
    PackOpens(env, topologyDigest, createdAt, sections, wide);
    SealedText(env, topologyDigest, createdAt, sections);
    OpensExactly(SealedFile(env, topologyDigest, createdAt, sections), wide, env);
  }

  // Sealed under one configuration and opened under another: it opens exactly when the digests agree and the bounds
  // of the reader admit it, and otherwise the reader says which of them does not.
  lemma SealedElsewhere(env: Env, topologyDigest: u64, createdAt: u64, sections: seq<Section>, lim: Limits, reader: Env)
    requires Sealable(sections) && reader.checksum == env.checksum
    ensures var r := Unpack(Pack(env, topologyDigest, createdAt, sections), lim, reader);
      && (r.Ok? <==>
            && env.limitsDigest == reader.limitsDigest && env.policyDigest == reader.policyDigest
            && |sections| <= lim.maxSnapshotSections && |Payload(sections)| <= lim.maxSnapshotBytes)
      && (r.Err? ==> r.error == if |sections| > lim.maxSnapshotSections then IntegrityFailure
                                else if |Payload(sections)| > lim.maxSnapshotBytes then LimitExceeded
                                else VersionMismatch)
      && (r.Ok? ==> OpensTo(TableOf(sections, 0, env.checksum), Payload(sections), r.value))
  {
    SealedText(env, topologyDigest, createdAt, sections);
    SealedWhole(env, topologyDigest, createdAt, sections, lim);
    OpensExactly(SealedFile(env, topologyDigest, createdAt, sections), lim, reader);
  }

  // So does a snapshot: read after a change of limits or of policy, or under narrower bounds, it is refused as such.
  lemma EncodedElsewhere(content: Content, lists: Lists, lim: Limits, env: Env, bytes: Bytes, narrower: Limits, reader: Env)
    requires Encode(content, lists, lim, env) == Ok(bytes) && reader.checksum == env.checksum
    ensures var r := Decode(bytes, narrower, reader);
      && (4 > narrower.maxSnapshotSections ==> r == Err(IntegrityFailure))
      && (4 <= narrower.maxSnapshotSections && |bytes| - 180 > narrower.maxSnapshotBytes ==> r == Err(LimitExceeded))
      && (4 <= narrower.maxSnapshotSections && |bytes| - 180 <= narrower.maxSnapshotBytes
          && (env.limitsDigest != reader.limitsDigest || Word64(NumAt(content.metadata, POLICY_FIELD)) != reader.policyDigest)
          ==> r == Err(VersionMismatch))
  {
    var t := TextsOf(content, lists, lim, env);
    var sealer := env.(policyDigest := Word64(NumAt(content.metadata, POLICY_FIELD)));
    var created := Word64(NumAt(content.metadata, CREATED_FIELD));
    FourHold(t);
    FileBoundExactly(sealer, env.topologyDigest(content.fabric), created, Sections(t), |bytes|);
    FileBoundExactly(sealer, env.topologyDigest(content.fabric), created, Sections(t), |bytes| - 1);
    SealedElsewhere(sealer, env.topologyDigest(content.fabric), created, Sections(t), narrower, reader);
  }

  lemma SectionsAreCurrent(found: map<nat, Bytes>, digest: nat, lim: Limits, env: Env, content: Content)
    requires DecodeSections(found, digest, lim, env) == Ok(content)
    ensures env.topologyDigest(content.fabric) == digest && TextAt(content.metadata, VERSION_FIELD) == env.policyVersion
  {
    var metadata := DecodeMetadata(found, lim, env).value;
    SettleKeepsVersion(metadata, content.fabric.generation);
  }

  lemma SettleKeepsVersion(row: Row, generation: GenerationVector)
    ensures TextAt(Settle(row, generation), VERSION_FIELD) == TextAt(row, VERSION_FIELD)
  {
  }

  lemma HeaderIsCurrent(data: Bytes, lim: Limits, env: Env)
    requires Unpack(data, lim, env).Ok?
    ensures ReadHeader(data).limitsDigest == env.limitsDigest && ReadHeader(data).policyDigest == env.policyDigest
  {
    assert CheckHeader(ReadHeader(data), lim, env) == None;
  }

  // Whatever decodes was written for this configuration, and its header names its own topology.
  lemma DecodedIsCurrent(data: Bytes, lim: Limits, env: Env, content: Content)
    requires Decode(data, lim, env) == Ok(content)
    ensures env.topologyDigest(content.fabric) == ReadHeader(data).topologyDigest && TextAt(content.metadata, VERSION_FIELD) == env.policyVersion
    ensures ReadHeader(data).limitsDigest == env.limitsDigest && ReadHeader(data).policyDigest == env.policyDigest
  {
    HeaderIsCurrent(data, lim, env);
    SectionsAreCurrent(Unpack(data, lim, env).value, ReadHeader(data).topologyDigest, lim, env, content);
  }
}
