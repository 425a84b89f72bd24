// What the container guarantees: packed sections are found again, only whole snapshots open, and damage to a
// payload shows (src/persistence/snapshot.cpp:689-781).
module SnapshotIntegrity {
  import opened Base
  import opened LittleEndian
  import opened Model
  import opened SnapshotWire
  import opened SnapshotContainer
  import Checksum
  import Burst
  import FrameIntegrity

  // ---- Columns of numbers have one width, and read alike wherever the bytes are alike ----

  ghost predicate AllNumbers(columns: seq<Shape>) { forall i :: 0 <= i < |columns| ==> columns[i].Number? }

  function Width(columns: seq<Shape>): nat {
    if columns == [] then 0 else (if columns[0].Number? then columns[0].width else 0) + Width(columns[1..])
  }

  function Total(widths: seq<nat>): nat { if widths == [] then 0 else widths[0] + Total(widths[1..]) }

  lemma {:induction false} WidthOfNumbers(widths: seq<nat>)
    ensures AllNumbers(Numbers(widths)) && Width(Numbers(widths)) == Total(widths)
  {
    if widths != [] {
      assert Numbers(widths)[1..] == Numbers(widths[1..]);
      WidthOfNumbers(widths[1..]);
    }
  }

  lemma {:induction false} TotalJoin(a: seq<nat>, b: seq<nat>)
    ensures Total(a + b) == Total(a) + Total(b)
  {
    if a == [] {
      assert a + b == b;
    } else {
      assert (a + b)[1..] == a[1..] + b;
      TotalJoin(a[1..], b);
    }
  }

  lemma HeaderWidth()
    ensures AllNumbers(HeaderColumns()) && Width(HeaderColumns()) == HEADER_BYTES
  {
    var a, b := [LONG, WORD, WORD, LONG, LONG], [LONG, LONG, WORD, LONG, LONG];
    assert HEADER_WIDTHS == a + b;
    TotalJoin(a, b);
    TotalFive(LONG, WORD, WORD, LONG, LONG);
    TotalFive(LONG, LONG, WORD, LONG, LONG);
    WidthOfNumbers(HEADER_WIDTHS);
  }

  lemma TotalFirst(a: nat, more: seq<nat>)
    ensures Total([a] + more) == a + Total(more)
  {
    assert ([a] + more)[1..] == more;
  }

  lemma TotalFive(a: nat, b: nat, c: nat, d: nat, e: nat)
    ensures Total([a, b, c, d, e]) == a + b + c + d + e
  {
    TotalFirst(a, [b, c, d, e]);
    TotalFirst(b, [c, d, e]);
    TotalFirst(c, [d, e]);
    TotalFirst(d, [e]);
    TotalFirst(e, []);
    assert [a] + [b, c, d, e] == [a, b, c, d, e] && [b] + [c, d, e] == [b, c, d, e] && [c] + [d, e] == [c, d, e];
    assert [d] + [e] == [d, e] && [e] + [] == [e];
  }

  lemma EntryWidth()
    ensures AllNumbers(ExtentColumns()) && Width(ExtentColumns()) == ENTRY_BYTES
  {
    WidthOfNumbers(ENTRY_WIDTHS);
  }

  lemma {:induction false} NumbersWidth(fields: seq<Field>, columns: seq<Shape>)
    requires AllNumbers(columns) && |fields| == |columns| && forall i :: 0 <= i < |fields| ==> fields[i].Num?
    ensures |WriteFields(fields, columns)| == Width(columns)
  {
    if columns != [] {
      NumbersWidth(fields[1..], columns[1..]);
    }
  }

  lemma {:induction false} FieldsAdvance(data: Bytes, c: Cursor, columns: seq<Shape>)
    requires AllNumbers(columns) && c.position <= |data|
    ensures var r := ReadFields(data, c, columns, 0); r.Got? && (r.at.ok ==> r.at.position == c.position + Width(columns))
    decreases |columns|
  {
    if columns != [] {
      var (n, c1) := ReadNumber(data, c, columns[0].width);
      FieldsAdvance(data, c1, columns[1..]);
    }
  }

  lemma {:induction false} RowsAdvance(data: Bytes, c: Cursor, n: nat, columns: seq<Shape>)
    requires c.position <= |data| && AllNumbers(columns) && Width(columns) == ENTRY_BYTES
    ensures var r := ReadRows(data, c, n, columns, 0); r.Got? && (r.at.ok ==> r.at.position == c.position + ENTRY_BYTES * n)
    decreases n
  {
    if n > 0 && c.ok {
      FieldsAdvance(data, c, columns);
      RowsAdvance(data, ReadRow(data, c, columns, 0).at, n - 1, columns);
    }
  }

  lemma TableAdvance(data: Bytes, n: nat)
    requires HEADER_BYTES <= |data|
    ensures var r := ReadTable(data, n); r.Got? && (r.at.ok ==> r.at.position == HEADER_BYTES + ENTRY_BYTES * n)
  {
    EntryWidth();
    RowsAdvance(data, Cursor(HEADER_BYTES, true), n, ExtentColumns());
  }

  // The two texts are the same up to n.
  ghost predicate Alike(a: Bytes, b: Bytes, n: nat) { n <= |a| && n <= |b| && a[..n] == b[..n] }

  lemma {:induction false} NumberAlike(a: Bytes, b: Bytes, n: nat, position: nat, width: nat)
    requires Alike(a, b, n) && position + width <= n
    ensures ReadNumber(a, Cursor(position, true), width) == ReadNumber(b, Cursor(position, true), width)
    ensures ReadNumber(a, Cursor(position, true), width).1 == Cursor(position + width, true)
    decreases width
  {
    if width > 0 {
      assert a[position] == a[..n][position] == b[..n][position] == b[position];
      NumberAlike(a, b, n, position + 1, width - 1);
    }
  }

  lemma {:induction false} FieldsAlike(a: Bytes, b: Bytes, n: nat, position: nat, columns: seq<Shape>)
    requires Alike(a, b, n) && AllNumbers(columns) && position + Width(columns) <= n
    ensures ReadFields(a, Cursor(position, true), columns, 0) == ReadFields(b, Cursor(position, true), columns, 0)
    ensures ReadFields(a, Cursor(position, true), columns, 0).Got?
    ensures ReadFields(a, Cursor(position, true), columns, 0).at == Cursor(position + Width(columns), true)
    decreases |columns|
  {
    if columns != [] {
      NumberAlike(a, b, n, position, columns[0].width);
      FieldsAlike(a, b, n, position + columns[0].width, columns[1..]);
    }
  }

  lemma RowAlike(a: Bytes, b: Bytes, n: nat, position: nat, columns: seq<Shape>)
    requires Alike(a, b, n) && AllNumbers(columns) && position + Width(columns) <= n
    ensures ReadRow(a, Cursor(position, true), columns, 0) == ReadRow(b, Cursor(position, true), columns, 0)
    ensures ReadRow(a, Cursor(position, true), columns, 0).Got?
    ensures ReadRow(a, Cursor(position, true), columns, 0).at == Cursor(position + Width(columns), true)
  {
    FieldsAlike(a, b, n, position, columns);
  }

  lemma {:induction false} RowsAlike(a: Bytes, b: Bytes, n: nat, position: nat, count: nat, columns: seq<Shape>)
    requires Alike(a, b, n) && AllNumbers(columns) && Width(columns) == ENTRY_BYTES && position + ENTRY_BYTES * count <= n
    ensures ReadRows(a, Cursor(position, true), count, columns, 0) == ReadRows(b, Cursor(position, true), count, columns, 0)
    decreases count
  {
    if count > 0 {
      RowAlike(a, b, n, position, columns);
      RowsAlike(a, b, n, position + ENTRY_BYTES, count - 1, columns);
    }
  }

  lemma TableAlike(a: Bytes, b: Bytes, n: nat, count: nat)
    requires Alike(a, b, n) && HEADER_BYTES + ENTRY_BYTES * count <= n
    ensures ReadTable(a, count) == ReadTable(b, count)
  {
    EntryWidth();
    RowsAlike(a, b, n, HEADER_BYTES, count, ExtentColumns());
  }

  lemma NumbersEnd(data: Bytes, columns: seq<Shape>)
    requires AllNumbers(columns) && Width(columns) <= |data|
    ensures ReadRow(data, Cursor(0, true), columns, 0).Got? && ReadRow(data, Cursor(0, true), columns, 0).at == Cursor(Width(columns), true)
  {
    FieldsAlike(data, data, |data|, 0, columns);
  }

  lemma HeaderAlike(a: Bytes, b: Bytes)
    requires Alike(a, b, HEADER_BYTES)
    ensures ReadHeader(a) == ReadHeader(b)
  {
    HeaderWidth();
    FieldsAlike(a, b, HEADER_BYTES, 0, HeaderColumns());
  }

  // ---- Only whole snapshots open ----

  lemma LengthBy(h: Header, data: Bytes, lim: Limits, env: Env)
    requires HEADER_BYTES <= |data| && UnpackBy(h, data, lim, env).Ok?
    ensures |data| == HEADER_BYTES + ENTRY_BYTES * h.sections + h.payloadBytes
  {
    TableAdvance(data, h.sections);
  }

  // The header declares the length of every snapshot that opens.
  lemma LengthDeclared(data: Bytes, lim: Limits, env: Env)
    requires Unpack(data, lim, env).Ok?
    ensures |data| == HEADER_BYTES + ENTRY_BYTES * ReadHeader(data).sections + ReadHeader(data).payloadBytes
  {
    LengthBy(ReadHeader(data), data, lim, env);
  }

  lemma OneLength(h: Header, a: Bytes, b: Bytes, lim: Limits, env: Env)
    requires HEADER_BYTES <= |a| < |b|
    ensures !(UnpackBy(h, a, lim, env).Ok? && UnpackBy(h, b, lim, env).Ok?)
  {
    if UnpackBy(h, a, lim, env).Ok? && UnpackBy(h, b, lim, env).Ok? {
      LengthBy(h, a, lim, env);
      LengthBy(h, b, lim, env);
      assert false;
    }
  }

  // A snapshot opens neither cut short nor continued.
  lemma OnlyWholeOpens(a: Bytes, b: Bytes, lim: Limits, env: Env)
    requires a < b
    ensures !(Unpack(a, lim, env).Ok? && Unpack(b, lim, env).Ok?)
  {
    if HEADER_BYTES <= |a| {
      assert Alike(a, b, HEADER_BYTES);
      HeaderAlike(a, b);
      OneLength(ReadHeader(a), a, b, lim, env);
    }
  }

  // ---- Packed sections are found again ----

  ghost predicate Packable(sections: seq<Section>, lim: Limits) {
    && NumbersApart(sections)
    && (forall i :: 0 <= i < |sections| ==> sections[i].id < 0x1_0000_0000)
    && |sections| <= lim.maxSnapshotSections && |sections| < 0x1_0000_0000
    && |Payload(sections)| <= lim.maxSnapshotBytes && |Payload(sections)| <= U64_MAX
  }

  lemma HeaderFits(h: Header)
    requires h.magic <= U64_MAX && h.limitsDigest <= U64_MAX && h.policyDigest <= U64_MAX && h.topologyDigest <= U64_MAX
    requires h.createdAt <= U64_MAX && h.payloadBytes <= U64_MAX && h.payloadCrc <= U64_MAX
    requires h.major < 0x1_0000_0000 && h.minor < 0x1_0000_0000 && h.sections < 0x1_0000_0000
    ensures FitsRow(HeaderRow(h), HeaderColumns(), 0)
  {
    var p4, p8 := Pow256(WORD), Pow256(LONG);
    assert p4 == 0x1_0000_0000 && p8 == 0x1_0000_0000_0000_0000 by { Widths(); }
  }

  // A row of numbers at the start of a text.
  lemma FirstRow(data: Bytes, row: Row, columns: seq<Shape>, rest: Bytes)
    requires FitsRow(row, columns, 0) && AllNumbers(columns) && data == WriteRow(row, columns) + rest
    ensures |WriteRow(row, columns)| == Width(columns) && ReadRow(data, Cursor(0, true), columns, 0) == Got(row, Cursor(Width(columns), true))
  {
    forall i | 0 <= i < |row.fields| ensures row.fields[i].Num? {
      assert Fits(row.fields[i], columns[i], 0);
    }
    NumbersWidth(row.fields, columns);
    assert data[0..|data|] == data;
    AtSplit(data, 0, WriteRow(row, columns), rest);
    RowRoundTrip(data, 0, row, columns, 0);
  }

  lemma HeaderRead(data: Bytes, h: Header, rest: Bytes)
    requires FitsRow(HeaderRow(h), HeaderColumns(), 0) && data == WriteRow(HeaderRow(h), HeaderColumns()) + rest
    ensures |WriteRow(HeaderRow(h), HeaderColumns())| == HEADER_BYTES && ReadHeader(data) == h
  {
    HeaderWidth();
    FirstRow(data, HeaderRow(h), HeaderColumns(), rest);
  }

  lemma TableFound(data: Bytes, rows: seq<Row>, payload: Bytes)
    requires FitsRows(rows, ExtentColumns(), 0) && HEADER_BYTES <= |data|
    requires data[HEADER_BYTES..] == WriteRows(rows, ExtentColumns()) + payload
    ensures ReadTable(data, |rows|) == Got(rows, Cursor(HEADER_BYTES + |WriteRows(rows, ExtentColumns())|, true))
    ensures data[HEADER_BYTES + |WriteRows(rows, ExtentColumns())|..] == payload
  {
    var text := WriteRows(rows, ExtentColumns());
    assert data[HEADER_BYTES..][..|text|] == text;
    assert data[HEADER_BYTES..HEADER_BYTES + |text|] == data[HEADER_BYTES..][..|text|];
    RowsRoundTrip(data, HEADER_BYTES, rows, ExtentColumns(), 0);
    assert data[HEADER_BYTES + |text|..] == data[HEADER_BYTES..][|text|..];
  }

  lemma PayloadOpens(data: Bytes, sections: seq<Section>, h: Header, end: nat, env: Env)
    requires NumbersApart(sections) && end <= |data| && data[end..] == Payload(sections) && |Payload(sections)| <= U64_MAX
    requires h.payloadBytes == |Payload(sections)| && h.payloadCrc == env.checksum(Payload(sections))
    ensures OpenPayload(data, h, Got(Extents(sections, 0, env.checksum), Cursor(end, true)), env) == Ok(ById(sections, map[]))
  {
    assert [] + Payload(sections) == Payload(sections);
    Collected(sections, [], Payload(sections), map[], env.checksum);
  }

  lemma PackOpens(env: Env, topologyDigest: u64, createdAt: u64, sections: seq<Section>, lim: Limits)
    requires Packable(sections, lim)
    ensures Unpack(Pack(env, topologyDigest, createdAt, sections), lim, env) == Ok(ById(sections, map[]))
    ensures ReadHeader(Pack(env, topologyDigest, createdAt, sections)).topologyDigest == topologyDigest
  {
    var data := Pack(env, topologyDigest, createdAt, sections);
    var h, rows := HeaderFor(env, topologyDigest, createdAt, sections), Extents(sections, 0, env.checksum);
    var first, table := WriteRow(HeaderRow(h), HeaderColumns()), WriteRows(rows, ExtentColumns());
    ExtentsFit(sections, 0, env.checksum);
    MagicText();
    HeaderFits(h);
    assert data == first + (table + Payload(sections));
    HeaderRead(data, h, table + Payload(sections));
    assert data[HEADER_BYTES..] == table + Payload(sections);
    TableFound(data, rows, Payload(sections));
    PayloadOpens(data, sections, h, HEADER_BYTES + |table|, env);
  }

  // The file is longer than the payload that the writer bounds by its header and its table.
  lemma {:induction false} ExtentsWidth(sections: seq<Section>, offset: nat, checksum: Bytes -> u64)
    ensures |WriteRows(Extents(sections, offset, checksum), ExtentColumns())| == ENTRY_BYTES * |sections|
    decreases |sections|
  {
    if sections != [] {
      var first := ExtentRow(Extent(sections[0].id, offset, |sections[0].bytes|, checksum(sections[0].bytes)));
      EntryWidth();
      NumbersWidth(first.fields, ExtentColumns());
      ExtentsWidth(sections[1..], offset + |sections[0].bytes|, checksum);
      assert Extents(sections, offset, checksum)[1..] == Extents(sections[1..], offset + |sections[0].bytes|, checksum);
    }
  }

  // A reader that bounds whole files refuses what is within 28 bytes a section and 68 of that bound.
  lemma FileBoundExactly(env: Env, topologyDigest: u64, createdAt: u64, sections: seq<Section>, max: nat)
    ensures |Pack(env, topologyDigest, createdAt, sections)| <= max
      <==> |Payload(sections)| <= max - HEADER_BYTES - ENTRY_BYTES * |sections|
  {
    HeaderWidth();
    NumbersWidth(HeaderRow(HeaderFor(env, topologyDigest, createdAt, sections)).fields, HeaderColumns());
    ExtentsWidth(sections, 0, env.checksum);
  }

  // ---- Damage ----

  lemma SealBroken(data: Bytes, h: Header, table: Outcome<seq<Row>>, env: Env)
    requires table.Got? && table.at.ok && table.at.position <= |data| && env.checksum(data[table.at.position..]) != h.payloadCrc
    ensures OpenPayload(data, h, table, env) == Err(IntegrityFailure)
  {
  }

  lemma SealHolds(data: Bytes, h: Header, table: Outcome<seq<Row>>, env: Env)
    requires OpenPayload(data, h, table, env).Ok?
    ensures table.Got? && table.at.ok && table.at.position <= |data| && env.checksum(data[table.at.position..]) == h.payloadCrc
  {
  }

  lemma SameFrontBy(h: Header, front: Bytes, a: Bytes, b: Bytes, lim: Limits, env: Env)
    requires |a| == |b| && env.checksum(a) != env.checksum(b) && |front| == HEADER_BYTES + ENTRY_BYTES * h.sections
    requires UnpackBy(h, front + a, lim, env).Ok?
    ensures UnpackBy(h, front + b, lim, env) == Err(IntegrityFailure)
  {
    var good, bad := front + a, front + b;
    var table := ReadTable(good, h.sections);
    assert good[..|front|] == front == bad[..|front|];
    TableAlike(good, bad, |front|, h.sections);
    TableAdvance(good, h.sections);
    assert good[|front|..] == a && bad[|front|..] == b;
    SealHolds(good, h, table, env);
    SealBroken(bad, h, table, env);
  }

  lemma FrontAlike(front: Bytes, a: Bytes, b: Bytes, n: nat)
    requires n <= |front|
    ensures Alike(front + a, front + b, n)
  {
    assert (front + a)[..n] == front[..n] == (front + b)[..n];
  }

  // Two payloads behind one front: if one opens, the other has to have the same checksum.
  lemma SameFront(front: Bytes, a: Bytes, b: Bytes, good: Bytes, bad: Bytes, lim: Limits, env: Env)
    requires good == front + a && bad == front + b && |a| == |b| && env.checksum(a) != env.checksum(b)
    requires Unpack(good, lim, env).Ok? && |front| == HEADER_BYTES + ENTRY_BYTES * ReadHeader(good).sections
    ensures Unpack(bad, lim, env) == Err(IntegrityFailure)
  {
    FrontAlike(front, a, b, HEADER_BYTES);
    var h := ReadHeader(good);
    HeaderAlike(good, bad);
    assert UnpackBy(h, good, lim, env).Ok?;
    SameFrontBy(h, front, a, b, lim, env);
    assert Unpack(bad, lim, env) == UnpackBy(h, bad, lim, env);
  }

  // With the checksum that is deployed, damage within eight consecutive bytes of the payload never opens.
  lemma DamagedPayloadRefused(front: Bytes, before: Bytes, a: Bytes, b: Bytes, behind: Bytes, lim: Limits, env: Env)
    requires env.checksum == FrameIntegrity.CrcField
    requires |a| == |b| <= Burst.WINDOW && a != b
    requires Unpack(front + (before + a + behind), lim, env).Ok?
    requires |front| == HEADER_BYTES + ENTRY_BYTES * ReadHeader(front + (before + a + behind)).sections
    ensures Unpack(front + (before + b + behind), lim, env) == Err(IntegrityFailure)
  {
    var x, y := before + a + behind, before + b + behind;
    Burst.WindowDetected(before, a, b, behind);
    if env.checksum(x) == env.checksum(y) {
      FrameIntegrity.AsFieldInjective(Checksum.Crc(x), Checksum.Crc(y));
      assert false;
    }
    SameFront(front, x, y, front + x, front + y, lim, env);
  }
}
