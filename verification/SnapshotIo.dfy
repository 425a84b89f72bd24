// The writer that appends to a buffer and the reader that walks one, field by field
// (src/persistence/snapshot.cpp:20-177).
module SnapshotIo {
  import opened Base
  import opened LittleEndian
  import opened Model
  import opened SnapshotWire

  // What is still to be written behind the first fields.
  lemma Pieces(fields: seq<Field>, columns: seq<Shape>) returns (rest: nat -> Bytes)
    ensures rest(0) == WriteFields(fields, columns) && rest(Min(|fields|, |columns|)) == []
    ensures forall i: nat {:trigger WriteField(fields[i], columns[i])} ::
      i < |fields| && i < |columns| ==> rest(i) == WriteField(fields[i], columns[i]) + rest(i + 1)
  {
    rest := (i: nat) => if i <= |fields| && i <= |columns| then WriteFields(fields[i..], columns[i..]) else [];
    forall i: nat | i < |fields| && i < |columns| ensures rest(i) == WriteField(fields[i], columns[i]) + rest(i + 1) {
      assert fields[i..][1..] == fields[i + 1..] && columns[i..][1..] == columns[i + 1..];
    }
    assert fields[0..] == fields && columns[0..] == columns;
  }

  class ByteWriter {
    var out: Bytes

    constructor ()
      ensures out == []
    {
      out := [];
    }

    // u8 to u64: the low bytes, least significant first.
    method PutNumber(value: nat, width: nat)
      modifies this
      ensures out == old(out) + Put(value, width)
    {
      out := Append(out, value, width);
    }

    method PutText(value: Bytes)
      modifies this
      ensures out == old(out) + WriteText(value)
    {
      PutNumber(|value|, WORD);
      for i := 0 to |value|
        invariant out == old(out) + (Put(|value|, WORD) + value[..i])
      {
        assert value[..i + 1] == value[..i] + [value[i]];
        out := out + [value[i]];
      }
      assert value[..|value|] == value;
    }

    method PutCoded(code: nat, text: Bytes)
      modifies this
      ensures out == old(out) + (Put(code, BYTE) + WriteText(text))
    {
      PutNumber(code, BYTE);
      PutText(text);
    }

    method PutField(f: Field, shape: Shape)
      modifies this
      ensures out == old(out) + WriteField(f, shape)
      decreases f, 0
    {
      match f {
        case Num(n) => PutNumber(n, if shape.Number? then shape.width else BYTE);
        case Chars(text) => PutText(text);
        case About(s) =>
          PutCoded(KindCode(s.kind), Render(s));
        case Rows(rows) =>
          PutNumber(|rows|, WORD);
          PutRows(rows, if shape.Table? then shape.columns else []);
      }
    }

    method PutRow(row: Row, columns: seq<Shape>)
      modifies this
      ensures out == old(out) + WriteRow(row, columns)
      decreases row, 0
    {
      ghost var rest := Pieces(row.fields, columns);
      for i := 0 to Min(|row.fields|, |columns|)
        invariant out + rest(i) == old(out) + rest(0)
      {
        ghost var was := out;
        PutField(row.fields[i], columns[i]);
        Regroup(was, WriteField(row.fields[i], columns[i]), rest(i + 1));
      }
    }

    method PutRows(rows: seq<Row>, columns: seq<Shape>)
      modifies this
      ensures out == old(out) + WriteRows(rows, columns)
      decreases rows, 0
    {
      for i := 0 to |rows|
        invariant out + WriteRows(rows[i..], columns) == old(out) + WriteRows(rows, columns)
      {
        assert rows[i..][1..] == rows[i + 1..];
        PutRow(rows[i], columns);
      }
    }
  }

  // What a method of the reader returned and where it left the reader are as the functions say.
  ghost predicate Agrees<T>(r: Result<T>, here: Cursor, said: Outcome<T>) {
    match said
    case Refused(e) => r == Err(e)
    case Got(v, c) => r == Ok(v) && here == c
  }

  // ---- Loops on values ----

  lemma NumberGrows(value: nat, b: nat, high: nat, i: nat)
    ensures value + Pow256(i) * (b + 256 * high) == (value + Pow256(i) * b) + Pow256(i + 1) * high
  {
  }

  // The whole reading is what has been read so far and then the rest.
  ghost predicate Continues<T>(whole: Outcome<seq<T>>, done: seq<T>, rest: Outcome<seq<T>>) {
    match rest
    case Refused(e) => whole == Refused(e)
    case Got(v, c) => whole == Got(done + v, c)
  }

  lemma ContinuesAtStart<T>(whole: Outcome<seq<T>>)
    ensures Continues(whole, [], whole)
  {
    if whole.Got? {
      assert [] + whole.value == whole.value;
    }
  }

  // One more element was read.
  lemma ContinuesFurther<T>(whole: Outcome<seq<T>>, done: seq<T>, x: T, before: Outcome<seq<T>>, after: Outcome<seq<T>>)
    requires Continues(whole, done, before)
    requires before == match after case Refused(e) => Refused(e) case Got(v, c) => Got([x] + v, c)
    ensures Continues(whole, done + [x], after)
  {
    if after.Got? {
      assert done + ([x] + after.value) == (done + [x]) + after.value;
    }
  }

  class ByteReader {
    const data: Bytes
    const max: nat

    var position: nat
    var ok: bool

    ghost predicate Valid()
      reads `position
    {
      position <= |data|
    }

    function Here(): Cursor
      reads this
    {
      Cursor(position, ok)
    }

    constructor (input: Bytes, maxText: nat)
      ensures Valid() && data == input && max == maxText && Here() == Cursor(0, true)
    {
      data, max, position, ok := input, maxText, 0, true;
    }

    method TakeByte() returns (b: Byte)
      requires Valid()
      modifies this
      ensures Valid() && (b, Here()) == ReadByte(data, old(Here()))
    {
      if position + 1 > |data| {
        ok := false;
        return 0;
      }
      position := position + 1;
      return data[position - 1];
    }

    // u16 to u64: one byte after the other, each shifted to its place.
    method TakeNumber(width: nat) returns (value: nat)
      requires Valid()
      modifies this
      ensures Valid() && (value, Here()) == ReadNumber(data, old(Here()), width)
    {
      value := 0;
      for i := 0 to width
        invariant Valid()
        invariant var (rest, end) := ReadNumber(data, Here(), width - i);
                  ReadNumber(data, old(Here()), width) == (value + Pow256(i) * rest, end)
      {
        ghost var c := Here();
        var b := TakeByte();
        NumberGrows(value, b as nat, ReadNumber(data, Here(), width - i - 1).0, i);
        value := value + Pow256(i) * b as nat;
      }
    }

    method TakeText() returns (text: Bytes)
      requires Valid()
      modifies this
      ensures Valid() && (text, Here()) == ReadText(data, old(Here()), max)
    {
      var length := TakeNumber(WORD);
      if !ok {
        return [];
      }
      if length > max || position + length > |data| {
        ok := false;
        return [];
      }
      text := data[position..position + length];
      position := position + length;
    }

    method TakeCount(bound: nat) returns (n: nat)
      requires Valid()
      modifies this
      ensures Valid() && (n, Here()) == ReadCount(data, old(Here()), bound)
    {
      n := TakeNumber(WORD);
      if !ok {
        return 0;
      }
      if n > bound {
        ok := false;
        return 0;
      }
    }

    method TakeSubject() returns (s: Subject)
      requires Valid()
      modifies this
      ensures Valid() && (s, Here()) == ReadSubject(data, old(Here()), max)
    {
      var kind := TakeByte();
      var text := TakeText();
      if !ok || kind == 0 {
        return NOBODY;
      }
      var parsed := ParseSubject(text);
      if parsed == None {
        ok := false;
        return NOBODY;
      }
      return parsed.value;
    }

    method TakeField(shape: Shape) returns (r: Result<Field>)
      requires Valid()
      modifies this
      ensures Valid() && Agrees(r, Here(), ReadField(data, old(Here()), shape, max))
      decreases shape, 0
    {
      match shape {
        case Number(width) =>
          var n := TakeNumber(width);
          r := Ok(Num(n));
        case Flag =>
          var b := TakeByte();
          r := Ok(Num(if b != 0 then 1 else 0));
        case Text =>
          var text := TakeText();
          r := Ok(Chars(text));
        case Short(bound) =>
          var text := TakeText();
          r := if |text| > bound then Err(LimitExceeded) else Ok(Chars(text));
        case NameText(optional) =>
          var text := TakeText();
          r := if (optional && text == []) || IsCanonical(text) then Ok(Chars(text)) else Err(NameError(text));
        case SubjectText =>
          var s := TakeSubject();
          r := Ok(About(s));
        case Table(bound, columns) =>
          var n := TakeCount(bound);
          var rows := TakeRows(n, columns);
          r := match rows case Err(e) => Err(e) case Ok(t) => Ok(Rows(t));
      }
    }

    method TakeRow(columns: seq<Shape>) returns (r: Result<Row>)
      requires Valid()
      modifies this
      ensures Valid() && Agrees(r, Here(), ReadRow(data, old(Here()), columns, max))
      decreases columns, 1
    {
      var fields: seq<Field> := [];
      ghost var said := ReadFields(data, Here(), columns, max);
      ContinuesAtStart(said);
      for i := 0 to |columns|
        invariant Valid()
        invariant Continues(said, fields, ReadFields(data, Here(), columns[i..], max))
      {
        assert columns[i..][1..] == columns[i + 1..];
        ghost var before := ReadFields(data, Here(), columns[i..], max);
        var f := TakeField(columns[i]);
        if f.Err? {
          return Err(f.error);
        }
        ContinuesFurther(said, fields, f.value, before, ReadFields(data, Here(), columns[i + 1..], max));
        fields := fields + [f.value];
      }
      assert fields + [] == fields;
      return Ok(Row(fields));
    }

    method TakeRows(n: nat, columns: seq<Shape>) returns (r: Result<seq<Row>>)
      requires Valid()
      modifies this
      ensures Valid() && Agrees(r, Here(), ReadRows(data, old(Here()), n, columns, max))
      decreases columns, 2 + n
    {
      var rows: seq<Row> := [];
      ghost var said := ReadRows(data, Here(), n, columns, max);
      ContinuesAtStart(said);
      var i := 0;
      while i < n && ok
        invariant i <= n && Valid()
        invariant Continues(said, rows, ReadRows(data, Here(), n - i, columns, max))
      {
        ghost var before := ReadRows(data, Here(), n - i, columns, max);
        var row := TakeRow(columns);
        if row.Err? {
          return Err(row.error);
        }
        ContinuesFurther(said, rows, row.value, before, ReadRows(data, Here(), n - i - 1, columns, max));
        rows := rows + [row.value];
        i := i + 1;
      }
      assert rows + [] == rows;
      return Ok(rows);
    }
  }
}
