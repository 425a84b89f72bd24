// The bytes of a snapshot's records: how a row of fields is written, and the reader that takes any bytes,
// remembers its first failure and never leaves its buffer (src/persistence/snapshot.cpp:20-196).
module SnapshotWire {
  import opened Base
  import opened LittleEndian
  import opened Model

  // ---- Subjects as text ----

  function KindOf(word: Bytes): Option<SubjectKind> {
    if word == KindLabel(Node) then Some(Node)
    else if word == KindLabel(Port) then Some(Port)
    else if word == KindLabel(Link) then Some(Link)
    else if word == KindLabel(Queue) then Some(Queue)
    else if word == KindLabel(Buffer) then Some(Buffer)
    else if word == KindLabel(Path) then Some(Path)
    else if word == KindLabel(Flow) then Some(Flow)
    else if word == KindLabel(Tenant) then Some(Tenant)
    else if word == KindLabel(Class) then Some(Class)
    else if word == KindLabel(Source) then Some(Source)
    else if word == KindLabel(Topology) then Some(Topology)
    else None
  }

  // The place of the first colon, or the length.
  function FirstColon(text: Bytes): (i: nat)
    ensures i <= |text| && (i < |text| ==> text[i] == COLON)
    ensures forall k :: 0 <= k < i ==> text[k] != COLON
  {
    if text == [] || text[0] == COLON then 0 else 1 + FirstColon(text[1..])
  }

  function ParseSubject(text: Bytes): Option<Subject> {
    var i := FirstColon(text);
    if i == |text| || i == 0 || i + 1 >= |text| then None
    else
      match KindOf(text[..i])
      case None => None
      case Some(kind) => if IsCanonical(text[i + 1..]) then Some(Subject(kind, text[i + 1..])) else None
  }

  const NOBODY: Subject := Subject(NoKind, [])

  lemma KindOfLabel(kind: SubjectKind)
    requires kind != NoKind
    ensures KindOf(KindLabel(kind)) == Some(kind)
  {
  }

  // A rendered subject parses back, even when its name holds colons.
  lemma SubjectRoundTrip(s: Subject)
    requires s.Valid() && IsCanonical(s.name)
    ensures ParseSubject(Render(s)) == Some(s)
  {
    var text, word := Render(s), KindLabel(s.kind);
    LabelsHaveNoColon(s.kind);
    assert text[|word|] == COLON && forall k :: 0 <= k < |word| ==> text[k] == word[k];
    assert FirstColon(text) == |word|;
    assert text[..|word|] == word && text[|word| + 1..] == s.name;
    KindOfLabel(s.kind);
  }

  // ---- Rows of fields ----

  datatype Field = Num(n: nat) | Chars(text: Bytes) | About(subject: Subject) | Rows(rows: seq<Row>)

  datatype Row = Row(fields: seq<Field>)

  // What a column holds: a number of so many bytes, a truth value, a text (possibly bounded), a name
  // (possibly absent), a subject, or a bounded table behind its count.
  datatype Shape =
    | Number(width: nat)
    | Flag
    | Text
    | Short(max: nat)
    | NameText(optional: bool)
    | SubjectText
    | Table(bound: nat, columns: seq<Shape>)

  // ---- Writing ----

  // The length is cast to 32 bits.
  function WriteText(text: Bytes): Bytes { Put(|text|, WORD) + text }

  function WriteField(f: Field, shape: Shape): Bytes
    decreases f, 0
  {
    match f
    case Num(n) => if shape.Number? then Put(n, shape.width) else Put(n, BYTE)
    case Chars(text) => WriteText(text)
    case About(s) => Put(KindCode(s.kind), BYTE) + WriteText(Render(s))
    case Rows(rows) => Put(|rows|, WORD) + WriteRows(rows, if shape.Table? then shape.columns else [])
  }

  function WriteFields(fields: seq<Field>, columns: seq<Shape>): Bytes
    decreases fields, 0
  {
    if fields == [] || columns == [] then [] else WriteField(fields[0], columns[0]) + WriteFields(fields[1..], columns[1..])
  }

  function WriteRow(row: Row, columns: seq<Shape>): Bytes
    decreases row, 0
  {
    WriteFields(row.fields, columns)
  }

  function WriteRows(rows: seq<Row>, columns: seq<Shape>): Bytes
    decreases rows, 0
  {
    if rows == [] then [] else WriteRow(rows[0], columns) + WriteRows(rows[1..], columns)
  }

  // ---- Reading ----

  // Where the reader is, and whether nothing has failed yet.
  datatype Cursor = Cursor(position: nat, ok: bool)

  // A value and the cursor behind it, or an error that ends the whole decoding at once.
  datatype Outcome<+T> = Got(value: T, at: Cursor) | Refused(error: ErrorCode)

  function Broken(c: Cursor): Cursor { c.(ok := false) }

  // The reader went on from one cursor to another inside its buffer.
  predicate Within(data: Bytes, from: Cursor, to: Cursor) {
    from.position <= to.position <= |data| && (to.ok ==> from.ok)
  }

  function ReadByte(data: Bytes, c: Cursor): (r: (Byte, Cursor))
    requires c.position <= |data|
    ensures Within(data, c, r.1)
  {
    if c.position + 1 > |data| then (0, Broken(c)) else (data[c.position], c.(position := c.position + 1))
  }

  // A number of so many bytes, least significant first; after a failure the missing bytes count as zero.
  function ReadNumber(data: Bytes, c: Cursor, width: nat): (r: (nat, Cursor))
    requires c.position <= |data|
    ensures Within(data, c, r.1)
    ensures r.1.ok ==> r.1.position == c.position + width
    decreases width
  {
    if width == 0 then (0, c)
    else
      var (b, c1) := ReadByte(data, c);
      var (high, c2) := ReadNumber(data, c1, width - 1);
      (b as nat + 256 * high, c2)
  }

  function ReadText(data: Bytes, c: Cursor, max: nat): (r: (Bytes, Cursor))
    requires c.position <= |data|
    ensures Within(data, c, r.1)
  {
    var (n, c1) := ReadNumber(data, c, WORD);
    if !c1.ok then ([], c1)
    else if n > max || c1.position + n > |data| then ([], Broken(c1))
    else (data[c1.position..c1.position + n], c1.(position := c1.position + n))
  }

  // A count is checked against its bound before anything is allocated for it.
  function ReadCount(data: Bytes, c: Cursor, bound: nat): (r: (nat, Cursor))
    requires c.position <= |data|
    ensures Within(data, c, r.1) && r.0 <= bound
  {
    var (n, c1) := ReadNumber(data, c, WORD);
    if !c1.ok then (0, c1)
    else if n > bound then (0, Broken(c1))
    else (n, c1)
  }

  // The subject that a kind code and a text stand for.
  function SubjectOf(code: nat, text: Bytes): Option<Subject> {
    if code == 0 then Some(NOBODY) else ParseSubject(text)
  }

  function ReadSubject(data: Bytes, c: Cursor, max: nat): (r: (Subject, Cursor))
    requires c.position <= |data|
    ensures Within(data, c, r.1)
  {
    ReadCoded(data, c, max, SubjectOf)
  }

  function ReadCoded(data: Bytes, c: Cursor, max: nat, parse: (nat, Bytes) -> Option<Subject>): (r: (Subject, Cursor))
    requires c.position <= |data|
    ensures Within(data, c, r.1)
  {
    var (code, c1) := ReadByte(data, c);
    var (text, c2) := ReadText(data, c1, max);
    if !c2.ok then (NOBODY, c2)
    else
      match parse(code as nat, text)
      case None => (NOBODY, Broken(c2))
      case Some(s) => (s, c2)
  }

  // Why a text is not a name.
  function NameError(text: Bytes): ErrorCode {
    if |text| > MAX_NAME_LENGTH then LimitExceeded else InvalidArgument
  }

  function ReadField(data: Bytes, c: Cursor, shape: Shape, max: nat): (r: Outcome<Field>)
    requires c.position <= |data|
    ensures r.Got? ==> Within(data, c, r.at)
    decreases shape, 0
  {
    match shape
    case Number(width) =>
      var (n, c1) := ReadNumber(data, c, width);
      Got(Num(n), c1)
    case Flag =>
      var (b, c1) := ReadByte(data, c);
      Got(Num(if b != 0 then 1 else 0), c1)
    case Text =>
      var (text, c1) := ReadText(data, c, max);
      Got(Chars(text), c1)
    case Short(bound) =>
      var (text, c1) := ReadText(data, c, max);
      if |text| > bound then Refused(LimitExceeded) else Got(Chars(text), c1)
    case NameText(optional) =>
      var (text, c1) := ReadText(data, c, max);
      if (optional && text == []) || IsCanonical(text) then Got(Chars(text), c1) else Refused(NameError(text))
    case SubjectText =>
      var (s, c1) := ReadSubject(data, c, max);
      Got(About(s), c1)
    case Table(bound, columns) =>
      var (n, c1) := ReadCount(data, c, bound);
      match ReadRows(data, c1, n, columns, max)
      case Refused(e) => Refused(e)
      case Got(rows, c2) => Got(Rows(rows), c2)
  }

  function ReadFields(data: Bytes, c: Cursor, columns: seq<Shape>, max: nat): (r: Outcome<seq<Field>>)
    requires c.position <= |data|
    ensures r.Got? ==> Within(data, c, r.at)
    decreases columns, 0
  {
    if columns == [] then Got([], c)
    else
      match ReadField(data, c, columns[0], max)
      case Refused(e) => Refused(e)
      case Got(f, c1) =>
        match ReadFields(data, c1, columns[1..], max)
        case Refused(e) => Refused(e)
        case Got(fields, c2) => Got([f] + fields, c2)
  }

  function ReadRow(data: Bytes, c: Cursor, columns: seq<Shape>, max: nat): (r: Outcome<Row>)
    requires c.position <= |data|
    ensures r.Got? ==> Within(data, c, r.at)
    decreases columns, 1
  {
    match ReadFields(data, c, columns, max)
    case Refused(e) => Refused(e)
    case Got(fields, c1) => Got(Row(fields), c1)
  }

  // The loop over a counted table, which a failure ends.
  function ReadRows(data: Bytes, c: Cursor, n: nat, columns: seq<Shape>, max: nat): (r: Outcome<seq<Row>>)
    requires c.position <= |data|
    ensures r.Got? ==> Within(data, c, r.at)
    decreases columns, 2 + n
  {
    if n == 0 || !c.ok then Got([], c)
    else
      match ReadRow(data, c, columns, max)
      case Refused(e) => Refused(e)
      case Got(row, c1) =>
        match ReadRows(data, c1, n - 1, columns, max)
        case Refused(e) => Refused(e)
        case Got(rows, c2) => Got([row] + rows, c2)
  }

  // ---- What can be read back ----

  ghost predicate Fits(f: Field, shape: Shape, max: nat)
    decreases f, 0
  {
    match shape
    case Number(width) => f.Num? && f.n < Pow256(width)
    case Flag => f.Num? && f.n <= 1
    case Text => f.Chars? && FitsText(f.text, max)
    case Short(bound) => f.Chars? && FitsText(f.text, Min(bound, max))
    case NameText(optional) => f.Chars? && FitsText(f.text, max) && ((optional && f.text == []) || IsCanonical(f.text))
    case SubjectText => f.About? && FitsSubject(f.subject, max)
    case Table(bound, columns) => f.Rows? && |f.rows| <= Min(bound, 0xFFFF_FFFF) && FitsRows(f.rows, columns, max)
  }

  ghost predicate FitsText(text: Bytes, max: int) { |text| <= Min(max, 0xFFFF_FFFF) }

  ghost predicate FitsSubject(s: Subject, max: nat) {
    FitsText(Render(s), max) && (s == NOBODY || (s.Valid() && IsCanonical(s.name)))
  }

  ghost predicate FitsFields(fields: seq<Field>, columns: seq<Shape>, max: nat)
    decreases fields, 0
  {
    |fields| == |columns| && forall i :: 0 <= i < |fields| ==> Fits(fields[i], columns[i], max)
  }

  ghost predicate FitsRow(row: Row, columns: seq<Shape>, max: nat)
    decreases row, 0
  {
    FitsFields(row.fields, columns, max)
  }

  ghost predicate FitsRows(rows: seq<Row>, columns: seq<Shape>, max: nat)
    decreases rows, 0
  {
    forall i :: 0 <= i < |rows| ==> FitsRow(rows[i], columns, max)
  }

  // The text stands in the buffer from there on.
  ghost predicate At(data: Bytes, position: nat, text: Bytes) {
    position + |text| <= |data| && data[position..position + |text|] == text
  }

  lemma AtSplit(data: Bytes, position: nat, a: Bytes, b: Bytes)
    requires At(data, position, a + b)
    ensures At(data, position, a) && At(data, position + |a|, b)
  {
    var both := data[position..position + |a + b|];
    assert both[..|a|] == a && both[|a|..] == b;
  }

  lemma {:induction false} NumberRead(data: Bytes, position: nat, n: nat, width: nat)
    requires n < Pow256(width) && At(data, position, Put(n, width))
    ensures ReadNumber(data, Cursor(position, true), width) == (n, Cursor(position + width, true))
    decreases width
  {
    if width > 0 {
      AtSplit(data, position, [(n % 256) as Byte], Put(n / 256, width - 1));
      assert data[position] == data[position..position + 1][0];
      NumberRead(data, position + 1, n / 256, width - 1);
    }
  }

  lemma ByteRead(data: Bytes, position: nat, n: nat)
    requires n < 256 && At(data, position, Put(n, BYTE))
    ensures ReadByte(data, Cursor(position, true)) == (n as Byte, Cursor(position + 1, true))
  {
    assert Put(n, BYTE) == [(n % 256) as Byte];
    assert data[position] == data[position..position + 1][0];
  }

  lemma TextRead(data: Bytes, position: nat, text: Bytes, max: nat)
    requires FitsText(text, max) && At(data, position, WriteText(text))
    ensures ReadText(data, Cursor(position, true), max) == (text, Cursor(position + |WriteText(text)|, true))
  {
    Widths();
    AtSplit(data, position, Put(|text|, WORD), text);
    NumberRead(data, position, |text|, WORD);
  }

  lemma CountRead(data: Bytes, position: nat, n: nat, bound: nat)
    requires n <= Min(bound, 0xFFFF_FFFF) && At(data, position, Put(n, WORD))
    ensures ReadCount(data, Cursor(position, true), bound) == (n, Cursor(position + WORD, true))
  {
    Widths();
    NumberRead(data, position, n, WORD);
  }

  lemma CodedRead(data: Bytes, position: nat, code: nat, text: Bytes, s: Subject, max: nat, parse: (nat, Bytes) -> Option<Subject>)
    requires code < 256 && FitsText(text, max) && At(data, position, Put(code, BYTE) + WriteText(text))
    requires parse(code, text) == Some(s)
    ensures ReadCoded(data, Cursor(position, true), max, parse) == (s, Cursor(position + 1 + |WriteText(text)|, true))
  {
    AtSplit(data, position, Put(code, BYTE), WriteText(text));
    ByteRead(data, position, code);
    TextRead(data, position + 1, text, max);
  }

  lemma CodedSubject(s: Subject, max: nat) returns (code: nat, text: Bytes)
    requires FitsSubject(s, max)
    ensures code < 256 && FitsText(text, max) && SubjectOf(code, text) == Some(s)
    ensures WriteField(About(s), SubjectText) == Put(code, BYTE) + WriteText(text)
  {
    code, text := KindCode(s.kind), Render(s);
    if s != NOBODY {
      SubjectRoundTrip(s);
    }
  }

  // A field that is not a table reads back.
  lemma PlainRead(data: Bytes, position: nat, f: Field, shape: Shape, max: nat)
    requires !shape.Table? && Fits(f, shape, max) && At(data, position, WriteField(f, shape))
    ensures ReadField(data, Cursor(position, true), shape, max) == Got(f, Cursor(position + |WriteField(f, shape)|, true))
  {
    match shape {
      case Number(width) => NumberRead(data, position, f.n, width);
      case Flag => ByteRead(data, position, f.n);
      case Text => TextRead(data, position, f.text, max);
      case Short(bound) => TextRead(data, position, f.text, max);
      case NameText(optional) => TextRead(data, position, f.text, max);
      case SubjectText =>
        var code, text := CodedSubject(f.subject, max);
        CodedRead(data, position, code, text, f.subject, max, SubjectOf);
    }
  }

  // Every field that fits reads back as itself, and leaves the reader right behind it.
  lemma {:induction false} FieldRoundTrip(data: Bytes, position: nat, f: Field, shape: Shape, max: nat)
    requires Fits(f, shape, max) && At(data, position, WriteField(f, shape))
    ensures ReadField(data, Cursor(position, true), shape, max) == Got(f, Cursor(position + |WriteField(f, shape)|, true))
    decreases f, 0
  {
    if shape.Table? {
      var text := WriteRows(f.rows, shape.columns);
      AtSplit(data, position, Put(|f.rows|, WORD), text);
      CountRead(data, position, |f.rows|, shape.bound);
      RowsRoundTrip(data, position + WORD, f.rows, shape.columns, max);
    } else {
      PlainRead(data, position, f, shape, max);
    }
  }

  lemma FieldsUnroll(data: Bytes, c: Cursor, columns: seq<Shape>, max: nat, f: Field, fields: seq<Field>, c1: Cursor, c2: Cursor)
    requires columns != [] && c.position <= |data| && c1.position <= |data|
    requires ReadField(data, c, columns[0], max) == Got(f, c1)
    requires ReadFields(data, c1, columns[1..], max) == Got(fields, c2)
    ensures ReadFields(data, c, columns, max) == Got([f] + fields, c2)
  {
  }

  lemma {:induction false} FieldsRoundTrip(data: Bytes, position: nat, fields: seq<Field>, columns: seq<Shape>, max: nat)
    requires FitsFields(fields, columns, max) && At(data, position, WriteFields(fields, columns))
    ensures ReadFields(data, Cursor(position, true), columns, max)
      == Got(fields, Cursor(position + |WriteFields(fields, columns)|, true))
    decreases fields, 0
  {
    if columns == [] {
      assert fields == [];
    } else {
      var text, later := WriteField(fields[0], columns[0]), WriteFields(fields[1..], columns[1..]);
      AtSplit(data, position, text, later);
      FieldRoundTrip(data, position, fields[0], columns[0], max);
      FieldsRoundTrip(data, position + |text|, fields[1..], columns[1..], max);
      FieldsUnroll(data, Cursor(position, true), columns, max, fields[0], fields[1..],
                   Cursor(position + |text|, true), Cursor(position + |text| + |later|, true));
      assert [fields[0]] + fields[1..] == fields;
    }
  }

  lemma {:induction false} RowRoundTrip(data: Bytes, position: nat, row: Row, columns: seq<Shape>, max: nat)
    requires FitsRow(row, columns, max) && At(data, position, WriteRow(row, columns))
    ensures ReadRow(data, Cursor(position, true), columns, max) == Got(row, Cursor(position + |WriteRow(row, columns)|, true))
    decreases row, 0
  {
    FieldsRoundTrip(data, position, row.fields, columns, max);
  }

  lemma RowsUnroll(data: Bytes, c: Cursor, n: nat, columns: seq<Shape>, max: nat, row: Row, rows: seq<Row>, c1: Cursor, c2: Cursor)
    requires n > 0 && c.ok && c.position <= |data| && c1.position <= |data|
    requires ReadRow(data, c, columns, max) == Got(row, c1)
    requires ReadRows(data, c1, n - 1, columns, max) == Got(rows, c2)
    ensures ReadRows(data, c, n, columns, max) == Got([row] + rows, c2)
  {
  }

  lemma {:induction false} RowsRoundTrip(data: Bytes, position: nat, rows: seq<Row>, columns: seq<Shape>, max: nat)
    requires FitsRows(rows, columns, max) && At(data, position, WriteRows(rows, columns))
    ensures ReadRows(data, Cursor(position, true), |rows|, columns, max)
      == Got(rows, Cursor(position + |WriteRows(rows, columns)|, true))
    decreases rows, 0
  {
    if rows != [] {
      var text, later := WriteRow(rows[0], columns), WriteRows(rows[1..], columns);
      AtSplit(data, position, text, later);
      RowRoundTrip(data, position, rows[0], columns, max);
      RowsRoundTrip(data, position + |text|, rows[1..], columns, max);
      RowsUnroll(data, Cursor(position, true), |rows|, columns, max, rows[0], rows[1..],
                 Cursor(position + |text|, true), Cursor(position + |text| + |later|, true));
      assert [rows[0]] + rows[1..] == rows;
    }
  }

  // Texts that follow one another are read one after the other.
  lemma {:induction false} ReadOn<R>(data: Bytes, position: nat, k: nat, n: nat, text: nat -> Bytes, rest: nat -> Bytes,
                                     read: (nat, nat) -> R)
    requires k <= n && rest(n) == [] && At(data, position, rest(k))
    requires forall j: nat {:trigger text(j)} :: j < n ==> rest(j) == text(j) + rest(j + 1)
    requires forall j: nat, p: nat {:trigger read(p, j), text(j)} :: j < n && At(data, p, text(j)) ==> read(p, j) == read(p + |text(j)|, j + 1)
    ensures read(position, k) == read(position + |rest(k)|, n)
    decreases n - k
  {
    if k < n {
      AtSplit(data, position, text(k), rest(k + 1));
      ReadOn(data, position + |text(k)|, k + 1, n, text, rest, read);
    }
  }

  // ---- A section's entries, each taken over as it is read ----

  // The loop that reads a row and hands it, with the state of the reader, to what keeps it.
  function ReadEntries<S>(data: Bytes, c: Cursor, n: nat, columns: seq<Shape>, max: nat, state: S,
                          admit: (S, Row, bool) -> Result<S>): (r: Outcome<S>)
    requires c.position <= |data|
    ensures r.Got? ==> Within(data, c, r.at)
    decreases n
  {
    if n == 0 || !c.ok then Got(state, c)
    else
      match ReadRow(data, c, columns, max)
      case Refused(e) => Refused(e)
      case Got(row, c1) =>
        match admit(state, row, c1.ok)
        case Err(e) => Refused(e)
        case Ok(next) => ReadEntries(data, c1, n - 1, columns, max, next, admit)
  }

  // Taking rows over one after the other, up to the first that is refused.
  function AdmitAll<S>(state: S, rows: seq<Row>, admit: (S, Row, bool) -> Result<S>): Result<S> {
    if rows == [] then Ok(state)
    else
      match admit(state, rows[0], true)
      case Err(e) => Err(e)
      case Ok(next) => AdmitAll(next, rows[1..], admit)
  }

  function Ended<S>(r: Result<S>, c: Cursor): Outcome<S> {
    match r
    case Err(e) => Refused(e)
    case Ok(s) => Got(s, c)
  }

  lemma EntriesUnroll<S>(data: Bytes, c: Cursor, n: nat, columns: seq<Shape>, max: nat, state: S,
                         admit: (S, Row, bool) -> Result<S>, row: Row, c1: Cursor)
    requires n > 0 && c.ok && c1.ok && c.position <= |data| && c1.position <= |data|
    requires ReadRow(data, c, columns, max) == Got(row, c1)
    ensures ReadEntries(data, c, n, columns, max, state, admit)
      == match admit(state, row, true)
         case Err(e) => Refused(e)
         case Ok(next) => ReadEntries(data, c1, n - 1, columns, max, next, admit)
  {
  }

  lemma {:induction false} EntriesRoundTrip<S>(data: Bytes, position: nat, rows: seq<Row>, columns: seq<Shape>, max: nat,
                                               state: S, admit: (S, Row, bool) -> Result<S>)
    requires FitsRows(rows, columns, max) && At(data, position, WriteRows(rows, columns))
    ensures ReadEntries(data, Cursor(position, true), |rows|, columns, max, state, admit)
      == Ended(AdmitAll(state, rows, admit), Cursor(position + |WriteRows(rows, columns)|, true))
    decreases |rows|
  {
    if rows != [] {
      var text, later := WriteRow(rows[0], columns), WriteRows(rows[1..], columns);
      AtSplit(data, position, text, later);
      RowRoundTrip(data, position, rows[0], columns, max);
      EntriesUnroll(data, Cursor(position, true), |rows|, columns, max, state, admit, rows[0], Cursor(position + |text|, true));
      var next := admit(state, rows[0], true);
      if next.Ok? {
        EntriesRoundTrip(data, position + |text|, rows[1..], columns, max, next.value, admit);
      }
    }
  }

  ghost predicate KeptBy<S(!new)>(kept: S -> bool, admit: (S, Row, bool) -> Result<S>) {
    forall s: S, row, ok :: kept(s) && admit(s, row, ok).Ok? ==> kept(admit(s, row, ok).value)
  }

  // What every admission keeps holds of the state after any bytes were read.
  lemma {:induction false} EntriesKeep<S(!new)>(data: Bytes, c: Cursor, n: nat, columns: seq<Shape>, max: nat, state: S,
                                                admit: (S, Row, bool) -> Result<S>, kept: S -> bool)
    requires c.position <= |data| && KeptBy(kept, admit) && kept(state)
    ensures var r := ReadEntries(data, c, n, columns, max, state, admit); r.Got? ==> kept(r.value)
    decreases n
  {
    if n > 0 && c.ok {
      var row := ReadRow(data, c, columns, max);
      if row.Got? && admit(state, row.value, row.at.ok).Ok? {
        EntriesKeep(data, row.at, n - 1, columns, max, admit(state, row.value, row.at.ok).value, admit, kept);
      }
    }
  }
}
