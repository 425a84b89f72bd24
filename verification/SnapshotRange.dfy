// Whatever the bytes, what a reader accepts without a failure fits the columns it was read by
// (src/persistence/snapshot.cpp:72-210).
module SnapshotRange {
  import opened Base
  import opened LittleEndian
  import opened Model
  import opened SnapshotWire

  // ---- What is read fits ----

  lemma {:induction false} NumberRange(data: Bytes, c: Cursor, width: nat)
    requires c.position <= |data|
    ensures ReadNumber(data, c, width).0 < Pow256(width)
    decreases width
  {
    if width > 0 {
      NumberRange(data, ReadByte(data, c).1, width - 1);
    }
  }

  lemma TextRange(data: Bytes, c: Cursor, max: nat)
    requires c.position <= |data|
    ensures FitsText(ReadText(data, c, max).0, max)
  {
    NumberRange(data, c, WORD);
    Widths();
  }

  lemma KindFound(word: Bytes)
    ensures KindOf(word).Some? ==> KindLabel(KindOf(word).value) == word && KindOf(word).value != NoKind
  {
  }

  // A subject that parses is the one its text renders.
  lemma ParsedRenders(text: Bytes)
    ensures var s := ParseSubject(text);
      s.Some? ==> s.value.Valid() && IsCanonical(s.value.name) && Render(s.value) == text
  {
    var i := FirstColon(text);
    if ParseSubject(text).Some? {
      KindFound(text[..i]);
      assert text == text[..i] + [text[i]] + text[i + 1..];
    }
  }

  lemma SubjectRange(data: Bytes, c: Cursor, max: nat)
    requires c.position <= |data| && FitsText(Render(NOBODY), max)
    ensures var (s, c1) := ReadSubject(data, c, max); c1.ok ==> FitsSubject(s, max)
  {
    var (code, c1) := ReadByte(data, c);
    TextRange(data, c1, max);
    ParsedRenders(ReadText(data, c1, max).0);
  }

  // No column holds a subject, whose absence is written as a word of five letters.
  predicate NoSubjects(columns: seq<Shape>)
    decreases columns
  {
    forall i :: 0 <= i < |columns| ==> NoSubject(columns[i])
  }

  predicate NoSubject(shape: Shape)
    decreases shape
  {
    match shape
    case SubjectText => false
    case Table(bound, columns) => NoSubjects(columns)
    case _ => true
  }

  ghost predicate Readable(columns: seq<Shape>, max: nat) { NoSubjects(columns) || FitsText(Render(NOBODY), max) }

  lemma {:induction false} FieldRange(data: Bytes, c: Cursor, shape: Shape, max: nat)
    requires c.position <= |data| && Readable([shape], max)
    ensures var r := ReadField(data, c, shape, max); r.Got? && r.at.ok ==> Fits(r.value, shape, max)
    decreases shape, 0
  {
    assert NoSubject([shape][0]) || FitsText(Render(NOBODY), max);
    match shape
    case Number(width) => NumberRange(data, c, width);
    case Flag =>
    case Text => TextRange(data, c, max);
    case Short(bound) => TextRange(data, c, max);
    case NameText(optional) => TextRange(data, c, max);
    case SubjectText => SubjectRange(data, c, max);
    case Table(bound, columns) =>
      var (n, c1) := ReadCount(data, c, bound);
      NumberRange(data, c, WORD);
      Widths();
      RowsRange(data, c1, n, columns, max);
  }

  lemma {:induction false} FieldsRange(data: Bytes, c: Cursor, columns: seq<Shape>, max: nat)
    requires c.position <= |data| && Readable(columns, max)
    ensures var r := ReadFields(data, c, columns, max); r.Got? && r.at.ok ==> FitsFields(r.value, columns, max)
    decreases columns, 0
  {
    if columns != [] {
      var first := ReadField(data, c, columns[0], max);
      FieldRange(data, c, columns[0], max);
      if first.Got? {
        FieldsRange(data, first.at, columns[1..], max);
      }
    }
  }

  lemma {:induction false} RowRange(data: Bytes, c: Cursor, columns: seq<Shape>, max: nat)
    requires c.position <= |data| && Readable(columns, max)
    ensures var r := ReadRow(data, c, columns, max); r.Got? && r.at.ok ==> FitsRow(r.value, columns, max)
    decreases columns, 1
  {
    FieldsRange(data, c, columns, max);
  }

  lemma {:induction false} RowsRange(data: Bytes, c: Cursor, n: nat, columns: seq<Shape>, max: nat)
    requires c.position <= |data| && Readable(columns, max)
    ensures var r := ReadRows(data, c, n, columns, max);
      r.Got? && r.at.ok ==> FitsRows(r.value, columns, max) && |r.value| == n
    decreases columns, 2 + n
  {
    if n > 0 && c.ok {
      var row := ReadRow(data, c, columns, max);
      RowRange(data, c, columns, max);
      if row.Got? {
        RowsRange(data, row.at, n - 1, columns, max);
      }
    }
  }

  // ---- Entries that are taken over as they are read ----

  // What holds of the state and the number of entries to come stays so when a fitting row is taken over.
  ghost predicate Advances<S(!new)>(kept: (S, nat) -> bool, columns: seq<Shape>, max: nat, admit: (S, Row, bool) -> Result<S>) {
    forall s: S, m: nat, row: Row {:trigger admit(s, row, true), kept(s, m)} ::
      m > 0 && kept(s, m) && FitsRow(row, columns, max) && admit(s, row, true).Ok? ==> kept(admit(s, row, true).value, m - 1)
  }

  lemma {:induction false} EntriesRange<S(!new)>(data: Bytes, c: Cursor, n: nat, columns: seq<Shape>, max: nat, state: S,
                                                 admit: (S, Row, bool) -> Result<S>, kept: (S, nat) -> bool)
    requires c.position <= |data| && Readable(columns, max) && Advances(kept, columns, max, admit) && kept(state, n)
    ensures var r := ReadEntries(data, c, n, columns, max, state, admit); r.Got? && r.at.ok ==> kept(r.value, 0)
    decreases n
  {
    if n > 0 && c.ok {
      var row := ReadRow(data, c, columns, max);
      RowRange(data, c, columns, max);
      if row.Got? && row.at.ok && admit(state, row.value, true).Ok? {
        EntriesRange(data, row.at, n - 1, columns, max, admit(state, row.value, true).value, admit, kept);
      } else if row.Got? && !row.at.ok {
        StaysBroken(data, row.at, n - 1, columns, max, admit(state, row.value, false), admit);
      }
    }
  }

  lemma StaysBroken<S>(data: Bytes, c: Cursor, n: nat, columns: seq<Shape>, max: nat, state: Result<S>,
                       admit: (S, Row, bool) -> Result<S>)
    requires c.position <= |data| && !c.ok
    ensures state.Ok? ==> ReadEntries(data, c, n, columns, max, state.value, admit) == Got(state.value, c)
  {
  }
}
