// What stands between brackets or braces: parts with white space around them, separated by commas
// (src/core/json.cpp). One induction each way serves arrays and objects, and any writer of either.
module JsonRows {
  import opened Base
  import opened JsonText
  import opened JsonGrammar
  import opened JsonStrings

  predicate IsWhite(c: Byte) { c == Code(' ') || c == Code('\t') || c == Code('\n') || c == Code('\r') }

  ghost predicate White(s: Bytes) { forall i :: 0 <= i < |s| ==> IsWhite(s[i]) }

  lemma WhiteSkips(white: Bytes, s: Bytes)
    requires White(white)
    ensures Skip(white + s) == Skip(s)
  {
    SkipSpaces(white, s);
  }

  lemma SkipStays(s: Bytes)
    requires s != [] && !IsWhite(s[0])
    ensures Skip(s) == s
  {
  }

  // What skipping leaves out is white space, and what it stops at is not.
  lemma {:induction false} SkipSplits(s: Bytes) returns (white: Bytes)
    ensures White(white) && s == white + Skip(s)
    ensures Skip(s) != [] ==> !IsWhite(Skip(s)[0])
  {
    if s != [] && IsWhite(s[0]) {
      var more := SkipSplits(s[1..]);
      white := [s[0]] + more;
      assert s == [s[0]] + s[1..];
    } else {
      white := [];
    }
  }

  // ---- Rows ----

  // A part behind its white space, and the white space after it.
  datatype Slot = Slot(front: Bytes, after: Bytes)

  // The parts, the commas between them and the closing bracket.
  function Row(slots: seq<Slot>, close: Byte): Bytes
    requires slots != []
    decreases |slots|, 1
  {
    slots[0].front + (slots[0].after + RowAfter(slots, close))
  }

  function RowAfter(slots: seq<Slot>, close: Byte): Bytes
    requires slots != []
    decreases |slots|, 0
  {
    if |slots| == 1 then [close] else [Code(',')] + Row(slots[1..], close)
  }

  datatype Got<+T> = Got(part: T, rest: Bytes, nodes: nat)

  // How the parser goes along a row: `read` reads one part, `loop` goes on behind what has been read. Kept
  // abstract, so that the inductions follow the text.
  datatype Reader<!T> = Reader(read: (Bytes, nat) -> Result<Got<T>>, loop: (Bytes, nat, seq<T>) -> Result<Parsed>, close: Byte,
                               admits: (seq<T>, T) -> bool, wrap: seq<T> -> JsonValue, weigh: T -> nat)

  ghost predicate Loops<T>(m: Reader<T>, s: Bytes, nodes: nat, acc: seq<T>) {
    match m.read(s, nodes)
    case Err(_) => m.loop(s, nodes, acc).Err?
    case Ok(Got(part, rest, count)) =>
      var u := Skip(rest);
      if !m.admits(acc, part) || u == [] then m.loop(s, nodes, acc).Err?
      else if u[0] == COMMA then m.loop(s, nodes, acc) == m.loop(u[1..], count, acc + [part])
      else if u[0] == m.close then m.loop(s, nodes, acc) == Ok(Parsed(m.wrap(acc + [part]), u[1..], count))
      else m.loop(s, nodes, acc).Err?
  }

  ghost predicate Looping<T(!new)>(m: Reader<T>) {
    && m.close != Code(',') && !IsWhite(m.close)
    && forall s, nodes: nat, acc {:trigger Loops(m, s, nodes, acc)} :: Loops(m, s, nodes, acc)
  }

  function Total<T>(weigh: T -> nat, parts: seq<T>): nat {
    if parts == [] then 0 else weigh(parts[0]) + Total(weigh, parts[1..])
  }

  ghost predicate AdmitsAll<T>(m: Reader<T>, acc: seq<T>, parts: seq<T>)
    decreases |parts|
  {
    parts == [] || (m.admits(acc, parts[0]) && AdmitsAll(m, acc + [parts[0]], parts[1..]))
  }

  lemma OneOn<T>(acc: seq<T>, parts: seq<T>)
    requires parts != []
    ensures acc + parts == (acc + [parts[0]]) + parts[1..]
    ensures |parts| == 1 ==> acc + parts == acc + [parts[0]]
  {
    assert parts == [parts[0]] + parts[1..];
  }

  // ---- A row is read ----

  // The part is read from its slot, whatever comes after the separator.
  ghost predicate Reads<T>(m: Reader<T>, slot: Slot, part: T, max: nat) {
    forall nodes: nat, tail {:trigger m.read(slot.front + (slot.after + tail), nodes)} ::
      tail != [] && (tail[0] == Code(',') || tail[0] == m.close) && nodes + m.weigh(part) <= max ==>
        m.read(slot.front + (slot.after + tail), nodes) == Ok(Got(part, slot.after + tail, nodes + m.weigh(part)))
  }

  ghost predicate ReadsAll<T>(m: Reader<T>, slots: seq<Slot>, parts: seq<T>, max: nat) {
    |slots| == |parts| && forall i :: 0 <= i < |parts| ==> White(slots[i].after) && Reads(m, slots[i], parts[i], max)
  }

  lemma SlotRead<T(!new)>(m: Reader<T>, slot: Slot, part: T, tail: Bytes, nodes: nat, max: nat, acc: seq<T>)
    requires Looping(m) && White(slot.after) && Reads(m, slot, part, max) && m.admits(acc, part)
    requires tail != [] && (tail[0] == Code(',') || tail[0] == m.close) && nodes + m.weigh(part) <= max
    ensures m.loop(slot.front + (slot.after + tail), nodes, acc)
      == if tail[0] == Code(',') then m.loop(tail[1..], nodes + m.weigh(part), acc + [part])
         else Ok(Parsed(m.wrap(acc + [part]), tail[1..], nodes + m.weigh(part)))
  {
    var s := slot.front + (slot.after + tail);
    assert m.read(s, nodes) == Ok(Got(part, slot.after + tail, nodes + m.weigh(part)));
    assert Loops(m, s, nodes, acc);
    WhiteSkips(slot.after, tail);
    SkipStays(tail);
  }

  lemma RowHead(slots: seq<Slot>, close: Byte, rest: Bytes)
    requires slots != []
    ensures Row(slots, close) + rest == slots[0].front + (slots[0].after + (RowAfter(slots, close) + rest))
    ensures RowAfter(slots, close) + rest == if |slots| == 1 then [close] + rest else [Code(',')] + (Row(slots[1..], close) + rest)
  {
    ThreeParts(slots[0].front, slots[0].after, RowAfter(slots, close), rest);
    if |slots| > 1 {
      Regroup([Code(',')], Row(slots[1..], close), rest);
    }
  }

  lemma ThreeParts(a: Bytes, b: Bytes, c: Bytes, rest: Bytes)
    ensures (a + (b + c)) + rest == a + (b + (c + rest))
  {
    Regroup(b, c, rest);
    Regroup(a, b + c, rest);
  }

  lemma {:induction false} RowRead<T(!new)>(m: Reader<T>, slots: seq<Slot>, parts: seq<T>, rest: Bytes, nodes: nat, max: nat, acc: seq<T>)
    requires Looping(m) && slots != [] && ReadsAll(m, slots, parts, max) && AdmitsAll(m, acc, parts)
    requires nodes + Total(m.weigh, parts) <= max
    ensures m.loop(Row(slots, m.close) + rest, nodes, acc)
      == Ok(Parsed(m.wrap(acc + parts), rest, nodes + Total(m.weigh, parts)))
    decreases |slots|
  {
    RowHead(slots, m.close, rest);
    SlotRead(m, slots[0], parts[0], RowAfter(slots, m.close) + rest, nodes, max, acc);
    OneOn(acc, parts);
    if |slots| > 1 {
      RowRead(m, slots[1..], parts[1..], rest, nodes + m.weigh(parts[0]), max, acc + [parts[0]]);
    }
  }

  // A whole row, from its beginning.
  lemma WholeRowRead<T(!new)>(m: Reader<T>, slots: seq<Slot>, parts: seq<T>, rest: Bytes, nodes: nat, max: nat)
    requires Looping(m) && slots != [] && ReadsAll(m, slots, parts, max) && AdmitsAll(m, [], parts)
    requires nodes + Total(m.weigh, parts) <= max
    ensures m.loop(Row(slots, m.close) + rest, nodes, []) == Ok(Parsed(m.wrap(parts), rest, nodes + Total(m.weigh, parts)))
  {
    RowRead(m, slots, parts, rest, nodes, max, []);
    assert [] + parts == parts;
  }

  // ---- Whatever is read is a row ----

  // What is read from a text is a part in front of it, counted within the bound.
  ghost predicate Finds<T>(m: Reader<T>, fits: (Bytes, T) -> bool, s: Bytes, nodes: nat, max: nat) {
    match m.read(s, nodes)
    case Err(_) => true
    case Ok(Got(part, rest, count)) =>
      count == nodes + m.weigh(part) <= max && |rest| < |s| && exists front :: s == front + rest && fits(front, part)
  }

  ghost predicate FindsAll<T>(m: Reader<T>, fits: (Bytes, T) -> bool, size: nat, max: nat) {
    forall s, nodes: nat {:trigger Finds(m, fits, s, nodes, max)} :: |s| <= size ==> Finds(m, fits, s, nodes, max)
  }

  ghost predicate FitAll<T>(fits: (Bytes, T) -> bool, slots: seq<Slot>, parts: seq<T>) {
    |slots| == |parts| && forall i :: 0 <= i < |parts| ==> White(slots[i].after) && fits(slots[i].front, parts[i])
  }

  lemma SlotFound<T(!new)>(m: Reader<T>, fits: (Bytes, T) -> bool, s: Bytes, nodes: nat, max: nat, acc: seq<T>)
    returns (slot: Slot, part: T, tail: Bytes)
    requires Looping(m) && Finds(m, fits, s, nodes, max) && m.loop(s, nodes, acc).Ok?
    ensures White(slot.after) && fits(slot.front, part) && m.admits(acc, part)
    ensures s == slot.front + (slot.after + tail) && |tail| < |s| && nodes + m.weigh(part) <= max
    ensures tail != [] && (tail[0] == Code(',') || tail[0] == m.close)
    ensures m.loop(s, nodes, acc)
      == if tail[0] == Code(',') then m.loop(tail[1..], nodes + m.weigh(part), acc + [part])
         else Ok(Parsed(m.wrap(acc + [part]), tail[1..], nodes + m.weigh(part)))
  {
    assert Loops(m, s, nodes, acc);
    part, tail := m.read(s, nodes).value.part, Skip(m.read(s, nodes).value.rest);
    var after := SkipSplits(m.read(s, nodes).value.rest);
    var front :| s == front + m.read(s, nodes).value.rest && fits(front, part);
    slot := Slot(front, after);
  }

  lemma {:induction false} RowFound<T(!new)>(m: Reader<T>, fits: (Bytes, T) -> bool, s: Bytes, nodes: nat, max: nat, acc: seq<T>)
    returns (slots: seq<Slot>, parts: seq<T>, rest: Bytes)
    requires Looping(m) && FindsAll(m, fits, |s|, max) && m.loop(s, nodes, acc).Ok?
    ensures slots != [] && FitAll(fits, slots, parts) && AdmitsAll(m, acc, parts)
    ensures s == Row(slots, m.close) + rest && nodes + Total(m.weigh, parts) <= max
    ensures m.loop(s, nodes, acc) == Ok(Parsed(m.wrap(acc + parts), rest, nodes + Total(m.weigh, parts)))
    decreases |s|
  {
    assert Finds(m, fits, s, nodes, max);
    var slot, part, tail := SlotFound(m, fits, s, nodes, max, acc);
    if tail[0] == Code(',') {
      var others, more: seq<T>, behind := RowFound(m, fits, tail[1..], nodes + m.weigh(part), max, acc + [part]);
      slots, parts, rest := [slot] + others, [part] + more, behind;
      assert slots[1..] == others && parts[1..] == more;
      assert tail == [tail[0]] + tail[1..];
    } else {
      slots, parts, rest := [slot], [part], tail[1..];
      assert tail == [tail[0]] + rest;
      assert parts[1..] == [];
    }
    RowHead(slots, m.close, rest);
    OneOn(acc, parts);
  }

  lemma WholeRowFound<T(!new)>(m: Reader<T>, fits: (Bytes, T) -> bool, s: Bytes, nodes: nat, max: nat)
    returns (slots: seq<Slot>, parts: seq<T>, rest: Bytes)
    requires Looping(m) && FindsAll(m, fits, |s|, max) && m.loop(s, nodes, []).Ok?
    ensures slots != [] && FitAll(fits, slots, parts) && AdmitsAll(m, [], parts)
    ensures s == Row(slots, m.close) + rest && nodes + Total(m.weigh, parts) <= max
    ensures m.loop(s, nodes, []) == Ok(Parsed(m.wrap(parts), rest, nodes + Total(m.weigh, parts)))
  {
    slots, parts, rest := RowFound(m, fits, s, nodes, max, []);
    assert [] + parts == parts;
  }
}
