// Parsing what was written gives the value back, for every layout and whatever follows it: the writer's text
// is one of the value's spellings.
module JsonRoundTrip {
  import opened Base
  import opened Checked
  import opened Decimals
  import opened JsonText
  import opened JsonGrammar
  import opened JsonStrings
  import opened JsonRows
  import opened JsonSpelling
  import opened JsonReading
  import opened JsonAccepted

  // A double whose text says it is one, and reads back as itself. An integral double is shown as an integer
  // and does not.
  ghost predicate Survives(d: real, floats: Floats) { SpellsDouble(floats.show(d), d, floats) }

  // Integers of 64 bits, distinct keys, and doubles that survive.
  ghost predicate Writable(v: JsonValue, floats: Floats)
    decreases v
  {
    match v
    case Int(i) => FitsSigned(i, I64_MAX)
    case Double(d) => Survives(d, floats)
    case Array(items) => forall i :: 0 <= i < |items| ==> Writable(items[i], floats)
    case Object(members) =>
      && (forall i :: 0 <= i < |members| ==> Writable(members[i].value, floats))
      && KeysApart(members)
    case _ => true
  }

  // ---- Leaves ----

  lemma HexSpells(w: Bytes, n: nat)
    requires n < 0x80 && w == [BACKSLASH, LETTER_U] + Hex4(n)
    ensures IsScalarEscape(w, Utf8(n))
  {
    Hex4RoundTrip(n, []);
    FourExactly(Hex4(n), n, []);
    assert w[2..] == Hex4(n);
  }

  lemma ShortSpells(c: Byte, d: Byte)
    requires SimpleEscape(c) == Some(d)
    ensures IsShort([BACKSLASH, c], [d])
  {
    ShortExactly(c, d);
  }

  lemma ByteSpells(c: Byte)
    ensures IsPiece(Piece(EscapeByte(c), [c]))
  {
    var w := EscapeByte(c);
    if w != [c] {
      if SimpleEscape(w[1]) == Some(c) {
        ShortSpells(w[1], c);
      } else {
        HexSpells(w, c as int);
      }
    }
  }

  lemma {:induction false} EscapeSpells(text: Bytes) returns (pieces: seq<Piece>)
    ensures ArePieces(pieces) && Texts(pieces) == Escape(text) && Meanings(pieces) == text
  {
    if text == [] {
      pieces := [];
    } else {
      var more := EscapeSpells(text[1..]);
      ByteSpells(text[0]);
      pieces := [Piece(EscapeByte(text[0]), [text[0]])] + more;
      assert pieces[1..] == more;
    }
  }

  lemma QuotedSpells(text: Bytes)
    ensures SpellsText(Quoted(text), text)
  {
    var pieces := EscapeSpells(text);
    assert Quoted(text) == [Code('"')] + Texts(pieces) + [Code('"')];
  }

  // Any byte string, escaped, reads back as itself.
  lemma QuotedRoundTrip(text: Bytes, rest: Bytes)
    ensures ReadString(Quoted(text) + rest) == Ok(Read(text, rest))
  {
    QuotedSpells(text);
    StringRead(Quoted(text), text, rest);
  }

  lemma IntSpells(i: int)
    requires FitsSigned(i, I64_MAX)
    ensures SpellsInt(ShowInt(i), i)
  {
    var digits := Digits(if i < 0 then -i else i);
    DigitsDecimal(if i < 0 then -i else i);
    RunExactly(digits);
    assert IsDigit(digits[0]);
    assert i < 0 ==> ShowInt(i)[1..] == digits;
  }

  lemma LeafSpells(v: JsonValue, style: Style, level: nat)
    requires IsLeaf(v) && Writable(v, style.floats)
    ensures Spells(Write(v, style, level), v, style.floats)
  {
    match v
    case Int(i) => IntSpells(i);
    case Str(text) => QuotedSpells(text);
    case _ =>
  }

  // ---- Rows ----

  lemma {:induction false} SpacesAreWhite(n: int)
    ensures White(Spaces(n))
  {
    if n > 0 {
      SpacesAreWhite(n - 1);
    }
  }

  lemma IndentIsWhite(style: Style, level: int)
    ensures White(Indent(style, level))
  {
    SpacesAreWhite(style.indent * level);
  }

  // What the writer puts behind a part: nothing before a comma, the indentation before the closing bracket.
  function Behind(style: Style, level: nat, last: bool): Bytes { if last then Indent(style, level) else [] }

  lemma {:induction false} ItemsAreRow(items: seq<JsonValue>, style: Style, level: nat) returns (slots: seq<Slot>)
    requires items != []
    ensures |slots| == |items| && WriteItems(items, style, level, true) == Row(slots, Code(']'))
    ensures forall i :: 0 <= i < |items| ==>
      slots[i] == Slot(Indent(style, level + 1) + Write(items[i], style, level + 1), Behind(style, level, i == |items| - 1))
    decreases |items|
  {
    var front := Indent(style, level + 1) + Write(items[0], style, level + 1);
    if |items| == 1 {
      slots := [Slot(front, Indent(style, level))];
    } else {
      var more := ItemsAreRow(items[1..], style, level);
      slots := [Slot(front, [])] + more;
      assert slots[1..] == more;
      assert WriteItems(items[1..], style, level, false) == [COMMA] + WriteItems(items[1..], style, level, true);
    }
    Regroup(Indent(style, level + 1), Write(items[0], style, level + 1), WriteItems(items[1..], style, level, false));
  }

  lemma {:induction false} MembersAreRow(members: seq<Member>, style: Style, level: nat) returns (slots: seq<Slot>)
    requires members != []
    ensures |slots| == |members| && WriteMembers(members, style, level, true) == Row(slots, Code('}'))
    ensures forall i :: 0 <= i < |members| ==>
      slots[i] == Slot(Indent(style, level + 1) + WriteMember(members[i], style, level + 1), Behind(style, level, i == |members| - 1))
    decreases |members|
  {
    var front := Indent(style, level + 1) + WriteMember(members[0], style, level + 1);
    if |members| == 1 {
      slots := [Slot(front, Indent(style, level))];
    } else {
      var more := MembersAreRow(members[1..], style, level);
      slots := [Slot(front, [])] + more;
      assert slots[1..] == more;
      assert WriteMembers(members[1..], style, level, false) == [COMMA] + WriteMembers(members[1..], style, level, true);
    }
    Regroup(Indent(style, level + 1), WriteMember(members[0], style, level + 1), WriteMembers(members[1..], style, level, false));
  }

  lemma BehindIsWhite(style: Style, level: nat, last: bool)
    ensures White(Behind(style, level, last))
  {
    IndentIsWhite(style, level);
  }

  lemma ItemSpells(v: JsonValue, style: Style, level: nat)
    requires Spells(Write(v, style, level), v, style.floats)
    ensures SpellsItem(Indent(style, level) + Write(v, style, level), v, style.floats)
  {
    IndentIsWhite(style, level);
  }

  lemma MemberSpells(m: Member, style: Style, level: nat)
    requires Spells(Write(m.value, style, level), m.value, style.floats)
    ensures SpellsMember(Indent(style, level) + WriteMember(m, style, level), m, style.floats)
  {
    IndentIsWhite(style, level);
    QuotedSpells(m.key);
    var l := Line(Indent(style, level), Quoted(m.key), [], Gap(style), Write(m.value, style, level));
    assert [] + ([COLON] + (l.right + l.value)) == [COLON] + (l.right + l.value);
    assert LineText(l) == Indent(style, level) + WriteMember(m, style, level);
  }

  // What the writer writes spells the value.
  lemma {:induction false} WriteSpells(v: JsonValue, style: Style, level: nat)
    requires Writable(v, style.floats)
    ensures Spells(Write(v, style, level), v, style.floats)
    decreases v, 0
  {
    match v
    case Array(items) =>
      if items == [] {
        EmptySpells(v, style.floats);
      } else {
        ItemsSpell(items, style, level);
      }
    case Object(members) =>
      if members == [] {
        EmptySpells(v, style.floats);
      } else {
        MembersSpell(members, style, level);
      }
    case _ => LeafSpells(v, style, level);
  }

  lemma EmptySpells(v: JsonValue, floats: Floats)
    requires v == Array([]) || v == Object([])
    ensures Spells(if v.Array? then [OPEN_BRACKET, CLOSE_BRACKET] else [OPEN_BRACE, CLOSE_BRACE], v, floats)
  {
    var close := if v.Array? then CLOSE_BRACKET else CLOSE_BRACE;
    assert [] + [close] == [close];
    assert Closed([close], close);
    ContainerFound(if v.Array? then OPEN_BRACKET else OPEN_BRACE, [close], [], v, floats);
  }

  lemma {:induction false} ItemsSpell(items: seq<JsonValue>, style: Style, level: nat)
    requires items != [] && forall i :: 0 <= i < |items| ==> Writable(items[i], style.floats)
    ensures Spells(Write(Array(items), style, level), Array(items), style.floats)
    decreases items, 1
  {
    var slots := ItemsAreRow(items, style, level);
    forall i | 0 <= i < |items| ensures White(slots[i].after) && SpellsItem(slots[i].front, items[i], style.floats) {
      BehindIsWhite(style, level, i == |items| - 1);
      WriteSpells(items[i], style, level + 1);
      ItemSpells(items[i], style, level + 1);
    }
    var row := WriteItems(items, style, level, true);
    assert ItemSlots(slots, items, style.floats) && SpellsItems(row, items, style.floats);
    ContainerFound(OPEN_BRACKET, row, [], Array(items), style.floats);
  }

  lemma {:induction false} MembersSpell(members: seq<Member>, style: Style, level: nat)
    requires members != [] && KeysApart(members) && forall i :: 0 <= i < |members| ==> Writable(members[i].value, style.floats)
    ensures Spells(Write(Object(members), style, level), Object(members), style.floats)
    decreases members, 1
  {
    var slots := MembersAreRow(members, style, level);
    forall i | 0 <= i < |members| ensures White(slots[i].after) && SpellsMember(slots[i].front, members[i], style.floats) {
      BehindIsWhite(style, level, i == |members| - 1);
      WriteSpells(members[i].value, style, level + 1);
      MemberSpells(members[i], style, level + 1);
    }
    var row := WriteMembers(members, style, level, true);
    assert MemberSlots(slots, members, style.floats) && SpellsMembers(row, members, style.floats);
    ContainerFound(OPEN_BRACE, row, [], Object(members), style.floats);
  }

  // ---- Round trips ----

  // In the middle of a text: the value comes back, what follows it is left and its values are counted.
  lemma ValueRoundTrip(v: JsonValue, style: Style, level: nat, rest: Bytes, depth: nat, nodes: nat, g: Grammar)
    requires Writable(v, style.floats) && g.floats == style.floats && EndsNumber(rest)
    requires depth + Height(v) <= g.maxDepth && nodes + Count(v) <= g.maxNodes
    ensures ParseValue(Write(v, style, level) + rest, depth, nodes, g) == Ok(Parsed(v, rest, nodes + Count(v)))
  {
    WriteSpells(v, style, level);
    ValueRead(Write(v, style, level), v, rest, depth, nodes, g);
  }

  // Every value that the writer can write comes back from its text, whatever the layout, with the order of
  // its members, as long as it keeps the parser's limits.
  lemma DocumentRoundTrip(v: JsonValue, style: Style, g: Grammar)
    requires Writable(v, style.floats) && g.floats == style.floats
    requires Height(v) <= g.maxDepth && Count(v) <= g.maxNodes && |Write(v, style, 0)| <= g.maxBytes
    ensures ParseDocument(Write(v, style, 0), g) == Ok(v)
  {
    WriteSpells(v, style, 0);
    WholeText(Write(v, style, 0), v, style.floats);
    AcceptsExactly(Write(v, style, 0), v, g);
  }

  lemma WholeText(w: Bytes, v: JsonValue, floats: Floats)
    requires Spells(w, v, floats)
    ensures SpellsDocument(w, v, floats)
  {
    assert w == [] + (w + []);
  }

  // A double comes back exactly when its text is not that of an integer and reads as the same number.
  lemma DoubleSurvivesExactly(d: real, style: Style, g: Grammar)
    requires SpellsNumber(style.floats.show(d)) && g.floats == style.floats
    requires 1 <= g.maxNodes && |style.floats.show(d)| <= g.maxBytes
    ensures ParseDocument(Write(Double(d), style, 0), g) == Ok(Double(d)) <==> Survives(d, style.floats)
  {
    var text := style.floats.show(d);
    RunExactly(text);
    NumberCharExactly(text[0]);
    SkipStays(text);
    NumberSelected(text, 0, 0, g);
    assert text + [] == text;
    TokenRead(text, [], g.floats);
    DoubleExactly(text, d, g.floats);
  }

  // A double that is shown without a point or an exponent comes back as the integer of that text.
  lemma IntegralDoubleTurnsWhole(i: int, d: real, style: Style, g: Grammar)
    requires FitsSigned(i, I64_MAX) && style.floats.show(d) == ShowInt(i)
    requires g.floats == style.floats && 1 <= g.maxNodes && |ShowInt(i)| <= g.maxBytes
    ensures ParseDocument(Write(Double(d), style, 0), g) == Ok(Int(i))
  {
    assert Write(Double(d), style, 0) == Write(Int(i), style, 0);
    DocumentRoundTrip(Int(i), style, g);
  }
}
