// The parser accepts a text exactly when it spells a value within the limits, and then gives that value
// (src/core/json.cpp).
module JsonAccepted {
  import opened Base
  import opened Decimals
  import opened JsonText
  import opened JsonGrammar
  import opened JsonStrings
  import opened JsonRows
  import opened JsonSpelling
  import opened JsonReading

  // ---- Nothing else is read ----

  // What is read was spelled in front of the text, is as deep as it may be and counted within the bound.
  ghost predicate Understood(s: Bytes, r: Result<Parsed>, depth: nat, nodes: nat, g: Grammar) {
    match r
    case Err(_) => true
    case Ok(Parsed(v, rest, count)) =>
      && count == nodes + Count(v) <= g.maxNodes && depth + Height(v) <= g.maxDepth && |rest| < |s|
      && exists w :: s == w + rest && Spells(w, v, g.floats)
  }

  lemma LiteralFound(s: Bytes, literal: Bytes, v: JsonValue, depth: nat, nodes: nat, g: Grammar)
    requires depth <= g.maxDepth && nodes < g.maxNodes && literal != [] && IsLeaf(v) && Spells(literal, v, g.floats)
    ensures Understood(s, Literal(s, literal, v, nodes + 1), depth, nodes, g)
  {
    if literal <= s {
      assert s == literal + s[|literal|..];
    }
  }

  lemma TextFound(s: Bytes, depth: nat, nodes: nat, g: Grammar)
    requires depth <= g.maxDepth && nodes < g.maxNodes
    ensures Understood(s, ParseText(s, nodes + 1), depth, nodes, g)
  {
    if ReadString(s).Ok? {
      var w := StringFound(s);
      assert Spells(w, Str(ReadString(s).value.value), g.floats);
    }
  }

  lemma NumberFound(s: Bytes, depth: nat, nodes: nat, g: Grammar)
    requires depth <= g.maxDepth && nodes < g.maxNodes
    ensures Understood(s, ParseNumber(s, nodes + 1, g), depth, nodes, g)
  {
    if ReadNumber(s, g.floats).Ok? {
      var w, rest := TokenFound(s, g.floats);
      TokenRead(w, rest, g.floats);
      match TokenValue(w, g.floats)
      case Ok(Whole(i)) =>
        IntExactly(w, i, g.floats);
        assert Spells(w, Int(i), g.floats);
      case Ok(Fractional(d)) =>
        DoubleExactly(w, d, g.floats);
        assert Spells(w, Double(d), g.floats);
    }
  }

  // What a part has to be, to be read there.
  ghost function ItemFits(g: Grammar, depth: nat): (Bytes, JsonValue) -> bool {
    (front: Bytes, v: JsonValue) => SpellsItem(front, v, g.floats) && depth + 1 + Height(v) <= g.maxDepth
  }

  ghost function MemberFits(g: Grammar, depth: nat): (Bytes, Member) -> bool {
    (front: Bytes, m: Member) => SpellsMember(front, m, g.floats) && depth + 1 + Height(m.value) <= g.maxDepth
  }

  lemma ItemsFit(slots: seq<Slot>, items: seq<JsonValue>, g: Grammar, depth: nat)
    requires depth + 1 <= g.maxDepth && slots != [] && FitAll(ItemFits(g, depth), slots, items)
    ensures ItemSlots(slots, items, g.floats) && depth + 1 + HeightOfItems(items) <= g.maxDepth
  {
    forall i | 0 <= i < |items| ensures SpellsItem(slots[i].front, items[i], g.floats) && Height(items[i]) <= g.maxDepth - depth - 1 {
      assert ItemFits(g, depth)(slots[i].front, items[i]);
    }
    HeightWithin(items, g.maxDepth - depth - 1);
  }

  lemma MembersFit(slots: seq<Slot>, members: seq<Member>, g: Grammar, depth: nat)
    requires depth + 1 <= g.maxDepth && slots != [] && FitAll(MemberFits(g, depth), slots, members)
    ensures MemberSlots(slots, members, g.floats) && depth + 1 + HeightOfMembers(members) <= g.maxDepth
  {
    forall i | 0 <= i < |members|
      ensures SpellsMember(slots[i].front, members[i], g.floats) && Height(members[i].value) <= g.maxDepth - depth - 1
    {
      assert MemberFits(g, depth)(slots[i].front, members[i]);
    }
    MemberHeightWithin(members, g.maxDepth - depth - 1);
  }

  lemma ItemsFound(body: Bytes, depth: nat, nodes: nat, g: Grammar)
    requires FindsAll(ItemReader(g, depth), ItemFits(g, depth), |body|, g.maxNodes)
    ensures Understood([OPEN_BRACKET] + body, ParseItems(body, depth, nodes + 1, g, []), depth, nodes, g)
  {
    if ParseItems(body, depth, nodes + 1, g, []).Ok? {
      ItemsLoop(g, depth);
      var slots, items, rest := WholeRowFound(ItemReader(g, depth), ItemFits(g, depth), body, nodes + 1, g.maxNodes);
      CountsItems(items, g, depth);
      assert ItemFits(g, depth)(slots[0].front, items[0]);
      ItemsFit(slots, items, g, depth);
      var row := Row(slots, Code(']'));
      assert SpellsItems(row, items, g.floats);
      ContainerFound(OPEN_BRACKET, row, rest, Array(items), g.floats);
    }
  }

  lemma MembersFound(body: Bytes, depth: nat, nodes: nat, g: Grammar)
    requires FindsAll(MemberReader(g, depth), MemberFits(g, depth), |body|, g.maxNodes)
    ensures Understood([OPEN_BRACE] + body, ParseMembers(body, depth, nodes + 1, g, []), depth, nodes, g)
  {
    if ParseMembers(body, depth, nodes + 1, g, []).Ok? {
      MembersLoop(g, depth);
      var slots, members, rest := WholeRowFound(MemberReader(g, depth), MemberFits(g, depth), body, nodes + 1, g.maxNodes);
      CountsMembers(members, g, depth);
      AllApart(members, g, depth);
      assert MemberFits(g, depth)(slots[0].front, members[0]);
      MembersFit(slots, members, g, depth);
      var row := Row(slots, Code('}'));
      assert SpellsMembers(row, members, g.floats);
      ContainerFound(OPEN_BRACE, row, rest, Object(members), g.floats);
    }
  }

  lemma ContainerFound(open: Byte, row: Bytes, rest: Bytes, v: JsonValue, floats: Floats)
    requires v.Array? ==> open == OPEN_BRACKET && SpellsItems(row, v.items, floats)
    requires v.Object? ==> open == OPEN_BRACE && SpellsMembers(row, v.members, floats) && KeysApart(v.members)
    requires !IsLeaf(v)
    ensures Spells([open] + row, v, floats) && [open] + (row + rest) == ([open] + row) + rest
  {
    Regroup([open], row, rest);
  }

  lemma EmptyFound(s: Bytes, v: JsonValue, depth: nat, nodes: nat, g: Grammar)
    requires s != [] && Skip(s[1..]) != [] && depth <= g.maxDepth && nodes < g.maxNodes
    requires (s[0] == OPEN_BRACKET && v == Array([]) && Skip(s[1..])[0] == CLOSE_BRACKET)
      || (s[0] == OPEN_BRACE && v == Object([]) && Skip(s[1..])[0] == CLOSE_BRACE)
    ensures Understood(s, Ok(Parsed(v, Skip(s[1..])[1..], nodes + 1)), depth, nodes, g)
  {
    var t := Skip(s[1..]);
    var gap := SkipSplits(s[1..]);
    var row := gap + [t[0]];
    assert Closed(row, t[0]);
    assert t == [t[0]] + t[1..] && s == [s[0]] + s[1..];
    Regroup(gap, [t[0]], t[1..]);
    ContainerFound(s[0], row, t[1..], v, g.floats);
  }

  // Whatever the parser reads in front of a text spells the value that it gives.
  lemma {:induction false} ValueFound(s: Bytes, depth: nat, nodes: nat, g: Grammar)
    ensures Understood(s, ParseValue(s, depth, nodes, g), depth, nodes, g)
    decreases |s|, 1
  {
    if depth <= g.maxDepth && nodes < g.maxNodes && s != [] {
      if s[0] == OPEN_BRACE {
        ObjectFound(s, depth, nodes, g);
      } else if s[0] == OPEN_BRACKET {
        ArrayFound(s, depth, nodes, g);
      } else {
        LeafFound(s, depth, nodes, g);
      }
    }
  }

  lemma LeafFound(s: Bytes, depth: nat, nodes: nat, g: Grammar)
    requires s != [] && s[0] != OPEN_BRACE && s[0] != OPEN_BRACKET && depth <= g.maxDepth && nodes < g.maxNodes
    ensures Understood(s, ParseValue(s, depth, nodes, g), depth, nodes, g)
  {
    TextFound(s, depth, nodes, g);
    NumberFound(s, depth, nodes, g);
    LiteralFound(s, TRUE_TEXT, Bool(true), depth, nodes, g);
    LiteralFound(s, FALSE_TEXT, Bool(false), depth, nodes, g);
    LiteralFound(s, NULL_TEXT, Null, depth, nodes, g);
  }

  lemma {:induction false} ArrayFound(s: Bytes, depth: nat, nodes: nat, g: Grammar)
    requires s != [] && s[0] == OPEN_BRACKET && depth <= g.maxDepth && nodes < g.maxNodes
    ensures Understood(s, ParseValue(s, depth, nodes, g), depth, nodes, g)
    decreases |s|, 0
  {
    var body := s[1..];
    if Skip(body) == [] {
    } else if Skip(body)[0] == CLOSE_BRACKET {
      EmptyFound(s, Array([]), depth, nodes, g);
    } else {
      forall t, count: nat | |t| <= |body| ensures Finds(ItemReader(g, depth), ItemFits(g, depth), t, count, g.maxNodes) {
        ItemFound(t, depth, count, g);
      }
      ItemsFound(body, depth, nodes, g);
      assert s == [OPEN_BRACKET] + body;
      ArraySelected(body, ParseItems(body, depth, nodes + 1, g, []), depth, nodes, g);
    }
  }

  lemma {:induction false} ItemFound(s: Bytes, depth: nat, nodes: nat, g: Grammar)
    ensures Finds(ItemReader(g, depth), ItemFits(g, depth), s, nodes, g.maxNodes)
    decreases |s|, 2
  {
    var gap := SkipSplits(s);
    ValueFound(Skip(s), depth + 1, nodes, g);
    var r := ParseValue(Skip(s), depth + 1, nodes, g);
    if r.Ok? {
      var w :| Skip(s) == w + r.value.rest && Spells(w, r.value.value, g.floats);
      Regroup(gap, w, r.value.rest);
      assert SpellsItem(gap + w, r.value.value, g.floats);
      assert ItemFits(g, depth)(gap + w, r.value.value);
    }
  }

  lemma {:induction false} ObjectFound(s: Bytes, depth: nat, nodes: nat, g: Grammar)
    requires s != [] && s[0] == OPEN_BRACE && depth <= g.maxDepth && nodes < g.maxNodes
    ensures Understood(s, ParseValue(s, depth, nodes, g), depth, nodes, g)
    decreases |s|, 0
  {
    var body := s[1..];
    if Skip(body) == [] {
    } else if Skip(body)[0] == CLOSE_BRACE {
      EmptyFound(s, Object([]), depth, nodes, g);
    } else {
      forall t, count: nat | |t| <= |body| ensures Finds(MemberReader(g, depth), MemberFits(g, depth), t, count, g.maxNodes) {
        MemberFound(t, depth, count, g);
      }
      MembersFound(body, depth, nodes, g);
      assert s == [OPEN_BRACE] + body;
      ObjectSelected(body, ParseMembers(body, depth, nodes + 1, g, []), depth, nodes, g);
    }
  }

  // A key, a colon and the white space around them, in front of what is read next.
  lemma KeyInFront(s: Bytes) returns (l: Line)
    requires ReadKey(s).Ok?
    ensures White(l.gap) && White(l.left) && White(l.right) && SpellsText(l.key, ReadKey(s).value.value) && l.value == []
    ensures s == LineText(l) + ReadKey(s).value.rest
  {
    var gap := SkipSplits(s);
    var key := StringFound(Skip(s));
    var left, right := ColonInFront(ReadString(Skip(s)).value.rest);
    l := Line(gap, key, left, right, []);
    LineRegroups(l, ReadKey(s).value.rest);
    assert [] + ReadKey(s).value.rest == ReadKey(s).value.rest;
  }

  lemma ColonInFront(s: Bytes) returns (left: Bytes, right: Bytes)
    requires ReadColon(s).Ok?
    ensures White(left) && White(right) && s == left + ([COLON] + (right + ReadColon(s).value))
  {
    left := SkipSplits(s);
    right := SkipSplits(Skip(s)[1..]);
    assert Skip(s) == [COLON] + Skip(s)[1..];
  }

  lemma ValueInLine(l: Line, w: Bytes, rest: Bytes)
    requires l.value == []
    ensures LineText(l) + (w + rest) == LineText(l.(value := w)) + rest
  {
    LineRegroups(l, w + rest);
    LineRegroups(l.(value := w), rest);
    assert [] + (w + rest) == w + rest;
  }

  lemma {:induction false} MemberFound(s: Bytes, depth: nat, nodes: nat, g: Grammar)
    ensures Finds(MemberReader(g, depth), MemberFits(g, depth), s, nodes, g.maxNodes)
    decreases |s|, 2
  {
    if ReadKey(s).Ok? {
      var key, after := ReadKey(s).value.value, ReadKey(s).value.rest;
      var l := KeyInFront(s);
      ValueFound(after, depth + 1, nodes, g);
      var r := ParseValue(after, depth + 1, nodes, g);
      if r.Ok? {
        var w :| after == w + r.value.rest && Spells(w, r.value.value, g.floats);
        var whole := l.(value := w);
        ValueInLine(l, w, r.value.rest);
        assert SpellsMember(LineText(whole), Member(key, r.value.value), g.floats);
        assert MemberFits(g, depth)(LineText(whole), Member(key, r.value.value));
      }
    }
  }

  // ---- Documents ----

  // A document is accepted as a value exactly when it spells that value and keeps the limits: its bytes, the
  // nesting of the value and the number of values in it. White space, the escapes chosen and the case of
  // their digits make no difference.
  lemma AcceptsExactly(text: Bytes, v: JsonValue, g: Grammar)
    ensures ParseDocument(text, g) == Ok(v)
      <==> |text| <= g.maxBytes && Height(v) <= g.maxDepth && Count(v) <= g.maxNodes && SpellsDocument(text, v, g.floats)
  {
    if ParseDocument(text, g) == Ok(v) {
      DocumentFound(text, v, g);
    }
    if |text| <= g.maxBytes && Height(v) <= g.maxDepth && Count(v) <= g.maxNodes && SpellsDocument(text, v, g.floats) {
      DocumentRead(text, v, g);
    }
  }

  lemma DocumentRead(text: Bytes, v: JsonValue, g: Grammar)
    requires |text| <= g.maxBytes && Height(v) <= g.maxDepth && Count(v) <= g.maxNodes && SpellsDocument(text, v, g.floats)
    ensures ParseDocument(text, g) == Ok(v)
  {
    var gap, w, after :| text == gap + (w + after) && White(gap) && White(after) && Spells(w, v, g.floats);
    SpellsStarts(w, v, g.floats);
    WhiteSkips(gap, w + after);
    SkipStays(w + after);
    if after != [] {
      NumberCharExactly(after[0]);
    }
    ValueRead(w, v, after, 0, 0, g);
    WhiteSkips(after, []);
    assert after + [] == after;
  }

  lemma DocumentFound(text: Bytes, v: JsonValue, g: Grammar)
    requires ParseDocument(text, g) == Ok(v)
    ensures |text| <= g.maxBytes && Height(v) <= g.maxDepth && Count(v) <= g.maxNodes && SpellsDocument(text, v, g.floats)
  {
    var gap := SkipSplits(text);
    ValueFound(Skip(text), 0, 0, g);
    var rest := ParseValue(Skip(text), 0, 0, g).value.rest;
    var after := SkipSplits(rest);
    var w :| Skip(text) == w + rest && Spells(w, v, g.floats);
    assert after == rest;
  }
}
