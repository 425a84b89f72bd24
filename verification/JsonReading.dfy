// The parser reads a value from every text that spells it (src/core/json.cpp).
module JsonReading {
  import opened Base
  import opened Decimals
  import opened JsonText
  import opened JsonGrammar
  import opened JsonStrings
  import opened JsonRows
  import opened JsonSpelling

  // ---- The loops of the parser ----

  ghost function ReadItem(s: Bytes, nodes: nat, depth: nat, g: Grammar): Result<Got<JsonValue>> {
    match ParseValue(Skip(s), depth + 1, nodes, g)
    case Err(e) => Err(e)
    case Ok(Parsed(v, rest, count)) => Ok(Got(v, rest, count))
  }

  ghost function ReadMember(s: Bytes, nodes: nat, depth: nat, g: Grammar): Result<Got<Member>> {
    match ReadKey(s)
    case Err(e) => Err(e)
    case Ok(Read(key, after)) =>
      match ParseValue(after, depth + 1, nodes, g)
      case Err(e) => Err(e)
      case Ok(Parsed(v, rest, count)) => Ok(Got(Member(key, v), rest, count))
  }

  ghost function ItemReader(g: Grammar, depth: nat): Reader<JsonValue> {
    Reader((s: Bytes, nodes: nat) => ReadItem(s, nodes, depth, g),
           (s: Bytes, nodes: nat, acc: seq<JsonValue>) => ParseItems(s, depth, nodes, g, acc),
           Code(']'), (acc: seq<JsonValue>, v: JsonValue) => true, (items: seq<JsonValue>) => Array(items), (v: JsonValue) => Count(v))
  }

  ghost function MemberReader(g: Grammar, depth: nat): Reader<Member> {
    Reader((s: Bytes, nodes: nat) => ReadMember(s, nodes, depth, g),
           (s: Bytes, nodes: nat, acc: seq<Member>) => ParseMembers(s, depth, nodes, g, acc),
           Code('}'), (acc: seq<Member>, m: Member) => !HasKey(acc, m.key), (members: seq<Member>) => Object(members),
           (m: Member) => Count(m.value))
  }

  lemma ItemsLoop(g: Grammar, depth: nat)
    ensures Looping(ItemReader(g, depth))
  {
    var m := ItemReader(g, depth);
    forall s, nodes: nat, acc ensures Loops(m, s, nodes, acc) {
      ItemsStep(g, depth, s, nodes, acc);
    }
  }

  lemma ItemsStep(g: Grammar, depth: nat, s: Bytes, nodes: nat, acc: seq<JsonValue>)
    ensures Loops(ItemReader(g, depth), s, nodes, acc)
  {
  }

  lemma MembersLoop(g: Grammar, depth: nat)
    ensures Looping(MemberReader(g, depth))
  {
    var m := MemberReader(g, depth);
    forall s, nodes: nat, acc ensures Loops(m, s, nodes, acc) {
      MembersStep(g, depth, s, nodes, acc);
    }
  }

  lemma MembersStep(g: Grammar, depth: nat, s: Bytes, nodes: nat, acc: seq<Member>)
    ensures Loops(MemberReader(g, depth), s, nodes, acc)
  {
  }

  lemma {:induction false} SkipTwice(s: Bytes)
    ensures Skip(Skip(s)) == Skip(s)
  {
    if s != [] && IsSpace(s[0]) {
      SkipTwice(s[1..]);
    }
  }

  lemma ItemsSkip(s: Bytes, depth: nat, nodes: nat, g: Grammar, acc: seq<JsonValue>)
    ensures ParseItems(Skip(s), depth, nodes, g, acc) == ParseItems(s, depth, nodes, g, acc)
  {
    SkipTwice(s);
  }

  lemma MembersSkip(s: Bytes, depth: nat, nodes: nat, g: Grammar, acc: seq<Member>)
    ensures ParseMembers(Skip(s), depth, nodes, g, acc) == ParseMembers(s, depth, nodes, g, acc)
  {
    SkipTwice(s);
  }

  // ---- Counts, heights and keys ----

  lemma {:induction false} CountsItems(items: seq<JsonValue>, g: Grammar, depth: nat)
    ensures Total(ItemReader(g, depth).weigh, items) == CountItems(items)
  {
    if items != [] {
      CountsItems(items[1..], g, depth);
    }
  }

  lemma {:induction false} CountsMembers(members: seq<Member>, g: Grammar, depth: nat)
    ensures Total(MemberReader(g, depth).weigh, members) == CountMembers(members)
  {
    if members != [] {
      CountsMembers(members[1..], g, depth);
    }
  }

  lemma {:induction false} HeightWithin(items: seq<JsonValue>, bound: int)
    requires bound >= 0
    ensures HeightOfItems(items) <= bound <==> forall k :: 0 <= k < |items| ==> Height(items[k]) <= bound
  {
    if items != [] {
      HeightWithin(items[1..], bound);
      assert forall k :: 0 <= k < |items| ==> items[k] == if k == 0 then items[0] else items[1..][k - 1];
      assert forall k :: 0 <= k < |items[1..]| ==> items[1..][k] == items[k + 1];
    }
  }

  lemma {:induction false} MemberHeightWithin(members: seq<Member>, bound: int)
    requires bound >= 0
    ensures HeightOfMembers(members) <= bound <==> forall k :: 0 <= k < |members| ==> Height(members[k].value) <= bound
  {
    if members != [] {
      MemberHeightWithin(members[1..], bound);
      assert forall k :: 0 <= k < |members| ==> members[k] == if k == 0 then members[0] else members[1..][k - 1];
      assert forall k :: 0 <= k < |members[1..]| ==> members[1..][k] == members[k + 1];
    }
  }

  lemma {:induction false} KeyFound(members: seq<Member>, key: Bytes)
    ensures HasKey(members, key) <==> exists i :: 0 <= i < |members| && members[i].key == key
  {
    if members != [] {
      KeyFound(members[1..], key);
      assert forall i :: 0 <= i < |members[1..]| ==> members[1..][i] == members[i + 1];
      assert forall i :: 0 <= i < |members| ==> members[i] == if i == 0 then members[0] else members[1..][i - 1];
    }
  }

  lemma {:induction false} ItemsAdmitted(acc: seq<JsonValue>, items: seq<JsonValue>, g: Grammar, depth: nat)
    ensures AdmitsAll(ItemReader(g, depth), acc, items)
    decreases |items|
  {
    if items != [] {
      ItemsAdmitted(acc + [items[0]], items[1..], g, depth);
    }
  }

  lemma OneApart(acc: seq<Member>, m: Member)
    requires KeysApart(acc)
    ensures KeysApart(acc + [m]) <==> !HasKey(acc, m.key)
  {
    KeyFound(acc, m.key);
    if i :| 0 <= i < |acc| && acc[i].key == m.key {
      assert (acc + [m])[i].key == (acc + [m])[|acc|].key;
    }
  }

  lemma ApartBefore(a: seq<Member>, b: seq<Member>)
    requires KeysApart(a + b)
    ensures KeysApart(a)
  {
    forall i, j | 0 <= i < j < |a| ensures a[i].key != a[j].key {
      assert (a + b)[i] == a[i] && (a + b)[j] == a[j];
    }
  }

  // The members are taken one by one exactly when no key is taken twice.
  lemma {:induction false} MembersAdmitted(acc: seq<Member>, members: seq<Member>, g: Grammar, depth: nat)
    requires KeysApart(acc)
    ensures AdmitsAll(MemberReader(g, depth), acc, members) <==> KeysApart(acc + members)
    decreases |members|
  {
    if members == [] {
      assert acc + members == acc;
    } else {
      OneOn(acc, members);
      OneApart(acc, members[0]);
      if HasKey(acc, members[0].key) {
        if KeysApart(acc + members) {
          ApartBefore(acc + [members[0]], members[1..]);
        }
      } else {
        MembersAdmitted(acc + [members[0]], members[1..], g, depth);
      }
    }
  }

  // ---- Every spelling is read ----

  lemma LiteralRead(w: Bytes, word: string, literal: Bytes, v: JsonValue, rest: Bytes, nodes: nat)
    requires Is(w, word) && Is(literal, word) && literal != []
    ensures Literal(w + rest, literal, v, nodes) == Ok(Parsed(v, rest, nodes))
  {
    assert w == literal;
    assert literal <= w + rest && (w + rest)[|literal|..] == rest;
  }

  predicate IsLeaf(v: JsonValue) { !v.Array? && !v.Object? }

  lemma LeafRead(w: Bytes, v: JsonValue, rest: Bytes, depth: nat, nodes: nat, g: Grammar)
    requires IsLeaf(v) && Spells(w, v, g.floats) && EndsNumber(rest) && depth <= g.maxDepth && nodes < g.maxNodes
    ensures ParseValue(w + rest, depth, nodes, g) == Ok(Parsed(v, rest, nodes + 1))
  {
    match v
    case Null => LiteralRead(w, "null", NULL_TEXT, Null, rest, nodes + 1);
    case Bool(b) => LiteralRead(w, if b then "true" else "false", if b then TRUE_TEXT else FALSE_TEXT, Bool(b), rest, nodes + 1);
    case Int(i) =>
      IntStarts(w, i);
      IntExactly(w, i, g.floats);
      TokenRead(w, rest, g.floats);
      NumberSelected(w + rest, depth, nodes, g);
    case Double(d) =>
      DoubleExactly(w, d, g.floats);
      TokenRead(w, rest, g.floats);
      NumberSelected(w + rest, depth, nodes, g);
    case Str(text) => StringRead(w, text, rest);
  }

  // Which parser a byte selects.
  lemma NumberSelected(s: Bytes, depth: nat, nodes: nat, g: Grammar)
    requires s != [] && IsNumberChar(s[0]) && depth <= g.maxDepth && nodes < g.maxNodes
    ensures ParseValue(s, depth, nodes, g) == ParseNumber(s, nodes + 1, g)
  {
  }

  lemma EmptySelected(s: Bytes, depth: nat, nodes: nat, g: Grammar, rest: Bytes)
    requires s != [] && depth <= g.maxDepth && nodes < g.maxNodes
    ensures s[0] == OPEN_BRACKET && Skip(s[1..]) == [CLOSE_BRACKET] + rest ==> ParseValue(s, depth, nodes, g) == Ok(Parsed(Array([]), rest, nodes + 1))
    ensures s[0] == OPEN_BRACE && Skip(s[1..]) == [CLOSE_BRACE] + rest ==> ParseValue(s, depth, nodes, g) == Ok(Parsed(Object([]), rest, nodes + 1))
  {
  }

  lemma ArraySelected(body: Bytes, r: Result<Parsed>, depth: nat, nodes: nat, g: Grammar)
    requires depth <= g.maxDepth && nodes < g.maxNodes && Skip(body) != [] && Skip(body)[0] != Code(']')
    requires ParseItems(body, depth, nodes + 1, g, []) == r
    ensures ParseValue([OPEN_BRACKET] + body, depth, nodes, g) == r
  {
    assert ([OPEN_BRACKET] + body)[1..] == body;
    ItemsSkip(body, depth, nodes + 1, g, []);
  }

  lemma ObjectSelected(body: Bytes, r: Result<Parsed>, depth: nat, nodes: nat, g: Grammar)
    requires depth <= g.maxDepth && nodes < g.maxNodes && Skip(body) != [] && Skip(body)[0] != Code('}')
    requires ParseMembers(body, depth, nodes + 1, g, []) == r
    ensures ParseValue([OPEN_BRACE] + body, depth, nodes, g) == r
  {
    assert ([OPEN_BRACE] + body)[1..] == body;
    MembersSkip(body, depth, nodes + 1, g, []);
  }

  lemma ClosedSkips(body: Bytes, close: Byte, rest: Bytes)
    requires Closed(body, close) && !IsWhite(close)
    ensures Skip(body + rest) == [close] + rest
  {
    var gap :| White(gap) && body == gap + [close];
    assert body + rest == gap + ([close] + rest);
    WhiteSkips(gap, [close] + rest);
    SkipStays([close] + rest);
  }

  // A value behind white space.
  lemma Ahead(gap: Bytes, w: Bytes, tail: Bytes)
    requires White(gap) && Starts(w)
    ensures Skip((gap + w) + tail) == w + tail
  {
    assert (gap + w) + tail == gap + (w + tail);
    WhiteSkips(gap, w + tail);
    SkipStays(w + tail);
  }

  lemma ItemAhead(front: Bytes, v: JsonValue, tail: Bytes, floats: Floats) returns (w: Bytes)
    requires SpellsItem(front, v, floats)
    ensures Spells(w, v, floats) && Starts(w) && Skip(front + tail) == w + tail
  {
    var gap, x :| front == gap + x && White(gap) && Spells(x, v, floats);
    SpellsStarts(x, v, floats);
    Ahead(gap, x, tail);
    w := x;
  }

  // What follows a part: its white space and the separator.
  lemma EndsAfter(after: Bytes, tail: Bytes)
    requires White(after) && tail != [] && (tail[0] == Code(',') || tail[0] == Code(']') || tail[0] == Code('}'))
    ensures EndsNumber(after + tail)
  {
    NumberCharExactly((after + tail)[0]);
    assert (after + tail)[0] == if after == [] then tail[0] else after[0];
  }

  // ... and the key of a member, its colon and its value.
  lemma KeyAhead(l: Line, m: Member, tail: Bytes, floats: Floats)
    requires White(l.gap) && White(l.left) && White(l.right) && SpellsText(l.key, m.key) && Spells(l.value, m.value, floats)
    ensures ReadKey(LineText(l) + tail) == Ok(Read(m.key, l.value + tail))
  {
    var value := l.value + tail;
    var colon := [COLON] + (l.right + value);
    var after := l.left + colon;
    LineRegroups(l, tail);
    StringRead(l.key, m.key, after);
    WhiteSkips(l.gap, l.key + after);
    SkipStays(l.key + after);
    SpellsStarts(l.value, m.value, floats);
    ColonAhead(l.left, l.right, value);
  }

  lemma MemberAhead(front: Bytes, m: Member, tail: Bytes, floats: Floats) returns (w: Bytes)
    requires SpellsMember(front, m, floats)
    ensures Spells(w, m.value, floats) && ReadKey(front + tail) == Ok(Read(m.key, w + tail))
  {
    var l: Line :| front == LineText(l) && White(l.gap) && White(l.left) && White(l.right)
      && SpellsText(l.key, m.key) && Spells(l.value, m.value, floats);
    KeyAhead(l, m, tail, floats);
    w := l.value;
  }

  lemma LineRegroups(l: Line, tail: Bytes)
    ensures LineText(l) + tail == l.gap + (l.key + (l.left + ([COLON] + (l.right + (l.value + tail)))))
  {
    var a := l.right + l.value;
    var b := [COLON] + a;
    var c := l.left + b;
    var d := l.key + c;
    Regroup(l.right, l.value, tail);
    Regroup([COLON], a, tail);
    Regroup(l.left, b, tail);
    Regroup(l.key, c, tail);
    Regroup(l.gap, d, tail);
  }

  lemma ColonAhead(left: Bytes, right: Bytes, value: Bytes)
    requires White(left) && White(right) && value != [] && !IsWhite(value[0])
    ensures ReadColon(left + ([COLON] + (right + value))) == Ok(value)
  {
    var colon := [COLON] + (right + value);
    WhiteSkips(left, colon);
    SkipStays(colon);
    assert colon[1..] == right + value;
    WhiteSkips(right, value);
    SkipStays(value);
  }

  lemma EmptyRead(w: Bytes, v: JsonValue, rest: Bytes, depth: nat, nodes: nat, g: Grammar)
    requires (v == Array([]) || v == Object([])) && Spells(w, v, g.floats) && depth <= g.maxDepth && nodes < g.maxNodes
    ensures ParseValue(w + rest, depth, nodes, g) == Ok(Parsed(v, rest, nodes + 1))
  {
    var open, close := if v.Array? then Code('[') else Code('{'), if v.Array? then Code(']') else Code('}');
    var body :| w == [open] + body && Closed(body, close);
    ClosedSkips(body, close, rest);
    assert w + rest == [open] + (body + rest);
    assert (w + rest)[1..] == body + rest;
    EmptySelected(w + rest, depth, nodes, g, rest);
  }

  // Whatever spells a value is read as that value, with the rest unread and its values counted.
  lemma {:induction false} ValueRead(w: Bytes, v: JsonValue, rest: Bytes, depth: nat, nodes: nat, g: Grammar)
    requires Spells(w, v, g.floats) && EndsNumber(rest)
    requires depth + Height(v) <= g.maxDepth && nodes + Count(v) <= g.maxNodes
    ensures ParseValue(w + rest, depth, nodes, g) == Ok(Parsed(v, rest, nodes + Count(v)))
    decreases v, 1
  {
    match v
    case Array(items) =>
      if items == [] {
        EmptyRead(w, v, rest, depth, nodes, g);
      } else {
        var body := ArrayBody(w, v, g.floats);
        Regroup([OPEN_BRACKET], body, rest);
        ArrayRead(body, items, rest, depth, nodes, g);
      }
    case Object(members) =>
      if members == [] {
        EmptyRead(w, v, rest, depth, nodes, g);
      } else {
        var body := ObjectBody(w, v, g.floats);
        Regroup([OPEN_BRACE], body, rest);
        ObjectRead(body, members, rest, depth, nodes, g);
      }
    case _ => LeafRead(w, v, rest, depth, nodes, g);
  }

  lemma ArrayBody(w: Bytes, v: JsonValue, floats: Floats) returns (body: Bytes)
    requires v.Array? && v.items != [] && Spells(w, v, floats)
    ensures w == [OPEN_BRACKET] + body && SpellsItems(body, v.items, floats)
    ensures Height(v) == 1 + HeightOfItems(v.items) && Count(v) == 1 + CountItems(v.items)
  {
    body :| w == [Code('[')] + body && SpellsItems(body, v.items, floats);
  }

  lemma {:induction false} ArrayRead(body: Bytes, items: seq<JsonValue>, rest: Bytes, depth: nat, nodes: nat, g: Grammar)
    requires items != [] && SpellsItems(body, items, g.floats)
    requires depth + 1 + HeightOfItems(items) <= g.maxDepth && nodes + 1 + CountItems(items) <= g.maxNodes
    ensures ParseValue([OPEN_BRACKET] + (body + rest), depth, nodes, g) == Ok(Parsed(Array(items), rest, nodes + 1 + CountItems(items)))
    decreases items, 6
  {
    ItemsBodyRead(body, items, rest, depth, nodes + 1, g);
    ArraySelected(body + rest, Ok(Parsed(Array(items), rest, nodes + 1 + CountItems(items))), depth, nodes, g);
  }

  lemma {:induction false} ItemsBodyRead(body: Bytes, items: seq<JsonValue>, rest: Bytes, depth: nat, nodes: nat, g: Grammar)
    requires items != [] && SpellsItems(body, items, g.floats)
    requires depth + 1 + HeightOfItems(items) <= g.maxDepth && nodes + CountItems(items) <= g.maxNodes
    ensures Skip(body + rest) != [] && Skip(body + rest)[0] != Code(']')
    ensures ParseItems(body + rest, depth, nodes, g, []) == Ok(Parsed(Array(items), rest, nodes + CountItems(items)))
    decreases items, 5
  {
    var slots :| ItemSlots(slots, items, g.floats) && body == Row(slots, Code(']'));
    HeightWithin(items, g.maxDepth - depth - 1);
    ItemsRead(slots, items, depth, g);
    RowOfItems(slots, items, rest, depth, nodes, g);
    ItemsOpen(slots, items, rest, g.floats);
  }

  lemma {:induction false} ItemsRead(slots: seq<Slot>, items: seq<JsonValue>, depth: nat, g: Grammar)
    requires ItemSlots(slots, items, g.floats) && forall k :: 0 <= k < |items| ==> Height(items[k]) <= g.maxDepth - depth - 1
    ensures ReadsAll(ItemReader(g, depth), slots, items, g.maxNodes)
    decreases items, 4
  {
    forall i | 0 <= i < |items| ensures Reads(ItemReader(g, depth), slots[i], items[i], g.maxNodes) {
      ItemRead(slots[i], items[i], depth, g);
    }
  }

  lemma {:induction false} ItemRead(slot: Slot, v: JsonValue, depth: nat, g: Grammar)
    requires White(slot.after) && SpellsItem(slot.front, v, g.floats) && depth + 1 + Height(v) <= g.maxDepth
    ensures Reads(ItemReader(g, depth), slot, v, g.maxNodes)
    decreases v, 3
  {
    forall nodes: nat, tail | tail != [] && (tail[0] == Code(',') || tail[0] == Code(']')) && nodes + Count(v) <= g.maxNodes
      ensures ReadItem(slot.front + (slot.after + tail), nodes, depth, g) == Ok(Got(v, slot.after + tail, nodes + Count(v)))
    {
      EndsAfter(slot.after, tail);
      ItemReadOnce(slot.front, v, slot.after + tail, nodes, depth, g);
    }
  }

  lemma {:induction false} ItemReadOnce(front: Bytes, v: JsonValue, tail: Bytes, nodes: nat, depth: nat, g: Grammar)
    requires SpellsItem(front, v, g.floats) && depth + 1 + Height(v) <= g.maxDepth && EndsNumber(tail) && nodes + Count(v) <= g.maxNodes
    ensures ReadItem(front + tail, nodes, depth, g) == Ok(Got(v, tail, nodes + Count(v)))
    decreases v, 2
  {
    var w := ItemAhead(front, v, tail, g.floats);
    ValueRead(w, v, tail, depth + 1, nodes, g);
  }

  lemma RowOfItems(slots: seq<Slot>, items: seq<JsonValue>, rest: Bytes, depth: nat, nodes: nat, g: Grammar)
    requires slots != [] && ReadsAll(ItemReader(g, depth), slots, items, g.maxNodes) && nodes + CountItems(items) <= g.maxNodes
    ensures ParseItems(Row(slots, Code(']')) + rest, depth, nodes, g, []) == Ok(Parsed(Array(items), rest, nodes + CountItems(items)))
  {
    ItemsLoop(g, depth);
    ItemsAdmitted([], items, g, depth);
    CountsItems(items, g, depth);
    WholeRowRead(ItemReader(g, depth), slots, items, rest, nodes, g.maxNodes);
  }

  // Behind the opening bracket stands an item.
  lemma ItemsOpen(slots: seq<Slot>, items: seq<JsonValue>, rest: Bytes, floats: Floats)
    requires ItemSlots(slots, items, floats)
    ensures var s := Skip(Row(slots, Code(']')) + rest); s != [] && s[0] != Code(']')
  {
    RowHead(slots, Code(']'), rest);
    var w := ItemAhead(slots[0].front, items[0], slots[0].after + (RowAfter(slots, Code(']')) + rest), floats);
  }

  lemma ObjectBody(w: Bytes, v: JsonValue, floats: Floats) returns (body: Bytes)
    requires v.Object? && v.members != [] && Spells(w, v, floats)
    ensures w == [OPEN_BRACE] + body && SpellsMembers(body, v.members, floats) && KeysApart(v.members)
    ensures Height(v) == 1 + HeightOfMembers(v.members) && Count(v) == 1 + CountMembers(v.members)
  {
    body :| w == [Code('{')] + body && SpellsMembers(body, v.members, floats);
  }

  lemma {:induction false} ObjectRead(body: Bytes, members: seq<Member>, rest: Bytes, depth: nat, nodes: nat, g: Grammar)
    requires members != [] && SpellsMembers(body, members, g.floats) && KeysApart(members)
    requires depth + 1 + HeightOfMembers(members) <= g.maxDepth && nodes + 1 + CountMembers(members) <= g.maxNodes
    ensures ParseValue([OPEN_BRACE] + (body + rest), depth, nodes, g) == Ok(Parsed(Object(members), rest, nodes + 1 + CountMembers(members)))
    decreases members, 6
  {
    MembersBodyRead(body, members, rest, depth, nodes + 1, g);
    ObjectSelected(body + rest, Ok(Parsed(Object(members), rest, nodes + 1 + CountMembers(members))), depth, nodes, g);
  }

  lemma {:induction false} MembersBodyRead(body: Bytes, members: seq<Member>, rest: Bytes, depth: nat, nodes: nat, g: Grammar)
    requires members != [] && SpellsMembers(body, members, g.floats) && KeysApart(members)
    requires depth + 1 + HeightOfMembers(members) <= g.maxDepth && nodes + CountMembers(members) <= g.maxNodes
    ensures Skip(body + rest) != [] && Skip(body + rest)[0] != Code('}')
    ensures ParseMembers(body + rest, depth, nodes, g, []) == Ok(Parsed(Object(members), rest, nodes + CountMembers(members)))
    decreases members, 5
  {
    var slots :| MemberSlots(slots, members, g.floats) && body == Row(slots, Code('}'));
    MemberHeightWithin(members, g.maxDepth - depth - 1);
    MembersRead(slots, members, depth, g);
    RowOfMembers(slots, members, rest, depth, nodes, g);
    MembersOpen(slots, members, rest, g.floats);
  }

  lemma {:induction false} MembersRead(slots: seq<Slot>, members: seq<Member>, depth: nat, g: Grammar)
    requires MemberSlots(slots, members, g.floats)
    requires forall k :: 0 <= k < |members| ==> Height(members[k].value) <= g.maxDepth - depth - 1
    ensures ReadsAll(MemberReader(g, depth), slots, members, g.maxNodes)
    decreases members, 4
  {
    forall i | 0 <= i < |members| ensures Reads(MemberReader(g, depth), slots[i], members[i], g.maxNodes) {
      MemberRead(slots[i], members[i], depth, g);
    }
  }

  lemma {:induction false} MemberRead(slot: Slot, m: Member, depth: nat, g: Grammar)
    requires White(slot.after) && SpellsMember(slot.front, m, g.floats) && depth + 1 + Height(m.value) <= g.maxDepth
    ensures Reads(MemberReader(g, depth), slot, m, g.maxNodes)
    decreases m, 3
  {
    forall nodes: nat, tail | tail != [] && (tail[0] == Code(',') || tail[0] == Code('}')) && nodes + Count(m.value) <= g.maxNodes
      ensures ReadMember(slot.front + (slot.after + tail), nodes, depth, g) == Ok(Got(m, slot.after + tail, nodes + Count(m.value)))
    {
      EndsAfter(slot.after, tail);
      MemberReadOnce(slot.front, m, slot.after + tail, nodes, depth, g);
    }
  }

  lemma {:induction false} MemberReadOnce(front: Bytes, m: Member, tail: Bytes, nodes: nat, depth: nat, g: Grammar)
    requires SpellsMember(front, m, g.floats) && depth + 1 + Height(m.value) <= g.maxDepth && EndsNumber(tail)
    requires nodes + Count(m.value) <= g.maxNodes
    ensures ReadMember(front + tail, nodes, depth, g) == Ok(Got(m, tail, nodes + Count(m.value)))
    decreases m, 2
  {
    var w := MemberAhead(front, m, tail, g.floats);
    ValueRead(w, m.value, tail, depth + 1, nodes, g);
  }

  lemma RowOfMembers(slots: seq<Slot>, members: seq<Member>, rest: Bytes, depth: nat, nodes: nat, g: Grammar)
    requires slots != [] && ReadsAll(MemberReader(g, depth), slots, members, g.maxNodes) && KeysApart(members)
    requires nodes + CountMembers(members) <= g.maxNodes
    ensures ParseMembers(Row(slots, Code('}')) + rest, depth, nodes, g, [])
      == Ok(Parsed(Object(members), rest, nodes + CountMembers(members)))
  {
    MembersLoop(g, depth);
    AllApart(members, g, depth);
    CountsMembers(members, g, depth);
    WholeRowRead(MemberReader(g, depth), slots, members, rest, nodes, g.maxNodes);
  }

  lemma AllApart(members: seq<Member>, g: Grammar, depth: nat)
    ensures AdmitsAll(MemberReader(g, depth), [], members) <==> KeysApart(members)
  {
    assert [] + members == members;
    MembersAdmitted([], members, g, depth);
  }

  lemma MembersOpen(slots: seq<Slot>, members: seq<Member>, rest: Bytes, floats: Floats)
    requires MemberSlots(slots, members, floats)
    ensures var s := Skip(Row(slots, Code('}')) + rest); s != [] && s[0] != Code('}')
  {
    RowHead(slots, Code('}'), rest);
    var tail := slots[0].after + (RowAfter(slots, Code('}')) + rest);
    assert SpellsMember(slots[0].front, members[0], floats);
    var l: Line :| slots[0].front == LineText(l) && White(l.gap) && White(l.left) && White(l.right)
      && SpellsText(l.key, members[0].key) && Spells(l.value, members[0].value, floats);
    LineRegroups(l, tail);
    StringRead(l.key, members[0].key, []);
    var behind := l.key + (l.left + ([COLON] + (l.right + (l.value + tail))));
    WhiteSkips(l.gap, behind);
    SkipStays(behind);
  }
}
