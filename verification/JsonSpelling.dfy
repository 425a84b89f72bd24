// The texts that spell a JSON value (src/core/json.cpp), with every freedom they have. The parser accepts
// exactly these, within its limits, and reads from each the value it spells.
module JsonSpelling {
  import opened Base
  import opened Decimals
  import opened JsonText
  import opened JsonGrammar
  import opened JsonStrings
  import opened JsonRows

  // ---- Words ----

  predicate Is(w: Bytes, word: string) {
    |w| == |word| && forall i :: 0 <= i < |w| ==> w[i] as int == word[i] as int
  }

  predicate IsNumeral(c: Byte) { Code('0') <= c <= Code('9') }

  ghost predicate Numerals(w: Bytes) { w != [] && forall i :: 0 <= i < |w| ==> IsNumeral(w[i]) }

  // A token of numerals, signs, points and exponent letters, with a numeral among them.
  ghost predicate SpellsNumber(w: Bytes) {
    && (exists i :: 0 <= i < |w| && IsNumeral(w[i]))
    && forall i :: 0 <= i < |w| ==>
         IsNumeral(w[i]) || w[i] == Code('.') || w[i] == Code('e') || w[i] == Code('E') || w[i] == Code('+') || w[i] == Code('-')
  }

  // The numerals of a whole number, behind its sign if it has one.
  function Magnitude(w: Bytes): Bytes { if w != [] && w[0] == Code('-') then w[1..] else w }

  ghost predicate SpellsInt(w: Bytes, i: int) {
    && Numerals(Magnitude(w)) && -0x8000_0000_0000_0000 <= i <= 0x7FFF_FFFF_FFFF_FFFF
    && i == if w[0] == Code('-') then -Decimal(Magnitude(w)) else Decimal(Magnitude(w))
  }

  // Any other number is left to the platform.
  ghost predicate SpellsDouble(w: Bytes, d: real, floats: Floats) {
    SpellsNumber(w) && !Numerals(Magnitude(w)) && floats.read(w) == Some(d)
  }

  // ---- Values ----

  ghost predicate Spells(w: Bytes, v: JsonValue, floats: Floats)
    decreases v, 0
  {
    match v
    case Null => Is(w, "null")
    case Bool(b) => Is(w, if b then "true" else "false")
    case Int(i) => SpellsInt(w, i)
    case Double(d) => SpellsDouble(w, d, floats)
    case Str(text) => SpellsText(w, text)
    case Array(items) => exists body :: w == [Code('[')] + body && SpellsItems(body, items, floats)
    case Object(members) => KeysApart(members) && exists body :: w == [Code('{')] + body && SpellsMembers(body, members, floats)
  }

  ghost predicate SpellsItems(body: Bytes, items: seq<JsonValue>, floats: Floats)
    decreases items, 1
  {
    if items == [] then Closed(body, Code(']'))
    else exists slots :: ItemSlots(slots, items, floats) && body == Row(slots, Code(']'))
  }

  ghost predicate ItemSlots(slots: seq<Slot>, items: seq<JsonValue>, floats: Floats)
    decreases items, 0
  {
    && slots != [] && |slots| == |items|
    && forall i :: 0 <= i < |items| ==> White(slots[i].after) && SpellsItem(slots[i].front, items[i], floats)
  }

  ghost predicate SpellsMembers(body: Bytes, members: seq<Member>, floats: Floats)
    decreases members, 1
  {
    if members == [] then Closed(body, Code('}'))
    else exists slots :: MemberSlots(slots, members, floats) && body == Row(slots, Code('}'))
  }

  ghost predicate MemberSlots(slots: seq<Slot>, members: seq<Member>, floats: Floats)
    decreases members, 0
  {
    && slots != [] && |slots| == |members|
    && forall i :: 0 <= i < |members| ==> White(slots[i].after) && SpellsMember(slots[i].front, members[i], floats)
  }

  ghost predicate Closed(body: Bytes, close: Byte) { exists gap :: White(gap) && body == gap + [close] }

  ghost predicate SpellsItem(front: Bytes, v: JsonValue, floats: Floats)
    decreases v, 1
  {
    exists gap, w :: front == gap + w && White(gap) && Spells(w, v, floats)
  }

  // A member's parts: its key and its value, with white space before, between and after the colon.
  datatype Line = Line(gap: Bytes, key: Bytes, left: Bytes, right: Bytes, value: Bytes)

  function LineText(l: Line): Bytes { l.gap + (l.key + (l.left + ([Code(':')] + (l.right + l.value)))) }

  ghost predicate SpellsMember(front: Bytes, m: Member, floats: Floats)
    decreases m, 0
  {
    exists l: Line :: front == LineText(l) && White(l.gap) && White(l.left) && White(l.right)
      && SpellsText(l.key, m.key) && Spells(l.value, m.value, floats)
  }

  ghost predicate SpellsDocument(text: Bytes, v: JsonValue, floats: Floats) {
    exists gap, w, after :: text == gap + (w + after) && White(gap) && White(after) && Spells(w, v, floats)
  }

  // ---- How a value starts and ends ----

  predicate IsSign(c: Byte) { c == Code('.') || c == Code('e') || c == Code('E') || c == Code('+') || c == Code('-') }

  lemma NumberCharExactly(c: Byte)
    ensures IsNumberChar(c) <==> IsNumeral(c) || IsSign(c)
    ensures IsDigit(c) <==> IsNumeral(c)
  {
  }

  // The first byte of a value selects what reads it, and is neither white nor a closing bracket.
  ghost predicate Starts(w: Bytes) { w != [] && !IsWhite(w[0]) && w[0] != Code(']') && w[0] != Code('}') }

  lemma SpellsStarts(w: Bytes, v: JsonValue, floats: Floats)
    requires Spells(w, v, floats)
    ensures Starts(w)
  {
    match v
    case Int(i) => IntStarts(w, i);
    case Double(d) =>
    case _ =>
  }

  lemma IntStarts(w: Bytes, i: int)
    requires SpellsInt(w, i)
    ensures w != [] && (IsNumeral(w[0]) || IsSign(w[0]))
  {
    if w[0] != Code('-') {
      assert IsNumeral(Magnitude(w)[0]);
    }
  }

  // ---- Numbers ----

  ghost predicate IsRun(w: Bytes) { forall i :: 0 <= i < |w| ==> IsNumberChar(w[i]) }

  lemma RunExactly(w: Bytes)
    ensures SpellsNumber(w) <==> HasDigit(w) && IsRun(w)
    ensures Numerals(w) <==> w != [] && AllDigits(w)
  {
    forall i | 0 <= i < |w| ensures IsNumberChar(w[i]) <==> IsNumeral(w[i]) || IsSign(w[i]) {
      NumberCharExactly(w[i]);
    }
  }

  lemma DigitInMagnitude(w: Bytes)
    ensures HasDigit(Magnitude(w)) <==> HasDigit(w)
    ensures IsRun(w) <==> IsRun(Magnitude(w))
  {
    if w != [] && w[0] == Code('-') {
      assert w == [w[0]] + Magnitude(w);
      if i :| 0 <= i < |w| && IsDigit(w[i]) {
        assert Magnitude(w)[i - 1] == w[i];
      }
    }
  }

  // What a token says to the number reader.
  ghost function TokenValue(w: Bytes, floats: Floats): Result<Number>
    requires w != []
  {
    NumberFrom(w, Magnitude(w), w[0] == MINUS, floats)
  }

  lemma TokenRead(w: Bytes, rest: Bytes, floats: Floats)
    requires w != [] && IsRun(w) && EndsNumber(rest)
    ensures ReadNumber(w + rest, floats)
      == match TokenValue(w, floats) case Err(e) => Err(e) case Ok(x) => Ok(Read(x, rest))
  {
    var run := Magnitude(w);
    var body := run + rest;
    DigitInMagnitude(w);
    RunStops(run, rest);
    assert body[..|run|] == run && body[|run|..] == rest;
    assert (w + rest)[..|w|] == w;
    assert w + rest == if w[0] == MINUS then [MINUS] + body else body;
  }

  lemma TokenFound(s: Bytes, floats: Floats) returns (w: Bytes, rest: Bytes)
    requires ReadNumber(s, floats).Ok?
    ensures w != [] && IsRun(w) && EndsNumber(rest) && s == w + rest
  {
    var body := if s[0] == MINUS then s[1..] else s;
    var n := Run(body);
    w, rest := s[..|s| - |body| + n], body[n..];
    assert s == w + rest;
    assert forall i :: 0 <= i < |w| ==> w[i] == MINUS || w[i] in body[..n];
  }

  lemma IntExactly(w: Bytes, i: int, floats: Floats)
    requires w != []
    ensures IsRun(w) && TokenValue(w, floats) == Ok(Whole(i)) <==> SpellsInt(w, i)
  {
    RunExactly(Magnitude(w));
    DigitInMagnitude(w);
    if Numerals(Magnitude(w)) {
      assert IsDigit(Magnitude(w)[0]);
    }
  }

  lemma DoubleExactly(w: Bytes, d: real, floats: Floats)
    requires w != []
    ensures IsRun(w) && TokenValue(w, floats) == Ok(Fractional(d)) <==> SpellsDouble(w, d, floats)
  {
    RunExactly(w);
    RunExactly(Magnitude(w));
    DigitInMagnitude(w);
  }
}
