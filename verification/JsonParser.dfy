// The recursive parser and the indexed object it fills (src/core/json.cpp).
module JsonParser {
  import opened Base
  import opened Checked
  import opened Decimals
  import opened JsonText
  import opened JsonGrammar

  // ---- Objects: members in order, with an index by key ----

  // The first member with a key, by going through them all.
  function Scan(members: seq<Member>, key: Bytes): Option<JsonValue> {
    if members == [] then None
    else if members[0].key == key then Some(members[0].value)
    else Scan(members[1..], key)
  }

  // The index names exactly the keys of the members, each at its place.
  ghost predicate IndexOf(index: map<Bytes, nat>, members: seq<Member>) {
    && (forall k :: k in index ==> index[k] < |members| && members[index[k]].key == k)
    && (forall i :: 0 <= i < |members| ==> members[i].key in index && index[members[i].key] == i)
  }

  lemma {:induction false} ScanFinds(members: seq<Member>, key: Bytes, i: nat)
    requires KeysApart(members) && i < |members| && members[i].key == key
    ensures Scan(members, key) == Some(members[i].value) && HasKey(members, key)
  {
    if i > 0 {
      ScanFinds(members[1..], key, i - 1);
    }
  }

  lemma {:induction false} ScanMisses(members: seq<Member>, key: Bytes)
    requires forall i :: 0 <= i < |members| ==> members[i].key != key
    ensures Scan(members, key) == None && !HasKey(members, key)
  {
    if members != [] {
      ScanMisses(members[1..], key);
    }
  }

  lemma IndexDecides(index: map<Bytes, nat>, members: seq<Member>, key: Bytes)
    requires IndexOf(index, members)
    ensures KeysApart(members)
    ensures key in index <==> HasKey(members, key)
    ensures Scan(members, key) == if key in index then Some(members[index[key]].value) else None
  {
    if key in index {
      ScanFinds(members, key, index[key]);
    } else {
      ScanMisses(members, key);
    }
  }

  // A consistent index has as many entries as there are members.
  lemma {:induction false} IndexSize(index: map<Bytes, nat>, members: seq<Member>)
    requires IndexOf(index, members)
    ensures |index| == |members|
    decreases |members|
  {
    if members == [] {
      assert index.Keys == {};
      assert |index| == |index.Keys|;
    } else {
      var n := |members| - 1;
      var key := members[n].key;
      var less := index - {key};
      assert IndexOf(less, members[..n]);
      IndexSize(less, members[..n]);
      assert index.Keys == less.Keys + {key};
      assert |index| == |index.Keys| && |less| == |less.Keys|;
    }
  }

  lemma IndexAppend(index: map<Bytes, nat>, members: seq<Member>, m: Member)
    requires IndexOf(index, members) && m.key !in index
    ensures IndexOf(index[m.key := |members|], members + [m])
    ensures Scan(members + [m], m.key) == Some(m.value)
  {
    var more := members + [m];
    assert more[|members|] == m;
    assert forall i :: 0 <= i < |members| ==> more[i] == members[i];
    IndexDecides(index[m.key := |members|], more, m.key);
  }

  lemma IndexReplace(index: map<Bytes, nat>, members: seq<Member>, m: Member)
    requires IndexOf(index, members) && m.key in index
    ensures IndexOf(index, members[index[m.key] := m])
    ensures Scan(members[index[m.key] := m], m.key) == Some(m.value)
    ensures forall i :: 0 <= i < |members| ==>
      members[index[m.key] := m][i] == if members[i].key == m.key then m else members[i]
  {
    IndexDecides(index, members[index[m.key] := m], m.key);
  }

  class JsonObject {
    var members: seq<Member>
    var index: map<Bytes, nat>

    // The index is true: what every constructor and every operation leaves.
    ghost predicate Valid()
      reads this
    {
      KeysApart(members) && IndexOf(index, members) && |index| == |members|
    }

    // All that the operations rely on: an index that is not of the right size is rebuilt before it is used.
    ghost predicate Indexable()
      reads this
    {
      KeysApart(members) && (|index| == |members| ==> IndexOf(index, members))
    }

    constructor ()
      ensures Valid() && members == []
    {
      members, index := [], map[];
    }

    method Reindex()
      requires KeysApart(members)
      modifies `index
      ensures Valid()
    {
      index := map[];
      for i := 0 to |members|
        invariant IndexOf(index, members[..i])
      {
        assert members[..i + 1] == members[..i] + [members[i]];
        index := index[members[i].key := i];
      }
      assert members[..|members|] == members;
      IndexSize(index, members);
    }

    // A new key is appended; a known one changes nothing.
    method TryInsert(key: Bytes, value: JsonValue) returns (inserted: bool)
      requires Indexable()
      modifies this
      ensures Valid()
      ensures inserted <==> !HasKey(old(members), key)
      ensures members == if inserted then old(members) + [Member(key, value)] else old(members)
    {
      if |index| != |members| {
        Reindex();
      }
      IndexDecides(index, members, key);
      if key in index {
        return false;
      }
      IndexAppend(index, members, Member(key, value));
      members := members + [Member(key, value)];
      index := index[key := |members| - 1];
      IndexDecides(index, members, key);
      IndexSize(index, members);
      return true;
    }

    // A new key is appended; a known one gets the value in place, so the order of the members stays.
    method Assign(key: Bytes, value: JsonValue)
      requires Indexable()
      modifies this
      ensures Valid()
      ensures Scan(members, key) == Some(value)
      ensures if HasKey(old(members), key)
        then |members| == |old(members)| && (forall i :: 0 <= i < |members| ==>
               members[i] == if old(members)[i].key == key then Member(key, value) else old(members)[i])
        else members == old(members) + [Member(key, value)]
    {
      if |index| != |members| {
        Reindex();
      }
      IndexDecides(index, members, key);
      if key in index {
        IndexReplace(index, members, Member(key, value));
        members := members[index[key] := Member(key, value)];
      } else {
        IndexAppend(index, members, Member(key, value));
        members := members + [Member(key, value)];
        index := index[key := |members| - 1];
      }
      IndexSize(index, members);
      IndexDecides(index, members, key);
    }

    // Looking a key up in the index is looking through the members.
    method Find(key: Bytes) returns (found: Option<JsonValue>)
      requires Indexable()
      ensures Valid() ==> found == Scan(members, key)
      ensures |index| != |members| ==> found == None
    {
      if |index| != |members| {
        return None;
      }
      IndexDecides(index, members, key);
      if key !in index {
        return None;
      }
      return Some(members[index[key]].value);
    }
  }

  // ---- The parser ----

  // Positions and suffixes say the same.
  lemma Advance(text: Bytes, position: nat, n: nat)
    requires position + n <= |text|
    ensures text[position..][n..] == text[position + n..]
  {
  }

  class Parser {
    const text: Bytes
    const grammar: Grammar

    var position: nat
    var nodes: nat

    constructor (input: Bytes, rules: Grammar)
      ensures text == input && grammar == rules && position == 0 && nodes == 0
    {
      text, grammar, position, nodes := input, rules, 0, 0;
    }

    function Rest(): Bytes
      requires position <= |text|
      reads `position
    {
      text[position..]
    }

    // A method that read something did what the grammar says of the text that was left.
    ghost predicate Agrees(r: Result<JsonValue>, said: Result<Parsed>)
      reads `position, `nodes
    {
      && position <= |text|
      && match said
         case Err(e) => r == Err(e)
         case Ok(p) => r == Ok(p.value) && text[position..] == p.rest && nodes == p.nodes
    }

    method SkipWhitespace()
      requires position <= |text|
      modifies `position
      ensures old(position) <= position <= |text| && Rest() == Skip(old(Rest()))
    {
      while position < |text|
        invariant old(position) <= position <= |text|
        invariant Skip(text[position..]) == Skip(old(Rest()))
      {
        var c := text[position];
        if c == SPACE || c == TAB || c == NEWLINE || c == RETURN {
          Advance(text, position, 1);
          position := position + 1;
        } else {
          break;
        }
      }
    }

    method ParseLiteral(literal: Bytes, v: JsonValue) returns (r: Result<JsonValue>)
      requires position <= |text| && literal != []
      modifies `position
      ensures Agrees(r, Literal(old(Rest()), literal, v, nodes))
    {
      if |text| - position < |literal| || text[position..position + |literal|] != literal {
        assert !(literal <= text[position..]);
        return Err(InvalidArgument);
      }
      assert literal <= text[position..];
      Advance(text, position, |literal|);
      position := position + |literal|;
      return Ok(v);
    }

    // Four hexadecimal digits, one after the other.
    method ParseHex4() returns (r: Result<nat>)
      requires position <= |text|
      modifies `position
      ensures position <= |text|
      ensures match ReadHex4(old(Rest()))
              case Err(e) => r == Err(e)
              case Ok(Read(n, rest)) => r == Ok(n) && Rest() == rest && position == old(position) + 4
    {
      ghost var s := Rest();
      if position + 4 > |text| {
        return Err(InvalidArgument);
      }
      var value: nat := 0;
      for i := 0 to 4
        invariant position == old(position) + i
        invariant forall k :: 0 <= k < i ==> HexValue(s[k]) != None
        invariant i > 0 ==> value == Shift4(s, i)
        invariant i == 0 ==> value == 0
      {
        var c := text[position];
        assert c == s[i];
        position := position + 1;
        var digit := HexValue(c);
        if digit == None {
          return Err(InvalidArgument);
        }
        value := value * 16 + digit.value;
      }
      Advance(text, old(position), 4);
      return Ok(value);
    }

    // The value of the first n digits.
    ghost function Shift4(s: Bytes, n: nat): nat
      requires 1 <= n <= 4 && n <= |s| && forall k :: 0 <= k < n ==> HexValue(s[k]) != None
    {
      if n == 1 then HexValue(s[0]).value
      else if n == 2 then 16 * HexValue(s[0]).value + HexValue(s[1]).value
      else if n == 3 then 256 * HexValue(s[0]).value + 16 * HexValue(s[1]).value + HexValue(s[2]).value
      else 4096 * HexValue(s[0]).value + 256 * HexValue(s[1]).value + 16 * HexValue(s[2]).value + HexValue(s[3]).value
    }

    // The second half of a surrogate pair.
    method ParseLow(high: int) returns (r: Result<int>)
      requires position <= |text| && 0xD800 <= high <= 0xDBFF
      modifies `position
      ensures position <= |text|
      ensures match ReadLow(high, old(Rest()))
              case Err(e) => r == Err(e)
              case Ok(Read(c, rest)) => r == Ok(c) && Rest() == rest && position > old(position)
    {
      if position + 1 >= |text| || text[position] != BACKSLASH || text[position + 1] != LETTER_U {
        return Err(InvalidArgument);
      }
      Advance(text, position, 2);
      position := position + 2;
      var low := ParseHex4();
      if low.Err? {
        return Err(low.error);
      }
      if low.value < 0xDC00 || low.value > 0xDFFF {
        return Err(InvalidArgument);
      }
      return Ok(0x10000 + (high - 0xD800) * 1024 + (low.value - 0xDC00));
    }

    // The scalar value of an escape, with its second half when the first is a high surrogate.
    method ParseUnicode() returns (r: Result<int>)
      requires position <= |text|
      modifies `position
      ensures position <= |text|
      ensures match ReadUnicode(old(Rest()))
              case Err(e) => r == Err(e)
              case Ok(Read(c, rest)) => r == Ok(c) && Rest() == rest && position > old(position)
    {
      var high := ParseHex4();
      if high.Err? {
        return Err(high.error);
      }
      var value := high.value;
      if 0xD800 <= value <= 0xDBFF {
        r := ParseLow(value);
        return;
      } else if 0xDC00 <= value <= 0xDFFF {
        return Err(InvalidArgument);
      }
      return Ok(value);
    }

    method ParseString() returns (r: Result<Bytes>)
      requires position <= |text|
      modifies `position
      ensures position <= |text|
      ensures match ReadString(old(Rest()))
              case Err(e) => r == Err(e)
              case Ok(Read(t, rest)) => r == Ok(t) && Rest() == rest && position > old(position)
    {
      if position >= |text| || text[position] != QUOTE {
        return Err(InvalidArgument);
      }
      Advance(text, position, 1);
      position := position + 1;
      r := ParseChars();
    }

    method ParseEscape() returns (r: Result<Bytes>)
      requires position <= |text|
      modifies `position
      ensures position <= |text|
      ensures match ReadEscape(old(Rest()))
              case Err(e) => r == Err(e)
              case Ok(Read(c, rest)) => r == Ok(c) && Rest() == rest && position > old(position)
    {
      if position >= |text| {
        return Err(InvalidArgument);
      }
      var escape := text[position];
      Advance(text, position, 1);
      position := position + 1;
      if escape == LETTER_U {
        var code := ParseUnicode();
        if code.Err? {
          return Err(code.error);
        }
        return Ok(Utf8(code.value));
      }
      var simple := SimpleEscape(escape);
      if simple == None {
        return Err(InvalidArgument);
      }
      return Ok([simple.value]);
    }

    // The next character of a string, or its end.
    method ParseChar() returns (r: Result<Option<Bytes>>)
      requires position <= |text|
      modifies `position
      ensures position <= |text|
      ensures match NextChar(old(Rest()))
              case Err(e) => r == Err(e)
              case Ok(Read(c, rest)) => r == Ok(c) && Rest() == rest && position > old(position)
    {
      if position >= |text| {
        return Err(InvalidArgument);
      }
      var c := text[position];
      Advance(text, position, 1);
      position := position + 1;
      if c == QUOTE {
        return Ok(None);
      }
      if c != BACKSLASH {
        if c < 0x20 {
          return Err(InvalidArgument);
        }
        return Ok(Some([c]));
      }
      var escaped := ParseEscape();
      if escaped.Err? {
        return Err(escaped.error);
      }
      return Ok(Some(escaped.value));
    }

    // The loop of a string, one character or escape at a time.
    method ParseChars() returns (r: Result<Bytes>)
      requires position <= |text|
      modifies `position
      ensures position <= |text|
      ensures match ReadChars(old(Rest()), [])
              case Err(e) => r == Err(e)
              case Ok(Read(t, rest)) => r == Ok(t) && Rest() == rest && position >= old(position)
    {
      ghost var said := ReadChars(Rest(), []);
      var out: Bytes := [];
      while true
        invariant old(position) <= position <= |text| && ReadChars(Rest(), out) == said
        decreases |text| - position
      {
        CharsUnroll(Rest(), out);
        var c := ParseChar();
        if c.Err? {
          return Err(c.error);
        }
        if c.value == None {
          return Ok(out);
        }
        out := out + c.value.value;
      }
    }

    // The longest run of number characters, and whether it is all digits and has any.
    method ScanNumber() returns (isInteger: bool, anyDigit: bool)
      requires position <= |text|
      modifies `position
      ensures position == old(position) + Run(old(Rest())) <= |text|
      ensures isInteger <==> AllDigits(old(Rest())[..Run(old(Rest()))])
      ensures anyDigit <==> HasDigit(old(Rest())[..Run(old(Rest()))])
    {
      var from := position;
      ghost var body := Rest();
      isInteger, anyDigit := true, false;
      while position < |text|
        invariant from <= position <= |text|
        invariant forall i :: 0 <= i < position - from ==> IsNumberChar(body[i])
        invariant isInteger <==> AllDigits(body[..position - from])
        invariant anyDigit <==> HasDigit(body[..position - from])
      {
        var c := text[position];
        ghost var k := position - from;
        assert c == body[k];
        if IsDigit(c) {
          DigitMore(body, k);
          anyDigit := true;
          position := position + 1;
        } else if IsSymbol(c) {
          SymbolMore(body, k);
          isInteger := false;
          position := position + 1;
        } else {
          break;
        }
      }
      RunIs(body, position - from);
    }

    // A number is read as an integer when it looks like one, and otherwise handed to the platform.
    method ParseNumber() returns (r: Result<JsonValue>)
      requires position <= |text|
      modifies `position
      ensures Agrees(r, JsonGrammar.ParseNumber(old(Rest()), nodes, grammar))
    {
      var start := position;
      var negative := position < |text| && text[position] == MINUS;
      if negative {
        position := position + 1;
      }
      var from := position;
      var isInteger, anyDigit := ScanNumber();
      NumberTaken(text, start, from, position, nodes, grammar);
      r := Convert(text[start..position], text[from..position], negative, isInteger, anyDigit);
    }

    method Convert(token: Bytes, run: Bytes, negative: bool, isInteger: bool, anyDigit: bool) returns (r: Result<JsonValue>)
      requires (isInteger <==> AllDigits(run)) && (anyDigit <==> HasDigit(run))
      ensures r == NumberOf(token, run, negative, grammar.floats)
    {
      if !anyDigit {
        return Err(InvalidArgument);
      }
      if isInteger {
        var value := Signed(negative, Decimal(run));
        if FitsSigned(value, I64_MAX) {
          return Ok(Int(value));
        }
        return Err(OutOfRange);
      }
      var d := grammar.floats.read(token);
      if d == None {
        return Err(InvalidArgument);
      }
      return Ok(Double(d.value));
    }

    method CountNode() returns (ok: bool)
      modifies `nodes
      ensures nodes == old(nodes) + 1 && (ok <==> nodes <= grammar.maxNodes)
    {
      nodes := nodes + 1;
      ok := nodes <= grammar.maxNodes;
    }

    method ParseValue(depth: nat) returns (r: Result<JsonValue>)
      requires position <= |text|
      modifies this
      ensures Agrees(r, JsonGrammar.ParseValue(old(Rest()), depth, old(nodes), grammar))
      decreases |text| - position, 1
    {
      if depth > grammar.maxDepth {
        return Err(LimitExceeded);
      }
      var counted := CountNode();
      if !counted {
        return Err(LimitExceeded);
      }
      if position >= |text| {
        return Err(InvalidArgument);
      }
      var c := text[position];
      if c == OPEN_BRACE {
        r := ParseObject(depth);
      } else if c == OPEN_BRACKET {
        r := ParseArray(depth);
      } else if c == QUOTE {
        var t := ParseString();
        r := match t case Ok(chars) => Ok(Str(chars)) case Err(e) => Err(e);
      } else if c == LETTER_T {
        r := ParseLiteral(TRUE_TEXT, Bool(true));
      } else if c == LETTER_F {
        r := ParseLiteral(FALSE_TEXT, Bool(false));
      } else if c == LETTER_N {
        r := ParseLiteral(NULL_TEXT, Null);
      } else {
        r := ParseNumber();
      }
    }

    method ParseArray(depth: nat) returns (r: Result<JsonValue>)
      requires position < |text| && text[position] == OPEN_BRACKET
      modifies this
      ensures Agrees(r, JsonGrammar.ParseArray(old(Rest())[1..], depth, old(nodes), grammar))
      decreases |text| - position, 0
    {
      ghost var said := JsonGrammar.ParseArray(Rest()[1..], depth, nodes, grammar);
      Advance(text, position, 1);
      position := position + 1;
      SkipWhitespace();
      if position >= |text| {
        return Err(InvalidArgument);
      }
      Advance(text, position, 1);
      if text[position] == CLOSE_BRACKET {
        position := position + 1;
        return Ok(Array([]));
      }
      r := ParseItems(depth);
    }

    method ParseItems(depth: nat) returns (r: Result<JsonValue>)
      requires position <= |text|
      modifies this
      ensures Agrees(r, JsonGrammar.ParseItems(old(Rest()), depth, old(nodes), grammar, []))
      decreases |text| - position, 3
    {
      var items: seq<JsonValue> := [];
      var going := true;
      r := Err(InvalidArgument);
      ghost var said := JsonGrammar.ParseItems(Rest(), depth, nodes, grammar, []);
      while going
        invariant position <= |text|
        invariant going ==> old(position) <= position && JsonGrammar.ParseItems(Rest(), depth, nodes, grammar, items) == said
        invariant !going ==> Agrees(r, said)
        decreases going, |text| - position
      {
        ItemsUnroll(Rest(), depth, nodes, grammar, items);
        r, items, going := ItemRound(depth, items);
      }
    }

    // One round of the item loop.
    method ItemRound(depth: nat, before: seq<JsonValue>) returns (r: Result<JsonValue>, items: seq<JsonValue>, going: bool)
      requires position <= |text|
      modifies this
      ensures ItemsStep(r, items, going, old(position),
                AfterItem(JsonGrammar.ParseValue(Skip(old(Rest())), depth + 1, old(nodes), grammar), before))
      decreases |text| - position, 2
    {
      SkipWhitespace();
      ghost var said := JsonGrammar.ParseValue(Rest(), depth + 1, nodes, grammar);
      ghost var left := Rest();
      var item := ParseValue(depth + 1);
      if item.Err? {
        return Err(item.error), before, false;
      }
      assert |Rest()| < |left|;
      r, items, going := NextItem(item.value, before, said);
    }

    // A round either goes on behind a comma or stops with the result.
    ghost predicate ItemsStep(r: Result<JsonValue>, items: seq<JsonValue>, going: bool, from: nat, step: Step<seq<JsonValue>>)
      reads `position, `nodes
    {
      && position <= |text|
      && match step
         case Stop(said) => !going && Agrees(r, said)
         case Again(rest, count, more) => going && from < position && Rest() == rest && nodes == count && items == more
    }

    // What stands behind an item or a member: a comma, the closing bracket, or neither.
    method TakeSeparator(close: Byte) returns (token: Separator)
      requires position <= |text| && close != COMMA
      modifies `position
      ensures position <= |text|
      ensures var u := Skip(old(Rest()));
        if u != [] && (u[0] == COMMA || u[0] == close)
        then token == (if u[0] == COMMA then Another else Closing) && Rest() == u[1..] && position > old(position)
        else token == Neither
    {
      SkipWhitespace();
      if position >= |text| || (text[position] != COMMA && text[position] != close) {
        return Neither;
      }
      Advance(text, position, 1);
      token := if text[position] == COMMA then Another else Closing;
      position := position + 1;
    }

    // After an item: another one behind a comma, or the end.
    method NextItem(item: JsonValue, before: seq<JsonValue>, ghost said: Result<Parsed>)
      returns (r: Result<JsonValue>, items: seq<JsonValue>, going: bool)
      requires said.Ok? && Agrees(Ok(item), said)
      modifies `position
      ensures ItemsStep(r, items, going, old(position), AfterItem(said, before))
    {
      items := before + [item];
      var token := TakeSeparator(CLOSE_BRACKET);
      match token {
        case Another => return Err(InvalidArgument), items, true;
        case Closing => return Ok(Array(items)), items, false;
        case Neither => return Err(InvalidArgument), items, false;
      }
    }

    method ParseObject(depth: nat) returns (r: Result<JsonValue>)
      requires position < |text| && text[position] == OPEN_BRACE
      modifies this
      ensures Agrees(r, JsonGrammar.ParseObject(old(Rest())[1..], depth, old(nodes), grammar))
      decreases |text| - position, 0
    {
      Advance(text, position, 1);
      position := position + 1;
      SkipWhitespace();
      if position >= |text| {
        return Err(InvalidArgument);
      }
      Advance(text, position, 1);
      if text[position] == CLOSE_BRACE {
        position := position + 1;
        return Ok(Object([]));
      }
      r := ParseMembers(depth);
    }

    // The colon behind a key; the result is the error, if any.
    method ParseColon() returns (error: Option<ErrorCode>)
      requires position <= |text|
      modifies `position
      ensures position <= |text|
      ensures match ReadColon(old(Rest()))
              case Err(e) => error == Some(e)
              case Ok(rest) => error == None && Rest() == rest && position > old(position)
    {
      SkipWhitespace();
      if position >= |text| || text[position] != COLON {
        return Some(InvalidArgument);
      }
      Advance(text, position, 1);
      position := position + 1;
      SkipWhitespace();
      return None;
    }

    // A key and the colon after it, up to its value.
    method ParseKey() returns (r: Result<Bytes>)
      requires position <= |text|
      modifies `position
      ensures position <= |text|
      ensures match ReadKey(old(Rest()))
              case Err(e) => r == Err(e)
              case Ok(Read(key, rest)) => r == Ok(key) && Rest() == rest && position > old(position)
    {
      SkipWhitespace();
      r := ParseString();
      if r.Err? {
        return;
      }
      var error := ParseColon();
      if error.Some? {
        return Err(error.value);
      }
    }

    method ParseMembers(depth: nat) returns (r: Result<JsonValue>)
      requires position <= |text|
      modifies this
      ensures Agrees(r, JsonGrammar.ParseMembers(old(Rest()), depth, old(nodes), grammar, []))
      decreases |text| - position, 3
    {
      var filled := new JsonObject();
      var going := true;
      r := Err(InvalidArgument);
      ghost var said := JsonGrammar.ParseMembers(Rest(), depth, nodes, grammar, []);
      while going
        invariant position <= |text| && fresh(filled) && filled.Valid()
        invariant going ==> (
          old(position) <= position && JsonGrammar.ParseMembers(Rest(), depth, nodes, grammar, filled.members) == said)
        invariant !going ==> Agrees(r, said)
        decreases going, |text| - position
      {
        MembersUnroll(Rest(), depth, nodes, grammar, filled.members);
        r, going := MemberRound(depth, filled);
      }
    }

    // One round of the member loop.
    method MemberRound(depth: nat, filled: JsonObject) returns (r: Result<JsonValue>, going: bool)
      requires position <= |text| && filled.Valid()
      modifies this, filled
      ensures filled.Valid()
      ensures match ReadKey(old(Rest()))
              case Err(e) => !going && r == Err(e) && position <= |text|
              case Ok(Read(key, after)) =>
                MembersStep(r, filled, going, old(position),
                  AfterMember(JsonGrammar.ParseValue(after, depth + 1, old(nodes), grammar), key, old(filled.members)))
      decreases |text| - position, 2
    {
      var key := ParseKey();
      if key.Err? {
        return Err(key.error), false;
      }
      ghost var said := JsonGrammar.ParseValue(Rest(), depth + 1, nodes, grammar);
      ghost var left := Rest();
      var value := ParseValue(depth + 1);
      if value.Err? {
        return Err(value.error), false;
      }
      assert |Rest()| < |left|;
      r, going := NextMember(key.value, value.value, filled, said);
    }

    ghost predicate MembersStep(r: Result<JsonValue>, filled: JsonObject, going: bool, from: nat, step: Step<seq<Member>>)
      reads `position, `nodes, filled
    {
      && position <= |text|
      && match step
         case Stop(said) => !going && Agrees(r, said)
         case Again(rest, count, more) => going && from < position && Rest() == rest && nodes == count && filled.members == more
    }

    // After a member: its key must be new; then another one behind a comma, or the end.
    method NextMember(key: Bytes, value: JsonValue, filled: JsonObject, ghost said: Result<Parsed>)
      returns (r: Result<JsonValue>, going: bool)
      requires said.Ok? && Agrees(Ok(value), said) && filled.Valid()
      modifies `position, filled
      ensures filled.Valid()
      ensures MembersStep(r, filled, going, old(position), AfterMember(said, key, old(filled.members)))
    {
      var inserted := filled.TryInsert(key, value);
      if !inserted {
        return Err(InvalidArgument), false;
      }
      var token := TakeSeparator(CLOSE_BRACE);
      match token {
        case Another => return Err(InvalidArgument), true;
        case Closing => return Ok(Object(filled.members)), false;
        case Neither => return Err(InvalidArgument), false;
      }
    }

    method ParseDocument() returns (r: Result<JsonValue>)
      requires position == 0 && nodes == 0
      modifies this
      ensures r == JsonGrammar.ParseDocument(text, grammar)
    {
      if |text| > grammar.maxBytes {
        return Err(LimitExceeded);
      }
      assert Rest() == text;
      SkipWhitespace();
      r := ParseValue(0);
      if r.Err? {
        return;
      }
      SkipWhitespace();
      if position != |text| {
        return Err(InvalidArgument);
      }
    }
  }

  function ValueOf(x: Number): JsonValue {
    match x
    case Whole(i) => Int(i)
    case Fractional(d) => Double(d)
  }

  ghost function NumberOf(token: Bytes, run: Bytes, negative: bool, floats: Floats): Result<JsonValue> {
    match NumberFrom(token, run, negative, floats)
    case Err(e) => Err(e)
    case Ok(x) => Ok(ValueOf(x))
  }

  lemma NumberSaid(s: Bytes, body: Bytes, token: Bytes, run: Bytes, rest: Bytes, nodes: nat, g: Grammar)
    requires body == if s != [] && s[0] == MINUS then s[1..] else s
    requires token == s[..|s| - |body| + Run(body)] && run == body[..Run(body)] && rest == body[Run(body)..]
    ensures ParseNumber(s, nodes, g)
      == match NumberOf(token, run, s != [] && s[0] == MINUS, g.floats)
         case Err(e) => Err(e)
         case Ok(v) => Ok(Parsed(v, rest, nodes))
  {
  }

  // The number at the start of what is left, from its sign to the end of its run.
  lemma NumberTaken(text: Bytes, start: nat, from: nat, to: nat, nodes: nat, g: Grammar)
    requires start <= from <= to <= |text| && to == from + Run(text[from..])
    requires from == if start < |text| && text[start] == MINUS then start + 1 else start
    ensures text[from..][..Run(text[from..])] == text[from..to]
    ensures ParseNumber(text[start..], nodes, g)
      == match NumberOf(text[start..to], text[from..to], from > start, g.floats)
         case Err(e) => Err(e)
         case Ok(v) => Ok(Parsed(v, text[to..], nodes))
  {
    var s, body := text[start..], text[from..];
    Slices(text, start, from, to);
    assert from > start ==> s[1..] == body;
    assert |s| - |body| + Run(body) == to - start;
    NumberSaid(s, body, text[start..to], text[from..to], text[to..], nodes, g);
  }

  lemma Slices(text: Bytes, start: nat, from: nat, to: nat)
    requires start <= from <= to <= |text|
    ensures text[start..][..to - start] == text[start..to]
    ensures text[from..][..to - from] == text[from..to]
    ensures text[from..][to - from..] == text[to..]
  {
  }

  // One character of a string: itself, what it escapes to, or nothing at the closing quote.
  function NextChar(s: Bytes): (r: Result<Read<Option<Bytes>>>)
    ensures r.Ok? ==> |r.value.rest| < |s|
  {
    if s == [] then Err(InvalidArgument)
    else if s[0] == QUOTE then Ok(Read(None, s[1..]))
    else if s[0] != BACKSLASH then
      if s[0] < 0x20 then Err(InvalidArgument) else Ok(Read(Some([s[0]]), s[1..]))
    else
      match ReadEscape(s[1..])
      case Err(e) => Err(e)
      case Ok(Read(c, rest)) => Ok(Read(Some(c), rest))
  }

  lemma {:induction false} CharsUnroll(s: Bytes, out: Bytes)
    ensures ReadChars(s, out)
      == match NextChar(s)
         case Err(e) => Err(e)
         case Ok(Read(c, rest)) => if c == None then Ok(Read(out, rest)) else ReadChars(rest, out + c.value)
  {
  }

  lemma DigitMore(body: Bytes, k: nat)
    requires k < |body| && IsDigit(body[k])
    ensures HasDigit(body[..k + 1]) && (AllDigits(body[..k + 1]) <==> AllDigits(body[..k]))
  {
    var more := body[..k + 1];
    assert more[k] == body[k];
    assert forall i :: 0 <= i < k ==> more[i] == body[..k][i];
  }

  lemma SymbolMore(body: Bytes, k: nat)
    requires k < |body| && IsSymbol(body[k])
    ensures !AllDigits(body[..k + 1]) && (HasDigit(body[..k + 1]) <==> HasDigit(body[..k]))
  {
    var more := body[..k + 1];
    assert more[k] == body[k];
    assert forall i :: 0 <= i < k ==> more[i] == body[..k][i];
  }

  lemma RunIs(body: Bytes, n: nat)
    requires n <= |body| && (forall i :: 0 <= i < n ==> IsNumberChar(body[i]))
    requires n < |body| ==> !IsNumberChar(body[n])
    ensures Run(body) == n
  {
    RunStops(body[..n], body[n..]);
    assert body[..n] + body[n..] == body;
  }

  datatype Separator = Another | Closing | Neither

  // One round of a loop over items or members: it stops, or goes on with the rest.
  datatype Step<T> = Stop(said: Result<Parsed>) | Again(rest: Bytes, nodes: nat, more: T)

  ghost function AfterItem(said: Result<Parsed>, items: seq<JsonValue>): Step<seq<JsonValue>> {
    match said
    case Err(e) => Stop(Err(e))
    case Ok(Parsed(v, rest, count)) =>
      var u := Skip(rest);
      if u == [] then Stop(Err(InvalidArgument))
      else if u[0] == COMMA then Again(u[1..], count, items + [v])
      else if u[0] == CLOSE_BRACKET then Stop(Ok(Parsed(Array(items + [v]), u[1..], count)))
      else Stop(Err(InvalidArgument))
  }

  ghost function AfterMember(said: Result<Parsed>, key: Bytes, members: seq<Member>): Step<seq<Member>> {
    match said
    case Err(e) => Stop(Err(e))
    case Ok(Parsed(v, rest, count)) =>
      var u := Skip(rest);
      if HasKey(members, key) || u == [] then Stop(Err(InvalidArgument))
      else if u[0] == COMMA then Again(u[1..], count, members + [Member(key, v)])
      else if u[0] == CLOSE_BRACE then Stop(Ok(Parsed(Object(members + [Member(key, v)]), u[1..], count)))
      else Stop(Err(InvalidArgument))
  }

  lemma ItemsUnroll(s: Bytes, depth: nat, nodes: nat, g: Grammar, items: seq<JsonValue>)
    ensures ParseItems(s, depth, nodes, g, items)
      == match AfterItem(ParseValue(Skip(s), depth + 1, nodes, g), items)
         case Stop(said) => said
         case Again(rest, count, more) => ParseItems(rest, depth, count, g, more)
  {
  }

  lemma MembersUnroll(s: Bytes, depth: nat, nodes: nat, g: Grammar, members: seq<Member>)
    ensures match ReadKey(s)
      case Err(e) => ParseMembers(s, depth, nodes, g, members) == Err(e)
      case Ok(Read(key, after)) =>
        ParseMembers(s, depth, nodes, g, members)
        == match AfterMember(ParseValue(after, depth + 1, nodes, g), key, members)
           case Stop(said) => said
           case Again(rest, count, more) => ParseMembers(rest, depth, count, g, more)
  {
  }

  method ParseJson(text: Bytes, grammar: Grammar) returns (r: Result<JsonValue>)
    ensures r == ParseDocument(text, grammar)
  {
    var parser := new Parser(text, grammar);
    r := parser.ParseDocument();
  }
}
