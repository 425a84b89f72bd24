// JSON documents (src/core/json.cpp): what the writer writes, what the parser accepts, and that the one
// undoes the other.
module JsonGrammar {
  import opened Base
  import opened Checked
  import opened Decimals
  import opened JsonText

  datatype JsonValue =
    | Null
    | Bool(b: bool)
    | Int(i: int)
    | Double(d: real)
    | Str(text: Bytes)
    | Array(items: seq<JsonValue>)
    | Object(members: seq<Member>)

  datatype Member = Member(key: Bytes, value: JsonValue)

  const OPEN_BRACKET: Byte := 0x5B
  const CLOSE_BRACKET: Byte := 0x5D
  const OPEN_BRACE: Byte := 0x7B
  const CLOSE_BRACE: Byte := 0x7D
  const COMMA: Byte := 0x2C
  const COLON: Byte := 0x3A

  const TRUE_TEXT: Bytes := [0x74, 0x72, 0x75, 0x65]
  const FALSE_TEXT: Bytes := [0x66, 0x61, 0x6C, 0x73, 0x65]
  const NULL_TEXT: Bytes := [0x6E, 0x75, 0x6C, 0x6C]

  // ---- Writing ----

  // How a document is laid out, and how floating-point numbers are shown.
  datatype Style = Style(indent: int, floats: Floats)

  function Spaces(n: int): Bytes { if n <= 0 then [] else [SPACE] + Spaces(n - 1) }

  function Indent(style: Style, level: int): Bytes {
    if style.indent <= 0 then [] else [NEWLINE] + Spaces(style.indent * level)
  }

  function Separator(first: bool): Bytes { if first then [] else [COMMA] }

  function Gap(style: Style): Bytes { if style.indent > 0 then [SPACE] else [] }

  function Write(v: JsonValue, style: Style, level: nat): Bytes
    decreases v
  {
    match v
    case Null => NULL_TEXT
    case Bool(b) => if b then TRUE_TEXT else FALSE_TEXT
    case Int(i) => ShowInt(i)
    case Double(d) => style.floats.show(d)
    case Str(text) => Quoted(text)
    case Array(items) => if items == [] then [OPEN_BRACKET, CLOSE_BRACKET] else [OPEN_BRACKET] + WriteItems(items, style, level, true)
    case Object(members) => if members == [] then [OPEN_BRACE, CLOSE_BRACE] else [OPEN_BRACE] + WriteMembers(members, style, level, true)
  }

  // The items still to come, each behind its separator and indentation, and the closing bracket.
  function WriteItems(items: seq<JsonValue>, style: Style, level: nat, first: bool): Bytes
    decreases items
  {
    if items == [] then Indent(style, level) + [CLOSE_BRACKET]
    else Separator(first) + (Indent(style, level + 1) + (Write(items[0], style, level + 1) + WriteItems(items[1..], style, level, false)))
  }

  function WriteMembers(members: seq<Member>, style: Style, level: nat, first: bool): Bytes
    decreases members
  {
    if members == [] then Indent(style, level) + [CLOSE_BRACE]
    else Separator(first) + (Indent(style, level + 1) + (WriteMember(members[0], style, level + 1) + WriteMembers(members[1..], style, level, false)))
  }

  function WriteMember(m: Member, style: Style, level: nat): Bytes
    decreases m
  {
    Quoted(m.key) + ([COLON] + (Gap(style) + Write(m.value, style, level)))
  }

  // ---- Parsing ----

  datatype Grammar = Grammar(maxDepth: nat, maxNodes: nat, maxBytes: nat, floats: Floats)

  datatype Parsed = Parsed(value: JsonValue, rest: Bytes, nodes: nat)

  predicate HasKey(members: seq<Member>, key: Bytes) {
    members != [] && (members[0].key == key || HasKey(members[1..], key))
  }

  ghost predicate KeysApart(members: seq<Member>) {
    forall i, j :: 0 <= i < j < |members| ==> members[i].key != members[j].key
  }

  function Literal(s: Bytes, literal: Bytes, v: JsonValue, nodes: nat): (r: Result<Parsed>)
    requires literal != []
    ensures r.Ok? ==> |r.value.rest| < |s|
  {
    if literal <= s then Ok(Parsed(v, s[|literal|..], nodes)) else Err(InvalidArgument)
  }

  ghost function ParseNumber(s: Bytes, nodes: nat, g: Grammar): (r: Result<Parsed>)
    ensures r.Ok? ==> |r.value.rest| < |s|
  {
    match ReadNumber(s, g.floats)
    case Err(e) => Err(e)
    case Ok(Read(Whole(i), rest)) => Ok(Parsed(Int(i), rest, nodes))
    case Ok(Read(Fractional(d), rest)) => Ok(Parsed(Double(d), rest, nodes))
  }

  function ParseText(s: Bytes, nodes: nat): (r: Result<Parsed>)
    ensures r.Ok? ==> |r.value.rest| < |s|
  {
    match ReadString(s)
    case Err(e) => Err(e)
    case Ok(Read(text, rest)) => Ok(Parsed(Str(text), rest, nodes))
  }

  ghost function ParseValue(s: Bytes, depth: nat, nodes: nat, g: Grammar): (r: Result<Parsed>)
    ensures r.Ok? ==> |r.value.rest| < |s|
    decreases |s|, 0
  {
    if depth > g.maxDepth then Err(LimitExceeded)
    else if nodes + 1 > g.maxNodes then Err(LimitExceeded)
    else if s == [] then Err(InvalidArgument)
    else if s[0] == OPEN_BRACE then ParseObject(s[1..], depth, nodes + 1, g)
    else if s[0] == OPEN_BRACKET then ParseArray(s[1..], depth, nodes + 1, g)
    else if s[0] == QUOTE then ParseText(s, nodes + 1)
    else if s[0] == LETTER_T then Literal(s, TRUE_TEXT, Bool(true), nodes + 1)
    else if s[0] == LETTER_F then Literal(s, FALSE_TEXT, Bool(false), nodes + 1)
    else if s[0] == LETTER_N then Literal(s, NULL_TEXT, Null, nodes + 1)
    else ParseNumber(s, nodes + 1, g)
  }

  // After the opening bracket.
  ghost function ParseArray(s: Bytes, depth: nat, nodes: nat, g: Grammar): (r: Result<Parsed>)
    ensures r.Ok? ==> |r.value.rest| < |s|
    decreases |s|, 2
  {
    var t := Skip(s);
    if t == [] then Err(InvalidArgument)
    else if t[0] == CLOSE_BRACKET then Ok(Parsed(Array([]), t[1..], nodes))
    else ParseItems(t, depth, nodes, g, [])
  }

  ghost function ParseItems(s: Bytes, depth: nat, nodes: nat, g: Grammar, items: seq<JsonValue>): (r: Result<Parsed>)
    ensures r.Ok? ==> |r.value.rest| < |s|
    decreases |s|, 1
  {
    match ParseValue(Skip(s), depth + 1, nodes, g)
    case Err(e) => Err(e)
    case Ok(Parsed(v, rest, count)) =>
      var u := Skip(rest);
      if u == [] then Err(InvalidArgument)
      else if u[0] == COMMA then ParseItems(u[1..], depth, count, g, items + [v])
      else if u[0] == CLOSE_BRACKET then Ok(Parsed(Array(items + [v]), u[1..], count))
      else Err(InvalidArgument)
  }

  // After the opening brace.
  ghost function ParseObject(s: Bytes, depth: nat, nodes: nat, g: Grammar): (r: Result<Parsed>)
    ensures r.Ok? ==> |r.value.rest| < |s|
    decreases |s|, 2
  {
    var t := Skip(s);
    if t == [] then Err(InvalidArgument)
    else if t[0] == CLOSE_BRACE then Ok(Parsed(Object([]), t[1..], nodes))
    else ParseMembers(t, depth, nodes, g, [])
  }

  // A colon, and what follows the white space after it.
  function ReadColon(s: Bytes): (r: Result<Bytes>)
    ensures r.Ok? ==> |r.value| < |s|
  {
    var u := Skip(s);
    if u == [] || u[0] != COLON then Err(InvalidArgument) else Ok(Skip(u[1..]))
  }

  // A key, a colon and what follows the white space after it.
  function ReadKey(s: Bytes): (r: Result<Read<Bytes>>)
    ensures r.Ok? ==> |r.value.rest| < |s|
  {
    match ReadString(Skip(s))
    case Err(e) => Err(e)
    case Ok(Read(key, rest)) =>
      match ReadColon(rest)
      case Err(e) => Err(e)
      case Ok(after) => Ok(Read(key, after))
  }

  ghost function ParseMembers(s: Bytes, depth: nat, nodes: nat, g: Grammar, members: seq<Member>): (r: Result<Parsed>)
    ensures r.Ok? ==> |r.value.rest| < |s|
    decreases |s|, 1
  {
    match ReadKey(s)
    case Err(e) => Err(e)
    case Ok(Read(key, after)) =>
      match ParseValue(after, depth + 1, nodes, g)
      case Err(e) => Err(e)
      case Ok(Parsed(v, rest, count)) =>
        if HasKey(members, key) then Err(InvalidArgument)
        else
          var u := Skip(rest);
          if u == [] then Err(InvalidArgument)
          else if u[0] == COMMA then ParseMembers(u[1..], depth, count, g, members + [Member(key, v)])
          else if u[0] == CLOSE_BRACE then Ok(Parsed(Object(members + [Member(key, v)]), u[1..], count))
          else Err(InvalidArgument)
  }

  ghost function ParseDocument(text: Bytes, g: Grammar): Result<JsonValue> {
    if |text| > g.maxBytes then Err(LimitExceeded)
    else
      match ParseValue(Skip(text), 0, 0, g)
      case Err(e) => Err(e)
      case Ok(Parsed(v, rest, _)) => if Skip(rest) == [] then Ok(v) else Err(InvalidArgument)
  }

  // ---- Which values survive ----

  // The nesting below a value, and the number of values in it.
  function Height(v: JsonValue): nat
    decreases v
  {
    match v
    case Array(items) => if items == [] then 0 else 1 + HeightOfItems(items)
    case Object(members) => if members == [] then 0 else 1 + HeightOfMembers(members)
    case _ => 0
  }

  function HeightOfItems(items: seq<JsonValue>): nat
    decreases items
  {
    if items == [] then 0 else Max(Height(items[0]), HeightOfItems(items[1..]))
  }

  function HeightOfMembers(members: seq<Member>): nat
    decreases members
  {
    if members == [] then 0 else Max(Height(members[0].value), HeightOfMembers(members[1..]))
  }

  function Count(v: JsonValue): nat
    decreases v
  {
    match v
    case Array(items) => 1 + CountItems(items)
    case Object(members) => 1 + CountMembers(members)
    case _ => 1
  }

  function CountItems(items: seq<JsonValue>): nat
    decreases items
  {
    if items == [] then 0 else Count(items[0]) + CountItems(items[1..])
  }

  function CountMembers(members: seq<Member>): nat
    decreases members
  {
    if members == [] then 0 else Count(members[0].value) + CountMembers(members[1..])
  }
}
