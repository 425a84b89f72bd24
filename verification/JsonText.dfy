// The text of JSON strings and numbers (src/core/json.cpp): escaping, the string grammar with surrogate
// escapes (section 7 of RFC 8259), UTF-8 (section 3 of RFC 3629) and number tokens.
module JsonText {
  import opened Base
  import opened Checked
  import opened Decimals

  const QUOTE: Byte := 0x22
  const BACKSLASH: Byte := 0x5C
  const SLASH: Byte := 0x2F
  const MINUS: Byte := 0x2D
  const SPACE: Byte := 0x20
  const TAB: Byte := 0x09
  const NEWLINE: Byte := 0x0A
  const RETURN: Byte := 0x0D
  const BACKSPACE: Byte := 0x08
  const FORMFEED: Byte := 0x0C
  const LETTER_B: Byte := 0x62
  const LETTER_F: Byte := 0x66
  const LETTER_N: Byte := 0x6E
  const LETTER_R: Byte := 0x72
  const LETTER_T: Byte := 0x74
  const LETTER_U: Byte := 0x75

  // A value read from the front of a text, and what follows it.
  datatype Read<+T> = Read(value: T, rest: Bytes)

  // ---- White space ----

  predicate IsSpace(c: Byte) { c == SPACE || c == TAB || c == NEWLINE || c == RETURN }

  function Skip(s: Bytes): (r: Bytes)
    ensures |r| <= |s|
  {
    if s != [] && IsSpace(s[0]) then Skip(s[1..]) else s
  }

  lemma {:induction false} SkipSpaces(spaces: Bytes, s: Bytes)
    requires forall i :: 0 <= i < |spaces| ==> IsSpace(spaces[i])
    ensures Skip(spaces + s) == Skip(s)
  {
    if spaces == [] {
      assert spaces + s == s;
    } else {
      SkipSpaces(spaces[1..], s);
      assert (spaces + s)[1..] == spaces[1..] + s;
    }
  }

  // ---- Hexadecimal digits ----

  function HexValue(c: Byte): Option<nat> {
    if 0x30 <= c <= 0x39 then Some(c as int - 0x30)
    else if 0x61 <= c <= 0x66 then Some(c as int - 0x61 + 10)
    else if 0x41 <= c <= 0x46 then Some(c as int - 0x41 + 10)
    else None
  }

  function HexDigit(n: nat): (c: Byte)
    requires n < 16
    ensures HexValue(c) == Some(n)
  {
    if n < 10 then (0x30 + n) as Byte else (0x61 + n - 10) as Byte
  }

  function Hex4(n: nat): (s: Bytes)
    requires n < 0x10000
    ensures |s| == 4
  {
    [HexDigit(n / 4096), HexDigit(n / 256 % 16), HexDigit(n / 16 % 16), HexDigit(n % 16)]
  }

  function ReadHex4(s: Bytes): Result<Read<nat>> {
    if |s| < 4 then Err(InvalidArgument)
    else if HexValue(s[0]) == None || HexValue(s[1]) == None || HexValue(s[2]) == None || HexValue(s[3]) == None then Err(InvalidArgument)
    else Ok(Read(4096 * HexValue(s[0]).value + 256 * HexValue(s[1]).value + 16 * HexValue(s[2]).value + HexValue(s[3]).value, s[4..]))
  }

  lemma HexQuotients(n: nat)
    ensures n / 256 == n / 16 / 16
    ensures n / 4096 == n / 256 / 16
  {
  }

  lemma HexSplit(n: nat)
    requires n < 0x10000
    ensures n == 4096 * (n / 4096) + 256 * (n / 256 % 16) + 16 * (n / 16 % 16) + n % 16
  {
    HexQuotients(n);
    var a, b := n / 16, n / 256;
    assert n == 16 * a + n % 16;
    assert a == 16 * b + a % 16;
    assert b == 16 * (n / 4096) + b % 16;
  }

  lemma Hex4RoundTrip(n: nat, rest: Bytes)
    requires n < 0x10000
    ensures ReadHex4(Hex4(n) + rest) == Ok(Read(n, rest))
  {
    HexSplit(n);
    assert (Hex4(n) + rest)[4..] == rest;
  }

  // ---- UTF-8 ----

  predicate IsScalar(c: int) { 0 <= c <= 0x10FFFF && !(0xD800 <= c <= 0xDFFF) }

  function Utf8(c: int): Bytes
    requires IsScalar(c)
  {
    if c <= 0x7F then [c as Byte]
    else if c <= 0x7FF then [(0xC0 + c / 64) as Byte, (0x80 + c % 64) as Byte]
    else if c <= 0xFFFF then [(0xE0 + c / 4096) as Byte, (0x80 + c / 64 % 64) as Byte, (0x80 + c % 64) as Byte]
    else [(0xF0 + c / 262144) as Byte, (0x80 + c / 4096 % 64) as Byte, (0x80 + c / 64 % 64) as Byte, (0x80 + c % 64) as Byte]
  }

  predicate IsTail(b: Byte) { 0x80 <= b < 0xC0 }

  // The decoder that the encoding is an inverse of: the shortest form of a scalar value and nothing else.
  function DecodeUtf8(s: Bytes): Option<Read<int>> {
    if s == [] then None
    else if s[0] < 0x80 then Some(Read(s[0] as int, s[1..]))
    else if 0xC0 <= s[0] < 0xE0 && |s| >= 2 && IsTail(s[1]) then
      Shortest(64 * (s[0] as int - 0xC0) + (s[1] as int - 0x80), 0x80, s[2..])
    else if 0xE0 <= s[0] < 0xF0 && |s| >= 3 && IsTail(s[1]) && IsTail(s[2]) then
      Shortest(4096 * (s[0] as int - 0xE0) + 64 * (s[1] as int - 0x80) + (s[2] as int - 0x80), 0x800, s[3..])
    else if 0xF0 <= s[0] < 0xF8 && |s| >= 4 && IsTail(s[1]) && IsTail(s[2]) && IsTail(s[3]) then
      Shortest(262144 * (s[0] as int - 0xF0) + 4096 * (s[1] as int - 0x80) + 64 * (s[2] as int - 0x80) + (s[3] as int - 0x80),
               0x10000, s[4..])
    else None
  }

  function Shortest(c: int, least: int, rest: Bytes): Option<Read<int>> {
    if least <= c && IsScalar(c) then Some(Read(c, rest)) else None
  }

  lemma Base64Split(c: int)
    requires 0 <= c
    ensures c == 64 * (c / 64) + c % 64
    ensures c / 64 == 64 * (c / 4096) + c / 64 % 64
    ensures c / 4096 == 64 * (c / 262144) + c / 4096 % 64
  {
    Thrice(c);
  }

  lemma Thrice(c: int)
    requires 0 <= c
    ensures c / 4096 == c / 64 / 64 && c / 262144 == c / 4096 / 64
  {
  }

  lemma TwoBytes(c: int, rest: Bytes)
    requires 0x7F < c <= 0x7FF
    ensures DecodeUtf8(Utf8(c) + rest) == Some(Read(c, rest))
  {
    assert (Utf8(c) + rest)[2..] == rest;
  }

  lemma ThreeBytes(c: int, rest: Bytes)
    requires IsScalar(c) && 0x7FF < c <= 0xFFFF
    ensures DecodeUtf8(Utf8(c) + rest) == Some(Read(c, rest))
  {
    Base64Split(c);
    assert (Utf8(c) + rest)[3..] == rest;
  }

  lemma FourBytes(c: int, rest: Bytes)
    requires IsScalar(c) && 0xFFFF < c
    ensures DecodeUtf8(Utf8(c) + rest) == Some(Read(c, rest))
  {
    Base64Split(c);
    assert (Utf8(c) + rest)[4..] == rest;
  }

  // The encoding is the shortest form of its scalar value.
  lemma Utf8Decodes(c: int, rest: Bytes)
    requires IsScalar(c)
    ensures DecodeUtf8(Utf8(c) + rest) == Some(Read(c, rest))
  {
    if c <= 0x7F {
      assert (Utf8(c) + rest)[1..] == rest;
    } else if c <= 0x7FF {
      TwoBytes(c, rest);
    } else if c <= 0xFFFF {
      ThreeBytes(c, rest);
    } else {
      FourBytes(c, rest);
    }
  }

  // ---- Escapes ----

  // The second half of a surrogate pair, behind its own escape.
  function ReadLow(high: int, s: Bytes): (r: Result<Read<int>>)
    requires 0xD800 <= high <= 0xDBFF
    ensures r.Ok? ==> IsScalar(r.value.value) && |r.value.rest| < |s|
  {
    if |s| < 2 || s[0] != BACKSLASH || s[1] != LETTER_U then Err(InvalidArgument)
    else
      match ReadHex4(s[2..])
      case Err(e) => Err(e)
      case Ok(Read(low, rest)) =>
        if low < 0xDC00 || low > 0xDFFF then Err(InvalidArgument)
        else Ok(Read(0x10000 + (high - 0xD800) * 1024 + (low - 0xDC00), rest))
  }

  // The scalar value of an escape, and what follows its four digits (and those of its second half).
  function ReadUnicode(s: Bytes): (r: Result<Read<int>>)
    ensures r.Ok? ==> IsScalar(r.value.value) && |r.value.rest| < |s|
  {
    match ReadHex4(s)
    case Err(e) => Err(e)
    case Ok(Read(high, rest)) =>
      if 0xD800 <= high <= 0xDBFF then ReadLow(high, rest)
      else if 0xDC00 <= high <= 0xDFFF then Err(InvalidArgument)
      else Ok(Read(high, rest))
  }

  // A scalar value as escapes, one or a surrogate pair, after the first "\u".
  function UnicodeEscape(c: int): Bytes
    requires IsScalar(c)
  {
    if c < 0x10000 then Hex4(c)
    else Hex4(0xD800 + (c - 0x10000) / 1024) + [BACKSLASH, LETTER_U] + Hex4(0xDC00 + (c - 0x10000) % 1024)
  }

  lemma PairSplit(c: int)
    requires 0x10000 <= c <= 0x10FFFF
    ensures var high, low := 0xD800 + (c - 0x10000) / 1024, 0xDC00 + (c - 0x10000) % 1024;
      0xD800 <= high <= 0xDBFF && 0xDC00 <= low <= 0xDFFF && 0x10000 + (high - 0xD800) * 1024 + (low - 0xDC00) == c
  {
  }

  lemma LowRead(high: nat, low: nat, rest: Bytes)
    requires 0xD800 <= high <= 0xDBFF && 0xDC00 <= low <= 0xDFFF
    ensures ReadLow(high, [BACKSLASH, LETTER_U] + (Hex4(low) + rest))
      == Ok(Read(0x10000 + (high - 0xD800) * 1024 + (low - 0xDC00), rest))
  {
    var tail := [BACKSLASH, LETTER_U] + (Hex4(low) + rest);
    assert tail[2..] == Hex4(low) + rest;
    Hex4RoundTrip(low, rest);
  }

  lemma PairRead(high: nat, low: nat, rest: Bytes)
    requires 0xD800 <= high <= 0xDBFF && 0xDC00 <= low <= 0xDFFF
    ensures ReadUnicode(Hex4(high) + [BACKSLASH, LETTER_U] + Hex4(low) + rest)
      == Ok(Read(0x10000 + (high - 0xD800) * 1024 + (low - 0xDC00), rest))
  {
    var tail := [BACKSLASH, LETTER_U] + (Hex4(low) + rest);
    assert Hex4(high) + [BACKSLASH, LETTER_U] + Hex4(low) + rest == Hex4(high) + tail;
    Hex4RoundTrip(high, tail);
    LowRead(high, low, rest);
  }

  // Every scalar value can be written as an escape, and reads back as itself.
  lemma UnicodeRoundTrip(c: int, rest: Bytes)
    requires IsScalar(c)
    ensures ReadUnicode(UnicodeEscape(c) + rest) == Ok(Read(c, rest))
  {
    if c < 0x10000 {
      Hex4RoundTrip(c, rest);
    } else {
      PairSplit(c);
      PairRead(0xD800 + (c - 0x10000) / 1024, 0xDC00 + (c - 0x10000) % 1024, rest);
    }
  }

  // A lone half of a surrogate pair is never accepted.
  lemma LoneSurrogateRefused(half: nat, rest: Bytes)
    requires 0xD800 <= half <= 0xDFFF
    requires half <= 0xDBFF ==> !([BACKSLASH, LETTER_U] <= rest)
    ensures ReadUnicode(Hex4(half) + rest) == Err(InvalidArgument)
  {
    Hex4RoundTrip(half, rest);
  }

  function SimpleEscape(c: Byte): Option<Byte> {
    if c == QUOTE then Some(QUOTE)
    else if c == BACKSLASH then Some(BACKSLASH)
    else if c == SLASH then Some(SLASH)
    else if c == LETTER_B then Some(BACKSPACE)
    else if c == LETTER_F then Some(FORMFEED)
    else if c == LETTER_N then Some(NEWLINE)
    else if c == LETTER_R then Some(RETURN)
    else if c == LETTER_T then Some(TAB)
    else None
  }

  // What an escape stands for, after its backslash.
  function ReadEscape(s: Bytes): (r: Result<Read<Bytes>>)
    ensures r.Ok? ==> |r.value.rest| < |s|
  {
    if s == [] then Err(InvalidArgument)
    else if s[0] == LETTER_U then
      (match ReadUnicode(s[1..])
       case Err(e) => Err(e)
       case Ok(Read(c, rest)) => Ok(Read(Utf8(c), rest)))
    else
      match SimpleEscape(s[0])
      case None => Err(InvalidArgument)
      case Some(c) => Ok(Read([c], s[1..]))
  }

  // The characters of a string after its opening quote; `out` is what has been read of it.
  function ReadChars(s: Bytes, out: Bytes): (r: Result<Read<Bytes>>)
    ensures r.Ok? ==> |r.value.rest| < |s|
    decreases |s|
  {
    if s == [] then Err(InvalidArgument)
    else if s[0] == QUOTE then Ok(Read(out, s[1..]))
    else if s[0] != BACKSLASH then
      if s[0] < 0x20 then Err(InvalidArgument) else ReadChars(s[1..], out + [s[0]])
    else
      match ReadEscape(s[1..])
      case Err(e) => Err(e)
      case Ok(Read(c, rest)) => ReadChars(rest, out + c)
  }

  function ReadString(s: Bytes): (r: Result<Read<Bytes>>)
    ensures r.Ok? ==> |r.value.rest| < |s|
  {
    if s == [] || s[0] != QUOTE then Err(InvalidArgument) else ReadChars(s[1..], [])
  }

  // ---- Writing strings ----

  function EscapeByte(c: Byte): Bytes {
    if c == QUOTE then [BACKSLASH, QUOTE]
    else if c == BACKSLASH then [BACKSLASH, BACKSLASH]
    else if c == NEWLINE then [BACKSLASH, LETTER_N]
    else if c == RETURN then [BACKSLASH, LETTER_R]
    else if c == TAB then [BACKSLASH, LETTER_T]
    else if c == BACKSPACE then [BACKSLASH, LETTER_B]
    else if c == FORMFEED then [BACKSLASH, LETTER_F]
    else if c < 0x20 then [BACKSLASH, LETTER_U] + Hex4(c as int)
    else [c]
  }

  // Each byte replaced by a text of its own.
  function Spelled(spell: Byte -> Bytes, text: Bytes): Bytes {
    if text == [] then [] else spell(text[0]) + Spelled(spell, text[1..])
  }

  lemma {:induction false} SpelledConcat(spell: Byte -> Bytes, a: Bytes, b: Bytes)
    ensures Spelled(spell, a + b) == Spelled(spell, a) + Spelled(spell, b)
  {
    if a == [] {
      assert a + b == b;
    } else {
      SpelledConcat(spell, a[1..], b);
      assert (a + b)[1..] == a[1..] + b;
      Regroup(spell(a[0]), Spelled(spell, a[1..]), Spelled(spell, b));
    }
  }

  function Escape(text: Bytes): Bytes { Spelled(EscapeByte, text) }

  function Quoted(text: Bytes): Bytes { [QUOTE] + Escape(text) + [QUOTE] }

  // ---- Numbers ----

  predicate IsSymbol(c: Byte) { c == 0x2E || c == 0x65 || c == 0x45 || c == 0x2B || c == MINUS }

  predicate IsNumberChar(c: Byte) { IsDigit(c) || IsSymbol(c) }

  // The length of the leading run of number characters.
  function Run(s: Bytes): (n: nat)
    ensures n <= |s|
    ensures forall i :: 0 <= i < n ==> IsNumberChar(s[i])
    ensures n < |s| ==> !IsNumberChar(s[n])
  {
    if s == [] || !IsNumberChar(s[0]) then 0 else 1 + Run(s[1..])
  }

  datatype Number = Whole(i: int) | Fractional(d: real)

  // How the platform reads and shows floating-point numbers.
  datatype Floats = Floats(show: real -> Bytes, read: Bytes -> Option<real>)

  ghost predicate HasDigit(s: Bytes) { exists i :: 0 <= i < |s| && IsDigit(s[i]) }

  function Signed(negative: bool, n: int): int { if negative then -n else n }

  // The value of a number token, whose characters behind the sign are the run.
  ghost function NumberFrom(token: Bytes, run: Bytes, negative: bool, floats: Floats): Result<Number> {
    if !HasDigit(run) then Err(InvalidArgument)
    else if AllDigits(run) then
      var value := Signed(negative, Decimal(run));
      if FitsSigned(value, I64_MAX) then Ok(Whole(value)) else Err(OutOfRange)
    else
      match floats.read(token)
      case None => Err(InvalidArgument)
      case Some(d) => Ok(Fractional(d))
  }

  ghost function ReadNumber(s: Bytes, floats: Floats): (r: Result<Read<Number>>)
    ensures r.Ok? ==> |r.value.rest| < |s|
  {
    var negative := s != [] && s[0] == MINUS;
    var body := if negative then s[1..] else s;
    var n := Run(body);
    match NumberFrom(s[..|s| - |body| + n], body[..n], negative, floats)
    case Err(e) => Err(e)
    case Ok(x) => Ok(Read(x, body[n..]))
  }

  function ShowInt(i: int): Bytes { if i < 0 then [MINUS] + Digits(-i) else Digits(i) }

  // A text that does not continue a number.
  predicate EndsNumber(rest: Bytes) { rest == [] || !IsNumberChar(rest[0]) }

  lemma {:induction false} RunStops(digits: Bytes, rest: Bytes)
    requires (forall i :: 0 <= i < |digits| ==> IsNumberChar(digits[i])) && EndsNumber(rest)
    ensures Run(digits + rest) == |digits|
  {
    if digits == [] {
      assert digits + rest == rest;
    } else {
      assert (digits + rest)[1..] == digits[1..] + rest;
      RunStops(digits[1..], rest);
    }
  }

  // A whole number read from its sign and its digits.
  lemma ReadDigits(negative: bool, digits: Bytes, rest: Bytes, floats: Floats)
    requires digits != [] && AllDigits(digits) && EndsNumber(rest)
    ensures var value := Signed(negative, Decimal(digits));
      ReadNumber((if negative then [MINUS] + digits else digits) + rest, floats)
      == if FitsSigned(value, I64_MAX) then Ok(Read(Whole(value), rest)) else Err(OutOfRange)
  {
    var s := (if negative then [MINUS] + digits else digits) + rest;
    var body := digits + rest;
    RunStops(digits, rest);
    assert body[..|digits|] == digits && body[|digits|..] == rest;
    assert IsDigit(digits[0]);
    if negative {
      assert s[1..] == body;
    }
  }

  lemma NumberRoundTrip(i: int, rest: Bytes, floats: Floats)
    requires FitsSigned(i, I64_MAX) && EndsNumber(rest)
    ensures ReadNumber(ShowInt(i) + rest, floats) == Ok(Read(Whole(i), rest))
  {
    var magnitude: nat := if i < 0 then -i else i;
    DigitsDecimal(magnitude);
    ReadDigits(i < 0, Digits(magnitude), rest, floats);
  }
}
