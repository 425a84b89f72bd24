// The texts that spell a string in JSON (src/core/json.cpp), with every freedom they have: which bytes are
// escaped and how, and the case of hexadecimal digits. The parser accepts exactly these.
module JsonStrings {
  import opened Base
  import opened JsonText

  function Code(c: char): Byte
    requires c as int < 128
  {
    (c as int) as Byte
  }

  const LOWER := "0123456789abcdef"
  const UPPER := "0123456789ABCDEF"

  // The letters that may follow a backslash, and the code of what each stands for.
  const LETTERS := "\"\\/bfnrt"
  const CODES: seq<int> := [34, 92, 47, 8, 12, 10, 13, 9]

  // A hexadecimal digit, in either case.
  ghost predicate Digit(c: Byte, n: int) { 0 <= n < 16 && (c as int == LOWER[n] as int || c as int == UPPER[n] as int) }

  // Four digits of a number, highest first.
  ghost predicate FourBy(digit: (Byte, int) -> bool, w: Bytes, n: int)
    requires |w| == 4
  {
    && 0 <= n < 0x10000
    && digit(w[0], n / 4096) && digit(w[1], n / 256 % 16) && digit(w[2], n / 16 % 16) && digit(w[3], n % 16)
  }

  ghost predicate FourDigits(w: Bytes, n: int) {
    |w| == 4 && FourBy(Digit, w, n)
  }

  // The escape of a number below 0x10000.
  ghost predicate Escaped(w: Bytes, n: int) {
    |w| == 6 && w[0] == Code('\\') && w[1] == Code('u') && FourDigits(w[2..], n)
  }

  // One element of a string: a byte that stands for itself, a letter's escape, the escape of a scalar value
  // and that of a surrogate pair.
  ghost predicate IsPlain(w: Bytes, means: Bytes) {
    |w| == 1 && w[0] >= 0x20 && w[0] != Code('"') && w[0] != Code('\\') && means == w
  }

  ghost predicate IsShort(w: Bytes, means: Bytes) {
    && |w| == 2 && w[0] == Code('\\') && |means| == 1
    && exists i :: 0 <= i < |LETTERS| == |CODES| && w[1] as int == LETTERS[i] as int && means[0] as int == CODES[i]
  }

  ghost predicate IsScalarEscape(w: Bytes, means: Bytes) {
    exists n :: Escaped(w, n) && !(0xD800 <= n <= 0xDFFF) && means == Utf8(n)
  }

  ghost predicate IsPair(w: Bytes, means: Bytes) {
    |w| == 12 && exists high, low ::
      && Escaped(w[..6], high) && Escaped(w[6..], low) && 0xD800 <= high <= 0xDBFF && 0xDC00 <= low <= 0xDFFF
      && means == Utf8(0x10000 + 0x400 * (high - 0xD800) + (low - 0xDC00))
  }

  datatype Piece = Piece(text: Bytes, means: Bytes)

  ghost predicate IsPiece(p: Piece) {
    IsPlain(p.text, p.means) || IsShort(p.text, p.means) || IsScalarEscape(p.text, p.means) || IsPair(p.text, p.means)
  }

  ghost predicate ArePieces(pieces: seq<Piece>) { forall i :: 0 <= i < |pieces| ==> IsPiece(pieces[i]) }

  function Texts(pieces: seq<Piece>): Bytes { if pieces == [] then [] else pieces[0].text + Texts(pieces[1..]) }

  function Meanings(pieces: seq<Piece>): Bytes { if pieces == [] then [] else pieces[0].means + Meanings(pieces[1..]) }

  // A string between its quotes.
  ghost predicate SpellsText(w: Bytes, text: Bytes) {
    exists pieces :: ArePieces(pieces) && w == [Code('"')] + Texts(pieces) + [Code('"')] && text == Meanings(pieces)
  }

  lemma HexExactly(c: Byte, n: int)
    ensures n >= 0 && HexValue(c) == Some(n) <==> Digit(c, n)
  {
  }

  // The tables stay closed behind `digit`.
  ghost predicate ReadsDigits(digit: (Byte, int) -> bool) {
    forall c: Byte, k: int {:trigger digit(c, k)} :: digit(c, k) <==> 0 <= k < 16 && HexValue(c) == Some(k)
  }

  lemma FourRead(digit: (Byte, int) -> bool, w: Bytes, n: int, rest: Bytes)
    requires |w| == 4 && ReadsDigits(digit) && FourBy(digit, w, n)
    ensures ReadHex4(w + rest) == Ok(Read(n, rest))
  {
    assert (w + rest)[4..] == rest;
    HexSplit(n);
  }

  lemma FourFound(digit: (Byte, int) -> bool, w: Bytes, rest: Bytes)
    requires |w| == 4 && ReadsDigits(digit) && ReadHex4(w + rest).Ok?
    ensures FourBy(digit, w, ReadHex4(w + rest).value.value) && ReadHex4(w + rest).value.rest == rest
  {
    assert (w + rest)[4..] == rest;
    var a, b, c, d := HexValue(w[0]).value, HexValue(w[1]).value, HexValue(w[2]).value, HexValue(w[3]).value;
    assert digit(w[0], a) && digit(w[1], b) && digit(w[2], c) && digit(w[3], d) by {
      HexBound(w[0]); HexBound(w[1]); HexBound(w[2]); HexBound(w[3]);
    }
    FourSum(a, b, c, d);
  }

  lemma HexBound(c: Byte)
    ensures HexValue(c).Some? ==> HexValue(c).value < 16
  {
  }

  lemma FourExactly(w: Bytes, n: int, rest: Bytes)
    requires |w| == 4
    ensures n >= 0 && ReadHex4(w + rest) == Ok(Read(n, rest)) <==> FourDigits(w, n)
  {
    forall c: Byte, k: int ensures Digit(c, k) <==> 0 <= k < 16 && HexValue(c) == Some(k) {
      HexExactly(c, k);
    }
    if FourDigits(w, n) {
      FourRead(Digit, w, n, rest);
    }
    if ReadHex4(w + rest).Ok? {
      FourFound(Digit, w, rest);
    }
  }

  lemma FourSum(a: nat, b: nat, c: nat, d: nat)
    requires a < 16 && b < 16 && c < 16 && d < 16
    ensures var n := 4096 * a + 256 * b + 16 * c + d;
      n < 0x10000 && n / 4096 == a && n / 256 % 16 == b && n / 16 % 16 == c && n % 16 == d
  {
    var p, q := 16 * a + b, 256 * a + 16 * b + c;
    OneDigit(q, d);
    OneDigit(p, c);
    OneDigit(a, b);
    HexQuotients(16 * q + d);
  }

  lemma OneDigit(q: nat, d: nat)
    requires d < 16
    ensures (16 * q + d) / 16 == q && (16 * q + d) % 16 == d
  {
  }

  // Four bytes in front of a text that are digits.
  lemma FourAhead(s: Bytes)
    requires ReadHex4(s).Ok?
    ensures |s| >= 4 && FourDigits(s[..4], ReadHex4(s).value.value) && s == s[..4] + ReadHex4(s).value.rest
  {
    assert s == s[..4] + s[4..];
    FourExactly(s[..4], ReadHex4(s).value.value, s[4..]);
  }

  lemma FourBehind(w: Bytes, n: int, rest: Bytes)
    requires FourDigits(w, n)
    ensures ReadHex4(w + rest) == Ok(Read(n, rest))
  {
    FourExactly(w, n, rest);
  }

  // ---- One element of a string ----

  lemma EscapedBehind(w: Bytes, n: int, rest: Bytes)
    requires Escaped(w, n)
    ensures (w + rest)[0] == BACKSLASH && (w + rest)[1] == LETTER_U && ReadHex4((w + rest)[2..]) == Ok(Read(n, rest))
  {
    assert (w + rest)[2..] == w[2..] + rest;
    FourBehind(w[2..], n, rest);
  }

  lemma EscapedAhead(s: Bytes)
    requires |s| >= 2 && s[0] == BACKSLASH && s[1] == LETTER_U && ReadHex4(s[2..]).Ok?
    ensures |s| >= 6 && Escaped(s[..6], ReadHex4(s[2..]).value.value) && s == s[..6] + ReadHex4(s[2..]).value.rest
  {
    FourAhead(s[2..]);
    assert s[..6][2..] == s[2..][..4];
  }

  lemma ShortExactly(c: Byte, d: Byte)
    ensures SimpleEscape(c) == Some(d) <==> exists i :: 0 <= i < |LETTERS| == |CODES| && c as int == LETTERS[i] as int && d as int == CODES[i]
  {
    if SimpleEscape(c) == Some(d) {
      var i := if c == QUOTE then 0 else if c == BACKSLASH then 1 else if c == SLASH then 2 else if c == LETTER_B then 3
               else if c == LETTER_F then 4 else if c == LETTER_N then 5 else if c == LETTER_R then 6 else 7;
      assert c as int == LETTERS[i] as int && d as int == CODES[i];
    }
  }

  // An element is read for what it means.
  lemma PieceRead(p: Piece, rest: Bytes, out: Bytes)
    requires IsPiece(p)
    ensures ReadChars(p.text + rest, out) == ReadChars(rest, out + p.means)
  {
    var s := p.text + rest;
    if IsPlain(p.text, p.means) {
      assert s[1..] == rest && p.means == [s[0]];
    } else if IsShort(p.text, p.means) {
      ShortRead(p, rest);
    } else if IsScalarEscape(p.text, p.means) {
      ScalarRead(p, rest);
    } else {
      PairRead(p, rest);
    }
  }

  // What an escape stands for, and what follows it.
  ghost predicate Escapes(s: Bytes, means: Bytes, rest: Bytes) {
    s != [] && s[0] == BACKSLASH && ReadEscape(s[1..]) == Ok(Read(means, rest))
  }

  lemma ShortRead(p: Piece, rest: Bytes)
    requires IsShort(p.text, p.means)
    ensures Escapes(p.text + rest, p.means, rest)
  {
    var s := p.text + rest;
    ShortExactly(p.text[1], p.means[0]);
    assert s[1..][1..] == rest && p.means == [p.means[0]];
  }

  lemma ScalarRead(p: Piece, rest: Bytes)
    requires IsScalarEscape(p.text, p.means)
    ensures Escapes(p.text + rest, p.means, rest)
  {
    var n :| Escaped(p.text, n) && !(0xD800 <= n <= 0xDFFF) && p.means == Utf8(n);
    EscapedBehind(p.text, n, rest);
    assert (p.text + rest)[1..][1..] == (p.text + rest)[2..];
  }

  lemma PairRead(p: Piece, rest: Bytes)
    requires IsPair(p.text, p.means)
    ensures Escapes(p.text + rest, p.means, rest)
  {
    var high, low :| Escaped(p.text[..6], high) && Escaped(p.text[6..], low) && 0xD800 <= high <= 0xDBFF && 0xDC00 <= low <= 0xDFFF
      && p.means == Utf8(0x10000 + 0x400 * (high - 0xD800) + (low - 0xDC00));
    var second := p.text[6..] + rest;
    assert p.text + rest == p.text[..6] + second;
    EscapedBehind(p.text[..6], high, second);
    EscapedBehind(p.text[6..], low, rest);
    TwoHalves(p.text + rest, high, second, low, rest);
  }

  lemma TwoHalves(s: Bytes, high: int, second: Bytes, low: int, rest: Bytes)
    requires |s| >= 2 && s[0] == BACKSLASH && s[1] == LETTER_U && high >= 0 && ReadHex4(s[2..]) == Ok(Read(high, second))
    requires |second| >= 2 && second[0] == BACKSLASH && second[1] == LETTER_U && low >= 0 && ReadHex4(second[2..]) == Ok(Read(low, rest))
    requires 0xD800 <= high <= 0xDBFF && 0xDC00 <= low <= 0xDFFF
    ensures Escapes(s, Utf8(0x10000 + 0x400 * (high - 0xD800) + (low - 0xDC00)), rest)
  {
    assert s[1..][1..] == s[2..];
  }

  // Whatever is read in front of a string is an element.
  lemma PieceFound(s: Bytes, out: Bytes) returns (p: Piece, rest: Bytes)
    requires s != [] && s[0] != QUOTE && ReadChars(s, out).Ok?
    ensures IsPiece(p) && s == p.text + rest && |rest| < |s| && ReadChars(s, out) == ReadChars(rest, out + p.means)
  {
    if s[0] != BACKSLASH {
      p, rest := Piece(s[..1], s[..1]), s[1..];
      assert p.means == [s[0]];
    } else if s[1] == LETTER_U {
      p, rest := EscapeFound(s);
    } else {
      p, rest := Piece(s[..2], [SimpleEscape(s[1]).value]), s[2..];
      ShortExactly(s[1], p.means[0]);
      assert s[1..][1..] == rest;
    }
  }

  lemma EscapeFound(s: Bytes) returns (p: Piece, rest: Bytes)
    requires |s| >= 2 && s[0] == BACKSLASH && s[1] == LETTER_U && ReadEscape(s[1..]).Ok?
    ensures IsPiece(p) && s == p.text + rest && |rest| < |s| && Escapes(s, p.means, rest)
  {
    assert s[1..][1..] == s[2..];
    EscapedAhead(s);
    var n, after := ReadHex4(s[2..]).value.value, ReadHex4(s[2..]).value.rest;
    if 0xD800 <= n <= 0xDBFF {
      p, rest := PairFound(s, n, after);
    } else {
      p, rest := Piece(s[..6], Utf8(n)), after;
    }
  }

  lemma PairFound(s: Bytes, high: int, after: Bytes) returns (p: Piece, rest: Bytes)
    requires |s| >= 6 && Escaped(s[..6], high) && 0xD800 <= high <= 0xDBFF && s == s[..6] + after && ReadLow(high, after).Ok?
    ensures IsPair(p.text, p.means) && s == p.text + rest && |rest| < |s|
    ensures IsScalar(ReadLow(high, after).value.value)
    ensures p.means == Utf8(ReadLow(high, after).value.value) && rest == ReadLow(high, after).value.rest
  {
    EscapedAhead(after);
    var low := ReadHex4(after[2..]).value.value;
    p, rest := Piece(s[..12], Utf8(ReadLow(high, after).value.value)), ReadHex4(after[2..]).value.rest;
    Halves(s, after, rest);
    assert Escaped(p.text[..6], high) && Escaped(p.text[6..], low);
  }

  lemma Halves(s: Bytes, after: Bytes, rest: Bytes)
    requires |s| >= 6 && s == s[..6] + after && |after| >= 6 && after == after[..6] + rest
    ensures |s| >= 12 && s[..12][..6] == s[..6] && s[..12][6..] == after[..6] && s == s[..12] + rest
  {
    assert after == s[6..];
  }

  // ---- Whole strings ----

  lemma PiecesHead(pieces: seq<Piece>, behind: Bytes, out: Bytes)
    requires pieces != []
    ensures Texts(pieces) + behind == pieces[0].text + (Texts(pieces[1..]) + behind)
    ensures out + Meanings(pieces) == (out + pieces[0].means) + Meanings(pieces[1..])
  {
    Regroup(pieces[0].text, Texts(pieces[1..]), behind);
    Regroup(out, pieces[0].means, Meanings(pieces[1..]));
  }

  lemma {:induction false} PiecesRead(pieces: seq<Piece>, rest: Bytes, out: Bytes)
    requires ArePieces(pieces)
    ensures ReadChars(Texts(pieces) + ([QUOTE] + rest), out) == Ok(Read(out + Meanings(pieces), rest))
    decreases |pieces|
  {
    if pieces == [] {
      assert Texts(pieces) + ([QUOTE] + rest) == [QUOTE] + rest;
      assert out + Meanings(pieces) == out;
    } else {
      PiecesHead(pieces, [QUOTE] + rest, out);
      PieceRead(pieces[0], Texts(pieces[1..]) + ([QUOTE] + rest), out);
      PiecesRead(pieces[1..], rest, out + pieces[0].means);
    }
  }

  lemma {:induction false} PiecesFound(s: Bytes, out: Bytes) returns (pieces: seq<Piece>)
    requires ReadChars(s, out).Ok?
    ensures ArePieces(pieces) && s == Texts(pieces) + ([QUOTE] + ReadChars(s, out).value.rest)
    ensures ReadChars(s, out).value.value == out + Meanings(pieces)
    decreases |s|
  {
    if s[0] == QUOTE {
      pieces := [];
      assert s == [QUOTE] + s[1..];
      assert Texts(pieces) + ([QUOTE] + s[1..]) == [QUOTE] + s[1..];
    } else {
      var p, rest := PieceFound(s, out);
      var later := PiecesFound(rest, out + p.means);
      pieces := [p] + later;
      assert pieces[1..] == later;
      PiecesHead(pieces, [QUOTE] + ReadChars(s, out).value.rest, out);
    }
  }

  // A string is read from its quotes and its elements, and from nothing else: whatever the spelling, what is
  // read is what it means.
  lemma StringExactly(s: Bytes, text: Bytes, rest: Bytes)
    ensures ReadString(s) == Ok(Read(text, rest)) <==> exists w :: SpellsText(w, text) && s == w + rest
  {
    if w :| SpellsText(w, text) && s == w + rest {
      StringRead(w, text, rest);
    }
    if ReadString(s) == Ok(Read(text, rest)) {
      var w := StringFound(s);
    }
  }

  lemma StringRead(w: Bytes, text: Bytes, rest: Bytes)
    requires SpellsText(w, text)
    ensures w[0] == QUOTE && ReadString(w + rest) == Ok(Read(text, rest))
  {
    var pieces :| ArePieces(pieces) && w == [Code('"')] + Texts(pieces) + [Code('"')] && text == Meanings(pieces);
    QuotedBody(Texts(pieces), rest);
    PiecesRead(pieces, rest, []);
    assert [] + text == text;
  }

  lemma QuotedBody(body: Bytes, rest: Bytes)
    ensures var s := [Code('"')] + body + [Code('"')] + rest; s[0] == QUOTE && s[1..] == body + ([QUOTE] + rest)
  {
  }

  lemma StringFound(s: Bytes) returns (w: Bytes)
    requires ReadString(s).Ok?
    ensures SpellsText(w, ReadString(s).value.value) && s == w + ReadString(s).value.rest
  {
    var pieces := PiecesFound(s[1..], []);
    var rest := ReadString(s).value.rest;
    w := [QUOTE] + Texts(pieces) + [QUOTE];
    assert s == [QUOTE] + s[1..];
    assert s == w + rest;
    assert [] + Meanings(pieces) == Meanings(pieces);
  }
}
