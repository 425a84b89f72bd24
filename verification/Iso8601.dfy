// Timestamps as text (src/core/time.cpp): UTC only, the profile of section 5.6 of RFC 3339 with "Z".
module Iso8601 {
  import opened Base
  import opened Checked
  import opened Calendar
  import opened Decimals

  const DASH: Byte := 0x2D
  const DOT: Byte := 0x2E
  const COLON: Byte := 0x3A
  const TEE: Byte := 0x54
  const ZED: Byte := 0x5A
  const ZERO: Byte := 0x30

  const NANOS: int := 1000000000
  const DAY_SECONDS: int := 86400

  // ---- The fields of a time ----

  datatype Fields = Fields(date: Date, hour: int, minute: int, second: int, nanos: int)

  predicate IsTime(f: Fields) {
    IsDate(f.date) && 0 <= f.hour <= 23 && 0 <= f.minute <= 59 && 0 <= f.second <= 59 && 0 <= f.nanos < NANOS
  }

  function SecondsOf(f: Fields): int {
    DaysFromCivil(f.date) * DAY_SECONDS + (f.hour * 3600 + (f.minute * 60 + f.second))
  }

  // Seconds rounded down, with the nanoseconds that remain.
  function SplitSeconds(t: int): (int, int) {
    if TruncMod(t, NANOS) < 0 then (TruncDiv(t, NANOS) - 1, TruncMod(t, NANOS) + NANOS)
    else (TruncDiv(t, NANOS), TruncMod(t, NANOS))
  }

  function DayOf(seconds: int): int {
    if seconds >= 0 then TruncDiv(seconds, DAY_SECONDS) else TruncDiv(seconds - 86399, DAY_SECONDS)
  }

  function TimeAt(seconds: int, nanos: int): Fields {
    var s := seconds - DayOf(seconds) * DAY_SECONDS;
    Fields(CivilFromDays(DayOf(seconds)), TruncDiv(s, 3600), TruncDiv(TruncMod(s, 3600), 60), TruncMod(s, 60), nanos)
  }

  function FieldsOf(t: int): Fields { TimeAt(SplitSeconds(t).0, SplitSeconds(t).1) }

  lemma FloorSplit(t: int)
    ensures SplitSeconds(t) == (t / NANOS, t % NANOS)
  {
  }

  lemma DaySplit(seconds: int)
    ensures DayOf(seconds) == seconds / DAY_SECONDS
  {
  }

  lemma TimeSplit(s: int)
    requires 0 <= s < DAY_SECONDS
    ensures var h, m, x := TruncDiv(s, 3600), TruncDiv(TruncMod(s, 3600), 60), TruncMod(s, 60);
      0 <= h <= 23 && 0 <= m <= 59 && 0 <= x <= 59 && h * 3600 + (m * 60 + x) == s
  {
  }

  lemma Remains(a: int)
    ensures 0 <= a - a / DAY_SECONDS * DAY_SECONDS < DAY_SECONDS
  {
  }

  lemma TimeAtExact(seconds: int, nanos: int)
    requires 0 <= nanos < NANOS
    ensures IsTime(TimeAt(seconds, nanos)) && SecondsOf(TimeAt(seconds, nanos)) == seconds
    ensures TimeAt(seconds, nanos).date == CivilFromDays(seconds / DAY_SECONDS)
  {
    DaySplit(seconds);
    Remains(seconds);
    TimeSplit(seconds - seconds / DAY_SECONDS * DAY_SECONDS);
    DaysRoundTrip(seconds / DAY_SECONDS);
  }

  // Breaking a time into fields loses nothing, for every count of nanoseconds.
  lemma FieldsExact(t: int)
    ensures IsTime(FieldsOf(t)) && FieldsOf(t).nanos == t % NANOS
    ensures SecondsOf(FieldsOf(t)) == t / NANOS
    ensures FieldsOf(t).date == CivilFromDays(t / NANOS / DAY_SECONDS)
  {
    FloorSplit(t);
    TimeAtExact(t / NANOS, t % NANOS);
  }

  // ---- Formatting ----

  predicate IsInt64(t: int) { FitsSigned(t, I64_MAX) }

  lemma FourDigitYear(t: int)
    requires IsInt64(t)
    ensures 0 <= FieldsOf(t).date.year < 10000
  {
    FieldsExact(t);
    YearBound(t / NANOS / DAY_SECONDS);
  }

  lemma YearBound(days: int)
    requires -EPOCH_SHIFT <= days <= 1000000
    ensures 0 <= CivilFromDays(days).year < 10000
  {
    var z := days + EPOCH_SHIFT;
    CivilSteps(days);
    YearFound(z % 146097);
    assert 0 <= z / 146097 <= 20;
  }

  lemma Powers()
    ensures Pow10(2) == 100 && Pow10(4) == 10000 && Pow10(9) == NANOS
  {
    assert Pow10(1) == 10;
    assert Pow10(3) == 1000;
    assert Pow10(5) == 100000;
    assert Pow10(7) == 10000000;
  }

  function DateText(d: Date): Bytes
    requires 0 <= d.year < Pow10(4) && 0 <= d.month < Pow10(2) && 0 <= d.day < Pow10(2)
  {
    Padded(d.year, 4) + [DASH] + Padded(d.month, 2) + [DASH] + Padded(d.day, 2)
  }

  function TimeText(f: Fields): Bytes
    requires 0 <= f.hour < Pow10(2) && 0 <= f.minute < Pow10(2) && 0 <= f.second < Pow10(2)
  {
    Padded(f.hour, 2) + [COLON] + Padded(f.minute, 2) + [COLON] + Padded(f.second, 2)
  }

  function FractionText(nanos: int): Bytes
    requires 0 <= nanos < Pow10(9)
  {
    if nanos == 0 then [] else [DOT] + Padded(nanos, 9)
  }

  function ToIso8601(t: int): Bytes
    requires IsInt64(t)
  {
    var f := FieldsOf(t);
    FieldsExact(t);
    FourDigitYear(t);
    Powers();
    DateText(f.date) + [TEE] + TimeText(f) + FractionText(f.nanos) + [ZED]
  }

  // ---- Parsing ----

  predicate HasLayout(text: Bytes)
    requires |text| >= 20
  {
    text[4] == DASH && text[7] == DASH && text[10] == TEE && text[13] == COLON && text[16] == COLON
  }

  // Nanoseconds of a fraction: nine digits count, missing ones are zero, further ones are dropped.
  function FractionNanos(digits: Bytes): int {
    if |digits| >= 9 then Decimal(digits[..9]) else Decimal(digits) * Pow10(9 - |digits|)
  }

  function FractionDigits(text: Bytes): Bytes
    requires |text| >= 20
  {
    if |text| == 20 then [] else text[20..|text| - 1]
  }

  ghost predicate FieldsAreDigits(text: Bytes)
    requires |text| >= 20
  {
    && AllDigits(text[0..4]) && AllDigits(text[5..7]) && AllDigits(text[8..10])
    && AllDigits(text[11..13]) && AllDigits(text[14..16]) && AllDigits(text[17..19])
  }

  function FieldsIn(text: Bytes): Fields
    requires |text| >= 20
  {
    Fields(Date(Decimal(text[0..4]), Decimal(text[5..7]), Decimal(text[8..10])),
           Decimal(text[11..13]), Decimal(text[14..16]), Decimal(text[17..19]),
           FractionNanos(FractionDigits(text)))
  }

  // The time as one 64-bit count, when it and its whole seconds fit.
  function Joined(seconds: int, nanos: int): Result<int> {
    if !IsInt64(seconds * NANOS) || !IsInt64(seconds * NANOS + nanos) then Err(ArithmeticOverflow)
    else Ok(seconds * NANOS + nanos)
  }

  // The time that a text stands for, or why it is refused.
  ghost function Parsed(text: Bytes): Result<int> {
    if |text| < 20 || !HasLayout(text) then Err(InvalidArgument)
    else if text[|text| - 1] != ZED then Err(Unsupported)
    else if !FieldsAreDigits(text) then Err(InvalidArgument)
    else
      var f := FieldsIn(text);
      if !IsDate(f.date) || f.hour > 23 || f.minute > 59 || f.second > 59 then Err(OutOfRange)
      else if |text| > 20 && (text[19] != DOT || !AllDigits(FractionDigits(text))) then Err(InvalidArgument)
      else Joined(SecondsOf(f), f.nanos)
  }

  // ---- Text and back ----

  // The parts of a formatted time are where the parser looks for them.
  lemma DateLayout(d: Date, rest: Bytes)
    requires 0 <= d.year < Pow10(4) && 0 <= d.month < Pow10(2) && 0 <= d.day < Pow10(2)
    ensures var text := DateText(d) + rest;
      && |text| == 10 + |rest| && text[10..] == rest
      && text[4] == DASH && text[7] == DASH
      && text[0..4] == Padded(d.year, 4) && text[5..7] == Padded(d.month, 2) && text[8..10] == Padded(d.day, 2)
  {
  }

  lemma TimeLayout(f: Fields, rest: Bytes)
    requires 0 <= f.hour < Pow10(2) && 0 <= f.minute < Pow10(2) && 0 <= f.second < Pow10(2)
    ensures var text := [TEE] + TimeText(f) + rest;
      && |text| == 9 + |rest| && text[9..] == rest
      && text[0] == TEE && text[3] == COLON && text[6] == COLON
      && text[1..3] == Padded(f.hour, 2) && text[4..6] == Padded(f.minute, 2) && text[7..9] == Padded(f.second, 2)
  {
  }

  lemma Shifted(text: Bytes, n: nat, a: nat, b: nat)
    requires n <= |text| && a <= b <= |text| - n
    ensures text[n..][a..b] == text[n + a..n + b]
  {
  }

  lemma TextLayout(f: Fields, text: Bytes, tail: Bytes)
    requires 0 <= f.date.year < Pow10(4) && 0 <= f.date.month < Pow10(2) && 0 <= f.date.day < Pow10(2)
    requires 0 <= f.hour < Pow10(2) && 0 <= f.minute < Pow10(2) && 0 <= f.second < Pow10(2)
    requires text == DateText(f.date) + ([TEE] + TimeText(f) + tail) && |tail| > 0
    ensures |text| >= 20 && HasLayout(text) && text[19..] == tail
    ensures text[0..4] == Padded(f.date.year, 4) && text[5..7] == Padded(f.date.month, 2) && text[8..10] == Padded(f.date.day, 2)
    ensures text[11..13] == Padded(f.hour, 2) && text[14..16] == Padded(f.minute, 2) && text[17..19] == Padded(f.second, 2)
  {
    DateLayout(f.date, [TEE] + TimeText(f) + tail);
    TimeLayout(f, tail);
    Shifted(text, 10, 1, 3);
    Shifted(text, 10, 4, 6);
    Shifted(text, 10, 7, 9);
    assert text[10..][9..] == text[19..];
    assert text[13] == text[10..][3] && text[16] == text[10..][6];
  }

  lemma TextOf(t: int)
    requires IsInt64(t)
    ensures var f := FieldsOf(t);
      && IsTime(f) && 0 <= f.date.year < Pow10(4) && Pow10(2) == 100 && 0 <= f.nanos < Pow10(9)
      && ToIso8601(t) == DateText(f.date) + ([TEE] + TimeText(f) + (FractionText(f.nanos) + [ZED]))
  {
    FieldsExact(t);
    FourDigitYear(t);
    Powers();
    var f := FieldsOf(t);
    Regroup(DateText(f.date), [TEE], TimeText(f));
    Regroup(DateText(f.date) + [TEE] + TimeText(f), FractionText(f.nanos), [ZED]);
    Regroup(DateText(f.date), [TEE] + TimeText(f), FractionText(f.nanos) + [ZED]);
  }

  lemma FractionBack(text: Bytes, nanos: int)
    requires |text| >= 20 && 0 <= nanos < Pow10(9) && text[19..] == FractionText(nanos) + [ZED]
    ensures text[|text| - 1] == ZED && (|text| > 20 ==> text[19] == DOT)
    ensures AllDigits(FractionDigits(text)) && FractionNanos(FractionDigits(text)) == nanos
  {
    var tail := FractionText(nanos) + [ZED];
    assert text[|text| - 1] == text[19..][|tail| - 1];
    assert text[19] == text[19..][0];
    if nanos > 0 {
      PaddedDecimal(nanos, 9);
      Shifted(text, 19, 1, |tail| - 1);
      assert tail[1..|tail| - 1] == Padded(nanos, 9);
      assert FractionDigits(text)[..9] == FractionDigits(text);
    }
  }

  lemma FieldsBack(t: int)
    requires IsInt64(t)
    ensures |ToIso8601(t)| >= 20 && HasLayout(ToIso8601(t)) && ToIso8601(t)[|ToIso8601(t)| - 1] == ZED
    ensures |ToIso8601(t)| > 20 ==> ToIso8601(t)[19] == DOT
    ensures FieldsAreDigits(ToIso8601(t)) && AllDigits(FractionDigits(ToIso8601(t)))
    ensures FieldsIn(ToIso8601(t)) == FieldsOf(t) && IsTime(FieldsOf(t))
  {
    var f := FieldsOf(t);
    TextOf(t);
    TextLayout(f, ToIso8601(t), FractionText(f.nanos) + [ZED]);
    PaddedDecimal(f.date.year, 4);
    PaddedDecimal(f.date.month, 2);
    PaddedDecimal(f.date.day, 2);
    PaddedDecimal(f.hour, 2);
    PaddedDecimal(f.minute, 2);
    PaddedDecimal(f.second, 2);
    FractionBack(ToIso8601(t), f.nanos);
  }

  // The earliest time whose text parses: the last whole second that 64 bits can hold.
  const EARLIEST: int := -9223372036000000000

  lemma WholeSecondsFit(t: int)
    requires IsInt64(t)
    ensures IsInt64(t / NANOS * NANOS) <==> t >= EARLIEST
    ensures t / NANOS * NANOS + t % NANOS == t
  {
  }

  lemma ParsedWhole(text: Bytes, f: Fields, seconds: int, nanos: int)
    requires |text| >= 20 && HasLayout(text) && text[|text| - 1] == ZED && FieldsAreDigits(text)
    requires |text| > 20 ==> text[19] == DOT && AllDigits(FractionDigits(text))
    requires FieldsIn(text) == f && IsTime(f) && SecondsOf(f) == seconds && f.nanos == nanos
    ensures Parsed(text) == Joined(seconds, nanos)
  {
  }

  lemma JoinedSplit(t: int)
    requires IsInt64(t)
    ensures Joined(t / NANOS, t % NANOS) == if t >= EARLIEST then Ok(t) else Err(ArithmeticOverflow)
  {
    WholeSecondsFit(t);
  }

  // Formatting then parsing gives the time back, except in the fraction of a second at the very bottom
  // of the range, where the parser reports overflow.
  lemma TextRoundTrip(t: int)
    requires IsInt64(t)
    ensures Parsed(ToIso8601(t)) == if t >= EARLIEST then Ok(t) else Err(ArithmeticOverflow)
  {
    FieldsExact(t);
    FieldsBack(t);
    ParsedWhole(ToIso8601(t), FieldsOf(t), t / NANOS, t % NANOS);
    JoinedSplit(t);
  }

  // Every text that is accepted stands for a time that formats and parses to itself.
  lemma AcceptedRoundTrips(text: Bytes)
    requires Parsed(text).Ok?
    ensures IsInt64(Parsed(text).value) && Parsed(ToIso8601(Parsed(text).value)) == Parsed(text)
  {
    var f := FieldsIn(text);
    FractionRange(FractionDigits(text));
    Atleast(SecondsOf(f), f.nanos);
    TextRoundTrip(Parsed(text).value);
  }

  lemma Atleast(seconds: int, nanos: int)
    requires 0 <= nanos && IsInt64(seconds * NANOS)
    ensures seconds * NANOS + nanos >= EARLIEST
  {
  }

  lemma FractionRange(digits: Bytes)
    requires AllDigits(digits)
    ensures 0 <= FractionNanos(digits)
  {
    if |digits| >= 9 {
      DecimalRange(digits[..9]);
    } else {
      DecimalRange(digits);
    }
  }

  // ---- The parser ----

  lemma OneDigitOn(text: Bytes, offset: nat, i: nat)
    requires offset + i < |text|
    ensures text[offset..offset + (i + 1)] == text[offset..offset + i] + [text[offset + i]]
    ensures text[offset..offset + (i + 1)][..i] == text[offset..offset + i]
  {
  }

  lemma OneOf(text: Bytes, offset: nat, length: nat, i: nat)
    requires i < length && offset + length <= |text|
    ensures text[offset..offset + length][i] == text[offset + i]
  {
  }

  method ReadInt(text: Bytes, offset: nat, length: nat) returns (r: Result<int>)
    ensures r == if offset + length > |text| || !AllDigits(text[offset..offset + length]) then Err(InvalidArgument)
                 else Ok(Decimal(text[offset..offset + length]))
  {
    if offset + length > |text| {
      return Err(InvalidArgument);
    }
    var value := 0;
    var i := 0;
    while i < length
      invariant i <= length
      invariant AllDigits(text[offset..offset + i]) && value == Decimal(text[offset..offset + i])
    {
      var c := text[offset + i];
      if !IsDigit(c) {
        OneOf(text, offset, length, i);
        return Err(InvalidArgument);
      }
      OneDigitOn(text, offset, i);
      value := value * 10 + DigitValue(c);
      i := i + 1;
    }
    return Ok(value);
  }

  lemma {:induction false} Scaled(value: int, n: nat)
    ensures value * 10 * Pow10(n) == value * Pow10(n + 1)
  {
  }

  lemma NextDigit(s: Bytes, i: nat)
    requires i < |s|
    ensures s[..i + 1][..i] == s[..i] && Decimal(s[..i + 1]) == 10 * Decimal(s[..i]) + DigitValue(s[i])
  {
    assert s[..i + 1][..i] == s[..i];
  }

  // The fraction loop: at most nine digits are accumulated, then the value is scaled to nanoseconds.
  method ReadFraction(text: Bytes) returns (r: Result<int>)
    requires |text| > 20
    ensures r == if text[19] != DOT || !AllDigits(FractionDigits(text)) then Err(InvalidArgument)
                 else Ok(FractionNanos(FractionDigits(text)))
  {
    if text[19] != DOT {
      return Err(InvalidArgument);
    }
    ghost var all := FractionDigits(text);
    var fraction, digits := 0, 0;
    var index := 20;
    while index + 1 < |text|
      invariant 20 <= index <= |text| - 1
      invariant digits == Min(index - 20, 9)
      invariant AllDigits(all[..index - 20])
      invariant fraction == Decimal(all[..digits])
    {
      var c := text[index];
      assert c == all[index - 20];
      if !IsDigit(c) {
        return Err(InvalidArgument);
      }
      if digits < 9 {
        NextDigit(all, digits);
        fraction := fraction * 10 + DigitValue(c);
        digits := digits + 1;
      }
      index := index + 1;
    }
    assert all[..index - 20] == all;
    fraction := PadFraction(fraction, digits);
    return Ok(fraction);
  }

  method PadFraction(value: int, count: nat) returns (fraction: int)
    requires count <= 9
    ensures fraction == value * Pow10(9 - count)
  {
    fraction := value;
    var digits := count;
    while digits < 9
      invariant count <= digits <= 9
      invariant fraction * Pow10(9 - digits) == value * Pow10(9 - count)
    {
      Scaled(fraction, 9 - digits - 1);
      fraction := fraction * 10;
      digits := digits + 1;
    }
  }

  // Combining the fields with overflow checks at every step.
  method Combine(f: Fields) returns (r: Result<int>)
    requires IsTime(f) && 0 <= f.date.year < 10000
    ensures r == Joined(SecondsOf(f), f.nanos)
  {
    var days := DaysFromCivil(f.date);
    DayCountRange(f.date);
    CheckedMulExact(days, DAY_SECONDS, I64_MAX);
    var seconds := CheckedMul(days, DAY_SECONDS, I64_MAX);
    if seconds == None {
      return Err(ArithmeticOverflow);
    }
    CheckedMulExact(f.hour, 3600, I64_MAX);
    var daySeconds := CheckedMul(f.hour, 3600, I64_MAX);
    if daySeconds == None {
      return Err(ArithmeticOverflow);
    }
    var add := CheckedAdd(daySeconds.value, f.minute * 60 + f.second, I64_MAX);
    if add == None {
      return Err(ArithmeticOverflow);
    }
    var totalSeconds := CheckedAdd(seconds.value, add.value, I64_MAX);
    if totalSeconds == None {
      return Err(ArithmeticOverflow);
    }
    CheckedMulExact(totalSeconds.value, NANOS, I64_MAX);
    var nanos := CheckedMul(totalSeconds.value, NANOS, I64_MAX);
    if nanos == None {
      return Err(ArithmeticOverflow);
    }
    var total := CheckedAdd(nanos.value, f.nanos, I64_MAX);
    if total == None {
      return Err(ArithmeticOverflow);
    }
    return Ok(total.value);
  }

  lemma DayCountRange(d: Date)
    requires IsDate(d) && 0 <= d.year < 10000
    ensures -1000000 <= DaysFromCivil(d) <= 4000000
  {
    DaysByMarch(d);
    FromCivilInYear(d);
    var n := InEra(MarchYear(d), DayOfMarchYear(d));
  }

  method ReadFields(text: Bytes) returns (r: Result<Fields>)
    requires |text| >= 20
    ensures r == if FieldsAreDigits(text) then Ok(FieldsIn(text).(nanos := 0)) else Err(InvalidArgument)
  {
    var year := ReadInt(text, 0, 4);
    var month := ReadInt(text, 5, 2);
    var day := ReadInt(text, 8, 2);
    var hour := ReadInt(text, 11, 2);
    var minute := ReadInt(text, 14, 2);
    var second := ReadInt(text, 17, 2);
    if year.Err? || month.Err? || day.Err? || hour.Err? || minute.Err? || second.Err? {
      return Err(InvalidArgument);
    }
    return Ok(Fields(Date(year.value, month.value, day.value), hour.value, minute.value, second.value, 0));
  }

  method FromIso8601(text: Bytes) returns (r: Result<int>)
    ensures r == Parsed(text)
  {
    if |text| < 20 {
      return Err(InvalidArgument);
    }
    if text[4] != DASH || text[7] != DASH || text[10] != TEE || text[13] != COLON || text[16] != COLON {
      return Err(InvalidArgument);
    }
    if text[|text| - 1] != ZED {
      return Err(Unsupported);
    }
    var fields := ReadFields(text);
    if fields.Err? {
      return Err(fields.error);
    }
    var f := fields.value;
    FieldRanges(text);
    if f.date.month < 1 || f.date.month > 12 {
      return Err(OutOfRange);
    }
    if f.date.day < 1 || f.date.day > DaysInMonth(f.date.year, f.date.month) {
      return Err(OutOfRange);
    }
    if f.hour > 23 || f.minute > 59 || f.second > 59 {
      return Err(OutOfRange);
    }
    var fraction := 0;
    if |text| > 20 {
      var read := ReadFraction(text);
      if read.Err? {
        return read;
      }
      fraction := read.value;
    }
    FractionBelowSecond(text);
    r := Combine(f.(nanos := fraction));
  }

  lemma FieldRanges(text: Bytes)
    requires |text| >= 20 && FieldsAreDigits(text)
    ensures var f := FieldsIn(text);
      0 <= f.date.year < 10000 && 0 <= f.date.month && 0 <= f.date.day && 0 <= f.hour && 0 <= f.minute && 0 <= f.second
  {
    Powers();
    DecimalRange(text[0..4]);
    DecimalRange(text[5..7]);
    DecimalRange(text[8..10]);
    DecimalRange(text[11..13]);
    DecimalRange(text[14..16]);
    DecimalRange(text[17..19]);
  }

  lemma Below(value: int, n: nat, m: nat)
    requires 0 <= value < n && 0 < m
    ensures value * m < n * m
  {
  }

  lemma FractionBelowSecond(text: Bytes)
    requires |text| >= 20 && AllDigits(FractionDigits(text))
    ensures 0 <= FractionNanos(FractionDigits(text)) < NANOS
  {
    var digits := FractionDigits(text);
    Powers();
    FractionRange(digits);
    if |digits| >= 9 {
      DecimalRange(digits[..9]);
    } else {
      DecimalRange(digits);
      PowSplit(|digits|, 9 - |digits|);
      Below(Decimal(digits), Pow10(|digits|), Pow10(9 - |digits|));
    }
  }
}
