/**
 Civil dates and log timestamps: `days_from_civil` and `parse_utc_timestamp_ms` of
 `src-tauri/src/agent_lifecycle.rs`. The day count is proved against the Gregorian calendar itself,
 for every year, and the parser against the UTC form of section 5.6 of RFC 3339.
 */
module CivilTime {
  import opened Common

  /** Division of the source's integers: towards zero. */
  function TruncDiv(a: int, b: int): int
    requires b > 0
  {
    if a >= 0 then a / b else -((-a) / b)
  }

  /** The algorithm of the source, step by step. */
  function DaysFromCivil(year: int, month: int, day: int): int {
    var y := if month <= 2 then year - 1 else year;
    var era := TruncDiv(if y >= 0 then y else y - 399, 400);
    var yoe := y - era * 400;
    var mp := (month + 9) % 12;
    var doy := TruncDiv(153 * mp + 2, 5) + day - 1;
    var doe := yoe * 365 + TruncDiv(yoe, 4) - TruncDiv(yoe, 100) + doy;
    era * 146097 + doe - 719468
  }

  // ----- the calendar --------------------------------------------------------------------

  predicate Leap(y: int) { y % 4 == 0 && (y % 100 != 0 || y % 400 == 0) }

  function YearDays(y: int): nat { if Leap(y) then 366 else 365 }

  function MonthDays(y: int, m: int): nat
    requires 1 <= m <= 12
  {
    if m == 2 then if Leap(y) then 29 else 28
    else if m == 4 || m == 6 || m == 9 || m == 11 then 30
    else 31
  }

  predicate ValidDate(y: int, m: int, d: int) { 1 <= m <= 12 && 1 <= d <= MonthDays(y, m) }

  /** The calendar date after a date. */
  function NextDay(y: int, m: int, d: int): (int, int, int)
    requires ValidDate(y, m, d)
  {
    if d < MonthDays(y, m) then (y, m, d + 1)
    else if m < 12 then (y, m + 1, 1)
    else (y + 1, 1, 1)
  }

  // ----- the count is the calendar's -------------------------------------------------------

  /** Floored division by 400 in closed form. */
  lemma EraIsFloor(y: int)
    ensures TruncDiv(if y >= 0 then y else y - 399, 400) == y / 400
  {
  }

  /** Days from 0000-03-01 to the March 1st that opens the March-based year `y`. */
  function YearStart(y: int): int { 365 * y + y / 4 - y / 100 + y / 400 }

  /** Days from March 1st to the first of month `m`. */
  function MonthStart(m: int): int
    requires 1 <= m <= 12
  {
    TruncDiv(153 * ((m + 9) % 12) + 2, 5)
  }

  lemma ClosedForm(year: int, m: int, d: int)
    requires 1 <= m <= 12
    ensures DaysFromCivil(year, m, d)
         == YearStart(if m <= 2 then year - 1 else year) + MonthStart(m) + d - 1 - 719468
  {
    var y := if m <= 2 then year - 1 else year;
    EraIsFloor(y);
    var era := y / 400;
    var yoe := y - era * 400;
    assert 0 <= yoe < 400;
    assert y / 4 == yoe / 4 + 100 * era;
    assert y / 100 == yoe / 100 + 4 * era;
  }

  /** A March-based year has as many days as the calendar year in which it ends. */
  lemma YearStartStep(y: int)
    ensures YearStart(y + 1) - YearStart(y) == YearDays(y + 1)
  {
    assert (y + 1) / 4 - y / 4 == if (y + 1) % 4 == 0 then 1 else 0;
    assert (y + 1) / 100 - y / 100 == if (y + 1) % 100 == 0 then 1 else 0;
    assert (y + 1) / 400 - y / 400 == if (y + 1) % 400 == 0 then 1 else 0;
    assert (y + 1) % 100 == 0 ==> (y + 1) % 4 == 0;
    assert (y + 1) % 400 == 0 ==> (y + 1) % 100 == 0;
  }

  lemma MonthTable(m: int)
    requires 1 <= m <= 12
    ensures MonthStart(m) == [306, 337, 0, 31, 61, 92, 122, 153, 184, 214, 245, 275][m - 1]
  {
  }

  /** Consecutive calendar days are consecutive numbers, in every year. */
  lemma NextDayIsOneMore(y: int, m: int, d: int)
    requires ValidDate(y, m, d)
    ensures var (y', m', d') := NextDay(y, m, d);
            ValidDate(y', m', d') && DaysFromCivil(y', m', d') == DaysFromCivil(y, m, d) + 1
  {
    hide DaysFromCivil, YearStart, MonthStart, Leap;
    var (y', m', d') := NextDay(y, m, d);
    ClosedForm(y, m, d);
    ClosedForm(y', m', d');
    MonthTable(m);
    MonthTable(m');
    YearStartStep(y - 1);
  }

  lemma EpochIsZero()
    ensures DaysFromCivil(1970, 1, 1) == 0
  {
  }

  // ----- counting by hand ------------------------------------------------------------------

  /** Days from 1970-01-01 to January 1st of year `y`, year by year. */
  function YearCount(y: int): int
    decreases if y >= 1970 then y - 1970 else 1970 - y
  {
    if y == 1970 then 0
    else if y > 1970 then YearCount(y - 1) + YearDays(y - 1)
    else YearCount(y + 1) - YearDays(y)
  }

  function MonthCount(y: int, m: int): nat
    requires 1 <= m <= 12
  {
    if m == 1 then 0 else MonthCount(y, m - 1) + MonthDays(y, m - 1)
  }

  /** The day count anyone would do on a calendar. */
  function NaiveDays(y: int, m: int, d: int): int
    requires 1 <= m <= 12
  {
    YearCount(y) + MonthCount(y, m) + d - 1
  }

  lemma {:induction false} YearCountClosed(y: int)
    ensures YearCount(y) == DaysFromCivil(y, 1, 1)
    decreases if y >= 1970 then y - 1970 else 1970 - y
  {
    hide DaysFromCivil, YearStart, MonthStart, Leap;
    ClosedForm(y, 1, 1);
    MonthTable(1);
    if y == 1970 {
      EpochIsZero();
    } else if y > 1970 {
      YearCountClosed(y - 1);
      ClosedForm(y - 1, 1, 1);
      YearStartStep(y - 2);
    } else {
      YearCountClosed(y + 1);
      ClosedForm(y + 1, 1, 1);
      YearStartStep(y - 1);
    }
  }

  lemma MonthCountClosed(y: int, m: int)
    requires 1 <= m <= 12
    ensures MonthCount(y, m)
         == [0, 31, 59, 90, 120, 151, 181, 212, 243, 273, 304, 334][m - 1] + (if m > 2 && Leap(y) then 1 else 0)
    decreases m
  {
  }

  /** The algorithm counts the days of the calendar, for every date of every year. */
  lemma DaysAreNaive(y: int, m: int, d: int)
    requires ValidDate(y, m, d)
    ensures DaysFromCivil(y, m, d) == NaiveDays(y, m, d)
  {
    hide DaysFromCivil, YearStart, MonthStart, Leap, YearCount, MonthCount;
    YearCountClosed(y);
    ClosedForm(y, 1, 1);
    ClosedForm(y, m, d);
    MonthTable(1);
    MonthTable(m);
    MonthCountClosed(y, m);
    YearStartStep(y - 1);
  }

  // ----- timestamps -------------------------------------------------------------------------

  type Text = seq<u8>

  datatype Instant = Instant(year: int, month: int, day: int, hour: int, minute: int, second: int, millis: int)

  predicate ValidInstant(t: Instant) {
    0 <= t.year <= 9999 && ValidDate(t.year, t.month, t.day)
    && 0 <= t.hour < 24 && 0 <= t.minute < 60 && 0 <= t.second < 60 && 0 <= t.millis < 1000
  }

  function Digit(n: int): u8
    requires 0 <= n < 10
  {
    (48 + n) as u8
  }

  function TwoDigits(n: int): Text
    requires 0 <= n < 100
  {
    [Digit(n / 10), Digit(n % 10)]
  }

  function ThreeDigits(n: int): Text
    requires 0 <= n < 1000
  {
    [Digit(n / 100)] + TwoDigits(n % 100)
  }

  function FourDigits(n: int): Text
    requires 0 <= n < 10000
  {
    TwoDigits(n / 100) + TwoDigits(n % 100)
  }

  // '-', 'T', ':', '.', 'Z', '+'
  const DASH: u8 := 45
  const TEE: u8 := 84
  const COLON: u8 := 58
  const DOT: u8 := 46
  const ZED: u8 := 90
  const PLUS: u8 := 43

  /** `2026-09-23T08:56:01`. */
  function Clock(t: Instant): Text
    requires ValidInstant(t)
  {
    FourDigits(t.year) + [DASH] + TwoDigits(t.month) + [DASH] + TwoDigits(t.day) + [TEE]
    + TwoDigits(t.hour) + [COLON] + TwoDigits(t.minute) + [COLON] + TwoDigits(t.second)
  }

  /** The same with a fraction of any length, or none: `2026-09-23T08:56:01.387Z`. */
  function Written(t: Instant, fraction: Text): Text
    requires ValidInstant(t)
  {
    Clock(t) + (if fraction == [] then [] else [DOT] + fraction) + [ZED]
  }

  /** As written with milliseconds. */
  function Format(t: Instant): Text
    requires ValidInstant(t)
  {
    Written(t, ThreeDigits(t.millis))
  }

  predicate IsDigit(b: u8) { 48 <= b <= 57 }

  function Digits(s: Text): Option<int> {
    if s == [] then Some(0)
    else
      match Digits(s[..|s| - 1])
      case None => None
      case Some(n) => if IsDigit(s[|s| - 1]) then Some(10 * n + (s[|s| - 1] as int - 48)) else None
  }

  function Power(k: nat): nat { if k == 0 then 1 else 10 * Power(k - 1) }

  /** The whole milliseconds in a decimal fraction of a second. */
  function FractionMillis(fraction: Text): int
    requires Digits(fraction).Some?
  {
    assert Power(|fraction|) > 0 by { PowerPositive(|fraction|); }
    Digits(fraction).value * 1000 / Power(|fraction|)
  }

  lemma PowerPositive(k: nat)
    ensures Power(k) > 0
  {
  }

  /** Parsing an integer: an optional sign and at least one digit. */
  function ParseInt(s: Text): Option<int> {
    if s == [] then None
    else if s[0] == PLUS || s[0] == DASH then
      if |s| == 1 then None
      else match Digits(s[1..])
        case None => None
        case Some(n) => Some(if s[0] == DASH then -n else n)
    else Digits(s)
  }

  function TrimZ(s: Text): Text
    decreases |s|
  {
    if s != [] && s[|s| - 1] == ZED then TrimZ(s[..|s| - 1]) else s
  }

  /** The first three characters of the fraction, filled up with zeros on the right. */
  function Padded(s: Text): Text {
    if |s| >= 3 then s[..3] else if |s| == 2 then s + [48] else if |s| == 1 then s + [48, 48] else [48, 48, 48]
  }

  /** The fraction behind the seconds; anything unreadable counts as zero. */
  function Millis(rest: Text): int {
    if rest == [] || rest[0] != DOT then 0
    else match ParseInt(Padded(TrimZ(rest[1..])))
      case None => 0
      case Some(n) => n
  }

  /** Epoch milliseconds; the fields are not range-checked. */
  function ParseTimestamp(s: Text): Option<int> {
    if |s| < 19 || s[4] != DASH || s[10] != TEE then None
    else
      match (ParseInt(s[0..4]), ParseInt(s[5..7]), ParseInt(s[8..10]),
             ParseInt(s[11..13]), ParseInt(s[14..16]), ParseInt(s[17..19]))
      case (Some(y), Some(mo), Some(d), Some(h), Some(mi), Some(sec)) =>
        Some(((DaysFromCivil(y, mo, d) * 24 + h) * 60 + mi) * 60000 + sec * 1000 + Millis(s[19..]))
      case _ => None
  }

  /** Epoch milliseconds counted on the calendar and the clock. */
  function EpochMillis(t: Instant): int
    requires ValidInstant(t)
  {
    (((NaiveDays(t.year, t.month, t.day) * 24 + t.hour) * 60 + t.minute) * 60 + t.second) * 1000 + t.millis
  }

  lemma ParseTwo(n: int)
    requires 0 <= n < 100
    ensures ParseInt(TwoDigits(n)) == Some(n)
  {
    var s := TwoDigits(n);
    assert s[..1] == [Digit(n / 10)] && s[..1][..0] == [];
    assert Digits(s[..1]) == Some(n / 10);
  }

  lemma DigitsSnoc(s: Text, n: int, k: int)
    requires Digits(s) == Some(n) && 0 <= k < 10
    ensures Digits(s + [Digit(k)]) == Some(10 * n + k)
  {
  }

  lemma ParseThree(n: int)
    requires 0 <= n < 1000
    ensures ParseInt(ThreeDigits(n)) == Some(n)
  {
    DigitsSnoc([], 0, n / 100);
    DigitsSnoc([Digit(n / 100)], n / 100, n % 100 / 10);
    DigitsSnoc([Digit(n / 100)] + [Digit(n % 100 / 10)], n / 10, n % 10);
    assert [] + [Digit(n / 100)] == [Digit(n / 100)];
    assert ThreeDigits(n) == [Digit(n / 100)] + [Digit(n % 100 / 10)] + [Digit(n % 10)];
  }

  lemma ParseFour(n: int)
    requires 0 <= n < 10000
    ensures ParseInt(FourDigits(n)) == Some(n)
  {
    var a, b, c, d := n / 1000, n / 100 % 10, n / 10 % 10, n % 10;
    DigitsSnoc([], 0, a);
    DigitsSnoc([Digit(a)], a, b);
    DigitsSnoc([Digit(a)] + [Digit(b)], n / 100, c);
    DigitsSnoc([Digit(a)] + [Digit(b)] + [Digit(c)], n / 10, d);
    assert [] + [Digit(a)] == [Digit(a)];
    assert n / 100 / 10 == a && n % 100 / 10 == c && n % 100 % 10 == d;
    assert FourDigits(n) == [Digit(a)] + [Digit(b)] + [Digit(c)] + [Digit(d)];
  }

  /** `n` is in the block of `q` numbers from `lead * q`. */
  predicate InBlock(n: int, lead: int, q: int) { lead * q <= n < (lead + 1) * q }

  lemma OwnBlock(n: int)
    ensures InBlock(n, n, 1)
  {
  }

  /** One more digit in a block ten times as long. */
  lemma BlockSnoc(n: int, lead: int, q: int, d: int)
    requires InBlock(n, lead, q) && 0 <= d < 10
    ensures InBlock(10 * n + d, lead, 10 * q)
  {
    assert lead * (10 * q) == 10 * (lead * q) && (lead + 1) * (10 * q) == 10 * ((lead + 1) * q);
  }

  lemma Ordered(a: int, b: int, q: int)
    requires a <= b && 0 <= q
    ensures a * q <= b * q
  {
  }

  lemma BlockQuotient(n: int, lead: int, q: int)
    requires 0 < q && InBlock(n, lead, q)
    ensures n / q == lead
  {
    var d := n / q;
    assert d * q <= n < (d + 1) * q;
    if d < lead { Ordered(d + 1, lead, q); }
    if d > lead { Ordered(lead + 1, d, q); }
  }

  lemma BlockMillis(n: int, lead: int, q: int)
    requires 0 < q && InBlock(n, lead, q)
    ensures n * 1000 / (1000 * q) == lead
  {
    assert lead * (1000 * q) == 1000 * (lead * q) && (lead + 1) * (1000 * q) == 1000 * ((lead + 1) * q);
    BlockQuotient(n * 1000, lead, 1000 * q);
  }

  /** Digits are a number below their power of ten. */
  lemma {:induction false} DigitsBelow(s: Text)
    requires Digits(s).Some?
    ensures 0 <= Digits(s).value < Power(|s|)
  {
    if s != [] { DigitsBelow(s[..|s| - 1]); }
  }

  /** The first three digits say in which block the number is. */
  lemma {:induction false} LeadingDigits(s: Text)
    requires Digits(s).Some? && |s| >= 3
    ensures Digits(s[..3]).Some? && InBlock(Digits(s).value, Digits(s[..3]).value, Power(|s| - 3))
  {
    hide InBlock;
    if |s| == 3 {
      assert s[..3] == s;
      assert InBlock(Digits(s).value, Digits(s).value, 1) by { OwnBlock(Digits(s).value); }
    } else {
      var front, d := s[..|s| - 1], s[|s| - 1] as int - 48;
      assert front[..3] == s[..3];
      LeadingDigits(front);
      BlockSnoc(Digits(front).value, Digits(s[..3]).value, Power(|s| - 4), d);
    }
  }

  /** The digits that are read are the whole milliseconds. */
  lemma PaddedRead(s: Text)
    requires Digits(s).Some? && s != []
    ensures ParseInt(Padded(s)) == Some(FractionMillis(s)) && 0 <= FractionMillis(s) < 1000
  {
    FirstIsDigit(s);
    if |s| >= 3 {
      LongFraction(s);
    } else if |s| == 2 {
      DigitsBelow(s);
      assert Power(2) == 100;
      DigitsSnoc(s, Digits(s).value, 0);
    } else {
      DigitsBelow(s);
      assert Power(1) == 10;
      DigitsSnoc(s, Digits(s).value, 0);
      DigitsSnoc(s + [48], 10 * Digits(s).value, 0);
      assert s + [48] + [48] == s + [48, 48];
    }
  }

  lemma LongFraction(s: Text)
    requires Digits(s).Some? && |s| >= 3
    ensures Digits(s[..3]) == Some(FractionMillis(s)) && 0 <= FractionMillis(s) < 1000
  {
    LeadingDigits(s);
    DigitsBelow(s[..3]);
    assert Power(3) == 1000;
    PowerSteps(|s| - 3);
    PowerPositive(|s| - 3);
    var n, lead, q := Digits(s).value, Digits(s[..3]).value, Power(|s| - 3);
    hide Power, Digits, InBlock;
    BlockMillis(n, lead, q);
    assert Power(|s|) == 1000 * q;
  }

  lemma PowerSteps(k: nat)
    ensures Power(k + 3) == 1000 * Power(k)
  {
    assert Power(k + 3) == 10 * Power(k + 2) && Power(k + 2) == 10 * Power(k + 1);
  }

  lemma FirstIsDigit(s: Text)
    requires Digits(s).Some? && s != []
    ensures IsDigit(s[0]) && IsDigit(s[|s| - 1])
    decreases |s|
  {
    if |s| > 1 { FirstIsDigit(s[..|s| - 1]); }
  }

  lemma FractionRead(s: Text)
    requires Digits(s).Some?
    ensures Millis((if s == [] then [] else [DOT] + s) + [ZED]) == FractionMillis(s) && 0 <= FractionMillis(s) < 1000
  {
    if s != [] {
      FirstIsDigit(s);
      PaddedRead(s);
      assert ([DOT] + s + [ZED])[1..] == s + [ZED];
      assert (s + [ZED])[..|s|] == s;
      assert TrimZ(s + [ZED]) == TrimZ(s) == s;
    }
  }

  lemma ClockFields(t: Instant, rest: Text)
    requires ValidInstant(t)
    ensures var s := Clock(t) + rest;
            && |s| >= 19 && s[4] == DASH && s[10] == TEE
            && s[0..4] == FourDigits(t.year) && s[5..7] == TwoDigits(t.month) && s[8..10] == TwoDigits(t.day)
            && s[11..13] == TwoDigits(t.hour) && s[14..16] == TwoDigits(t.minute) && s[17..19] == TwoDigits(t.second)
            && s[19..] == rest
  {
    hide Digit;
  }

  /** A written clock is read back, with whatever its rest makes of the milliseconds. */
  lemma ParseClock(t: Instant, rest: Text)
    requires ValidInstant(t) && 0 <= Millis(rest) < 1000
    ensures ParseTimestamp(Clock(t) + rest) == Some(EpochMillis(t.(millis := Millis(rest))))
  {
    hide Clock, ParseInt, FourDigits, TwoDigits, Millis, DaysFromCivil, NaiveDays;
    ClockFields(t, rest);
    ParseFour(t.year);
    ParseTwo(t.month);
    ParseTwo(t.day);
    ParseTwo(t.hour);
    ParseTwo(t.minute);
    ParseTwo(t.second);
    DaysAreNaive(t.year, t.month, t.day);
  }

  /**
   Reading back a written instant gives its whole milliseconds since the epoch, for a fraction of any
   length or none.
   */
  lemma ParseWritten(t: Instant, fraction: Text)
    requires ValidInstant(t) && Digits(fraction).Some?
    ensures 0 <= FractionMillis(fraction) < 1000
    ensures ParseTimestamp(Written(t, fraction)) == Some(EpochMillis(t.(millis := FractionMillis(fraction))))
  {
    hide Clock, ParseTimestamp, EpochMillis, Millis, FractionMillis, Digits;
    var rest := (if fraction == [] then [] else [DOT] + fraction) + [ZED];
    FractionRead(fraction);
    ParseClock(t, rest);
    assert Written(t, fraction) == Clock(t) + rest;
  }

  /** So an instant written with its milliseconds is read back exactly. */
  lemma ParseFormat(t: Instant)
    requires ValidInstant(t)
    ensures ParseTimestamp(Format(t)) == Some(EpochMillis(t))
  {
    hide Written, ParseTimestamp, EpochMillis;
    var f := ThreeDigits(t.millis);
    ParseThree(t.millis);
    assert Digits(f) == Some(t.millis) && Power(3) == 1000;
    assert FractionMillis(f) == t.millis;
    ParseWritten(t, f);
  }

  // ----- any other text ----------------------------------------------------------------------

  predicate AllDigits(s: Text) { forall i | 0 <= i < |s| :: IsDigit(s[i]) }

  lemma {:induction false} DigitsIff(s: Text)
    ensures Digits(s).Some? <==> AllDigits(s)
  {
    if s != [] { DigitsIff(s[..|s| - 1]); }
  }

  /** '+' or '-'. */
  predicate IsSign(b: u8) { b == 43 || b == 45 }

  /** At least one digit, behind an optional sign. */
  predicate IsInteger(s: Text) { s != [] && (AllDigits(s) || (|s| >= 2 && IsSign(s[0]) && AllDigits(s[1..]))) }

  lemma ParseIntIff(s: Text)
    ensures ParseInt(s).Some? <==> IsInteger(s)
    ensures s != [] && AllDigits(s) ==>
              ParseInt(s) == ParseInt([43] + s) == Digits(s) && ParseInt([45] + s) == Some(-Digits(s).value)
  {
    DigitsIff(s);
    if s != [] {
      DigitsIff(s[1..]);
      assert ([43] + s)[1..] == s && ([45] + s)[1..] == s;
    }
  }

  /** What is refused: a text too short, without the separators, or with a field that is no integer. */
  lemma RefusedIff(s: Text)
    ensures ParseTimestamp(s).None? <==>
              || |s| < 19 || s[4] != 45 || s[10] != 84
              || !IsInteger(s[0..4]) || !IsInteger(s[5..7]) || !IsInteger(s[8..10])
              || !IsInteger(s[11..13]) || !IsInteger(s[14..16]) || !IsInteger(s[17..19])
  {
    hide ParseInt, IsInteger, DaysFromCivil, Millis;
    if |s| >= 19 {
      ParseIntIff(s[0..4]);
      ParseIntIff(s[5..7]);
      ParseIntIff(s[8..10]);
      ParseIntIff(s[11..13]);
      ParseIntIff(s[14..16]);
      ParseIntIff(s[17..19]);
    }
  }

  /** One of the first three characters of the fraction is none of a number. */
  predicate Spoils(rest: Text, k: nat) {
    k < 3 && 1 + k < |rest| && !IsDigit(rest[1 + k]) && rest[1 + k] != 90 && (k == 0 ==> !IsSign(rest[1]))
  }

  /** No fraction that can be read: none at all, only its dot, or no number behind it. */
  ghost predicate NoFraction(rest: Text) {
    rest == [] || rest[0] != 46 || (forall i | 1 <= i < |rest| :: rest[i] == 90) || exists k: nat :: Spoils(rest, k)
  }

  /** Then the instant is that of the clock alone: a zone behind the seconds is not looked at. */
  lemma ClockAlone(t: Instant, rest: Text)
    requires ValidInstant(t) && NoFraction(rest)
    ensures ParseTimestamp(Clock(t) + rest) == Some(EpochMillis(t.(millis := 0)))
  {
    hide Clock, ParseTimestamp, EpochMillis;
    if rest != [] && rest[0] == DOT {
      var x := rest[1..];
      if k: nat :| Spoils(rest, k) {
        TrimKeeps(x, k);
        var p := Padded(TrimZ(x));
        assert p[k] == x[k];
        ParseIntIff(p);
      } else {
        TrimAll(x);
        assert ParseInt([48, 48, 48]) == Some(0) by { ZerosAreZero(); }
      }
    }
    ParseClock(t, rest);
  }

  lemma ZerosAreZero()
    ensures ParseInt([48, 48, 48]) == Some(0)
  {
    ParseThree(0);
    assert ThreeDigits(0) == [48, 48, 48];
  }

  lemma {:induction false} TrimKeeps(s: Text, k: nat)
    requires k < |s| && s[k] != 90
    ensures k < |TrimZ(s)| <= |s| && TrimZ(s) == s[..|TrimZ(s)|]
    decreases |s|
  {
    if s[|s| - 1] == ZED { TrimKeeps(s[..|s| - 1], k); }
  }

  lemma {:induction false} TrimAll(s: Text)
    requires forall i | 0 <= i < |s| :: s[i] == 90
    ensures TrimZ(s) == []
    decreases |s|
  {
    if s != [] { TrimAll(s[..|s| - 1]); }
  }

  // ----- the order of instants ----------------------------------------------------------------

  /** Earlier on the calendar and the clock. */
  predicate Earlier(a: Instant, b: Instant) {
    if a.year != b.year then a.year < b.year
    else if a.month != b.month then a.month < b.month
    else if a.day != b.day then a.day < b.day
    else if a.hour != b.hour then a.hour < b.hour
    else if a.minute != b.minute then a.minute < b.minute
    else if a.second != b.second then a.second < b.second
    else a.millis < b.millis
  }

  predicate EarlierDate(a: Instant, b: Instant) {
    if a.year != b.year then a.year < b.year
    else if a.month != b.month then a.month < b.month
    else a.day < b.day
  }

  lemma {:induction false} YearsApart(y: int, z: int)
    requires y < z
    ensures YearCount(y) + YearDays(y) <= YearCount(z)
    decreases z - y
  {
    hide Leap;
    YearCountNext(z - 1);
    if y < z - 1 { YearsApart(y, z - 1); }
  }

  lemma YearCountNext(y: int)
    ensures YearCount(y + 1) == YearCount(y) + YearDays(y)
  {
  }

  lemma EarlierDateCounts(a: Instant, b: Instant)
    requires ValidInstant(a) && ValidInstant(b) && EarlierDate(a, b)
    ensures NaiveDays(a.year, a.month, a.day) < NaiveDays(b.year, b.month, b.day)
  {
    hide Leap, YearCount, MonthCount;
    MonthCountClosed(a.year, a.month);
    MonthCountClosed(b.year, b.month);
    if a.year < b.year { YearsApart(a.year, b.year); }
  }

  lemma EarlierIsSmaller(a: Instant, b: Instant)
    requires ValidInstant(a) && ValidInstant(b) && Earlier(a, b)
    ensures EpochMillis(a) < EpochMillis(b)
  {
    hide NaiveDays;
    if EarlierDate(a, b) { EarlierDateCounts(a, b); }
  }

  /** Reading keeps the order of instants. */
  lemma OrderPreserved(a: Instant, b: Instant)
    requires ValidInstant(a) && ValidInstant(b)
    ensures ParseTimestamp(Format(a)).Some? && ParseTimestamp(Format(b)).Some?
    ensures Earlier(a, b) <==> ParseTimestamp(Format(a)).value < ParseTimestamp(Format(b)).value
  {
    hide ParseTimestamp, Format, EpochMillis;
    ParseFormat(a);
    ParseFormat(b);
    if Earlier(a, b) { EarlierIsSmaller(a, b); }
    if Earlier(b, a) { EarlierIsSmaller(b, a); }
  }
}
