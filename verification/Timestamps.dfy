/**
 Stored timestamps. The store writes every instant as UTC text of the form
 2006-01-02T15:04:05Z (RFC 3339, section 5.6) and compares the texts; these
 lemmas say when that comparison is the comparison of instants.
 */
module Timestamps {
  import opened Common
  import opened Text
  import opened Decimal

  /** Nanoseconds since 0000-01-01T00:00:00Z, proleptic Gregorian calendar. */
  type Instant = nat

  const NANOS_PER_SECOND := 1_000_000_000
  const SECONDS_PER_DAY := 86_400

  /** The first second of year 10000, whose text has a fifth year digit. */
  const YEAR_10000 := 3_652_425 * SECONDS_PER_DAY

  /** 0001-01-01T00:00:00Z, Go's zero time.Time: year 0 is a leap year. */
  const ZERO_TIME := 366 * SECONDS_PER_DAY

  function Seconds(t: Instant): (s: nat)
    ensures s * NANOS_PER_SECOND <= t < (s + 1) * NANOS_PER_SECOND
  {
    t / NANOS_PER_SECOND
  }

  /** An instant whose UTC year is written with four digits. */
  predicate FourDigitYear(t: Instant) {
    Seconds(t) < YEAR_10000
  }

  // ----- the calendar (RFC 3339, section 5.7 and appendix C)

  predicate IsLeap(y: nat) {
    y % 4 == 0 && (y % 100 != 0 || y % 400 == 0)
  }

  function DaysInYear(y: nat): nat {
    if IsLeap(y) then 366 else 365
  }

  function DaysInMonth(y: nat, m: nat): nat
    requires 1 <= m <= 12
  {
    if m == 2 then (if IsLeap(y) then 29 else 28)
    else if m == 4 || m == 6 || m == 9 || m == 11 then 30
    else 31
  }

  /** Days from 0000-01-01 to the first day of year y. */
  function DaysBeforeYear(y: nat): nat {
    365 * y + (y + 3) / 4 - (y + 99) / 100 + (y + 399) / 400
  }

  function DaysBeforeMonth(y: nat, m: nat): nat
    requires 1 <= m <= 13
  {
    if m == 1 then 0 else DaysBeforeMonth(y, m - 1) + DaysInMonth(y, m - 1)
  }

  datatype Civil = Civil(year: nat, month: nat, day: nat, hour: nat, minute: nat, second: nat)

  predicate ValidCivil(c: Civil) {
    && 1 <= c.month <= 12
    && 1 <= c.day <= DaysInMonth(c.year, c.month)
    && c.hour < 24 && c.minute < 60 && c.second < 60
  }

  function DayNumber(c: Civil): nat
    requires ValidCivil(c)
  {
    DaysBeforeYear(c.year) + DaysBeforeMonth(c.year, c.month) + c.day - 1
  }

  function CivilSeconds(c: Civil): nat
    requires ValidCivil(c)
  {
    DayNumber(c) * SECONDS_PER_DAY + c.hour * 3600 + c.minute * 60 + c.second
  }

  /** Rounding y up to multiples of k gains one at each multiple of k. */
  lemma RoundUpStep(y: nat, k: nat)
    requires k == 4 || k == 100 || k == 400
    ensures (y + k) / k == (y + k - 1) / k + (if y % k == 0 then 1 else 0)
  {
    if k == 4 {
      RoundUpByFour(y, y / 4, y % 4);
    } else if k == 100 {
      RoundUpByHundred(y, y / 100, y % 100);
    } else {
      RoundUpByFourHundred(y, y / 400, y % 400);
    }
  }

  lemma RoundUpByFour(y: nat, q: nat, r: nat)
    requires y == 4 * q + r && r < 4
    ensures (y + 4) / 4 == q + 1 && (y + 3) / 4 == (if r == 0 then q else q + 1)
  {
  }

  lemma RoundUpByHundred(y: nat, q: nat, r: nat)
    requires y == 100 * q + r && r < 100
    ensures (y + 100) / 100 == q + 1 && (y + 99) / 100 == (if r == 0 then q else q + 1)
  {
  }

  lemma RoundUpByFourHundred(y: nat, q: nat, r: nat)
    requires y == 400 * q + r && r < 400
    ensures (y + 400) / 400 == q + 1 && (y + 399) / 400 == (if r == 0 then q else q + 1)
  {
  }

  lemma QuarterOf(y: nat, q: nat)
    requires y == 4 * q
    ensures y % 4 == 0
  {
  }

  lemma HundredthOf(y: nat, q: nat)
    requires y == 100 * q
    ensures y % 100 == 0
  {
  }

  lemma CenturiesAreFourYearSteps(y: nat)
    ensures y % 400 == 0 ==> y % 100 == 0
    ensures y % 100 == 0 ==> y % 4 == 0
  {
    if y % 100 == 0 {
      QuarterOf(y, 25 * (y / 100));
    }
    if y % 400 == 0 {
      HundredthOf(y, 4 * (y / 400));
    }
  }

  lemma DaysBeforeYearStep(y: nat)
    ensures DaysBeforeYear(y + 1) == DaysBeforeYear(y) + DaysInYear(y)
  {
    RoundUpStep(y, 4);
    RoundUpStep(y, 100);
    RoundUpStep(y, 400);
    CenturiesAreFourYearSteps(y);
  }

  lemma {:induction false} DaysBeforeYearMonotone(y: nat, z: nat)
    requires y < z
    ensures DaysBeforeYear(y) + DaysInYear(y) <= DaysBeforeYear(z)
    decreases z - y
  {
    DaysBeforeYearStep(y);
    if y + 1 < z {
      DaysBeforeYearMonotone(y + 1, z);
    }
  }

  lemma {:induction false} DaysBeforeMonthMonotone(y: nat, m: nat, n: nat)
    requires 1 <= m < n <= 13
    ensures DaysBeforeMonth(y, m) + DaysInMonth(y, m) <= DaysBeforeMonth(y, n)
    decreases n - m
  {
    if m + 1 < n {
      DaysBeforeMonthMonotone(y, m + 1, n);
    }
  }

  lemma TwelveMonthsMakeAYear(y: nat)
    ensures DaysBeforeMonth(y, 13) == DaysInYear(y)
  {
    assert DaysBeforeMonth(y, 3) == DaysBeforeMonth(y, 2) + DaysInMonth(y, 2);
    assert DaysBeforeMonth(y, 5) == DaysBeforeMonth(y, 3) + 31 + 30;
    assert DaysBeforeMonth(y, 7) == DaysBeforeMonth(y, 5) + 31 + 30;
    assert DaysBeforeMonth(y, 9) == DaysBeforeMonth(y, 7) + 31 + 31;
    assert DaysBeforeMonth(y, 11) == DaysBeforeMonth(y, 9) + 30 + 31;
  }

  /** The year containing a day, searched upwards from y. */
  function YearFrom(y: nat, days: nat): (r: nat)
    requires DaysBeforeYear(y) <= days
    ensures DaysBeforeYear(r) <= days < DaysBeforeYear(r) + DaysInYear(r)
    decreases days - DaysBeforeYear(y)
  {
    DaysBeforeYearStep(y);
    if days < DaysBeforeYear(y + 1) then y else YearFrom(y + 1, days)
  }

  /** The month containing a day of year y, searched upwards from m. */
  function MonthFrom(y: nat, m: nat, dayOfYear: nat): (r: nat)
    requires 1 <= m <= 12
    requires DaysBeforeMonth(y, m) <= dayOfYear < DaysInYear(y)
    ensures 1 <= r <= 12
    ensures DaysBeforeMonth(y, r) <= dayOfYear < DaysBeforeMonth(y, r) + DaysInMonth(y, r)
    decreases 13 - m
  {
    TwelveMonthsMakeAYear(y);
    if m == 12 || dayOfYear < DaysBeforeMonth(y, m + 1) then m else MonthFrom(y, m + 1, dayOfYear)
  }

  function CivilOf(seconds: nat): Civil {
    var days, clock := seconds / SECONDS_PER_DAY, seconds % SECONDS_PER_DAY;
    var y := YearFrom(0, days);
    var m := MonthFrom(y, 1, days - DaysBeforeYear(y));
    Civil(y, m, days - DaysBeforeYear(y) - DaysBeforeMonth(y, m) + 1,
          clock / 3600, clock / 60 % 60, clock % 60)
  }

  lemma CivilRoundTrip(seconds: nat)
    ensures ValidCivil(CivilOf(seconds)) && CivilSeconds(CivilOf(seconds)) == seconds
  {
    var clock := seconds % SECONDS_PER_DAY;
    assert clock == clock / 60 * 60 + clock % 60;
    assert clock / 60 == clock / 3600 * 60 + clock / 60 % 60;
  }

  /** Field-by-field order of civil times. */
  predicate CivilLess(a: Civil, b: Civil) {
    a.year < b.year || (a.year == b.year && (
    a.month < b.month || (a.month == b.month && (
    a.day < b.day || (a.day == b.day && (
    a.hour < b.hour || (a.hour == b.hour && (
    a.minute < b.minute || (a.minute == b.minute && a.second < b.second)))))))))
  }

  lemma CivilLessIsEarlier(a: Civil, b: Civil)
    requires ValidCivil(a) && ValidCivil(b) && CivilLess(a, b)
    ensures CivilSeconds(a) < CivilSeconds(b)
  {
    TwelveMonthsMakeAYear(a.year);
    DaysBeforeMonthMonotone(a.year, a.month, 13);
    if a.year < b.year {
      DaysBeforeYearMonotone(a.year, b.year);
      assert DayNumber(a) < DayNumber(b);
    } else if a.month < b.month {
      DaysBeforeMonthMonotone(a.year, a.month, b.month);
      assert DayNumber(a) < DayNumber(b);
    }
  }

  lemma CivilOrder(a: nat, b: nat)
    ensures CivilLess(CivilOf(a), CivilOf(b)) <==> a < b
  {
    var x, y := CivilOf(a), CivilOf(b);
    CivilRoundTrip(a);
    CivilRoundTrip(b);
    if CivilLess(x, y) {
      CivilLessIsEarlier(x, y);
    } else if CivilLess(y, x) {
      CivilLessIsEarlier(y, x);
    } else {
      assert x == y;
    }
  }

  // ----- text

  /** Go pads the year to four digits and writes longer years in full. */
  function YearText(y: nat): string {
    if y < 10000 then Pad4(y) else FormatUint(y)
  }

  function Pad4(n: nat): (s: string)
    requires n < 10000
    ensures |s| == 4
  {
    assert Pow10(4) == 10000;
    Pad(n, 4)
  }

  function Pad2(n: nat): (s: string)
    requires n < 100
    ensures |s| == 2
  {
    assert Pow10(2) == 100;
    Pad(n, 2)
  }

  function CivilText(c: Civil): string
    requires ValidCivil(c)
  {
    YearText(c.year) + ("-" + (Pad2(c.month) + ("-" + (Pad2(c.day) + ClockText(c)))))
  }

  function ClockText(c: Civil): string
    requires ValidCivil(c)
  {
    "T" + (Pad2(c.hour) + (":" + (Pad2(c.minute) + (":" + (Pad2(c.second) + "Z")))))
  }

  function FormatSeconds(seconds: nat): string {
    CivilRoundTrip(seconds);
    CivilText(CivilOf(seconds))
  }

  function FormatTime(t: Instant): string {
    FormatSeconds(Seconds(t))
  }

  // ----- text order is time order

  lemma Pad2Order(a: nat, x: string, b: nat, y: string)
    requires a < 100 && b < 100
    ensures LexLess(Pad2(a) + x, Pad2(b) + y) <==> a < b || (a == b && LexLess(x, y))
  {
    assert Pow10(2) == 100;
    PadOrder(a, b, 2);
    LexConcat(Pad2(a), x, Pad2(b), y);
  }

  lemma MarkOrder(c: char, x: string, y: string)
    ensures LexLess([c] + x, [c] + y) <==> LexLess(x, y)
  {
    LexConcat([c], x, [c], y);
    LexTrichotomy([c], [c]);
  }

  lemma ClockTextOrder(a: Civil, b: Civil)
    requires ValidCivil(a) && ValidCivil(b)
    ensures LexLess(ClockText(a), ClockText(b)) <==>
            a.hour < b.hour || (a.hour == b.hour && (
            a.minute < b.minute || (a.minute == b.minute && a.second < b.second)))
  {
    var a1, b1 := Pad2(a.second) + "Z", Pad2(b.second) + "Z";
    var a2, b2 := Pad2(a.minute) + (":" + a1), Pad2(b.minute) + (":" + b1);
    var a3, b3 := Pad2(a.hour) + (":" + a2), Pad2(b.hour) + (":" + b2);
    LexTrichotomy("Z", "Z");
    Pad2Order(a.second, "Z", b.second, "Z");
    MarkOrder(':', a1, b1);
    Pad2Order(a.minute, ":" + a1, b.minute, ":" + b1);
    MarkOrder(':', a2, b2);
    Pad2Order(a.hour, ":" + a2, b.hour, ":" + b2);
    MarkOrder('T', a3, b3);
  }

  lemma CivilTextOrder(a: Civil, b: Civil)
    requires ValidCivil(a) && ValidCivil(b) && a.year < 10000 && b.year < 10000
    ensures LexLess(CivilText(a), CivilText(b)) <==> CivilLess(a, b)
  {
    var a1, b1 := Pad2(a.day) + ClockText(a), Pad2(b.day) + ClockText(b);
    var a2, b2 := Pad2(a.month) + ("-" + a1), Pad2(b.month) + ("-" + b1);
    ClockTextOrder(a, b);
    Pad2Order(a.day, ClockText(a), b.day, ClockText(b));
    MarkOrder('-', a1, b1);
    Pad2Order(a.month, "-" + a1, b.month, "-" + b1);
    MarkOrder('-', a2, b2);
    assert Pow10(4) == 10000;
    PadOrder(a.year, b.year, 4);
    LexConcat(Pad4(a.year), "-" + a2, Pad4(b.year), "-" + b2);
  }

  lemma YearBound(seconds: nat)
    ensures CivilOf(seconds).year < 10000 <==> seconds < YEAR_10000
  {
    var days := seconds / SECONDS_PER_DAY;
    var y := YearFrom(0, days);
    assert DaysBeforeYear(10000) == 3_652_425;
    if y < 10000 {
      DaysBeforeYearMonotone(y, 10000);
    } else if y > 10000 {
      DaysBeforeYearMonotone(10000, y);
    }
  }

  /** Comparing the stored texts is comparing the instants cut to whole seconds. */
  lemma FormatTimeOrder(a: Instant, b: Instant)
    requires FourDigitYear(a) && FourDigitYear(b)
    ensures LexLess(FormatTime(a), FormatTime(b)) <==> Seconds(a) < Seconds(b)
    ensures FormatTime(a) == FormatTime(b) <==> Seconds(a) == Seconds(b)
  {
    FormatSecondsOrder(Seconds(a), Seconds(b));
  }

  lemma FormatSecondsOrder(a: nat, b: nat)
    requires a < YEAR_10000 && b < YEAR_10000
    ensures LexLess(FormatSeconds(a), FormatSeconds(b)) <==> a < b
    ensures FormatSeconds(a) == FormatSeconds(b) <==> a == b
  {
    CivilRoundTrip(a);
    CivilRoundTrip(b);
    YearBound(a);
    YearBound(b);
    CivilOrder(a, b);
    CivilOrder(b, a);
    CivilTextOrder(CivilOf(a), CivilOf(b));
    CivilTextOrder(CivilOf(b), CivilOf(a));
    LexTrichotomy(FormatSeconds(a), FormatSeconds(b));
  }

  /** All seconds below n are ordered by their texts. */
  ghost predicate OrderHoldsBelow(n: nat) {
    forall a: nat, b: nat :: a < b < n ==> LexLess(FormatSeconds(a), FormatSeconds(b))
  }

  /** The text order is right up to the end of year 9999 and no further. */
  lemma OrderHoldsExactlyBelowYear10000(n: nat)
    ensures OrderHoldsBelow(n) <==> n <= YEAR_10000
  {
    if n <= YEAR_10000 {
      forall a: nat, b: nat | a < b < n
        ensures LexLess(FormatSeconds(a), FormatSeconds(b))
      {
        FormatSecondsOrder(a, b);
      }
    } else {
      FirstTextOfYear10000ComesTooEarly();
      assert YEAR_10000 - 1 < YEAR_10000 < n;
    }
  }

  lemma YearIsUnique(y: nat, seconds: nat)
    requires DaysBeforeYear(y) <= seconds / SECONDS_PER_DAY < DaysBeforeYear(y) + DaysInYear(y)
    ensures CivilOf(seconds).year == y
  {
    var r := YearFrom(0, seconds / SECONDS_PER_DAY);
    if r < y {
      DaysBeforeYearMonotone(r, y);
    } else if y < r {
      DaysBeforeYearMonotone(y, r);
    }
  }

  lemma YearsAroundTheBound()
    ensures CivilOf(YEAR_10000 - 1).year == 9999 && CivilOf(YEAR_10000).year == 10000
  {
    assert (YEAR_10000 - 1) / SECONDS_PER_DAY == 3_652_424 && YEAR_10000 / SECONDS_PER_DAY == 3_652_425;
    assert DaysBeforeYear(9999) == 3_652_060 && DaysBeforeYear(10000) == 3_652_425;
    YearIsUnique(9999, YEAR_10000 - 1);
    YearIsUnique(10000, YEAR_10000);
  }

  lemma YearTextsAroundTheBound()
    ensures Pad4(9999)[0] == '9' && FormatUint(10000)[0] == '1' && FormatUint(10000) != ""
  {
    assert Pow10(1) == 10 && Pow10(2) == 100 && Pow10(3) == 1000 && Pow10(4) == 10000;
    assert Pad(9, 1)[0] == '9' && Pad(99, 2)[0] == '9' && Pad(999, 3)[0] == '9';
    assert FormatUint(1) == ['1'] && FormatUint(10)[0] == '1' && FormatUint(100)[0] == '1';
    assert FormatUint(1000)[0] == '1';
  }

  lemma FirstTextOfYear10000ComesTooEarly()
    ensures !LexLess(FormatSeconds(YEAR_10000 - 1), FormatSeconds(YEAR_10000))
  {
    CivilRoundTrip(YEAR_10000 - 1);
    CivilRoundTrip(YEAR_10000);
    YearsAroundTheBound();
    YearTextsAroundTheBound();
    FirstCharacters(CivilOf(YEAR_10000 - 1), CivilOf(YEAR_10000));
  }

  lemma FirstCharacters(a: Civil, b: Civil)
    requires ValidCivil(a) && ValidCivil(b) && YearText(a.year) != "" && YearText(b.year) != ""
    requires YearText(a.year)[0] > YearText(b.year)[0]
    ensures !LexLess(CivilText(a), CivilText(b))
  {
    var x, y := CivilText(a), CivilText(b);
    assert x[0] == YearText(a.year)[0] && y[0] == YearText(b.year)[0];
  }

  // ----- reading the text back

  function TakeNumber(s: string, w: nat): Option<(nat, string)> {
    if |s| < w then None
    else match ParseDigits(s[..w])
      case None => None
      case Some(n) => Some((n, s[w..]))
  }

  function TakeMark(s: string, c: char): Option<string> {
    if s != "" && s[0] == c then Some(s[1..]) else None
  }

  function TakeMarkedNumber(s: string, c: char, w: nat): Option<(nat, string)> {
    match TakeMark(s, c)
    case None => None
    case Some(rest) => TakeNumber(rest, w)
  }

  function ParseCivil(s: string): Option<Civil> {
    match TakeNumber(s, 4) { case None => None case Some((year, s1)) =>
    match TakeMarkedNumber(s1, '-', 2) { case None => None case Some((month, s2)) =>
    match TakeMarkedNumber(s2, '-', 2) { case None => None case Some((day, s3)) =>
    match TakeMarkedNumber(s3, 'T', 2) { case None => None case Some((hour, s4)) =>
    match TakeMarkedNumber(s4, ':', 2) { case None => None case Some((minute, s5)) =>
    match TakeMarkedNumber(s5, ':', 2) { case None => None case Some((second, s6)) =>
      if s6 == "Z" then Some(Civil(year, month, day, hour, minute, second)) else None
    } } } } } }
  }

  /** time.Parse(time.RFC3339, s) on UTC texts; out-of-range fields are errors. */
  function ParseTime(s: string): Option<nat> {
    match ParseCivil(s)
    case None => None
    case Some(c) => if ValidCivil(c) then Some(CivilSeconds(c)) else None
  }

  lemma TakeNumberReads(n: nat, w: nat, rest: string)
    requires w > 0 && n < Pow10(w)
    ensures TakeNumber(Pad(n, w) + rest, w) == Some((n, rest))
  {
    PadParses(n, w);
    assert (Pad(n, w) + rest)[..w] == Pad(n, w);
    assert (Pad(n, w) + rest)[w..] == rest;
  }

  lemma TakeMarkedReads(c: char, n: nat, rest: string)
    requires n < 100
    ensures TakeMarkedNumber([c] + (Pad2(n) + rest), c, 2) == Some((n, rest))
  {
    assert Pow10(2) == 100;
    TakeNumberReads(n, 2, rest);
    assert ([c] + (Pad2(n) + rest))[1..] == Pad2(n) + rest;
  }

  lemma ParseCivilReads(c: Civil)
    requires ValidCivil(c) && c.year < 10000
    ensures ParseCivil(CivilText(c)) == Some(c)
  {
    var s6 := "Z";
    var s5 := ":" + (Pad2(c.second) + s6);
    var s4 := ":" + (Pad2(c.minute) + s5);
    var s3 := "T" + (Pad2(c.hour) + s4);
    var s2 := "-" + (Pad2(c.day) + s3);
    var s1 := "-" + (Pad2(c.month) + s2);
    assert CivilText(c) == Pad4(c.year) + s1;
    assert Pow10(4) == 10000;
    TakeNumberReads(c.year, 4, s1);
    TakeMarkedReads('-', c.month, s2);
    TakeMarkedReads('-', c.day, s3);
    TakeMarkedReads('T', c.hour, s4);
    TakeMarkedReads(':', c.minute, s5);
    TakeMarkedReads(':', c.second, s6);
  }

  /** Reading a stored text gives the instant cut to whole seconds. */
  lemma FormatTimeRoundTrip(t: Instant)
    requires FourDigitYear(t)
    ensures ParseTime(FormatTime(t)) == Some(Seconds(t))
  {
    CivilRoundTrip(Seconds(t));
    YearBound(Seconds(t));
    ParseCivilReads(CivilOf(Seconds(t)));
  }

  // ----- the text is the date

  /** The days before a month in closed form: (367m - 362) / 12, less what February lacks of thirty. */
  lemma {:induction false} DaysBeforeMonthIs(y: nat, m: nat)
    requires 1 <= m <= 12
    ensures DaysBeforeMonth(y, m) == (367 * m - 362) / 12
            - (if m <= 2 then 0 else if y % 4 == 0 && (y % 100 != 0 || y % 400 == 0) then 1 else 2)
  {
    if m > 1 {
      DaysBeforeMonthIs(y, m - 1);
    }
  }

  lemma CivilIsUnique(a: Civil, b: Civil)
    requires ValidCivil(a) && ValidCivil(b) && CivilSeconds(a) == CivilSeconds(b)
    ensures a == b
  {
    if CivilLess(a, b) {
      CivilLessIsEarlier(a, b);
    } else if CivilLess(b, a) {
      CivilLessIsEarlier(b, a);
    }
  }

  const DIGITS := "0123456789"

  lemma OneDigit(d: nat)
    requires d < 10
    ensures Digit(d) == DIGITS[d]
  {
  }

  lemma TwoDigits(n: nat)
    requires n < 100
    ensures Pad2(n) == [DIGITS[n / 10], DIGITS[n % 10]]
  {
    assert Pow10(1) == 10;
    OneDigit(n / 10);
    OneDigit(n % 10);
    assert Pad(n / 10, 0 + 1) == Pad(n / 10 / 10, 0) + [Digit(n / 10)];
  }

  lemma LastTwoDigits(n: nat)
    requires n < 10000
    ensures Pad4(n) == Pad2(n / 100) + [Digit(n / 10 % 10), Digit(n % 10)]
  {
    assert Pow10(2) == 100 && Pow10(3) == 1000 && Pow10(4) == 10000;
    assert n / 10 / 10 == n / 100;
    assert Pad(n / 10, 3) == Pad(n / 100, 2) + [Digit(n / 10 % 10)];
  }

  lemma FourDigits(n: nat)
    requires n < 10000
    ensures Pad4(n) == [DIGITS[n / 1000], DIGITS[n / 100 % 10], DIGITS[n / 10 % 10], DIGITS[n % 10]]
  {
    LastTwoDigits(n);
    TwoDigits(n / 100);
    OneDigit(n / 10 % 10);
    OneDigit(n % 10);
    assert n / 100 / 10 == n / 1000;
  }

  /**
   The stored text of every instant of years 0 to 9999 is its date and time of day in the
   proleptic Gregorian calendar, digit by digit: days are counted in closed form, 365 a year,
   one for each leap year and (367m - 362) / 12 for the months, corrected for February.
   */
  lemma TextIsTheDate(t: Instant, y: nat, m: nat, d: nat, h: nat, min: nat, sec: nat)
    requires y < 10000 && 1 <= m <= 12 && h < 24 && min < 60 && sec < 60
    requires 1 <= d <= [31, if y % 4 == 0 && (y % 100 != 0 || y % 400 == 0) then 29 else 28, 31, 30, 31, 30, 31, 31, 30, 31, 30, 31][m - 1]
    requires t / 1_000_000_000 ==
      (365 * y + (y + 3) / 4 - (y + 99) / 100 + (y + 399) / 400 + (367 * m - 362) / 12
       - (if m <= 2 then 0 else if y % 4 == 0 && (y % 100 != 0 || y % 400 == 0) then 1 else 2) + d - 1) * 86_400
      + h * 3600 + min * 60 + sec
    ensures FormatTime(t) ==
      ["0123456789"[y / 1000], "0123456789"[y / 100 % 10], "0123456789"[y / 10 % 10], "0123456789"[y % 10], '-',
       "0123456789"[m / 10], "0123456789"[m % 10], '-', "0123456789"[d / 10], "0123456789"[d % 10], 'T',
       "0123456789"[h / 10], "0123456789"[h % 10], ':', "0123456789"[min / 10], "0123456789"[min % 10], ':',
       "0123456789"[sec / 10], "0123456789"[sec % 10], 'Z']
  {
    var c := Civil(y, m, d, h, min, sec);
    MonthLength(y, m);
    DateIsCivil(Seconds(t), c);
    DateDigits(c);
  }

  lemma MonthLength(y: nat, m: nat)
    requires 1 <= m <= 12
    ensures DaysInMonth(y, m) ==
      [31, if y % 4 == 0 && (y % 100 != 0 || y % 400 == 0) then 29 else 28, 31, 30, 31, 30, 31, 31, 30, 31, 30, 31][m - 1]
  {
  }

  lemma DateIsCivil(seconds: nat, c: Civil)
    requires ValidCivil(c)
    requires seconds ==
      (365 * c.year + (c.year + 3) / 4 - (c.year + 99) / 100 + (c.year + 399) / 400 + (367 * c.month - 362) / 12
       - (if c.month <= 2 then 0 else if c.year % 4 == 0 && (c.year % 100 != 0 || c.year % 400 == 0) then 1 else 2)
       + c.day - 1) * 86_400 + c.hour * 3600 + c.minute * 60 + c.second
    ensures CivilOf(seconds) == c
  {
    DaysBeforeMonthIs(c.year, c.month);
    assert CivilSeconds(c) == seconds;
    CivilRoundTrip(seconds);
    CivilIsUnique(c, CivilOf(seconds));
  }

  lemma ClockDigits(c: Civil)
    requires ValidCivil(c)
    ensures ClockText(c) ==
      ['T', DIGITS[c.hour / 10], DIGITS[c.hour % 10], ':', DIGITS[c.minute / 10], DIGITS[c.minute % 10], ':',
       DIGITS[c.second / 10], DIGITS[c.second % 10], 'Z']
  {
    TwoDigits(c.hour);
    TwoDigits(c.minute);
    TwoDigits(c.second);
  }

  lemma CivilDigits(c: Civil)
    requires ValidCivil(c) && c.year < 10000
    ensures CivilText(c) ==
      [DIGITS[c.year / 1000], DIGITS[c.year / 100 % 10], DIGITS[c.year / 10 % 10], DIGITS[c.year % 10], '-',
       DIGITS[c.month / 10], DIGITS[c.month % 10], '-', DIGITS[c.day / 10], DIGITS[c.day % 10]] + ClockText(c)
  {
    FourDigits(c.year);
    TwoDigits(c.month);
    TwoDigits(c.day);
  }

  lemma DateDigits(c: Civil)
    requires ValidCivil(c) && c.year < 10000
    ensures CivilText(c) ==
      [DIGITS[c.year / 1000], DIGITS[c.year / 100 % 10], DIGITS[c.year / 10 % 10], DIGITS[c.year % 10], '-',
       DIGITS[c.month / 10], DIGITS[c.month % 10], '-', DIGITS[c.day / 10], DIGITS[c.day % 10], 'T',
       DIGITS[c.hour / 10], DIGITS[c.hour % 10], ':', DIGITS[c.minute / 10], DIGITS[c.minute % 10], ':',
       DIGITS[c.second / 10], DIGITS[c.second % 10], 'Z']
  {
    CivilDigits(c);
    ClockDigits(c);
  }

  lemma DecemberDigits(y: nat, m: nat, d: nat)
    requires y == 2024 && m == 12 && d == 1
    ensures ["0123456789"[y / 1000], "0123456789"[y / 100 % 10], "0123456789"[y / 10 % 10], "0123456789"[y % 10]] == "2024"
    ensures ["0123456789"[m / 10], "0123456789"[m % 10]] == "12"
    ensures ["0123456789"[d / 10], "0123456789"[d % 10]] == "01"
  {
  }

  /** The first second of a December. */
  lemma DecemberText(t: Instant)
    requires t / 1_000_000_000 == 63_900_230_400
    ensures FormatTime(t)[..10] == "2024-12-01"
  {
    var y: nat, m: nat, d: nat :| y == 2024 && m == 12 && d == 1;
    DecemberDigits(y, m, d);
    TextIsTheDate(t, y, m, d, 0, 0, 0);
  }

  lemma WholeSeconds(n: nat)
    ensures Seconds(n * NANOS_PER_SECOND) == n
  {
  }

  /** Text that was formatted, parsed and formatted again is the same text. */
  lemma StoredTextSurvives(t: Instant)
    requires FourDigitYear(t)
    ensures ParseTime(FormatTime(t)).Some?
    ensures FormatTime(ParseTime(FormatTime(t)).value * NANOS_PER_SECOND) == FormatTime(t)
  {
    FormatTimeRoundTrip(t);
    WholeSeconds(Seconds(t));
  }
}
