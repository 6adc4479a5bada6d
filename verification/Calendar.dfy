/**
 * Proleptic Gregorian UTC conversion: `gmtime_r` and `timegm` of the Windows
 * compatibility header, with C's truncating division written out, judged against a
 * calendar that only counts days year by year and month by month.
 */
module Calendar {
  import opened Common

  const INT_MIN := -0x8000_0000
  const INT_MAX := 0x7fff_ffff
  const INT64_MIN := -0x8000_0000_0000_0000
  const INT64_MAX := 0x7fff_ffff_ffff_ffff

  /** C's `/` and `%` for a positive divisor: the quotient is truncated toward zero. */
  function Quot(a: int, b: int): int
    requires b > 0
  {
    if a >= 0 then a / b else -(-a / b)
  }

  function Rem(a: int, b: int): int
    requires b > 0
  {
    a - b * Quot(a, b)
  }

  /** `struct tm`: `year` counts from 1900 and `mon` from 0. */
  datatype Tm = Tm(year: int, mon: int, mday: int, hour: int, min: int, sec: int, wday: int, yday: int)

  // ---------------------------------------------------------------------------
  // The two conversions
  // ---------------------------------------------------------------------------

  const DAYS_BEFORE_MONTH: seq<int> := [0, 31, 59, 90, 120, 151, 181, 212, 243, 273, 304, 334]

  /** Year of era, counted from March, for a day of era in 0..146096. */
  function YearOfEra(doe: int): int {
    Quot(doe - Quot(doe, 1460) + Quot(doe, 36524) - Quot(doe, 146096), 365)
  }

  datatype Date = Date(year: int, month: int, day: int)

  /** The civil date of a day counted from 1970-01-01, as `gmtime_r` derives it. */
  function CivilDate(days: int): Date {
    var (era, doe) := EraSplit(days + 719468);
    DateInEra(era, doe)
  }

  /** The 400-year era of a day counted from 0000-03-01, and the day within that era. */
  function EraSplit(z: int): (r: (int, int))
    ensures 0 <= r.1 <= 146096 && r.0 * 146097 + r.1 == z
  {
    EraIsFloor(z);
    EraRemainder(z);
    var era := Quot(if z >= 0 then z else z - 146096, 146097);
    (era, z - era * 146097)
  }

  function DateInEra(era: int, doe: int): Date {
    var yoe := YearOfEra(doe);
    EraDate(era, yoe, doe - (365 * yoe + Quot(yoe, 4) - Quot(yoe, 100)))
  }

  /** Month and day from the day of a March-based year, and the civil year they fall in. */
  function EraDate(era: int, yoe: int, doy: int): Date {
    var mp := Quot(5 * doy + 2, 153);
    var day := doy - Quot(153 * mp + 2, 5) + 1;
    var month := if mp < 10 then mp + 3 else mp - 9;
    Date(yoe + era * 400 + (if month <= 2 then 1 else 0), month, day)
  }

  /** `gmtime_r`; `None` is the EOVERFLOW outcome. */
  function GmTime(t: int): Option<Tm> {
    var late := Rem(t, 86400) < 0;
    var days := if late then Quot(t, 86400) - 1 else Quot(t, 86400);
    var seconds := if late then Rem(t, 86400) + 86400 else Rem(t, 86400);
    var date := CivilDate(days);
    if date.year - 1900 > INT_MAX || date.year - 1900 < INT_MIN then None
    else Some(BrokenDown(days, seconds, date))
  }

  /** The fields `gmtime_r` stores for a day, a second of that day and its civil date. */
  function BrokenDown(days: int, seconds: int, date: Date): Tm {
    var year, month := date.year, date.month;
    var leap := Rem(year, 4) == 0 && (Rem(year, 100) != 0 || Rem(year, 400) == 0);
    var weekday := Rem(days + 4, 7);
    Tm(
      year - 1900, month - 1, date.day,
      Quot(seconds, 3600), Quot(Rem(seconds, 3600), 60), Rem(seconds, 60),
      if weekday < 0 then weekday + 7 else weekday,
      (if 1 <= month <= 12 then DAYS_BEFORE_MONTH[month - 1] else 0) + date.day - 1
        + (if leap && month > 2 then 1 else 0))
  }

  /** Days from 1970-01-01 to a civil date, as `timegm` computes them. */
  function CivilDays(year: int, month: int, day: int): int {
    var y := if month <= 2 then year - 1 else year;
    var era := Quot(if y >= 0 then y else y - 399, 400);
    var yoe := y - era * 400;
    var doy := Quot(153 * (if month > 2 then month - 3 else month + 9) + 2, 5) + day - 1;
    var doe := yoe * 365 + Quot(yoe, 4) - Quot(yoe, 100) + doy;
    era * 146097 + doe - 719468
  }

  function TimeGm(v: Tm): int {
    CivilDays(v.year + 1900, v.mon + 1, v.mday) * 86400 + v.hour * 3600 + v.min * 60 + v.sec
  }

  // ---------------------------------------------------------------------------
  // The reference calendar
  // ---------------------------------------------------------------------------

  predicate Leap(y: int) {
    y % 4 == 0 && (y % 100 != 0 || y % 400 == 0)
  }

  function YearLength(y: int): int { if Leap(y) then 366 else 365 }

  function DaysInMonth(y: int, m: int): int {
    if m == 2 then (if Leap(y) then 29 else 28)
    else if m in {4, 6, 9, 11} then 30
    else 31
  }

  /** Days from 1970-01-01 to January 1st of year `y`, one year at a time. */
  function DaysToYear(y: int): int
    decreases if y >= 1970 then y - 1970 else 1970 - y
  {
    if y == 1970 then 0
    else if y > 1970 then DaysToYear(y - 1) + YearLength(y - 1)
    else DaysToYear(y + 1) - YearLength(y)
  }

  /** Days from January 1st to the first day of month `m`, one month at a time. */
  function DaysToMonth(y: int, m: int): int
    requires 1 <= m <= 12
    decreases m
  {
    if m == 1 then 0 else DaysToMonth(y, m - 1) + DaysInMonth(y, m - 1)
  }

  function CountedDays(y: int, m: int, d: int): int
    requires 1 <= m <= 12
  {
    DaysToYear(y) + DaysToMonth(y, m) + d - 1
  }

  predicate ValidDate(y: int, m: int, d: int) {
    1 <= m <= 12 && 1 <= d <= DaysInMonth(y, m)
  }

  /** A normalized date-time whose year fits `tm_year`. */
  predicate ValidCivil(v: Tm) {
    && INT_MIN <= v.year <= INT_MAX
    && ValidDate(v.year + 1900, v.mon + 1, v.mday)
    && 0 <= v.hour < 24 && 0 <= v.min < 60 && 0 <= v.sec < 60
  }

  /** Weekday and day of year agree with the counted calendar; 1970-01-01 was a Thursday. */
  predicate DerivedFieldsCorrect(v: Tm)
    requires ValidCivil(v)
  {
    && v.wday == (4 + CountedDays(v.year + 1900, v.mon + 1, v.mday)) % 7
    && v.yday == DaysToMonth(v.year + 1900, v.mon + 1) + v.mday - 1
  }

  function CountedSeconds(v: Tm): int
    requires ValidCivil(v)
  {
    CountedDays(v.year + 1900, v.mon + 1, v.mday) * 86400 + v.hour * 3600 + v.min * 60 + v.sec
  }

  predicate Earlier(a: Tm, b: Tm) {
    || a.year < b.year
    || (a.year == b.year && (a.mon < b.mon
    || (a.mon == b.mon && (a.mday < b.mday
    || (a.mday == b.mday && (a.hour < b.hour
    || (a.hour == b.hour && (a.min < b.min
    || (a.min == b.min && a.sec < b.sec)))))))))
  }

  // ---------------------------------------------------------------------------
  // Era arithmetic
  // ---------------------------------------------------------------------------

  /** Days from the start of the March-based calendar to March year `y`. */
  function MarchDays(y: int): int {
    365 * y + y / 4 - y / 100 + y / 400
  }

  /** The biased truncating division of both conversions is floor division. */
  lemma EraIsFloor(n: int)
    ensures Quot(if n >= 0 then n else n - 399, 400) == n / 400
    ensures Quot(if n >= 0 then n else n - 146096, 146097) == n / 146097
  {
  }

  lemma MarchDaysByEra(y: int)
    ensures var era := Quot(if y >= 0 then y else y - 399, 400);
            var yoe := y - era * 400;
            0 <= yoe < 400 && era * 146097 + yoe * 365 + Quot(yoe, 4) - Quot(yoe, 100) == MarchDays(y)
  {
    EraIsFloor(y);
    var era := y / 400;
    var yoe := y - era * 400;
    assert y / 4 == era * 100 + yoe / 4;
    assert y / 100 == era * 4 + yoe / 100;
  }

  lemma CivilDaysByMarch(year: int, month: int, day: int)
    requires 1 <= month <= 12
    ensures var y := if month <= 2 then year - 1 else year;
            var mp := if month > 2 then month - 3 else month + 9;
            CivilDays(year, month, day) == MarchDays(y) + (153 * mp + 2) / 5 + day - 1 - 719468
  {
    MarchDaysByEra(if month <= 2 then year - 1 else year);
  }

  lemma MarchYearStep(y: int)
    ensures MarchDays(y + 1) - MarchDays(y) == YearLength(y + 1)
  {
    QuotientSteps(y);
    MultiplesNest(y + 1);
  }

  lemma QuotientSteps(y: int)
    ensures (y + 1) / 4 - y / 4 == if (y + 1) % 4 == 0 then 1 else 0
    ensures (y + 1) / 100 - y / 100 == if (y + 1) % 100 == 0 then 1 else 0
    ensures (y + 1) / 400 - y / 400 == if (y + 1) % 400 == 0 then 1 else 0
  {
  }

  lemma MultiplesNest(y: int)
    ensures y % 400 == 0 ==> y % 100 == 0
    ensures y % 100 == 0 ==> y % 4 == 0
  {
    if y % 400 == 0 {
      Hundreds(4 * (y / 400));
    }
    if y % 100 == 0 {
      Fours(25 * (y / 100));
    }
  }

  lemma Hundreds(k: int)
    ensures 100 * k % 100 == 0
  {
  }

  lemma Fours(k: int)
    ensures 4 * k % 4 == 0
  {
  }

  lemma {:induction false} YearStarts(y: int)
    ensures MarchDays(y - 1) + 306 - 719468 == DaysToYear(y)
    decreases if y >= 1970 then y - 1970 else 1970 - y
  {
    if y > 1970 {
      YearStarts(y - 1);
      MarchYearStep(y - 2);
    } else if y < 1970 {
      YearStarts(y + 1);
      MarchYearStep(y - 1);
    }
  }

  /** The days before a month, written out, and their March-based closed form. */
  lemma MonthStarts(y: int, m: int)
    requires 1 <= m <= 12
    ensures DaysToMonth(y, m) == DAYS_BEFORE_MONTH[m - 1] + (if Leap(y) && m > 2 then 1 else 0)
    ensures m <= 2 ==> (153 * (m + 9) + 2) / 5 == 306 + DAYS_BEFORE_MONTH[m - 1]
    ensures m > 2 ==> (153 * (m - 3) + 2) / 5 == DAYS_BEFORE_MONTH[m - 1] - 59
  {
    if m > 1 {
      MonthStarts(y, m - 1);
    }
  }

  // ---------------------------------------------------------------------------
  // timegm counts days
  // ---------------------------------------------------------------------------

  lemma CivilDaysCount(y: int, m: int, d: int)
    requires 1 <= m <= 12
    ensures CivilDays(y, m, d) == CountedDays(y, m, d)
  {
    CivilDaysByMarch(y, m, d);
    YearStarts(y);
    MonthStarts(y, m);
    MarchYearStep(y - 1);
  }

  /** For every normalized date-time `timegm` equals the naive count of seconds. */
  lemma TimeGmCounts(v: Tm)
    requires ValidCivil(v)
    ensures TimeGm(v) == CountedSeconds(v)
  {
    CivilDaysCount(v.year + 1900, v.mon + 1, v.mday);
  }

  lemma {:induction false} YearsIncrease(a: int, b: int)
    requires a <= b
    ensures DaysToYear(b) >= DaysToYear(a) + 365 * (b - a)
    decreases b - a
  {
    if a < b {
      YearsIncrease(a, b - 1);
      assert DaysToYear(b) == DaysToYear(b - 1) + YearLength(b - 1);
    }
  }

  lemma {:induction false} MonthsIncrease(y: int, a: int, b: int)
    requires 1 <= a < b <= 12
    ensures DaysToMonth(y, b) >= DaysToMonth(y, a) + DaysInMonth(y, a)
    decreases b
  {
    if a < b - 1 {
      MonthsIncrease(y, a, b - 1);
    }
  }

  lemma DayOfYearFits(y: int, m: int, d: int)
    requires ValidDate(y, m, d)
    ensures 0 <= DaysToMonth(y, m) + d - 1 < YearLength(y)
  {
    MonthStarts(y, m);
  }

  lemma DatesIncrease(y: int, m: int, d: int, y': int, m': int, d': int)
    requires ValidDate(y, m, d) && ValidDate(y', m', d')
    requires y < y' || (y == y' && (m < m' || (m == m' && d < d')))
    ensures CountedDays(y, m, d) < CountedDays(y', m', d')
  {
    DayOfYearFits(y, m, d);
    DayOfYearFits(y', m', d');
    if y < y' {
      YearsIncrease(y + 1, y');
      assert DaysToYear(y + 1) == DaysToYear(y) + YearLength(y);
    } else if m < m' {
      MonthsIncrease(y, m, m');
    }
  }

  /** `timegm` is strictly increasing in lexicographic order of the date-time. */
  lemma TimeGmStrictlyIncreasing(a: Tm, b: Tm)
    requires ValidCivil(a) && ValidCivil(b) && Earlier(a, b)
    ensures TimeGm(a) < TimeGm(b)
  {
    TimeGmCounts(a);
    TimeGmCounts(b);
    CountedSecondsIncrease(a, b);
  }

  lemma CountedSecondsIncrease(a: Tm, b: Tm)
    requires ValidCivil(a) && ValidCivil(b) && Earlier(a, b)
    ensures CountedSeconds(a) < CountedSeconds(b)
  {
    if a.year != b.year || a.mon != b.mon || a.mday != b.mday {
      DatesIncrease(a.year + 1900, a.mon + 1, a.mday, b.year + 1900, b.mon + 1, b.mday);
      LaterDayWins(a, b);
    }
  }

  lemma LaterDayWins(a: Tm, b: Tm)
    requires ValidCivil(a) && ValidCivil(b)
    requires CountedDays(a.year + 1900, a.mon + 1, a.mday) < CountedDays(b.year + 1900, b.mon + 1, b.mday)
    ensures CountedSeconds(a) < CountedSeconds(b)
  {
  }

  // ---------------------------------------------------------------------------
  // gmtime_r inverts timegm
  // ---------------------------------------------------------------------------

  /** A day of a March year within the era: the leap day exists only where it should. */
  predicate ValidEraDay(yoe: int, doy: int) {
    && 0 <= yoe < 400
    && 0 <= doy < YearLength(yoe + 1)
  }

  function EraDay(yoe: int, doy: int): int { 365 * yoe + yoe / 4 - yoe / 100 + doy }

  /** The division cascade recovers the March year from the day of era. */
  lemma YearOfEraExact(yoe: int, doy: int)
    requires ValidEraDay(yoe, doy)
    ensures 0 <= EraDay(yoe, doy) <= 146096
    ensures YearOfEra(EraDay(yoe, doy)) == yoe
  {
    var c := yoe / 100;
    var q := yoe % 100 / 4;
    var r := yoe % 4;
    assert yoe == 100 * c + 4 * q + r && 0 <= c < 4 && 0 <= q < 25;
    assert yoe / 4 == 25 * c + q;
    LeapInEra(c, q, r);
    CascadeExact(c, q, r, doy);
    assert EraDay(yoe, doy) == 36524 * c + 1461 * q + 365 * r + doy;
  }

  /** The same in centuries, four-year cycles and years of the cycle. */
  lemma CascadeExact(c: int, q: int, r: int, doy: int)
    requires 0 <= c < 4 && 0 <= q < 25 && 0 <= r < 4 && 0 <= doy <= 365
    requires doy == 365 ==> r == 3 && (q == 24 ==> c == 3)
    ensures var doe := 36524 * c + 1461 * q + 365 * r + doy;
            0 <= doe <= 146096 && YearOfEra(doe) == 100 * c + 4 * q + r
  {
    var doe := 36524 * c + 1461 * q + 365 * r + doy;
    CenturyQuotients(c, q, r, doy);
    var e := if 24 * c + q + 365 * r + doy >= 1460 then 1 else 0;
    assert doe / 1460 == 25 * c + q + e;
    assert doe - doe / 1460 + doe / 36524 - doe / 146096 == 365 * (100 * c + 4 * q + r) + (doy - e);
    assert 0 <= doy - e < 365;
  }

  lemma CenturyQuotients(c: int, q: int, r: int, doy: int)
    requires 0 <= c < 4 && 0 <= q < 25 && 0 <= r < 4 && 0 <= doy <= 365
    requires doy == 365 ==> r == 3 && (q == 24 ==> c == 3)
    ensures var doe := 36524 * c + 1461 * q + 365 * r + doy;
            0 <= doe <= 146096 && doe / 36524 - doe / 146096 == c
  {
  }

  /** Every day of an era belongs to exactly such a year and day. */
  lemma EraDaySplit(doe: int) returns (yoe: int, doy: int)
    requires 0 <= doe <= 146096
    ensures ValidEraDay(yoe, doy) && EraDay(yoe, doy) == doe
  {
    var c := Min(doe / 36524, 3);
    var inCentury := doe - 36524 * c;
    var q := inCentury / 1461;
    var inCycle := inCentury - 1461 * q;
    var r := Min(inCycle / 365, 3);
    yoe := 100 * c + 4 * q + r;
    doy := inCycle - 365 * r;
    assert 0 <= q < 25;
    assert yoe / 4 == 25 * c + q && yoe / 100 == c;
    assert doy <= 365 && (doy == 365 ==> r == 3 && (q == 24 ==> c == 3));
    LeapInEra(c, q, r);
  }

  lemma LeapInEra(c: int, q: int, r: int)
    requires 0 <= c < 4 && 0 <= q < 25 && 0 <= r < 4
    ensures Leap(100 * c + 4 * q + r + 1) <==> r == 3 && (q == 24 ==> c == 3)
  {
    var y := 100 * c + 4 * q + r + 1;
    assert y % 4 == (r + 1) % 4;
    if q == 24 && r == 3 {
      assert y == 100 * (c + 1);
    } else {
      assert y % 100 == 4 * q + r + 1;
    }
  }

  /** Month and day from the day of a March year. */
  lemma MarchMonthSplit(doy: int)
    requires 0 <= doy <= 365
    ensures var mp := (5 * doy + 2) / 153;
            var day := doy - (153 * mp + 2) / 5 + 1;
            && 0 <= mp < 12 && 1 <= day <= 31
            && (mp in {1, 3, 6, 8} ==> day <= 30)
            && (mp == 11 ==> day <= 29) && (mp == 11 && day == 29 <==> doy == 365)
  {
  }

  /** `CivilDate` yields the valid date that lies `days` after 1970-01-01. */
  lemma CivilDateExact(days: int)
    ensures var c := CivilDate(days);
            ValidDate(c.year, c.month, c.day) && CountedDays(c.year, c.month, c.day) == days
  {
    var (era, doe) := EraSplit(days + 719468);
    DateInEraExact(era, doe);
  }

  lemma EraRemainder(z: int)
    ensures 0 <= z - z / 146097 * 146097 <= 146096
  {
  }

  lemma DateInEraExact(era: int, doe: int)
    requires 0 <= doe <= 146096
    ensures var c := DateInEra(era, doe);
            && ValidDate(c.year, c.month, c.day)
            && CountedDays(c.year, c.month, c.day) == era * 146097 + doe - 719468
  {
    var yoe, doy := EraDaySplit(doe);
    YearOfEraExact(yoe, doy);
    EraDateExact(era, yoe, doy);
  }

  lemma EraDateExact(era: int, yoe: int, doy: int)
    requires ValidEraDay(yoe, doy)
    ensures var c := EraDate(era, yoe, doy);
            && ValidDate(c.year, c.month, c.day)
            && CountedDays(c.year, c.month, c.day) == era * 146097 + EraDay(yoe, doy) - 719468
  {
    MarchMonthSplit(doy);
    LeapAcrossEras(era, yoe + 1);
    var c := EraDate(era, yoe, doy);
    CivilDaysByMarch(c.year, c.month, c.day);
    CivilDaysCount(c.year, c.month, c.day);
    MarchDaysOfEra(era, yoe);
  }

  lemma LeapAcrossEras(era: int, y: int)
    ensures Leap(y + era * 400) <==> Leap(y)
  {
    var z := y + era * 400;
    assert z / 4 == y / 4 + 100 * era;
    assert z / 100 == y / 100 + 4 * era;
    assert z / 400 == y / 400 + era;
  }

  lemma MarchDaysOfEra(era: int, yoe: int)
    requires 0 <= yoe < 400
    ensures MarchDays(yoe + era * 400) == era * 146097 + 365 * yoe + yoe / 4 - yoe / 100
  {
    var y := yoe + era * 400;
    assert y / 4 == era * 100 + yoe / 4;
    assert y / 100 == era * 4 + yoe / 100;
    assert y / 400 == era;
  }

  lemma TruncatedSplit(t: int)
    ensures var late := Rem(t, 86400) < 0;
            && (if late then Quot(t, 86400) - 1 else Quot(t, 86400)) == t / 86400
            && (if late then Rem(t, 86400) + 86400 else Rem(t, 86400)) == t % 86400
  {
  }

  lemma WeekdayIsFloor(d: int)
    ensures (if Rem(d, 7) < 0 then Rem(d, 7) + 7 else Rem(d, 7)) == d % 7
  {
  }

  lemma LeapTruncated(y: int)
    ensures (Rem(y, 4) == 0 && (Rem(y, 100) != 0 || Rem(y, 400) == 0)) <==> Leap(y)
  {
    RemZero(y, 4);
    RemZero(y, 100);
    RemZero(y, 400);
  }

  lemma RemZero(y: int, d: int)
    requires d in {4, 100, 400}
    ensures Rem(y, d) == 0 <==> y % d == 0
  {
    if y < 0 {
      NegatedMultiple(y, d);
    }
  }

  lemma NegatedMultiple(y: int, d: int)
    requires d > 0
    ensures y % d == 0 <==> -y % d == 0
  {
    var q, q' := y / d, -y / d;
    assert y == d * q + y % d && -y == d * q' + -y % d;
    assert y % d + -y % d == d * (-q - q');
    if y % d == 0 || -y % d == 0 {
      SmallMultiple(y % d + -y % d, d, -q - q');
    }
  }

  lemma SmallMultiple(n: int, d: int, k: int)
    requires 0 <= n < d && n == d * k
    ensures n == 0
  {
    assert k >= 1 ==> d * k >= d;
    assert k <= -1 ==> d * k <= -d;
  }

  lemma TimeOfDay(s: int)
    requires 0 <= s < 86400
    ensures var h, m, c := Quot(s, 3600), Quot(Rem(s, 3600), 60), Rem(s, 60);
            0 <= h < 24 && 0 <= m < 60 && 0 <= c < 60 && h * 3600 + m * 60 + c == s
  {
  }

  /**
   * Whatever time `gmtime_r` accepts, negative ones included, it yields a valid civil
   * date-time with the right weekday and day of year, and `timegm` returns that time.
   */
  lemma GmTimeThenTimeGm(t: int)
    requires GmTime(t).Some?
    ensures var v := GmTime(t).value;
            ValidCivil(v) && DerivedFieldsCorrect(v) && TimeGm(v) == t
  {
    TruncatedSplit(t);
    CivilDateExact(t / 86400);
    BrokenDownExact(t / 86400, t % 86400, CivilDate(t / 86400));
    TimeGmCounts(GmTime(t).value);
  }

  lemma BrokenDownExact(days: int, seconds: int, c: Date)
    requires ValidDate(c.year, c.month, c.day) && CountedDays(c.year, c.month, c.day) == days
    requires INT_MIN <= c.year - 1900 <= INT_MAX && 0 <= seconds < 86400
    ensures var v := BrokenDown(days, seconds, c);
            ValidCivil(v) && DerivedFieldsCorrect(v) && CountedSeconds(v) == days * 86400 + seconds
  {
    TimeOfDay(seconds);
    WeekdayIsFloor(days + 4);
    LeapTruncated(c.year);
    MonthStarts(c.year, c.month);
  }

  /** `gmtime_r` refuses a time exactly when its civil year does not fit `tm_year`. */
  lemma GmTimeAccepts(t: int, y: int, m: int, d: int)
    requires ValidDate(y, m, d) && CountedDays(y, m, d) == t / 86400
    ensures GmTime(t).Some? <==> INT_MIN <= y - 1900 <= INT_MAX
  {
    TruncatedSplit(t);
    CivilDateExact(t / 86400);
    var c := CivilDate(t / 86400);
    DatesUnique(y, m, d, c.year, c.month, c.day);
  }

  lemma DatesUnique(y: int, m: int, d: int, y': int, m': int, d': int)
    requires ValidDate(y, m, d) && ValidDate(y', m', d')
    requires CountedDays(y, m, d) == CountedDays(y', m', d')
    ensures y == y' && m == m' && d == d'
  {
    if y < y' || (y == y' && (m < m' || (m == m' && d < d'))) {
      DatesIncrease(y, m, d, y', m', d');
    } else if y != y' || m != m' || d != d' {
      DatesIncrease(y', m', d', y, m, d);
    }
  }

  /** Every normalized date-time with correct derived fields is restored by `gmtime_r`. */
  lemma TimeGmThenGmTime(v: Tm)
    requires ValidCivil(v) && DerivedFieldsCorrect(v)
    ensures GmTime(TimeGm(v)) == Some(v)
  {
    TimeGmCounts(v);
    assert TimeGm(v) / 86400 == CountedDays(v.year + 1900, v.mon + 1, v.mday);
    GmTimeAccepts(TimeGm(v), v.year + 1900, v.mon + 1, v.mday);
    GmTimeThenTimeGm(TimeGm(v));
    TimeGmCounts(GmTime(TimeGm(v)).value);
    SameSeconds(v, GmTime(TimeGm(v)).value);
  }

  lemma SameSeconds(v: Tm, w: Tm)
    requires ValidCivil(v) && ValidCivil(w) && CountedSeconds(v) == CountedSeconds(w)
    requires DerivedFieldsCorrect(v) && DerivedFieldsCorrect(w)
    ensures v == w
  {
    SameDay(v, w);
    DatesUnique(v.year + 1900, v.mon + 1, v.mday, w.year + 1900, w.mon + 1, w.mday);
    SameTimeOfDay(v, w);
  }

  lemma SameDay(v: Tm, w: Tm)
    requires ValidCivil(v) && ValidCivil(w) && CountedSeconds(v) == CountedSeconds(w)
    ensures CountedDays(v.year + 1900, v.mon + 1, v.mday) == CountedDays(w.year + 1900, w.mon + 1, w.mday)
    ensures v.hour * 3600 + v.min * 60 + v.sec == w.hour * 3600 + w.min * 60 + w.sec
  {
    if CountedDays(v.year + 1900, v.mon + 1, v.mday) < CountedDays(w.year + 1900, w.mon + 1, w.mday) {
      LaterDayWins(v, w);
    } else if CountedDays(w.year + 1900, w.mon + 1, w.mday) < CountedDays(v.year + 1900, v.mon + 1, v.mday) {
      LaterDayWins(w, v);
    }
  }

  lemma SameTimeOfDay(v: Tm, w: Tm)
    requires ValidCivil(v) && ValidCivil(w)
    requires v.hour * 3600 + v.min * 60 + v.sec == w.hour * 3600 + w.min * 60 + w.sec
    ensures v.hour == w.hour && v.min == w.min && v.sec == w.sec
  {
  }

  // ---------------------------------------------------------------------------
  // Ranges
  // ---------------------------------------------------------------------------

  /** 9999-12-31T23:59:59Z, the last verification time a raw-proof client accepts. */
  const MAX_VERIFICATION_TIME := 253402300799

  const LAST_SECOND_OF_9999 := Tm(9999 - 1900, 11, 31, 23, 59, 59, 5, 364)

  /** No normalized date-time overflows the 64-bit result of `timegm`. */
  lemma TimeGmFits(v: Tm)
    requires ValidCivil(v)
    ensures INT64_MIN <= TimeGm(v) <= INT64_MAX
  {
    CivilDaysByMarch(v.year + 1900, v.mon + 1, v.mday);
  }

  /**
   * A time from a four-digit year stays at or before MAX_VERIFICATION_TIME, which is the
   * last of them, so adding a signed age or subtracting a tolerance stays inside 64 bits.
   */
  lemma FourDigitYears(v: Tm)
    requires ValidCivil(v) && 0 <= v.year + 1900 <= 9999
    ensures TimeGm(LAST_SECOND_OF_9999) == MAX_VERIFICATION_TIME
    ensures TimeGm(v) <= MAX_VERIFICATION_TIME
    ensures TimeGm(v) == MAX_VERIFICATION_TIME <==> v.(wday := 5, yday := 364) == LAST_SECOND_OF_9999
    ensures INT64_MIN <= TimeGm(v) - 60 && TimeGm(v) + 86400 <= INT64_MAX
  {
    assert CivilDays(9999, 12, 31) == 2932896;
    var last := LAST_SECOND_OF_9999;
    assert ValidCivil(last);
    if v.(wday := 5, yday := 364) != last {
      assert Earlier(v, last);
      TimeGmStrictlyIncreasing(v, last);
    }
    CivilDaysByMarch(v.year + 1900, v.mon + 1, v.mday);
  }
}
