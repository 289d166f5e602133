/** UTC calendar fields of a Unix timestamp, as `datetime.fromtimestamp(t,
    tz=timezone.utc)` computes them, written out with integer day and second
    arithmetic on the proleptic Gregorian calendar. Days are numbered from
    0001-01-01 (day 0); the ordinal is split into 400-, 100-, 4- and 1-year
    cycles. */
module UtcTime {

  /** The five fields `extract_time_data` returns: seconds are dropped. */
  datatype Minute = Minute(year: int, month: int, day: int, hour: int, minute: int)

  datatype Date = Date(year: int, month: int, day: int)

  const SecondsPerDay := 86400
  const MinutesPerDay := 1440

  /** Day number of 1970-01-01, the Unix epoch. */
  const EpochDay := 719162

  /** Earliest and latest timestamps whose UTC year lies in 1..9999. */
  const MinTimestamp := -62135596800
  const MaxTimestamp := 253402300799

  predicate IsLeap(y: int) {
    y % 4 == 0 && (y % 100 != 0 || y % 400 == 0)
  }

  function DaysInYear(y: int): int {
    if IsLeap(y) then 366 else 365
  }

  function DaysInMonth(y: int, m: int): int
    requires 1 <= m <= 12
  {
    if m == 2 then (if IsLeap(y) then 29 else 28)
    else [31, 28, 31, 30, 31, 30, 31, 31, 30, 31, 30, 31][m - 1]
  }

  /** Days of year `y` before the first of month `m`; month 13 gives the year's length. */
  function DaysBeforeMonth(y: int, m: int): int
    requires 1 <= m <= 13
  {
    [0, 31, 59, 90, 120, 151, 181, 212, 243, 273, 304, 334, 365][m - 1]
      + (if m > 2 && IsLeap(y) then 1 else 0)
  }

  /** Days from 0001-01-01 to the first of January of year `y`. */
  function DaysBeforeYear(y: int): int {
    var p := y - 1;
    365 * p + p / 4 - p / 100 + p / 400
  }

  predicate ValidDate(d: Date) {
    1 <= d.month <= 12 && 1 <= d.day <= DaysInMonth(d.year, d.month)
  }

  /** The day number of a date: the reference definition the conversion inverts. */
  function DayNumber(d: Date): int
    requires 1 <= d.month <= 12
  {
    DaysBeforeYear(d.year) + DaysBeforeMonth(d.year, d.month) + d.day - 1
  }

  lemma DaysBeforeNextMonth(y: int, m: int)
    requires 1 <= m <= 12
    ensures DaysBeforeMonth(y, m + 1) == DaysBeforeMonth(y, m) + DaysInMonth(y, m)
  {
  }

  /** Month and day of the day `rest` days after the first of month `m` of year `y`. */
  function MonthAndDay(y: int, m: int, rest: int): (r: (int, int))
    requires 1 <= m <= 12 && 0 <= rest
    requires DaysBeforeMonth(y, m) + rest < DaysInYear(y)
    ensures m <= r.0 <= 12 && ValidDate(Date(y, r.0, r.1))
    ensures DaysBeforeMonth(y, r.0) + r.1 - 1 == DaysBeforeMonth(y, m) + rest
    decreases 12 - m
  {
    DaysBeforeNextMonth(y, m);
    if rest < DaysInMonth(y, m) then (m, rest + 1)
    else MonthAndDay(y, m + 1, rest - DaysInMonth(y, m))
  }

  /** The days before a year made of `a` 400-year, `b` 100-year, `c` 4-year
      and `e` single-year cycles after year 1. */
  lemma DaysBeforeYearCycles(a: int, b: int, c: int, e: int)
    requires 0 <= b <= 3 && 0 <= c <= 24 && 0 <= e <= 3
    ensures DaysBeforeYear(400 * a + 100 * b + 4 * c + e + 1) == 146097 * a + 36524 * b + 1461 * c + 365 * e
  {
    var p := 400 * a + 100 * b + 4 * c + e;
    assert p == 4 * (100 * a + 25 * b + c) + e;
    assert p / 4 == 100 * a + 25 * b + c;
    assert p == 100 * (4 * a + b) + (4 * c + e);
    assert p / 100 == 4 * a + b;
    assert p == 400 * a + (100 * b + 4 * c + e);
    assert p / 400 == a;
  }

  /** The calendar date of day number `n`. */
  function CivilFromDays(n: int): (r: Date)
    ensures ValidDate(r)
    ensures DayNumber(r) == n
  {
    var n400, r400 := n / 146097, n % 146097;
    var n100, r100 := r400 / 36524, r400 % 36524;
    var n4, r4 := r100 / 1461, r100 % 1461;
    var n1, doy := r4 / 365, r4 % 365;
    CycleSplit(n);
    CivilFromCycles(n400, n100, n4, n1, doy)
  }

  /** The facts about the cycle split of `n` that the conversion relies on. */
  lemma CycleSplit(n: int)
    ensures var n400, r400 := n / 146097, n % 146097;
            var n100, r100 := r400 / 36524, r400 % 36524;
            var n4, r4 := r100 / 1461, r100 % 1461;
            var n1, doy := r4 / 365, r4 % 365;
            CycleShape(n400, n100, n4, n1, doy)
            && n == 146097 * n400 + 36524 * n100 + 1461 * n4 + 365 * n1 + doy
  {
  }

  predicate CycleShape(n400: int, n100: int, n4: int, n1: int, doy: int) {
    && 0 <= n100 <= 4 && 0 <= n4 <= 24 && 0 <= n1 <= 4 && 0 <= doy < 365
    && (n100 == 4 ==> n4 == 0 && n1 == 0 && doy == 0)
    && (n1 == 4 ==> n4 <= 23 && doy == 0)
  }

  /** The date `doy` days into the year after `n400`, `n100`, `n4` and `n1`
      completed 400-, 100-, 4- and 1-year cycles; a fourth 100-year or 1-year
      cycle stands for the leap day that closes the enclosing cycle. */
  function CivilFromCycles(n400: int, n100: int, n4: int, n1: int, doy: int): (r: Date)
    requires CycleShape(n400, n100, n4, n1, doy)
    ensures ValidDate(r)
    ensures DayNumber(r) == 146097 * n400 + 36524 * n100 + 1461 * n4 + 365 * n1 + doy
  {
    var year := 400 * n400 + 100 * n100 + 4 * n4 + n1 + 1;
    if n100 == 4 then
      LastDayOf400Years(n400);
      Date(year - 1, 12, 31)
    else if n1 == 4 then
      LastDayOf4Years(n400, n100, n4);
      Date(year - 1, 12, 31)
    else
      DaysBeforeYearCycles(n400, n100, n4, n1);
      var (m, d) := MonthAndDay(year, 1, doy);
      Date(year, m, d)
  }

  lemma LastDayOf400Years(a: int)
    ensures ValidDate(Date(400 * a + 400, 12, 31))
    ensures DayNumber(Date(400 * a + 400, 12, 31)) == 146097 * a + 146096
  {
    var y := 400 * a + 400;
    DaysBeforeYearCycles(a, 3, 24, 3);
    Remainder4(y, 100 * a + 100, 0);
    Remainder400(y, a + 1);
    assert IsLeap(y);
  }

  lemma LastDayOf4Years(a: int, b: int, c: int)
    requires 0 <= b <= 3 && 0 <= c <= 23
    ensures ValidDate(Date(400 * a + 100 * b + 4 * c + 4, 12, 31))
    ensures DayNumber(Date(400 * a + 100 * b + 4 * c + 4, 12, 31)) == 146097 * a + 36524 * b + 1461 * c + 1460
  {
    var y := 400 * a + 100 * b + 4 * c + 4;
    DaysBeforeYearCycles(a, b, c, 3);
    Remainder4(y, 100 * a + 25 * b + c + 1, 0);
    Remainder100(y, 4 * a + b, 4 * c + 4);
    assert IsLeap(y);
  }

  /** Euclidean division is unique: `y == 4 * q + r` with `0 <= r < 4` fixes `y % 4`;
      likewise for 100 and 400. */
  lemma Remainder4(y: int, q: int, r: int)
    requires y == 4 * q + r && 0 <= r < 4
    ensures y % 4 == r
  {
  }

  lemma Remainder100(y: int, q: int, r: int)
    requires y == 100 * q + r && 0 <= r < 100
    ensures y % 100 == r
  {
  }

  lemma Remainder400(y: int, q: int)
    requires y == 400 * q
    ensures y % 400 == 0
  {
  }

  /** `datetime.fromtimestamp(t, tz=timezone.utc)` cut down to the minute:
      the whole minutes since the epoch, split into days, hours and minutes. */
  function ToUtc(t: int): (r: Minute)
    ensures ValidDate(Date(r.year, r.month, r.day))
    ensures 0 <= r.hour < 24 && 0 <= r.minute < 60
  {
    FromMinutes(t / 60)
  }

  /** The minute that starts `minutes` whole minutes after the epoch. */
  function FromMinutes(minutes: int): (r: Minute)
    ensures ValidDate(Date(r.year, r.month, r.day))
    ensures 0 <= r.hour < 24 && 0 <= r.minute < 60
  {
    var date := CivilFromDays(minutes / MinutesPerDay + EpochDay);
    var rest := minutes % MinutesPerDay;
    Minute(date.year, date.month, date.day, rest / 60, rest % 60)
  }

  /** The Unix timestamp of the start of a minute. */
  function EpochSeconds(m: Minute): int
    requires 1 <= m.month <= 12
  {
    (DayNumber(Date(m.year, m.month, m.day)) - EpochDay) * SecondsPerDay + m.hour * 3600 + m.minute * 60
  }

  /** `fromtimestamp` succeeds. The model states it as a range of timestamps;
      ValidTimestampRange proves that this is exactly "the UTC year lies in 1..9999". */
  predicate ValidTimestamp(t: int) {
    MinTimestamp <= t <= MaxTimestamp
  }

  /** The conversion keeps everything but the seconds: converting back gives
      the timestamp rounded down to its minute. */
  lemma ToUtcRoundTrip(t: int)
    ensures EpochSeconds(ToUtc(t)) == t - t % 60
  {
    var minutes := t / 60;
    var q, rest := minutes / MinutesPerDay, minutes % MinutesPerDay;
    assert minutes == 1440 * q + 60 * (rest / 60) + rest % 60;
    assert t - t % 60 == 60 * minutes;
  }

  /** Timestamps in the same minute give the same five fields. */
  lemma ToUtcSameMinute(t1: int, t2: int)
    requires t1 / 60 == t2 / 60
    ensures ToUtc(t1) == ToUtc(t2)
  {
    var m := t1 / 60;
    assert ToUtc(t1) == FromMinutes(m) == ToUtc(t2);
  }

  /** Both ends of the valid range fall on minute boundaries, so a whole
      minute is valid or invalid together. */
  lemma ValidTimestampSameMinute(t1: int, t2: int)
    requires t1 / 60 == t2 / 60
    ensures ValidTimestamp(t1) <==> ValidTimestamp(t2)
  {
    var q := t1 / 60;
    assert 60 * q <= t1 < 60 * q + 60 && 60 * q <= t2 < 60 * q + 60;
    assert MinTimestamp == 60 * -1035593280 && MaxTimestamp == 60 * 4223371679 + 59;
  }

  /** Counting whole days from whole minutes gives the days of the timestamp. */
  lemma DaysByMinute(t: int)
    ensures t / SecondsPerDay == t / 60 / MinutesPerDay
  {
    var q := t / 60;
    assert t == 86400 * (q / 1440) + (60 * (q % 1440) + t % 60);
    Euclid86400(t, q / 1440, 60 * (q % 1440) + t % 60);
  }

  /** Euclidean division is unique: `x == 86400 * q + r` with `0 <= r < 86400`
      fixes `x / 86400`. */
  lemma Euclid86400(x: int, q: int, r: int)
    requires x == 86400 * q + r && 0 <= r < 86400
    ensures x / 86400 == q
  {
  }

  lemma DaysBeforeYearStep(y: int)
    ensures DaysBeforeYear(y + 1) == DaysBeforeYear(y) + DaysInYear(y)
  {
    DivStep4(y);
    DivStep100(y);
    DivStep400(y);
  }

  /** Going from `y - 1` to `y` adds one to `y / 4` exactly when 4 divides `y`;
      likewise for 100 and 400. */
  lemma DivStep4(y: int)
    ensures y / 4 - (y - 1) / 4 == if y % 4 == 0 then 1 else 0
  {
    var q, r := y / 4, y % 4;
    assert y - 1 == 4 * (if r == 0 then q - 1 else q) + (if r == 0 then 3 else r - 1);
  }

  lemma DivStep100(y: int)
    ensures y / 100 - (y - 1) / 100 == if y % 100 == 0 then 1 else 0
  {
    var q, r := y / 100, y % 100;
    assert y - 1 == 100 * (if r == 0 then q - 1 else q) + (if r == 0 then 99 else r - 1);
  }

  lemma DivStep400(y: int)
    ensures y / 400 - (y - 1) / 400 == if y % 400 == 0 then 1 else 0
  {
    var q, r := y / 400, y % 400;
    assert y - 1 == 400 * (if r == 0 then q - 1 else q) + (if r == 0 then 399 else r - 1);
  }

  lemma {:induction false} DaysBeforeYearMonotone(a: int, b: int)
    requires a <= b
    ensures DaysBeforeYear(a) <= DaysBeforeYear(b)
    decreases b - a
  {
    if a < b {
      DaysBeforeYearStep(b - 1);
      DaysBeforeYearMonotone(a, b - 1);
    }
  }

  /** A valid date's day number lies within its year. */
  lemma DayNumberWithinYear(d: Date)
    requires ValidDate(d)
    ensures DaysBeforeYear(d.year) <= DayNumber(d) < DaysBeforeYear(d.year + 1)
  {
    DaysBeforeNextMonth(d.year, d.month);
    DaysBeforeYearStep(d.year);
    assert DaysBeforeMonth(d.year, d.month + 1) <= DaysBeforeMonth(d.year, 13);
  }

  /** The timestamps from 0001-01-01T00:00:00 to 9999-12-31T23:59:59 UTC are
      exactly those whose UTC year lies in 1..9999. */
  lemma ValidTimestampRange(t: int)
    ensures ValidTimestamp(t) <==> 1 <= ToUtc(t).year <= 9999
  {
    var n := t / 60 / MinutesPerDay + EpochDay;
    DaysByMinute(t);
    TimestampDays(t);
    YearRange(n);
    assert ToUtc(t).year == CivilFromDays(n).year;
  }

  /** The valid range is whole days: from day 0 to the day before day 3652059. */
  lemma TimestampDays(t: int)
    ensures ValidTimestamp(t) <==> 0 <= t / SecondsPerDay + EpochDay < 3652059
  {
    assert MinTimestamp == -719162 * 86400 && MaxTimestamp == 2932897 * 86400 - 1;
  }

  /** Days 0 to 3652058 are exactly the days of years 1 to 9999. */
  lemma YearRange(n: int)
    ensures 0 <= n < 3652059 <==> 1 <= CivilFromDays(n).year <= 9999
  {
    var d := CivilFromDays(n);
    DayNumberWithinYear(d);
    assert DaysBeforeYear(1) == 0;
    assert DaysBeforeYear(10000) == 3652059;
    if d.year >= 1 {
      DaysBeforeYearMonotone(1, d.year);
    } else {
      DaysBeforeYearMonotone(d.year + 1, 1);
    }
    if d.year <= 9999 {
      DaysBeforeYearMonotone(d.year + 1, 10000);
    } else {
      DaysBeforeYearMonotone(10000, d.year);
    }
  }

  /** The timestamp of the London observation is 2023-11-14 22:13 UTC. */
  lemma ToUtcExample()
    ensures ToUtc(1700000000) == Minute(2023, 11, 14, 22, 13)
  {
    assert 1700000000 / 60 == 28333333;
    assert 28333333 / MinutesPerDay + EpochDay == 738837;
    assert 28333333 % MinutesPerDay == 1333;
    ExampleDate();
    assert FromMinutes(28333333) == Minute(2023, 11, 14, 22, 13);
  }

  lemma ExampleDate()
    ensures CivilFromDays(738837) == Date(2023, 11, 14)
  {
    assert 738837 == 146097 * 5 + 8352;
    assert 738837 / 146097 == 5 && 738837 % 146097 == 8352;
    assert 8352 / 36524 == 0 && 8352 % 36524 == 8352;
    assert 8352 == 1461 * 5 + 1047;
    assert 8352 / 1461 == 5 && 8352 % 1461 == 1047;
    assert 1047 == 365 * 2 + 317;
    assert 1047 / 365 == 2 && 1047 % 365 == 317;
    ExampleMonthAndDay();
  }

  /** Walking through the months of 2023 from day 317 of the year. */
  lemma ExampleMonthAndDay()
    ensures MonthAndDay(2023, 1, 317) == (11, 14)
  {
    assert !IsLeap(2023);
    assert MonthAndDay(2023, 11, 13) == (11, 14);
    assert MonthAndDay(2023, 10, 44) == MonthAndDay(2023, 11, 13);
    assert MonthAndDay(2023, 9, 74) == MonthAndDay(2023, 10, 44);
    assert MonthAndDay(2023, 8, 105) == MonthAndDay(2023, 9, 74);
    assert MonthAndDay(2023, 7, 136) == MonthAndDay(2023, 8, 105);
    assert MonthAndDay(2023, 6, 166) == MonthAndDay(2023, 7, 136);
    assert MonthAndDay(2023, 5, 197) == MonthAndDay(2023, 6, 166);
    assert MonthAndDay(2023, 4, 227) == MonthAndDay(2023, 5, 197);
    assert MonthAndDay(2023, 3, 258) == MonthAndDay(2023, 4, 227);
    assert MonthAndDay(2023, 2, 286) == MonthAndDay(2023, 3, 258);
    assert MonthAndDay(2023, 1, 317) == MonthAndDay(2023, 2, 286);
  }
}
