/** Civil dates and China Standard Time (UTC+8), as day numbers and epoch seconds. */
module Calendar {

  const DAY := 86400
  const CST := 28800
  const EPOCH_DAY := 719162

  predicate Leap(y: int) { y % 4 == 0 && (y % 100 != 0 || y % 400 == 0) }

  function DaysIn(y: int, m: int): int
    requires 1 <= m <= 12
  {
    if m == 2 then (if Leap(y) then 29 else 28)
    else if m == 4 || m == 6 || m == 9 || m == 11 then 30 else 31
  }

  function DaysBeforeYear(y: int): int {
    365 * (y - 1) + (y - 1) / 4 - (y - 1) / 100 + (y - 1) / 400
  }

  function DaysBeforeMonth(y: int, m: int): int
    requires 1 <= m <= 12
  {
    if m == 1 then 0 else DaysBeforeMonth(y, m - 1) + DaysIn(y, m - 1)
  }

  /** Days from 1970-01-01. A day past the end of its month runs into the next one. */
  function DayNumber(y: int, m: int, d: int): int
    requires 1 <= m <= 12
  {
    DaysBeforeYear(y) + DaysBeforeMonth(y, m) + d - 1 - EPOCH_DAY
  }

  /** Epoch seconds of a minute of a CST day. */
  function MinuteEpoch(day: int, minute: int): int { day * DAY - CST + minute * 60 }

  function CstToEpoch(y: int, m: int, d: int, hour: int, minute: int): int
    requires 1 <= m <= 12
  {
    MinuteEpoch(DayNumber(y, m, d), hour * 60 + minute)
  }

  /** The CST day of an instant, and the minute of that day. */
  function DayOf(epoch: int): int { (epoch + CST) / DAY }

  function MinuteOf(epoch: int): (r: int)
    ensures 0 <= r < 1440
  {
    (epoch + CST) % DAY / 60
  }

  predicate ValidDate(y: int, m: int, d: int) { 1 <= m <= 12 && 1 <= d <= DaysIn(y, m) }

  lemma MinuteEpochParts(day: int, minute: int)
    requires 0 <= minute < 1440
    ensures DayOf(MinuteEpoch(day, minute)) == day && MinuteOf(MinuteEpoch(day, minute)) == minute
  {
  }

  // ---------- order ----------

  lemma NextQuotients(y: int)
    ensures y / 4 == (y - 1) / 4 + if y % 4 == 0 then 1 else 0
    ensures y / 100 == (y - 1) / 100 + if y % 100 == 0 then 1 else 0
    ensures y / 400 == (y - 1) / 400 + if y % 400 == 0 then 1 else 0
  {
  }

  /** Every 400th year is a 100th, and every 100th is a fourth. */
  lemma Cycles(y: int)
    ensures y % 400 == 0 ==> y % 100 == 0
    ensures y % 100 == 0 ==> y % 4 == 0
  {
  }

  lemma YearLength(y: int)
    ensures DaysBeforeYear(y + 1) == DaysBeforeYear(y) + (if Leap(y) then 366 else 365)
  {
    NextQuotients(y);
    Cycles(y);
  }

  lemma {:induction false} YearsGrow(a: int, b: int)
    requires a < b
    ensures DaysBeforeYear(a + 1) <= DaysBeforeYear(b)
    decreases b - a
  {
  }

  lemma MonthTable(y: int, m: int)
    requires 1 <= m <= 12
    ensures var l := if Leap(y) then 1 else 0;
            DaysBeforeMonth(y, m)
              == [0, 31, 59 + l, 90 + l, 120 + l, 151 + l, 181 + l, 212 + l, 243 + l, 273 + l, 304 + l, 334 + l][m - 1]
  {
  }

  /** A valid date stays inside its year. */
  lemma DateInYear(y: int, m: int, d: int)
    requires ValidDate(y, m, d)
    ensures DaysBeforeYear(y) <= DayNumber(y, m, d) + EPOCH_DAY < DaysBeforeYear(y + 1)
  {
    MonthTable(y, m);
    YearLength(y);
  }

  lemma {:induction false} MonthsGrow(y: int, a: int, b: int)
    requires 1 <= a < b <= 12
    ensures DaysBeforeMonth(y, a) + DaysIn(y, a) <= DaysBeforeMonth(y, b)
    decreases b - a
  {
    if a + 1 < b {
      MonthsGrow(y, a, b - 1);
    }
  }

  /** Comparing valid dates as YYYYMMDD numbers is comparing days. */
  lemma DateOrder(y1: int, m1: int, d1: int, y2: int, m2: int, d2: int)
    requires ValidDate(y1, m1, d1) && ValidDate(y2, m2, d2)
    requires y1 * 10000 + m1 * 100 + d1 < y2 * 10000 + m2 * 100 + d2
    ensures DayNumber(y1, m1, d1) < DayNumber(y2, m2, d2)
  {
    hide DaysBeforeYear, DaysBeforeMonth;
    assert d1 <= 31 && d2 <= 31;
    if y1 < y2 {
      DateInYear(y1, m1, d1);
      DateInYear(y2, m2, d2);
      YearsGrow(y1, y2);
    } else if m1 < m2 {
      assert y1 == y2;
      MonthsGrow(y1, m1, m2);
    } else {
      assert y1 == y2 && m1 == m2 && d1 < d2;
    }
  }

  // ---------- the civil date of a day ----------

  datatype Date = Date(year: int, month: int, day: int) {
    predicate Valid() { ValidDate(year, month, day) }
    function Number(): int requires Valid() { DayNumber(year, month, day) }
  }

  function NextDay(c: Date): Date
    requires c.Valid()
  {
    if c.day < DaysIn(c.year, c.month) then Date(c.year, c.month, c.day + 1)
    else if c.month < 12 then Date(c.year, c.month + 1, 1)
    else Date(c.year + 1, 1, 1)
  }

  function PreviousDay(c: Date): Date
    requires c.Valid()
  {
    if c.day > 1 then Date(c.year, c.month, c.day - 1)
    else if c.month > 1 then Date(c.year, c.month - 1, DaysIn(c.year, c.month - 1))
    else Date(c.year - 1, 12, 31)
  }

  /** The date `n` days from 1970-01-01, counted day by day. */
  function Civil(n: int): (c: Date)
    ensures c.Valid()
    decreases if n < 0 then -n else n
  {
    if n == 0 then Date(1970, 1, 1)
    else if n > 0 then NextDay(Civil(n - 1))
    else PreviousDay(Civil(n + 1))
  }

  lemma StepsAreDays(c: Date)
    requires c.Valid()
    ensures NextDay(c).Valid() && NextDay(c).Number() == c.Number() + 1
    ensures PreviousDay(c).Valid() && PreviousDay(c).Number() == c.Number() - 1
  {
    hide DaysBeforeYear;
    MonthTable(c.year, c.month);
    MonthTable(c.year, 12);
    MonthTable(c.year - 1, 12);
    YearLength(c.year);
    YearLength(c.year - 1);
    assert DaysBeforeMonth(c.year + 1, 1) == 0;
  }

  lemma {:induction false} CivilIsInverse(n: int)
    ensures Civil(n).Number() == n
    decreases if n < 0 then -n else n
  {
    if n > 0 {
      CivilIsInverse(n - 1);
      StepsAreDays(Civil(n - 1));
    } else if n < 0 {
      CivilIsInverse(n + 1);
      StepsAreDays(Civil(n + 1));
    } else {
      assert Civil(0) == Date(1970, 1, 1);
    }
  }

  /** And the number of a valid date has that date. */
  lemma CivilOf(y: int, m: int, d: int)
    requires ValidDate(y, m, d)
    ensures Civil(DayNumber(y, m, d)) == Date(y, m, d)
  {
    var c := Civil(DayNumber(y, m, d));
    CivilIsInverse(DayNumber(y, m, d));
    hide DayNumber, Civil, ValidDate;
    SameNumberSameDate(c.year, c.month, c.day, y, m, d);
  }

  lemma SameNumberSameDate(y1: int, m1: int, d1: int, y2: int, m2: int, d2: int)
    requires ValidDate(y1, m1, d1) && ValidDate(y2, m2, d2) && DayNumber(y1, m1, d1) == DayNumber(y2, m2, d2)
    ensures y1 == y2 && m1 == m2 && d1 == d2
  {
    hide DayNumber;
    assert d1 <= 31 && d2 <= 31;
    if y1 * 10000 + m1 * 100 + d1 < y2 * 10000 + m2 * 100 + d2 {
      DateOrder(y1, m1, d1, y2, m2, d2);
    } else if y2 * 10000 + m2 * 100 + d2 < y1 * 10000 + m1 * 100 + d1 {
      DateOrder(y2, m2, d2, y1, m1, d1);
    }
  }

  /** The Gregorian rule for the length of a year, and where the count of days and of seconds
      starts: at 8:00 in China, 1970-01-01. */
  lemma GregorianYears(y: int)
    ensures DayNumber(y + 1, 1, 1) - DayNumber(y, 1, 1)
         == if y % 4 == 0 && (y % 100 != 0 || y % 400 == 0) then 366 else 365
    ensures DayNumber(1970, 1, 1) == 0 && CstToEpoch(1970, 1, 1, 8, 0) == 0
    ensures CstToEpoch(2100, 1, 1, 8, 0) == 4102444800
  {
    YearLength(y);
  }

  /** Earlier days lie in earlier or equal months, and months start in that order. */
  lemma MonthStartsOrdered(a: int, b: int)
    requires a <= b
    ensures DayNumber(Civil(a).year, Civil(a).month, 1) <= DayNumber(Civil(b).year, Civil(b).month, 1)
  {
    hide DayNumber, NextDay, PreviousDay;
    CivilIsInverse(a);
    CivilIsInverse(b);
    var x, y := Civil(a), Civil(b);
    hide Civil;
    assert x.day <= 31 && y.day <= 31;
    if y.year * 10000 + y.month * 100 + y.day < x.year * 10000 + x.month * 100 + x.day {
      DateOrder(y.year, y.month, y.day, x.year, x.month, x.day);
    } else if x.year != y.year || x.month != y.month {
      DateOrder(x.year, x.month, 1, y.year, y.month, 1);
    }
  }

  // ---------- packed dates ----------

  const FIRST_YEAR := 2004

  /** The compact 16-bit date: years since 2004 above eleven bits of month and day. */
  function CompactYear(num: nat): int { num % 0x1_0000 / 2048 + FIRST_YEAR }
  function CompactMonth(num: nat): int { num % 0x1_0000 % 2048 / 100 }
  function CompactDay(num: nat): int { num % 0x1_0000 % 2048 % 100 }

  predicate Plausible(month: int, day: int) { 1 <= month <= 12 && 1 <= day <= 31 }

  function DateEpoch(year: int, month: int, day: int, hour: int, minute: int): int {
    if Plausible(month, day) then CstToEpoch(year, month, day, hour, minute) else 0
  }

  /** `to_datetime`: YYYYMMDD or compact, each falling back to the other when out of range. */
  function DatetimeOf(num: nat, withTime: bool, nowYear: int): int {
    var y, m, d := num / 10000, num % 10000 / 100, num % 100;
    var cy, cm, cd := CompactYear(num), CompactMonth(num), CompactDay(num);
    if withTime then
      var hour, minute := num / 0x1_0000 / 60, num / 0x1_0000 % 60;
      if !Plausible(cm, cd) || cy > nowYear || hour > 23 then DateEpoch(y, m, d, 15, 0)
      else DateEpoch(cy, cm, cd, hour, minute)
    else
      if y > 2100 || !Plausible(m, d) then DateEpoch(cy, cm, cd, 15, 0) else DateEpoch(y, m, d, 15, 0)
  }

  method ToDatetime(num: nat, withTime: bool, nowYear: int) returns (epoch: int)
    ensures epoch == DatetimeOf(num, withTime, nowYear)
  {
    var year, month, day, hour, minute := 0, 0, 0, 15, 0;
    if withTime {
      year, month, day := CompactYear(num), CompactMonth(num), CompactDay(num);
      var minutes := num / 0x1_0000;
      hour := minutes / 60;
      minute := minutes % 60;
      if month < 1 || month > 12 || day < 1 || day > 31 || year > nowYear || hour > 23 || minute > 59 {
        year, month, day := num / 10000, num % 10000 / 100, num % 100;
        hour, minute := 15, 0;
      }
    } else {
      year, month, day := num / 10000, num % 10000 / 100, num % 100;
      if year > 2100 || month < 1 || month > 12 || day < 1 || day > 31 {
        year, month, day := CompactYear(num), CompactMonth(num), CompactDay(num);
        hour, minute := 15, 0;
      }
    }
    if month < 1 || month > 12 || day < 1 || day > 31 {
      return 0;
    }
    return CstToEpoch(year, month, day, hour, minute);
  }

  /** The YYYYMMDD word of a date. */
  function DateWordOf(y: nat, m: nat, d: nat): nat { y * 10000 + m * 100 + d }

  /** The compact word of a date and a minute of the day. */
  function MinuteWordOf(y: nat, m: nat, d: nat, minute: nat): nat
    requires FIRST_YEAR <= y
  {
    minute * 0x1_0000 + (y - FIRST_YEAR) * 2048 + m * 100 + d
  }

  /** A date word up to the year 2100 decodes to the 15:00 close of its date. */
  lemma DateWordDecodes(y: nat, m: nat, d: nat, nowYear: int)
    requires ValidDate(y, m, d) && y <= 2100
    ensures DatetimeOf(DateWordOf(y, m, d), false, nowYear) == MinuteEpoch(DayNumber(y, m, d), 900)
  {
    hide DayNumber;
    var low := m * 100 + d;
    assert low < 10000 && low / 100 == m && low % 100 == d;
    assert DateWordOf(y, m, d) / 10000 == y && DateWordOf(y, m, d) % 10000 == low;
    assert DateWordOf(y, m, d) % 100 == d;
  }

  /** A compact word from 2004 to the current year, and no later than 2035, decodes to its
      minute of its date. */
  lemma MinuteWordDecodes(y: nat, m: nat, d: nat, minute: nat, nowYear: int)
    requires ValidDate(y, m, d) && FIRST_YEAR <= y <= 2035 && y <= nowYear && minute < 1440
    ensures DatetimeOf(MinuteWordOf(y, m, d, minute), true, nowYear) == MinuteEpoch(DayNumber(y, m, d), minute)
  {
    hide DayNumber, CompactYear, CompactMonth, CompactDay;
    CompactParts(y, m, d, minute);
    assert minute / 60 * 60 + minute % 60 == minute;
  }

  lemma CompactParts(y: nat, m: nat, d: nat, minute: nat)
    requires 1 <= m <= 12 && 1 <= d <= 31 && FIRST_YEAR <= y <= 2035
    ensures var word := MinuteWordOf(y, m, d, minute);
            CompactYear(word) == y && CompactMonth(word) == m && CompactDay(word) == d && word / 0x1_0000 == minute
  {
    var date := (y - FIRST_YEAR) * 2048 + (m * 100 + d);
    Split16(minute, date);
    Split11(y - FIRST_YEAR, m * 100 + d);
    Split100(m, d);
    assert MinuteWordOf(y, m, d, minute) == minute * 0x1_0000 + date;
  }

  lemma Split16(q: nat, r: nat)
    requires r < 0x1_0000
    ensures (q * 0x1_0000 + r) / 0x1_0000 == q && (q * 0x1_0000 + r) % 0x1_0000 == r
  {
  }

  lemma Split11(q: nat, r: nat)
    requires r < 2048
    ensures (q * 2048 + r) / 2048 == q && (q * 2048 + r) % 2048 == r
  {
  }

  lemma Split100(q: nat, r: nat)
    requires r < 100
    ensures (q * 100 + r) / 100 == q && (q * 100 + r) % 100 == r
  {
  }

  lemma ZeroWord(nowYear: int)
    ensures DatetimeOf(0, true, nowYear) == 0
  {
  }

  /** Without a time of day the result is a 15:00 close, or the zero that stands for no date. */
  lemma DailyIsAtClose(num: nat, nowYear: int)
    ensures var t := DatetimeOf(num, false, nowYear);
            t == 0 || MinuteOf(t) == 900
  {
    var y, m, d := num / 10000, num % 10000 / 100, num % 100;
    var cy, cm, cd := CompactYear(num), CompactMonth(num), CompactDay(num);
    hide DayNumber, MinuteOf, MinuteEpoch;
    if Plausible(m, d) {
      MinuteEpochParts(DayNumber(y, m, d), 900);
    }
    if Plausible(cm, cd) {
      MinuteEpochParts(DayNumber(cy, cm, cd), 900);
    }
  }

  /** A YYYYMMDD number of a valid date between 1990 and 2100. */
  predicate DateWord(num: nat) {
    1990 <= num / 10000 <= 2100 && ValidDate(num / 10000, num % 10000 / 100, num % 100)
  }

  /** Later date words are later instants. */
  lemma DateWordsOrdered(a: nat, b: nat, nowYear: int)
    requires DateWord(a) && DateWord(b) && a < b
    ensures DatetimeOf(a, false, nowYear) < DatetimeOf(b, false, nowYear)
  {
    SplitDate(a);
    SplitDate(b);
    hide DayNumber;
    DateOrder(a / 10000, a % 10000 / 100, a % 100, b / 10000, b % 10000 / 100, b % 100);
  }

  lemma SplitDate(a: nat)
    ensures a == a / 10000 * 10000 + a % 10000 / 100 * 100 + a % 100
  {
  }

  /** Each encoding falls back to the other. A compact word that does not read as a date from year
      0 to 2100 stands for its own date at 15:00 where no time of day is expected; a date word
      that does not read as a compact stamp up to the current year stands for its 15:00 where
      one is expected; and a word that reads as neither is no date. */
  lemma EncodingsFallBack(y: nat, m: nat, d: nat, minute: nat, nowYear: int, neither: nat, withTime: bool)
    requires ValidDate(y, m, d)
    ensures 2004 <= y <= 2035 ==>
              var word := minute * 65536 + (y - 2004) * 2048 + m * 100 + d;
              word / 10000 > 2100 || !(1 <= word % 10000 / 100 <= 12) || !(1 <= word % 100 <= 31) ==>
                DatetimeOf(word, false, nowYear) == MinuteEpoch(DayNumber(y, m, d), 900)
    ensures var word := y * 10000 + m * 100 + d;
            var date := word % 65536 % 2048;
            !(1 <= date / 100 <= 12) || !(1 <= date % 100 <= 31)
            || word % 65536 / 2048 + 2004 > nowYear || word / 65536 > 1439 ==>
              DatetimeOf(word, true, nowYear) == MinuteEpoch(DayNumber(y, m, d), 900)
    ensures var date := neither % 65536 % 2048;
            && (!(1 <= neither % 10000 / 100 <= 12) || !(1 <= neither % 100 <= 31))
            && (!(1 <= date / 100 <= 12) || !(1 <= date % 100 <= 31)) ==>
              DatetimeOf(neither, withTime, nowYear) == 0
  {
    hide DayNumber;
    if 2004 <= y <= 2035 {
      CompactParts(y, m, d, minute);
    }
    DateParts(y, m, d);
  }

  lemma DateParts(y: nat, m: nat, d: nat)
    requires 1 <= m <= 12 && 1 <= d <= 31
    ensures var word := y * 10000 + m * 100 + d;
            word / 10000 == y && word % 10000 / 100 == m && word % 100 == d
  {
    var low := m * 100 + d;
    assert low < 10000 && low / 100 == m && low % 100 == d;
    assert y * 10000 + low == y * 10000 + m * 100 + d;
  }
}
