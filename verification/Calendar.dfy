/** Seconds and dates (time.c): the closed form of `mktime` and the loops of `expand_time`. */
module Calendar {
  import opened Words

  const EPOCH_YEAR := 1970

  // ----- The calendar -----

  /** `leap_year` */
  predicate LeapYear(y: nat) {
    y % 4 == 0 && (y % 100 != 0 || y % 400 == 0)
  }

  function DaysInYear(y: nat): nat {
    if LeapYear(y) then 366 else 365
  }

  /** Days from the first of 1970 to the first of year `y`. */
  function DaysBeforeYear(y: nat): nat
    requires y >= EPOCH_YEAR
  {
    if y == EPOCH_YEAR then 0 else DaysBeforeYear(y - 1) + DaysInYear(y - 1)
  }

  function DaysInMonth(y: nat, m: nat): nat
    requires 1 <= m <= 12
  {
    if m == 2 then (if LeapYear(y) then 29 else 28)
    else if m == 4 || m == 6 || m == 9 || m == 11 then 30 else 31
  }

  function DaysBeforeMonth(y: nat, m: nat): nat
    requires 1 <= m <= 13
  {
    if m == 1 then 0 else DaysBeforeMonth(y, m - 1) + DaysInMonth(y, m - 1)
  }

  predicate IsDate(y: nat, m: nat, d: nat) {
    y >= EPOCH_YEAR && 1 <= m <= 12 && 1 <= d <= DaysInMonth(y, m)
  }

  /** The day's number, the first of 1970 being 0. */
  function DayNumber(y: nat, m: nat, d: nat): nat
    requires IsDate(y, m, d)
  {
    DaysBeforeYear(y) + DaysBeforeMonth(y, m) + d - 1
  }

  /** Monday is 0; the first of 1970 was a Thursday. */
  function Weekday(n: nat): nat {
    (n + 3) % 7
  }

  // ----- mktime -----

  function LeapYearsTo(y: int): int {
    y / 4 - y / 100 + y / 400
  }

  /** The day number in closed form, March being month 1 of the year. */
  function ClosedForm(y: int, m: int, d: int): int {
    LeapYearsTo(y) + 367 * m / 12 + d + y * 365 - 719499
  }

  /** `mktime`, in 32-bit arithmetic */
  function MkTime(year: nat, mon: nat, day: nat, hour: nat, min: nat, sec: nat): nat
    requires 1 <= year && 1 <= mon <= 12
  {
    var m := if mon - 2 <= 0 then mon + 10 else mon - 2;
    var y := if mon - 2 <= 0 then year - 1 else year;
    (((ClosedForm(y, m, day) * 24 + hour) * 60 + min) * 60 + sec) % WORD_LIMIT
  }

  lemma OneMoreYear(y: nat)
    requires y >= 1
    ensures LeapYearsTo(y) == LeapYearsTo(y - 1) + if LeapYear(y) then 1 else 0
  {
    assert y / 4 == (y - 1) / 4 + if y % 4 == 0 then 1 else 0;
    assert y / 100 == (y - 1) / 100 + if y % 100 == 0 then 1 else 0;
    assert y / 400 == (y - 1) / 400 + if y % 400 == 0 then 1 else 0;
    Divides(y);
  }

  lemma Divides(y: nat)
    ensures y % 400 == 0 ==> y % 100 == 0
    ensures y % 100 == 0 ==> y % 4 == 0
  {
    if y % 400 == 0 {
      Hundreds(4 * (y / 400));
    }
    if y % 100 == 0 {
      Fours(25 * (y / 100));
    }
  }

  lemma Hundreds(k: nat)
    ensures 100 * k % 100 == 0
  {
  }

  lemma Fours(k: nat)
    ensures 4 * k % 4 == 0
  {
  }

  lemma {:induction false} YearsClosed(y: nat)
    requires y >= EPOCH_YEAR
    ensures DaysBeforeYear(y) == LeapYearsTo(y - 1) + y * 365 - 719527
  {
    if y > EPOCH_YEAR {
      YearsClosed(y - 1);
      OneMoreYear(y - 1);
    }
  }

  /** The closed form counts days by the rule for leap years. */
  lemma ClosedFormCounts(y: nat, m: nat, d: nat)
    requires IsDate(y, m, d)
    ensures DayNumber(y, m, d) == if m <= 2 then ClosedForm(y - 1, m + 10, d) else ClosedForm(y, m - 2, d)
  {
    YearsClosed(y);
    OneMoreYear(y);
    MonthsClosed(y, m);
  }

  lemma MonthsClosed(y: nat, m: nat)
    requires 1 <= m <= 12
    ensures m <= 2 ==> DaysBeforeMonth(y, m) == 367 * (m + 10) / 12 - 336
    ensures m > 2 ==> DaysBeforeMonth(y, m) == 367 * (m - 2) / 12 + 29 + (if LeapYear(y) then 1 else 0)
  {
    Months(y);
  }

  lemma Months(y: nat)
    ensures DaysBeforeMonth(y, 2) == 31 && DaysBeforeMonth(y, 3) == DaysInMonth(y, 2) + 31
    ensures var march := DaysBeforeMonth(y, 3);
            && DaysBeforeMonth(y, 4) == march + 31 && DaysBeforeMonth(y, 5) == march + 61 && DaysBeforeMonth(y, 6) == march + 92
            && DaysBeforeMonth(y, 7) == march + 122 && DaysBeforeMonth(y, 8) == march + 153 && DaysBeforeMonth(y, 9) == march + 184
            && DaysBeforeMonth(y, 10) == march + 214 && DaysBeforeMonth(y, 11) == march + 245 && DaysBeforeMonth(y, 12) == march + 275
            && DaysBeforeMonth(y, 13) == march + 306
  {
  }

  /** `mktime` gives the seconds since the first of 1970, in 32 bits. */
  lemma MkTimeCounts(y: nat, m: nat, d: nat, hour: nat, min: nat, sec: nat)
    requires IsDate(y, m, d)
    ensures MkTime(y, m, d, hour, min, sec) == (((DayNumber(y, m, d) * 24 + hour) * 60 + min) * 60 + sec) % WORD_LIMIT
  {
    hide ClosedForm, DayNumber;
    ClosedFormCounts(y, m, d);
  }

  // ----- expand_time -----

  /** The table of the source: as the calendar, but for April and May. */
  function TableDays(y: nat, m: nat): nat
    requires 1 <= m <= 12
  {
    if m == 4 then 31 else if m == 5 then 30 else DaysInMonth(y, m)
  }

  function TableBefore(y: nat, m: nat): nat
    requires 1 <= m <= 13
  {
    if m == 1 then 0 else TableBefore(y, m - 1) + TableDays(y, m - 1)
  }

  /** April and May make up for each other. */
  lemma {:induction false} TableSums(y: nat, m: nat)
    requires 1 <= m <= 13
    ensures TableBefore(y, m) == DaysBeforeMonth(y, m) + if m == 5 then 1 else 0
  {
    if m > 1 { TableSums(y, m - 1); }
  }

  lemma WholeYear(y: nat)
    ensures TableBefore(y, 13) == DaysInYear(y)
  {
    TableSums(y, 13);
    Months(y);
  }

  /** `struct time_bits`, names apart */
  datatype TimeBits = TimeBits(year: nat, month: nat, day: nat, dayOfWeek: nat, hour: nat, minute: nat, second: nat)

  /** time.c:355-358; what month and year are counted as, and the day of the week computed from them. */
  function ComputedWeekday(y: nat, m: nat, d: nat): nat
    requires 1 <= y
  {
    var m' := if m <= 2 then m + 12 else m;
    var y' := if m <= 2 then y - 1 else y;
    (d + 2 * m' + 3 * (m' + 1) / 5 + y' / 4 - y' / 100 + y' / 400) % 7
  }

  /** The month and the day found by the table for the given day of the year, from zero. */
  ghost predicate ByTable(y: nat, dayOfYear: nat, m: nat, d: nat) {
    1 <= m <= 12 && 1 <= d <= TableDays(y, m) && dayOfYear == TableBefore(y, m) + d - 1
  }

  /** `expand_time`: the year and the time of day are right; month and day are those of the table. */
  method ExpandTime(cal: nat) returns (tm: TimeBits)
    requires cal < WORD_LIMIT
    ensures tm.hour < 24 && tm.minute < 60 && tm.second < 60 && tm.year >= EPOCH_YEAR
    ensures DaysBeforeYear(tm.year) <= cal / 86400 < DaysBeforeYear(tm.year + 1)
    ensures cal == ((cal / 86400 * 24 + tm.hour) * 60 + tm.minute) * 60 + tm.second
    ensures ByTable(tm.year, cal / 86400 - DaysBeforeYear(tm.year), tm.month, tm.day)
    ensures tm.dayOfWeek == ComputedWeekday(tm.year, tm.month, tm.day)
  {
    var left := cal;
    var second := left % 60;
    left := left / 60;
    var minute := left % 60;
    left := left / 60;
    var hour := left % 24;
    left := left / 24;
    DaysOf(cal);
    var year := EPOCH_YEAR;
    var days := DaysInYear(year);
    while left >= days
      invariant 0 <= left && year >= EPOCH_YEAR && days == DaysInYear(year)
      invariant DaysBeforeYear(year) + left == cal / 86400
      decreases left
    {
      left := left - days;
      year := year + 1;
      days := DaysInYear(year);
    }
    WholeYear(year);
    var month := 0;
    days := TableDays(year, month + 1);
    while left >= days
      invariant 0 <= left && 0 <= month < 12 && days == TableDays(year, month + 1)
      invariant TableBefore(year, month + 1) + left == cal / 86400 - DaysBeforeYear(year)
      decreases left
    {
      left := left - days;
      month := month + 1;
      assert month < 12;
      days := TableDays(year, month + 1);
    }
    month := month + 1;
    var day := left + 1;
    tm := TimeBits(year, month, day, ComputedWeekday(year, month, day), hour, minute, second);
  }

  lemma DaysOf(cal: nat)
    ensures cal / 60 / 60 / 24 == cal / 86400
    ensures cal == ((cal / 86400 * 24 + cal / 60 / 60 % 24) * 60 + cal / 60 % 60) * 60 + cal % 60
  {
  }

  /** The year found is the one that the time lies in, by `mktime`, as long as the next year begins before the 32 bits end. */
  lemma YearEncloses(y: nat, cal: nat)
    requires y >= EPOCH_YEAR && DaysBeforeYear(y) <= cal / 86400 < DaysBeforeYear(y + 1) && cal < WORD_LIMIT
    ensures MkTime(y, 1, 1, 0, 0, 0) <= cal
    ensures cal < MkTime(y + 1, 1, 1, 0, 0, 0) <==> y < 2106
  {
    hide MkTime, DaysInYear;
    YearLengths(y);
    LastYear(y);
    hide DaysBeforeYear;
    YearStarts(y);
    YearStarts(y + 1);
  }

  /** The last second of the 32 bits lies in 2106, and 2107 begins before it by `mktime`. */
  lemma LastSecond()
    ensures DaysBeforeYear(2106) <= (WORD_LIMIT - 1) / 86400 < DaysBeforeYear(2107)
    ensures MkTime(2107, 1, 1, 0, 0, 0) == 28315904 < WORD_LIMIT - 1
  {
    hide DaysBeforeYear, MkTime;
    YearsClosed(2106);
    YearsClosed(2107);
    YearStarts(2107);
  }

  lemma YearLengths(y: nat)
    requires y >= EPOCH_YEAR
    ensures DaysBeforeYear(y) < DaysBeforeYear(y + 1) <= DaysBeforeYear(y) + 366
  {
  }

  /** The 32 bits end in the year 2106. */
  lemma LastYear(y: nat)
    requires y >= EPOCH_YEAR
    ensures DaysBeforeYear(y + 1) * 86400 < WORD_LIMIT <==> y < 2106
  {
    YearsClosed(y + 1);
    hide DaysBeforeYear;
    if y < 2106 {
      assert LeapYearsTo(y) <= LeapYearsTo(2105);
    } else {
      assert LeapYearsTo(y) >= LeapYearsTo(2106);
    }
  }

  lemma YearStarts(y: nat)
    requires y >= EPOCH_YEAR
    ensures MkTime(y, 1, 1, 0, 0, 0) == DaysBeforeYear(y) * 86400 % WORD_LIMIT
  {
    hide MkTime, DaysBeforeYear;
    MkTimeCounts(y, 1, 1, 0, 0, 0);
    assert DayNumber(y, 1, 1) == DaysBeforeYear(y);
  }

  /** The table's month and day are the calendar's exactly outside May. */
  lemma TableIsRight(y: nat, m: nat, d: nat, tm: nat, td: nat)
    requires IsDate(y, m, d) && ByTable(y, DaysBeforeMonth(y, m) + d - 1, tm, td)
    ensures (tm == m && td == d) <==> m != 5
    ensures m == 5 ==> if d == 1 then tm == 4 && td == 31 else tm == 5 && td == d - 1
  {
    TableSums(y, m);
    TableSums(y, m + 1);
    TableSums(y, tm);
    TableSums(y, tm + 1);
    if tm < m {
      BeforeGrows(y, tm + 1, m);
    } else if m < tm {
      BeforeGrows(y, m + 1, tm);
    }
  }

  lemma {:induction false} BeforeGrows(y: nat, m: nat, n: nat)
    requires 1 <= m <= n <= 13
    ensures DaysBeforeMonth(y, m) <= DaysBeforeMonth(y, n)
    ensures m < n ==> DaysBeforeMonth(y, m) + 28 <= DaysBeforeMonth(y, n)
  {
    if m < n { BeforeGrows(y, m, n - 1); }
  }

  /** The formula for the day of the week lacks the year itself: it is right exactly when that is a multiple of seven. */
  lemma WeekdayRight(y: nat, m: nat, d: nat)
    requires IsDate(y, m, d)
    ensures ComputedWeekday(y, m, d) == Weekday(DayNumber(y, m, d)) <==> (if m <= 2 then y - 1 else y) % 7 == 0
  {
    hide DayNumber, LeapYearsTo;
    ClosedFormCounts(y, m, d);
    var m' := if m <= 2 then m + 12 else m;
    var y' := if m <= 2 then y - 1 else y;
    MonthTerm(m');
    LackOfYear(LeapYearsTo(y') + d, y', 367 * (m' - 2) / 12, 2 * m' + 3 * (m' + 1) / 5);
    assert LeapYearsTo(y') == y' / 4 - y' / 100 + y' / 400 by { LeapsAre(y'); }
  }

  lemma LeapsAre(y: nat)
    ensures LeapYearsTo(y) == y / 4 - y / 100 + y / 400
  {
  }

  lemma MonthTerm(m: nat)
    requires 3 <= m <= 14
    ensures (367 * (m - 2) / 12 - 1 - (2 * m + 3 * (m + 1) / 5)) % 7 == 0
  {
  }

  lemma LackOfYear(a: int, y: int, p: int, q: int)
    requires (p - 1 - q) % 7 == 0
    ensures (a + q) % 7 == (a + p + y * 365 - 719499 + 3) % 7 <==> y % 7 == 0
  {
    var k := (p - 1 - q) / 7;
    assert a + p + y * 365 - 719496 == (a + q) + y + 7 * (k + 52 * y - 102785);
    SameModulo((a + q) + y, k + 52 * y - 102785);
  }

  lemma SameModulo(a: int, k: int)
    ensures (a + 7 * k) % 7 == a % 7
  {
  }

  /** The year found for a moment of a day is the year of that day. */
  lemma YearRecovered(y: nat, m: nat, d: nat, found: nat)
    requires IsDate(y, m, d) && found >= EPOCH_YEAR
    requires DaysBeforeYear(found) <= DayNumber(y, m, d) < DaysBeforeYear(found + 1)
    ensures found == y
  {
    Months(y);
    assert DaysBeforeMonth(y, m) + d <= DaysInYear(y) by {
      BeforeGrows(y, m + 1, 13);
    }
    if found < y {
      YearsGrow(found + 1, y);
    } else if y < found {
      YearsGrow(y + 1, found);
    }
  }

  lemma {:induction false} YearsGrow(a: nat, b: nat)
    requires EPOCH_YEAR <= a <= b
    ensures DaysBeforeYear(a) <= DaysBeforeYear(b)
  {
    if a < b { YearsGrow(a, b - 1); }
  }
}
