/** Yearly schedules: the dates the form accepts, and the guard of the yearly task. */
module YearlySchedule {

  predicate LeapYear(y: int) {
    y % 4 == 0 && (y % 100 != 0 || y % 400 == 0)
  }

  /** `calendar.monthrange(year, month)[1]` */
  function MonthLength(year: int, month: int): int
    requires 1 <= month <= 12
  {
    if month == 2 then (if LeapYear(year) then 29 else 28)
    else if month in {4, 6, 9, 11} then 30
    else 31
  }

  datatype Date = Date(year: int, month: int, day: int)

  predicate Exists(d: Date) {
    1 <= d.month <= 12 && 1 <= d.day <= MonthLength(d.year, d.month)
  }

  /** The choices of the two selects and the yearly branch of `clean`; 0 is an empty field. */
  predicate FormAccepts(month: int, day: int) {
    && 1 <= month <= 12 && 1 <= day <= 31
    && day <= MonthLength(2024, month)
  }

  lemma NextMultipleOfFour(from: int) returns (y: int)
    ensures from <= y < from + 4 && y % 4 == 0
  {
    y := from + (4 - from % 4) % 4;
  }

  lemma LeapYearFollows(y: int)
    requires y % 4 == 0 && !LeapYear(y)
    ensures LeapYear(y + 4)
  {
    assert y % 100 == 0;
    assert (y + 4) % 100 == 4;
  }

  /** Every accepted date comes round in any eight consecutive years, and eight are needed. */
  lemma AcceptedDateRecurs(month: int, day: int, from: int)
    requires FormAccepts(month, day)
    ensures exists y :: from <= y < from + 8 && Exists(Date(y, month, day))
  {
    var y := NextMultipleOfFour(from);
    if !LeapYear(y) {
      LeapYearFollows(y);
      y := y + 4;
    }
    assert MonthLength(y, month) == MonthLength(2024, month);
    assert Exists(Date(y, month, day));
  }

  /** The form accepts exactly the dates that exist in some year. */
  lemma AcceptsExactly(month: int, day: int)
    ensures FormAccepts(month, day) <==> exists y :: Exists(Date(y, month, day))
  {
    if FormAccepts(month, day) {
      AcceptedDateRecurs(month, day, 2024);
    }
    if y :| Exists(Date(y, month, day)) {
      assert MonthLength(y, month) <= MonthLength(2024, month) <= 31;
    }
  }

  lemma SevenYearsCanMiss()
    ensures FormAccepts(2, 29)
    ensures forall y :: 1897 <= y < 1904 ==> !Exists(Date(y, 2, 29))
  {}

  // ----- The proleptic Gregorian calendar -----

  function YearLength(year: int): nat {
    if LeapYear(year) then 366 else 365
  }

  /** The days of a year before the first of a month. */
  function MonthStart(year: int, month: int): nat
    requires 1 <= month <= 12
  {
    var common := [0, 31, 59, 90, 120, 151, 181, 212, 243, 273, 304, 334];
    common[month - 1] + if month > 2 && LeapYear(year) then 1 else 0
  }

  /** The days from the first day of year `from` to the first day of `year`. */
  function YearStart(from: int, year: int): nat
    requires from <= year
    decreases year - from
  {
    if from == year then 0 else YearLength(from) + YearStart(from + 1, year)
  }

  /** The number of a day, counted from the first day of year `from`. */
  function DayNumber(from: int, d: Date): nat
    requires Exists(d) && from <= d.year
  {
    YearStart(from, d.year) + MonthStart(d.year, d.month) + d.day - 1
  }

  /** The date of day `n` of a year, looked for from `month` on. */
  function DateInYear(year: int, month: int, n: int): Date
    requires 1 <= month <= 12
    decreases 12 - month
  {
    if month == 12 || n < MonthStart(year, month + 1) then Date(year, month, n - MonthStart(year, month) + 1)
    else DateInYear(year, month + 1, n)
  }

  /** The date of day number `n`, counted from the first day of year `from`. */
  function DateOf(from: int, n: nat): Date
    decreases n
  {
    if n < YearLength(from) then DateInYear(from, 1, n) else DateOf(from + 1, n - YearLength(from))
  }

  lemma MonthsTile(year: int, month: int)
    requires 1 <= month <= 12
    ensures MonthStart(year, month) + MonthLength(year, month) ==
            if month == 12 then YearLength(year) else MonthStart(year, month + 1)
  {}

  lemma {:induction false} DateInYearCorrect(year: int, month: int, n: int)
    requires 1 <= month <= 12 && MonthStart(year, month) <= n < YearLength(year)
    ensures var d := DateInYear(year, month, n);
            d.year == year && Exists(d) && n == MonthStart(year, d.month) + d.day - 1
    decreases 12 - month
  {
    MonthsTile(year, month);
    if month < 12 && n >= MonthStart(year, month + 1) {
      DateInYearCorrect(year, month + 1, n);
    }
  }

  lemma {:induction false} DateInYearFinds(year: int, month: int, d: Date)
    requires 1 <= month <= d.month && Exists(d) && d.year == year
    ensures DateInYear(year, month, MonthStart(year, d.month) + d.day - 1) == d
    decreases 12 - month
  {
    MonthsTile(year, month);
    if month < d.month {
      DateInYearFinds(year, month + 1, d);
      MonthStartsInOrder(year, month + 1, d.month);
    }
  }

  lemma {:induction false} MonthStartsInOrder(year: int, a: int, b: int)
    requires 1 <= a <= b <= 12
    ensures MonthStart(year, a) <= MonthStart(year, b)
    decreases b - a
  {
    if a < b {
      MonthsTile(year, a);
      MonthStartsInOrder(year, a + 1, b);
    }
  }

  /** Every day number is that of exactly one existing date, the one found. */
  lemma {:induction false} DateOfCorrect(from: int, n: nat)
    ensures var d := DateOf(from, n); Exists(d) && from <= d.year && DayNumber(from, d) == n
    decreases n
  {
    if n < YearLength(from) {
      DateInYearCorrect(from, 1, n);
    } else {
      DateOfCorrect(from + 1, n - YearLength(from));
    }
  }

  lemma DayInsideYear(d: Date)
    requires Exists(d)
    ensures MonthStart(d.year, d.month) + d.day <= YearLength(d.year)
  {
    MonthsTile(d.year, d.month);
    if d.month < 12 {
      MonthStartsInOrder(d.year, d.month + 1, 12);
      MonthsTile(d.year, 12);
    }
  }

  lemma {:induction false} DateOfFinds(from: int, d: Date)
    requires Exists(d) && from <= d.year
    ensures DateOf(from, DayNumber(from, d)) == d
    decreases d.year - from
  {
    if from == d.year {
      DayInsideYear(d);
      DateInYearFinds(from, 1, d);
    } else {
      DateOfFinds(from + 1, d);
      assert DayNumber(from, d) == YearLength(from) + DayNumber(from + 1, d);
    }
  }

  // ----- The guard -----

  const DAY := 86400

  datatype Schedule = Schedule(active: bool, yearly: bool, month: int, day: int)

  /** Seconds east of UTC at an instant, in the schedule's timezone. */
  type Zone = int -> int

  /** `timezone.now().astimezone(tz)`, as seconds of local time since the start of year 1, the first that
      Python's calendar has. */
  predicate Representable(now: int, zone: Zone) {
    now + zone(now) >= 0
  }

  function LocalDate(now: int, zone: Zone): Date
    requires Representable(now, zone)
  {
    DateOf(1, (now + zone(now)) / DAY)
  }

  predicate Delegates(s: Schedule, now: int, zone: Zone)
    requires Representable(now, zone)
  {
    var local := LocalDate(now, zone);
    s.active && s.yearly && (local.month, local.day) == (s.month, s.day)
  }

  /** The local time at `now` lies on this calendar day. */
  predicate Falls(now: int, zone: Zone, d: Date)
    requires Exists(d) && d.year >= 1
  {
    DayNumber(1, d) * DAY <= now + zone(now) < (DayNumber(1, d) + 1) * DAY
  }

  lemma DayOfInstant(x: int, n: int)
    ensures x / DAY == n <==> n * DAY <= x < (n + 1) * DAY
  {}

  /** The guard delegates at exactly the instants that fall, by the schedule's own clock, on an existing
      date of some year with the configured month and day: from its first second to its last, and never on
      a neighbouring day. For 29 February those are the leap days. */
  lemma FiresExactlyOnItsDates(s: Schedule, now: int, zone: Zone)
    requires Representable(now, zone)
    ensures Delegates(s, now, zone) <==>
            && s.active && s.yearly
            && exists year :: year >= 1 && Exists(Date(year, s.month, s.day)) &&
                 Falls(now, zone, Date(year, s.month, s.day))
    ensures Delegates(s, now, zone) && s.month == 2 && s.day == 29 ==> LeapYear(LocalDate(now, zone).year)
  {
    var n := (now + zone(now)) / DAY;
    var local := LocalDate(now, zone);
    DateOfCorrect(1, n);
    DayOfInstant(now + zone(now), n);
    if year :| year >= 1 && Exists(Date(year, s.month, s.day)) && Falls(now, zone, Date(year, s.month, s.day)) {
      DayOfInstant(now + zone(now), DayNumber(1, Date(year, s.month, s.day)));
      DateOfFinds(1, Date(year, s.month, s.day));
    }
    if Delegates(s, now, zone) {
      assert local == Date(local.year, s.month, s.day);
      assert Falls(now, zone, local);
    }
  }
}
