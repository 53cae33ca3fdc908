/** Calendar arithmetic as Python's `datetime` does it: days are numbered as
    by `date.toordinal()` (0001-01-01 is day 1), and `weekday()` counts from
    Monday = 0 to Sunday = 6. Also the trading-day helpers
    `_next_trading_day` and `_add_trading_days`. */
module Calendar {

  predicate IsLeap(y: int) {
    y % 4 == 0 && (y % 100 != 0 || y % 400 == 0)
  }

  function DaysInMonth(y: int, m: int): (r: int)
    requires 1 <= m <= 12
    ensures 28 <= r <= 31
  {
    if m == 2 then (if IsLeap(y) then 29 else 28)
    else if m == 4 || m == 6 || m == 9 || m == 11 then 30
    else 31
  }

  /** The number of days in the months of year `y` before month `m`. */
  function DaysBeforeMonth(y: int, m: int): (r: int)
    requires 1 <= m <= 12
    ensures m > 1 ==> r == DaysBeforeMonth(y, m - 1) + DaysInMonth(y, m - 1)
  {
    var table := [0, 31, 59, 90, 120, 151, 181, 212, 243, 273, 304, 334];
    table[m - 1] + (if m > 2 && IsLeap(y) then 1 else 0)
  }

  /** The number of days in the years before year `y`. */
  function DaysBeforeYear(y: int): int
    requires y >= 1
  {
    var p := y - 1;
    p * 365 + p / 4 - p / 100 + p / 400
  }

  /** A date `datetime.date` accepts. */
  predicate ValidDate(y: int, m: int, d: int) {
    1 <= y <= 9999 && 1 <= m <= 12 && 1 <= d <= DaysInMonth(y, m)
  }

  /** `date(y, m, d).toordinal()` */
  function Ordinal(y: int, m: int, d: int): int
    requires ValidDate(y, m, d)
  {
    DaysBeforeYear(y) + DaysBeforeMonth(y, m) + d
  }

  /** `weekday()` of the day with ordinal `day`: Monday 0 … Sunday 6. */
  function Weekday(day: int): (r: int)
    ensures 0 <= r < 7
  {
    (day + 6) % 7
  }

  /** The first day is a Monday, as in Python. */
  lemma FirstDayIsMonday()
    ensures Ordinal(1, 1, 1) == 1 && Weekday(Ordinal(1, 1, 1)) == 0
  {
  }

  /** The day after the last day of a month is the first of the next month,
      so ordinals number the days without gaps. */
  lemma MonthsAdjoin(y: int, m: int)
    requires 1 <= y <= 9999 && 1 <= m < 12
    ensures Ordinal(y, m, DaysInMonth(y, m)) + 1 == Ordinal(y, m + 1, 1)
  {
  }

  /** Likewise across the end of a year. */
  lemma YearsAdjoin(y: int)
    requires 1 <= y < 9999
    ensures Ordinal(y, 12, 31) + 1 == Ordinal(y + 1, 1, 1)
  {
    var p := y - 1;
    LeapSteps(p);
    assert DaysBeforeMonth(y, 12) + 31 == 365 + (if IsLeap(y) then 1 else 0);
  }

  /** How `p / 4 - p / 100 + p / 400` grows from `p` to `p + 1`. */
  lemma LeapSteps(p: int)
    requires p >= 0
    ensures var q := p + 1;
      (q / 4 - q / 100 + q / 400) - (p / 4 - p / 100 + p / 400) == if IsLeap(q) then 1 else 0
  {
    var q := p + 1;
    assert q / 4 - p / 4 == if q % 4 == 0 then 1 else 0;
    assert q / 100 - p / 100 == if q % 100 == 0 then 1 else 0;
    assert q / 400 - p / 400 == if q % 400 == 0 then 1 else 0;
    assert q % 100 == 0 ==> q % 4 == 0 by {
      if q % 100 == 0 {
        assert q == 100 * (q / 100);
        assert q == 4 * (25 * (q / 100));
      }
    }
    assert q % 400 == 0 ==> q % 100 == 0 by {
      if q % 400 == 0 {
        assert q == 400 * (q / 400);
        assert q == 100 * (4 * (q / 400));
      }
    }
  }

  /** Consecutive days have consecutive weekdays, and a week later the
      weekday repeats. */
  lemma WeekdayNext(day: int)
    ensures Weekday(day + 1) == (Weekday(day) + 1) % 7
    ensures Weekday(day + 7) == Weekday(day)
  {
  }

  /** `d` days after a day, the weekday has moved on by `d` modulo 7. */
  lemma WeekdayShift(day: int, d: int)
    ensures Weekday(day + d) == (Weekday(day) + d) % 7
  {
  }

  /** The weekdays (Monday to Friday) in the days `a + 1` … `b`. */
  function CountTradingDays(a: int, b: int): nat
    decreases b - a
  {
    if b <= a then 0
    else CountTradingDays(a, b - 1) + TradingDay(Weekday(b))
  }

  /** Any seven consecutive days hold five weekdays. */
  lemma {:induction false} WeekHasFiveTradingDays(a: int)
    ensures CountTradingDays(a, a + 7) == 5
  {
    var w := Weekday(a + 1);
    assert CountTradingDays(a, a) == 0;
    CountStep(a, a + 1);
    CountStep(a, a + 2);
    WeekdayShift(a + 1, 1);
    CountStep(a, a + 3);
    WeekdayShift(a + 1, 2);
    CountStep(a, a + 4);
    WeekdayShift(a + 1, 3);
    CountStep(a, a + 5);
    WeekdayShift(a + 1, 4);
    CountStep(a, a + 6);
    WeekdayShift(a + 1, 5);
    CountStep(a, a + 7);
    WeekdayShift(a + 1, 6);
    FiveOfSeven(w);
  }

  lemma CountStep(a: int, b: int)
    requires a < b
    ensures CountTradingDays(a, b) == CountTradingDays(a, b - 1) + TradingDay(Weekday(b))
  {
  }

  function TradingDay(weekday: int): nat {
    if weekday < 5 then 1 else 0
  }

  lemma FiveOfSeven(w: int)
    requires 0 <= w < 7
    ensures TradingDay(w) + TradingDay((w + 1) % 7) + TradingDay((w + 2) % 7) + TradingDay((w + 3) % 7)
      + TradingDay((w + 4) % 7) + TradingDay((w + 5) % 7) + TradingDay((w + 6) % 7) == 5
  {
  }

  /** The first weekday on or after `day`. */
  function FirstTradingDay(day: int): int {
    day + (if Weekday(day) == 5 then 2 else if Weekday(day) == 6 then 1 else 0)
  }

  /** `FirstTradingDay` is a weekday at most two days on, and every day
      before it is a Saturday or a Sunday. */
  lemma FirstTradingDaySpec(day: int)
    ensures var r := FirstTradingDay(day);
      day <= r <= day + 2 && Weekday(r) < 5 && forall d :: day <= d < r ==> Weekday(d) >= 5
  {
  }

  /** `_next_trading_day`: step forward a day at a time until a weekday. */
  method NextTradingDay(base: int) returns (r: int)
    ensures r == FirstTradingDay(base)
  {
    r := base;
    while Weekday(r) >= 5
      invariant base <= r <= base + 2
      invariant r == base || (Weekday(base) >= 5 && r <= FirstTradingDay(base))
      invariant Weekday(r) == (Weekday(base) + (r - base)) % 7
      decreases if Weekday(r) >= 5 then 7 - Weekday(r) else 0
    {
      r := r + 1;
    }
  }

  /** `_add_trading_days`: from the next trading day, step forward a day at
      a time, counting the weekdays passed, until `days` have been counted.
      The result is a weekday exactly `max(days, 0)` weekdays after the
      starting trading day, and the first day with that count. */
  method AddTradingDays(base: int, days: int) returns (r: int)
    ensures FirstTradingDay(base) <= r && Weekday(r) < 5
    ensures CountTradingDays(FirstTradingDay(base), r) == if days > 0 then days else 0
    ensures days > 0 ==> CountTradingDays(FirstTradingDay(base), r - 1) == days - 1
  {
    var start := NextTradingDay(base);
    FirstTradingDaySpec(base);
    var current := start;
    var added := 0;
    while added < days
      invariant start <= current
      invariant 0 <= added <= if days > 0 then days else 0
      invariant CountTradingDays(start, current) == added
      invariant Weekday(current) < 5 || added < days
      invariant current > start && Weekday(current) < 5 ==> CountTradingDays(start, current - 1) == added - 1
      decreases days - added, 7 - Weekday(current)
    {
      current := current + 1;
      WeekdayNext(current - 1);
      if Weekday(current) < 5 {
        added := added + 1;
      }
    }
    r := current;
  }
}
