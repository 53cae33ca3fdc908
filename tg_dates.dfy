/** The date helpers of the reference trading script: the monthly option
    expiry (`option_expiration`), the Yahoo date format
    (`fcn_convert_date_intoYahoo_fin_format`) and the market-hours test
    (`fcn_isNYSE_open`). */
module TgDates {
  import opened Calendar
  import opened PySeq

  // ------------------------------------------------------------ expiry

  /** The day of the month `option_expiration` picks:
      `21 - (weekday(year, month, 1) + 2) % 7`. */
  function OptionExpirationDay(year: int, month: int): int
    requires 1 <= year <= 9999 && 1 <= month <= 12
  {
    21 - (Weekday(Ordinal(year, month, 1)) + 2) % 7
  }

  /** The chosen day is the third Friday of the month: it lies in 15 … 21,
      it is a Friday, and the only Fridays before it in the month are one
      and two weeks earlier. */
  lemma OptionExpirationIsThirdFriday(year: int, month: int)
    requires 1 <= year <= 9999 && 1 <= month <= 12
    ensures var d := OptionExpirationDay(year, month);
      && 15 <= d <= 21 && ValidDate(year, month, d)
      && Weekday(Ordinal(year, month, d)) == 4
      && Weekday(Ordinal(year, month, d - 7)) == 4
      && Weekday(Ordinal(year, month, d - 14)) == 4
      && forall e :: 1 <= e < d && ValidDate(year, month, e) && Weekday(Ordinal(year, month, e)) == 4 ==>
           e == d - 7 || e == d - 14
  {
    var w := Weekday(Ordinal(year, month, 1));
    var d := OptionExpirationDay(year, month);
    ThirdFriday(w);
    DayOfMonthWeekday(year, month, d);
    DayOfMonthWeekday(year, month, d - 7);
    DayOfMonthWeekday(year, month, d - 14);
    forall e | 1 <= e < d && ValidDate(year, month, e) && Weekday(Ordinal(year, month, e)) == 4
      ensures e == d - 7 || e == d - 14
    {
      DayOfMonthWeekday(year, month, e);
      EarlierFriday(w, e);
    }
  }

  /** The weekday of day `e` of a month, counted from that of its first day. */
  lemma DayOfMonthWeekday(year: int, month: int, e: int)
    requires ValidDate(year, month, e)
    ensures Weekday(Ordinal(year, month, e)) == (Weekday(Ordinal(year, month, 1)) + e - 1) % 7
  {
    var first := Ordinal(year, month, 1);
    assert Ordinal(year, month, e) == first + (e - 1);
    WeekdayShift(first, e - 1);
  }

  /** The third-Friday arithmetic for a month starting on weekday `w`. */
  lemma ThirdFriday(w: int)
    requires 0 <= w < 7
    ensures var d := 21 - (w + 2) % 7;
      && 15 <= d <= 21
      && (w + d - 1) % 7 == 4 && (w + (d - 7) - 1) % 7 == 4 && (w + (d - 14) - 1) % 7 == 4
  {
  }

  /** … and the only earlier Fridays of such a month. */
  lemma EarlierFriday(w: int, e: int)
    requires 0 <= w < 7 && 1 <= e < 21 - (w + 2) % 7 && (w + e - 1) % 7 == 4
    ensures e == 21 - (w + 2) % 7 - 7 || e == 21 - (w + 2) % 7 - 14
  {
  }

  // ------------------------------------------------------------ Yahoo format

  /** `date_str_[5:7] + '/' + date_str_[8:10] + '/' + date_str_[:4]` */
  function YahooFormat(date: string): (r: string)
  {
    Slice(date, 5, 7) + "/" + Slice(date, 8, 10) + "/" + SliceTo(date, 4)
  }

  /** A string that starts like `YYYY-MM-DD` (as `str()` of a date or a
      datetime does). */
  predicate IsoShaped(date: string) {
    |date| >= 10 && date[4] == '-' && date[7] == '-'
  }

  /** An ISO date becomes month, day, year separated by slashes. */
  lemma YahooFormatIso(date: string)
    requires |date| >= 10
    ensures YahooFormat(date) == date[5..7] + "/" + date[8..10] + "/" + date[..4]
    ensures |YahooFormat(date)| == 10
  {
    assert Slice(date, 5, 7) == date[5..7];
    assert Slice(date, 8, 10) == date[8..10];
  }

  /** The reverse reformat, from `MM/DD/YYYY` to `YYYY-MM-DD`. */
  function FromYahoo(date: string): string
    requires |date| == 10
  {
    date[6..10] + "-" + date[..2] + "-" + date[3..5]
  }

  /** The reformat loses nothing of a `YYYY-MM-DD` date. */
  lemma YahooRoundTrip(date: string)
    requires IsoShaped(date)
    ensures FromYahoo(YahooFormat(date)) == date[..10]
  {
    YahooFormatIso(date);
    var y := YahooFormat(date);
    assert y[6..10] == date[..4] && y[..2] == date[5..7] && y[3..5] == date[8..10];
    assert date[..10] == date[..4] + "-" + date[5..7] + "-" + date[8..10];
  }

  // ------------------------------------------------------------ market hours

  /** `datetime.time`: hour, minute, second and microsecond. */
  datatype TimeOfDay = TimeOfDay(hour: int, minute: int, second: int, microsecond: int)

  predicate ValidTime(t: TimeOfDay) {
    0 <= t.hour < 24 && 0 <= t.minute < 60 && 0 <= t.second < 60 && 0 <= t.microsecond < 1000000
  }

  /** `a < b` for times: by hour, then minute, then second, then
      microsecond. */
  predicate Before(a: TimeOfDay, b: TimeOfDay) {
    a.hour < b.hour || (a.hour == b.hour &&
      (a.minute < b.minute || (a.minute == b.minute &&
        (a.second < b.second || (a.second == b.second && a.microsecond < b.microsecond)))))
  }

  /** Microseconds since midnight. */
  function Micros(t: TimeOfDay): int {
    ((t.hour * 60 + t.minute) * 60 + t.second) * 1000000 + t.microsecond
  }

  /** Comparing times field by field is comparing the instants they name. */
  lemma BeforeMicros(a: TimeOfDay, b: TimeOfDay)
    requires ValidTime(a) && ValidTime(b)
    ensures Before(a, b) <==> Micros(a) < Micros(b)
  {
    SecondsBefore(a, b);
    assert Micros(a) == SecondOf(a) * 1000000 + a.microsecond;
    assert Micros(b) == SecondOf(b) * 1000000 + b.microsecond;
  }

  function SecondOf(t: TimeOfDay): int {
    (t.hour * 60 + t.minute) * 60 + t.second
  }

  lemma SecondsBefore(a: TimeOfDay, b: TimeOfDay)
    requires ValidTime(a) && ValidTime(b)
    ensures (a.hour < b.hour || (a.hour == b.hour && (a.minute < b.minute ||
              (a.minute == b.minute && a.second < b.second)))) <==> SecondOf(a) < SecondOf(b)
    ensures SecondOf(a) == SecondOf(b) <==> a.hour == b.hour && a.minute == b.minute && a.second == b.second
  {
  }

  const OpenTime := TimeOfDay(9, 0, 0, 0)
  const CloseTime := TimeOfDay(16, 6, 0, 0)

  /** `fcn_isNYSE_open` at the local time `now` on the day with ordinal
      `day`: closed before 09:00:00, after 16:06:00, and on Saturdays and
      Sundays. */
  function IsNyseOpen(day: int, now: TimeOfDay): bool
  {
    if Before(now, OpenTime) || Before(CloseTime, now) then false
    else if Weekday(day) > 4 then false
    else true
  }

  /** Open exactly on weekdays from 09:00:00.000000 up to and including
      16:06:00.000000. */
  lemma IsNyseOpenSpec(day: int, now: TimeOfDay)
    requires ValidTime(now)
    ensures IsNyseOpen(day, now) <==>
      9 * 3600 * 1000000 <= Micros(now) <= (16 * 3600 + 6 * 60) * 1000000 && Weekday(day) < 5
  {
    BeforeMicros(now, OpenTime);
    BeforeMicros(CloseTime, now);
  }
}
