/** The week key that backup retention groups archives by. */
module WeekKey {
  import opened Wrappers

  const MS_PER_DAY := 86400000

  /** The largest time a date can hold, either side of the epoch. */
  const MAX_TIME := 8640000000000000

  /** A key: the UTC year and the week's number in it. Its text pads the number, which keeps keys apart. */
  datatype Key = Key(year: int, week: int)

  // ---- The calendar ----

  /** The day number, counted from 1 January 1970, on which a year starts. */
  function YearStart(y: int): int {
    365 * (y - 1970) + (y - 1969) / 4 - (y - 1901) / 100 + (y - 1601) / 400
  }

  predicate IsLeap(y: int) {
    y % 4 == 0 && (y % 100 != 0 || y % 400 == 0)
  }

  /** The formula gives every year its Gregorian length. */
  lemma YearLength(y: int)
    ensures YearStart(y + 1) - YearStart(y) == if IsLeap(y) then 366 else 365
  {
    Quarters(y - 1969);
    Centuries(y - 1901);
    FourCenturies(y - 1601);
    SameQuarter(y);
    SameCentury(y);
    SameFourCenturies(y);
    if y % 100 == 0 {
      CenturyEndsQuarter(y);
    }
    if y % 400 == 0 {
      FourCenturiesEndCentury(y);
    }
  }

  lemma SameQuarter(y: int)
    ensures (y - 1968) % 4 == y % 4
  {
  }

  lemma SameCentury(y: int)
    ensures (y - 1900) % 100 == y % 100
  {
    assert y - 1900 == 100 * (y / 100 - 19) + y % 100;
  }

  lemma SameFourCenturies(y: int)
    ensures (y - 1600) % 400 == y % 400
  {
    assert y - 1600 == 400 * (y / 400 - 4) + y % 400;
  }

  lemma Quarters(n: int)
    ensures (n + 1) / 4 == n / 4 + if (n + 1) % 4 == 0 then 1 else 0
  {
  }

  lemma Centuries(n: int)
    ensures (n + 1) / 100 == n / 100 + if (n + 1) % 100 == 0 then 1 else 0
  {
  }

  lemma FourCenturies(n: int)
    ensures (n + 1) / 400 == n / 400 + if (n + 1) % 400 == 0 then 1 else 0
  {
  }

  lemma CenturyEndsQuarter(y: int)
    requires y % 100 == 0
    ensures y % 4 == 0
  {
    assert y == 4 * (25 * (y / 100));
  }

  lemma FourCenturiesEndCentury(y: int)
    requires y % 400 == 0
    ensures y % 100 == 0
  {
    assert y == 100 * (4 * (y / 400));
  }

  lemma {:induction false} YearsStartInOrder(y: int, z: int)
    requires y < z
    ensures YearStart(y) + 365 * (z - y) <= YearStart(z)
    decreases z - y
  {
    YearLength(z - 1);
    if y < z - 1 {
      YearsStartInOrder(y, z - 1);
    }
  }

  predicate IsYearOf(y: int, day: int) {
    var next := y + 1;
    YearStart(y) <= day < YearStart(next)
  }

  function YearFrom(y: int, day: int): (r: int)
    requires YearStart(y) <= day
    ensures IsYearOf(r, day)
    decreases day - YearStart(y)
  {
    var next := y + 1;
    YearLength(y);
    if day < YearStart(next) then y else YearFrom(next, day)
  }

  function YearBack(y: int, day: int): (r: int)
    requires day < YearStart(y)
    ensures IsYearOf(r, day)
    decreases YearStart(y) - day
  {
    var previous := y - 1;
    YearLength(previous);
    if YearStart(previous) <= day then previous else YearBack(previous, day)
  }

  /** `getUTCFullYear` of a day. */
  function YearOf(day: int): (r: int)
    ensures IsYearOf(r, day)
  {
    if YearStart(1970) <= day then YearFrom(1970, day) else YearBack(1970, day)
  }

  lemma YearsFollow(y: int, z: int)
    requires y < z
    ensures var next := y + 1; YearStart(next) <= YearStart(z)
  {
    if y + 1 < z {
      YearsStartInOrder(y + 1, z);
    }
  }

  /** `getUTCDay`: 0 for Sunday. The epoch was a Thursday. */
  function Weekday(day: int): int {
    (day + 4) % 7
  }

  // ---- The key ----

  /** A time as a date holds it: whole milliseconds, towards zero. */
  function Truncated(mtime: real): int {
    if mtime >= 0.0 then mtime.Floor else -(-mtime).Floor
  }

  function DayOf(ms: int): int {
    ms / MS_PER_DAY
  }

  /** The day `Date.UTC(year, 0, 1)` falls on: years 0 to 99 are read as 1900 to 1999. */
  function FirstDay(year: int): int {
    YearStart(if 0 <= year <= 99 then 1900 + year else year)
  }

  /** The key of a time, or none for a time no date can hold: all those share one text. */
  function KeyOf(mtime: real): Option<Key> {
    var ms := Truncated(mtime);
    if -MAX_TIME <= ms <= MAX_TIME then Some(KeyOfTime(ms)) else None
  }

  function KeyOfTime(ms: int): Key {
    var year := YearOf(DayOf(ms));
    var dayOffset := (ms - FirstDay(year) * MS_PER_DAY) / MS_PER_DAY;
    Key(year, (dayOffset + Weekday(FirstDay(year))) / 7 + 1)
  }

  /** The Sunday that starts the day's week. */
  function SundayOf(day: int): int {
    day - Weekday(day)
  }

  lemma OffsetIsInDays(ms: int, first: int)
    ensures (ms - first * MS_PER_DAY) / MS_PER_DAY == DayOf(ms) - first
  {
  }

  lemma SundaysPassed(day: int, first: int)
    ensures (day - first + Weekday(first)) / 7 * 7 == SundayOf(day) - SundayOf(first)
  {
    var weeks, weeksBefore := (day + 4) / 7, (first + 4) / 7;
    assert SundayOf(day) == 7 * weeks - 4 && SundayOf(first) == 7 * weeksBefore - 4;
    assert day - first + Weekday(first) == 7 * (weeks - weeksBefore) + Weekday(day);
  }

  /** The number counts the Sundays passed since the week of the first day. */
  lemma WeekCountsSundays(ms: int)
    ensures var k := KeyOfTime(ms);
      k.year == YearOf(DayOf(ms)) && (k.week - 1) * 7 == SundayOf(DayOf(ms)) - SundayOf(FirstDay(k.year))
  {
    hide YearOf, FirstDay, SundayOf, Weekday, DayOf;
    var year := YearOf(DayOf(ms));
    OffsetIsInDays(ms, FirstDay(year));
    SundaysPassed(DayOf(ms), FirstDay(year));
  }

  /** Two times share a key exactly when they fall in the same UTC year and the same Sunday-to-Saturday week. */
  lemma SameKeyIffSameWeek(a: int, b: int)
    ensures KeyOfTime(a) == KeyOfTime(b) <==>
      YearOf(DayOf(a)) == YearOf(DayOf(b)) && SundayOf(DayOf(a)) == SundayOf(DayOf(b))
  {
    WeekCountsSundays(a);
    WeekCountsSundays(b);
  }

  lemma WeekInItsYear(ms: int)
    requires var year := YearOf(DayOf(ms)); !(0 <= year <= 99)
    ensures var k, day := KeyOfTime(ms), DayOf(ms);
      var first := YearStart(k.year);
      && 1 <= k.week <= 54
      && (k.week == 54 <==> Weekday(first) == 6 && day - first == 365)
  {
    var year := YearOf(DayOf(ms));
    YearLength(year);
    OffsetIsInDays(ms, FirstDay(year));
  }

  /** A year that is read as one of the twentieth century counts its weeks from there: backwards. */
  lemma WeekInAMisreadYear(ms: int)
    requires var year := YearOf(DayOf(ms)); 0 <= year <= 99
    ensures KeyOfTime(ms).week <= 0
  {
    var year := YearOf(DayOf(ms));
    YearsStartInOrder(year + 1, 1900 + year);
    OffsetIsInDays(ms, FirstDay(year));
  }

  /**
   * Weeks are numbered from 1 to 54 exactly in the years that are not read as another one. The 54th is reached there
   * only on the last day of a leap year that starts on a Saturday.
   */
  lemma WeekNumbers(ms: int)
    ensures var k, year := KeyOfTime(ms), YearOf(DayOf(ms));
      && (1 <= k.week <= 54 <==> !(0 <= year <= 99))
      && (k.week == 54 <==>
        !(0 <= year <= 99) && Weekday(YearStart(year)) == 6 && DayOf(ms) - YearStart(year) == 365)
  {
    hide YearOf, YearStart, FirstDay, Weekday, DayOf;
    var year := YearOf(DayOf(ms));
    if 0 <= year <= 99 {
      WeekInAMisreadYear(ms);
    } else {
      WeekInItsYear(ms);
    }
  }

  /** Years and weeks in the order of time. */
  predicate NotAfter(a: Key, b: Key) {
    a.year < b.year || (a.year == b.year && a.week <= b.week)
  }

  lemma KeysFollowTime(a: int, b: int)
    requires a <= b
    ensures NotAfter(KeyOfTime(a), KeyOfTime(b))
  {
    var y, z := YearOf(DayOf(a)), YearOf(DayOf(b));
    WeekCountsSundays(a);
    WeekCountsSundays(b);
    assert DayOf(a) <= DayOf(b);
    if z < y {
      YearsFollow(z, y);
    }
  }

  lemma TruncationFollowsTime(a: real, b: real)
    requires a <= b
    ensures Truncated(a) <= Truncated(b)
  {
  }

  // ---- Times to compare with ----

  /** A time has a key exactly while it is less than a millisecond beyond 8.64e15 either side of the epoch. */
  lemma HasKeyIff(mtime: real)
    ensures KeyOf(mtime).Some? <==> -8640000000000001.0 < mtime < 8640000000000001.0
  {
    hide KeyOfTime;
  }

  /** The calendar starts at the epoch, a Thursday, and years below 100 are read as the twentieth century's. */
  lemma EpochIsDayZero()
    ensures YearStart(1970) == 0 && Weekday(0) == 4
    ensures forall year :: FirstDay(year) == YearStart(if 0 <= year < 100 then year + 1900 else year)
  {
  }

  /** The first Sunday after the epoch starts a week, and parts of a millisecond are cut towards zero. */
  lemma KeysAroundTheEpoch()
    ensures KeyOf(0.0) == Some(Key(1970, 1)) && KeyOf(-0.5) == Some(Key(1970, 1))
    ensures KeyOf(259199999.0) == Some(Key(1970, 1)) && KeyOf(259199999.5) == Some(Key(1970, 1))
    ensures KeyOf(259200000.0) == Some(Key(1970, 2))
    ensures KeyOf(-1.0) == Some(Key(1969, 53))
  {
    hide KeyOfTime;
    KeyOnDay(0, 1970, 0);
    KeyOnDay(259199999, 1970, 2);
    KeyOnDay(259200000, 1970, 3);
    KeyOnDay(-1, 1969, -1);
  }

  lemma KeyOnDay(ms: int, year: int, day: int)
    requires (year == 1970 && 0 <= day < 365) || (year == 1969 && -365 <= day < 0)
    requires 0 <= ms - day * 86400000 < 86400000
    ensures KeyOfTime(ms) == Key(year, (if year == 1970 then day + 4 else day + 365 + 3) / 7 + 1)
  {
    hide YearOf;
    assert YearStart(1970) == 0 && YearStart(1971) == 365 && YearStart(1969) == -365;
    assert DayOf(ms) == day;
    OnlyYearOf(year, day);
    OffsetIsInDays(ms, FirstDay(year));
  }

  lemma OnlyYearOf(y: int, day: int)
    requires IsYearOf(y, day)
    ensures YearOf(day) == y
  {
    var z := YearOf(day);
    if y < z {
      YearsFollow(y, z);
    } else if z < y {
      YearsFollow(z, y);
    }
  }
}
