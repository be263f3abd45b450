/**
 The civil calendar that names archive directories (crates/ma-persist/src/writer.rs) and reads
 venue timestamps (crates/ma-venues/src/venues/common.rs), against the Gregorian rules of
 section 5.7 and Appendix C of RFC 3339.
 */
module Calendar {

  datatype Date = Date(year: int, month: int, day: int)

  /** Division that truncates toward zero, as the source language's does. */
  function Quot(a: int, b: int): int
    requires b > 0
  {
    if a >= 0 then a / b else -((-a) / b)
  }

  function CivilFromDays(days: int): Date {
    var z := days + 719_468;
    var era := Quot(if z >= 0 then z else z - 146_096, 146_097);
    DateInEra(era, z - era * 146_097)
  }

  function DateInEra(era: int, doe: int): Date {
    var yoe := Quot(doe - Quot(doe, 1460) + Quot(doe, 36_524) - Quot(doe, 146_096), 365);
    var y := yoe + era * 400;
    var doy := doe - (365 * yoe + Quot(yoe, 4) - Quot(yoe, 100));
    var mp := Quot(5 * doy + 2, 153);
    var d := doy - Quot(153 * mp + 2, 5) + 1;
    var m := if mp < 10 then mp + 3 else mp - 9;
    Date(if m <= 2 then y + 1 else y, m, d)
  }

  function DaysFromCivil(date: Date): int {
    var year := if date.month <= 2 then date.year - 1 else date.year;
    var era := Quot(if year >= 0 then year else year - 399, 400);
    var yoe := year - era * 400;
    var doy := Quot(153 * (date.month + if date.month > 2 then -3 else 9) + 2, 5) + date.day - 1;
    var doe := yoe * 365 + Quot(yoe, 4) - Quot(yoe, 100) + doy;
    era * 146_097 + doe - 719_468
  }

  ////////// The Gregorian calendar

  predicate Leap(year: int) {
    year % 4 == 0 && (year % 100 != 0 || year % 400 == 0)
  }

  function DaysIn(year: int, month: int): int {
    if month == 2 then (if Leap(year) then 29 else 28)
    else if month in {4, 6, 9, 11} then 30 else 31
  }

  predicate Valid(date: Date) {
    1 <= date.month <= 12 && 1 <= date.day <= DaysIn(date.year, date.month)
  }

  /** The date after this one. */
  function NextDay(date: Date): Date {
    if date.day < DaysIn(date.year, date.month) then date.(day := date.day + 1)
    else if date.month < 12 then Date(date.year, date.month + 1, 1)
    else Date(date.year + 1, 1, 1)
  }

  predicate Before(a: Date, b: Date) {
    || a.year < b.year
    || (a.year == b.year && a.month < b.month)
    || (a.year == b.year && a.month == b.month && a.day < b.day)
  }

  ////////// Years that start in March, in eras of 400

  /** The day of the era on which its year `y` begins. */
  function YearStart(y: int): int {
    365 * y + y / 4 - y / 100
  }

  /** Years of an era end with February, so the next one decides the leap day. */
  function YearLength(y: int): int {
    if Leap(y + 1) then 366 else 365
  }

  /** The day of the year on which month `mp`, counted from March, begins. */
  function MonthStart(mp: int): int {
    (153 * mp + 2) / 5
  }

  lemma EraIsFloor(z: int)
    ensures Quot(if z >= 0 then z else z - 146_096, 146_097) == z / 146_097
  {
    if z < 0 {
      var q, r := z / 146_097, z % 146_097;
      assert -(z - 146_096) == (-q) * 146_097 + (146_096 - r);
    }
  }

  lemma EraOfYearIsFloor(y: int)
    ensures Quot(if y >= 0 then y else y - 399, 400) == y / 400
  {
  }

  lemma Magnifies(b: int, d: int)
    requires b > 0
    ensures d >= 1 ==> b * d >= b
    ensures d <= -1 ==> b * d <= -b
  {
    if d >= 1 {
      assert b * (d - 1) >= 0;
    } else if d <= -1 {
      assert b * (-d - 1) >= 0;
    }
  }

  /** A quotient known by its remainder. */
  lemma QuotientIs(n: int, b: int, k: int)
    requires b > 0 && 0 <= n - k * b < b
    ensures n / b == k && n % b == n - k * b
  {
    var d := n / b - k;
    assert b * d == (n - n % b) - k * b;
    Magnifies(b, d);
  }

  lemma YearParts(y: int) returns (c: int, q: int, s: int)
    requires 0 <= y < 400
    ensures y == 100 * c + 4 * q + s && 0 <= c < 4 && 0 <= q < 25 && 0 <= s < 4
    ensures YearStart(y) == 36_524 * c + 1461 * q + 365 * s
    ensures Leap(y + 1) <==> s == 3 && (q == 24 ==> c == 3)
  {
    c, q, s := y / 100, y % 100 / 4, y % 4;
  }

  /** The closed formula finds the year of the era: its four divisions undo the leap days one by one. */
  lemma YearOfDay(y: int, doy: int)
    requires 0 <= y < 400 && 0 <= doy < YearLength(y)
    ensures var doe := YearStart(y) + doy;
            0 <= doe <= 146_096 && (doe - doe / 1460 + doe / 36_524 - doe / 146_096) / 365 == y
  {
    var c, q, s := YearParts(y);
    var doe := YearStart(y) + doy;
    var last := if doe == 146_096 then 1 else 0;
    assert doe <= 146_096;
    QuotientIs(doe, 36_524, c + last);
    QuotientIs(doe, 146_096, last);
    var late := if s == 3 && doy >= 365 - 24 * c - q then 1 else 0;
    QuotientIs(doe, 1460, 25 * c + q + late);
    QuotientIs(doe - doe / 1460 + doe / 36_524 - doe / 146_096, 365, y);
  }

  /** Every day of an era is a day of one of its years. */
  lemma YearOfEra(doe: int) returns (y: int)
    requires 0 <= doe <= 146_096
    ensures 0 <= y < 400 && 0 <= doe - YearStart(y) < YearLength(y)
  {
    y := 0;
    while doe - YearStart(y) >= YearLength(y)
      invariant 0 <= y < 400 && YearStart(y) <= doe
      decreases 400 - y
    {
      y := y + 1;
    }
  }

  lemma MonthOfDay(mp: int, doy: int)
    requires 0 <= mp <= 11 && MonthStart(mp) <= doy <= 365 && (mp < 11 ==> doy < MonthStart(mp + 1))
    ensures (5 * doy + 2) / 153 == mp
  {
  }

  ////////// A date by its parts

  /** Era, year of the era, month from March, and day of the month. */
  datatype Parts = Parts(era: int, y: int, mp: int, d: int)

  function MonthLength(y: int, mp: int): int {
    (if mp < 11 then MonthStart(mp + 1) else YearLength(y)) - MonthStart(mp)
  }

  predicate Proper(p: Parts) {
    0 <= p.y < 400 && 0 <= p.mp <= 11 && 1 <= p.d <= MonthLength(p.y, p.mp)
  }

  /** The day a date is, counted from 0000-03-01. */
  function DayOf(p: Parts): int {
    p.era * 146_097 + YearStart(p.y) + MonthStart(p.mp) + p.d - 1
  }

  function DateOf(p: Parts): Date {
    Date((if p.mp < 10 then p.y else p.y + 1) + 400 * p.era, if p.mp < 10 then p.mp + 3 else p.mp - 9, p.d)
  }

  function Following(p: Parts): Parts {
    if p.d < MonthLength(p.y, p.mp) then p.(d := p.d + 1)
    else if p.mp < 11 then Parts(p.era, p.y, p.mp + 1, 1)
    else if p.y < 399 then Parts(p.era, p.y + 1, 0, 1)
    else Parts(p.era + 1, 0, 0, 1)
  }

  lemma DayHasParts(z: int) returns (p: Parts)
    ensures Proper(p) && DayOf(p) == z
  {
    var y := YearOfEra(z % 146_097);
    var doy := z % 146_097 - YearStart(y);
    var mp := (5 * doy + 2) / 153;
    p := Parts(z / 146_097, y, mp, doy - MonthStart(mp) + 1);
  }

  lemma LeapRepeats(year: int, era: int)
    ensures Leap(year + 400 * era) <==> Leap(year)
  {
    QuotientIs(year + 400 * era, 4, year / 4 + 100 * era);
    QuotientIs(year + 400 * era, 100, year / 100 + 4 * era);
    QuotientIs(year + 400 * era, 400, year / 400 + era);
  }

  lemma MonthLengthIsDaysIn(p: Parts)
    requires 0 <= p.y < 400 && 0 <= p.mp <= 11
    ensures DaysIn(DateOf(p).year, DateOf(p).month) == MonthLength(p.y, p.mp)
  {
    LeapRepeats(p.y + 1, p.era);
  }

  lemma DateHasParts(date: Date) returns (p: Parts)
    requires Valid(date)
    ensures Proper(p) && DateOf(p) == date
  {
    var year := if date.month <= 2 then date.year - 1 else date.year;
    p := Parts(year / 400, year % 400, if date.month > 2 then date.month - 3 else date.month + 9, date.day);
    assert DateOf(p) == date;
    MonthLengthIsDaysIn(p);
  }

  lemma YearsFollow(y: int)
    requires 0 <= y < 400
    ensures y < 399 ==> YearStart(y + 1) == YearStart(y) + YearLength(y)
    ensures y == 399 ==> YearStart(y) + YearLength(y) == 146_097
  {
    var c, q, s := YearParts(y);
    if y < 399 {
      var c', q', s' := YearParts(y + 1);
    }
  }

  lemma FollowingIsNextDay(p: Parts)
    requires Proper(p)
    ensures Proper(Following(p)) && DayOf(Following(p)) == DayOf(p) + 1
  {
    YearsFollow(p.y);
  }

  lemma FollowingIsNextDate(p: Parts)
    requires Proper(p)
    ensures DateOf(Following(p)) == NextDay(DateOf(p))
  {
    MonthLengthIsDaysIn(p);
  }

  /** A day's place in its year picks out its month. */
  lemma MonthFits(p: Parts)
    requires Proper(p)
    ensures var doy := MonthStart(p.mp) + p.d - 1;
            0 <= doy < YearLength(p.y) && (5 * doy + 2) / 153 == p.mp
  {
    MonthOfDay(p.mp, MonthStart(p.mp) + p.d - 1);
  }

  lemma EraFits(p: Parts)
    requires Proper(p)
    ensures var z := DayOf(p);
            z / 146_097 == p.era && z - p.era * 146_097 == YearStart(p.y) + MonthStart(p.mp) + p.d - 1
  {
    MonthFits(p);
    YearOfDay(p.y, MonthStart(p.mp) + p.d - 1);
    QuotientIs(DayOf(p), 146_097, p.era);
  }

  ////////// The formulas and the calendar

  lemma CivilFromDaysIs(p: Parts)
    requires Proper(p)
    ensures CivilFromDays(DayOf(p) - 719_468) == DateOf(p)
  {
    EraOfDay(p);
    DateOfParts(p);
  }

  lemma EraOfDay(p: Parts)
    requires Proper(p)
    ensures Quot(if DayOf(p) >= 0 then DayOf(p) else DayOf(p) - 146_096, 146_097) == p.era
  {
    EraFits(p);
    EraIsFloor(DayOf(p));
  }

  lemma DateOfParts(p: Parts)
    requires Proper(p)
    ensures DateInEra(p.era, DayOf(p) - p.era * 146_097) == DateOf(p)
  {
    MonthFits(p);
    YearOfDay(p.y, MonthStart(p.mp) + p.d - 1);
    DateInEraIs(p.era, YearStart(p.y) + MonthStart(p.mp) + p.d - 1, p);
  }

  lemma DateInEraIs(era: int, doe: int, p: Parts)
    requires p.era == era && 0 <= p.y < 400 && 0 <= p.mp <= 11
    requires 0 <= doe == YearStart(p.y) + MonthStart(p.mp) + p.d - 1
    requires (doe - doe / 1460 + doe / 36_524 - doe / 146_096) / 365 == p.y
    requires var doy := MonthStart(p.mp) + p.d - 1; 0 <= doy && (5 * doy + 2) / 153 == p.mp
    ensures DateInEra(era, doe) == DateOf(p)
  {
  }

  lemma DaysFromCivilIs(p: Parts)
    requires Proper(p)
    ensures DaysFromCivil(DateOf(p)) == DayOf(p) - 719_468
  {
    var year := p.y + 400 * p.era;
    EraOfYearIsFloor(year);
    QuotientIs(year, 400, p.era);
  }

  lemma DateOfIsValid(p: Parts)
    requires Proper(p)
    ensures Valid(DateOf(p))
  {
    MonthLengthIsDaysIn(p);
  }

  /** Every day has a valid date, and that date gives the day back. */
  lemma DaysRoundTrip(days: int)
    ensures Valid(CivilFromDays(days)) && DaysFromCivil(CivilFromDays(days)) == days
  {
    var p := DayHasParts(days + 719_468);
    CivilFromDaysIs(p);
    DaysFromCivilIs(p);
    DateOfIsValid(p);
  }

  /** Every valid date has a day, and that day gives the date back. */
  lemma DatesRoundTrip(date: Date)
    requires Valid(date)
    ensures CivilFromDays(DaysFromCivil(date)) == date
  {
    var p := DateHasParts(date);
    DaysFromCivilIs(p);
    CivilFromDaysIs(p);
  }

  lemma DayZero()
    ensures CivilFromDays(0) == Date(1970, 1, 1)
  {
  }

  lemma DayIsDateOf(days: int, p: Parts)
    requires Proper(p) && DayOf(p) == days + 719_468
    ensures CivilFromDays(days) == DateOf(p)
  {
    CivilFromDaysIs(p);
  }

  lemma NextDayHasNextParts(days: int, p: Parts)
    requires Proper(p) && DayOf(p) == days + 719_468
    ensures CivilFromDays(days + 1) == DateOf(Following(p))
  {
    FollowingIsNextDay(p);
    DayIsDateOf(days + 1, Following(p));
  }

  /** Counting days walks the calendar date by date. */
  lemma DaysFollowTheCalendar(days: int)
    ensures CivilFromDays(days + 1) == NextDay(CivilFromDays(days))
  {
    var p := DayHasParts(days + 719_468);
    DayIsDateOf(days, p);
    NextDayHasNextParts(days, p);
    FollowingIsNextDate(p);
  }

  lemma BeforeTheNext(a: Date, b: Date)
    requires Valid(b) && (a == b || Before(a, b))
    ensures Before(a, NextDay(b))
  {
  }

  /** A walk of the calendar goes forward in date order. */
  lemma {:induction false} WalkGoesForward(f: int -> Date, a: int, b: int)
    requires a < b && forall d | a <= d < b :: Valid(f(d)) && f(d + 1) == NextDay(f(d))
    ensures Before(f(a), f(b))
    decreases b - a
  {
    if a + 1 < b {
      WalkGoesForward(f, a, b - 1);
    }
    assert Valid(f(b - 1)) && f(b - 1 + 1) == NextDay(f(b - 1));
    BeforeTheNext(f(a), f(b - 1));
  }

  lemma LaterIsAfter(a: int, b: int)
    requires a < b
    ensures Before(CivilFromDays(a), CivilFromDays(b))
  {
    forall d | a <= d < b
      ensures Valid(CivilFromDays(d)) && CivilFromDays(d + 1) == NextDay(CivilFromDays(d))
    {
      DaysRoundTrip(d);
      DaysFollowTheCalendar(d);
    }
    WalkGoesForward(CivilFromDays, a, b);
  }

  /** Later days have later dates, and only later days do. */
  lemma DatesKeepOrder(a: int, b: int)
    ensures a < b <==> Before(CivilFromDays(a), CivilFromDays(b))
  {
    if a < b {
      LaterIsAfter(a, b);
    } else if b < a {
      LaterIsAfter(b, a);
    }
  }
}
