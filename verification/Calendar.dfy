/** The calendar arithmetic of cli.rs: days since 1970-01-01 to a civil date,
    against the calendar of RFC 3339 (month lengths of section 5.7, leap years
    of Appendix C). */
module Calendar {

  datatype Date = Date(year: int, month: int, day: int)

  /** Integer division as i64 does it: toward zero. */
  function TruncDiv(a: int, b: int): int
    requires b > 0
  {
    if a >= 0 then a / b else -((-a) / b)
  }

  function Era(z: int): int {
    TruncDiv(if z >= 0 then z else z - 146096, 146097)
  }

  /** Day of the 400-year era, counted from 1 March. */
  function DayOfEra(z: int): int {
    z - Era(z) * 146097
  }

  function YearOfEra(doe: int): int {
    (doe - doe / 1460 + doe / 36524 - doe / 146096) / 365
  }

  function DayOfYear(doe: int): int {
    var yoe := YearOfEra(doe);
    doe - (365 * yoe + yoe / 4 - yoe / 100)
  }

  /** Months counted from March. */
  function MonthIndex(doy: int): int {
    (5 * doy + 2) / 153
  }

  /** `civil_from_days`. */
  function CivilFromDays(days: int): Date {
    var z := days + 719468;
    var era := Era(z);
    var doe := DayOfEra(z);
    var yoe := YearOfEra(doe);
    var y := yoe + era * 400;
    var doy := DayOfYear(doe);
    var mp := MonthIndex(doy);
    var d := doy - (153 * mp + 2) / 5 + 1;
    var m := if mp < 10 then mp + 3 else mp - 9;
    Date(if m <= 2 then y + 1 else y, m, d)
  }

  // ----- the calendar

  predicate IsLeap(year: int) {
    year % 4 == 0 && (year % 100 != 0 || year % 400 == 0)
  }

  function DaysInMonth(year: int, month: int): int {
    if month == 2 then (if IsLeap(year) then 29 else 28)
    else if month == 4 || month == 6 || month == 9 || month == 11 then 30
    else 31
  }

  predicate IsDate(d: Date) {
    1 <= d.month <= 12 && 1 <= d.day <= DaysInMonth(d.year, d.month)
  }

  /** The day after. */
  function Successor(d: Date): Date {
    if d.day < DaysInMonth(d.year, d.month) then Date(d.year, d.month, d.day + 1)
    else if d.month < 12 then Date(d.year, d.month + 1, 1)
    else Date(d.year + 1, 1, 1)
  }

  // ----- the era

  lemma EraIsFloor(z: int)
    ensures Era(z) == z / 146097
    ensures 0 <= DayOfEra(z) < 146097
  {
  }

  /** Days before year yoe of the era (years begin on 1 March). */
  function YearStart(yoe: int): int {
    365 * yoe + yoe / 4 - yoe / 100
  }

  /** The days of year yoe of an era: it is long when the February at its end
      is, which in the last year of the era ends in a leap day too. */
  function YearLength(yoe: int): int {
    if yoe == 399 || ((yoe + 1) % 4 == 0 && (yoe + 1) % 100 != 0) then 366 else 365
  }

  /** The parts of a day of the era: century, four-year cycle, year, day. */
  predicate Parts(doe: int, c: int, q: int, y: int, w: int) {
    && 0 <= c < 4 && 0 <= q < 25 && 0 <= y < 4
    && doe == 36524 * c + 1461 * q + 365 * y + w
    && 0 <= w < YearLength(100 * c + 4 * q + y)
  }

  lemma YearOfParts(c: int, q: int, y: int)
    requires 0 <= c < 4 && 0 <= q < 25 && 0 <= y < 4
    ensures var yoe := 100 * c + 4 * q + y;
      && YearStart(yoe) == 36524 * c + 1461 * q + 365 * y
      && YearLength(yoe) == (if y == 3 && (q < 24 || c == 3) then 366 else 365)
  {
  }

  lemma QuotientShift(k: int, r: int)
    ensures (1460 * k + r) / 1460 == k + r / 1460
  {
  }

  lemma CenturyOfParts(doe: int, c: int, q: int, y: int, w: int)
    requires Parts(doe, c, q, y, w)
    ensures doe / 36524 - doe / 146096 == c
  {
    hide YearLength;
    YearOfParts(c, q, y);
    var e := 1461 * q + 365 * y + w;
    assert doe == 36524 * c + e && 0 <= e <= 36524 && (e == 36524 ==> c == 3);
    if e < 36524 {
      assert doe / 36524 == c;
      assert doe < 146096;
    }
  }

  /** The day of the era less the leap days the formula takes away. */
  lemma FormulaOfParts(doe: int, c: int, q: int, y: int, w: int)
    requires Parts(doe, c, q, y, w)
    ensures doe / 1460 == 25 * c + q + (24 * c + q + 365 * y + w) / 1460
    ensures doe / 36524 - doe / 146096 == c
  {
    hide YearLength;
    CenturyOfParts(doe, c, q, y, w);
    QuotientShift(25 * c + q, 24 * c + q + 365 * y + w);
  }

  lemma YearFound(doe: int, c: int, q: int, y: int, w: int)
    requires Parts(doe, c, q, y, w)
    ensures YearOfEra(doe) == 100 * c + 4 * q + y
  {
    YearOfParts(c, q, y);
    FormulaOfParts(doe, c, q, y, w);
    var over := (24 * c + q + 365 * y + w) / 1460;
    assert 0 <= over <= 1;
    assert over == 1 ==> w >= 1;
    assert w == 365 ==> over == 1;
    assert doe - doe / 1460 + doe / 36524 - doe / 146096 == 365 * (100 * c + 4 * q + y) + (w - over);
  }

  lemma PartsExist(doe: int) returns (c: int, q: int, y: int, w: int)
    requires 0 <= doe < 146097
    ensures Parts(doe, c, q, y, w)
  {
    c := if doe == 146096 then 3 else doe / 36524;
    var r := doe - 36524 * c;
    q := r / 1461;
    var s := r - 1461 * q;
    y := if s / 365 == 4 then 3 else s / 365;
    w := s - 365 * y;
    YearOfParts(c, q, y);
  }

  /** The year found contains the day, and only that year does. */
  lemma YearContains(doe: int)
    requires 0 <= doe < 146097
    ensures var yoe := YearOfEra(doe);
      0 <= yoe < 400 && YearStart(yoe) <= doe < YearStart(yoe) + YearLength(yoe)
  {
    var c, q, y, w := PartsExist(doe);
    YearFound(doe, c, q, y, w);
    YearOfParts(c, q, y);
  }

  /** A day counted into a year of the era is found in that year. */
  lemma YearIsFound(yoe: int, doy: int)
    requires 0 <= yoe < 400 && 0 <= doy < YearLength(yoe)
    ensures 0 <= YearStart(yoe) + doy < 146097
    ensures YearOfEra(YearStart(yoe) + doy) == yoe
  {
    var c := yoe / 100;
    var q := (yoe - 100 * c) / 4;
    var y := yoe - 100 * c - 4 * q;
    YearOfParts(c, q, y);
    YearFound(YearStart(yoe) + doy, c, q, y, doy);
  }

  // ----- months, counted from March

  function MonthStart(mp: int): int {
    (153 * mp + 2) / 5
  }

  /** The calendar month with index mp, and its length in a year of the era. */
  function MonthOf(mp: int): int {
    if mp < 10 then mp + 3 else mp - 9
  }

  function MonthLength(yoe: int, mp: int): int {
    if mp == 11 then YearLength(yoe) - 337
    else if mp == 1 || mp == 3 || mp == 6 || mp == 8 then 30
    else 31
  }

  /** The months of a year follow one another and fill it. */
  lemma MonthsFollow(yoe: int, mp: int)
    requires 0 <= mp < 12
    ensures mp < 11 ==> MonthStart(mp) + MonthLength(yoe, mp) == MonthStart(mp + 1)
    ensures MonthStart(0) == 0 && MonthStart(11) == 337
    ensures MonthStart(mp) + MonthLength(yoe, mp) <= YearLength(yoe)
    ensures MonthStart(11) + MonthLength(yoe, 11) == YearLength(yoe)
  {
  }

  lemma MonthFound(yoe: int, mp: int, doy: int)
    requires 0 <= mp < 12 && MonthStart(mp) <= doy < MonthStart(mp) + MonthLength(yoe, mp)
    ensures MonthIndex(doy) == mp && 0 <= doy < YearLength(yoe)
  {
  }

  lemma MonthContains(yoe: int, doy: int)
    requires 0 <= doy < YearLength(yoe)
    ensures var mp := MonthIndex(doy);
      0 <= mp < 12 && MonthStart(mp) <= doy < MonthStart(mp) + MonthLength(yoe, mp)
  {
  }

  lemma Remainder400(era: int, y: int)
    ensures (400 * era + y) % 400 == y % 400
  {
    assert 400 * era + y == 400 * (era + y / 400) + y % 400;
    Of400(era + y / 400, y % 400);
  }

  lemma Of400(k: int, r: int)
    requires 0 <= r < 400
    ensures (400 * k + r) % 400 == r
  {
  }

  lemma Remainder100(era: int, y: int)
    ensures (400 * era + y) % 100 == y % 100
  {
    assert 400 * era + y == 100 * (4 * era + y / 100) + y % 100;
    Of100(4 * era + y / 100, y % 100);
  }

  lemma Of100(k: int, r: int)
    requires 0 <= r < 100
    ensures (100 * k + r) % 100 == r
  {
  }

  lemma Remainder4(era: int, y: int)
    ensures (400 * era + y) % 4 == y % 4
  {
    assert 400 * era + y == 4 * (100 * era + y / 4) + y % 4;
    Of4(100 * era + y / 4, y % 4);
  }

  lemma Of4(k: int, r: int)
    requires 0 <= r < 4
    ensures (4 * k + r) % 4 == r
  {
  }

  lemma LongInEra(yoe: int)
    requires 0 <= yoe < 400
    ensures (YearLength(yoe) == 366) <==> IsLeap(yoe + 1)
  {
  }

  /** A year of the era is long just when the calendar year its February falls
      in is a leap year. */
  lemma LongIsLeap(era: int, yoe: int)
    requires 0 <= yoe < 400
    ensures (YearLength(yoe) == 366) <==> IsLeap(400 * era + yoe + 1)
  {
    hide YearLength;
    Remainder400(era, yoe + 1);
    Remainder100(era, yoe + 1);
    Remainder4(era, yoe + 1);
    LongInEra(yoe);
  }

  /** Month lengths counted from March are the calendar's. */
  lemma MonthLengthIsCalendar(era: int, yoe: int, mp: int)
    requires 0 <= yoe < 400 && 0 <= mp < 12
    ensures var m := MonthOf(mp);
      MonthLength(yoe, mp) == DaysInMonth(if m <= 2 then 400 * era + yoe + 1 else 400 * era + yoe, m)
  {
    LongIsLeap(era, yoe);
  }

  // ----- days and dates are in bijection

  /** The inverse: the day number of a date. */
  function DaysFromCivil(d: Date): int {
    var y := if d.month <= 2 then d.year - 1 else d.year;
    var mp := if d.month <= 2 then d.month + 9 else d.month - 3;
    y / 400 * 146097 + YearStart(y % 400) + MonthStart(mp) + d.day - 1 - 719468
  }

  lemma EraOfYear(era: int, yoe: int)
    requires 0 <= yoe < 400
    ensures (yoe + era * 400) / 400 == era && (yoe + era * 400) % 400 == yoe
  {
  }

  /** The date of a day given by era, year, month and day. */
  lemma CivilOfParts(days: int, era: int, yoe: int, mp: int, day: int)
    requires 0 <= yoe < 400 && 0 <= mp < 12 && 1 <= day <= MonthLength(yoe, mp)
    requires days + 719468 == era * 146097 + (YearStart(yoe) + (MonthStart(mp) + day - 1))
    ensures var m := MonthOf(mp);
      CivilFromDays(days) == Date(if m <= 2 then yoe + era * 400 + 1 else yoe + era * 400, m, day)
  {
    hide YearOfEra, YearStart, YearLength, MonthStart, MonthIndex, Era;
    var doy := MonthStart(mp) + day - 1;
    MonthFound(yoe, mp, doy);
    YearIsFound(yoe, doy);
    EraOfDay(era, YearStart(yoe) + doy);
    YearStartIs(yoe);
    MonthStartIs(mp);
  }

  lemma YearStartIs(yoe: int)
    ensures YearStart(yoe) == 365 * yoe + yoe / 4 - yoe / 100
  {
  }

  lemma MonthStartIs(mp: int)
    ensures MonthStart(mp) == (153 * mp + 2) / 5
  {
  }

  /** Every day number is a date of the calendar, and its inverse's image. */
  lemma CivilIsDate(days: int)
    ensures IsDate(CivilFromDays(days))
    ensures DaysFromCivil(CivilFromDays(days)) == days
  {
    hide CivilFromDays, YearOfEra, YearStart, YearLength, MonthStart, MonthLength, MonthIndex, Era, DaysInMonth;
    var z := days + 719468;
    var era, doe := Era(z), DayOfEra(z);
    EraIsFloor(z);
    YearContains(doe);
    var yoe := YearOfEra(doe);
    var doy := doe - YearStart(yoe);
    MonthContains(yoe, doy);
    var mp := MonthIndex(doy);
    MonthLengthIsCalendar(era, yoe, mp);
    EraOfYear(era, yoe);
    CivilOfParts(days, era, yoe, mp, doy - MonthStart(mp) + 1);
  }

  /** Every date of the calendar is the date of its day number. */
  lemma DateHasNumber(d: Date)
    requires IsDate(d)
    ensures CivilFromDays(DaysFromCivil(d)) == d
  {
    hide CivilFromDays, YearStart, MonthStart, MonthLength, DaysInMonth;
    var y := if d.month <= 2 then d.year - 1 else d.year;
    var mp := if d.month <= 2 then d.month + 9 else d.month - 3;
    MonthLengthIsCalendar(y / 400, y % 400, mp);
    CivilOfParts(DaysFromCivil(d), y / 400, y % 400, mp, d.day);
  }

  lemma EraOfDay(era: int, doe: int)
    requires 0 <= doe < 146097
    ensures Era(era * 146097 + doe) == era && DayOfEra(era * 146097 + doe) == doe
  {
    EraIsFloor(era * 146097 + doe);
  }

  /** The day after a date is a date, one day later. */
  lemma SuccessorIsNext(d: Date)
    requires IsDate(d)
    ensures IsDate(Successor(d)) && DaysFromCivil(Successor(d)) == DaysFromCivil(d) + 1
  {
    hide YearStart, MonthStart, MonthLength, YearLength;
    var y := if d.month <= 2 then d.year - 1 else d.year;
    var mp := if d.month <= 2 then d.month + 9 else d.month - 3;
    MonthLengthIsCalendar(y / 400, y % 400, mp);
    assert y == y % 400 + y / 400 * 400;
    if d.day == DaysInMonth(d.year, d.month) {
      MonthsFollow(y % 400, mp);
      if d.month == 2 {
        YearsFollow(y);
      }
    }
  }

  /** The days before a year of March, through the eras. */
  lemma YearsFollow(y: int)
    ensures (y + 1) / 400 * 146097 + YearStart((y + 1) % 400)
            == y / 400 * 146097 + YearStart(y % 400) + YearLength(y % 400)
  {
    var e, r := y / 400, y % 400;
    assert y + 1 == 400 * e + r + 1;
    if r == 399 {
      assert (y + 1) / 400 == e + 1 && (y + 1) % 400 == 0;
    } else {
      assert (y + 1) / 400 == e && (y + 1) % 400 == r + 1;
      YearStartNext(r);
    }
  }

  lemma YearStartNext(r: int)
    requires 0 <= r < 399
    ensures YearStart(r + 1) == YearStart(r) + YearLength(r)
  {
    assert (r + 1) / 4 == r / 4 + if (r + 1) % 4 == 0 then 1 else 0;
    assert (r + 1) / 100 == r / 100 + if (r + 1) % 100 == 0 then 1 else 0;
  }

  lemma EpochDay()
    ensures CivilFromDays(0) == Date(1970, 1, 1)
  {
  }

  /** `civil_from_days` counts through the calendar: day 0 is 1970-01-01 and
      each day is the calendar successor of the one before, in both directions
      without end. */
  lemma CountsTheCalendar(days: int)
    ensures CivilFromDays(0) == Date(1970, 1, 1)
    ensures IsDate(CivilFromDays(days))
    ensures CivilFromDays(days + 1) == Successor(CivilFromDays(days))
  {
    EpochDay();
    hide DaysFromCivil, Successor, IsDate, CivilFromDays;
    CivilIsDate(days);
    SuccessorIsNext(CivilFromDays(days));
    DateHasNumber(Successor(CivilFromDays(days)));
  }

  /** It is a bijection between day numbers and dates. */
  lemma IsBijection(days: int, d: Date)
    requires IsDate(d)
    ensures CivilFromDays(days) == d <==> days == DaysFromCivil(d)
  {
    hide DaysFromCivil, CivilFromDays, IsDate;
    CivilIsDate(days);
    DateHasNumber(d);
  }

  /** Every `as u32` cast of `civil_from_days` is of a number in range. */
  lemma CastsInRange(days: int)
    ensures var doe := DayOfEra(days + 719468);
      && 0 <= doe < 0x1_0000_0000
      && 0 <= doe - doe / 1460 + doe / 36524 - doe / 146096
      && 0 <= YearOfEra(doe) < 400
      && 0 <= DayOfYear(doe) < 366
      && 0 <= MonthIndex(DayOfYear(doe)) < 12
      && 1 <= CivilFromDays(days).day <= 31 && 1 <= CivilFromDays(days).month <= 12
  {
    EraIsFloor(days + 719468);
    YearContains(DayOfEra(days + 719468));
    CivilIsDate(days);
    MonthContains(YearOfEra(DayOfEra(days + 719468)), DayOfYear(DayOfEra(days + 719468)));
  }

  /** Within i64, as long as adding the epoch does not leave it, no
      intermediate value does. */
  lemma StaysInI64(days: int)
    requires -0x8000_0000_0000_0000 <= days <= 0x7FFF_FFFF_FFFF_FFFF - 719468
    ensures var z := days + 719468;
      && (z < 0 ==> -0x8000_0000_0000_0000 <= z - 146096)
      && -0x8000_0000_0000_0000 <= Era(z) * 146097 <= 0x7FFF_FFFF_FFFF_FFFF
      && -0x8000_0000_0000_0000 <= CivilFromDays(days).year <= 0x7FFF_FFFF_FFFF_FFFF
  {
    var z := days + 719468;
    EraIsFloor(z);
    YearContains(DayOfEra(z));
  }

  // ----- chrono_format

  datatype Stamp = Stamp(date: Date, hour: int, minute: int, second: int)

  /** The fields `chrono_format` prints. */
  function Fields(epochSecs: nat): Stamp {
    var ofDay := epochSecs % 86400;
    Stamp(CivilFromDays(epochSecs / 86400), ofDay / 3600, ofDay / 60 % 60, ofDay % 60)
  }

  lemma FieldsInRange(epochSecs: nat)
    ensures var f := Fields(epochSecs);
      && IsDate(f.date)
      && 0 <= f.hour < 24 && 0 <= f.minute < 60 && 0 <= f.second < 60
      && DaysFromCivil(f.date) * 86400 + f.hour * 3600 + f.minute * 60 + f.second == epochSecs
  {
    hide CivilFromDays, DaysFromCivil, IsDate;
    CivilIsDate(epochSecs / 86400);
    TimeOfDay(epochSecs);
  }

  lemma TimeOfDay(secs: nat)
    ensures var t := secs % 86400;
      && 0 <= t / 3600 < 24
      && secs / 86400 * 86400 + t / 3600 * 3600 + t / 60 % 60 * 60 + t % 60 == secs
  {
  }

  /** Two seconds with the same fields are one second. */
  lemma FieldsDetermineSecond(a: nat, b: nat)
    requires Fields(a) == Fields(b)
    ensures a == b
  {
    hide Fields, DaysFromCivil;
    FieldsInRange(a);
    FieldsInRange(b);
  }
}
