/**
 rust/src/sops_encrypt.rs, civil_from_days: the closed-form conversion of a day count since
 1970-01-01 to a Gregorian date, against counting days one at a time.
 */
module Calendar {

  datatype Date = Date(year: int, month: int, day: int)

  // The calendar, independently of the algorithm.

  predicate LeapYear(y: int) {
    y % 4 == 0 && (y % 100 != 0 || y % 400 == 0)
  }

  function DaysInMonth(y: int, m: int): int
    requires 1 <= m <= 12
  {
    if m == 2 then (if LeapYear(y) then 29 else 28)
    else if m in {4, 6, 9, 11} then 30
    else 31
  }

  predicate ValidDate(d: Date) {
    1 <= d.month <= 12 && 1 <= d.day <= DaysInMonth(d.year, d.month)
  }

  function NextDay(d: Date): Date
    requires ValidDate(d)
  {
    if d.day < DaysInMonth(d.year, d.month) then Date(d.year, d.month, d.day + 1)
    else if d.month < 12 then Date(d.year, d.month + 1, 1)
    else Date(d.year + 1, 1, 1)
  }

  function PreviousDay(d: Date): Date
    requires ValidDate(d)
  {
    if d.day > 1 then Date(d.year, d.month, d.day - 1)
    else if d.month > 1 then Date(d.year, d.month - 1, DaysInMonth(d.year, d.month - 1))
    else Date(d.year - 1, 12, 31)
  }

  const EPOCH := Date(1970, 1, 1)

  /** Counting days one at a time from the epoch, forwards or backwards. */
  function CountDays(z: int): (d: Date)
    ensures ValidDate(d)
    decreases if z < 0 then -z else z
  {
    if z == 0 then EPOCH else if z > 0 then NextDay(CountDays(z - 1)) else PreviousDay(CountDays(z + 1))
  }

  predicate Before(a: Date, b: Date) {
    a.year < b.year || (a.year == b.year && (a.month < b.month || (a.month == b.month && a.day < b.day)))
  }

  // The algorithm. Rust's integer division truncates towards zero.

  function TruncatedDiv(a: int, b: int): int
    requires b > 0
  {
    if a >= 0 then a / b else -(-a / b)
  }

  function Era(z: int): int {
    TruncatedDiv(if z >= 0 then z else z - 146_096, 146_097)
  }

  function DayOfEra(z: int): int {
    z - Era(z) * 146_097
  }

  function YearOfEra(doe: int): int
  {
    (doe - doe / 1460 + doe / 36524 - doe / 146096) / 365
  }

  function DayOfYear(doe: int): int
  {
    var yoe := YearOfEra(doe);
    doe - (365 * yoe + yoe / 4 - yoe / 100)
  }

  function CivilFromDays(days: int): Date
  {
    var z := days + 719_468;
    var era := Era(z);
    var doe := DayOfEra(z);
    var yoe := YearOfEra(doe);
    var y := yoe + era * 400;
    var doy := DayOfYear(doe);
    var mp := (5 * doy + 2) / 153;
    var d := doy - (153 * mp + 2) / 5 + 1;
    var m := if mp < 10 then mp + 3 else mp - 9;
    Date(if m <= 2 then y + 1 else y, m, d)
  }

  // Eras of 400 years.

  lemma EraFloor(z: int)
    ensures 0 <= DayOfEra(z) < 146_097
    ensures Era(z) == z / 146_097 && DayOfEra(z) == z % 146_097
  {
    if z < 0 {
      var n := 146_096 - z;
      assert z - 146_096 == -n;
    }
  }

  /** Days of an era before its year number yoe, years counted from March. */
  function YearStart(yoe: int): int {
    365 * yoe + yoe / 4 - yoe / 100
  }

  function YearLength(yoe: int): int {
    if yoe == 399 then 366 else YearStart(yoe + 1) - YearStart(yoe)
  }

  /** A day of an era by its century, its four-year cycle in the century, and its day in the cycle. */
  lemma EraParts(doe: int) returns (c: int, q: int, s: int)
    requires 0 <= doe < 146_097
    ensures 0 <= c < 4 && 0 <= q < 25 && 0 <= s < 1461 && doe == 36524 * c + 1461 * q + s
    ensures q == 24 && c < 3 ==> s < 1460
  {
    c := if doe == 146_096 then 3 else doe / 36524;
    var r := doe - 36524 * c;
    q, s := r / 1461, r % 1461;
  }

  function YearInCycle(s: int): int {
    if s == 1460 then 3 else s / 365
  }

  lemma Quotients(c: int, q: int, s: int)
    requires 0 <= c < 4 && 0 <= q < 25 && 0 <= s < 1461 && (q == 24 && c < 3 ==> s < 1460)
    ensures var doe := 36524 * c + 1461 * q + s;
            doe / 36524 - doe / 146_096 == c
    ensures (36524 * c + 1461 * q + s) / 1460 == 25 * c + q + if 24 * c + q + s >= 1460 then 1 else 0
  {
    assert 36524 * c + 1461 * q + s == 1460 * (25 * c + q) + (24 * c + q + s);
  }

  lemma YearOfParts(c: int, q: int, s: int)
    requires 0 <= c < 4 && 0 <= q < 25 && 0 <= s < 1461 && (q == 24 && c < 3 ==> s < 1460)
    ensures YearOfEra(36524 * c + 1461 * q + s) == 100 * c + 4 * q + YearInCycle(s)
  {
    Quotients(c, q, s);
    var doe := 36524 * c + 1461 * q + s;
    var w := if 24 * c + q + s >= 1460 then 1 else 0;
    var t := doe - doe / 1460 + doe / 36524 - doe / 146_096;
    assert t == 365 * (100 * c + 4 * q) + (s - w);
    assert (s - w) / 365 == YearInCycle(s);
  }

  lemma YearStartOfParts(c: int, q: int, k: int)
    requires 0 <= c < 4 && 0 <= q < 25 && 0 <= k < 4
    ensures YearStart(100 * c + 4 * q + k) == 36524 * c + 1461 * q + 365 * k
  {
    assert (100 * c + 4 * q + k) / 4 == 25 * c + q;
    assert (100 * c + 4 * q + k) / 100 == c;
  }

  lemma YearStartMonotone(a: int, b: int)
    requires 0 <= a < b < 400
    ensures YearStart(a) + YearLength(a) <= YearStart(b)
  {}

  lemma YearOfEraInRange(doe: int)
    requires 0 <= doe < 146_097
    ensures 0 <= YearOfEra(doe) < 400
    ensures 0 <= DayOfYear(doe) < YearLength(YearOfEra(doe))
  {
    var c, q, s := EraParts(doe);
    YearOfParts(c, q, s);
    var k := YearInCycle(s);
    YearStartOfParts(c, q, k);
    LengthOfParts(c, q, k);
  }

  lemma LengthOfParts(c: int, q: int, k: int)
    requires 0 <= c < 4 && 0 <= q < 25 && 0 <= k < 4
    ensures YearLength(100 * c + 4 * q + k) == if k == 3 && (q < 24 || c == 3) then 366 else 365
  {
    YearStartOfParts(c, q, k);
    if k < 3 {
      YearStartOfParts(c, q, k + 1);
    } else if q < 24 {
      YearStartOfParts(c, q + 1, 0);
    } else if c < 3 {
      YearStartOfParts(c + 1, 0, 0);
    }
  }

  /** The year of an era is the only one whose days include doe. */
  lemma YearUnique(doe: int, y: int)
    requires 0 <= doe < 146_097 && 0 <= y < 400
    requires YearStart(y) <= doe < YearStart(y) + YearLength(y)
    ensures YearOfEra(doe) == y
  {
    YearOfEraInRange(doe);
    var x := YearOfEra(doe);
    if x < y {
      YearStartMonotone(x, y);
    } else if y < x {
      YearStartMonotone(y, x);
    }
  }

  lemma LeapYearLength(era: int, yoe: int)
    requires 0 <= yoe < 400
    ensures YearLength(yoe) == if LeapYear(yoe + 1 + era * 400) then 366 else 365
  {
    var c, q, k := yoe / 100, yoe % 100 / 4, yoe % 4;
    assert yoe == 100 * c + 4 * q + k;
    LengthOfParts(c, q, k);
    hide YearLength;
    EraIsNeutral(yoe + 1, era);
    LeapOfParts(c, q, k);
  }

  /** Leap years repeat every 400 years. */
  lemma EraIsNeutral(y: int, era: int)
    ensures LeapYear(y + era * 400) == LeapYear(y)
  {
    Mod400(y, era);
    Mod100(y, 4 * era);
    Mod4(y, 100 * era);
  }

  lemma Mod400(y: int, n: int)
    ensures (y + n * 400) % 400 == y % 400
  {}

  lemma Mod100(y: int, n: int)
    ensures (y + n * 100) % 100 == y % 100
  {}

  lemma Mod4(y: int, n: int)
    ensures (y + n * 4) % 4 == y % 4
  {}

  lemma LeapOfParts(c: int, q: int, k: int)
    requires 0 <= c < 4 && 0 <= q < 25 && 0 <= k < 4
    ensures LeapYear(100 * c + 4 * q + k + 1) <==> k == 3 && (q < 24 || c == 3)
  {
    assert (100 * c + 4 * q + k + 1) % 4 == (k + 1) % 4;
  }

  // Months, counted from March.

  function MonthStart(mp: int): int {
    (153 * mp + 2) / 5
  }

  function MonthOf(mp: int): int {
    if mp < 10 then mp + 3 else mp - 9
  }

  /** The number of the month of a day of the year, both from March. */
  function MonthIndex(doy: int): int {
    (5 * doy + 2) / 153
  }

  lemma MonthOfDay(doy: int)
    requires 0 <= doy < 366
    ensures var mp := MonthIndex(doy);
            && 0 <= mp < 12 && MonthStart(mp) <= doy && (mp < 11 ==> doy < MonthStart(mp + 1))
            && (doy < 365 ==> MonthIndex(doy + 1) == if mp < 11 && doy + 1 == MonthStart(mp + 1) then mp + 1 else mp)
  {}

  /** Away from February, the month lengths are those of the closed form. */
  lemma MonthLength(mp: int, y: int)
    requires 0 <= mp < 11
    ensures DaysInMonth(y, MonthOf(mp)) == MonthStart(mp + 1) - MonthStart(mp)
  {
    assert mp in {0, 1, 2, 3, 4, 5, 6, 7, 8, 9, 10};
  }

  /** The date of a day of a year that starts in March. */
  function DateInYear(y: int, doy: int): Date
  {
    var mp := MonthIndex(doy);
    var m := MonthOf(mp);
    Date(if m <= 2 then y + 1 else y, m, doy - MonthStart(mp) + 1)
  }

  lemma CivilParts(days: int)
    ensures var z := days + 719_468;
            var doe := DayOfEra(z);
            && 0 <= doe < 146_097
            && CivilFromDays(days) == DateInYear(YearOfEra(doe) + Era(z) * 400, DayOfYear(doe))
  {
    EraFloor(days + 719_468);
    YearOfEraInRange(DayOfEra(days + 719_468));
  }

  /** Inside a year that starts in March, the next day of the year is the next day of the calendar. */
  lemma NextInYear(y: int, doy: int)
    requires 0 <= doy && doy + 1 < (if LeapYear(y + 1) then 366 else 365)
    ensures ValidDate(DateInYear(y, doy)) && DateInYear(y, doy + 1) == NextDay(DateInYear(y, doy))
  {
    hide MonthIndex;
    var mp := MonthIndex(doy);
    MonthOfDay(doy);
    if mp < 11 {
      MonthLength(mp, y);
      MonthLength(mp, y + 1);
      if mp < 10 { assert MonthStart(mp + 1) < MonthStart(mp + 2); }
    }
  }

  /** The last day of such a year is the end of February, and the next day is the first of March. */
  lemma NextYear(y: int)
    ensures var last := DateInYear(y, if LeapYear(y + 1) then 365 else 364);
            ValidDate(last) && DateInYear(y + 1, 0) == NextDay(last)
  {}

  /** What the day after a day is, in era, year of era and day of year. */
  lemma NextDayParts(z: int)
    ensures var era, doe := Era(z), DayOfEra(z);
            var yoe, doy := YearOfEra(doe), DayOfYear(doe);
            var era', doe' := Era(z + 1), DayOfEra(z + 1);
            var yoe', doy' := YearOfEra(doe'), DayOfYear(doe');
            && 0 <= yoe < 400 && 0 <= doy < YearLength(yoe)
            && if doy + 1 < YearLength(yoe) then era' == era && yoe' == yoe && doy' == doy + 1
               else doy' == 0 && yoe' + era' * 400 == yoe + era * 400 + 1
  {
    hide YearOfEra, Era, YearStart, YearLength;
    EraFloor(z);
    EraFloor(z + 1);
    var doe := DayOfEra(z);
    YearOfEraInRange(doe);
    var yoe := YearOfEra(doe);
    YearEnd(yoe);
    DayOfYearIs(doe);
    DayOfYearIs(DayOfEra(z + 1));
    hide DayOfYear, DayOfEra;
    if DayOfYear(doe) + 1 < YearLength(yoe) {
      EraOfNext(z);
      YearUnique(doe + 1, yoe);
    } else if yoe < 399 {
      YearLengthPositive(yoe + 1);
      EraOfNext(z);
      YearUnique(doe + 1, yoe + 1);
    } else {
      EraOfNext(z);
      YearLengthPositive(0);
      YearUnique(0, 0);
    }
  }

  lemma DayOfYearIs(doe: int)
    ensures DayOfYear(doe) == doe - YearStart(YearOfEra(doe))
  {}

  lemma YearEnd(yoe: int)
    requires 0 <= yoe < 400
    ensures YearStart(0) == 0
    ensures YearStart(yoe) + YearLength(yoe) == if yoe == 399 then 146_097 else YearStart(yoe + 1)
    ensures yoe < 399 ==> YearStart(yoe + 1) < 146_097
  {}

  /** The day after a day is the next calendar day, over all days before and after the epoch. */
  lemma CivilNextDay(z: int)
    ensures ValidDate(CivilFromDays(z))
    ensures CivilFromDays(z + 1) == NextDay(CivilFromDays(z))
  {
    hide DateInYear, Era, DayOfEra, YearOfEra, DayOfYear, YearLength, CivilFromDays, LeapYear, NextDay, ValidDate;
    var d := z + 719_468;
    var era, doe := Era(d), DayOfEra(d);
    var yoe, doy := YearOfEra(doe), DayOfYear(doe);
    CivilParts(z);
    CivilParts(z + 1);
    NextDayParts(d);
    LeapYearLength(era, yoe);
    var y := yoe + era * 400;
    if doy + 1 < YearLength(yoe) {
      NextInYear(y, doy);
    } else {
      NextYear(y);
    }
  }

  lemma EraOfNext(d: int)
    ensures d % 146_097 == 146_096 ==> Era(d + 1) == Era(d) + 1 && DayOfEra(d + 1) == 0
    ensures d % 146_097 != 146_096 ==> Era(d + 1) == Era(d) && DayOfEra(d + 1) == DayOfEra(d) + 1
  {
    EraFloor(d);
    EraFloor(d + 1);
  }

  lemma YearLengthPositive(yoe: int)
    requires 0 <= yoe < 400
    ensures YearLength(yoe) >= 365
  {}

  lemma CivilEpoch()
    ensures CivilFromDays(0) == EPOCH
  {}

  /** The closed form is day counting. */
  lemma {:induction false} CivilCountsDays(z: int)
    ensures CivilFromDays(z) == CountDays(z)
    decreases if z < 0 then -z else z
  {
    hide CivilFromDays, NextDay, PreviousDay;
    if z == 0 {
      CivilEpoch();
    } else if z > 0 {
      CivilCountsDays(z - 1);
      CivilNextDay(z - 1);
    } else {
      CivilCountsDays(z + 1);
      CivilNextDay(z);
      PreviousOfNext(CivilFromDays(z));
    }
  }

  lemma PreviousOfNext(d: Date)
    requires ValidDate(d)
    ensures ValidDate(NextDay(d)) && PreviousDay(NextDay(d)) == d
  {}

  /** A later day is a later date: the conversion is strictly increasing, hence injective. */
  lemma {:induction false} CivilIncreasing(a: int, b: int)
    requires a < b
    ensures Before(CivilFromDays(a), CivilFromDays(b))
    decreases b - a
  {
    hide CivilFromDays;
    CivilNextDay(b - 1);
    if a < b - 1 {
      CivilIncreasing(a, b - 1);
    }
  }

  /** The inverse conversion. */
  function DaysFromCivil(d: Date): int
    requires ValidDate(d)
  {
    var y := if d.month <= 2 then d.year - 1 else d.year;
    var mp := if d.month > 2 then d.month - 3 else d.month + 9;
    y / 400 * 146_097 + YearStart(y % 400) + MonthStart(mp) + d.day - 1 - 719_468
  }

  lemma DayInYear(mp: int, doy: int, d: Date)
    requires ValidDate(d) && mp == (if d.month > 2 then d.month - 3 else d.month + 9)
    requires doy == MonthStart(mp) + d.day - 1
    ensures 0 <= doy && (5 * doy + 2) / 153 == mp && MonthOf(mp) == d.month
    ensures doy < if d.month == 2 then (if LeapYear(d.year) then 366 else 365) else 365
  {
    if mp < 11 {
      MonthLength(mp, d.year);
    }
  }

  lemma EraRange(era: int, yoe: int, doy: int)
    requires 0 <= yoe < 400 && 0 <= doy < YearLength(yoe)
    ensures var doe := YearStart(yoe) + doy;
            0 <= doe < 146_097 && (era * 146_097 + doe) / 146_097 == era && (era * 146_097 + doe) % 146_097 == doe
  {}

  /** Every valid date is the date of some day. */
  lemma CivilOnto(d: Date) returns (z: int)
    requires ValidDate(d)
    ensures z == DaysFromCivil(d) && CivilFromDays(z) == d
  {
    hide YearStart, YearLength, LeapYear, MonthStart, Era, DayOfEra, YearOfEra, CivilFromDays, DaysInMonth;
    var y := if d.month <= 2 then d.year - 1 else d.year;
    var era, yoe := y / 400, y % 400;
    var mp := if d.month > 2 then d.month - 3 else d.month + 9;
    var doy := MonthStart(mp) + d.day - 1;
    var doe := YearStart(yoe) + doy;
    z := DaysFromCivil(d);
    assert z + 719_468 == era * 146_097 + doe;
    LeapYearLength(era, yoe);
    DayInYear(mp, doy, d);
    YearLengthPositive(yoe);
    YearEnd(yoe);
    EraRange(era, yoe, doy);
    EraFloor(z + 719_468);
    YearUnique(doe, yoe);
    CivilParts(z);
    DayOfYearIs(doe);
  }

  lemma DaysOfCivil(z: int)
    ensures ValidDate(CivilFromDays(z)) && DaysFromCivil(CivilFromDays(z)) == z
  {
    hide CivilFromDays, DaysFromCivil;
    CivilNextDay(z);
    var w := CivilOnto(CivilFromDays(z));
    if w < z {
      CivilIncreasing(w, z);
    } else if z < w {
      CivilIncreasing(z, w);
    }
  }

  /** On the day counts that fit a 64-bit second count, every intermediate value fits its Rust type. */
  lemma NoOverflow(days: int)
    requires 0 <= days <= 0xFFFF_FFFF_FFFF_FFFF / 86_400
    ensures var z := days + 719_468;
            && 0 <= z < 0x8000_0000_0000_0000
            && 0 <= Era(z) * 146_097 <= z
            && var doe, doy := DayOfEra(z), DayOfYear(DayOfEra(z));
            && 0 <= doe && doe / 1460 <= doe && doe / 146_096 <= doe - doe / 1460 + doe / 36524
            && var yoe, mp := YearOfEra(doe), (5 * doy + 2) / 153;
            && 0 <= yoe < 400 && yoe / 100 <= 365 * yoe + yoe / 4 && YearStart(yoe) <= doe
            && 0 <= doy < 366 && 0 <= mp < 12 && 0 <= MonthStart(mp) <= doy
            && 0 <= CivilFromDays(days).year < 0x8000_0000_0000_0000
            && 0 <= CivilFromDays(days).month < 0x1_0000_0000 && 0 <= CivilFromDays(days).day < 0x1_0000_0000
  {
    var z := days + 719_468;
    EraFloor(z);
    YearOfEraInRange(DayOfEra(z));
    CivilNextDay(days);
    CivilParts(days);
    MonthOfDay(DayOfYear(DayOfEra(z)));
    assert Era(z) * 146_097 + DayOfEra(z) == z;
  }
}
