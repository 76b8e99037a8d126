/**
 rust/src/sops_encrypt.rs, rfc3339_now_utc: printing a second count since the Unix epoch, with
 the count as an argument instead of the system clock.
 */
module Timestamp {
  import opened BitStrings
  import opened Calendar

  datatype Fields = Fields(date: Date, hour: nat, minute: nat, second: nat)

  function FieldsOf(totalSecs: nat): Fields
  {
    var days := totalSecs / 86_400;
    var secsOfDay := totalSecs % 86_400;
    Fields(CivilFromDays(days), secsOfDay / 3600, secsOfDay % 3600 / 60, secsOfDay % 60)
  }

  function DigitChar(d: nat): char
    requires d < 10
  {
    ('0' as int + d) as char
  }

  function Decimal(n: nat): string
  {
    if n < 10 then [DigitChar(n)] else Decimal(n / 10) + [DigitChar(n % 10)]
  }

  /** format!("{n:0w}") */
  function ZeroPadded(n: nat, w: nat): string
  {
    var s := Decimal(n);
    if |s| >= w then s else seq(w - |s|, _ => '0') + s
  }

  function Printed(totalSecs: nat): string
  {
    var f := FieldsOf(totalSecs);
    YearIsNatural(totalSecs);
    ZeroPadded(f.date.year, 4) + "-" + ZeroPadded(f.date.month, 2) + "-" + ZeroPadded(f.date.day, 2)
    + "T" + ZeroPadded(f.hour, 2) + ":" + ZeroPadded(f.minute, 2) + ":" + ZeroPadded(f.second, 2) + "Z"
  }

  lemma YearIsNatural(totalSecs: nat)
    ensures ValidDate(FieldsOf(totalSecs).date) && FieldsOf(totalSecs).date.year >= 1970
  {
    hide CivilFromDays;
    var days := totalSecs / 86_400;
    CivilNextDay(days);
    CivilEpoch();
    if days > 0 {
      CivilIncreasing(0, days);
    }
  }

  // Two- and four-digit numbers.

  /** The w low decimal digits of n. */
  function Fixed(n: nat, w: nat): (s: string)
    ensures |s| == w
  {
    if w == 0 then "" else Fixed(n / 10, w - 1) + [DigitChar(n % 10)]
  }

  function Power10(w: nat): (p: nat)
    ensures p >= 1
  {
    if w == 0 then 1 else 10 * Power10(w - 1)
  }

  lemma {:induction false} DecimalShort(n: nat, w: nat)
    requires w > 0
    ensures n < Power10(w) ==> |Decimal(n)| <= w && ZeroPadded(n, w) == Fixed(n, w)
    ensures n >= Power10(w) ==> |Decimal(n)| > w
  {
    if w == 1 {
      if n < 10 { assert Fixed(n, 1) == Fixed(n / 10, 0) + [DigitChar(n)] == Decimal(n); }
    } else {
      DecimalShort(n / 10, w - 1);
      if n < 10 {
        assert n / 10 == 0 && Decimal(0) == ['0'];
        assert seq(w - 1, _ => '0') == seq(w - 2, _ => '0') + ['0'];
      } else if n < Power10(w) {
        var s := Decimal(n / 10);
        ConcatAssoc(seq(w - 1 - |s|, _ => '0'), s, [DigitChar(n % 10)]);
        assert seq(w - 1 - |s|, _ => '0') + s == Fixed(n / 10, w - 1);
      }
    }
  }

  // Exactly twenty characters, exactly through the year 9999.

  const YEAR_10000 := 253_402_300_800

  lemma YearFitsExactly(totalSecs: nat)
    ensures FieldsOf(totalSecs).date.year < 10_000 <==> totalSecs < YEAR_10000
  {
    var days := totalSecs / 86_400;
    FirstDayOf10000();
    hide CivilFromDays;
    CivilNextDay(days);
    if days < 2_932_897 {
      CivilIncreasing(days, 2_932_897);
    } else if days > 2_932_897 {
      CivilIncreasing(2_932_897, days);
    }
  }

  lemma FirstDayOf10000()
    ensures CivilFromDays(2_932_897) == Date(10_000, 1, 1)
  {
    assert Era(2_932_897 + 719_468) == 24;
  }

  /** The printed form with every field at its fixed width. */
  function Shown(f: Fields): string
    requires f.date.year >= 0 && f.date.month >= 0 && f.date.day >= 0
  {
    Fixed(f.date.year, 4) + "-" + Fixed(f.date.month, 2) + "-" + Fixed(f.date.day, 2)
    + "T" + Fixed(f.hour, 2) + ":" + Fixed(f.minute, 2) + ":" + Fixed(f.second, 2) + "Z"
  }

  predicate InRange(f: Fields) {
    ValidDate(f.date) && f.date.year >= 0 && f.hour < 24 && f.minute < 60 && f.second < 60
  }

  lemma FieldsInRange(totalSecs: nat)
    ensures InRange(FieldsOf(totalSecs))
  {
    YearIsNatural(totalSecs);
    hide CivilFromDays;
  }

  lemma DigitsPadded(n: nat)
    ensures n < 100 ==> ZeroPadded(n, 2) == Fixed(n, 2)
    ensures n < 10_000 ==> ZeroPadded(n, 4) == Fixed(n, 4)
    ensures n >= 10_000 ==> |ZeroPadded(n, 4)| > 4
  {
    assert Power10(2) == 100;
    assert Power10(4) == 10_000;
    DecimalShort(n, 2);
    DecimalShort(n, 4);
  }

  /** Exactly the second counts through the year 9999 print as twenty characters. */
  lemma TwentyCharacters(totalSecs: nat)
    ensures |Printed(totalSecs)| == 20 <==> totalSecs < YEAR_10000
    ensures totalSecs < YEAR_10000 ==>
              var f := FieldsOf(totalSecs);
              InRange(f) && Printed(totalSecs) == Shown(f)
  {
    YearFitsExactly(totalSecs);
    FieldsInRange(totalSecs);
    YearIsNatural(totalSecs);
    var f := FieldsOf(totalSecs);
    hide FieldsOf, ZeroPadded, Fixed, YEAR_10000;
    DigitsPadded(f.date.year);
    DigitsPadded(f.date.month);
    DigitsPadded(f.date.day);
    DigitsPadded(f.hour);
    DigitsPadded(f.minute);
    DigitsPadded(f.second);
  }

  // The RFC 3339 grammar, section 5.6, with the restrictions of section 5.7, for UTC without fractions.

  predicate IsDigit(c: char) {
    '0' <= c <= '9'
  }

  predicate AllDigits(s: string) {
    forall i :: 0 <= i < |s| ==> IsDigit(s[i])
  }

  function NumberOf(s: string): nat
    requires AllDigits(s)
  {
    if s == "" then 0 else 10 * NumberOf(s[..|s| - 1]) + (s[|s| - 1] as int - '0' as int)
  }

  /** The fields of a date-time in the fixed twenty-character layout. */
  function ReadFields(s: string): (f: Fields)
    requires Layout(s)
  {
    Fields(Date(NumberOf(s[0..4]), NumberOf(s[5..7]), NumberOf(s[8..10])),
           NumberOf(s[11..13]), NumberOf(s[14..16]), NumberOf(s[17..19]))
  }

  predicate Layout(s: string) {
    && |s| == 20
    && AllDigits(s[0..4]) && s[4] == '-' && AllDigits(s[5..7]) && s[7] == '-' && AllDigits(s[8..10])
    && s[10] == 'T'
    && AllDigits(s[11..13]) && s[13] == ':' && AllDigits(s[14..16]) && s[16] == ':' && AllDigits(s[17..19])
    && s[19] == 'Z'
  }

  predicate Rfc3339(s: string) {
    Layout(s) && InRange(ReadFields(s))
  }

  lemma {:induction false} FixedReadsBack(n: nat, w: nat)
    requires n < Power10(w)
    ensures AllDigits(Fixed(n, w)) && NumberOf(Fixed(n, w)) == n
  {
    if w > 0 {
      FixedReadsBack(n / 10, w - 1);
      assert Fixed(n, w)[..w - 1] == Fixed(n / 10, w - 1);
    }
  }

  lemma FixedNumber(n: nat)
    ensures n < 100 ==> AllDigits(Fixed(n, 2)) && NumberOf(Fixed(n, 2)) == n
    ensures n < 10_000 ==> AllDigits(Fixed(n, 4)) && NumberOf(Fixed(n, 4)) == n
  {
    assert Power10(2) == 100;
    assert Power10(4) == 10_000;
    if n < 100 { FixedReadsBack(n, 2); }
    if n < 10_000 { FixedReadsBack(n, 4); }
  }

  lemma ShownReadsBack(f: Fields)
    requires InRange(f) && f.date.year < 10_000
    ensures Layout(Shown(f)) && ReadFields(Shown(f)) == f
  {
    hide Fixed, AllDigits, NumberOf;
    var s := Shown(f);
    FixedNumber(f.date.year);
    FixedNumber(f.date.month);
    FixedNumber(f.date.day);
    FixedNumber(f.hour);
    FixedNumber(f.minute);
    FixedNumber(f.second);
    assert s[0..4] == Fixed(f.date.year, 4);
    assert s[5..7] == Fixed(f.date.month, 2);
    assert s[8..10] == Fixed(f.date.day, 2);
    assert s[11..13] == Fixed(f.hour, 2);
    assert s[14..16] == Fixed(f.minute, 2);
    assert s[17..19] == Fixed(f.second, 2);
  }

  function SecondsOf(f: Fields): int
    requires InRange(f)
  {
    DaysFromCivil(f.date) * 86_400 + f.hour * 3600 + f.minute * 60 + f.second
  }

  /** The printed form is a valid RFC 3339 date-time, and it denotes the second count it was printed from. */
  lemma PrintedReadsBack(totalSecs: nat)
    requires totalSecs < YEAR_10000
    ensures Rfc3339(Printed(totalSecs)) && SecondsOf(ReadFields(Printed(totalSecs))) == totalSecs
  {
    hide Printed, Shown, Layout, ReadFields, CivilFromDays, DaysFromCivil, YEAR_10000;
    var f := FieldsOf(totalSecs);
    TwentyCharacters(totalSecs);
    YearFitsExactly(totalSecs);
    FieldsInRange(totalSecs);
    ShownReadsBack(f);
    var days := totalSecs / 86_400;
    DaysOfCivil(days);
    SecondsAddUp(totalSecs);
  }

  lemma SecondsAddUp(t: nat)
    ensures var s := t % 86_400;
            t / 86_400 * 86_400 + s / 3600 * 3600 + s % 3600 / 60 * 60 + s % 60 == t
  {
    var s := t % 86_400;
    WholeHours(s / 3600, s % 3600);
  }

  lemma WholeHours(h: nat, r: nat)
    ensures (h * 3600 + r) % 60 == r % 60
  {
    assert (h * 60 * 60 + r) % 60 == r % 60;
  }

  // Order.

  /** The first difference decides. */
  predicate LexLess(a: string, b: string) {
    exists k :: 0 <= k < |a| && k < |b| && a[..k] == b[..k] && a[k] < b[k]
  }

  lemma LexAppend(a: string, b: string, c: string, d: string)
    requires LexLess(a, b)
    ensures LexLess(a + c, b + d)
  {
    var k :| 0 <= k < |a| && k < |b| && a[..k] == b[..k] && a[k] < b[k];
    assert (a + c)[..k] == a[..k] && (b + d)[..k] == b[..k];
    assert (a + c)[k] < (b + d)[k];
  }

  lemma LexPrepend(p: string, a: string, b: string)
    requires LexLess(a, b)
    ensures LexLess(p + a, p + b)
  {
    var k :| 0 <= k < |a| && k < |b| && a[..k] == b[..k] && a[k] < b[k];
    var m := |p| + k;
    assert (p + a)[..m] == p + a[..k] && (p + b)[..m] == p + b[..k];
    assert (p + a)[m] < (p + b)[m];
  }

  lemma {:induction false} FixedOrder(x: nat, y: nat, w: nat)
    requires x < y < Power10(w)
    ensures LexLess(Fixed(x, w), Fixed(y, w))
  {
    if w == 0 {
      assert false;
    } else if x / 10 < y / 10 {
      FixedOrder(x / 10, y / 10, w - 1);
      LexAppend(Fixed(x / 10, w - 1), Fixed(y / 10, w - 1), [DigitChar(x % 10)], [DigitChar(y % 10)]);
    } else {
      var a, b := [DigitChar(x % 10)], [DigitChar(y % 10)];
      assert a[..0] == b[..0] && a[0] < b[0];
      LexPrepend(Fixed(x / 10, w - 1), a, b);
    }
  }

  /** A number printed before some separator and more text decides the order when it differs. */
  lemma NumberDecides(x: nat, y: nat, w: nat, c: string, d: string)
    requires x < Power10(w) && y < Power10(w)
    requires x < y || (x == y && LexLess(c, d))
    ensures LexLess(Fixed(x, w) + c, Fixed(y, w) + d)
  {
    if x < y {
      FixedOrder(x, y, w);
      LexAppend(Fixed(x, w), Fixed(y, w), c, d);
    } else {
      LexPrepend(Fixed(x, w), c, d);
    }
  }

  predicate Earlier(f: Fields, g: Fields) {
    Before(f.date, g.date) || (f.date == g.date && (f.hour < g.hour
      || (f.hour == g.hour && (f.minute < g.minute || (f.minute == g.minute && f.second < g.second)))))
  }

  // The printed form from each field on.

  function FromSecond(f: Fields): string { Fixed(f.second, 2) + "Z" }
  function FromMinute(f: Fields): string { Fixed(f.minute, 2) + (":" + FromSecond(f)) }
  function FromHour(f: Fields): string { Fixed(f.hour, 2) + (":" + FromMinute(f)) }
  function FromDay(f: Fields): string requires f.date.day >= 0 { Fixed(f.date.day, 2) + ("T" + FromHour(f)) }
  function FromMonth(f: Fields): string
    requires f.date.day >= 0 && f.date.month >= 0
  {
    Fixed(f.date.month, 2) + ("-" + FromDay(f))
  }

  lemma ShownFromYear(f: Fields)
    requires f.date.year >= 0 && f.date.month >= 0 && f.date.day >= 0
    ensures Shown(f) == Fixed(f.date.year, 4) + ("-" + FromMonth(f))
  {
    hide Fixed;
  }

  lemma ShownOrder(f: Fields, g: Fields)
    requires InRange(f) && InRange(g) && f.date.year < 10_000 && g.date.year < 10_000
    requires Earlier(f, g)
    ensures LexLess(Shown(f), Shown(g))
  {
    assert Power10(2) == 100;
    assert Power10(4) == 10_000;
    hide Fixed, LexLess, Power10, Shown;
    ShownFromYear(f);
    ShownFromYear(g);
    if f.date == g.date {
      TimeOrder(f, g);
      LexPrepend("T", FromHour(f), FromHour(g));
    }
    if f.date.year == g.date.year && f.date.month == g.date.month {
      NumberDecides(f.date.day, g.date.day, 2, "T" + FromHour(f), "T" + FromHour(g));
      LexPrepend("-", FromDay(f), FromDay(g));
    }
    if f.date.year == g.date.year {
      NumberDecides(f.date.month, g.date.month, 2, "-" + FromDay(f), "-" + FromDay(g));
      LexPrepend("-", FromMonth(f), FromMonth(g));
    }
    NumberDecides(f.date.year, g.date.year, 4, "-" + FromMonth(f), "-" + FromMonth(g));
  }

  lemma TimeOrder(f: Fields, g: Fields)
    requires InRange(f) && InRange(g) && f.date == g.date && Earlier(f, g)
    ensures LexLess(FromHour(f), FromHour(g))
  {
    assert Power10(2) == 100;
    hide Fixed, LexLess, Power10;
    if f.hour == g.hour {
      if f.minute == g.minute {
        SecondOrder(f, g);
        LexPrepend(":", FromSecond(f), FromSecond(g));
      }
      NumberDecides(f.minute, g.minute, 2, ":" + FromSecond(f), ":" + FromSecond(g));
      LexPrepend(":", FromMinute(f), FromMinute(g));
    }
    NumberDecides(f.hour, g.hour, 2, ":" + FromMinute(f), ":" + FromMinute(g));
  }

  lemma SecondOrder(f: Fields, g: Fields)
    requires InRange(f) && InRange(g) && f.second < g.second
    ensures LexLess(FromSecond(f), FromSecond(g))
  {
    assert Power10(2) == 100;
    NumberDecides(f.second, g.second, 2, "Z", "Z");
  }

  lemma LaterFields(t: nat, u: nat)
    requires t < u
    ensures Earlier(FieldsOf(t), FieldsOf(u))
  {
    hide CivilFromDays;
    var a, b := t / 86_400, u / 86_400;
    if a < b {
      CivilIncreasing(a, b);
    } else {
      LaterInDay(t % 86_400, u % 86_400);
    }
  }

  lemma LaterInDay(s: nat, r: nat)
    requires s < r
    ensures s / 3600 < r / 3600 || (s / 3600 == r / 3600 && (s % 3600 / 60 < r % 3600 / 60
            || (s % 3600 / 60 == r % 3600 / 60 && s % 60 < r % 60)))
  {
    assert s % 3600 % 60 == s % 60 && r % 3600 % 60 == r % 60;
  }

  /** Through the year 9999, an earlier time always prints as a strictly smaller string. */
  lemma PrintedOrder(t: nat, u: nat)
    requires t < u < YEAR_10000
    ensures LexLess(Printed(t), Printed(u))
  {
    hide Printed, Shown, FieldsOf, LexLess, YEAR_10000;
    TwentyCharacters(t);
    TwentyCharacters(u);
    YearFitsExactly(t);
    YearFitsExactly(u);
    LaterFields(t, u);
    ShownOrder(FieldsOf(t), FieldsOf(u));
  }
}
