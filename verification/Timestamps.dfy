/**
  UTC timestamps as `datetime.isoformat` prints them, and the order of the printed text.
  Section 5.1 of RFC 3339 promises that text order is time order only for equally long
  fractions; here a zero fraction is left out altogether.
*/
module Timestamps {
  import opened Text

  // ---- the calendar ------------------------------------------------------------------------------

  datatype Civil = Civil(year: nat, month: nat, day: nat, hour: nat, minute: nat, second: nat, micro: nat)

  predicate IsLeap(y: nat) {
    y % 4 == 0 && (y % 100 != 0 || y % 400 == 0)
  }

  function DaysInMonth(y: nat, m: nat): nat {
    if m == 2 then if IsLeap(y) then 29 else 28
    else if m == 4 || m == 6 || m == 9 || m == 11 then 30 else 31
  }

  predicate Valid(c: Civil) {
    && 1 <= c.year <= 9999 && 1 <= c.month <= 12 && 1 <= c.day <= DaysInMonth(c.year, c.month)
    && c.hour < 24 && c.minute < 60 && c.second < 60 && c.micro < 1_000_000
  }

  /** Days from 1 January of year 1 to 1 January of year `y`. */
  function DaysBeforeYear(y: nat): nat
    requires y >= 1
  {
    if y == 1 then 0 else DaysBeforeYear(y - 1) + DaysInYear(y - 1)
  }

  function DaysInYear(y: nat): nat {
    if IsLeap(y) then 366 else 365
  }

  function DaysBeforeMonth(y: nat, m: nat): nat
    requires m >= 1
  {
    if m == 1 then 0 else DaysBeforeMonth(y, m - 1) + DaysInMonth(y, m - 1)
  }

  function Days(c: Civil): nat
    requires Valid(c)
  {
    DaysBeforeYear(c.year) + DaysBeforeMonth(c.year, c.month) + (c.day - 1)
  }

  /** Microseconds since the beginning of year 1: the instant itself. */
  function Instant(c: Civil): nat
    requires Valid(c)
  {
    (((Days(c) * 24 + c.hour) * 60 + c.minute) * 60 + c.second) * 1_000_000 + c.micro
  }

  /** Field by field, the largest unit first. */
  predicate Before(a: Civil, b: Civil) {
    if a.year != b.year then a.year < b.year
    else if a.month != b.month then a.month < b.month
    else if a.day != b.day then a.day < b.day
    else if a.hour != b.hour then a.hour < b.hour
    else if a.minute != b.minute then a.minute < b.minute
    else if a.second != b.second then a.second < b.second
    else a.micro < b.micro
  }

  /** `n / d` moves on exactly at the multiples of `d`. */
  lemma NextQuotient(n: nat, d: nat)
    requires n >= 1 && d >= 1
    ensures n / d == (n - 1) / d + if n % d == 0 then 1 else 0
  {
    var q, r := (n - 1) / d, (n - 1) % d;
    assert n == d * q + (r + 1);
    if r + 1 == d {
      assert n == d * (q + 1) + 0;
      QuotientIs(n, d, q + 1, 0);
    } else {
      QuotientIs(n, d, q, r + 1);
    }
  }

  lemma QuotientIs(n: nat, d: nat, q: nat, r: nat)
    requires d >= 1 && n == d * q + r && r < d
    ensures n / d == q && n % d == r
  {
    var e := n / d - q;
    assert d * e == r - n % d;
    MultipleIsFar(d, e);
  }

  lemma MultipleIsFar(d: int, e: int)
    requires d >= 0
    ensures e >= 1 ==> d * e >= d
    ensures e <= -1 ==> d * e <= -d
  {
    if e >= 1 {
      assert d * e == d + d * (e - 1);
    } else if e <= -1 {
      assert d * e == -d - d * (-e - 1);
    }
  }

  lemma MultipleOf(n: nat)
    ensures n % 400 == 0 ==> n % 100 == 0
    ensures n % 100 == 0 ==> n % 4 == 0
  {
    if n % 400 == 0 {
      assert n == 100 * (4 * (n / 400));
    }
    if n % 100 == 0 {
      assert n == 4 * (25 * (n / 100));
    }
  }

  lemma LeapDay(n: nat)
    requires n >= 1
    ensures DaysInYear(n) == 365 + (n / 4 - (n - 1) / 4) - (n / 100 - (n - 1) / 100) + (n / 400 - (n - 1) / 400)
  {
    MultipleOf(n);
    NextQuotient(n, 4);
    NextQuotient(n, 100);
    NextQuotient(n, 400);
  }

  /** The Gregorian count of days, without recursion. */
  lemma {:induction false} LeapYearsCounted(y: nat)
    requires y >= 1
    ensures DaysBeforeYear(y) == 365 * (y - 1) + (y - 1) / 4 - (y - 1) / 100 + (y - 1) / 400
  {
    if y > 1 {
      LeapYearsCounted(y - 1);
      LeapDay(y - 1);
    }
  }

  lemma {:induction false} YearsAdvance(y: nat, z: nat)
    requires 1 <= y < z
    ensures DaysBeforeYear(y) + DaysInYear(y) <= DaysBeforeYear(z)
  {
    if y + 1 < z {
      YearsAdvance(y, z - 1);
    }
  }

  lemma {:induction false} MonthsAdvance(y: nat, m: nat, n: nat)
    requires 1 <= m < n
    ensures DaysBeforeMonth(y, m) + DaysInMonth(y, m) <= DaysBeforeMonth(y, n)
  {
    if m + 1 < n {
      MonthsAdvance(y, m, n - 1);
    }
  }

  lemma TwelveMonths(y: nat)
    ensures DaysBeforeMonth(y, 12) + DaysInMonth(y, 12) == DaysInYear(y)
  {
    var feb := DaysInMonth(y, 2);
    assert DaysBeforeMonth(y, 2) == 31;
    assert DaysBeforeMonth(y, 3) == 31 + feb;
    assert DaysBeforeMonth(y, 4) == 62 + feb;
    assert DaysBeforeMonth(y, 5) == 92 + feb;
    assert DaysBeforeMonth(y, 6) == 123 + feb;
    assert DaysBeforeMonth(y, 7) == 153 + feb;
    assert DaysBeforeMonth(y, 8) == 184 + feb;
    assert DaysBeforeMonth(y, 9) == 215 + feb;
    assert DaysBeforeMonth(y, 10) == 245 + feb;
    assert DaysBeforeMonth(y, 11) == 276 + feb;
    assert DaysBeforeMonth(y, 12) == 306 + feb;
  }

  lemma DayOfYear(c: Civil)
    requires Valid(c)
    ensures DaysBeforeYear(c.year) <= Days(c) < DaysBeforeYear(c.year) + DaysInYear(c.year)
  {
    TwelveMonths(c.year);
    if c.month < 12 {
      MonthsAdvance(c.year, c.month, 12);
    }
  }

  lemma EarlierDate(a: Civil, b: Civil)
    requires Valid(a) && Valid(b)
    requires a.year < b.year || (a.year == b.year && (a.month < b.month || (a.month == b.month && a.day < b.day)))
    ensures Days(a) < Days(b)
  {
    if a.year < b.year {
      DayOfYear(a);
      DayOfYear(b);
      YearsAdvance(a.year, b.year);
    } else if a.month < b.month {
      MonthsAdvance(a.year, a.month, b.month);
    }
  }

  lemma BeforeIsEarlier(a: Civil, b: Civil)
    requires Valid(a) && Valid(b) && Before(a, b)
    ensures Instant(a) < Instant(b)
  {
    if a.year != b.year || a.month != b.month || a.day != b.day {
      EarlierDate(a, b);
    }
  }

  /** The order of the fields is the order of the instants. */
  lemma FieldOrderIsTimeOrder(a: Civil, b: Civil)
    requires Valid(a) && Valid(b)
    ensures Before(a, b) <==> Instant(a) < Instant(b)
    ensures a == b <==> Instant(a) == Instant(b)
  {
    if Before(a, b) {
      BeforeIsEarlier(a, b);
    } else if Before(b, a) {
      BeforeIsEarlier(b, a);
    } else {
      assert a == b;
    }
  }

  // ---- the text -------------------------------------------------------------------------------------

  function Pow10(n: nat): nat {
    if n == 0 then 1 else 10 * Pow10(n - 1)
  }

  /** `n` decimal digits, with leading zeros. */
  function Pad(x: nat, n: nat): (s: string)
    ensures |s| == n
  {
    if n == 0 then "" else Pad(x / 10, n - 1) + ['0' + (x % 10) as char]
  }

  const UTC := "+00:00"

  function Fraction(micro: nat): string {
    if micro == 0 then "" else "." + Pad(micro, 6)
  }

  function FromSecond(c: Civil): string {
    Pad(c.second, 2) + (Fraction(c.micro) + UTC)
  }

  function FromMinute(c: Civil): string {
    Pad(c.minute, 2) + (":" + FromSecond(c))
  }

  function FromHour(c: Civil): string {
    Pad(c.hour, 2) + (":" + FromMinute(c))
  }

  function FromDay(c: Civil): string {
    Pad(c.day, 2) + ("T" + FromHour(c))
  }

  function FromMonth(c: Civil): string {
    Pad(c.month, 2) + ("-" + FromDay(c))
  }

  function Iso(c: Civil): string {
    Pad(c.year, 4) + ("-" + FromMonth(c))
  }

  /** Equally long beginnings decide first, the rest after them. */
  lemma {:induction false} TextOrderConcat(a: string, b: string, s: string, t: string)
    requires |a| == |b|
    ensures TextBefore(a + s, b + t) <==> TextBefore(a, b) || (a == b && TextBefore(s, t))
    ensures a + s == b + t <==> a == b && s == t
  {
    if a == "" {
      assert a + s == s && b + t == t;
    } else {
      TextOrderConcat(a[1..], b[1..], s, t);
      assert (a + s)[1..] == a[1..] + s && (b + t)[1..] == b[1..] + t;
      assert a == [a[0]] + a[1..] && b == [b[0]] + b[1..];
      assert (a + s)[0] == a[0] && (b + t)[0] == b[0];
    }
  }

  /** A shared separator decides nothing. */
  lemma AfterSeparator(sep: string, s: string, t: string)
    ensures TextBefore(sep + s, sep + t) <==> TextBefore(s, t)
    ensures sep + s == sep + t <==> s == t
  {
    TextOrderConcat(sep, sep, s, t);
    NotBeforeItself(sep);
  }

  lemma {:induction false} NotBeforeItself(s: string)
    ensures !TextBefore(s, s)
  {
    if s != "" {
      NotBeforeItself(s[1..]);
    }
  }

  lemma OneDigit(c: char, d: char)
    ensures TextBefore([c], [d]) <==> c < d
  {
    assert [c][1..] == "" && [d][1..] == "";
  }

  /** Padded numbers compare as text the way they compare as numbers. */
  lemma {:induction false} PadOrder(x: nat, y: nat, n: nat)
    requires x < Pow10(n) && y < Pow10(n)
    ensures TextBefore(Pad(x, n), Pad(y, n)) <==> x < y
    ensures Pad(x, n) == Pad(y, n) <==> x == y
  {
    if n > 0 {
      PadOrder(x / 10, y / 10, n - 1);
      var c, d := '0' + (x % 10) as char, '0' + (y % 10) as char;
      TextOrderConcat(Pad(x / 10, n - 1), Pad(y / 10, n - 1), [c], [d]);
      OneDigit(c, d);
      assert x == 10 * (x / 10) + x % 10 && y == 10 * (y / 10) + y % 10;
      assert c == d <==> x % 10 == y % 10;
      assert [c] == [d] <==> c == d;
    }
  }

  /** One field and what follows it. */
  lemma FieldOrder(x: nat, y: nat, n: nat, s: string, t: string)
    requires x < Pow10(n) && y < Pow10(n)
    ensures TextBefore(Pad(x, n) + s, Pad(y, n) + t) <==> x < y || (x == y && TextBefore(s, t))
    ensures Pad(x, n) + s == Pad(y, n) + t <==> x == y && s == t
  {
    PadOrder(x, y, n);
    TextOrderConcat(Pad(x, n), Pad(y, n), s, t);
  }

  /** An omitted fraction sorts before every written one, because `+` sorts before the point. */
  lemma FractionOrder(x: nat, y: nat)
    requires x < 1_000_000 && y < 1_000_000
    ensures TextBefore(Fraction(x) + UTC, Fraction(y) + UTC) <==> x < y
    ensures Fraction(x) + UTC == Fraction(y) + UTC <==> x == y
  {
    assert Pow10(6) == 1_000_000 by {
      assert Pow10(3) == 1000;
    }
    NotBeforeItself(UTC);
    if x == 0 && y == 0 {
      assert Fraction(x) + UTC == Fraction(y) + UTC == UTC;
    } else if x > 0 && y > 0 {
      FieldOrder(x, y, 6, UTC, UTC);
      AfterSeparator(".", Pad(x, 6) + UTC, Pad(y, 6) + UTC);
      assert Fraction(x) + UTC == "." + (Pad(x, 6) + UTC);
      assert Fraction(y) + UTC == "." + (Pad(y, 6) + UTC);
    } else {
      assert x == 0 ==> (Fraction(x) + UTC)[0] == '+';
      assert y == 0 ==> (Fraction(y) + UTC)[0] == '+';
      assert x > 0 ==> (Fraction(x) + UTC)[0] == '.';
      assert y > 0 ==> (Fraction(y) + UTC)[0] == '.';
    }
  }

  /** For all UTC instants the order of the stored text is the order in time. */
  lemma TextOrderIsTimeOrder(a: Civil, b: Civil)
    requires Valid(a) && Valid(b)
    ensures TextBefore(Iso(a), Iso(b)) <==> Instant(a) < Instant(b)
    ensures Iso(a) == Iso(b) <==> Instant(a) == Instant(b)
  {
    IsoOrder(a, b);
    FieldOrderIsTimeOrder(a, b);
  }

  /** A field, a separator, and what follows them. */
  lemma SeparatedOrder(x: nat, y: nat, n: nat, sep: string, s: string, t: string)
    requires x < Pow10(n) && y < Pow10(n)
    ensures TextBefore(Pad(x, n) + (sep + s), Pad(y, n) + (sep + t)) <==> x < y || (x == y && TextBefore(s, t))
    ensures Pad(x, n) + (sep + s) == Pad(y, n) + (sep + t) <==> x == y && s == t
  {
    AfterSeparator(sep, s, t);
    FieldOrder(x, y, n, sep + s, sep + t);
  }

  predicate TimeBefore(a: Civil, b: Civil) {
    if a.hour != b.hour then a.hour < b.hour
    else if a.minute != b.minute then a.minute < b.minute
    else if a.second != b.second then a.second < b.second
    else a.micro < b.micro
  }

  lemma TimeOrder(a: Civil, b: Civil)
    requires Valid(a) && Valid(b)
    ensures TextBefore(FromHour(a), FromHour(b)) <==> TimeBefore(a, b)
    ensures FromHour(a) == FromHour(b)
      <==> a.hour == b.hour && a.minute == b.minute && a.second == b.second && a.micro == b.micro
  {
    assert Pow10(2) == 100;
    FractionOrder(a.micro, b.micro);
    FieldOrder(a.second, b.second, 2, Fraction(a.micro) + UTC, Fraction(b.micro) + UTC);
    SeparatedOrder(a.minute, b.minute, 2, ":", FromSecond(a), FromSecond(b));
    SeparatedOrder(a.hour, b.hour, 2, ":", FromMinute(a), FromMinute(b));
  }

  lemma IsoOrder(a: Civil, b: Civil)
    requires Valid(a) && Valid(b)
    ensures TextBefore(Iso(a), Iso(b)) <==> Before(a, b)
    ensures Iso(a) == Iso(b) <==> a == b
  {
    assert Pow10(2) == 100;
    assert Pow10(4) == 10_000;
    TimeOrder(a, b);
    SeparatedOrder(a.day, b.day, 2, "T", FromHour(a), FromHour(b));
    SeparatedOrder(a.month, b.month, 2, "-", FromDay(a), FromDay(b));
    SeparatedOrder(a.year, b.year, 4, "-", FromMonth(a), FromMonth(b));
  }
}
