/** Timestamps are stored as the text of `datetime.isoformat()` in UTC and compared byte by byte in every
    bucket, purge and last-check query (pingback/db/rollups.py:148-161, pingback/db/monitors.py:15-16). The
    fraction is left out at zero microseconds, so the fixed-width premise of section 5.1 of RFC 3339 does
    not hold; the order survives because '+' sorts before '.'. */
module IsoOrder {

  // ---------------------------------------------------------------- instants

  datatype Instant = Instant(year: nat, month: nat, day: nat, hour: nat, minute: nat, second: nat, micro: nat)

  predicate Leap(year: nat) {
    year % 4 == 0 && (year % 100 != 0 || year % 400 == 0)
  }

  function DaysIn(year: nat, month: nat): nat {
    if month == 2 then if Leap(year) then 29 else 28
    else if month == 4 || month == 6 || month == 9 || month == 11 then 30
    else 31
  }

  /** The range of `datetime`. */
  predicate Valid(t: Instant) {
    && 1 <= t.year <= 9999 && 1 <= t.month <= 12 && 1 <= t.day <= DaysIn(t.year, t.month)
    && t.hour < 24 && t.minute < 60 && t.second < 60 && t.micro < 1_000_000
  }

  function DaysBeforeMonth(year: nat, month: nat): nat {
    if month <= 1 then 0 else DaysBeforeMonth(year, month - 1) + DaysIn(year, month - 1)
  }

  function DaysBeforeYear(year: nat): nat {
    if year <= 1 then 0 else DaysBeforeYear(year - 1) + DaysBeforeMonth(year - 1, 13)
  }

  function Day(t: Instant): int {
    DaysBeforeYear(t.year) + DaysBeforeMonth(t.year, t.month) + t.day - 1
  }

  /** Microseconds since the start of year 1. */
  function Micros(t: Instant): int {
    (((Day(t) * 24 + t.hour) * 60 + t.minute) * 60 + t.second) * 1_000_000 + t.micro
  }

  // ---------------------------------------------------------------- text

  /** `n` in decimal, zero-padded to `width` digits. */
  function Pad(n: nat, width: nat): (s: string)
    ensures |s| == width
  {
    if width == 0 then "" else Pad(n / 10, width - 1) + [('0' as int + n % 10) as char]
  }

  function Fraction(micro: nat): string {
    if micro == 0 then "" else "." + Pad(micro, 6)
  }

  function Clock(t: Instant, zone: string): string {
    Pad(t.hour, 2) + (":" + (Pad(t.minute, 2) + (":" + (Pad(t.second, 2) + (Fraction(t.micro) + zone)))))
  }

  /** `isoformat()` with the zone spelled as given. */
  function IsoIn(t: Instant, zone: string): string {
    Pad(t.year, 4) + ("-" + (Pad(t.month, 2) + ("-" + (Pad(t.day, 2) + ("T" + Clock(t, zone))))))
  }

  /** What the code stores. */
  function Iso(t: Instant): string {
    IsoIn(t, "+00:00")
  }

  /** The order of SQLite's BINARY collation. */
  predicate Less(s: string, t: string) {
    if t == "" then false
    else if s == "" then true
    else s[0] < t[0] || (s[0] == t[0] && Less(s[1..], t[1..]))
  }

  // ---------------------------------------------------------------- comparing texts field by field

  lemma {:induction false} LessIrreflexive(s: string)
    ensures !Less(s, s)
  {
    if s == "" {
    } else {
      LessIrreflexive(s[1..]);
    }
  }

  lemma {:induction false} PrefixDecides(p: string, q: string, x: string, y: string)
    requires |p| == |q|
    ensures Less(p + x, q + y) <==> Less(p, q) || (p == q && Less(x, y))
    decreases |p|
  {
    if p == "" {
      assert p + x == x && q + y == y;
    } else {
      assert (p + x)[1..] == p[1..] + x && (q + y)[1..] == q[1..] + y;
      PrefixDecides(p[1..], q[1..], x, y);
      assert p == [p[0]] + p[1..] && q == [q[0]] + q[1..];
    }
  }

  lemma SharedPrefix(p: string, x: string, y: string)
    ensures Less(p + x, p + y) <==> Less(x, y)
  {
    PrefixDecides(p, p, x, y);
    LessIrreflexive(p);
  }

  function Power(width: nat): (p: nat)
    ensures p > 0
  {
    if width == 0 then 1 else 10 * Power(width - 1)
  }

  lemma {:induction false} PadOrder(m: nat, n: nat, width: nat)
    requires m < Power(width) && n < Power(width)
    ensures Less(Pad(m, width), Pad(n, width)) <==> m < n
    ensures Pad(m, width) == Pad(n, width) <==> m == n
  {
    if width == 0 {
    } else {
      PadOrder(m / 10, n / 10, width - 1);
      var x, y := [('0' as int + m % 10) as char], [('0' as int + n % 10) as char];
      PrefixDecides(Pad(m / 10, width - 1), Pad(n / 10, width - 1), x, y);
      assert Less(x, y) <==> m % 10 < n % 10;
      assert Pad(m, width)[width - 1] == x[0] && Pad(n, width)[width - 1] == y[0];
      assert Pad(m, width)[..width - 1] == Pad(m / 10, width - 1);
      assert Pad(n, width)[..width - 1] == Pad(n / 10, width - 1);
    }
  }

  /** One padded field ahead of the rest. */
  lemma FieldDecides(m: nat, n: nat, width: nat, x: string, y: string)
    requires m < Power(width) && n < Power(width)
    ensures Less(Pad(m, width) + x, Pad(n, width) + y) <==> m < n || (m == n && Less(x, y))
  {
    PadOrder(m, n, width);
    PrefixDecides(Pad(m, width), Pad(n, width), x, y);
  }

  lemma Powers()
    ensures Power(2) == 100 && Power(4) == 10_000 && Power(6) == 1_000_000
  {
    assert Power(3) == 1_000 && Power(5) == 100_000;
  }

  /** The fraction and the zone together: a zone that starts below '.' keeps a missing fraction first. */
  lemma FractionDecides(m: nat, n: nat, zone: string)
    requires m < 1_000_000 && n < 1_000_000 && zone != "" && zone[0] < '.'
    ensures Less(Fraction(m) + zone, Fraction(n) + zone) <==> m < n
  {
    LessIrreflexive(zone);
    if m > 0 && n > 0 {
      FractionsDecide(m, n, zone);
    } else if m > 0 {
      DotAfter(Pad(m, 6), zone);
    } else if n > 0 {
      DotAfter(Pad(n, 6), zone);
    }
    assert "" + zone == zone;
  }

  lemma FractionsDecide(m: nat, n: nat, zone: string)
    requires 0 < m < 1_000_000 && 0 < n < 1_000_000
    ensures Less(Fraction(m) + zone, Fraction(n) + zone) <==> m < n || (m == n && Less(zone, zone))
  {
    Powers();
    var x, y := Pad(m, 6), Pad(n, 6);
    FieldDecides(m, n, 6, zone, zone);
    assert ("." + x) + zone == "." + (x + zone) && ("." + y) + zone == "." + (y + zone);
    SharedPrefix(".", x + zone, y + zone);
  }

  lemma DotAfter(digits: string, zone: string)
    requires zone != "" && zone[0] < '.'
    ensures Less(zone, ("." + digits) + zone) && !Less(("." + digits) + zone, zone)
  {
    assert (("." + digits) + zone)[0] == '.';
  }

  // ---------------------------------------------------------------- fields in chronological order

  predicate ClockBefore(a: Instant, b: Instant) {
    || a.hour < b.hour
    || (a.hour == b.hour && (a.minute < b.minute
       || (a.minute == b.minute && (a.second < b.second || (a.second == b.second && a.micro < b.micro)))))
  }

  predicate DateBefore(a: Instant, b: Instant) {
    a.year < b.year || (a.year == b.year && (a.month < b.month || (a.month == b.month && a.day < b.day)))
  }

  predicate SameDate(a: Instant, b: Instant) {
    a.year == b.year && a.month == b.month && a.day == b.day
  }

  lemma ClockDecides(a: Instant, b: Instant, zone: string)
    requires Valid(a) && Valid(b) && zone != "" && zone[0] < '.'
    ensures Less(Clock(a, zone), Clock(b, zone)) <==> ClockBefore(a, b)
  {
    Powers();
    var a3, b3 := Fraction(a.micro) + zone, Fraction(b.micro) + zone;
    FractionDecides(a.micro, b.micro, zone);
    var a2, b2 := Pad(a.second, 2) + a3, Pad(b.second, 2) + b3;
    FieldDecides(a.second, b.second, 2, a3, b3);
    SharedPrefix(":", a2, b2);
    var a1, b1 := Pad(a.minute, 2) + (":" + a2), Pad(b.minute, 2) + (":" + b2);
    FieldDecides(a.minute, b.minute, 2, ":" + a2, ":" + b2);
    SharedPrefix(":", a1, b1);
    FieldDecides(a.hour, b.hour, 2, ":" + a1, ":" + b1);
  }

  lemma TextDecides(a: Instant, b: Instant, zone: string)
    requires Valid(a) && Valid(b) && zone != "" && zone[0] < '.'
    ensures Less(IsoIn(a, zone), IsoIn(b, zone)) <==> DateBefore(a, b) || (SameDate(a, b) && ClockBefore(a, b))
  {
    Powers();
    var a3, b3 := Clock(a, zone), Clock(b, zone);
    ClockDecides(a, b, zone);
    SharedPrefix("T", a3, b3);
    var a2, b2 := Pad(a.day, 2) + ("T" + a3), Pad(b.day, 2) + ("T" + b3);
    FieldDecides(a.day, b.day, 2, "T" + a3, "T" + b3);
    SharedPrefix("-", a2, b2);
    var a1, b1 := Pad(a.month, 2) + ("-" + a2), Pad(b.month, 2) + ("-" + b2);
    FieldDecides(a.month, b.month, 2, "-" + a2, "-" + b2);
    SharedPrefix("-", a1, b1);
    FieldDecides(a.year, b.year, 4, "-" + a1, "-" + b1);
  }

  // ---------------------------------------------------------------- the calendar

  lemma {:induction false} MonthsGrow(year: nat, m: nat, n: nat)
    requires 1 <= m < n
    ensures DaysBeforeMonth(year, m) + DaysIn(year, m) <= DaysBeforeMonth(year, n)
  {
    if m + 1 == n {
    } else {
      MonthsGrow(year, m, n - 1);
    }
  }

  lemma {:induction false} YearsGrow(y: nat, z: nat)
    requires 1 <= y < z
    ensures DaysBeforeYear(y) + DaysBeforeMonth(y, 13) <= DaysBeforeYear(z)
  {
    if y + 1 == z {
    } else {
      YearsGrow(y, z - 1);
    }
  }

  lemma EarlierDate(a: Instant, b: Instant)
    requires Valid(a) && Valid(b) && DateBefore(a, b)
    ensures Day(a) < Day(b)
  {
    if a.year < b.year {
      YearsGrow(a.year, b.year);
      MonthsGrow(a.year, a.month, 13);
    } else if a.month < b.month {
      MonthsGrow(a.year, a.month, b.month);
    }
  }

  lemma DayDecides(a: Instant, b: Instant)
    requires Valid(a) && Valid(b)
    ensures Day(a) < Day(b) <==> DateBefore(a, b)
    ensures Day(a) == Day(b) <==> SameDate(a, b)
  {
    if DateBefore(a, b) {
      EarlierDate(a, b);
    } else if DateBefore(b, a) {
      EarlierDate(b, a);
    }
  }

  lemma MicrosDecide(a: Instant, b: Instant)
    requires Valid(a) && Valid(b)
    ensures Micros(a) < Micros(b) <==> DateBefore(a, b) || (SameDate(a, b) && ClockBefore(a, b))
  {
    DayDecides(a, b);
    SecondsDecide(Day(a), Day(b), a, b);
  }

  lemma SecondsDecide(d: int, e: int, a: Instant, b: Instant)
    requires Valid(a) && Valid(b)
    ensures (((d * 24 + a.hour) * 60 + a.minute) * 60 + a.second) * 1_000_000 + a.micro
          < (((e * 24 + b.hour) * 60 + b.minute) * 60 + b.second) * 1_000_000 + b.micro
        <==> d < e || (d == e && ClockBefore(a, b))
  {
    var h, i := d * 24 + a.hour, e * 24 + b.hour;
    assert h < i <==> d < e || (d == e && a.hour < b.hour);
    var m, n := h * 60 + a.minute, i * 60 + b.minute;
    assert m < n <==> h < i || (h == i && a.minute < b.minute);
    var s, t := m * 60 + a.second, n * 60 + b.second;
    assert s < t <==> m < n || (m == n && a.second < b.second);
  }

  lemma DaysInYear(year: nat)
    ensures DaysBeforeMonth(year, 13) == if Leap(year) then 366 else 365
  {
    var march := 31 + DaysIn(year, 2);
    assert DaysBeforeMonth(year, 2) == 31;
    assert DaysBeforeMonth(year, 3) == march;
    assert DaysBeforeMonth(year, 5) == march + 61;
    assert DaysBeforeMonth(year, 7) == march + 122;
    assert DaysBeforeMonth(year, 9) == march + 184;
    assert DaysBeforeMonth(year, 11) == march + 245;
  }

  /** One more year: how many multiples of `n` there are up to it. */
  lemma MultiplesMore(y: nat, n: nat)
    requires n > 0
    ensures (y + 1) / n == y / n + if (y + 1) % n == 0 then 1 else 0
  {
    var q, r := y / n, y % n;
    assert y == q * n + r;
    if r == n - 1 {
      assert y + 1 == (q + 1) * n;
      QuotientIs(y + 1, n, q + 1, 0);
    } else {
      QuotientIs(y + 1, n, q, r + 1);
    }
  }

  lemma QuotientIs(x: nat, n: nat, q: nat, r: nat)
    requires n > 0 && x == q * n + r && r < n
    ensures x / n == q && x % n == r
  {
    if x / n < q {
      MulGap(x / n, q, n);
    } else if x / n > q {
      MulGap(q, x / n, n);
    }
  }

  lemma MulGap(a: nat, b: nat, n: nat)
    requires a < b
    ensures a * n + n <= b * n
  {
    var k := b - a - 1;
    assert k * n >= 0;
    assert b * n == a * n + n + k * n;
  }

  /** Days in the first `y` years of the Gregorian calendar. */
  function GregorianDays(y: nat): int {
    365 * y + y / 4 - y / 100 + y / 400
  }

  lemma LeapIs(year: nat)
    ensures year % 400 == 0 ==> year % 100 == 0
    ensures year % 100 == 0 ==> year % 4 == 0
  {
    if year % 400 == 0 {
      QuotientIs(year, 100, year / 400 * 4, 0);
    }
    if year % 100 == 0 {
      QuotientIs(year, 4, year / 100 * 25, 0);
    }
  }

  lemma GregorianMore(y: nat)
    ensures GregorianDays(y + 1) == GregorianDays(y) + if Leap(y + 1) then 366 else 365
  {
    MultiplesMore(y, 4);
    MultiplesMore(y, 100);
    MultiplesMore(y, 400);
    LeapIs(y + 1);
  }

  lemma YearMore(year: nat)
    requires year >= 1
    ensures DaysBeforeYear(year + 1) == DaysBeforeYear(year) + if Leap(year) then 366 else 365
  {
    DaysInYear(year);
  }

  function YearLength(year: nat): int {
    if Leap(year) then 366 else 365
  }

  ghost predicate Adds(days: nat -> int, length: nat -> int) {
    days(0) == 0 && forall y: nat :: days(y + 1) == days(y) + length(y + 1)
  }

  lemma {:induction false} YearsAdd(y: nat, days: nat -> int, length: nat -> int)
    requires Adds(days, length) && forall year: nat :: year >= 1 ==>
      DaysBeforeYear(year + 1) == DaysBeforeYear(year) + length(year)
    ensures DaysBeforeYear(y + 1) == days(y)
  {
    if y == 0 {
    } else {
      YearsAdd(y - 1, days, length);
      assert days(y - 1 + 1) == days(y - 1) + length(y - 1 + 1);
    }
  }

  /** The calendar is the Gregorian one. */
  lemma YearsAreGregorian(y: nat)
    ensures DaysBeforeYear(y + 1) == GregorianDays(y)
  {
    var days, length := (n: nat) => GregorianDays(n), (n: nat) => YearLength(n);
    forall n: nat ensures days(n + 1) == days(n) + length(n + 1) {
      GregorianMore(n);
    }
    forall year: nat | year >= 1 ensures DaysBeforeYear(year + 1) == DaysBeforeYear(year) + length(year) {
      YearMore(year);
    }
    YearsAdd(y, days, length);
  }

  lemma MicrosOfMidnight(t: Instant, day: int)
    requires Day(t) == day && t.hour == t.minute == t.second == t.micro == 0
    ensures Micros(t) == day * 86_400_000_000
  {
  }

  lemma DayOfNewYear(t: Instant, day: int)
    requires t.month == t.day == 1 && DaysBeforeYear(t.year) == day
    ensures Day(t) == day
  {
  }

  /** Every New Year is where the Gregorian calendar has it. */
  lemma NewYearIs(t: Instant, y: nat, day: int)
    requires t.year == y + 1 && t.month == t.day == 1 && t.hour == t.minute == t.second == t.micro == 0
    requires day == GregorianDays(y)
    ensures Micros(t) == day * 86_400_000_000
  {
    YearsAreGregorian(y);
    DayOfNewYear(t, day);
    MicrosOfMidnight(t, day);
  }

  /** The Unix epoch is day 719162. */
  lemma EpochIs(y: nat)
    requires y == 1969
    ensures GregorianDays(y) == 719_162
  {
  }

  // ---------------------------------------------------------------- main results

  /** Over the whole range of `datetime`, comparing the stored texts is comparing the instants, whether or
      not either has a fraction; and the text determines the instant. */
  lemma TextOrderIsTimeOrder(a: Instant, b: Instant)
    requires Valid(a) && Valid(b)
    ensures Less(Iso(a), Iso(b)) <==> Micros(a) < Micros(b)
    ensures Iso(a) == Iso(b) <==> Micros(a) == Micros(b)
    ensures Micros(a) == Micros(b) <==> a == b
  {
    TextDecides(a, b, "+00:00");
    TextDecides(b, a, "+00:00");
    MicrosDecide(a, b);
    MicrosDecide(b, a);
    LessIrreflexive(Iso(a));
  }

  predicate Embeds(a: Instant, b: Instant, zone: string) {
    Less(IsoIn(a, zone), IsoIn(b, zone)) <==> Micros(a) < Micros(b)
  }

  /** Everything ahead of the fraction is shared by two instants of the same second. */
  lemma SameSecond(a: Instant, micro: nat, zone: string)
    ensures Less(IsoIn(a, zone), IsoIn(a.(micro := micro), zone))
       <==> Less(Fraction(a.micro) + zone, Fraction(micro) + zone)
  {
    var x, y := Fraction(a.micro) + zone, Fraction(micro) + zone;
    var b := a.(micro := micro);
    SharedPrefix(Pad(a.second, 2), x, y);
    SharedPrefix(":", Pad(a.second, 2) + x, Pad(a.second, 2) + y);
    var x1, y1 := ":" + (Pad(a.second, 2) + x), ":" + (Pad(a.second, 2) + y);
    SharedPrefix(Pad(a.minute, 2), x1, y1);
    SharedPrefix(":", Pad(a.minute, 2) + x1, Pad(a.minute, 2) + y1);
    SharedPrefix(Pad(a.hour, 2), ":" + (Pad(a.minute, 2) + x1), ":" + (Pad(a.minute, 2) + y1));
    SameDay(a, b, zone);
  }

  lemma SameDay(a: Instant, b: Instant, zone: string)
    requires SameDate(a, b)
    ensures Less(IsoIn(a, zone), IsoIn(b, zone)) <==> Less(Clock(a, zone), Clock(b, zone))
  {
    var x, y := "T" + Clock(a, zone), "T" + Clock(b, zone);
    SharedPrefix("T", Clock(a, zone), Clock(b, zone));
    SharedPrefix(Pad(a.day, 2), x, y);
    var x1, y1 := "-" + (Pad(a.day, 2) + x), "-" + (Pad(a.day, 2) + y);
    SharedPrefix("-", Pad(a.day, 2) + x, Pad(a.day, 2) + y);
    SharedPrefix(Pad(a.month, 2), x1, y1);
    SharedPrefix("-", Pad(a.month, 2) + x1, Pad(a.month, 2) + y1);
    SharedPrefix(Pad(a.year, 4), "-" + (Pad(a.month, 2) + x1), "-" + (Pad(a.month, 2) + y1));
  }

  /** A zone that starts above '.' puts every whole second after its own fractions. */
  lemma FractionsComeFirst(a: Instant, micro: nat, zone: string)
    requires Valid(a) && a.micro == 0 && 0 < micro < 1_000_000 && zone != "" && zone[0] > '.'
    ensures !Embeds(a, a.(micro := micro), zone)
  {
    SameSecond(a, micro, zone);
    var x, y := Fraction(0) + zone, Fraction(micro) + zone;
    assert x[0] == zone[0] && y[0] == '.';
    MicrosDecide(a, a.(micro := micro));
  }

  ghost predicate Faithful(zone: string) {
    forall a, b :: Valid(a) && Valid(b) ==> Embeds(a, b, zone)
  }

  lemma SomeWholeSecond() returns (a: Instant)
    ensures Valid(a) && a.micro == 0
  {
    a := Instant(1, 1, 1, 0, 0, 0, 0);
  }

  /** The spelling of the zone carries the order: it holds for all instants when the zone starts below '.',
      as "+00:00" does, and fails when it starts above, as "Z" does. */
  lemma ZoneDecidesIff(zone: string)
    requires zone != "" && zone[0] != '.'
    ensures Faithful(zone) <==> zone[0] < '.'
  {
    if zone[0] < '.' {
      forall a, b | Valid(a) && Valid(b) ensures Embeds(a, b, zone) {
        TextDecides(a, b, zone);
        MicrosDecide(a, b);
      }
    } else {
      var a := SomeWholeSecond();
      FractionsComeFirst(a, 1, zone);
      assert Valid(a.(micro := 1));
    }
  }
}
