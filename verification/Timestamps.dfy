/**
  Instants are stored as `datetime.isoformat()` text and compared as text. For UTC instants the
  order of the texts is the order of the instants, although the fraction is printed only when
  it is not zero: `+` sorts before `.`, as extending section 5.1 of RFC 3339 needs.
 */
module Timestamps {
  datatype Instant = Instant(year: nat, month: nat, day: nat, hour: nat, minute: nat, second: nat, micro: nat)

  predicate IsLeap(y: nat) {
    y % 4 == 0 && (y % 100 != 0 || y % 400 == 0)
  }

  function DaysInMonth(y: nat, m: nat): nat {
    if m == 2 then (if IsLeap(y) then 29 else 28)
    else if m == 4 || m == 6 || m == 9 || m == 11 then 30 else 31
  }

  predicate IsInstant(t: Instant) {
    && 1 <= t.year <= 9999 && 1 <= t.month <= 12 && 1 <= t.day <= DaysInMonth(t.year, t.month)
    && t.hour < 24 && t.minute < 60 && t.second < 60 && t.micro < 1000000
  }

  // ---- Real time ------------------------------------------------------------------------

  /** Days before 1 January of year `y` in the proleptic Gregorian calendar. */
  function DaysBeforeYear(y: nat): int
    requires 1 <= y
  {
    365 * (y - 1) + (y - 1) / 4 - (y - 1) / 100 + (y - 1) / 400
  }

  function DaysBeforeMonth(y: nat, m: nat): nat
    requires 1 <= m
  {
    if m == 1 then 0 else DaysBeforeMonth(y, m - 1) + DaysInMonth(y, m - 1)
  }

  function DayNumber(t: Instant): int
    requires IsInstant(t)
  {
    DaysBeforeYear(t.year) + DaysBeforeMonth(t.year, t.month) + t.day
  }

  /** Microseconds on one time line. */
  function Micros(t: Instant): int
    requires IsInstant(t)
  {
    (((DayNumber(t) * 24 + t.hour) * 60 + t.minute) * 60 + t.second) * 1000000 + t.micro
  }

  // ---- Text -----------------------------------------------------------------------------

  function Digit(d: nat): char
    requires d < 10
  {
    ('0' as int + d) as char
  }

  /** The last `width` decimal digits of `n`, zero padded. */
  function Pad(n: nat, width: nat): (s: string)
    ensures |s| == width
  {
    if width == 0 then "" else Pad(n / 10, width - 1) + [Digit(n % 10)]
  }

  /** A number of fixed width and the separator after it. */
  datatype Field = Field(value: nat, width: nat, sep: string)

  function Render(fs: seq<Field>): string {
    if fs == [] then "" else Pad(fs[0].value, fs[0].width) + fs[0].sep + Render(fs[1..])
  }

  function Fields(t: Instant): seq<Field> {
    [Field(t.year, 4, "-"), Field(t.month, 2, "-"), Field(t.day, 2, "T"),
     Field(t.hour, 2, ":"), Field(t.minute, 2, ":"), Field(t.second, 2, "")]
  }

  const UTC := "+00:00"

  function Fraction(micro: nat): string {
    (if micro == 0 then "" else "." + Pad(micro, 6)) + UTC
  }

  function IsoFormat(t: Instant): string {
    Render(Fields(t)) + Fraction(t.micro)
  }

  /** The order the SQL comparisons use: character by character, a proper prefix first. */
  predicate TextLess(a: string, b: string) {
    b != "" && (a == "" || a[0] < b[0] || (a[0] == b[0] && TextLess(a[1..], b[1..])))
  }

  // ---- Texts compare like their parts ---------------------------------------------------

  lemma {:induction false} LessConcat(p: string, q: string, x: string, y: string)
    requires |p| == |q|
    ensures TextLess(p + x, q + y) <==> TextLess(p, q) || (p == q && TextLess(x, y))
    decreases |p|
  {
    if p == "" {
      assert p + x == x && q + y == y;
    } else {
      assert (p + x)[1..] == p[1..] + x && (q + y)[1..] == q[1..] + y;
      assert p == q <==> p[0] == q[0] && p[1..] == q[1..];
      LessConcat(p[1..], q[1..], x, y);
    }
  }

  function Pow10(w: nat): nat {
    if w == 0 then 1 else 10 * Pow10(w - 1)
  }

  lemma {:induction false} PadOrder(a: nat, b: nat, w: nat)
    requires a < Pow10(w) && b < Pow10(w)
    ensures TextLess(Pad(a, w), Pad(b, w)) <==> a < b
    ensures Pad(a, w) == Pad(b, w) <==> a == b
    decreases w
  {
    if w > 0 {
      PadOrder(a / 10, b / 10, w - 1);
      var p, q, x, y := Pad(a / 10, w - 1), Pad(b / 10, w - 1), [Digit(a % 10)], [Digit(b % 10)];
      LessConcat(p, q, x, y);
      assert x[1..] == "" && y[1..] == "";
      assert Pad(a, w)[..w - 1] == p && Pad(b, w)[..w - 1] == q;
      assert Pad(a, w)[w - 1] == x[0] && Pad(b, w)[w - 1] == y[0];
    }
  }

  predicate SameShape(f: seq<Field>, g: seq<Field>) {
    |f| == |g| && forall i | 0 <= i < |f| ::
      f[i].width == g[i].width && f[i].sep == g[i].sep && f[i].value < Pow10(f[i].width)
          && g[i].value < Pow10(g[i].width)
  }

  predicate FieldsLess(f: seq<Field>, g: seq<Field>)
    requires |f| == |g|
  {
    f != [] && (f[0].value < g[0].value || (f[0].value == g[0].value && FieldsLess(f[1..], g[1..])))
  }

  lemma {:induction false} NotLessSelf(s: string)
    ensures !TextLess(s, s)
  {
    if s != "" { NotLessSelf(s[1..]); }
  }

  lemma Regroup(p: string, q: string, r: string, x: string)
    ensures p + q + r + x == p + (q + (r + x))
  {}

  lemma RenderSplit(f: seq<Field>, x: string)
    requires f != []
    ensures Render(f) + x == Pad(f[0].value, f[0].width) + (f[0].sep + (Render(f[1..]) + x))
  {
    Regroup(Pad(f[0].value, f[0].width), f[0].sep, Render(f[1..]), x);
  }

  lemma {:induction false} RenderOrder(f: seq<Field>, g: seq<Field>, x: string, y: string)
    requires SameShape(f, g)
    ensures TextLess(Render(f) + x, Render(g) + y) <==> FieldsLess(f, g) || (f == g && TextLess(x, y))
    decreases |f|
  {
    if f == [] {
      assert Render(f) + x == x && Render(g) + y == y;
    } else {
      var p, q, sep := Pad(f[0].value, f[0].width), Pad(g[0].value, g[0].width), f[0].sep;
      var restF, restG := Render(f[1..]) + x, Render(g[1..]) + y;
      RenderSplit(f, x);
      RenderSplit(g, y);
      PadOrder(f[0].value, g[0].value, f[0].width);
      LessConcat(p, q, sep + restF, sep + restG);
      LessConcat(sep, sep, restF, restG);
      NotLessSelf(sep);
      RenderOrder(f[1..], g[1..], x, y);
      assert f == [f[0]] + f[1..] && g == [g[0]] + g[1..];
    }
  }

  lemma FractionOrder(m: nat, n: nat)
    requires m < 1000000 && n < 1000000
    ensures TextLess(Fraction(m), Fraction(n)) <==> m < n
  {
    if m == 0 && n == 0 {
      NotLessSelf(Fraction(0));
    } else if m == 0 {
      assert Fraction(m)[0] == '+' && Fraction(n)[0] == '.';
    } else if n == 0 {
      assert Fraction(m)[0] == '.' && Fraction(n)[0] == '+';
    } else {
      assert Fraction(m) == "." + (Pad(m, 6) + UTC) && Fraction(n) == "." + (Pad(n, 6) + UTC);
      LessConcat(".", ".", Pad(m, 6) + UTC, Pad(n, 6) + UTC);
      LessConcat(Pad(m, 6), Pad(n, 6), UTC, UTC);
      NotLessSelf(UTC);
      NotLessSelf(".");
      assert Pow10(6) == 1000000 by { assert Pow10(3) == 1000; }
      PadOrder(m, n, 6);
    }
  }

  // ---- The calendar is monotone ---------------------------------------------------------

  lemma Every4(n: nat)
    ensures (n + 1) / 4 == n / 4 + (if (n + 1) % 4 == 0 then 1 else 0)
  {}

  lemma Every100(n: nat)
    ensures (n + 1) / 100 == n / 100 + (if (n + 1) % 100 == 0 then 1 else 0)
  {}

  lemma Every400(n: nat)
    ensures (n + 1) / 400 == n / 400 + (if (n + 1) % 400 == 0 then 1 else 0)
  {}

  lemma {:induction false} FourTimes(m: nat)
    ensures (4 * m) % 4 == 0
  {
    if m > 0 { FourTimes(m - 1); }
  }

  lemma {:induction false} HundredTimes(m: nat)
    ensures (100 * m) % 100 == 0
  {
    if m > 0 { HundredTimes(m - 1); }
  }

  lemma HundredsAreFours(n: nat)
    ensures n % 100 == 0 ==> n % 4 == 0
  {
    if n % 100 == 0 { FourTimes(25 * (n / 100)); }
  }

  lemma FourHundredsAreHundreds(n: nat)
    ensures n % 400 == 0 ==> n % 100 == 0
  {
    if n % 400 == 0 { HundredTimes(4 * (n / 400)); }
  }

  lemma YearLength(y: nat)
    requires 1 <= y
    ensures DaysBeforeYear(y + 1) == DaysBeforeYear(y) + (if IsLeap(y) then 366 else 365)
  {
    Every4(y - 1);
    Every100(y - 1);
    Every400(y - 1);
    HundredsAreFours(y);
    FourHundredsAreHundreds(y);
  }

  lemma {:induction false} YearsMonotone(y: nat, z: nat)
    requires 1 <= y <= z
    ensures DaysBeforeYear(y) <= DaysBeforeYear(z)
    decreases z - y
  {
    if y < z {
      YearLength(y);
      YearsMonotone(y + 1, z);
    }
  }

  lemma {:induction false} MonthsMonotone(y: nat, m: nat, n: nat)
    requires 1 <= m <= n
    ensures DaysBeforeMonth(y, m) <= DaysBeforeMonth(y, n)
    decreases n
  {
    if m < n { MonthsMonotone(y, m, n - 1); }
  }

  lemma MonthsFillYear(y: nat)
    ensures DaysBeforeMonth(y, 13) == (if IsLeap(y) then 366 else 365)
  {
    assert DaysBeforeMonth(y, 2) == 31;
    assert DaysBeforeMonth(y, 3) == 31 + DaysInMonth(y, 2);
    assert DaysBeforeMonth(y, 4) == DaysBeforeMonth(y, 3) + 31;
    assert DaysBeforeMonth(y, 5) == DaysBeforeMonth(y, 4) + 30;
    assert DaysBeforeMonth(y, 6) == DaysBeforeMonth(y, 5) + 31;
    assert DaysBeforeMonth(y, 7) == DaysBeforeMonth(y, 6) + 30;
    assert DaysBeforeMonth(y, 8) == DaysBeforeMonth(y, 7) + 31;
    assert DaysBeforeMonth(y, 9) == DaysBeforeMonth(y, 8) + 31;
    assert DaysBeforeMonth(y, 10) == DaysBeforeMonth(y, 9) + 30;
    assert DaysBeforeMonth(y, 11) == DaysBeforeMonth(y, 10) + 31;
    assert DaysBeforeMonth(y, 12) == DaysBeforeMonth(y, 11) + 30;
  }

  predicate DateLess(a: Instant, b: Instant) {
    a.year < b.year || (a.year == b.year && (a.month < b.month || (a.month == b.month && a.day < b.day)))
  }

  lemma DatesMonotone(a: Instant, b: Instant)
    requires IsInstant(a) && IsInstant(b) && DateLess(a, b)
    ensures DayNumber(a) < DayNumber(b)
  {
    MonthsMonotone(a.year, a.month + 1, 13);
    MonthsMonotone(b.year, 1, b.month);
    if a.year < b.year {
      MonthsFillYear(a.year);
      YearLength(a.year);
      YearsMonotone(a.year + 1, b.year);
    } else if a.month < b.month {
      MonthsMonotone(a.year, a.month + 1, b.month);
    }
  }

  predicate Before(a: Instant, b: Instant) {
    DateLess(a, b)
    || (a.year == b.year && a.month == b.month && a.day == b.day
        && (a.hour < b.hour || (a.hour == b.hour
        && (a.minute < b.minute || (a.minute == b.minute
        && (a.second < b.second || (a.second == b.second && a.micro < b.micro)))))))
  }

  lemma BeforeIsEarlier(a: Instant, b: Instant)
    requires IsInstant(a) && IsInstant(b) && Before(a, b)
    ensures Micros(a) < Micros(b)
  {
    if DateLess(a, b) { DatesMonotone(a, b); }
  }

  /** One comparison for each field, then the rest. */
  lemma FieldsInOrder(f: seq<Field>, g: seq<Field>)
    requires |f| == |g| == 6
    ensures FieldsLess(f, g) <==>
      (f[0].value < g[0].value || (f[0].value == g[0].value
      && (f[1].value < g[1].value || (f[1].value == g[1].value
      && (f[2].value < g[2].value || (f[2].value == g[2].value
      && (f[3].value < g[3].value || (f[3].value == g[3].value
      && (f[4].value < g[4].value || (f[4].value == g[4].value
      && f[5].value < g[5].value))))))))))
  {
    FieldsLessFrom(f, g, 5);
    FieldsLessFrom(f, g, 4);
    FieldsLessFrom(f, g, 3);
    FieldsLessFrom(f, g, 2);
    FieldsLessFrom(f, g, 1);
    FieldsLessFrom(f, g, 0);
    assert !FieldsLess(f[6..], g[6..]);
  }

  lemma TextBefore(a: Instant, b: Instant)
    requires IsInstant(a) && IsInstant(b)
    ensures TextLess(IsoFormat(a), IsoFormat(b)) <==> Before(a, b)
  {
    var f, g := Fields(a), Fields(b);
    SameShapes(a, b);
    RenderOrder(f, g, Fraction(a.micro), Fraction(b.micro));
    FractionOrder(a.micro, b.micro);
    FieldsInOrder(f, g);
    assert f == g <==> f[0] == g[0] && f[1] == g[1] && f[2] == g[2] && f[3] == g[3] && f[4] == g[4] && f[5] == g[5];
  }

  lemma SameShapes(a: Instant, b: Instant)
    requires IsInstant(a) && IsInstant(b)
    ensures SameShape(Fields(a), Fields(b))
  {
    assert Pow10(2) == 100 && Pow10(4) == 100 * Pow10(2);
  }

  lemma FieldsLessFrom(f: seq<Field>, g: seq<Field>, i: nat)
    requires i < |f| == |g|
    ensures FieldsLess(f[i..], g[i..]) <==>
      f[i].value < g[i].value || (f[i].value == g[i].value && FieldsLess(f[i + 1..], g[i + 1..]))
    ensures i == 0 ==> FieldsLess(f[i..], g[i..]) == FieldsLess(f, g)
  {
    assert f[i..][1..] == f[i + 1..] && g[i..][1..] == g[i + 1..];
    assert i == 0 ==> f[i..] == f && g[i..] == g;
  }

  /** The order, and the equality, of the stored texts is that of the instants. */
  lemma TextOrderIsTimeOrder(a: Instant, b: Instant)
    requires IsInstant(a) && IsInstant(b)
    ensures TextLess(IsoFormat(a), IsoFormat(b)) <==> Micros(a) < Micros(b)
    ensures IsoFormat(a) == IsoFormat(b) <==> Micros(a) == Micros(b)
  {
    TextBefore(a, b);
    TextBefore(b, a);
    if Before(a, b) {
      BeforeIsEarlier(a, b);
      NotLessSelf(IsoFormat(a));
    } else if Before(b, a) {
      BeforeIsEarlier(b, a);
      NotLessSelf(IsoFormat(a));
    } else {
      assert a == b;
    }
  }
}
