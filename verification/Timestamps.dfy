/** The RFC 3339 printer of proxy/src/audit.rs: fixed-width UTC strings that sort in time order. */
module Timestamps {
  import opened Wrappers
  import opened Text

  // ── Calendar ───────────────────────────────────────────────────────────────

  predicate IsLeap(y: nat) {
    y % 4 == 0 && (y % 100 != 0 || y % 400 == 0)
  }

  function YearDays(y: nat): nat {
    if IsLeap(y) then 366 else 365
  }

  function MonthDays(y: nat, m: nat): (n: nat)
    ensures 28 <= n <= 31
  {
    if m == 2 then (if IsLeap(y) then 29 else 28)
    else if m == 4 || m == 6 || m == 9 || m == 11 then 30
    else 31
  }

  datatype Date = Date(year: nat, month: nat, day: nat)

  /** Walks whole years, starting at `y`, until `days` falls inside one: that year and the days left. */
  function YearAndRest(days: nat, y: nat): (r: (nat, nat))
    ensures r.0 >= y && r.1 < YearDays(r.0) && r.1 <= days
    decreases days
  {
    if days < YearDays(y) then (y, days) else YearAndRest(days - YearDays(y), y + 1)
  }

  /** Walks whole months of year `y`, starting at `m`. */
  function MonthAndRest(days: nat, y: nat, m: nat): (r: (nat, nat))
    ensures r.0 >= m && r.1 < MonthDays(y, r.0)
    decreases days
  {
    if days < MonthDays(y, m) then (m, days) else MonthAndRest(days - MonthDays(y, m), y, m + 1)
  }

  /** The Gregorian date `days` days after 1970-01-01. */
  function DateOf(days: nat): Date {
    var (y, rest) := YearAndRest(days, 1970);
    var (m, d) := MonthAndRest(rest, y, 1);
    Date(y, m, d + 1)
  }

  // ── Printing ───────────────────────────────────────────────────────────────

  const MS_PER_DAY: nat := 86_400_000

  /** Hour, minute, second and millisecond of a time of day in milliseconds. */
  function ClockFields(t: nat): seq<nat> {
    [t / 3_600_000, t % 3_600_000 / 60_000, t % 60_000 / 1000, t % 1000]
  }

  /** Year, month, day, hour, minute, second and millisecond of an instant in Unix milliseconds. */
  function Fields(ms: nat): (f: seq<nat>)
    ensures |f| == 7
  {
    var date := DateOf(ms / MS_PER_DAY);
    var t := ms % MS_PER_DAY;
    [date.year, date.month, date.day] + ClockFields(t)
  }

  const WIDTHS: seq<nat> := [4, 2, 2, 2, 2, 2, 3]
  const SEPARATORS: seq<char> := ['-', '-', 'T', ':', ':', '.', 'Z']

  /** Every field padded to its width and followed by its separator. */
  function Render(fields: seq<nat>, widths: seq<nat>, separators: seq<char>): string
    requires |fields| == |widths| == |separators|
  {
    if fields == [] then []
    else Pad(fields[0], widths[0]) + [separators[0]] + Render(fields[1..], widths[1..], separators[1..])
  }

  function FormatUtc(ms: nat): string {
    Render(Fields(ms), WIDTHS, SEPARATORS)
  }

  /** `timestamp`: a time in nanoseconds since the epoch, printed to the millisecond. */
  function Timestamp(nanos: nat): string {
    FormatUtc(nanos / 1_000_000)
  }

  /** The last second whose year has four digits. */
  const MAX_ISO_UNIX_SECS: nat := 253_402_300_799

  /** `unix_timestamp`: a client-supplied Unix time, or nothing outside what the format can express. */
  function UnixTimestamp(secs: int): Option<string> {
    if 0 <= secs <= MAX_ISO_UNIX_SECS then Some(FormatUtc(secs * 1000)) else None
  }

  // ── Order of dates ─────────────────────────────────────────────────────────

  function DaysBeforeYear(y: nat): nat
    requires y >= 1970
  {
    if y == 1970 then 0 else DaysBeforeYear(y - 1) + YearDays(y - 1)
  }

  function LeapsThrough(y: nat): nat {
    y / 4 - y / 100 + y / 400
  }

  lemma QuotientStep(y: nat, n: nat)
    requires n > 1
    ensures (y + 1) / n == y / n + (if (y + 1) % n == 0 then 1 else 0)
  {
    var (q, r) := (y / n, y % n);
    assert y + 1 == n * q + (r + 1);
    if r + 1 < n {
      DivideUnique(y + 1, n, q, r + 1);
    } else {
      assert y + 1 == n * (q + 1);
      DivideUnique(y + 1, n, q + 1, 0);
    }
  }

  lemma DivideUnique(x: nat, n: nat, q: nat, r: nat)
    requires n > 0 && x == n * q + r && r < n
    ensures x / n == q && x % n == r
  {
    PlaceOrder(q, r, x / n, x % n, n);
    PlaceOrder(x / n, x % n, q, r, n);
  }

  lemma CenturiesDivide(y: nat)
    ensures y % 400 == 0 ==> y % 100 == 0
    ensures y % 100 == 0 ==> y % 4 == 0
  {
    if y % 400 == 0 {
      DivideUnique(y, 100, 4 * (y / 400), 0);
    }
    if y % 100 == 0 {
      DivideUnique(y, 4, 25 * (y / 100), 0);
    }
  }

  lemma LeapsStep(y: nat)
    ensures LeapsThrough(y + 1) == LeapsThrough(y) + (if IsLeap(y + 1) then 1 else 0)
  {
    QuotientStep(y, 4);
    QuotientStep(y, 100);
    QuotientStep(y, 400);
    CenturiesDivide(y + 1);
  }

  lemma {:induction false} DaysBeforeYearClosed(y: nat)
    requires y >= 1970
    ensures DaysBeforeYear(y) == 365 * (y - 1970) + LeapsThrough(y - 1) - LeapsThrough(1969)
  {
    if y > 1970 {
      DaysBeforeYearClosed(y - 1);
      LeapsStep(y - 2);
    }
  }

  lemma {:induction false} YearPlace(days: nat, y: nat)
    requires y >= 1970
    ensures var r := YearAndRest(days, y); r.0 >= 1970 && DaysBeforeYear(r.0) + r.1 == DaysBeforeYear(y) + days
    decreases days
  {
    if days >= YearDays(y) {
      YearPlace(days - YearDays(y), y + 1);
    }
  }

  lemma {:induction false} YearsGrow(y: nat, z: nat)
    requires 1970 <= y < z
    ensures DaysBeforeYear(y) + YearDays(y) <= DaysBeforeYear(z)
    decreases z
  {
    if y + 1 < z {
      YearsGrow(y, z - 1);
    }
  }

  function DaysBeforeMonth(y: nat, m: nat): nat
    requires m >= 1
  {
    if m == 1 then 0 else DaysBeforeMonth(y, m - 1) + MonthDays(y, m - 1)
  }

  lemma {:induction false} MonthPlace(days: nat, y: nat, m: nat)
    requires m >= 1
    ensures var r := MonthAndRest(days, y, m); r.0 >= 1 && DaysBeforeMonth(y, r.0) + r.1 == DaysBeforeMonth(y, m) + days
    decreases days
  {
    if days >= MonthDays(y, m) {
      MonthPlace(days - MonthDays(y, m), y, m + 1);
    }
  }

  lemma {:induction false} MonthsGrow(y: nat, m: nat, n: nat)
    requires 1 <= m < n
    ensures DaysBeforeMonth(y, m) + MonthDays(y, m) <= DaysBeforeMonth(y, n)
    decreases n
  {
    if m + 1 < n {
      MonthsGrow(y, m, n - 1);
    }
  }

  predicate DateLess(a: Date, b: Date) {
    a.year < b.year || (a.year == b.year && (a.month < b.month || (a.month == b.month && a.day < b.day)))
  }

  lemma DatesOrdered(a: nat, b: nat)
    requires a < b
    ensures DateLess(DateOf(a), DateOf(b))
  {
    var (y, r) := YearAndRest(a, 1970);
    var (z, s) := YearAndRest(b, 1970);
    YearPlace(a, 1970);
    YearPlace(b, 1970);
    if z < y {
      YearsGrow(z, y);
    } else if y == z {
      MonthPlace(r, y, 1);
      MonthPlace(s, y, 1);
      var (m, n) := (MonthAndRest(r, y, 1).0, MonthAndRest(s, y, 1).0);
      if n < m {
        MonthsGrow(y, n, m);
      }
    }
  }

  // ── Order of strings ───────────────────────────────────────────────────────

  /** Lexicographic order, as string comparison sorts log lines. */
  predicate LexLess(a: string, b: string) {
    b != [] && (a == [] || a[0] < b[0] || (a[0] == b[0] && LexLess(a[1..], b[1..])))
  }

  predicate FieldsLess(a: seq<nat>, b: seq<nat>) {
    b != [] && (a == [] || a[0] < b[0] || (a[0] == b[0] && FieldsLess(a[1..], b[1..])))
  }

  lemma {:induction false} LexConcat(p: string, q: string, r: string, s: string)
    requires |p| == |q|
    ensures LexLess(p + r, q + s) <==> LexLess(p, q) || (p == q && LexLess(r, s))
  {
    if p == [] {
      assert p + r == r && q + s == s;
    } else {
      assert (p + r)[1..] == p[1..] + r && (q + s)[1..] == q[1..] + s;
      LexConcat(p[1..], q[1..], r, s);
      assert p == [p[0]] + p[1..] && q == [q[0]] + q[1..];
    }
  }

  function Pow10(n: nat): nat {
    if n == 0 then 1 else 10 * Pow10(n - 1)
  }

  lemma {:induction false} PadWidth(n: nat, w: nat)
    requires w >= 1
    ensures |Pad(n, w)| == w <==> n < Pow10(w)
    decreases w
  {
    if w > 1 {
      PadWidth(n / 10, w - 1);
    } else if n >= 10 {
      assert |Pad(n / 10, 0)| >= 1;
    }
  }

  predicate Below(q: nat, r: nat, p: nat, s: nat) {
    q < p || (q == p && r < s)
  }

  lemma PlaceOrder(q: nat, r: nat, p: nat, s: nat, n: nat)
    requires r < n && s < n
    ensures n * q + r < n * p + s <==> Below(q, r, p, s)
  {
    if q < p {
      assert n * q + n == n * (q + 1) <= n * p;
    } else if p < q {
      assert n * p + n == n * (p + 1) <= n * q;
    }
  }

  lemma QuotientOrder(a: nat, b: nat, n: nat)
    requires n > 0
    ensures a < b <==> Below(a / n, a % n, b / n, b % n)
  {
    PlaceOrder(a / n, a % n, b / n, b % n, n);
  }

  lemma PadSnoc(n: nat, w: nat)
    requires w > 1
    ensures Pad(n, w) == Pad(n / 10, w - 1) + [Digit(n % 10)]
  {
  }

  lemma {:induction false} PadOrder(a: nat, b: nat, w: nat)
    requires w >= 1 && a < Pow10(w) && b < Pow10(w)
    ensures LexLess(Pad(a, w), Pad(b, w)) <==> a < b
    decreases w
  {
    if w == 1 {
      assert Pad(a, 1) == [Digit(a)] && Pad(b, 1) == [Digit(b)];
    } else {
      var (x, y) := (a / 10, b / 10);
      var (d, e) := ([Digit(a % 10)], [Digit(b % 10)]);
      QuotientOrder(a, b, 10);
      PadSnoc(a, w);
      PadSnoc(b, w);
      PadWidth(x, w - 1);
      PadWidth(y, w - 1);
      PadOrder(x, y, w - 1);
      PadInjective(x, y, w - 1);
      LexConcat(Pad(x, w - 1), Pad(y, w - 1), d, e);
      assert LexLess(d, e) <==> a % 10 < b % 10;
    }
  }

  lemma PadInjective(a: nat, b: nat, w: nat)
    ensures Pad(a, w) == Pad(b, w) <==> a == b
  {
    ValueOfPad(a, w);
    ValueOfPad(b, w);
  }

  ghost predicate Fits(fields: seq<nat>, widths: seq<nat>) {
    |fields| == |widths| && forall i :: 0 <= i < |fields| ==> widths[i] >= 1 && fields[i] < Pow10(widths[i])
  }

  lemma LexSeparated(a: string, b: string, c: char, ta: string, tb: string)
    requires |a| == |b|
    ensures LexLess(a + [c] + ta, b + [c] + tb) <==> LexLess(a, b) || (a == b && LexLess(ta, tb))
  {
    LexConcat(a, b, [c] + ta, [c] + tb);
    LexConcat([c], [c], ta, tb);
    assert a + [c] + ta == a + ([c] + ta) && b + [c] + tb == b + ([c] + tb);
  }

  /** Fields that fit their widths print to strings that compare exactly as the fields do. */
  lemma {:induction false} RenderOrder(a: seq<nat>, b: seq<nat>, widths: seq<nat>, separators: seq<char>)
    requires Fits(a, widths) && Fits(b, widths) && |widths| == |separators|
    ensures LexLess(Render(a, widths, separators), Render(b, widths, separators)) <==> FieldsLess(a, b)
  {
    if a != [] {
      var (w, c) := (widths[0], separators[0]);
      var (ta, tb) := (Render(a[1..], widths[1..], separators[1..]), Render(b[1..], widths[1..], separators[1..]));
      RenderOrder(a[1..], b[1..], widths[1..], separators[1..]);
      PadWidth(a[0], w);
      PadWidth(b[0], w);
      PadOrder(a[0], b[0], w);
      PadInjective(a[0], b[0], w);
      LexSeparated(Pad(a[0], w), Pad(b[0], w), c, ta, tb);
    }
  }

  // ── Main results ───────────────────────────────────────────────────────────

  lemma DaysBefore10000()
    ensures DaysBeforeYear(10_000) * 86_400 == MAX_ISO_UNIX_SECS + 1
  {
    assert LeapsThrough(9999) == 2424 && LeapsThrough(1969) == 477;
    DaysBeforeYearClosed(10_000);
    assert DaysBeforeYear(10_000) == 2_932_897;
  }

  /** The limit is exact: a second has a four-digit year if and only if it is not past the limit. */
  lemma FourDigitYears(secs: nat)
    ensures DateOf(secs / 86_400).year < 10_000 <==> secs <= MAX_ISO_UNIX_SECS
  {
    var days := secs / 86_400;
    var (y, r) := YearAndRest(days, 1970);
    YearPlace(days, 1970);
    DaysBefore10000();
    if y < 10_000 {
      YearsGrow(y, 10_000);
    } else if y > 10_000 {
      YearsGrow(10_000, y);
    }
  }

  lemma YearOfMonths(y: nat)
    ensures DaysBeforeMonth(y, 13) == YearDays(y)
  {
    var leap := if IsLeap(y) then 1 else 0;
    assert DaysBeforeMonth(y, 2) == 31;
    assert DaysBeforeMonth(y, 3) == 59 + leap;
    assert DaysBeforeMonth(y, 4) == 90 + leap;
    assert DaysBeforeMonth(y, 5) == 120 + leap;
    assert DaysBeforeMonth(y, 6) == 151 + leap;
    assert DaysBeforeMonth(y, 7) == 181 + leap;
    assert DaysBeforeMonth(y, 8) == 212 + leap;
    assert DaysBeforeMonth(y, 9) == 243 + leap;
    assert DaysBeforeMonth(y, 10) == 273 + leap;
    assert DaysBeforeMonth(y, 11) == 304 + leap;
    assert DaysBeforeMonth(y, 12) == 334 + leap;
  }

  lemma MonthInYear(days: nat, y: nat)
    requires days < YearDays(y)
    ensures MonthAndRest(days, y, 1).0 <= 12
  {
    MonthPlace(days, y, 1);
    var m := MonthAndRest(days, y, 1).0;
    YearOfMonths(y);
    if m > 13 {
      MonthsGrow(y, 13, m);
    }
  }

  lemma FieldsFit(ms: nat)
    requires ms / 1000 <= MAX_ISO_UNIX_SECS
    ensures Fits(Fields(ms), WIDTHS)
  {
    var date := DateOf(ms / MS_PER_DAY);
    FourDigitYears(ms / 1000);
    assert ms / 1000 / 86_400 == ms / MS_PER_DAY;
    var (y, rest) := YearAndRest(ms / MS_PER_DAY, 1970);
    MonthInYear(rest, y);
    assert Pow10(2) == 100 && Pow10(3) == 1000 && Pow10(4) == 10_000;
  }

  lemma FieldsLessStep(a: nat, b: nat, r: seq<nat>, s: seq<nat>)
    ensures FieldsLess([a] + r, [b] + s) <==> a < b || (a == b && FieldsLess(r, s))
  {
    assert ([a] + r)[1..] == r && ([b] + s)[1..] == s;
  }

  lemma ClockQuotients(t: nat, u: nat)
    ensures t < u <==> Below(t / 3_600_000, t % 3_600_000, u / 3_600_000, u % 3_600_000)
    ensures var (v, w) := (t % 3_600_000, u % 3_600_000);
            v < w <==> Below(v / 60_000, t % 60_000, w / 60_000, u % 60_000)
    ensures var (v, w) := (t % 60_000, u % 60_000);
            v < w <==> Below(v / 1000, t % 1000, w / 1000, u % 1000)
  {
    QuotientOrder(t, u, 3_600_000);
    QuotientOrder(t % 3_600_000, u % 3_600_000, 60_000);
    QuotientOrder(t % 60_000, u % 60_000, 1000);
    Remainders(t);
    Remainders(u);
  }

  lemma Remainders(t: nat)
    ensures t % 3_600_000 % 60_000 == t % 60_000 && t % 60_000 % 1000 == t % 1000
  {
  }

  /** Within one day, the time-of-day fields compare as the milliseconds do. */
  lemma ClockOrder(t: nat, u: nat)
    requires t < u
    ensures FieldsLess(ClockFields(t), ClockFields(u))
  {
    var (a, b) := (ClockFields(t), ClockFields(u));
    ClockQuotients(t, u);
    FieldsLessStep(a[3], b[3], [], []);
    FieldsLessStep(a[2], b[2], [a[3]], [b[3]]);
    FieldsLessStep(a[1], b[1], [a[2], a[3]], [b[2], b[3]]);
    FieldsLessStep(a[0], b[0], [a[1], a[2], a[3]], [b[1], b[2], b[3]]);
    assert a == [a[0]] + [a[1], a[2], a[3]] && b == [b[0]] + [b[1], b[2], b[3]];
    assert [a[1], a[2], a[3]] == [a[1]] + [a[2], a[3]] && [b[1], b[2], b[3]] == [b[1]] + [b[2], b[3]];
    assert [a[2], a[3]] == [a[2]] + [a[3]] && [b[2], b[3]] == [b[2]] + [b[3]];
    assert [a[3]] == [a[3]] + [] && [b[3]] == [b[3]] + [];
  }

  lemma {:induction false} FieldsLessCons(a: seq<nat>, b: seq<nat>, n: nat)
    requires n <= |a| && n <= |b| && a[..n] == b[..n] && FieldsLess(a[n..], b[n..])
    ensures FieldsLess(a, b)
  {
    if n == 0 {
      assert a[0..] == a && b[0..] == b;
    } else {
      assert a[0] == a[..n][0] == b[..n][0] == b[0];
      assert a[1..][..n - 1] == a[..n][1..] == b[..n][1..] == b[1..][..n - 1];
      assert a[1..][n - 1..] == a[n..] && b[1..][n - 1..] == b[n..];
      FieldsLessCons(a[1..], b[1..], n - 1);
    }
  }

  lemma FieldsOrder(a: nat, b: nat)
    requires a < b
    ensures FieldsLess(Fields(a), Fields(b))
  {
    var (d, e) := (a / MS_PER_DAY, b / MS_PER_DAY);
    var (f, g) := (Fields(a), Fields(b));
    if d < e {
      DatesOrdered(d, e);
      if f[0] == g[0] && f[1] == g[1] {
        FieldsLessCons(f, g, 2);
      } else if f[0] == g[0] {
        FieldsLessCons(f, g, 1);
      }
    } else {
      assert d == e;
      var (t, u) := (a % MS_PER_DAY, b % MS_PER_DAY);
      ClockOrder(t, u);
      assert f[..3] == g[..3];
      assert f[3..] == ClockFields(t) && g[3..] == ClockFields(u);
      FieldsLessCons(f, g, 3);
    }
  }

  lemma {:induction false} FieldsLessIrreflexive(a: seq<nat>)
    ensures !FieldsLess(a, a)
  {
    if a != [] {
      FieldsLessIrreflexive(a[1..]);
    }
  }

  lemma {:induction false} FieldsLessAsymmetric(a: seq<nat>, b: seq<nat>)
    requires FieldsLess(a, b)
    ensures !FieldsLess(b, a)
  {
    if a != [] && a[0] == b[0] {
      FieldsLessAsymmetric(a[1..], b[1..]);
    }
  }

  /**
   * From 1970 to the end of 9999, comparing two printed timestamps as strings is comparing the two
   * instants at millisecond precision.
   */
  lemma StringsSortInTimeOrder(a: nat, b: nat)
    requires a / 1_000_000_000 <= MAX_ISO_UNIX_SECS && b / 1_000_000_000 <= MAX_ISO_UNIX_SECS
    ensures LexLess(Timestamp(a), Timestamp(b)) <==> a / 1_000_000 < b / 1_000_000
  {
    var (x, y) := (a / 1_000_000, b / 1_000_000);
    assert x / 1000 == a / 1_000_000_000 && y / 1000 == b / 1_000_000_000;
    FieldsFit(x);
    FieldsFit(y);
    RenderOrder(Fields(x), Fields(y), WIDTHS, SEPARATORS);
    if x < y {
      FieldsOrder(x, y);
    } else if x == y {
      FieldsLessIrreflexive(Fields(x));
    } else {
      FieldsOrder(y, x);
      FieldsLessAsymmetric(Fields(y), Fields(x));
    }
  }

  /** `DateOf` inverts the calendar: a real month and day of month, whose ordinal is the day given. */
  lemma DateIsReal(days: nat)
    ensures var date := DateOf(days);
            && date.year >= 1970 && 1 <= date.month <= 12 && 1 <= date.day <= MonthDays(date.year, date.month)
            && DaysBeforeYear(date.year) + DaysBeforeMonth(date.year, date.month) + (date.day - 1) == days
  {
    var (y, rest) := YearAndRest(days, 1970);
    YearPlace(days, 1970);
    MonthPlace(rest, y, 1);
    MonthInYear(rest, y);
  }

  lemma {:induction false} RenderLength(fields: seq<nat>, widths: seq<nat>, separators: seq<char>)
    requires |fields| == |widths| == |separators|
    requires forall i :: 0 <= i < |widths| ==> widths[i] >= 1
    ensures |Render(fields, widths, separators)| >= Sum(widths) + |widths|
    ensures |Render(fields, widths, separators)| == Sum(widths) + |widths| <==> Fits(fields, widths)
  {
    if fields != [] {
      RenderLength(fields[1..], widths[1..], separators[1..]);
      PadWidth(fields[0], widths[0]);
      assert Fits(fields, widths) <==> fields[0] < Pow10(widths[0]) && Fits(fields[1..], widths[1..]);
    }
  }

  function Sum(widths: seq<nat>): nat {
    if widths == [] then 0 else widths[0] + Sum(widths[1..])
  }

  /** The printed form has its fixed 24 characters exactly up to the last second of 9999. */
  lemma FixedWidth(nanos: nat)
    ensures |Timestamp(nanos)| == 24 <==> nanos / 1_000_000_000 <= MAX_ISO_UNIX_SECS
  {
    var ms := nanos / 1_000_000;
    assert ms / 1000 == nanos / 1_000_000_000;
    RenderLength(Fields(ms), WIDTHS, SEPARATORS);
    SumOfWidths();
    FourDigitYears(ms / 1000);
    assert ms / 1000 / 86_400 == ms / MS_PER_DAY;
    if ms / 1000 <= MAX_ISO_UNIX_SECS {
      FieldsFit(ms);
    } else {
      assert Pow10(4) == 10_000 && Fields(ms)[0] >= Pow10(WIDTHS[0]);
    }
  }

  lemma SumOfWidths()
    ensures Sum(WIDTHS) == 17
  {
    assert WIDTHS == [4] + [2, 2, 2, 2, 2, 3];
    assert Sum(WIDTHS[4..]) == Sum([2, 2, 3]) == 7 by {
      assert WIDTHS[4..] == [2, 2, 3] && [2, 2, 3][1..] == [2, 3] && [2, 3][1..] == [3] && [3][1..] == [];
    }
    assert WIDTHS[3..][1..] == WIDTHS[4..] && WIDTHS[2..][1..] == WIDTHS[3..] && WIDTHS[1..][1..] == WIDTHS[2..];
  }
}
