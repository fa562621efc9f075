/** Reading a printed timestamp back: what every field of the text says about the instant it was made from. */
module TimestampReading {
  import opened Wrappers
  import opened Text
  import opened Timestamps

  /** The value of a digit. */
  function DigitOf(c: char): int {
    c as int - '0' as int
  }

  /** The numbers that two, three and four digits at a place spell. */
  function Two(s: string, i: nat): int
    requires i + 2 <= |s|
  {
    10 * DigitOf(s[i]) + DigitOf(s[i + 1])
  }

  function Three(s: string, i: nat): int
    requires i + 3 <= |s|
  {
    100 * DigitOf(s[i]) + Two(s, i + 1)
  }

  function Four(s: string, i: nat): int
    requires i + 4 <= |s|
  {
    1000 * DigitOf(s[i]) + Three(s, i + 1)
  }

  predicate DigitsAt(s: string, i: nat, n: nat) {
    i + n <= |s| && forall k :: i <= k < i + n ==> IsDigit(s[k])
  }

  /** Seven groups of digits between the seven separators of RFC 3339, section 5.6. */
  predicate IsStamp(s: string) {
    && |s| == 24
    && s[4] == '-' && s[7] == '-' && s[10] == 'T' && s[13] == ':' && s[16] == ':' && s[19] == '.' && s[23] == 'Z'
    && DigitsAt(s, 0, 4) && DigitsAt(s, 5, 2) && DigitsAt(s, 8, 2)
    && DigitsAt(s, 11, 2) && DigitsAt(s, 14, 2) && DigitsAt(s, 17, 2) && DigitsAt(s, 20, 3)
  }

  /** How many days of a common year come before its months, and before the next year. */
  const BEFORE: seq<int> := [0, 31, 59, 90, 120, 151, 181, 212, 243, 273, 304, 334, 365]

  /** One in the leap years of the Gregorian calendar. */
  function LeapDay(year: int): int {
    if (year % 4 == 0 && year % 100 != 0) || year % 400 == 0 then 1 else 0
  }

  /** The days from 1970-01-01 to the first of a month: 477 leap days come before 1970. */
  function DaysTo(year: int, month: int): int
    requires 1 <= month <= 12
  {
    365 * (year - 1970) + (year - 1) / 4 - (year - 1) / 100 + (year - 1) / 400 - 477
    + BEFORE[month - 1] + if month > 2 then LeapDay(year) else 0
  }

  function DaysIn(year: int, month: int): int
    requires 1 <= month <= 12
  {
    BEFORE[month] - BEFORE[month - 1] + if month == 2 then LeapDay(year) else 0
  }

  /** A calendar date from 1970 on, and a time of that day. */
  predicate IsMoment(year: int, month: int, day: int, hour: int, minute: int, second: int, milli: int) {
    && year >= 1970 && 1 <= month <= 12 && 1 <= day <= DaysIn(year, month)
    && 0 <= hour < 24 && 0 <= minute < 60 && 0 <= second < 60 && 0 <= milli < 1000
  }

  /** The moment that a text names, in milliseconds since 1970-01-01T00:00:00Z. */
  function MillisOf(year: int, month: int, day: int, hour: int, minute: int, second: int, milli: int): int
    requires 1 <= month <= 12
  {
    86_400_000 * (DaysTo(year, month) + day - 1) + 3_600_000 * hour + 60_000 * minute + 1000 * second + milli
  }

  /** The text reads as a real moment, `millis` milliseconds after the epoch. */
  predicate Names(s: string, millis: int) {
    && IsStamp(s)
    && var (year, month, day) := (Four(s, 0), Two(s, 5), Two(s, 8));
       var (hour, minute, second, milli) := (Two(s, 11), Two(s, 14), Two(s, 17), Three(s, 20));
       IsMoment(year, month, day, hour, minute, second, milli)
       && MillisOf(year, month, day, hour, minute, second, milli) == millis
  }

  // ── The printed groups ─────────────────────────────────────────────────────

  lemma RenderStep(n: nat, w: nat, c: char, fields: seq<nat>, widths: seq<nat>, separators: seq<char>)
    requires |fields| == |widths| == |separators|
    ensures Render([n] + fields, [w] + widths, [c] + separators) == Pad(n, w) + [c] + Render(fields, widths, separators)
  {
    assert ([n] + fields)[1..] == fields && ([w] + widths)[1..] == widths && ([c] + separators)[1..] == separators;
  }

  lemma ConsThree(a: nat, b: nat, c: nat, rest: seq<nat>)
    ensures [a, b, c] + rest == [a] + ([b] + ([c] + rest))
  {
  }

  lemma RenderDate(y: nat, m: nat, d: nat, clock: seq<nat>)
    requires |clock| == 4
    ensures Render([y, m, d] + clock, WIDTHS, SEPARATORS)
         == Pad(y, 4) + ['-'] + (Pad(m, 2) + ['-'] + (Pad(d, 2) + ['T']
            + Render(clock, [2, 2, 2, 3], [':', ':', '.', 'Z'])))
  {
    ConsThree(y, m, d, clock);
    assert WIDTHS == [4] + ([2] + ([2] + [2, 2, 2, 3]));
    assert SEPARATORS == ['-'] + (['-'] + (['T'] + [':', ':', '.', 'Z']));
    RenderStep(y, 4, '-', [m] + ([d] + clock), [2] + ([2] + [2, 2, 2, 3]), ['-'] + (['T'] + [':', ':', '.', 'Z']));
    RenderStep(m, 2, '-', [d] + clock, [2] + [2, 2, 2, 3], ['T'] + [':', ':', '.', 'Z']);
    RenderStep(d, 2, 'T', clock, [2, 2, 2, 3], [':', ':', '.', 'Z']);
  }

  lemma RenderClock(h: nat, mi: nat, s: nat, ms: nat)
    ensures Render([h, mi, s, ms], [2, 2, 2, 3], [':', ':', '.', 'Z'])
         == Pad(h, 2) + [':'] + (Pad(mi, 2) + [':'] + (Pad(s, 2) + ['.'] + (Pad(ms, 3) + ['Z'] + [])))
  {
    assert [h, mi, s, ms] == [h] + ([mi] + ([s] + ([ms] + [])));
    assert [2, 2, 2, 3] == [2] + ([2] + ([2] + ([3] + [])));
    assert [':', ':', '.', 'Z'] == [':'] + ([':'] + (['.'] + (['Z'] + [])));
    RenderStep(h, 2, ':', [mi] + ([s] + ([ms] + [])), [2] + ([2] + ([3] + [])), [':'] + (['.'] + (['Z'] + [])));
    RenderStep(mi, 2, ':', [s] + ([ms] + []), [2] + ([3] + []), ['.'] + (['Z'] + []));
    RenderStep(s, 2, '.', [ms] + [], [3] + [], ['Z'] + []);
    RenderStep(ms, 3, 'Z', [], [], []);
  }

  /** A group of known length, its separator, and the rest. */
  lemma Group(s: string, digits: string, c: char, rest: string)
    requires s == digits + [c] + rest
    ensures |digits| < |s| && s[..|digits|] == digits && s[|digits|] == c && s[|digits| + 1..] == rest
  {
  }

  /** The first three groups of a text, and where the rest begins. */
  lemma DateGroups(s: string, y: string, m: string, d: string, rest: string)
    requires |y| == 4 && |m| == 2 && |d| == 2
    requires s == y + ['-'] + (m + ['-'] + (d + ['T'] + rest))
    ensures |s| == 11 + |rest| && s[..4] == y && s[5..7] == m && s[8..10] == d && s[11..] == rest
    ensures s[4] == '-' && s[7] == '-' && s[10] == 'T'
  {
    Group(s, y, '-', m + ['-'] + (d + ['T'] + rest));
    var t := s[5..];
    Group(t, m, '-', d + ['T'] + rest);
    Group(t[3..], d, 'T', rest);
    assert t[..2] == s[5..7] && t[3..] == s[8..] && s[8..][..2] == s[8..10] && s[8..][3..] == s[11..];
  }

  lemma ClockGroups(s: string, h: string, mi: string, sec: string, ms: string)
    requires |h| == 2 && |mi| == 2 && |sec| == 2 && |ms| == 3
    requires s == h + [':'] + (mi + [':'] + (sec + ['.'] + (ms + ['Z'] + [])))
    ensures |s| == 13 && s[..2] == h && s[3..5] == mi && s[6..8] == sec && s[9..12] == ms
    ensures s[2] == ':' && s[5] == ':' && s[8] == '.' && s[12] == 'Z'
  {
    Group(s, h, ':', mi + [':'] + (sec + ['.'] + (ms + ['Z'] + [])));
    var t := s[3..];
    Group(t, mi, ':', sec + ['.'] + (ms + ['Z'] + []));
    Group(t[3..], sec, '.', ms + ['Z'] + []);
    Group(t[3..][3..], ms, 'Z', []);
    assert t[..2] == s[3..5] && t[3..] == s[6..] && s[6..][..2] == s[6..8] && s[6..][3..] == s[9..]
             && s[9..][..3] == s[9..12];
  }

  lemma SlicesOfRest(s: string, rest: string)
    requires |s| == 24 && |rest| == 13 && s[11..] == rest
    ensures s[11..13] == rest[..2] && s[14..16] == rest[3..5] && s[17..19] == rest[6..8] && s[20..23] == rest[9..12]
    ensures s[13] == rest[2] && s[16] == rest[5] && s[19] == rest[8] && s[23] == rest[12]
  {
  }

  /** Groups of digits of the right lengths, found again in the text they make up. */
  lemma GroupsReadBack(s: string, y: string, m: string, d: string, clock: string, h: string, mi: string, sec: string,
                       ms: string)
    requires |y| == 4 && |m| == 2 && |d| == 2 && |h| == 2 && |mi| == 2 && |sec| == 2 && |ms| == 3
    requires AllDigits(y) && AllDigits(m) && AllDigits(d)
    requires AllDigits(h) && AllDigits(mi) && AllDigits(sec) && AllDigits(ms)
    requires s == y + ['-'] + (m + ['-'] + (d + ['T'] + clock))
    requires clock == h + [':'] + (mi + [':'] + (sec + ['.'] + (ms + ['Z'] + [])))
    ensures IsStamp(s)
    ensures Four(s, 0) == Four(y, 0) && Two(s, 5) == Two(m, 0) && Two(s, 8) == Two(d, 0)
    ensures Two(s, 11) == Two(h, 0) && Two(s, 14) == Two(mi, 0) && Two(s, 17) == Two(sec, 0)
              && Three(s, 20) == Three(ms, 0)
  {
    DateGroups(s, y, m, d, clock);
    ClockGroups(clock, h, mi, sec, ms);
    SlicesOfRest(s, clock);
    SameDigits(s, 0, y);
    SameDigits(s, 5, m);
    SameDigits(s, 8, d);
    SameDigits(s, 11, h);
    SameDigits(s, 14, mi);
    SameDigits(s, 17, sec);
    SameDigits(s, 20, ms);
  }

  /** A group of digits inside a text spells there what it spells alone. */
  lemma SameDigits(s: string, i: nat, group: string)
    requires i + |group| <= |s| && s[i..i + |group|] == group && AllDigits(group)
    ensures DigitsAt(s, i, |group|)
    ensures |group| == 2 ==> Two(s, i) == Two(group, 0)
    ensures |group| == 3 ==> Three(s, i) == Three(group, 0)
    ensures |group| == 4 ==> Four(s, i) == Four(group, 0)
  {
    forall k | 0 <= k < |group| ensures s[i + k] == group[k] {
      assert s[i..i + |group|][k] == s[i + k];
    }
    assert forall k :: i <= k < i + |group| ==> s[k] == group[k - i];
  }

  lemma PrintedTwo(n: nat) returns (s: string)
    requires n < 100
    ensures s == Pad(n, 2) && |s| == 2 && AllDigits(s) && Two(s, 0) == n
  {
    s := Pad(n, 2);
    PadSnoc(n, 2);
    assert s == [Digit(n / 10), Digit(n % 10)];
  }

  lemma PrintedThree(n: nat) returns (s: string)
    requires n < 1000
    ensures s == Pad(n, 3) && |s| == 3 && AllDigits(s) && Three(s, 0) == n
  {
    s := Pad(n, 3);
    PadSnoc(n, 3);
    var front := PrintedTwo(n / 10);
    assert s == front + [Digit(n % 10)];
  }

  lemma PrintedFour(n: nat) returns (s: string)
    requires n < 10_000
    ensures s == Pad(n, 4) && |s| == 4 && AllDigits(s) && Four(s, 0) == n
  {
    s := Pad(n, 4);
    PadSnoc(n, 4);
    var front := PrintedThree(n / 10);
    assert s == front + [Digit(n % 10)];
  }

  lemma PrintedDate(y: nat, m: nat, d: nat, clock: seq<nat>) returns (ys: string, ms: string, ds: string)
    requires y < 10_000 && m < 100 && d < 100 && |clock| == 4
    ensures |ys| == 4 && |ms| == 2 && |ds| == 2 && AllDigits(ys) && AllDigits(ms) && AllDigits(ds)
    ensures Four(ys, 0) == y && Two(ms, 0) == m && Two(ds, 0) == d
    ensures Render([y, m, d] + clock, WIDTHS, SEPARATORS)
         == ys + ['-'] + (ms + ['-'] + (ds + ['T'] + Render(clock, [2, 2, 2, 3], [':', ':', '.', 'Z'])))
  {
    ys := PrintedFour(y);
    ms := PrintedTwo(m);
    ds := PrintedTwo(d);
    RenderDate(y, m, d, clock);
  }

  lemma PrintedClock(h: nat, mi: nat, s: nat, ms: nat) returns (hs: string, mis: string, ss: string, mss: string)
    requires h < 100 && mi < 100 && s < 100 && ms < 1000
    ensures |hs| == 2 && |mis| == 2 && |ss| == 2 && |mss| == 3
    ensures AllDigits(hs) && AllDigits(mis) && AllDigits(ss) && AllDigits(mss)
    ensures Two(hs, 0) == h && Two(mis, 0) == mi && Two(ss, 0) == s && Three(mss, 0) == ms
    ensures Render([h, mi, s, ms], [2, 2, 2, 3], [':', ':', '.', 'Z'])
         == hs + [':'] + (mis + [':'] + (ss + ['.'] + (mss + ['Z'] + [])))
  {
    hs := PrintedTwo(h);
    mis := PrintedTwo(mi);
    ss := PrintedTwo(s);
    mss := PrintedThree(ms);
    RenderClock(h, mi, s, ms);
  }

  /** Fields of the right widths read back from the text they are printed to. */
  lemma FieldsReadBack(s: string, f: seq<nat>)
    requires |f| == 7 && s == Render(f, WIDTHS, SEPARATORS)
    requires f[0] < 10_000 && f[1] < 100 && f[2] < 100 && f[3] < 100 && f[4] < 100 && f[5] < 100 && f[6] < 1000
    ensures IsStamp(s)
    ensures Four(s, 0) == f[0] && Two(s, 5) == f[1] && Two(s, 8) == f[2]
    ensures Two(s, 11) == f[3] && Two(s, 14) == f[4] && Two(s, 17) == f[5] && Three(s, 20) == f[6]
  {
    var clock := [f[3], f[4], f[5], f[6]];
    SevenFields(f);
    var y, m, d := PrintedDate(f[0], f[1], f[2], clock);
    var h, mi, sec, ms := PrintedClock(f[3], f[4], f[5], f[6]);
    GroupsReadBack(s, y, m, d, Render(clock, [2, 2, 2, 3], [':', ':', '.', 'Z']), h, mi, sec, ms);
  }

  lemma SevenFields(f: seq<nat>)
    requires |f| == 7
    ensures f == [f[0], f[1], f[2]] + [f[3], f[4], f[5], f[6]]
  {
  }

  // ── The instant ────────────────────────────────────────────────────────────

  /** The time of day is made up of its four parts. */
  lemma ClockIsExact(t: nat)
    requires t < 86_400_000
    ensures var f := ClockFields(t);
            && f[0] < 24 && f[1] < 60 && f[2] < 60 && f[3] < 1000
            && 3_600_000 * f[0] + 60_000 * f[1] + 1000 * f[2] + f[3] == t
  {
    var (q, r) := (t / 3_600_000, t % 3_600_000);
    var (m, u) := (r / 60_000, r % 60_000);
    assert t == 3_600_000 * q + r && r == 60_000 * m + u;
    assert t % 60_000 == u by {
      assert t == 60_000 * (60 * q + m) + u;
      DivideUnique(t, 60_000, 60 * q + m, u);
    }
    assert t % 1000 == u % 1000 by {
      assert u == 1000 * (u / 1000) + u % 1000;
      assert t == 1000 * (3600 * q + 60 * m + u / 1000) + u % 1000;
      DivideUnique(t, 1000, 3600 * q + 60 * m + u / 1000, u % 1000);
    }
  }

  lemma {:induction false} MonthsClosed(year: nat, month: nat)
    requires 1 <= month <= 12
    ensures DaysBeforeMonth(year, month) == BEFORE[month - 1] + if month > 2 then LeapDay(year) else 0
    ensures MonthDays(year, month) == DaysIn(year, month)
  {
    CenturiesDivide(year);
    if month > 1 {
      MonthsClosed(year, month - 1);
    }
  }

  /** The calendar in closed form. */
  lemma CalendarClosed(year: nat, month: nat)
    requires year >= 1970 && 1 <= month <= 12
    ensures DaysBeforeYear(year) + DaysBeforeMonth(year, month) == DaysTo(year, month)
    ensures MonthDays(year, month) == DaysIn(year, month)
  {
    DaysBeforeYearClosed(year);
    MonthsClosed(year, month);
    assert LeapsThrough(1969) == 477;
  }

  /** A day and a time of day make up the instant. */
  lemma MomentIs(ms: nat, days: nat, t: nat, date: Date, clock: seq<nat>)
    requires ms == 86_400_000 * days + t && |clock| == 4
    requires date.year >= 1970 && 1 <= date.month <= 12 && date.day >= 1
    requires DaysTo(date.year, date.month) + (date.day - 1) == days
    requires 3_600_000 * clock[0] + 60_000 * clock[1] + 1000 * clock[2] + clock[3] == t
    ensures MillisOf(date.year, date.month, date.day, clock[0], clock[1], clock[2], clock[3]) == ms
  {
  }

  lemma PrintedMoment(s: string, ms: nat, date: Date, clock: seq<nat>)
    requires |clock| == 4 && s == Render([date.year, date.month, date.day] + clock, WIDTHS, SEPARATORS)
    requires date.year < 10_000
    requires IsMoment(date.year, date.month, date.day, clock[0], clock[1], clock[2], clock[3])
    requires MillisOf(date.year, date.month, date.day, clock[0], clock[1], clock[2], clock[3]) == ms
    ensures Names(s, ms)
  {
    FieldsReadBack(s, [date.year, date.month, date.day] + clock);
  }

  lemma FormatNames(ms: nat)
    requires ms / 1000 <= 253_402_300_799
    ensures Names(FormatUtc(ms), ms)
  {
    var (days, t) := (ms / 86_400_000, ms % 86_400_000);
    var (date, clock) := (DateOf(days), ClockFields(t));
    FourDigitYears(ms / 1000);
    assert ms / 1000 / 86_400 == days;
    DateIsReal(days);
    CalendarClosed(date.year, date.month);
    ClockIsExact(t);
    MomentIs(ms, days, t, date, clock);
    PrintedMoment(FormatUtc(ms), ms, date, clock);
  }

  /**
   * Every instant from 1970 to the end of 9999 prints to a text that names that very instant, to the
   * millisecond, as a real calendar date and time of day.
   */
  lemma TimestampNames(nanos: nat)
    requires nanos / 1_000_000_000 <= 253_402_300_799
    ensures Names(Timestamp(nanos), nanos / 1_000_000)
  {
    assert nanos / 1_000_000 / 1000 == nanos / 1_000_000_000;
    FormatNames(nanos / 1_000_000);
  }

  /** A client's Unix time prints exactly when it lies in the years 1970 to 9999, and then names that second. */
  lemma UnixTimestampNames(secs: int)
    ensures UnixTimestamp(secs).Some? <==> 0 <= secs <= 253_402_300_799
    ensures UnixTimestamp(secs).Some? ==> Names(UnixTimestamp(secs).value, 1000 * secs)
  {
    if 0 <= secs <= 253_402_300_799 {
      assert secs * 1000 / 1000 == secs;
      FormatNames(secs * 1000);
    }
  }
}
