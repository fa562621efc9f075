/** Decimal numerals and separator-joined records, with the round trips the other modules use. */
module Text {
  import opened Wrappers
  import opened CommitWindow

  predicate IsDigit(c: char) {
    '0' <= c <= '9'
  }

  predicate AllDigits(s: string) {
    forall i :: 0 <= i < |s| ==> IsDigit(s[i])
  }

  function Digit(d: nat): (c: char)
    requires d < 10
    ensures IsDigit(c) && c as int - '0' as int == d
  {
    '0' + d as char
  }

  /** Decimal digits of `n`, zero-padded on the left to at least `width` places. */
  function Pad(n: nat, width: nat): (s: string)
    ensures AllDigits(s) && s != [] && |s| >= width
    decreases n + width
  {
    if n < 10 && width <= 1 then [Digit(n)]
    else Pad(n / 10, if width == 0 then 0 else width - 1) + [Digit(n % 10)]
  }

  function Numeral(n: nat): string {
    Pad(n, 1)
  }

  function Value(s: string): nat
    requires AllDigits(s)
  {
    if s == [] then 0 else 10 * Value(s[..|s| - 1]) + (s[|s| - 1] as int - '0' as int)
  }

  lemma {:induction false} ValueOfPad(n: nat, width: nat)
    ensures Value(Pad(n, width)) == n
    decreases n + width
  {
    var s := Pad(n, width);
    if n < 10 && width <= 1 {
      assert s[..|s| - 1] == [];
    } else {
      var w := if width == 0 then 0 else width - 1;
      ValueOfPad(n / 10, w);
      assert s[..|s| - 1] == Pad(n / 10, w);
    }
  }

  /** `str::parse::<i64>`: an optional sign, at least one digit, and a value in range. */
  function ParseI64(s: string): Option<i64> {
    var signed := s != [] && (s[0] == '+' || s[0] == '-');
    var digits := if signed then s[1..] else s;
    if digits == [] || !AllDigits(digits) then None
    else
      var v: int := if signed && s[0] == '-' then -(Value(digits) as int) else Value(digits);
      if I64_MIN <= v <= I64_MAX then Some(v) else None
  }

  function PrintI64(x: i64): string {
    if x < 0 then "-" + Numeral(-(x as int)) else Numeral(x)
  }

  lemma ParsePrintI64(x: i64)
    ensures ParseI64(PrintI64(x)) == Some(x)
  {
    if x < 0 {
      var m: nat := -(x as int);
      ValueOfPad(m, 1);
      assert PrintI64(x)[1..] == Numeral(m);
    } else {
      ValueOfPad(x, 1);
      assert IsDigit(PrintI64(x)[0]);
    }
  }

  /** What parses: digits with a plus, a minus or no sign before them, whose number is in range. */
  lemma ParsesExactly(s: string, x: i64)
    ensures ParseI64(s) == Some(x) <==>
              exists digits | AllDigits(digits) && digits != [] ::
                (s == digits && Value(digits) == x) || (s == "+" + digits && Value(digits) == x)
                || (s == "-" + digits && Value(digits) + x == 0)
  {
    if ParseI64(s) == Some(x) {
      var digits := if s[0] == '+' || s[0] == '-' then s[1..] else s;
      assert AllDigits(digits) && digits != [];
      assert s == digits || s == "+" + digits || s == "-" + digits;
    }
    if digits :| AllDigits(digits) && digits != []
                 && ((s == digits && Value(digits) == x) || (s == "+" + digits && Value(digits) == x)
                     || (s == "-" + digits && Value(digits) + x == 0)) {
      assert IsDigit(digits[0]);
      assert s != digits ==> s[1..] == digits;
    }
  }

  function StripLeft(s: string, drop: char -> bool): string {
    if s != [] && drop(s[0]) then StripLeft(s[1..], drop) else s
  }

  function StripRight(s: string, drop: char -> bool): string {
    if s != [] && drop(s[|s| - 1]) then StripRight(s[..|s| - 1], drop) else s
  }

  /** The text without the characters to drop at either end. */
  function Strip(s: string, drop: char -> bool): string {
    StripRight(StripLeft(s, drop), drop)
  }

  /** The parts one after another. */
  function Flatten<T>(parts: seq<seq<T>>): seq<T> {
    if parts == [] then [] else parts[0] + Flatten(parts[1..])
  }

  /** The first `n` parts one after another. */
  function Gathered<T>(part: nat -> seq<T>, n: nat): seq<T> {
    if n == 0 then [] else Gathered(part, n - 1) + part(n - 1)
  }

  lemma {:induction false} InGathered<T>(part: nat -> seq<T>, n: nat, x: T)
    ensures x in Gathered(part, n) <==> exists i: nat :: i < n && x in part(i)
  {
    if n > 0 {
      InGathered(part, n - 1, x);
    }
  }

  /** The pieces between occurrences of `sep`: always at least one. */
  function Split(s: string, sep: char): (parts: seq<string>)
    ensures parts != []
  {
    if s == [] then [[]]
    else
      var rest := Split(s[1..], sep);
      if s[0] == sep then [[]] + rest else [[s[0]] + rest[0]] + rest[1..]
  }

  function Join(parts: seq<string>, sep: char): string
    requires parts != []
  {
    if |parts| == 1 then parts[0] else parts[0] + [sep] + Join(parts[1..], sep)
  }

  lemma {:induction false} SplitFirst(p: string, rest: string, sep: char)
    requires sep !in p
    ensures Split(p + [sep] + rest, sep) == [p] + Split(rest, sep)
  {
    var s := p + [sep] + rest;
    if p == [] {
      assert s[1..] == rest;
    } else {
      assert s[1..] == p[1..] + [sep] + rest;
      SplitFirst(p[1..], rest, sep);
      assert [s[0]] + p[1..] == p;
    }
  }

  lemma {:induction false} SplitWhole(p: string, sep: char)
    requires sep !in p
    ensures Split(p, sep) == [p]
  {
    if p != [] {
      SplitWhole(p[1..], sep);
      assert [p[0]] + p[1..] == p;
    }
  }

  /** Splitting undoes joining whenever no piece contains the separator. */
  lemma {:induction false} SplitJoin(parts: seq<string>, sep: char)
    requires parts != [] && forall p :: p in parts ==> sep !in p
    ensures Split(Join(parts, sep), sep) == parts
  {
    if |parts| == 1 {
      SplitWhole(parts[0], sep);
    } else {
      SplitJoin(parts[1..], sep);
      SplitFirst(parts[0], Join(parts[1..], sep), sep);
    }
  }

  /** Joining undoes splitting, and no piece contains the separator. */
  lemma {:induction false} JoinSplit(s: string, sep: char)
    ensures Join(Split(s, sep), sep) == s
    ensures forall p :: p in Split(s, sep) ==> sep !in p
  {
    if s != [] {
      JoinSplit(s[1..], sep);
      var rest := Split(s[1..], sep);
      var parts := Split(s, sep);
      if s[0] == sep {
        assert parts[1..] == rest;
        assert s == [] + [sep] + s[1..];
      } else {
        assert parts[1..] == rest[1..];
        assert s == [s[0]] + s[1..];
        if |rest| > 1 {
          assert [s[0]] + rest[0] + [sep] + Join(rest[1..], sep) == [s[0]] + (rest[0] + [sep] + Join(rest[1..], sep));
        }
      }
    }
  }
}
