/** What `parse_hunks` counts: the zero-context rendering of an edit script, read back. */
module HunkCounts {
  import opened Wrappers
  import opened Text
  import opened CommentLexer
  import opened Hunks

  // ── Rendering ──────────────────────────────────────────────────────────────

  /**
   * One edit: lines that stay, then lines taken out, then lines put in.  The header may carry any
   * suffix, and either side may end the file without a newline.
   */
  datatype Hunk = Hunk(keep: nat, deleted: seq<string>, inserted: seq<string>, suffix: string, oldEof: bool,
                       newEof: bool)

  /** git's line number for `count` lines after the first `at`: an empty range names the line before it. */
  function Position(at: nat, count: nat): nat {
    if count == 0 then at else at + 1
  }

  /** git leaves out a count of one. */
  function Range(at: nat, count: nat): string {
    Numeral(Position(at, count)) + if count == 1 then "" else "," + Numeral(count)
  }

  function Header(a: nat, d: nat, b: nat, n: nat, suffix: string): string {
    "@@ -" + (Range(a, d) + (" +" + (Range(b, n) + (" @@" + suffix))))
  }

  function Marked(mark: char, lines: seq<string>): (r: seq<string>) {
    if lines == [] then [] else [[mark] + lines[0]] + Marked(mark, lines[1..])
  }

  function Eof(present: bool): seq<string> {
    if present then ["\\ No newline at end of file"] else []
  }

  function RenderHunk(h: Hunk, a: nat, b: nat): seq<string> {
    Flatten([[Header(a, |h.deleted|, b, |h.inserted|, h.suffix)],
             Marked('-', h.deleted), Eof(h.oldEof), Marked('+', h.inserted), Eof(h.newEof)])
  }

  /** One part for each hunk, from line `a` of the old file and line `b` of the new one. */
  function Placed<T>(part: (Hunk, nat, nat) -> seq<T>, hunks: seq<Hunk>, a: nat, b: nat): seq<T> {
    if hunks == [] then []
    else
      var h := hunks[0];
      part(h, a + h.keep, b + h.keep) + Placed(part, hunks[1..], a + h.keep + |h.deleted|, b + h.keep + |h.inserted|)
  }

  /** The zero-context diff of an edit script. */
  function Render(hunks: seq<Hunk>): seq<string> {
    Placed(RenderHunk, hunks, 0, 0)
  }

  /** The script turns a file with `m` lines from `a` on into one with `n` lines from `b` on. */
  predicate Fits(hunks: seq<Hunk>, a: nat, b: nat, m: nat, n: nat) {
    if hunks == [] then a <= m && b <= n && m - a == n - b
    else
      var h := hunks[0];
      Fits(hunks[1..], a + h.keep + |h.deleted|, b + h.keep + |h.inserted|, m, n)
  }

  lemma {:induction false} FitsBounds(hunks: seq<Hunk>, a: nat, b: nat, m: nat, n: nat)
    requires Fits(hunks, a, b, m, n)
    ensures a <= m && b <= n
  {
    if hunks != [] {
      var h := hunks[0];
      FitsBounds(hunks[1..], a + h.keep + |h.deleted|, b + h.keep + |h.inserted|, m, n);
    }
  }

  /** The categories of the lines that the script takes out. */
  function Removed(hunks: seq<Hunk>, a: nat, b: nat, old_: seq<Category>, n: nat): seq<Category>
    requires Fits(hunks, a, b, |old_|, n)
  {
    if hunks == [] then []
    else
      var h := hunks[0];
      var a' := a + h.keep + |h.deleted|;
      var b' := b + h.keep + |h.inserted|;
      FitsBounds(hunks[1..], a', b', |old_|, n);
      old_[a + h.keep..a'] + Removed(hunks[1..], a', b', old_, n)
  }

  /** The categories of the lines that the script puts in. */
  function Inserted(hunks: seq<Hunk>, a: nat, b: nat, m: nat, new_: seq<Category>): seq<Category>
    requires Fits(hunks, a, b, m, |new_|)
  {
    if hunks == [] then []
    else
      var h := hunks[0];
      var a' := a + h.keep + |h.deleted|;
      var b' := b + h.keep + |h.inserted|;
      FitsBounds(hunks[1..], a', b', m, |new_|);
      new_[b + h.keep..b'] + Inserted(hunks[1..], a', b', m, new_)
  }

  /** What a script's lines add up to, category by category. */
  function ScriptTally(hunks: seq<Hunk>, old_: seq<Category>, new_: seq<Category>): Tally
    requires Fits(hunks, 0, 0, |old_|, |new_|)
  {
    TallyOf(Removed(hunks, 0, 0, old_, |new_|), Inserted(hunks, 0, 0, |old_|, new_))
  }

  /** How many lines a script takes out, and how many it puts in. */
  function RemovedCount(hunks: seq<Hunk>): nat {
    if hunks == [] then 0 else |hunks[0].deleted| + RemovedCount(hunks[1..])
  }

  function InsertedCount(hunks: seq<Hunk>): nat {
    if hunks == [] then 0 else |hunks[0].inserted| + InsertedCount(hunks[1..])
  }

  lemma SliceAndRest<T>(s: seq<T>, i: nat, n: nat, rest: seq<T>)
    requires i + n <= |s|
    ensures |s[i..i + n] + rest| == n + |rest|
  {
  }

  lemma {:induction false} RemovedLength(hunks: seq<Hunk>, a: nat, b: nat, old_: seq<Category>, n: nat)
    requires Fits(hunks, a, b, |old_|, n)
    ensures |Removed(hunks, a, b, old_, n)| == RemovedCount(hunks)
  {
    if hunks != [] {
      var h := hunks[0];
      FitsBounds(hunks[1..], a + h.keep + |h.deleted|, b + h.keep + |h.inserted|, |old_|, n);
      RemovedLength(hunks[1..], a + h.keep + |h.deleted|, b + h.keep + |h.inserted|, old_, n);
      SliceAndRest(old_, a + h.keep, |h.deleted|,
                   Removed(hunks[1..], a + h.keep + |h.deleted|, b + h.keep + |h.inserted|, old_, n));
    }
  }

  lemma {:induction false} InsertedLength(hunks: seq<Hunk>, a: nat, b: nat, m: nat, new_: seq<Category>)
    requires Fits(hunks, a, b, m, |new_|)
    ensures |Inserted(hunks, a, b, m, new_)| == InsertedCount(hunks)
  {
    if hunks != [] {
      var h := hunks[0];
      FitsBounds(hunks[1..], a + h.keep + |h.deleted|, b + h.keep + |h.inserted|, m, |new_|);
      InsertedLength(hunks[1..], a + h.keep + |h.deleted|, b + h.keep + |h.inserted|, m, new_);
      SliceAndRest(new_, b + h.keep, |h.inserted|,
                   Inserted(hunks[1..], a + h.keep + |h.deleted|, b + h.keep + |h.inserted|, m, new_));
    }
  }

  lemma {:induction false} LengthChange(hunks: seq<Hunk>, a: nat, b: nat, m: nat, n: nat)
    requires Fits(hunks, a, b, m, n)
    ensures InsertedCount(hunks) - RemovedCount(hunks) == (n - b) - (m - a)
  {
    if hunks != [] {
      var h := hunks[0];
      LengthChange(hunks[1..], a + h.keep + |h.deleted|, b + h.keep + |h.inserted|, m, n);
    }
  }

  // ── Reading headers back ───────────────────────────────────────────────────

  lemma {:induction false} DigitRunOf(digits: string, rest: string)
    requires AllDigits(digits) && (rest == [] || !IsDigit(rest[0]))
    ensures DigitRun(digits + rest) == |digits|
  {
    var s := digits + rest;
    if digits == [] {
      assert s == rest;
    } else {
      assert s[1..] == digits[1..] + rest;
      DigitRunOf(digits[1..], rest);
    }
  }

  lemma ReadNumeral(n: nat, rest: string)
    requires rest == [] || !IsDigit(rest[0])
    ensures ReadNumber(Numeral(n) + rest) == Some((n, rest))
  {
    var digits := Numeral(n);
    DigitRunOf(digits, rest);
    ValueOfPad(n, 1);
    assert (digits + rest)[..|digits|] == digits && (digits + rest)[|digits|..] == rest;
  }

  lemma ReadRangeBack(at: nat, count: nat, rest: string)
    requires rest != [] && rest[0] == ' '
    ensures ReadRange(Range(at, count) + rest) == Some((Position(at, count), rest))
  {
    var start := Numeral(Position(at, count));
    if count == 1 {
      assert Range(at, count) + rest == start + rest;
      ReadNumeral(Position(at, count), rest);
    } else {
      var tail := "," + Numeral(count) + rest;
      assert Range(at, count) + rest == start + tail;
      ReadNumeral(Position(at, count), tail);
      assert tail[1..] == Numeral(count) + rest;
      ReadNumeral(count, rest);
    }
  }

  lemma ExpectBack(token: string, rest: string)
    ensures Expect(token + rest, token) == Some(rest)
  {
  }

  /** The header pattern reads back the two positions that git prints. */
  lemma ParseHeaderBack(a: nat, d: nat, b: nat, n: nat, suffix: string)
    ensures ParseHeader(Header(a, d, b, n, suffix)) == Some((Position(a, d), Position(b, n)))
  {
    var third := " @@" + suffix;
    var second := " +" + (Range(b, n) + third);
    ExpectBack("@@ -", Range(a, d) + second);
    ReadRangeBack(a, d, second);
    ExpectBack(" +", Range(b, n) + third);
    ReadRangeBack(b, n, third);
    ExpectBack(" @@", suffix);
  }

  // ── What the rendered lines say ────────────────────────────────────────────

  function Repeat(e: Event, n: nat): seq<Event> {
    seq(n, _ => e)
  }

  function EofEvents(present: bool): seq<Event> {
    if present then [Other] else []
  }

  function HunkEvents(h: Hunk, a: nat, b: nat): seq<Event> {
    Flatten([[Head(Position(a, |h.deleted|), Position(b, |h.inserted|))],
             Repeat(Minus, |h.deleted|), EofEvents(h.oldEof), Repeat(Plus, |h.inserted|), EofEvents(h.newEof)])
  }

  function ScriptEvents(hunks: seq<Hunk>, a: nat, b: nat): seq<Event> {
    Placed(HunkEvents, hunks, a, b)
  }

  lemma FlattenStep<T>(first: seq<T>, rest: seq<seq<T>>)
    ensures Flatten([first] + rest) == first + Flatten(rest)
  {
    assert ([first] + rest)[1..] == rest;
  }

  lemma FlattenFive<T>(a: seq<T>, b: seq<T>, c: seq<T>, d: seq<T>, e: seq<T>)
    ensures Flatten([a, b, c, d, e]) == a + (b + (c + (d + e)))
  {
    FlattenStep(a, [b, c, d, e]);
    FlattenStep(b, [c, d, e]);
    FlattenStep(c, [d, e]);
    FlattenStep(d, [e]);
    FlattenStep(e, []);
    assert e + [] == e;
    assert [a] + [b, c, d, e] == [a, b, c, d, e] && [b] + [c, d, e] == [b, c, d, e];
    assert [c] + [d, e] == [c, d, e] && [d] + [e] == [d, e] && [e] + [] == [e];
  }

  lemma EventsFive(a: seq<string>, b: seq<string>, c: seq<string>, d: seq<string>, e: seq<string>)
    ensures Events(Flatten([a, b, c, d, e])) == Flatten([Events(a), Events(b), Events(c), Events(d), Events(e)])
  {
    FlattenFive(a, b, c, d, e);
    FlattenFive(Events(a), Events(b), Events(c), Events(d), Events(e));
    EventsConcat(d, e);
    EventsConcat(c, d + e);
    EventsConcat(b, c + (d + e));
    EventsConcat(a, b + (c + (d + e)));
  }

  lemma {:induction false} EventsConcat(x: seq<string>, y: seq<string>)
    ensures Events(x + y) == Events(x) + Events(y)
  {
    if x == [] {
      assert x + y == y;
    } else {
      assert (x + y)[0] == x[0] && (x + y)[1..] == x[1..] + y;
      EventsConcat(x[1..], y);
    }
  }

  lemma EventsGrow(lines: seq<string>, x: seq<string>, y: seq<string>, events: seq<Event>, ex: seq<Event>,
                   ey: seq<Event>)
    requires lines == x + y && events == ex + ey && Events(x) == ex && Events(y) == ey
    ensures Events(lines) == events
  {
    EventsConcat(x, y);
  }

  lemma NotHeader(line: string)
    requires line != [] && line[0] != '@'
    ensures ParseHeader(line).None?
  {
    assert Expect(line, "@@ -").None? by {
      if 4 <= |line| {
        assert line[..4][0] == line[0];
      }
    }
  }

  lemma MarkedLine(mark: char, text: string)
    requires mark in ['-', '+']
    ensures EventOf([mark] + text) == if mark == '-' then Minus else Plus
  {
    NotHeader([mark] + text);
  }

  lemma {:induction false} MarkedEvents(mark: char, lines: seq<string>)
    requires mark in ['-', '+']
    ensures Events(Marked(mark, lines)) == Repeat(if mark == '-' then Minus else Plus, |lines|)
  {
    if lines != [] {
      MarkedLine(mark, lines[0]);
      MarkedEvents(mark, lines[1..]);
      EventsConcat([[mark] + lines[0]], Marked(mark, lines[1..]));
    }
  }

  lemma EofSays(present: bool)
    ensures Events(Eof(present)) == EofEvents(present)
  {
    if present {
      var line := "\\ No newline at end of file";
      NotHeader(line);
      assert line[..|NO_NEWLINE|] == NO_NEWLINE;
    }
  }

  lemma HunkSays(h: Hunk, a: nat, b: nat)
    ensures Events(RenderHunk(h, a, b)) == HunkEvents(h, a, b)
  {
    var header := Header(a, |h.deleted|, b, |h.inserted|, h.suffix);
    ParseHeaderBack(a, |h.deleted|, b, |h.inserted|, h.suffix);
    assert Events([header]) == [Head(Position(a, |h.deleted|), Position(b, |h.inserted|))];
    MarkedEvents('-', h.deleted);
    MarkedEvents('+', h.inserted);
    EofSays(h.oldEof);
    EofSays(h.newEof);
    EventsFive([header], Marked('-', h.deleted), Eof(h.oldEof), Marked('+', h.inserted), Eof(h.newEof));
  }

  lemma {:induction false} PlacedEvents(lines: (Hunk, nat, nat) -> seq<string>, events: (Hunk, nat, nat) -> seq<Event>,
                                        hunks: seq<Hunk>, a: nat, b: nat)
    requires forall h, x, y :: Events(lines(h, x, y)) == events(h, x, y)
    ensures Events(Placed(lines, hunks, a, b)) == Placed(events, hunks, a, b)
  {
    if hunks != [] {
      var h := hunks[0];
      var (a', b') := (a + h.keep + |h.deleted|, b + h.keep + |h.inserted|);
      PlacedEvents(lines, events, hunks[1..], a', b');
      EventsGrow(Placed(lines, hunks, a, b), lines(h, a + h.keep, b + h.keep), Placed(lines, hunks[1..], a', b'),
                 Placed(events, hunks, a, b), events(h, a + h.keep, b + h.keep), Placed(events, hunks[1..], a', b'));
    }
  }

  lemma ScriptSays(hunks: seq<Hunk>)
    ensures Events(Render(hunks)) == ScriptEvents(hunks, 0, 0)
  {
    forall h, x, y ensures Events(RenderHunk(h, x, y)) == HunkEvents(h, x, y) {
      HunkSays(h, x, y);
    }
    PlacedEvents(RenderHunk, HunkEvents, hunks, 0, 0);
  }

  // ── Walking the events ─────────────────────────────────────────────────────

  lemma {:induction false} WalkConcat(x: seq<Event>, y: seq<Event>, c: Cursor, old_: seq<Category>, new_: seq<Category>)
    ensures var first := Walk(x, c, old_, new_);
            Walk(x + y, c, old_, new_) == if first.Ok? then Walk(y, first.value, old_, new_) else first
  {
    if x == [] {
      assert x + y == y;
    } else {
      assert (x + y)[0] == x[0] && (x + y)[1..] == x[1..] + y;
      var step := Advance(x[0], c, old_, new_);
      if step.Ok? {
        WalkConcat(x[1..], y, step.value, old_, new_);
      }
    }
  }

  lemma SliceStep<T>(s: seq<T>, i: nat, n: nat)
    requires 0 < n && i + n <= |s|
    ensures s[i..i + n] == [s[i]] + s[i + 1..i + n]
  {
  }

  lemma {:induction false} WalkMinus(n: nat, c: Cursor, old_: seq<Category>, new_: seq<Category>)
    requires c.inHunk && (n > 0 ==> 0 <= c.oldIndex && c.oldIndex + n <= |old_|)
    ensures var deleted := if n == 0 then [] else old_[c.oldIndex..c.oldIndex + n];
            Walk(Repeat(Minus, n), c, old_, new_) == Ok(c.(oldIndex := c.oldIndex + n, deleted := c.deleted + deleted))
  {
    if n == 0 {
      assert c.deleted + [] == c.deleted;
    } else {
      var i := c.oldIndex;
      var t := c.(oldIndex := i + 1, deleted := c.deleted + [old_[i]]);
      assert Repeat(Minus, n)[1..] == Repeat(Minus, n - 1);
      WalkMinus(n - 1, t, old_, new_);
      SliceStep(old_, i, n);
      var rest := if n == 1 then [] else old_[i + 1..i + n];
      assert old_[i + 1..i + n] == rest;
      assert c.deleted + [old_[i]] + rest == c.deleted + ([old_[i]] + rest);
    }
  }

  lemma {:induction false} WalkPlus(n: nat, c: Cursor, old_: seq<Category>, new_: seq<Category>)
    requires c.inHunk && (n > 0 ==> 0 <= c.newIndex && c.newIndex + n <= |new_|)
    ensures var inserted := if n == 0 then [] else new_[c.newIndex..c.newIndex + n];
            Walk(Repeat(Plus, n), c, old_, new_)
              == Ok(c.(newIndex := c.newIndex + n, inserted := c.inserted + inserted))
  {
    if n == 0 {
      assert c.inserted + [] == c.inserted;
    } else {
      var i := c.newIndex;
      var t := c.(newIndex := i + 1, inserted := c.inserted + [new_[i]]);
      assert Repeat(Plus, n)[1..] == Repeat(Plus, n - 1);
      WalkPlus(n - 1, t, old_, new_);
      SliceStep(new_, i, n);
      var rest := if n == 1 then [] else new_[i + 1..i + n];
      assert new_[i + 1..i + n] == rest;
      assert c.inserted + [new_[i]] + rest == c.inserted + ([new_[i]] + rest);
    }
  }

  lemma WalkOther(events: seq<Event>, c: Cursor, old_: seq<Category>, new_: seq<Category>)
    requires events <= [Other]
    ensures Walk(events, c, old_, new_) == Ok(c)
  {
    if events != [] {
      assert events == [Other] && events[1..] == [];
    }
  }

  /** A part of the events that counts nothing changes nothing; two parts add up. */
  lemma WalkThen(x: seq<Event>, y: seq<Event>, c: Cursor, c': Cursor, c'': Cursor, old_: seq<Category>,
                 new_: seq<Category>)
    requires Walk(x, c, old_, new_) == Ok(c') && Walk(y, c', old_, new_) == Ok(c'')
    ensures Walk(x + y, c, old_, new_) == Ok(c'')
  {
    WalkConcat(x, y, c, old_, new_);
  }

  lemma WalkHead(from: nat, to: nat, c: Cursor, old_: seq<Category>, new_: seq<Category>)
    ensures Walk([Head(from, to)], c, old_, new_)
              == Ok(c.(inHunk := true, oldIndex := (from as int) - 1, newIndex := (to as int) - 1))
  {
    assert [Head(from, to)][1..] == [];
  }

  /** The deleted lines of a hunk, counted from the position its header gives. */
  lemma WalkDeleted(a: nat, n: nat, c: Cursor, old_: seq<Category>, new_: seq<Category>)
    requires c.inHunk && c.oldIndex == (Position(a, n) as int) - 1 && a + n <= |old_|
    ensures Walk(Repeat(Minus, n), c, old_, new_)
              == Ok(c.(oldIndex := c.oldIndex + n, deleted := c.deleted + old_[a..a + n]))
  {
    WalkMinus(n, c, old_, new_);
    assert n == 0 ==> old_[a..a + n] == [];
  }

  lemma WalkInserted(b: nat, n: nat, c: Cursor, old_: seq<Category>, new_: seq<Category>)
    requires c.inHunk && c.newIndex == (Position(b, n) as int) - 1 && b + n <= |new_|
    ensures Walk(Repeat(Plus, n), c, old_, new_)
              == Ok(c.(newIndex := c.newIndex + n, inserted := c.inserted + new_[b..b + n]))
  {
    WalkPlus(n, c, old_, new_);
    assert n == 0 ==> new_[b..b + n] == [];
  }

  /** One hunk, wherever the cursor stood before it. */
  lemma WalkHunk(h: Hunk, a: nat, b: nat, c: Cursor, old_: seq<Category>, new_: seq<Category>) returns (end: Cursor)
    requires a + |h.deleted| <= |old_| && b + |h.inserted| <= |new_|
    ensures Walk(HunkEvents(h, a, b), c, old_, new_) == Ok(end)
    ensures end.deleted == c.deleted + old_[a..a + |h.deleted|]
    ensures end.inserted == c.inserted + new_[b..b + |h.inserted|]
  {
    end := WalkParts(a, |h.deleted|, b, |h.inserted|, EofEvents(h.oldEof), EofEvents(h.newEof), c, old_, new_);
  }

  lemma WalkParts(a: nat, d: nat, b: nat, n: nat, x: seq<Event>, z: seq<Event>,
                  c: Cursor, old_: seq<Category>, new_: seq<Category>)
    returns (end: Cursor)
    requires a + d <= |old_| && b + n <= |new_| && x <= [Other] && z <= [Other]
    ensures Walk(Flatten([[Head(Position(a, d), Position(b, n))], Repeat(Minus, d), x, Repeat(Plus, n), z]), c, old_,
                 new_)
         == Ok(end)
    ensures end.deleted == c.deleted + old_[a..a + d] && end.inserted == c.inserted + new_[b..b + n]
  {
    var (from, to) := (Position(a, d), Position(b, n));
    WalkHead(from, to, c, old_, new_);
    var c1 := c.(inHunk := true, oldIndex := (from as int) - 1, newIndex := (to as int) - 1);
    WalkDeleted(a, d, c1, old_, new_);
    var c2 := c1.(oldIndex := c1.oldIndex + d, deleted := c1.deleted + old_[a..a + d]);
    WalkInserted(b, n, c2, old_, new_);
    end := c2.(newIndex := c2.newIndex + n, inserted := c2.inserted + new_[b..b + n]);
    WalkOther(x, c2, old_, new_);
    WalkOther(z, end, old_, new_);
    WalkFive([Head(from, to)], Repeat(Minus, d), x, Repeat(Plus, n), z, c, c1, c2, end, old_, new_);
  }

  /** The five parts of a hunk, the two end-of-file marks changing nothing. */
  lemma WalkFive(v: seq<Event>, w: seq<Event>, x: seq<Event>, y: seq<Event>, z: seq<Event>,
                 c: Cursor, c1: Cursor, c2: Cursor, end: Cursor, old_: seq<Category>, new_: seq<Category>)
    requires Walk(v, c, old_, new_) == Ok(c1) && Walk(w, c1, old_, new_) == Ok(c2) && Walk(x, c2, old_, new_) == Ok(c2)
    requires Walk(y, c2, old_, new_) == Ok(end) && Walk(z, end, old_, new_) == Ok(end)
    ensures Walk(Flatten([v, w, x, y, z]), c, old_, new_) == Ok(end)
  {
    FlattenFive(v, w, x, y, z);
    WalkThen(y, z, c2, end, end, old_, new_);
    WalkThen(x, y + z, c2, c2, end, old_, new_);
    WalkThen(w, x + (y + z), c1, c2, end, old_, new_);
    WalkThen(v, w + (x + (y + z)), c, c1, end, old_, new_);
  }

  lemma Grown<T>(start: seq<T>, middle: seq<T>, end: seq<T>, a: seq<T>, b: seq<T>, both: seq<T>)
    requires middle == start + a && end == middle + b && both == a + b
    ensures end == start + both
  {
  }

  lemma {:induction false} WalkScript(hunks: seq<Hunk>, a: nat, b: nat, c: Cursor, old_: seq<Category>,
                                      new_: seq<Category>)
    returns (end: Cursor)
    requires Fits(hunks, a, b, |old_|, |new_|)
    ensures Walk(ScriptEvents(hunks, a, b), c, old_, new_) == Ok(end)
    ensures end.deleted == c.deleted + Removed(hunks, a, b, old_, |new_|)
    ensures end.inserted == c.inserted + Inserted(hunks, a, b, |old_|, new_)
  {
    end := c;
    if hunks != [] {
      var h := hunks[0];
      var (a0, b0) := (a + h.keep, b + h.keep);
      var (a', b') := (a0 + |h.deleted|, b0 + |h.inserted|);
      FitsBounds(hunks[1..], a', b', |old_|, |new_|);
      var middle := WalkHunk(h, a0, b0, c, old_, new_);
      end := WalkScript(hunks[1..], a', b', middle, old_, new_);
      WalkThen(HunkEvents(h, a0, b0), ScriptEvents(hunks[1..], a', b'), c, middle, end, old_, new_);
      var (removed, inserted) := (Removed(hunks, a, b, old_, |new_|), Inserted(hunks, a, b, |old_|, new_));
      Grown(c.deleted, middle.deleted, end.deleted, old_[a0..a'], Removed(hunks[1..], a', b', old_, |new_|), removed);
      Grown(c.inserted, middle.inserted, end.inserted, new_[b0..b'], Inserted(hunks[1..], a', b', |old_|, new_),
            inserted);
    }
  }

  lemma {:induction false} WalkPreamble(events: seq<Event>, c: Cursor, old_: seq<Category>, new_: seq<Category>)
    requires !c.inHunk && forall e :: e in events ==> !e.Head?
    ensures Walk(events, c, old_, new_) == Ok(c)
  {
    if events != [] {
      assert events[0] in events;
      WalkPreamble(events[1..], c, old_, new_);
    }
  }

  /** No line of the preamble is a hunk header. */
  predicate Headless(preamble: seq<string>) {
    forall i :: 0 <= i < |preamble| ==> ParseHeader(preamble[i]).None?
  }

  lemma {:induction false} PreambleEvents(preamble: seq<string>)
    requires Headless(preamble)
    ensures forall e :: e in Events(preamble) ==> !e.Head?
  {
    if preamble != [] {
      PreambleEvents(preamble[1..]);
    }
  }

  lemma WalkBehind(preamble: seq<string>, script: seq<string>, end: Cursor, old_: seq<Category>, new_: seq<Category>)
    requires Headless(preamble) && Walk(Events(script), START, old_, new_) == Ok(end)
    ensures Walk(Events(preamble + script), START, old_, new_) == Ok(end)
  {
    PreambleEvents(preamble);
    WalkPreamble(Events(preamble), START, old_, new_);
    EventsConcat(preamble, script);
    WalkThen(Events(preamble), Events(script), START, START, end, old_, new_);
  }

  lemma TallyBehind(preamble: seq<string>, script: seq<string>, end: Cursor, old_: seq<Category>, new_: seq<Category>)
    requires Headless(preamble) && Walk(Events(script), START, old_, new_) == Ok(end)
    ensures ParseTally(preamble + script, old_, new_) == Ok(TallyOf(end.deleted, end.inserted))
  {
    WalkBehind(preamble, script, end, old_, new_);
  }

  /** What the script's own lines count. */
  lemma WalkWholeScript(hunks: seq<Hunk>, old_: seq<Category>, new_: seq<Category>) returns (end: Cursor)
    requires Fits(hunks, 0, 0, |old_|, |new_|)
    ensures Walk(ScriptEvents(hunks, 0, 0), START, old_, new_) == Ok(end)
    ensures end.deleted == Removed(hunks, 0, 0, old_, |new_|) && end.inserted == Inserted(hunks, 0, 0, |old_|, new_)
    ensures |end.inserted| - |end.deleted| == |new_| - |old_|
  {
    end := WalkScript(hunks, 0, 0, START, old_, new_);
    LengthChange(hunks, 0, 0, |old_|, |new_|);
    RemovedLength(hunks, 0, 0, old_, |new_|);
    InsertedLength(hunks, 0, 0, |old_|, new_);
  }

  lemma ScriptNet(hunks: seq<Hunk>, old_: seq<Category>, new_: seq<Category>)
    requires Fits(hunks, 0, 0, |old_|, |new_|)
    ensures ScriptTally(hunks, old_, new_).TotalAdded() - ScriptTally(hunks, old_, new_).TotalDeleted()
              == |new_| - |old_|
  {
    var end := WalkWholeScript(hunks, old_, new_);
    TallyTotals(end.deleted, end.inserted);
  }

  /**
   * Reading back the rendering of any edit script counts exactly the categories of the lines taken
   * out and put in.  The index checks never fire, and the totals differ by the change in length.
   */
  lemma CountsTheScript(preamble: seq<string>, hunks: seq<Hunk>, old_: seq<Category>, new_: seq<Category>)
    requires Headless(preamble) && Fits(hunks, 0, 0, |old_|, |new_|)
    ensures var tally := ScriptTally(hunks, old_, new_);
            var (out, in_) :=
              (multiset(Removed(hunks, 0, 0, old_, |new_|)), multiset(Inserted(hunks, 0, 0, |old_|, new_)));
            && ParseTally(preamble + Render(hunks), old_, new_) == Ok(tally)
            && tally.codeAdded == in_[Code] && tally.commentAdded == in_[Comment] && tally.blankAdded == in_[Blank]
            && tally.codeDeleted == out[Code] && tally.commentDeleted == out[Comment]
              && tally.blankDeleted == out[Blank]
            && tally.TotalAdded() - tally.TotalDeleted() == |new_| - |old_|
  {
    var end := WalkWholeScript(hunks, old_, new_);
    ScriptSays(hunks);
    TallyBehind(preamble, Render(hunks), end, old_, new_);
    ScriptNet(hunks, old_, new_);
  }

  // ── Category by category ───────────────────────────────────────────────────

  /** The categories that the lines which stay have in the old file. */
  function KeptOld(hunks: seq<Hunk>, a: nat, b: nat, old_: seq<Category>, n: nat): seq<Category>
    requires Fits(hunks, a, b, |old_|, n)
  {
    if hunks == [] then old_[a..]
    else
      var h := hunks[0];
      var a' := a + h.keep + |h.deleted|;
      var b' := b + h.keep + |h.inserted|;
      FitsBounds(hunks[1..], a', b', |old_|, n);
      old_[a..a + h.keep] + KeptOld(hunks[1..], a', b', old_, n)
  }

  /** The categories that the same lines have in the new file. */
  function KeptNew(hunks: seq<Hunk>, a: nat, b: nat, m: nat, new_: seq<Category>): seq<Category>
    requires Fits(hunks, a, b, m, |new_|)
  {
    if hunks == [] then new_[b..]
    else
      var h := hunks[0];
      var a' := a + h.keep + |h.deleted|;
      var b' := b + h.keep + |h.inserted|;
      FitsBounds(hunks[1..], a', b', m, |new_|);
      new_[b..b + h.keep] + KeptNew(hunks[1..], a', b', m, new_)
  }

  lemma SplitThree(s: seq<Category>, i: nat, j: nat, k: nat, rest: seq<Category>, kept: seq<Category>,
                   gone: seq<Category>, stayed: seq<Category>)
    requires i <= j <= k <= |s| && multiset(s[k..]) == multiset(rest) + multiset(kept)
    requires gone == s[j..k] + rest && stayed == s[i..j] + kept
    ensures multiset(s[i..]) == multiset(gone) + multiset(stayed)
  {
    assert s[i..] == s[i..j] + s[j..k] + s[k..];
  }

  lemma RemovedUnfolds(hunks: seq<Hunk>, a: nat, b: nat, old_: seq<Category>, n: nat)
    requires Fits(hunks, a, b, |old_|, n) && hunks != []
    ensures var h := hunks[0];
            var a' := a + h.keep + |h.deleted|;
            var b' := b + h.keep + |h.inserted|;
            && Fits(hunks[1..], a', b', |old_|, n) && a' <= |old_|
            && Removed(hunks, a, b, old_, n) == old_[a + h.keep..a'] + Removed(hunks[1..], a', b', old_, n)
  {
    var h := hunks[0];
    FitsBounds(hunks[1..], a + h.keep + |h.deleted|, b + h.keep + |h.inserted|, |old_|, n);
  }

  lemma KeptOldUnfolds(hunks: seq<Hunk>, a: nat, b: nat, old_: seq<Category>, n: nat)
    requires Fits(hunks, a, b, |old_|, n) && hunks != []
    ensures var h := hunks[0];
            var a' := a + h.keep + |h.deleted|;
            var b' := b + h.keep + |h.inserted|;
            && Fits(hunks[1..], a', b', |old_|, n) && a' <= |old_|
            && KeptOld(hunks, a, b, old_, n) == old_[a..a + h.keep] + KeptOld(hunks[1..], a', b', old_, n)
  {
    var h := hunks[0];
    FitsBounds(hunks[1..], a + h.keep + |h.deleted|, b + h.keep + |h.inserted|, |old_|, n);
  }

  /** Every line of the old file goes or stays. */
  lemma {:induction false} OldSplits(hunks: seq<Hunk>, a: nat, b: nat, old_: seq<Category>, n: nat)
    returns (gone: seq<Category>, stayed: seq<Category>)
    requires Fits(hunks, a, b, |old_|, n) && a <= |old_|
    ensures gone == Removed(hunks, a, b, old_, n) && stayed == KeptOld(hunks, a, b, old_, n)
    ensures multiset(old_[a..]) == multiset(gone) + multiset(stayed)
  {
    if hunks == [] {
      gone, stayed := [], old_[a..];
    } else {
      var h := hunks[0];
      var (a', b') := (a + h.keep + |h.deleted|, b + h.keep + |h.inserted|);
      RemovedUnfolds(hunks, a, b, old_, n);
      KeptOldUnfolds(hunks, a, b, old_, n);
      var rest, kept := OldSplits(hunks[1..], a', b', old_, n);
      gone, stayed := old_[a + h.keep..a'] + rest, old_[a..a + h.keep] + kept;
      SplitThree(old_, a, a + h.keep, a', rest, kept, gone, stayed);
    }
  }

  lemma InsertedUnfolds(hunks: seq<Hunk>, a: nat, b: nat, m: nat, new_: seq<Category>)
    requires Fits(hunks, a, b, m, |new_|) && hunks != []
    ensures var h := hunks[0];
            var a' := a + h.keep + |h.deleted|;
            var b' := b + h.keep + |h.inserted|;
            && Fits(hunks[1..], a', b', m, |new_|) && b' <= |new_|
            && Inserted(hunks, a, b, m, new_) == new_[b + h.keep..b'] + Inserted(hunks[1..], a', b', m, new_)
  {
    var h := hunks[0];
    FitsBounds(hunks[1..], a + h.keep + |h.deleted|, b + h.keep + |h.inserted|, m, |new_|);
  }

  lemma KeptNewUnfolds(hunks: seq<Hunk>, a: nat, b: nat, m: nat, new_: seq<Category>)
    requires Fits(hunks, a, b, m, |new_|) && hunks != []
    ensures var h := hunks[0];
            var a' := a + h.keep + |h.deleted|;
            var b' := b + h.keep + |h.inserted|;
            && Fits(hunks[1..], a', b', m, |new_|) && b' <= |new_|
            && KeptNew(hunks, a, b, m, new_) == new_[b..b + h.keep] + KeptNew(hunks[1..], a', b', m, new_)
  {
    var h := hunks[0];
    FitsBounds(hunks[1..], a + h.keep + |h.deleted|, b + h.keep + |h.inserted|, m, |new_|);
  }

  /** Every line of the new file came or stayed. */
  lemma {:induction false} NewSplits(hunks: seq<Hunk>, a: nat, b: nat, m: nat, new_: seq<Category>)
    returns (came: seq<Category>, stayed: seq<Category>)
    requires Fits(hunks, a, b, m, |new_|) && b <= |new_|
    ensures came == Inserted(hunks, a, b, m, new_) && stayed == KeptNew(hunks, a, b, m, new_)
    ensures multiset(new_[b..]) == multiset(came) + multiset(stayed)
  {
    if hunks == [] {
      came, stayed := [], new_[b..];
    } else {
      var h := hunks[0];
      var (a', b') := (a + h.keep + |h.deleted|, b + h.keep + |h.inserted|);
      InsertedUnfolds(hunks, a, b, m, new_);
      KeptNewUnfolds(hunks, a, b, m, new_);
      var rest, kept := NewSplits(hunks[1..], a', b', m, new_);
      came, stayed := new_[b + h.keep..b'] + rest, new_[b..b + h.keep] + kept;
      SplitThree(new_, b, b + h.keep, b', rest, kept, came, stayed);
    }
  }

  /**
   * In each category the old file's lines and the counted additions balance the new file's lines and
   * the counted deletions, up to the lines that stay but fall into another category because a comment
   * before them was opened or closed.
   */
  lemma NetByCategory(hunks: seq<Hunk>, old_: seq<Category>, new_: seq<Category>)
    requires Fits(hunks, 0, 0, |old_|, |new_|)
    ensures var (t, was, is_) := (ScriptTally(hunks, old_, new_), multiset(old_), multiset(new_));
            var stayed := (multiset(KeptOld(hunks, 0, 0, old_, |new_|)), multiset(KeptNew(hunks, 0, 0, |old_|, new_)));
            && was[Code] + t.codeAdded + stayed.1[Code] == is_[Code] + t.codeDeleted + stayed.0[Code]
            && was[Comment] + t.commentAdded + stayed.1[Comment] == is_[Comment] + t.commentDeleted + stayed.0[Comment]
            && was[Blank] + t.blankAdded + stayed.1[Blank] == is_[Blank] + t.blankDeleted + stayed.0[Blank]
  {
    var gone, left := OldSplits(hunks, 0, 0, old_, |new_|);
    var came, right := NewSplits(hunks, 0, 0, |old_|, new_);
    assert old_[0..] == old_ && new_[0..] == new_;
  }
}
