/** What the walk of `parse_hunks` does on any diff, well formed or not (scripts/patch-stats.py). */
module DiffReading {
  import opened Wrappers
  import opened Text
  import opened CommentLexer
  import opened Hunks

  // ── Any diff ───────────────────────────────────────────────────────────────

  /** A walk that fails stops in a hunk, at the first line that is taken from or put in outside the file. */
  lemma {:induction false} WalkFails(events: seq<Event>, c: Cursor, old_: seq<Category>, new_: seq<Category>)
    returns (k: nat, t: Cursor)
    requires Walk(events, c, old_, new_).Err?
    ensures k < |events| && Walk(events[..k], c, old_, new_) == Ok(t) && t.inHunk
    ensures if events[k] == Minus then
              !(0 <= t.oldIndex < |old_|) && Walk(events, c, old_, new_) == Err(OldOutside)
            else
              events[k] == Plus && !(0 <= t.newIndex < |new_|) && Walk(events, c, old_, new_) == Err(NewOutside)
  {
    var next := Advance(events[0], c, old_, new_);
    if next.Err? {
      k, t := 0, c;
    } else {
      k, t := WalkFails(events[1..], next.value, old_, new_);
      k := k + 1;
      assert events[..k][1..] == events[1..][..k - 1];
    }
  }

  /**
   * Between two headers the old file's index moves over the lines taken out and those of the context,
   * the new file's over the lines put in and those of the context, and each line taken out or put in
   * is counted once.
   */
  lemma {:induction false} IndexesFollow(events: seq<Event>, c: Cursor, old_: seq<Category>, new_: seq<Category>)
    requires c.inHunk && Walk(events, c, old_, new_).Ok? && forall e :: e in events ==> !e.Head?
    ensures var t := Walk(events, c, old_, new_).value;
            var m := multiset(events);
            && t.inHunk
            && t.oldIndex == c.oldIndex + m[Minus] + m[Context] && t.newIndex == c.newIndex + m[Plus] + m[Context]
            && |t.deleted| == |c.deleted| + m[Minus] && |t.inserted| == |c.inserted| + m[Plus]
  {
    if events != [] {
      IndexesFollow(events[1..], Advance(events[0], c, old_, new_).value, old_, new_);
      assert events == [events[0]] + events[1..];
      assert multiset(events) == multiset{events[0]} + multiset(events[1..]);
    }
  }

  // ── Any header ─────────────────────────────────────────────────────────────

  /** Nothing, or a comma and a number. */
  predicate IsCount(s: string) {
    s == [] || (|s| > 1 && s[0] == ',' && AllDigits(s[1..]))
  }

  lemma ExpectSplits(s: string, token: string)
    ensures Expect(s, token).Some? ==> s == token + Expect(s, token).value
  {
  }

  lemma NumberSplits(s: string) returns (digits: string, rest: string)
    requires ReadNumber(s).Some?
    ensures s == digits + rest && digits != [] && AllDigits(digits)
    ensures ReadNumber(s) == Some((Value(digits), rest))
  {
    digits, rest := s[..DigitRun(s)], s[DigitRun(s)..];
  }

  lemma RangeSplits(s: string) returns (start: string, count: string, rest: string)
    requires ReadRange(s).Some?
    ensures s == start + count + rest && start != [] && AllDigits(start) && IsCount(count)
    ensures ReadRange(s) == Some((Value(start), rest))
  {
    var behind;
    start, behind := NumberSplits(s);
    if behind != [] && behind[0] == ',' {
      var digits;
      digits, rest := NumberSplits(behind[1..]);
      count := [','] + digits;
      assert behind == count + rest;
    } else {
      count, rest := [], behind;
    }
  }

  lemma FourParts(line: string, a: string, r1: string, b: string, r2: string, c: string, suffix: string,
                  t1: string, t2: string, t3: string, t4: string)
    requires line == a + t1 && t1 == r1 + t2 && t2 == b + t3 && t3 == r2 + t4 && t4 == c + suffix
    ensures line == a + r1 + b + r2 + c + suffix
  {
  }

  /**
   * Only hunk headers read as such: two numbers, each perhaps with a count behind it, between their
   * marks, and anything after the last; what is read is the two numbers.
   */
  lemma HeaderParts(line: string)
    returns (from: string, fromCount: string, to: string, toCount: string, suffix: string)
    requires ParseHeader(line).Some?
    ensures line == "@@ -" + (from + fromCount) + " +" + (to + toCount) + " @@" + suffix
    ensures from != [] && AllDigits(from) && IsCount(fromCount) && to != [] && AllDigits(to) && IsCount(toCount)
    ensures ParseHeader(line) == Some((Value(from), Value(to)))
  {
    var t2, t4;
    ExpectSplits(line, "@@ -");
    var t1 := Expect(line, "@@ -").value;
    from, fromCount, t2 := RangeSplits(t1);
    ExpectSplits(t2, " +");
    var t3 := Expect(t2, " +").value;
    to, toCount, t4 := RangeSplits(t3);
    ExpectSplits(t4, " @@");
    suffix := Expect(t4, " @@").value;
    FourParts(line, "@@ -", from + fromCount, " +", to + toCount, " @@", suffix, t1, t2, t3, t4);
  }
}
