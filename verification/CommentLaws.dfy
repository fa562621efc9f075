/** What the comment lexer guarantees over every line and every file. */
module CommentLaws {
  import opened Wrappers
  import opened StringTokens
  import opened CommentLexer

  // ── What every step keeps ──────────────────────────────────────────────────

  /**
   * A block comment and a multi-line string are never open together, a comment nests only where the
   * syntax nests, and each of the two is open only where the syntax has it.
   */
  predicate Tidy(depth: nat, open: Option<Closer>, syntax: Syntax) {
    && (depth > 0 ==> open.None? && syntax.block.Some?)
    && (!syntax.nested ==> depth <= 1)
    && (open.Some? ==> open.value.token != [] && syntax.kind in {CLike, Rust, Hash})
  }

  lemma StepTidy(line: string, s: Scan, syntax: Syntax, chars: Chars)
    requires WellFormed(syntax) && s.index < |line| && Tidy(s.depth, s.open, syntax)
    ensures var t := Step(line, s, syntax, chars); Tidy(t.depth, t.open, syntax)
  {
  }

  lemma {:induction false} ScanTidy(line: string, s: Scan, syntax: Syntax, chars: Chars)
    requires WellFormed(syntax) && s.index <= |line| && Tidy(s.depth, s.open, syntax)
    ensures var t := ScanLine(line, s, syntax, chars); Tidy(t.depth, t.open, syntax)
    decreases |line| - s.index
  {
    if s.index < |line| {
      StepTidy(line, s, syntax, chars);
      ScanTidy(line, Step(line, s, syntax, chars), syntax, chars);
    }
  }

  lemma {:induction false} ClassifyTidy(lines: seq<string>, first: bool, carry: Carry, syntax: Syntax, chars: Chars)
    requires WellFormed(syntax) && Tidy(carry.depth, carry.open, syntax)
    ensures var after := Classify(lines, first, carry, syntax, chars).1; Tidy(after.depth, after.open, syntax)
  {
    if lines != [] {
      ScanTidy(lines[0], Begin(carry), syntax, chars);
      var next := ClassifyLine(lines[0], first, carry, syntax, chars).1;
      ClassifyTidy(lines[1..], false, next, syntax, chars);
    }
  }

  /** After any file in any of the ten syntaxes. */
  lemma NeverBothOpen(lines: seq<string>, kind: Kind, chars: Chars)
    requires WellFormed(SyntaxOf(kind))
    ensures var after := Classify(lines, true, Carry(0, None), SyntaxOf(kind), chars).1;
            && (after.depth > 0 ==> after.open.None?)
            && (kind != Rust ==> after.depth <= 1)
            && (kind in {Hash, Ini, Properties, JarMn, Plain} ==> after.depth == 0)
            && (kind !in {CLike, Rust, Hash} ==> after.open.None?)
  {
    AllWellFormed(kind);
    ClassifyTidy(lines, true, Carry(0, None), SyntaxOf(kind), chars);
  }

  // ── Blank lines ────────────────────────────────────────────────────────────

  /** The scan marks a line as soon as it meets anything but space. */
  lemma {:induction false} ScanMarks(line: string, s: Scan, syntax: Syntax, chars: Chars)
    requires WellFormed(syntax) && s.index <= |line| && Closable(s.open)
    requires s.code || s.comment || exists k :: s.index <= k < |line| && !chars.space(line[k])
    ensures var t := ScanLine(line, s, syntax, chars); t.code || t.comment
    decreases |line| - s.index
  {
    if s.index < |line| {
      StepMarks(line, s, syntax, chars);
      ScanMarks(line, Step(line, s, syntax, chars), syntax, chars);
    }
  }

  lemma StepMarks(line: string, s: Scan, syntax: Syntax, chars: Chars)
    requires WellFormed(syntax) && s.index < |line| && Closable(s.open)
    ensures var t := Step(line, s, syntax, chars);
            || t.code || t.comment
            || (t == s.(index := s.index + 1) && chars.space(line[s.index]))
    ensures var t := Step(line, s, syntax, chars); (s.code ==> t.code) && (s.comment ==> t.comment)
  {
  }

  lemma BlankLine(line: string, first: bool, carry: Carry, syntax: Syntax, chars: Chars)
    requires WellFormed(syntax) && Closable(carry.open)
    ensures ClassifyLine(line, first, carry, syntax, chars).0 == Blank <==> AllSpace(line, chars.space)
  {
    StripEmpty(line, chars.space);
    if !AllSpace(line, chars.space) {
      ScanMarks(line, Begin(carry), syntax, chars);
    }
  }

  /** A line is blank exactly when it holds white space only, inside comments and strings too. */
  lemma {:induction false} BlankExactly(lines: seq<string>, first: bool, carry: Carry, syntax: Syntax, chars: Chars,
                                        i: nat)
    requires WellFormed(syntax) && Closable(carry.open) && i < |lines|
    ensures Classify(lines, first, carry, syntax, chars).0[i] == Blank <==> AllSpace(lines[i], chars.space)
  {
    if i == 0 {
      BlankLine(lines[0], first, carry, syntax, chars);
    } else {
      var next := ClassifyLine(lines[0], first, carry, syntax, chars).1;
      BlankExactly(lines[1..], false, next, syntax, chars, i - 1);
    }
  }

  // ── Prefixes ───────────────────────────────────────────────────────────────

  /** Later lines are classified from what earlier ones hand on, and change nothing before them. */
  lemma {:induction false} ClassifyConcat(a: seq<string>, b: seq<string>, first: bool, carry: Carry, syntax: Syntax,
                                          chars: Chars)
    requires WellFormed(syntax) && Closable(carry.open)
    ensures var (head, middle) := Classify(a, first, carry, syntax, chars);
            var (tail, after) := Classify(b, first && a == [], middle, syntax, chars);
            Classify(a + b, first, carry, syntax, chars) == (head + tail, after)
  {
    if a == [] {
      assert a + b == b;
      var tail := Classify(b, first, carry, syntax, chars).0;
      assert Classify(a, first, carry, syntax, chars) == ([], carry) && [] + tail == tail;
    } else {
      var next := ClassifyLine(a[0], first, carry, syntax, chars).1;
      assert (a + b)[0] == a[0] && (a + b)[1..] == a[1..] + b;
      ClassifyConcat(a[1..], b, false, next, syntax, chars);
      var (head, middle) := Classify(a[1..], false, next, syntax, chars);
      var tail := Classify(b, false, middle, syntax, chars).0;
      var category := ClassifyLine(a[0], first, carry, syntax, chars).0;
      assert [category] + (head + tail) == [category] + head + tail;
    }
  }

  /** The first `n` lines alone are classified as they are in the whole file. */
  lemma PrefixOfLines(lines: seq<string>, n: nat, first: bool, carry: Carry, syntax: Syntax, chars: Chars)
    requires WellFormed(syntax) && Closable(carry.open) && n <= |lines|
    ensures Classify(lines[..n], first, carry, syntax, chars).0 == Classify(lines, first, carry, syntax, chars).0[..n]
  {
    ClassifyConcat(lines[..n], lines[n..], first, carry, syntax, chars);
    assert lines[..n] + lines[n..] == lines;
  }

  // ── Where comments end ─────────────────────────────────────────────────────

  /** One turn of the scan inside a comment that does not nest. */
  function Inside(line: string, s: Scan, token: string): Scan
    requires s.depth > 0
  {
    if StartsWith(line, token, s.index) then s.(index := s.index + |token|, depth := s.depth - 1, comment := true)
    else s.(index := s.index + 1, comment := true)
  }

  predicate InComment(line: string, s: Scan) {
    s.index < |line| && s.depth > 0 && s.open.None?
  }

  /** The rest of the scan, as a function of where it stands. */
  function Rest(line: string, syntax: Syntax, chars: Chars): Scan -> Scan
    requires WellFormed(syntax)
  {
    (s: Scan) => if s.index <= |line| && Closable(s.open) then ScanLine(line, s, syntax, chars) else s
  }

  /** Inside comments the scan moves by `Inside`; at the end of the line it is done. */
  ghost predicate MovesInside(line: string, token: string, scan: Scan -> Scan) {
    && (forall s: Scan :: InComment(line, s) ==> scan(s) == scan(Inside(line, s, token)))
    && (forall s: Scan :: s.index == |line| && s.open.None? ==> scan(s) == s)
  }

  lemma RestMovesInside(line: string, syntax: Syntax, chars: Chars)
    requires WellFormed(syntax) && !syntax.nested && syntax.block.Some?
    ensures MovesInside(line, syntax.block.value.end, Rest(line, syntax, chars))
  {
    forall s: Scan | InComment(line, s)
      ensures Rest(line, syntax, chars)(s) == Rest(line, syntax, chars)(Inside(line, s, syntax.block.value.end))
    {
      assert Step(line, s, syntax, chars) == Inside(line, s, syntax.block.value.end);
    }
  }

  lemma EndHere(line: string, token: string, i: nat)
    requires i <= |line| && StartsWith(line, token, i)
    ensures StringEnd(line, token, i, false) == Some(i)
  {
  }

  lemma EndLater(line: string, token: string, i: nat)
    requires token != [] && i < |line| && !StartsWith(line, token, i)
    ensures StringEnd(line, token, i, false) == StringEnd(line, token, i + 1, false)
    ensures i + 1 == |line| ==> StringEnd(line, token, i, false).None?
  {
  }


  lemma {:induction false} EndsFirst(line: string, s: Scan, token: string, scan: Scan -> Scan)
    requires MovesInside(line, token, scan) && token != [] && InComment(line, s)
    ensures var end := StringEnd(line, token, s.index, false);
            scan(s) == if end.None? then s.(index := |line|, comment := true)
                       else scan(s.(index := end.value + |token|, depth := s.depth - 1, comment := true))
    decreases |line| - s.index
  {
    assert scan(s) == scan(Inside(line, s, token));
    if StartsWith(line, token, s.index) {
      EndHere(line, token, s.index);
    } else {
      EndLater(line, token, s.index);
      var t := s.(index := s.index + 1, comment := true);
      if t.index < |line| {
        EndsFirst(line, t, token, scan);
      } else {
        assert scan(t) == t;
      }
    }
  }

  /** Without nesting, the end token first found ends a comment, whatever stands before it. */
  lemma CommentEndsFirst(line: string, s: Scan, syntax: Syntax, chars: Chars)
    requires WellFormed(syntax) && !syntax.nested && syntax.block.Some?
    requires s.index < |line| && s.depth > 0 && s.open.None?
    ensures var end := StringEnd(line, syntax.block.value.end, s.index, false);
            ScanLine(line, s, syntax, chars)
            == if end.None? then s.(index := |line|, comment := true)
               else ScanLine(line,
                             s.(index := end.value + |syntax.block.value.end|, depth := s.depth - 1, comment := true),
                             syntax, chars)
  {
    RestMovesInside(line, syntax, chars);
    EndsFirst(line, s, syntax.block.value.end, Rest(line, syntax, chars));
  }

  /** Looking for the end of one comment level: just after it, or the levels the line leaves open. */
  datatype Matched = Closed(after: nat) | Unclosed(levels: nat)

  /** A recursive-descent reading of a nested comment, from inside it; it keeps no depth. */
  function Match(line: string, i: nat, block: Block): (r: Matched)
    requires i <= |line| && block.start != [] && block.end != []
    ensures r.Closed? ==> i < r.after <= |line|
    ensures r.Unclosed? ==> r.levels > 0
    decreases |line| - i
  {
    if i == |line| then Unclosed(1)
    else if StartsWith(line, block.start, i) then
      match Match(line, i + |block.start|, block)
      case Unclosed(levels) => Unclosed(levels + 1)
      case Closed(after) => Match(line, after, block)
    else if StartsWith(line, block.end, i) then Closed(i + |block.end|)
    else Match(line, i + 1, block)
  }

  /** From here the scan takes one block step inside a comment, and stops at the end of the line. */
  ghost predicate StepsAt(line: string, syntax: Syntax, scan: Scan -> Scan, s: Scan)
    requires WellFormed(syntax)
  {
    && (s.index == |line| ==> scan(s) == s)
    && (s.index < |line| && s.depth > 0 ==> scan(s) == scan(BlockStep(line, s, syntax)))
  }

  ghost predicate StepsThroughBlocks(line: string, syntax: Syntax, scan: Scan -> Scan)
    requires WellFormed(syntax)
  {
    forall s: Scan {:trigger StepsAt(line, syntax, scan, s)} :: s.open.None? ==> StepsAt(line, syntax, scan, s)
  }

  /** Such a scan's depth counter follows the recursive reading. */
  lemma {:induction false} ScanFollowsMatch(line: string, s: Scan, syntax: Syntax, scan: Scan -> Scan)
    requires WellFormed(syntax) && syntax.nested && syntax.block.Some? && StepsThroughBlocks(line, syntax, scan)
    requires s.index < |line| && s.depth > 0 && s.open.None?
    ensures scan(s)
         == match Match(line, s.index, syntax.block.value)
            case Closed(after) => scan(s.(index := after, depth := s.depth - 1, comment := true))
            case Unclosed(levels) => s.(index := |line|, depth := s.depth - 1 + levels, comment := true)
    decreases |line| - s.index
  {
    var block := syntax.block.value;
    var t := BlockStep(line, s, syntax);
    assert StepsAt(line, syntax, scan, s) && StepsAt(line, syntax, scan, t);
    if StartsWith(line, block.start, s.index) {
      if t.index < |line| {
        ScanFollowsMatch(line, t, syntax, scan);
        var inner := Match(line, t.index, block);
        if inner.Closed? {
          var u := t.(index := inner.after, depth := s.depth);
          assert StepsAt(line, syntax, scan, u);
          if inner.after < |line| {
            ScanFollowsMatch(line, u, syntax, scan);
          }
        }
      }
    } else if !StartsWith(line, block.end, s.index) {
      if t.index < |line| {
        ScanFollowsMatch(line, t, syntax, scan);
      }
    }
  }

  function Scanner(line: string, syntax: Syntax, chars: Chars): Scan -> Scan
    requires WellFormed(syntax)
  {
    (s: Scan) => if s.index <= |line| && s.open.None? then ScanLine(line, s, syntax, chars) else s
  }

  /** The scanner's depth counter follows the recursive reading exactly. */
  lemma DepthIsNesting(line: string, s: Scan, syntax: Syntax, chars: Chars)
    requires WellFormed(syntax) && syntax.nested && syntax.block.Some?
    requires s.index < |line| && s.depth > 0 && s.open.None?
    ensures ScanLine(line, s, syntax, chars)
         == match Match(line, s.index, syntax.block.value)
            case Closed(after) =>
              ScanLine(line, s.(index := after, depth := s.depth - 1, comment := true), syntax, chars)
            case Unclosed(levels) => s.(index := |line|, depth := s.depth - 1 + levels, comment := true)
  {
    ScanFollowsMatch(line, s, syntax, Scanner(line, syntax, chars));
  }

  /** How many comment levels are open after reading on with `levels` open, by recursive descent. */
  function LevelsAfter(line: string, i: nat, levels: nat, block: Block): (r: (nat, nat))
    requires i <= |line| && block.start != [] && block.end != []
    ensures i <= r.0 <= |line|
    ensures levels > 0 && r.1 == 0 ==> i < r.0
    ensures r.1 > 0 ==> r.0 == |line|
    decreases levels
  {
    if levels == 0 then (i, 0)
    else
      match Match(line, i, block)
      case Closed(after) => LevelsAfter(line, after, levels - 1, block)
      case Unclosed(more) => (|line|, levels - 1 + more)
  }

  /** A line entered with any number of comments open: the scan resumes where the reading says they all end. */
  lemma {:induction false} LineInsideComments(line: string, s: Scan, syntax: Syntax, chars: Chars)
    requires WellFormed(syntax) && syntax.nested && syntax.block.Some?
    requires s.index <= |line| && s.open.None? && (s.index < |line| || s.comment)
    ensures var (at, levels) := LevelsAfter(line, s.index, s.depth, syntax.block.value);
            && (levels > 0 ==> at == |line|)
            && ScanLine(line, s, syntax, chars)
            == ScanLine(line, s.(index := at, depth := levels, comment := s.comment || s.depth > 0), syntax, chars)
    decreases s.depth
  {
    if s.depth > 0 && s.index < |line| {
      DepthIsNesting(line, s, syntax, chars);
      var m := Match(line, s.index, syntax.block.value);
      if m.Closed? {
        LineInsideComments(line, s.(index := m.after, depth := s.depth - 1, comment := true), syntax, chars);
      }
    }
  }
}
