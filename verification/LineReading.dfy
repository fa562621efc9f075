/**
 * Reading a line by place: every character lies in a gap, in code, in a string, in a block comment or in
 * a line comment.  Strings and comments are read whole, from their start to their end, and no flag is
 * kept; the category of a line is what its characters lie in.
 */
module LineReading {
  import opened Wrappers
  import opened StringTokens
  import opened CommentLexer
  import opened CommentLaws
  import Text

  datatype Place = InGap | InCode | InString | InBlock | InLine

  function Fill(p: Place, n: nat): (ps: seq<Place>)
    ensures |ps| == n && forall k :: 0 <= k < n ==> ps[k] == p
  {
    if n == 0 then [] else [p] + Fill(p, n - 1)
  }

  // ── Comments and strings, read whole ───────────────────────────────────────

  /** Past the end tokens of `depth` comments that do not nest, or the comments that the line leaves open. */
  function EndsAfter(line: string, i: nat, depth: nat, token: string): (r: (nat, nat))
    requires i <= |line| && token != []
    ensures i <= r.0 <= |line|
    ensures depth > 0 && r.1 == 0 ==> i < r.0
    ensures r.1 > 0 ==> r.0 == |line|
    decreases depth
  {
    if depth == 0 then (i, 0)
    else
      match StringEnd(line, token, i, false)
      case None => (|line|, depth)
      case Some(e) => EndsAfter(line, e + |token|, depth - 1, token)
  }

  /** Where the block comments that are open end, and how many the line leaves open. */
  function CommentsEnd(line: string, i: nat, depth: nat, syntax: Syntax): (r: (nat, nat))
    requires WellFormed(syntax) && i <= |line|
    ensures i <= r.0 <= |line|
    ensures depth > 0 && r.1 == 0 ==> i < r.0
    ensures r.1 > 0 ==> r.0 == |line|
  {
    if depth == 0 then (i, 0)
    else
      match syntax.block
      case None => (|line|, depth)
      case Some(block) =>
        if syntax.nested then LevelsAfter(line, i, depth, block) else EndsAfter(line, i, depth, block.end)
  }

  /** Where a string ends whose text begins at `from`: just after its closing token, or the line's end, still open. */
  function StringReach(line: string, from: nat, closer: Closer): (r: (nat, Option<Closer>))
    requires from <= |line| && closer.token != []
    ensures from <= r.0 <= |line| && (r.1.Some? ==> r.1 == Some(closer) && r.0 == |line|)
    ensures r.1.None? ==> from < r.0
  {
    match StringEnd(line, closer.token, from, closer.escapes)
    case None => (|line|, Some(closer))
    case Some(e) => (e + |closer.token|, None)
  }

  /** The string that opens at a place of code, if one does: where it ends, and whether it stays open. */
  function StringAt(line: string, i: nat, syntax: Syntax, chars: Chars): (r: Option<(nat, Option<Closer>)>)
    requires i < |line|
    ensures r.Some? ==> i < r.value.0 <= |line|
    ensures r.Some? && r.value.1.Some? ==> r.value.0 == |line| && r.value.1.value.token != []
  {
    var start := MultilineStart(line, i, syntax.kind, chars);
    if start.Some? then Some(StringReach(line, start.value.content, start.value.closer))
    else if line[i] in syntax.quotes then Some((AfterQuoted(line, line[i], i + 1), None))
    else None
  }

  /** Characters from one place to another that lie in the same thing, and what is open after them. */
  datatype Region = Region(place: Place, to: nat, depth: nat, open: Option<Closer>)

  /** The region that begins at `i`, where `depth` block comments or a string may be open. */
  function RegionAt(line: string, i: nat, depth: nat, open: Option<Closer>, syntax: Syntax, chars: Chars): (r: Region)
    requires WellFormed(syntax) && i < |line| && Closable(open)
    ensures i < r.to <= |line| && Closable(r.open)
  {
    if open.Some? then
      var (at, still) := StringReach(line, i, open.value);
      Region(InString, at, depth, still)
    else if depth > 0 then
      var (at, left) := CommentsEnd(line, i, depth, syntax);
      Region(InBlock, at, left, None)
    else if chars.space(line[i]) then Region(InGap, i + 1, 0, None)
    else if StartsAny(line, syntax.lineTokens, i) then Region(InLine, |line|, 0, None)
    else if syntax.block.Some? && StartsWith(line, syntax.block.value.start, i) then
      Region(InBlock, i + |syntax.block.value.start|, 1, None)
    else
      match StringAt(line, i, syntax, chars)
      case Some((at, still)) => Region(InString, at, 0, still)
      case None => Region(InCode, i + 1, 0, None)
  }

  /** The places of the characters from `i` on, and what the line hands to the next. */
  function Places(line: string, i: nat, depth: nat, open: Option<Closer>, syntax: Syntax, chars: Chars)
    : (r: (seq<Place>, Carry))
    requires WellFormed(syntax) && i <= |line| && Closable(open)
    ensures |r.0| == |line| - i
    decreases |line| - i
  {
    if i == |line| then ([], Carry(depth, open))
    else
      var r := RegionAt(line, i, depth, open, syntax, chars);
      var rest := Places(line, r.to, r.depth, r.open, syntax, chars);
      (Fill(r.place, r.to - i) + rest.0, rest.1)
  }

  /** Some character lies in code or in a string. */
  predicate HoldsCode(ps: seq<Place>) {
    exists k :: 0 <= k < |ps| && (ps[k] == InCode || ps[k] == InString)
  }

  /** Some character lies in a comment. */
  predicate HoldsComment(ps: seq<Place>) {
    exists k :: 0 <= k < |ps| && (ps[k] == InBlock || ps[k] == InLine)
  }

  // ── The scanner reads the same places ──────────────────────────────────────

  lemma HoldsConcat(a: seq<Place>, b: seq<Place>)
    ensures HoldsCode(a + b) <==> HoldsCode(a) || HoldsCode(b)
    ensures HoldsComment(a + b) <==> HoldsComment(a) || HoldsComment(b)
  {
    var c := a + b;
    assert forall k :: 0 <= k < |a| ==> c[k] == a[k];
    assert forall k :: 0 <= k < |b| ==> c[|a| + k] == b[k];
    assert forall k :: |a| <= k < |c| ==> c[k] == b[k - |a|];
  }

  lemma HoldsFill(p: Place, n: nat)
    requires n > 0
    ensures HoldsCode(Fill(p, n)) <==> p == InCode || p == InString
    ensures HoldsComment(Fill(p, n)) <==> p == InBlock || p == InLine
  {
    assert Fill(p, n)[0] == p;
  }

  /** The scan ends where the reading does, and has seen what the places hold. */
  ghost predicate Agrees(s: Scan, end: Scan, r: (seq<Place>, Carry)) {
    && Carry(end.depth, end.open) == r.1
    && (end.code <==> s.code || HoldsCode(r.0))
    && (end.comment <==> s.comment || HoldsComment(r.0))
  }

  /** A region of one kind, and then what follows it. */
  lemma RegionAgrees(s: Scan, t: Scan, end: Scan, p: Place, n: nat, rest: (seq<Place>, Carry))
    requires n > 0 && Agrees(t, end, rest)
    requires t.code <==> s.code || p == InCode || p == InString
    requires t.comment <==> s.comment || p == InBlock || p == InLine
    ensures Agrees(s, end, (Fill(p, n) + rest.0, rest.1))
  {
    HoldsFill(p, n);
    HoldsConcat(Fill(p, n), rest.0);
  }

  /** One comment that does not nest: the scan is past it, or at the line's end. */
  lemma ScanOneComment(line: string, s: Scan, syntax: Syntax, chars: Chars)
    requires WellFormed(syntax) && !syntax.nested && syntax.block.Some? && s.index < |line| && s.open.None?
               && s.depth > 0
    ensures var token := syntax.block.value.end;
            match StringEnd(line, token, s.index, false)
            case None => ScanLine(line, s, syntax, chars) == s.(index := |line|, comment := true)
            case Some(e) =>
              && e + |token| <= |line|
              && ScanLine(line, s, syntax, chars)
                 == ScanLine(line, s.(index := e + |token|, depth := s.depth - 1, comment := true), syntax, chars)
  {
    CommentEndsFirst(line, s, syntax, chars);
  }

  lemma NoEndPastLine(line: string, token: string)
    requires token != []
    ensures StringEnd(line, token, |line|, false) == None
  {
  }

  lemma ScanAtEnd(line: string, s: Scan, syntax: Syntax, chars: Chars)
    requires WellFormed(syntax) && s.index == |line| && Closable(s.open)
    ensures ScanLine(line, s, syntax, chars) == s
  {
  }

  /** From here a scan leaves one comment, or runs to the end of the line in it. */
  ghost predicate LeavesOne(line: string, token: string, scan: Scan -> Scan, s: Scan)
    requires token != [] && s.index <= |line|
  {
    && (s.index == |line| ==> scan(s) == s)
    && (s.index < |line| && s.depth > 0 ==>
          match StringEnd(line, token, s.index, false)
          case None => scan(s) == s.(index := |line|)
          case Some(e) => scan(s) == scan(s.(index := e + |token|, depth := s.depth - 1)))
  }

  ghost predicate LeavesComments(line: string, token: string, scan: Scan -> Scan)
    requires token != []
  {
    forall s: Scan {:trigger LeavesOne(line, token, scan, s)} ::
      s.index <= |line| && s.open.None? && s.comment ==> LeavesOne(line, token, scan, s)
  }

  lemma LeavesTo(line: string, token: string, scan: Scan -> Scan, s: Scan, e: Option<nat>) returns (t: Scan)
    requires token != [] && LeavesComments(line, token, scan) && s.index < |line| && s.open.None? && s.comment
               && s.depth > 0
    requires e == StringEnd(line, token, s.index, false)
    ensures e.Some? ==> t == s.(index := e.value + |token|, depth := s.depth - 1) && t.index <= |line|
    ensures e.None? ==> t == s.(index := |line|)
    ensures scan(s) == scan(t)
  {
    assert LeavesOne(line, token, scan, s);
    t := if e.Some? then s.(index := e.value + |token|, depth := s.depth - 1) else s.(index := |line|);
    if e.None? {
      assert LeavesOne(line, token, scan, t);
    }
  }

  lemma {:induction false} LeavesAll(line: string, token: string, scan: Scan -> Scan, s: Scan)
    requires token != [] && LeavesComments(line, token, scan) && s.index <= |line| && s.open.None? && s.comment
    ensures var (at, left) := EndsAfter(line, s.index, s.depth, token); scan(s) == scan(s.(index := at, depth := left))
    decreases s.depth
  {
    if s.depth > 0 {
      var end := StringEnd(line, token, s.index, false);
      if s.index == |line| {
        NoEndPastLine(line, token);
      } else {
        var t := LeavesTo(line, token, scan, s, end);
        if end.Some? {
          LeavesAll(line, token, scan, t);
        }
      }
    }
  }

  lemma ScannerLeavesOne(line: string, syntax: Syntax, chars: Chars, s: Scan)
    requires WellFormed(syntax) && !syntax.nested && syntax.block.Some?
    requires s.index <= |line| && s.open.None? && s.comment
    ensures LeavesOne(line, syntax.block.value.end, Scanner(line, syntax, chars), s)
  {
    if s.index == |line| {
      ScanAtEnd(line, s, syntax, chars);
    } else if s.depth > 0 {
      ScanOneComment(line, s, syntax, chars);
    }
  }

  lemma ScannerLeaves(line: string, syntax: Syntax, chars: Chars, token: string, scan: Scan -> Scan)
    requires WellFormed(syntax) && !syntax.nested && syntax.block.Some?
    requires token == syntax.block.value.end && scan == Scanner(line, syntax, chars)
    ensures LeavesComments(line, token, scan)
  {
    forall s: Scan | s.index <= |line| && s.open.None? && s.comment ensures LeavesOne(line, token, scan, s) {
      ScannerLeavesOne(line, syntax, chars, s);
    }
  }

  lemma ScanEndsAfter(line: string, s: Scan, syntax: Syntax, chars: Chars, token: string)
    requires WellFormed(syntax) && !syntax.nested && syntax.block.Some? && token == syntax.block.value.end
    requires s.index <= |line| && s.open.None? && s.comment
    ensures var (at, left) := EndsAfter(line, s.index, s.depth, token);
            ScanLine(line, s, syntax, chars) == ScanLine(line, s.(index := at, depth := left), syntax, chars)
  {
    ScannerLeaves(line, syntax, chars, token, Scanner(line, syntax, chars));
    LeavesAll(line, token, Scanner(line, syntax, chars), s);
  }

  /** Where the syntax has no block comments the scan stays in one to the end of the line. */
  lemma {:induction false} ScanStays(line: string, s: Scan, syntax: Syntax, chars: Chars)
    requires WellFormed(syntax) && syntax.block.None? && s.index <= |line| && s.open.None? && s.depth > 0
    requires s.index < |line| || s.comment
    ensures ScanLine(line, s, syntax, chars) == s.(index := |line|, comment := true)
    decreases |line| - s.index
  {
    if s.index < |line| {
      ScanStays(line, BlockStep(line, s, syntax), syntax, chars);
    }
  }

  /** In a comment it makes no difference whether one was seen before. */
  lemma CommentIsSeen(line: string, s: Scan, syntax: Syntax, chars: Chars)
    requires WellFormed(syntax) && s.index < |line| && s.open.None? && s.depth > 0
    ensures ScanLine(line, s, syntax, chars) == ScanLine(line, s.(comment := true), syntax, chars)
  {
    assert BlockStep(line, s, syntax) == BlockStep(line, s.(comment := true), syntax);
  }

  lemma ScanComments(line: string, s: Scan, syntax: Syntax, chars: Chars)
    requires WellFormed(syntax) && s.index < |line| && s.open.None? && s.depth > 0
    ensures var (at, left) := CommentsEnd(line, s.index, s.depth, syntax);
            ScanLine(line, s, syntax, chars)
              == ScanLine(line, s.(index := at, depth := left, comment := true), syntax, chars)
  {
    if syntax.block.None? {
      ScanStays(line, s, syntax, chars);
      ScanAtEnd(line, s.(index := |line|, comment := true), syntax, chars);
    } else if syntax.nested {
      LineInsideComments(line, s, syntax, chars);
    } else {
      CommentIsSeen(line, s, syntax, chars);
      ScanEndsAfter(line, s.(comment := true), syntax, chars, syntax.block.value.end);
    }
  }

  lemma ScanSteps(line: string, s: Scan, syntax: Syntax, chars: Chars)
    requires WellFormed(syntax) && s.index < |line| && Closable(s.open)
    ensures ScanLine(line, s, syntax, chars) == ScanLine(line, Step(line, s, syntax, chars), syntax, chars)
  {
  }

  /** The scanner just past a region, having seen what it is. */
  function Past(s: Scan, r: Region): Scan {
    Scan(r.to, r.depth, r.open, s.code || r.place == InCode || r.place == InString,
         s.comment || r.place == InBlock || r.place == InLine)
  }

  lemma StringStepPasses(line: string, s: Scan, syntax: Syntax, chars: Chars)
    requires WellFormed(syntax) && s.index < |line| && s.open.Some? && Closable(s.open)
    ensures Step(line, s, syntax, chars) == Past(s, RegionAt(line, s.index, s.depth, s.open, syntax, chars))
  {
  }

  lemma CodeStepPasses(line: string, s: Scan, syntax: Syntax, chars: Chars)
    requires WellFormed(syntax) && s.index < |line| && s.open.None? && s.depth == 0
    ensures Step(line, s, syntax, chars) == Past(s, RegionAt(line, s.index, 0, None, syntax, chars))
  {
  }

  /** The scan of a line goes from region to region. */
  lemma ScanPasses(line: string, s: Scan, syntax: Syntax, chars: Chars, r: Region)
    requires WellFormed(syntax) && s.index < |line| && Closable(s.open)
    requires r == RegionAt(line, s.index, s.depth, s.open, syntax, chars)
    ensures ScanLine(line, s, syntax, chars) == ScanLine(line, Past(s, r), syntax, chars)
  {
    if s.open.Some? {
      StringStepPasses(line, s, syntax, chars);
      ScanSteps(line, s, syntax, chars);
    } else if s.depth > 0 {
      ScanComments(line, s, syntax, chars);
    } else {
      CodeStepPasses(line, s, syntax, chars);
      ScanSteps(line, s, syntax, chars);
    }
  }

  lemma PlacesFrom(line: string, i: nat, depth: nat, open: Option<Closer>, syntax: Syntax, chars: Chars, r: Region)
    requires WellFormed(syntax) && i < |line| && Closable(open) && r == RegionAt(line, i, depth, open, syntax, chars)
    ensures var rest := Places(line, r.to, r.depth, r.open, syntax, chars);
            Places(line, i, depth, open, syntax, chars) == (Fill(r.place, r.to - i) + rest.0, rest.1)
  {
  }

  /** The scan of a line agrees with reading it by place. */
  lemma {:induction false} ScanReads(line: string, s: Scan, syntax: Syntax, chars: Chars)
    requires WellFormed(syntax) && s.index <= |line| && Closable(s.open)
    ensures Agrees(s, ScanLine(line, s, syntax, chars), Places(line, s.index, s.depth, s.open, syntax, chars))
    decreases |line| - s.index
  {
    if s.index < |line| {
      var r := RegionAt(line, s.index, s.depth, s.open, syntax, chars);
      ScanPasses(line, s, syntax, chars, r);
      PlacesFrom(line, s.index, s.depth, s.open, syntax, chars, r);
      ScanReads(line, Past(s, r), syntax, chars);
      RegionAgrees(s, Past(s, r), ScanLine(line, Past(s, r), syntax, chars), r.place, r.to - s.index,
                   Places(line, r.to, r.depth, r.open, syntax, chars));
    }
  }

  // ── The category of a line ─────────────────────────────────────────────────

  /** A gap is white space, and no character of code is. */
  predicate PlaceFits(p: Place, c: char, chars: Chars) {
    (p == InGap ==> chars.space(c)) && (p == InCode ==> !chars.space(c))
  }

  ghost predicate AllFit(ps: seq<Place>, line: string, i: nat, chars: Chars) {
    i + |ps| == |line| && forall k :: 0 <= k < |ps| ==> PlaceFits(ps[k], line[i + k], chars)
  }

  lemma RegionFits(line: string, i: nat, p: Place, to: nat, rest: seq<Place>, chars: Chars)
    requires i < to <= |line| && AllFit(rest, line, to, chars)
    requires (p == InGap || p == InCode) ==> to == i + 1 && PlaceFits(p, line[i], chars)
    ensures AllFit(Fill(p, to - i) + rest, line, i, chars)
  {
    var ps := Fill(p, to - i) + rest;
    forall k | 0 <= k < |ps| ensures PlaceFits(ps[k], line[i + k], chars) {
      if k >= to - i {
        assert ps[k] == rest[k - (to - i)] && line[i + k] == line[to + (k - (to - i))];
      }
    }
  }

  lemma RegionMeans(line: string, i: nat, depth: nat, open: Option<Closer>, syntax: Syntax, chars: Chars, r: Region)
    requires WellFormed(syntax) && i < |line| && Closable(open) && r == RegionAt(line, i, depth, open, syntax, chars)
    ensures r.place == InGap || r.place == InCode ==> r.to == i + 1 && PlaceFits(r.place, line[i], chars)
  {
  }

  lemma {:induction false} PlacesFit(line: string, i: nat, depth: nat, open: Option<Closer>, syntax: Syntax,
                                     chars: Chars)
    requires WellFormed(syntax) && i <= |line| && Closable(open)
    ensures AllFit(Places(line, i, depth, open, syntax, chars).0, line, i, chars)
    decreases |line| - i
  {
    if i < |line| {
      var r := RegionAt(line, i, depth, open, syntax, chars);
      PlacesFrom(line, i, depth, open, syntax, chars, r);
      PlacesFit(line, r.to, r.depth, r.open, syntax, chars);
      RegionMeans(line, i, depth, open, syntax, chars, r);
      RegionFits(line, i, r.place, r.to, Places(line, r.to, r.depth, r.open, syntax, chars).0, chars);
    }
  }

  /** A line that is not white space and holds no code holds a comment. */
  lemma SomePlace(line: string, ps: seq<Place>, chars: Chars)
    requires AllFit(ps, line, 0, chars) && !AllSpace(line, chars.space)
    ensures HoldsCode(ps) || HoldsComment(ps)
  {
    var i: nat :| i < |line| && !chars.space(line[i]);
    assert PlaceFits(ps[i], line[0 + i], chars);
  }

  /** A line that counts as code as it stands: a `#!` that opens the file, or a directive, outside comments. */
  ghost predicate Directive(line: string, first: bool, carry: Carry, syntax: Syntax, chars: Chars) {
    var text := Text.Strip(line, chars.space);
    && carry.depth == 0
    && ((first && |text| >= 2 && text[0] == '#' && text[1] == '!')
        || exists p :: p in syntax.codePrefixes && (text == p || p + " " <= text))
  }

  lemma PlainlyCodeMeans(line: string, first: bool, carry: Carry, syntax: Syntax, chars: Chars)
    ensures PlainlyCode(Text.Strip(line, chars.space), first, carry, syntax) <==>
              Directive(line, first, carry, syntax, chars)
  {
    var text := Text.Strip(line, chars.space);
    assert StartsWith(text, "#!", 0) <==> |text| >= 2 && text[0] == '#' && text[1] == '!' by {
      if |text| >= 2 {
        assert text[0..2] == [text[0], text[1]];
      }
    }
    forall p ensures StartsWith(text, p + " ", 0) <==> p + " " <= text {
    }
  }

  /**
   * The category of a line by what its characters lie in: blank if it is white space only; else code if
   * it is a directive or some character lies in code or in a string; else a comment, and some character
   * lies in one.  What it hands on is what is open after its last character.
   */
  lemma CategoryByPlace(line: string, first: bool, carry: Carry, syntax: Syntax, chars: Chars)
    requires WellFormed(syntax) && Closable(carry.open)
    ensures var (category, next) := ClassifyLine(line, first, carry, syntax, chars);
            var (ps, after) := Places(line, 0, carry.depth, carry.open, syntax, chars);
            var (blank, directive) := (AllSpace(line, chars.space), Directive(line, first, carry, syntax, chars));
            && (category == Blank <==> blank)
            && (category == Code <==> !blank && (directive || HoldsCode(ps)))
            && (category == Comment <==> !blank && !directive && !HoldsCode(ps))
            && (category == Comment ==> HoldsComment(ps))
            && next == if blank || directive then carry else after
  {
    StripEmpty(line, chars.space);
    PlainlyCodeMeans(line, first, carry, syntax, chars);
    ScanReads(line, Begin(carry), syntax, chars);
    if !AllSpace(line, chars.space) {
      PlacesFit(line, 0, carry.depth, carry.open, syntax, chars);
      SomePlace(line, Places(line, 0, carry.depth, carry.open, syntax, chars).0, chars);
    }
  }

  // ── What follows ───────────────────────────────────────────────────────────

  /** The first character that is not white space stands at `k`. */
  predicate BeginsAt(line: string, k: nat, chars: Chars) {
    k < |line| && !chars.space(line[k]) && forall i :: 0 <= i < k ==> chars.space(line[i])
  }

  /** Whether code is held from a place on, outside comments and strings. */
  function HeldFrom(line: string, syntax: Syntax, chars: Chars): nat -> bool
    requires WellFormed(syntax)
  {
    (i: nat) => i <= |line| && HoldsCode(Places(line, i, 0, None, syntax, chars).0)
  }

  /** White space at a place makes no difference. */
  ghost predicate GapSame(line: string, chars: Chars, held: nat -> bool, i: nat) {
    i < |line| && chars.space(line[i]) ==> held(i) == held(i + 1)
  }

  lemma GapHoldsNothing(line: string, i: nat, syntax: Syntax, chars: Chars)
    requires WellFormed(syntax)
    ensures GapSame(line, chars, HeldFrom(line, syntax, chars), i)
  {
    if i < |line| && chars.space(line[i]) {
      PlacesFrom(line, i, 0, None, syntax, chars, Region(InGap, i + 1, 0, None));
      HoldsFill(InGap, 1);
      HoldsConcat(Fill(InGap, 1), Places(line, i + 1, 0, None, syntax, chars).0);
    }
  }

  lemma {:induction false} GapsFirst(line: string, i: nat, k: nat, chars: Chars, held: nat -> bool)
    requires i <= k && BeginsAt(line, k, chars)
    requires forall j: nat {:trigger GapSame(line, chars, held, j)} :: GapSame(line, chars, held, j)
    ensures held(i) == held(k)
    decreases k - i
  {
    if i < k {
      assert GapSame(line, chars, held, i);
      GapsFirst(line, i + 1, k, chars, held);
    }
  }

  /** The region at the start of what is read decides whether code is held from there. */
  lemma FirstRegionHolds(line: string, k: nat, syntax: Syntax, chars: Chars, r: Region)
    requires WellFormed(syntax) && k < |line| && r == RegionAt(line, k, 0, None, syntax, chars)
    ensures r.place == InCode || r.place == InString ==> HoldsCode(Places(line, k, 0, None, syntax, chars).0)
    ensures r.place == InLine ==> !HoldsCode(Places(line, k, 0, None, syntax, chars).0)
  {
    PlacesFrom(line, k, 0, None, syntax, chars, r);
    var rest := Places(line, r.to, r.depth, r.open, syntax, chars).0;
    HoldsFill(r.place, r.to - k);
    HoldsConcat(Fill(r.place, r.to - k), rest);
  }

  /**
   * Outside comments and strings, and unless it is a directive: a line that begins with a line comment's
   * token is a comment, and one that begins with anything but a comment's token is code, whatever follows.
   */
  lemma BeginningDecides(line: string, first: bool, k: nat, syntax: Syntax, chars: Chars)
    requires WellFormed(syntax) && BeginsAt(line, k, chars) && !Directive(line, first, Carry(0, None), syntax, chars)
    ensures var category := ClassifyLine(line, first, Carry(0, None), syntax, chars).0;
            if StartsAny(line, syntax.lineTokens, k) then category == Comment
            else if syntax.block.Some? && StartsWith(line, syntax.block.value.start, k) then category != Blank
            else category == Code
  {
    CategoryByPlace(line, first, Carry(0, None), syntax, chars);
    var held := HeldFrom(line, syntax, chars);
    forall j: nat ensures GapSame(line, chars, held, j) {
      GapHoldsNothing(line, j, syntax, chars);
    }
    GapsFirst(line, 0, k, chars, held);
    assert held(0) <==> HoldsCode(Places(line, 0, 0, None, syntax, chars).0);
    assert held(k) <==> HoldsCode(Places(line, k, 0, None, syntax, chars).0);
    FirstRegionHolds(line, k, syntax, chars, RegionAt(line, k, 0, None, syntax, chars));
  }

  /** A line that a block comment runs through to its end is a comment, and leaves the comment open. */
  lemma InsideIsComment(line: string, first: bool, depth: nat, syntax: Syntax, chars: Chars)
    requires WellFormed(syntax) && depth > 0 && !AllSpace(line, chars.space)
    requires CommentsEnd(line, 0, depth, syntax).1 > 0
    ensures ClassifyLine(line, first, Carry(depth, None), syntax, chars)
         == (Comment, Carry(CommentsEnd(line, 0, depth, syntax).1, None))
  {
    CategoryByPlace(line, first, Carry(depth, None), syntax, chars);
    if line != [] {
      var r := RegionAt(line, 0, depth, None, syntax, chars);
      PlacesFrom(line, 0, depth, None, syntax, chars, r);
      HoldsFill(InBlock, |line|);
      assert Fill(InBlock, |line|) + [] == Fill(InBlock, |line|);
    }
  }

  /** Code before a line comment makes the line code. */
  lemma CodeBeforeComment(line: string, first: bool, carry: Carry, k: nat, syntax: Syntax, chars: Chars)
    requires WellFormed(syntax) && Closable(carry.open) && k < |line| && !chars.space(line[k])
    requires Places(line, 0, carry.depth, carry.open, syntax, chars).0[k] in [InCode, InString]
    ensures ClassifyLine(line, first, carry, syntax, chars).0 == Code
  {
    CategoryByPlace(line, first, carry, syntax, chars);
  }

  // ── The ten syntaxes ───────────────────────────────────────────────────────

  /** A line that begins with `//`, `#`, `;` or `!` is a comment in exactly these syntaxes, and code in the others. */
  lemma MarkersByKind(line: string, k: nat, kind: Kind, chars: Chars)
    requires BeginsAt(line, k, chars) && !Directive(line, false, Carry(0, None), SyntaxOf(kind), chars)
    ensures var category := ClassifyLine(line, false, Carry(0, None), SyntaxOf(kind), chars).0;
            && (StartsWith(line, "//", k) ==> category == if kind in {CLike, Rust} then Comment else Code)
            && (line[k] == '#' ==> category == if kind in {Hash, Ini, Properties, Nsis, JarMn} then Comment else Code)
            && (line[k] == ';' ==> category == if kind in {Ini, Nsis} then Comment else Code)
            && (line[k] == '!' ==> category == if kind == Properties then Comment else Code)
            && (kind == Plain ==> category == Code)
  {
    var syntax := SyntaxOf(kind);
    AllWellFormed(kind);
    BeginningDecides(line, false, k, syntax, chars);
    TokensAt(line, k);
    assert forall t :: t in syntax.lineTokens ==> t in ["//", "#", ";", "!"];
    if syntax.block.Some? {
      assert syntax.block.value.start in ["/*", "<!--"];
    }
  }

  lemma TokensAt(line: string, k: nat)
    requires k < |line|
    ensures StartsWith(line, "#", k) <==> line[k] == '#'
    ensures StartsWith(line, ";", k) <==> line[k] == ';'
    ensures StartsWith(line, "!", k) <==> line[k] == '!'
    ensures StartsWith(line, "//", k) ==> line[k] == '/' && line[k + 1] == '/'
    ensures StartsWith(line, "/*", k) ==> line[k] == '/' && line[k + 1] == '*'
    ensures StartsWith(line, "<!--", k) ==> line[k] == '<'
  {
    assert line[k..k + 1] == [line[k]];
    if k + 2 <= |line| {
      assert line[k..k + 2] == [line[k], line[k + 1]];
    }
    if StartsWith(line, "<!--", k) {
      assert line[k..k + 4][0] == line[k];
    }
  }

  /** Where a block comment may begin, and with what, in the syntaxes that have one. */
  lemma BlocksByKind(kind: Kind)
    ensures SyntaxOf(kind).block
         == if kind in {CLike, Rust, Css, Nsis} then Some(Block("/*", "*/"))
            else if kind == Markup then Some(Block("<!--", "-->"))
            else None
    ensures SyntaxOf(kind).nested <==> kind == Rust
  {
  }

  /**
   * A multi-line string begins at a place exactly when the syntax has the spelling found there: a C++ or
   * Rust raw string at a word's beginning, three quotes in the hash syntax, a backquote in two.
   */
  lemma MultilineExactly(line: string, i: nat, kind: Kind, chars: Chars, start: StringStart)
    requires i < |line|
    ensures MultilineStart(line, i, kind, chars) == Some(start) <==> Opens(line, i, kind, chars, start)
  {
    var (cxx, rust) := (CxxRaw(line, i), RustRaw(line, i));
    if cxx.Some? {
      CxxRawExactly(line, i, cxx.value);
    }
    if rust.Some? {
      RustRawExactly(line, i, rust.value);
    }
    forall raw ensures MatchesCxx(line, i, raw) <==> cxx == Some(raw) {
      CxxRawExactly(line, i, raw);
    }
    forall raw ensures MatchesRust(line, i, raw) <==> rust == Some(raw) {
      RustRawExactly(line, i, raw);
    }
    QuotesDiffer(line, i);
  }

  /** At the beginning of a word. */
  predicate WordBegins(line: string, i: nat, chars: Chars)
    requires i < |line|
  {
    i > 0 ==> !chars.alnum(line[i - 1]) && line[i - 1] != '_'
  }

  ghost predicate Opens(line: string, i: nat, kind: Kind, chars: Chars, start: StringStart)
    requires i < |line|
  {
    || (kind == CLike && WordBegins(line, i, chars) && !start.closer.escapes
        && exists mark :: MatchesCxx(line, i, RawStart(start.content, mark)) && start.closer.token == ")" + mark + "\"")
    || (kind == Rust && WordBegins(line, i, chars) && !start.closer.escapes
        && exists mark :: MatchesRust(line, i, RawStart(start.content, mark)) && start.closer.token == "\"" + mark)
    || (kind == Hash && StartsWith(line, "\"\"\"", i) && start == StringStart(i + 3, Closer("\"\"\"", true)))
    || (kind == Hash && StartsWith(line, "'''", i) && start == StringStart(i + 3, Closer("'''", true)))
    || (kind in {CLike, Hash} && line[i] == '`' && start == StringStart(i + 1, Closer("`", true)))
  }

  /** What stands at a place is one of the spellings at most. */
  lemma QuotesDiffer(line: string, i: nat)
    requires i < |line|
    ensures StartsWith(line, "`", i) <==> line[i] == '`'
    ensures StartsWith(line, "\"\"\"", i) ==> line[i] == '"'
    ensures StartsWith(line, "'''", i) ==> line[i] == '\''
    ensures forall raw :: MatchesCxx(line, i, raw) ==> line[i] in ['u', 'U', 'L', 'R']
  {
    assert line[i..i + 1] == [line[i]];
    if i + 3 <= |line| {
      assert line[i..i + 3][0] == line[i];
    }
    forall raw | MatchesCxx(line, i, raw) ensures line[i] in ['u', 'U', 'L', 'R'] {
      var prefix :| prefix in CXX_PREFIXES && CxxSpelled(line, i, raw, prefix);
      SpelledParts(line, i, raw.after, prefix, raw.mark, '(');
    }
  }
}
