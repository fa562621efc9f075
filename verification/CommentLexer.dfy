/** Code, comment and blank lines of a source file (scripts/patch-stats.py, `classify_blob`). */
module CommentLexer {
  import opened Wrappers
  import opened StringTokens
  import opened Text

  datatype Kind = CLike | Rust | Css | Markup | Hash | Ini | Properties | Nsis | JarMn | Plain

  datatype Block = Block(start: string, end: string)

  datatype Syntax = Syntax(
    kind: Kind,
    lineTokens: seq<string>,
    block: Option<Block>,
    quotes: seq<char>,
    nested: bool,
    codePrefixes: seq<string>)

  const SLASH_STAR := Some(Block("/*", "*/"))
  const QUOTES: seq<char> := ['"', '\'']
  const JAR_PREFIXES: seq<string> := [
    "#filter", "#include", "#if", "#ifdef", "#ifndef", "#else", "#elif", "#endif", "#define", "#undef", "#expand",
      "#literal"]

  /** The source's ten comment syntaxes. */
  function SyntaxOf(kind: Kind): Syntax {
    match kind
    case CLike => Syntax(kind, ["//"], SLASH_STAR, QUOTES, false, [])
    case Rust => Syntax(kind, ["//"], SLASH_STAR, QUOTES, true, [])
    case Css => Syntax(kind, [], SLASH_STAR, QUOTES, false, [])
    case Markup => Syntax(kind, [], Some(Block("<!--", "-->")), QUOTES, false, [])
    case Hash => Syntax(kind, ["#"], None, QUOTES + ['`'], false, [])
    case Ini => Syntax(kind, ["#", ";"], None, QUOTES, false, [])
    case Properties => Syntax(kind, ["#", "!"], None, QUOTES, false, [])
    case Nsis => Syntax(kind, ["#", ";"], SLASH_STAR, QUOTES, false, [])
    case JarMn => Syntax(kind, ["#"], None, QUOTES, false, JAR_PREFIXES)
    case Plain => Syntax(kind, [], None, QUOTES, false, [])
  }

  /** What the scanner needs of a syntax; each of the ten has it. */
  predicate WellFormed(syntax: Syntax) {
    && (syntax.block.Some? ==> syntax.block.value.start != [] && syntax.block.value.end != [])
    && '\\' !in syntax.quotes
  }

  lemma AllWellFormed(kind: Kind)
    ensures WellFormed(SyntaxOf(kind)) && SyntaxOf(kind).kind == kind && (SyntaxOf(kind).nested <==> kind == Rust)
  {
  }

  /** `str.isspace` and `str.isalnum` on one character. */
  datatype Chars = Chars(space: char -> bool, alnum: char -> bool)

  datatype Category = Code | Comment | Blank

  /** What ends an open multi-line string, and whether a backslash escapes it. */
  datatype Closer = Closer(token: string, escapes: bool)

  /** What one line hands to the next. */
  datatype Carry = Carry(depth: nat, open: Option<Closer>)

  /** The scanner inside a line. */
  datatype Scan = Scan(index: nat, depth: nat, open: Option<Closer>, code: bool, comment: bool)

  // ── One step ───────────────────────────────────────────────────────────────

  datatype StringStart = StringStart(content: nat, closer: Closer)

  predicate AtBoundary(line: string, index: nat, chars: Chars)
    requires index < |line|
  {
    index == 0 || !(chars.alnum(line[index - 1]) || line[index - 1] == '_')
  }

  /** `multiline_string_start`. */
  function MultilineStart(line: string, index: nat, kind: Kind, chars: Chars): (r: Option<StringStart>)
    requires index < |line|
    ensures r.Some? ==> index < r.value.content <= |line| && r.value.closer.token != []
    ensures r.Some? ==> kind in {CLike, Rust, Hash}
  {
    var boundary := AtBoundary(line, index, chars);
    var cxx := CxxRaw(line, index);
    var rust := RustRaw(line, index);
    if kind == CLike && boundary && cxx.Some?
      then Some(StringStart(cxx.value.after, Closer(")" + cxx.value.mark + "\"", false)))
    else if kind == Rust && boundary && rust.Some?
      then Some(StringStart(rust.value.after, Closer("\"" + rust.value.mark, false)))
    else if kind == Hash && StartsWith(line, "\"\"\"", index) then Some(StringStart(index + 3, Closer("\"\"\"", true)))
    else if kind == Hash && StartsWith(line, "'''", index) then Some(StringStart(index + 3, Closer("'''", true)))
    else if kind in {CLike, Hash} && StartsWith(line, "`", index) then Some(StringStart(index + 1, Closer("`", true)))
    else None
  }

  predicate StartsAny(line: string, tokens: seq<string>, index: nat) {
    exists t :: t in tokens && StartsWith(line, t, index)
  }

  /** Inside a multi-line string: to just after its end, or to the end of the line. */
  function StringStep(line: string, s: Scan): (r: Scan)
    requires s.index < |line| && s.open.Some? && s.open.value.token != []
    ensures s.index < r.index <= |line|
  {
    var end := StringEnd(line, s.open.value.token, s.index, s.open.value.escapes);
    if end.None? then s.(index := |line|, code := true)
    else s.(index := end.value + |s.open.value.token|, code := true, open := None)
  }

  /** Inside a block comment. */
  function BlockStep(line: string, s: Scan, syntax: Syntax): (r: Scan)
    requires WellFormed(syntax) && s.index < |line| && s.depth > 0
    ensures s.index < r.index <= |line|
  {
    var t := s.(comment := true);
    match syntax.block
    case None => t.(index := s.index + 1)
    case Some(Block(start, end)) =>
      if syntax.nested && StartsWith(line, start, s.index) then t.(depth := s.depth + 1, index := s.index + |start|)
      else if StartsWith(line, end, s.index) then t.(depth := s.depth - 1, index := s.index + |end|)
      else t.(index := s.index + 1)
  }

  /** In code that opens a string: past it when it ends on this line, or leaving it open. */
  function OpenString(line: string, s: Scan, start: StringStart): (r: Scan)
    requires s.index < start.content <= |line| && start.closer.token != []
    ensures s.index < r.index <= |line|
  {
    var end := StringEnd(line, start.closer.token, start.content, start.closer.escapes);
    if end.None? then s.(index := |line|, code := true, open := Some(start.closer))
    else s.(index := end.value + |start.closer.token|, code := true)
  }

  /** Outside comments and strings. */
  function CodeStep(line: string, s: Scan, syntax: Syntax, chars: Chars): (r: Scan)
    requires WellFormed(syntax) && s.index < |line|
    ensures s.index < r.index <= |line|
  {
    if chars.space(line[s.index]) then s.(index := s.index + 1)
    else if StartsAny(line, syntax.lineTokens, s.index) then s.(index := |line|, comment := true)
    else if syntax.block.Some? && StartsWith(line, syntax.block.value.start, s.index)
    then s.(index := s.index + |syntax.block.value.start|, depth := 1, comment := true)
    else
      var start := MultilineStart(line, s.index, syntax.kind, chars);
      if start.Some? then OpenString(line, s, start.value)
      else if line[s.index] in syntax.quotes
        then s.(index := AfterQuoted(line, line[s.index], s.index + 1), code := true)
      else s.(index := s.index + 1, code := true)
  }

  predicate Closable(open: Option<Closer>) {
    open.Some? ==> open.value.token != []
  }

  /** One turn of the loop; every turn moves on. */
  function Step(line: string, s: Scan, syntax: Syntax, chars: Chars): (r: Scan)
    requires WellFormed(syntax) && s.index < |line| && Closable(s.open)
    ensures s.index < r.index <= |line| && Closable(r.open)
  {
    if s.open.Some? then StringStep(line, s)
    else if s.depth > 0 then BlockStep(line, s, syntax)
    else CodeStep(line, s, syntax, chars)
  }

  function ScanLine(line: string, s: Scan, syntax: Syntax, chars: Chars): (r: Scan)
    requires WellFormed(syntax) && s.index <= |line| && Closable(s.open)
    ensures r.index == |line| && Closable(r.open)
    decreases |line| - s.index
  {
    if s.index == |line| then s else ScanLine(line, Step(line, s, syntax, chars), syntax, chars)
  }

  // ── One line ───────────────────────────────────────────────────────────────

  predicate AllSpace(s: string, space: char -> bool) {
    forall i :: 0 <= i < |s| ==> space(s[i])
  }

  lemma {:induction false} StripLeftMeans(s: string, space: char -> bool)
    ensures var t := StripLeft(s, space); (t == [] <==> AllSpace(s, space)) && (t != [] ==> !space(t[0]))
  {
    if s != [] && space(s[0]) {
      StripLeftMeans(s[1..], space);
      assert s == [s[0]] + s[1..];
    }
  }

  lemma {:induction false} StripRightKeepsFirst(s: string, space: char -> bool)
    requires s != [] && !space(s[0])
    ensures StripRight(s, space) != []
  {
    if space(s[|s| - 1]) {
      StripRightKeepsFirst(s[..|s| - 1], space);
    }
  }

  lemma StripEmpty(s: string, space: char -> bool)
    ensures Strip(s, space) == [] <==> AllSpace(s, space)
  {
    StripLeftMeans(s, space);
    var t := StripLeft(s, space);
    if t != [] {
      StripRightKeepsFirst(t, space);
    }
  }

  predicate HasCodePrefix(stripped: string, prefixes: seq<string>) {
    exists p :: p in prefixes && (stripped == p || StartsWith(stripped, p + " ", 0))
  }

  /** A line that is code whatever it holds: a first-line `#!`, or a preprocessor directive. */
  predicate PlainlyCode(stripped: string, first: bool, carry: Carry, syntax: Syntax) {
    carry.depth == 0 && ((first && StartsWith(stripped, "#!", 0)) || HasCodePrefix(stripped, syntax.codePrefixes))
  }

  function CategoryOf(s: Scan): Category {
    if s.code then Code else if s.comment then Comment else Blank
  }

  function Begin(carry: Carry): Scan {
    Scan(0, carry.depth, carry.open, false, false)
  }

  function ClassifyLine(line: string, first: bool, carry: Carry, syntax: Syntax, chars: Chars): (r: (Category, Carry))
    requires WellFormed(syntax) && Closable(carry.open)
    ensures Closable(r.1.open)
  {
    var stripped := Strip(line, chars.space);
    if stripped == [] then (Blank, carry)
    else if PlainlyCode(stripped, first, carry, syntax) then (Code, carry)
    else
      var s := ScanLine(line, Begin(carry), syntax, chars);
      (CategoryOf(s), Carry(s.depth, s.open))
  }

  /** The categories of a run of lines, and what they hand on. */
  function Classify(lines: seq<string>, first: bool, carry: Carry, syntax: Syntax, chars: Chars)
    : (r: (seq<Category>, Carry))
    requires WellFormed(syntax) && Closable(carry.open)
    ensures |r.0| == |lines| && Closable(r.1.open)
  {
    if lines == [] then ([], carry)
    else
      var (category, next) := ClassifyLine(lines[0], first, carry, syntax, chars);
      var rest := Classify(lines[1..], false, next, syntax, chars);
      ([category] + rest.0, rest.1)
  }

  // ── The loops of the source ────────────────────────────────────────────────

  /** The scan of one line, with its state in local variables. */
  method ScanTheLine(line: string, carry: Carry, syntax: Syntax, chars: Chars) returns (category: Category, next: Carry)
    requires WellFormed(syntax) && Closable(carry.open)
    ensures var s := ScanLine(line, Begin(carry), syntax, chars);
            category == CategoryOf(s) && next == Carry(s.depth, s.open)
  {
    var index: nat, blockDepth, multilineEnd := 0, carry.depth, carry.open;
    var sawCode, sawComment := false, false;
    ghost var final := ScanLine(line, Begin(carry), syntax, chars);
    while index < |line|
      invariant index <= |line| && Closable(multilineEnd)
      invariant ScanLine(line, Scan(index, blockDepth, multilineEnd, sawCode, sawComment), syntax, chars) == final
      decreases |line| - index
    {
      index, blockDepth, multilineEnd, sawCode, sawComment :=
        Turn(line, index, blockDepth, multilineEnd, sawCode, sawComment, syntax, chars);
    }
    category := if sawCode then Code else if sawComment then Comment else Blank;
    next := Carry(blockDepth, multilineEnd);
  }

  /** The body of the loop.  At a line comment it ends the line, which is the loop's `break`. */
  method Turn(line: string, index: nat, depth: nat, open: Option<Closer>, code: bool, comment: bool, syntax: Syntax,
              chars: Chars)
    returns (index': nat, depth': nat, open': Option<Closer>, code': bool, comment': bool)
    requires WellFormed(syntax) && index < |line| && Closable(open)
    ensures Scan(index', depth', open', code', comment')
              == Step(line, Scan(index, depth, open, code, comment), syntax, chars)
  {
    index', depth', open', code', comment' := index, depth, open, code, comment;
    if open.Some? {
      code' := true;
      index', open' := CloseString(line, index, open.value, depth, code, comment);
    } else if depth > 0 {
      comment' := true;
      index', depth' := MoveInBlock(line, index, depth, code, comment, syntax);
    } else if chars.space(line[index]) {
      index' := index + 1;
    } else if StartsAny(line, syntax.lineTokens, index) {
      comment' := true;
      index' := |line|;
    } else if syntax.block.Some? && StartsWith(line, syntax.block.value.start, index) {
      comment', depth' := true, 1;
      index' := index + |syntax.block.value.start|;
    } else {
      code' := true;
      index', open' := SkipCode(line, index, code, comment, syntax, chars);
    }
  }

  /** The part of the loop inside a multi-line string. */
  method CloseString(line: string, index: nat, closer: Closer, ghost depth: nat, ghost code: bool, ghost comment: bool)
    returns (after: nat, open: Option<Closer>)
    requires index < |line| && closer.token != []
    ensures Scan(after, depth, open, true, comment) == StringStep(line, Scan(index, depth, Some(closer), code, comment))
  {
    var end := FindStringEnd(line, closer.token, index, closer.escapes);
    EndIsStringEnd(line, closer.token, index, closer.escapes, end);
    if end.None? {
      return |line|, Some(closer);
    }
    return end.value + |closer.token|, None;
  }

  /** The part of the loop inside a block comment. */
  method MoveInBlock(line: string, index: nat, depth: nat, ghost code: bool, ghost comment: bool, syntax: Syntax)
    returns (after: nat, newDepth: nat)
    requires WellFormed(syntax) && index < |line| && depth > 0
    ensures Scan(after, newDepth, None, code, true) == BlockStep(line, Scan(index, depth, None, code, comment), syntax)
  {
    if syntax.nested && syntax.block.Some? && StartsWith(line, syntax.block.value.start, index) {
      return index + |syntax.block.value.start|, depth + 1;
    } else if syntax.block.Some? && StartsWith(line, syntax.block.value.end, index) {
      return index + |syntax.block.value.end|, depth - 1;
    }
    return index + 1, depth;
  }

  /** The part of the loop at a character of code. */
  method SkipCode(line: string, index: nat, ghost code: bool, ghost comment: bool, syntax: Syntax, chars: Chars)
    returns (after: nat, open: Option<Closer>)
    requires WellFormed(syntax) && index < |line|
    requires !chars.space(line[index]) && !StartsAny(line, syntax.lineTokens, index)
    requires !(syntax.block.Some? && StartsWith(line, syntax.block.value.start, index))
    ensures Scan(after, 0, open, true, comment) == CodeStep(line, Scan(index, 0, None, code, comment), syntax, chars)
  {
    var start := MultilineStart(line, index, syntax.kind, chars);
    if start.Some? {
      var StringStart(content, closer) := start.value;
      var end := FindStringEnd(line, closer.token, content, closer.escapes);
      EndIsStringEnd(line, closer.token, content, closer.escapes, end);
      if end.None? {
        return |line|, Some(closer);
      }
      return end.value + |closer.token|, None;
    }
    if line[index] in syntax.quotes {
      after := SkipQuoted(line, index, line[index]);
      return after, None;
    }
    return index + 1, None;
  }

  /** The checks before the scan: blank lines, a first-line `#!`, and directives. */
  method ClassifyOne(line: string, first: bool, carry: Carry, syntax: Syntax, chars: Chars)
    returns (category: Category, next: Carry)
    requires WellFormed(syntax) && Closable(carry.open)
    ensures (category, next) == ClassifyLine(line, first, carry, syntax, chars)
  {
    var stripped := Strip(line, chars.space);
    if stripped == [] {
      return Blank, carry;
    }
    if PlainlyCode(stripped, first, carry, syntax) {
      return Code, carry;
    }
    category, next := ScanTheLine(line, carry, syntax, chars);
  }

  /** The lines from the `i`-th on, given what the lines before it hand on. */
  function From(lines: seq<string>, i: nat, carry: Carry, syntax: Syntax, chars: Chars): seq<Category>
    requires WellFormed(syntax) && Closable(carry.open) && i <= |lines|
  {
    Classify(lines[i..], i == 0, carry, syntax, chars).0
  }

  lemma FromStep(lines: seq<string>, i: nat, carry: Carry, syntax: Syntax, chars: Chars, category: Category,
                 next: Carry)
    requires WellFormed(syntax) && Closable(carry.open) && Closable(next.open) && i < |lines|
    requires (category, next) == ClassifyLine(lines[i], i == 0, carry, syntax, chars)
    ensures From(lines, i, carry, syntax, chars) == [category] + From(lines, i + 1, next, syntax, chars)
  {
    assert lines[i..][1..] == lines[i + 1..];
  }

  /** `classify_blob`, on the lines of the file. */
  method ClassifyBlob(lines: seq<string>, syntax: Syntax, chars: Chars) returns (categories: seq<Category>)
    requires WellFormed(syntax)
    ensures categories == Classify(lines, true, Carry(0, None), syntax, chars).0
  {
    categories := [];
    var carry := Carry(0, None);
    ghost var whole, rest := From(lines, 0, carry, syntax, chars), From(lines, 0, carry, syntax, chars);
    assert lines[0..] == lines;
    for i := 0 to |lines|
      invariant Closable(carry.open)
      invariant whole == categories + rest && rest == From(lines, i, carry, syntax, chars)
    {
      var category, next := ClassifyOne(lines[i], i == 0, carry, syntax, chars);
      FromStep(lines, i, carry, syntax, chars, category, next);
      rest := From(lines, i + 1, next, syntax, chars);
      categories, carry := categories + [category], next;
    }
  }
}
