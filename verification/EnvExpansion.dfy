/** `${NAME}` references in one config string (proxy/src/config/env.rs). */
module EnvExpansion {
  import opened Wrappers

  /** What looking up a variable gives. */
  datatype Variable = Set(value: string) | NotPresent | NotUnicode

  type Lookup = string -> Variable

  /** The environment, which characters count as white space, and whether the setting is a secret. */
  datatype Env = Env(lookup: Lookup, ws: char -> bool, secret: bool)

  /** White space, and the invisible format characters. */
  predicate IsPadding(ws: char -> bool, c: char) {
    ws(c) || c in ['\U{FEFF}', '\U{200B}', '\U{200C}', '\U{200D}', '\U{2060}', '\U{180E}']
  }

  predicate IsNameStart(c: char) {
    'a' <= c <= 'z' || 'A' <= c <= 'Z' || c == '_'
  }

  predicate IsValidName(name: string) {
    name != [] && IsNameStart(name[0]) && forall i :: 1 <= i < |name| ==> IsNameStart(name[i]) || '0' <= name[i] <= '9'
  }

  /** An expansion error.  It names the variable, outside secret settings, and never a value. */
  datatype Fault = Empty | Padded | Unset | BadUnicode
  datatype ExpandError = Unterminated | InvalidReference | OfVariable(name: Option<string>, fault: Fault)

  // ── Meaning ────────────────────────────────────────────────────────────────

  /** A string as the reader of the documentation sees it, piece by piece. */
  datatype Piece =
    | Literal(c: char)
    | EscapedDollar
    | Reference(name: string)
    | Malformed(body: string)

  function RunLength(s: string): nat {
    if s != [] && s[0] == '$' then 1 + RunLength(s[1..]) else 0
  }

  lemma RunLengthMeans(s: string)
    ensures RunLength(s) <= |s| && forall i :: 0 <= i < RunLength(s) ==> s[i] == '$'
    ensures RunLength(s) < |s| ==> s[RunLength(s)] != '$'
  {
  }

  /** `s` begins with a run of dollars that stands directly before a brace. */
  predicate DollarsBeforeBrace(s: string) {
    s != [] && s[0] == '$' && |s| > 1 && (s[1] == '{' || DollarsBeforeBrace(s[1..]))
  }

  function Find(s: string, c: char): Option<nat> {
    if s == [] then None
    else if s[0] == c then Some(0)
    else
      var rest := Find(s[1..], c);
      if rest.Some? then Some(rest.value + 1) else None
  }

  lemma FindMeans(s: string, c: char)
    ensures match Find(s, c)
            case None => c !in s
            case Some(i) => i < |s| && s[i] == c && c !in s[..i]
  {
    if s != [] && s[0] != c {
      FindMeans(s[1..], c);
      var rest := Find(s[1..], c);
      if rest.Some? {
        assert s[..rest.value + 1] == [s[0]] + s[1..][..rest.value];
      } else {
        assert s == [s[0]] + s[1..];
      }
    }
  }

  /** The pieces of a string: they depend on its text alone. */
  function Pieces(s: string): seq<Piece>
    decreases |s|
  {
    if s == [] then []
    else if !DollarsBeforeBrace(s) then [Literal(s[0])] + Pieces(s[1..])
    else if s[1] == '$' then [EscapedDollar] + Pieces(s[2..])
    else
      var body := s[2..];
      var end := Find(body, '}');
      FindMeans(body, '}');
      if end.Some? && IsValidName(body[..end.value])
      then [Reference(body[..end.value])] + Pieces(body[end.value + 1..])
      else [Malformed(body)]
  }

  function Unparse(pieces: seq<Piece>): string {
    if pieces == [] then []
    else
      var rest := Unparse(pieces[1..]);
      match pieces[0]
      case Literal(c) => [c] + rest
      case EscapedDollar => "$$" + rest
      case Reference(name) => "${" + name + "}" + rest
      case Malformed(body) => "${" + body
  }

  /** The value of one reference, or why there is none. */
  function Resolve(name: string, env: Env): Result<string, ExpandError> {
    var shown := if env.secret then None else Some(name);
    match env.lookup(name)
    case NotPresent => Err(OfVariable(shown, Unset))
    case NotUnicode => Err(OfVariable(shown, BadUnicode))
    case Set(value) =>
      if forall i :: 0 <= i < |value| ==> IsPadding(env.ws, value[i]) then Err(OfVariable(shown, Empty))
      else if IsPadding(env.ws, value[0]) || IsPadding(env.ws, value[|value| - 1]) then Err(OfVariable(shown, Padded))
      else Ok(value)
  }

  function MalformedError(body: string): ExpandError {
    if Find(body, '}').None? then Unterminated else InvalidReference
  }

  /** Pieces are read left to right; the first failing one decides. */
  function Meaning(pieces: seq<Piece>, env: Env): Result<string, ExpandError> {
    if pieces == [] then Ok([])
    else
      match pieces[0]
      case Literal(c) =>
        var rest :- Meaning(pieces[1..], env);
        Ok([c] + rest)
      case EscapedDollar =>
        var rest :- Meaning(pieces[1..], env);
        Ok(['$'] + rest)
      case Reference(name) =>
        var value :- Resolve(name, env);
        var rest :- Meaning(pieces[1..], env);
        Ok(value + rest)
      case Malformed(body) => Err(MalformedError(body))
  }

  function Expand(s: string, env: Env): Result<string, ExpandError> {
    Meaning(Pieces(s), env)
  }

  // ── The loop of the source ─────────────────────────────────────────────────

  function Dollars(n: nat): string {
    seq(n, _ => '$')
  }

  function Prefixed(out: string, r: Result<string, ExpandError>): Result<string, ExpandError> {
    if r.Ok? then Ok(out + r.value) else r
  }

  lemma PrefixedTwice(a: string, b: string, r: Result<string, ExpandError>)
    ensures Prefixed(a, Prefixed(b, r)) == Prefixed(a + b, r)
  {
    if r.Ok? {
      assert a + (b + r.value) == a + b + r.value;
    }
  }

  /** Text without a dollar stands for itself. */
  lemma {:induction false} PlainPrefix(p: string, rest: string, env: Env)
    requires '$' !in p
    ensures Expand(p + rest, env) == Prefixed(p, Expand(rest, env))
  {
    if p == [] {
      assert p + rest == rest;
      PrefixedNothing(Expand(rest, env));
    } else {
      assert (p + rest)[1..] == p[1..] + rest;
      PlainPrefix(p[1..], rest, env);
      LiteralStep(p + rest, env);
      PrefixedTwice([p[0]], p[1..], Expand(rest, env));
      assert [p[0]] + p[1..] == p;
    }
  }

  lemma PrefixedNothing(r: Result<string, ExpandError>)
    ensures Prefixed([], r) == r
  {
    if r.Ok? {
      assert [] + r.value == r.value;
    }
  }

  lemma LiteralStep(s: string, env: Env)
    requires s != [] && !DollarsBeforeBrace(s)
    ensures Expand(s, env) == Prefixed([s[0]], Expand(s[1..], env))
  {
    var pieces := Pieces(s);
    assert pieces == [Literal(s[0])] + Pieces(s[1..]);
    assert pieces[1..] == Pieces(s[1..]);
  }

  lemma {:induction false} BeforeBraceMeans(s: string)
    requires s != [] && s[0] == '$'
    ensures DollarsBeforeBrace(s) <==> RunLength(s) < |s| && s[RunLength(s)] == '{'
  {
    RunLengthMeans(s);
    if |s| > 1 {
      assert s[1..] != [];
      if s[1] == '$' {
        BeforeBraceMeans(s[1..]);
        RunLengthMeans(s[1..]);
      }
    }
  }

  /** Away from a brace a run of dollars stands for itself. */
  lemma {:induction false} LiteralRun(s: string, env: Env)
    requires s == [] || s[0] != '$' || !DollarsBeforeBrace(s)
    ensures RunLength(s) <= |s|
    ensures Expand(s, env)
         == Prefixed(Dollars(RunLength(s)), Expand(s[RunLength(s)..], env))
  {
    RunLengthMeans(s);
    if RunLength(s) == 0 {
      PrefixedNothing(Expand(s, env));
      assert s[0..] == s && Dollars(0) == [];
    } else {
      var t := s[1..];
      LiteralStep(s, env);
      assert t == [] || t[0] != '$' || !DollarsBeforeBrace(t);
      LiteralRun(t, env);
      assert t[RunLength(t)..] == s[RunLength(s)..];
      PrefixedTwice(['$'], Dollars(RunLength(t)), Expand(s[RunLength(s)..], env));
      assert ['$'] + Dollars(RunLength(t)) == Dollars(RunLength(s));
    }
  }

  lemma EscapeStep(s: string, env: Env)
    requires DollarsBeforeBrace(s) && s[1] == '$'
    ensures Expand(s, env) == Prefixed(['$'], Expand(s[2..], env))
    ensures RunLength(s) == RunLength(s[2..]) + 2 && s[2..] != []
    ensures s[2] == '{' || DollarsBeforeBrace(s[2..])
  {
    var pieces := Pieces(s);
    assert pieces == [EscapedDollar] + Pieces(s[2..]) && pieces[1..] == Pieces(s[2..]);
    assert s[1..][1..] == s[2..];
  }

  /** Before a brace the first `k` pairs of dollars are `k` dollars. */
  lemma {:induction false} EscapedPairs(s: string, k: nat, env: Env)
    requires k > 0 ==> DollarsBeforeBrace(s)
    requires 2 * k <= RunLength(s)
    ensures 2 * k <= |s| && Expand(s, env) == Prefixed(Dollars(k), Expand(s[2 * k..], env))
    decreases k
  {
    RunLengthMeans(s);
    if k == 0 {
      PrefixedNothing(Expand(s, env));
      assert s[0..] == s && Dollars(0) == [];
    } else {
      var t := s[2..];
      assert s[1] == '$' by {
        assert RunLength(s[1..]) == RunLength(s) - 1;
      }
      EscapeStep(s, env);
      if k > 1 {
        assert t[0] != '{' by {
          assert RunLength(t) >= 2;
        }
      }
      EscapedPairs(t, k - 1, env);
      assert t[2 * (k - 1)..] == s[2 * k..];
      PrefixedTwice(['$'], Dollars(k - 1), Expand(s[2 * k..], env));
      assert ['$'] + Dollars(k - 1) == Dollars(k);
    }
  }

  /** A reference, well formed or not, at the head of the text. */
  lemma ReferenceStep(s: string, env: Env)
    requires |s| >= 2 && s[0] == '$' && s[1] == '{'
    ensures var (body, end) := (s[2..], Find(s[2..], '}'));
            && (end.Some? ==> end.value < |body|)
            && Expand(s, env)
            == if end.None? then Err(Unterminated)
               else if !IsValidName(body[..end.value]) then Err(InvalidReference)
               else
                 var v := Resolve(body[..end.value], env);
                 if v.Err? then v else Prefixed(v.value, Expand(body[end.value + 1..], env))
  {
    FindMeans(s[2..], '}');
    var pieces := Pieces(s);
    assert DollarsBeforeBrace(s);
    if pieces[0].Reference? {
      var (body, end) := (s[2..], Find(s[2..], '}'));
      assert pieces[1..] == Pieces(body[end.value + 1..]);
    }
  }

  method FindChar(s: string, c: char) returns (r: Option<nat>)
    ensures r == Find(s, c)
  {
    var i := 0;
    assert s[0..] == s;
    while i < |s|
      invariant 0 <= i <= |s|
      invariant Find(s, c) == var rest := Find(s[i..], c); if rest.Some? then Some(i + rest.value) else None
    {
      if s[i] == c {
        return Some(i);
      }
      assert s[i..][1..] == s[i + 1..];
      i := i + 1;
    }
    return None;
  }

  method CountRun(s: string) returns (run: nat)
    ensures run == RunLength(s)
  {
    run := 0;
    assert s[0..] == s;
    while run < |s| && s[run] == '$'
      invariant 0 <= run <= |s| && RunLength(s) == run + RunLength(s[run..])
    {
      assert s[run..][1..] == s[run + 1..];
      run := run + 1;
    }
  }

  /** The part of a reference after its opening brace: its value and the text after it. */
  method ReadReference(body: string, env: Env) returns (r: Result<(string, string), ExpandError>)
    ensures r.Ok? ==> |r.value.1| < |body|
    ensures Expand("${" + body, env) == if r.Ok? then Prefixed(r.value.0, Expand(r.value.1, env)) else Err(r.error)
  {
    ReferenceStep("${" + body, env);
    assert ("${" + body)[2..] == body;
    var end := FindChar(body, '}');
    if end.None? {
      return Err(Unterminated);
    }
    var name := body[..end.value];
    if !IsValidName(name) {
      return Err(InvalidReference);
    }
    var value := Resolve(name, env);
    if value.Err? {
      return Err(value.error);
    }
    return Ok((value.value, body[end.value + 1..]));
  }

  /** A run of dollars away from a brace. */
  lemma LiteralRunStep(rest: string, start: nat, env: Env)
    requires start < |rest| && '$' !in rest[..start] && rest[start] == '$'
    requires var run := RunLength(rest[start..]);
             start + run <= |rest| && (start + run == |rest| || rest[start + run] != '{')
    ensures var run := RunLength(rest[start..]);
            Expand(rest, env) == Prefixed(rest[..start] + Dollars(run), Expand(rest[start + run..], env))
  {
    var dollars := rest[start..];
    var run := RunLength(dollars);
    RunLengthMeans(dollars);
    BeforeBraceMeans(dollars);
    assert rest == rest[..start] + dollars && dollars[run..] == rest[start + run..];
    PlainPrefix(rest[..start], dollars, env);
    LiteralRun(dollars, env);
    PrefixedTwice(rest[..start], Dollars(run), Expand(rest[start + run..], env));
  }

  /** A run of dollars before a brace. */
  lemma EscapedRunStep(rest: string, start: nat, k: nat, env: Env)
    requires start < |rest| && '$' !in rest[..start] && rest[start] == '$'
    requires var run := RunLength(rest[start..]); start + run < |rest| && rest[start + run] == '{' && 2 * k <= run
    ensures Expand(rest, env) == Prefixed(rest[..start] + Dollars(k), Expand(rest[start + 2 * k..], env))
  {
    var dollars := rest[start..];
    RunLengthMeans(dollars);
    BeforeBraceMeans(dollars);
    assert rest == rest[..start] + dollars && dollars[2 * k..] == rest[start + 2 * k..];
    PlainPrefix(rest[..start], dollars, env);
    EscapedPairs(dollars, k, env);
    PrefixedTwice(rest[..start], Dollars(k), Expand(rest[start + 2 * k..], env));
  }

  lemma PrefixedAgain(a: string, b: string, whole: Result<string, ExpandError>, part: Result<string, ExpandError>,
                      rest: Result<string, ExpandError>)
    requires whole == Prefixed(a, part) && part == Prefixed(b, rest)
    ensures whole == Prefixed(a + b, rest)
  {
    PrefixedTwice(a, b, rest);
  }

  /** What is left of a run once its pairs are gone: the brace alone, or one dollar before it. */
  lemma AfterPairs(rest: string, start: nat)
    requires start < |rest| && rest[start] == '$'
    requires var run := RunLength(rest[start..]); start + run < |rest| && rest[start + run] == '{'
    ensures var run := RunLength(rest[start..]);
            rest[start + run / 2 * 2..] == if run % 2 == 0 then rest[start + run..] else "${" + rest[start + run + 1..]
  {
    var run := RunLength(rest[start..]);
    RunLengthMeans(rest[start..]);
    if run % 2 == 1 {
      var left := rest[start + (run - 1)..];
      assert left[0] == rest[start..][run - 1] == '$' && left[1] == '{';
      assert left == "${" + left[2..];
      assert left[2..] == rest[start + run + 1..];
    }
  }

  /** Before a brace: what the pairs of the run append, and the text that is read next. */
  lemma BracedRun(rest: string, start: nat, run: nat, env: Env)
    requires start < |rest| && '$' !in rest[..start] && rest[start] == '$' && run == RunLength(rest[start..])
    requires start + run < |rest| && rest[start + run] == '{'
    ensures var next := if run % 2 == 0 then rest[start + run..] else "${" + rest[start + run + 1..];
            Expand(rest, env) == Prefixed(rest[..start] + Dollars(run / 2), Expand(next, env))
  {
    EscapedRunStep(rest, start, run / 2, env);
    AfterPairs(rest, start);
  }

  /** The reference that an odd dollar opens, appended to what the run gave. */
  method ReadReferenceAfter(rest: string, out: string, body: string, env: Env)
    returns (r: Result<(string, string), ExpandError>)
    requires |body| < |rest| && Expand(rest, env) == Prefixed(out, Expand("${" + body, env))
    ensures r.Ok? ==> |r.value.1| < |rest|
    ensures Expand(rest, env) == if r.Ok? then Prefixed(r.value.0, Expand(r.value.1, env)) else Err(r.error)
  {
    var reference := ReadReference(body, env);
    if reference.Err? {
      return Err(reference.error);
    }
    PrefixedTwice(out, reference.value.0, Expand(reference.value.1, env));
    return Ok((out + reference.value.0, reference.value.1));
  }

  /** One turn of the loop, at the dollar at `start`: what it appends and the text it leaves. */
  method ExpandRun(rest: string, start: nat, env: Env) returns (r: Result<(string, string), ExpandError>)
    requires start < |rest| && '$' !in rest[..start] && rest[start] == '$'
    ensures r.Ok? ==> |r.value.1| < |rest|
    ensures Expand(rest, env) == if r.Ok? then Prefixed(r.value.0, Expand(r.value.1, env)) else Err(r.error)
  {
    var run := CountRun(rest[start..]);
    assert 0 < run <= |rest| - start by {
      RunLengthMeans(rest[start..]);
    }
    var at := start + run;
    if at == |rest| || rest[at] != '{' {
      LiteralRunStep(rest, start, env);
      return Ok((rest[..start] + Dollars(run), rest[at..]));
    }
    BracedRun(rest, start, run, env);
    var out := rest[..start] + Dollars(run / 2);
    if run % 2 == 0 {
      return Ok((out, rest[at..]));
    }
    r := ReadReferenceAfter(rest, out, rest[at + 1..], env);
  }

  /** `expand_str`: the loop over runs of dollars computes the meaning of the pieces. */
  method ExpandStr(s: string, env: Env) returns (r: Result<string, ExpandError>)
    ensures r == Expand(s, env)
  {
    var out := "";
    var rest := s;
    PrefixedNothing(Expand(s, env));
    while true
      invariant Expand(s, env) == Prefixed(out, Expand(rest, env))
      decreases |rest|
    {
      var start := FindChar(rest, '$');
      FindMeans(rest, '$');
      if start.None? {
        break;
      }
      var turn := ExpandRun(rest, start.value, env);
      if turn.Err? {
        return Err(turn.error);
      }
      PrefixedAgain(out, turn.value.0, Expand(s, env), Expand(rest, env), Expand(turn.value.1, env));
      out := out + turn.value.0;
      rest := turn.value.1;
    }
    PlainText(rest, env);
    return Ok(out + rest);
  }

  // ── What the documentation promises ────────────────────────────────────────

  /** Text without a dollar is unchanged. */
  lemma PlainText(s: string, env: Env)
    requires '$' !in s
    ensures Expand(s, env) == Ok(s)
  {
    PlainPrefix(s, [], env);
    assert s + [] == s && Expand([], env) == Ok([]);
  }

  predicate HasReferenceSyntax(s: string) {
    |s| >= 2 && ((s[0] == '$' && s[1] == '{') || HasReferenceSyntax(s[1..]))
  }

  /** Any text without `${` is unchanged, whatever other dollars it holds. */
  lemma {:induction false} NoReferenceUnchanged(s: string, env: Env)
    requires !HasReferenceSyntax(s)
    ensures Expand(s, env) == Ok(s)
  {
    if s != [] {
      NoReferenceNoRun(s);
      NoReferenceUnchanged(s[1..], env);
      LiteralStep(s, env);
      assert [s[0]] + s[1..] == s;
    }
  }

  lemma {:induction false} NoReferenceNoRun(s: string)
    requires !HasReferenceSyntax(s)
    ensures !DollarsBeforeBrace(s)
  {
    if |s| > 1 {
      NoReferenceNoRun(s[1..]);
    }
  }

  /** Every run of dollars directly before a brace, doubled. */
  function Escape(s: string): string {
    if s == [] then []
    else if DollarsBeforeBrace(s) then "$$" + Escape(s[1..])
    else [s[0]] + Escape(s[1..])
  }

  lemma {:induction false} EscapeKeepsRuns(s: string)
    ensures s != [] ==> Escape(s) != [] && Escape(s)[0] == s[0]
    ensures DollarsBeforeBrace(s) <==> DollarsBeforeBrace(Escape(s))
  {
    if s != [] {
      EscapeKeepsRuns(s[1..]);
      var e := Escape(s);
      if DollarsBeforeBrace(s) {
        assert e[1..] == "$" + Escape(s[1..]) && e[1..][1..] == Escape(s[1..]);
      } else {
        assert e[1..] == Escape(s[1..]);
      }
    }
  }

  /** Escaping is undone exactly by expansion: any text at all can be written in a config file. */
  lemma {:induction false} EscapeRoundTrip(s: string, env: Env)
    ensures Expand(Escape(s), env) == Ok(s)
  {
    if s != [] {
      var e := Escape(s);
      EscapeKeepsRuns(s);
      EscapeRoundTrip(s[1..], env);
      if DollarsBeforeBrace(s) {
        assert e[1] == '$' && e[2..] == Escape(s[1..]);
        EscapeStep(e, env);
      } else {
        assert e[1..] == Escape(s[1..]);
        LiteralStep(e, env);
      }
      assert [s[0]] + s[1..] == s;
    }
  }

  // ── One segmentation ───────────────────────────────────────────────────────

  /**
   * A segmentation that follows the rules: an escape stands before a brace or another piece of the
   * same run, no literal dollar does, names are valid, and nothing follows a malformed reference.
   */
  ghost predicate FollowsRules(pieces: seq<Piece>) {
    pieces == []
    || (&& FollowsRules(pieces[1..])
        && match pieces[0]
           case Literal(c) => c == '$' ==> !DollarsBeforeBrace(Unparse(pieces))
           case EscapedDollar => DollarsBeforeBrace(Unparse(pieces))
           case Reference(name) => IsValidName(name)
           case Malformed(body) =>
             && pieces == [pieces[0]]
             && var end := Find(body, '}');
                end.Some? ==> end.value <= |body| && !IsValidName(body[..end.value]))
  }

  lemma NameHasNoBrace(name: string)
    requires IsValidName(name)
    ensures '}' !in name
  {
  }

  lemma {:induction false} FindAfter(p: string, rest: string, c: char)
    requires c !in p
    ensures Find(p + [c] + rest, c) == Some(|p|)
  {
    var s := p + [c] + rest;
    if p != [] {
      assert s[1..] == p[1..] + [c] + rest;
      FindAfter(p[1..], rest, c);
    }
  }

  lemma ParseReference(name: string, rest: string)
    requires IsValidName(name)
    ensures Pieces("${" + name + "}" + rest) == [Reference(name)] + Pieces(rest)
  {
    var s := "${" + name + "}" + rest;
    NameHasNoBrace(name);
    FindAfter(name, rest, '}');
    assert s[2..] == name + ['}'] + rest;
    assert s[2..][..|name|] == name && s[2..][|name| + 1..] == rest;
  }

  /** Parsing undoes unparsing, so a segmentation by the rules is the only one of its text. */
  lemma {:induction false} ParseUnparse(pieces: seq<Piece>)
    requires FollowsRules(pieces)
    ensures Pieces(Unparse(pieces)) == pieces
    decreases |pieces|
  {
    if pieces != [] {
      var rest := Unparse(pieces[1..]);
      var s := Unparse(pieces);
      ParseUnparse(pieces[1..]);
      assert pieces == [pieces[0]] + pieces[1..];
      match pieces[0]
      case Literal(c) =>
        assert s[1..] == rest;
      case EscapedDollar =>
        assert s[1] == '$' && s[2..] == rest;
      case Reference(name) =>
        ParseReference(name, rest);
      case Malformed(body) =>
        assert s[2..] == body;
        assert s[0] == '$' && s[1] == '{';
    }
  }

  /** A reference at the head of the text, and what it leaves. */
  lemma ReferencePieces(s: string) returns (rest: string)
    requires DollarsBeforeBrace(s) && s[1] != '$'
    ensures |rest| < |s|
    ensures Pieces(s)[0].Reference? ==>
              && Pieces(s) == [Pieces(s)[0]] + Pieces(rest)
              && IsValidName(Pieces(s)[0].name)
              && s == "${" + Pieces(s)[0].name + "}" + rest
    ensures !Pieces(s)[0].Reference? ==>
              Pieces(s) == [Malformed(s[2..])] && s == "${" + s[2..] && FollowsRules(Pieces(s))
  {
    assert s[1] == '{' by {
      assert s[1..][0] == s[1];
    }
    var (body, end) := (s[2..], Find(s[2..], '}'));
    FindMeans(body, '}');
    rest := [];
    if end.Some? && IsValidName(body[..end.value]) {
      rest := body[end.value + 1..];
      assert s == "${" + body[..end.value] + "}" + rest;
    } else {
      assert s == "${" + body;
      assert Pieces(s)[1..] == [];
    }
  }

  /** The text's own pieces follow the rules and spell the text. */
  lemma {:induction false} UnparseParse(s: string)
    ensures FollowsRules(Pieces(s)) && Unparse(Pieces(s)) == s
    decreases |s|
  {
    if s != [] {
      var pieces := Pieces(s);
      if !DollarsBeforeBrace(s) {
        UnparseParse(s[1..]);
        assert pieces[1..] == Pieces(s[1..]);
      } else if s[1] == '$' {
        UnparseParse(s[2..]);
        assert pieces[1..] == Pieces(s[2..]);
        assert "$$" + s[2..] == s;
      } else {
        var rest := ReferencePieces(s);
        UnparseParse(rest);
        if pieces[0].Reference? {
          assert pieces[1..] == Pieces(rest);
        }
      }
    }
  }

  /** Every string has exactly one segmentation by the rules. */
  lemma OneSegmentation(s: string, pieces: seq<Piece>)
    ensures FollowsRules(pieces) && Unparse(pieces) == s <==> pieces == Pieces(s)
  {
    UnparseParse(s);
    if FollowsRules(pieces) && Unparse(pieces) == s {
      ParseUnparse(pieces);
    }
  }

  // ── Errors do not reveal values ────────────────────────────────────────────

  datatype Class = Fine | ClassEmpty | ClassPadded | ClassUnset | ClassBadUnicode

  /** How a variable turns out, without its value. */
  function ClassOf(v: Variable, ws: char -> bool): Class {
    match v
    case NotPresent => ClassUnset
    case NotUnicode => ClassBadUnicode
    case Set(value) =>
      if forall i :: 0 <= i < |value| ==> IsPadding(ws, value[i]) then ClassEmpty
      else if IsPadding(ws, value[0]) || IsPadding(ws, value[|value| - 1]) then ClassPadded
      else Fine
  }

  ghost predicate SameClasses(pieces: seq<Piece>, a: Env, b: Env) {
    forall p :: p in pieces && p.Reference? ==> ClassOf(a.lookup(p.name), a.ws) == ClassOf(b.lookup(p.name), b.ws)
  }

  function ErrorOf(r: Result<string, ExpandError>): Option<ExpandError> {
    if r.Err? then Some(r.error) else None
  }

  /** Two environments that differ only in values give the same error, or both none. */
  lemma {:induction false} ErrorsHideValues(pieces: seq<Piece>, a: Env, b: Env)
    requires a.secret == b.secret && SameClasses(pieces, a, b)
    ensures ErrorOf(Meaning(pieces, a)) == ErrorOf(Meaning(pieces, b))
  {
    if pieces != [] {
      assert forall p :: p in pieces[1..] ==> p in pieces;
      ErrorsHideValues(pieces[1..], a, b);
      assert pieces[0] in pieces;
    }
  }

  const SECRET_ERRORS: set<ExpandError> := {
    Unterminated, InvalidReference, OfVariable(None, Empty), OfVariable(None, Padded), OfVariable(None, Unset),
      OfVariable(None, BadUnicode)
  }

  /** In a secret setting there are six errors, whatever the text and the environment. */
  lemma {:induction false} SecretErrors(pieces: seq<Piece>, env: Env)
    requires env.secret
    ensures Meaning(pieces, env).Err? ==> Meaning(pieces, env).error in SECRET_ERRORS
  {
    if pieces != [] {
      SecretErrors(pieces[1..], env);
    }
  }
}
