/**
 * What expansion makes of a text, in terms of the text and the variables alone: every reference becomes
 * its variable's value, every escape one dollar, and the first piece that cannot be replaced decides
 * the error (proxy/src/config/env.rs).
 */
module ExpansionLaws {
  import opened Wrappers
  import opened EnvExpansion

  // ── Values and names ───────────────────────────────────────────────────────

  /** White space, or one of six invisible characters. */
  predicate Invisible(ws: char -> bool, c: char) {
    ws(c) || c as int == 0xFEFF || 0x200B <= c as int <= 0x200D || c as int == 0x2060 || c as int == 0x180E
  }

  predicate AllInvisible(ws: char -> bool, v: string) {
    forall i :: 0 <= i < |v| ==> Invisible(ws, v[i])
  }

  /** Something visible at both ends. */
  predicate Usable(ws: char -> bool, v: string) {
    v != [] && !Invisible(ws, v[0]) && !Invisible(ws, v[|v| - 1])
  }

  predicate IsLetter(c: char) {
    65 <= c as int <= 90 || 97 <= c as int <= 122 || c as int == 95
  }

  /** ASCII letters, digits and underscores, not starting with a digit. */
  predicate IsName(name: string) {
    name != [] && IsLetter(name[0]) && forall i :: 0 <= i < |name| ==> IsLetter(name[i]) || 48 <= name[i] as int <= 57
  }

  lemma PaddingIsInvisible(ws: char -> bool, c: char)
    ensures IsPadding(ws, c) <==> Invisible(ws, c)
  {
    assert '\U{FEFF}' as int == 0xFEFF && '\U{200B}' as int == 0x200B && '\U{200C}' as int == 0x200C;
    assert '\U{200D}' as int == 0x200D && '\U{2060}' as int == 0x2060 && '\U{180E}' as int == 0x180E;
    assert 0x200B <= c as int <= 0x200D ==> c == '\U{200B}' || c == '\U{200C}' || c == '\U{200D}';
  }

  lemma NamesAgree(name: string)
    ensures IsValidName(name) <==> IsName(name)
  {
  }

  /** The variable's name, withheld in a secret setting. */
  function Shown(name: string, env: Env): Option<string> {
    if env.secret then None else Some(name)
  }

  // ── One reference ──────────────────────────────────────────────────────────

  /** What a variable gives, in terms of its value. */
  ghost predicate Gives(name: string, env: Env, r: Result<string, ExpandError>) {
    match env.lookup(name)
    case NotPresent => r == Err(OfVariable(Shown(name, env), Unset))
    case NotUnicode => r == Err(OfVariable(Shown(name, env), BadUnicode))
    case Set(v) =>
      if Usable(env.ws, v) then r == Ok(v)
      else r == Err(OfVariable(Shown(name, env), if AllInvisible(env.ws, v) then Empty else Padded))
  }

  lemma ResolveGives(name: string, env: Env)
    ensures Gives(name, env, Resolve(name, env))
  {
    var found := env.lookup(name);
    if found.Set? {
      var v := found.value;
      forall i | 0 <= i < |v| ensures IsPadding(env.ws, v[i]) <==> Invisible(env.ws, v[i]) {
        PaddingIsInvisible(env.ws, v[i]);
      }
    }
  }

  /** A text put before what another expands to. */
  predicate Before(text: string, rest: Result<string, ExpandError>, whole: Result<string, ExpandError>) {
    match rest
    case Ok(more) => whole == Ok(text + more)
    case Err(e) => whole == Err(e)
  }

  lemma ReferenceParts(name: string, rest: string)
    requires IsName(name)
    ensures var s := "${" + name + "}" + rest;
            && s[0] == '$' && s[1] == '{' && s[2..] == name + ['}'] + rest
            && Find(s[2..], '}') == Some(|name|) && s[2..][..|name|] == name && s[2..][|name| + 1..] == rest
  {
    NamesAgree(name);
    NameHasNoBrace(name);
    FindAfter(name, rest, '}');
  }

  lemma AtHead(name: string, rest: string, env: Env)
    requires IsName(name)
    ensures var (s, v) := ("${" + name + "}" + rest, Resolve(name, env));
            Expand(s, env) == if v.Err? then v else Prefixed(v.value, Expand(rest, env))
  {
    var s := "${" + name + "}" + rest;
    ReferenceParts(name, rest);
    NamesAgree(name);
    ReferenceStep(s, env);
  }

  /**
   * A reference after plain text is replaced by its variable's value when that is usable, and the rest
   * is read as it would be alone; otherwise its error is the error of the whole.
   */
  lemma ReferenceReplaced(p: string, name: string, rest: string, env: Env)
    requires '$' !in p && IsName(name)
    ensures var whole := Expand(p + ("${" + name + "}" + rest), env);
            match env.lookup(name)
            case NotPresent => whole == Err(OfVariable(Shown(name, env), Unset))
            case NotUnicode => whole == Err(OfVariable(Shown(name, env), BadUnicode))
            case Set(v) =>
              if Usable(env.ws, v) then Before(p + v, Expand(rest, env), whole)
              else whole == Err(OfVariable(Shown(name, env), if AllInvisible(env.ws, v) then Empty else Padded))
  {
    PlainPrefix(p, "${" + name + "}" + rest, env);
    AtHead(name, rest, env);
    ResolveGives(name, env);
    var v := Resolve(name, env);
    if v.Ok? {
      PrefixedTwice(p, v.value, Expand(rest, env));
    }
  }

  /** A reference alone: each outcome for exactly one kind of variable. */
  lemma ReferenceOutcomes(name: string, env: Env)
    requires IsName(name)
    ensures var (r, found) := (Expand("${" + name + "}", env), env.lookup(name));
            && (r == Err(OfVariable(Shown(name, env), Unset)) <==> found == NotPresent)
            && (r == Err(OfVariable(Shown(name, env), BadUnicode)) <==> found == NotUnicode)
            && (r == Err(OfVariable(Shown(name, env), Empty)) <==> found.Set? && AllInvisible(env.ws, found.value))
            && (r == Err(OfVariable(Shown(name, env), Padded)) <==>
                found.Set? && !AllInvisible(env.ws, found.value) && !Usable(env.ws, found.value))
            && (r.Ok? <==> found.Set? && Usable(env.ws, found.value))
            && (r.Ok? ==> r.value == found.value)
  {
    ReferenceReplaced([], name, [], env);
    assert [] + ("${" + name + "}" + []) == "${" + name + "}";
    assert Expand([], env) == Ok([]);
    if env.lookup(name).Set? {
      assert [] + env.lookup(name).value + [] == env.lookup(name).value;
    }
  }

  /** A brace that is never closed, and one that closes around something else than a name. */
  lemma MalformedRefused(p: string, body: string, env: Env)
    requires '$' !in p
    ensures '}' !in body ==> Expand(p + ("${" + body), env) == Err(Unterminated)
    ensures forall k :: 0 <= k < |body| && body[k] == '}' && '}' !in body[..k] && !IsName(body[..k]) ==>
              Expand(p + ("${" + body), env) == Err(InvalidReference)
  {
    var s := "${" + body;
    PlainPrefix(p, s, env);
    assert s[2..] == body;
    ReferenceStep(s, env);
    FindMeans(body, '}');
    forall k | 0 <= k < |body| && body[k] == '}' && '}' !in body[..k]
      ensures Find(body, '}') == Some(k)
    {
      FindAfter(body[..k], body[k + 1..], '}');
      assert body == body[..k] + ['}'] + body[k + 1..];
    }
    forall k | 0 <= k < |body| ensures IsName(body[..k]) <==> IsValidName(body[..k]) {
      NamesAgree(body[..k]);
    }
  }

  // ── The whole text ─────────────────────────────────────────────────────────

  /** What a piece is replaced by, if it can be. */
  function Replacement(piece: Piece, env: Env): Option<string> {
    match piece
    case Literal(c) => Some([c])
    case EscapedDollar => Some("$")
    case Reference(name) =>
      if env.lookup(name).Set? && Usable(env.ws, env.lookup(name).value) then Some(env.lookup(name).value) else None
    case Malformed(_) => None
  }

  predicate AllReplaced(pieces: seq<Piece>, env: Env) {
    forall i :: 0 <= i < |pieces| ==> Replacement(pieces[i], env).Some?
  }

  /** Every piece replaced, one after another. */
  function Replaced(pieces: seq<Piece>, env: Env): string
    requires AllReplaced(pieces, env)
  {
    if pieces == [] then [] else Replacement(pieces[0], env).value + Replaced(pieces[1..], env)
  }

  /** The error that goes with a piece that cannot be replaced. */
  ghost predicate FaultOf(piece: Piece, env: Env, e: ExpandError) {
    match piece
    case Reference(name) => Gives(name, env, Err(e))
    case Malformed(body) => e == if '}' in body then InvalidReference else Unterminated
    case _ => false
  }

  /** The piece at `k` is the first that cannot be replaced, and `e` says why. */
  ghost predicate FailsFirst(pieces: seq<Piece>, env: Env, k: nat, e: ExpandError) {
    k < |pieces| && AllReplaced(pieces[..k], env) && Replacement(pieces[k], env).None? && FaultOf(pieces[k], env, e)
  }

  lemma PieceOutcome(piece: Piece, rest: seq<Piece>, env: Env)
    ensures var (r, more) := (Meaning([piece] + rest, env), Meaning(rest, env));
            match Replacement(piece, env)
            case Some(text) => r == Prefixed(text, more)
            case None => r.Err? && FaultOf(piece, env, r.error)
  {
    assert ([piece] + rest)[1..] == rest;
    match piece
    case Literal(_) =>
    case EscapedDollar =>
    case Reference(name) =>
      ResolveGives(name, env);
    case Malformed(body) =>
      FindMeans(body, '}');
  }

  lemma OneMoreReplaced(piece: Piece, rest: seq<Piece>, env: Env)
    requires Replacement(piece, env).Some?
    ensures AllReplaced([piece] + rest, env) <==> AllReplaced(rest, env)
    ensures AllReplaced(rest, env) ==>
              Replaced([piece] + rest, env) == Replacement(piece, env).value + Replaced(rest, env)
  {
    var all := [piece] + rest;
    assert all[1..] == rest;
    assert forall i :: 1 <= i < |all| ==> all[i] == rest[i - 1];
    if AllReplaced(all, env) {
      forall i | 0 <= i < |rest| ensures Replacement(rest[i], env).Some? {
        assert all[i + 1] == rest[i];
      }
    }
  }

  lemma FailsLater(piece: Piece, rest: seq<Piece>, env: Env, k: nat, e: ExpandError)
    requires Replacement(piece, env).Some? && FailsFirst(rest, env, k, e)
    ensures FailsFirst([piece] + rest, env, k + 1, e)
  {
    var all := [piece] + rest;
    assert all[..k + 1] == [piece] + rest[..k];
    OneMoreReplaced(piece, rest[..k], env);
  }

  lemma {:induction false} MeaningExactly(pieces: seq<Piece>, env: Env)
    ensures var r := Meaning(pieces, env);
            && (r.Ok? <==> AllReplaced(pieces, env))
            && (r.Ok? ==> r.value == Replaced(pieces, env))
            && (r.Err? ==> exists k :: FailsFirst(pieces, env, k, r.error))
  {
    if pieces != [] {
      var (piece, rest) := (pieces[0], pieces[1..]);
      assert pieces == [piece] + rest;
      PieceOutcome(piece, rest, env);
      MeaningExactly(rest, env);
      if Replacement(piece, env).Some? {
        OneMoreReplaced(piece, rest, env);
        if Meaning(rest, env).Err? {
          var k :| FailsFirst(rest, env, k, Meaning(rest, env).error);
          FailsLater(piece, rest, env, k, Meaning(rest, env).error);
        }
      } else {
        assert FailsFirst(pieces, env, 0, Meaning(pieces, env).error);
      }
    }
  }

  /**
   * Cut a text into its pieces by the rules, in the one way there is.  It expands if and only if no
   * piece is malformed and every variable referred to is set to a usable value; the result is then the
   * text with every reference replaced by its value and every escape by one dollar.  Otherwise the
   * first piece that cannot be replaced decides the error.
   */
  lemma ExpandsExactly(s: string, pieces: seq<Piece>, env: Env)
    requires FollowsRules(pieces) && Unparse(pieces) == s
    ensures var r := Expand(s, env);
            && (r.Ok? <==> AllReplaced(pieces, env))
            && (r.Ok? ==> r.value == Replaced(pieces, env))
            && (r.Err? ==> exists k :: FailsFirst(pieces, env, k, r.error))
  {
    ParseUnparse(pieces);
    MeaningExactly(pieces, env);
  }
}
