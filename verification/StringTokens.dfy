/** String delimiters inside one source line (scripts/patch-stats.py, lines 371-423). */
module StringTokens {
  import opened Wrappers

  predicate StartsWith(line: string, token: string, i: nat) {
    i + |token| <= |line| && line[i..i + |token|] == token
  }

  /** How many backslashes stand directly before `k`, none of them before `lo`. */
  function Backslashes(line: string, lo: nat, k: nat): (n: nat)
    requires lo <= k <= |line|
    ensures n <= k - lo
    decreases k
  {
    if k > lo && line[k - 1] == '\\' then 1 + Backslashes(line, lo, k - 1) else 0
  }

  // ── find_string_end ────────────────────────────────────────────────────────

  /** `token` stands at `k` and no backslash escapes it, where backslashes escape at all. */
  predicate EndsAt(line: string, token: string, escapes: bool, k: nat) {
    StartsWith(line, token, k) && (escapes ==> Backslashes(line, 0, k) % 2 == 0)
  }

  /** The least place from `start` on where the string ends. */
  function StringEnd(line: string, token: string, start: nat, escapes: bool): (r: Option<nat>)
    ensures IsEnd(line, token, start, escapes, r)
    decreases |line| - start
  {
    if EndsAt(line, token, escapes, start) then Some(start)
    else if start >= |line| then None
    else StringEnd(line, token, start + 1, escapes)
  }

  /** `str.find` with a start. */
  method Find(line: string, token: string, start: nat) returns (r: Option<nat>)
    ensures r.Some? ==> start <= r.value && StartsWith(line, token, r.value) && forall k :: start <= k < r.value ==>
              !StartsWith(line, token, k)
    ensures r.None? ==> forall k :: start <= k ==> !StartsWith(line, token, k)
  {
    var i := start;
    while i <= |line|
      invariant start <= i
      invariant forall k :: start <= k < i ==> !StartsWith(line, token, k)
    {
      if StartsWith(line, token, i) {
        return Some(i);
      }
      i := i + 1;
    }
    return None;
  }

  method CountBackslashes(line: string, found: nat) returns (n: nat)
    requires found <= |line|
    ensures n == Backslashes(line, 0, found)
  {
    n := 0;
    var check := found;
    while check > 0 && line[check - 1] == '\\'
      invariant 0 <= check <= found && n + Backslashes(line, 0, check) == Backslashes(line, 0, found)
    {
      n := n + 1;
      check := check - 1;
    }
  }

  /** The least unescaped occurrence from `start` on, or nothing. */
  ghost predicate IsEnd(line: string, token: string, start: nat, escapes: bool, r: Option<nat>) {
    match r
    case None => forall k :: start <= k ==> !EndsAt(line, token, escapes, k)
    case Some(end) => start <= end && EndsAt(line, token, escapes, end) && forall k :: start <= k < end ==>
      !EndsAt(line, token, escapes, k)
  }

  lemma EndIsStringEnd(line: string, token: string, start: nat, escapes: bool, r: Option<nat>)
    requires IsEnd(line, token, start, escapes, r)
    ensures r == StringEnd(line, token, start, escapes)
  {
  }

  /** `find_string_end`: the least unescaped occurrence of the token, or nothing. */
  method FindStringEnd(line: string, token: string, start: nat, escapes: bool) returns (r: Option<nat>)
    requires start <= |line|
    ensures IsEnd(line, token, start, escapes, r)
  {
    var index := start;
    while true
      invariant start <= index <= |line| + 1
      invariant forall k :: start <= k < index ==> !EndsAt(line, token, escapes, k)
      decreases |line| + 1 - index
    {
      var found := Find(line, token, index);
      if found.None? {
        return None;
      }
      if !escapes {
        return found;
      }
      var backslashes := CountBackslashes(line, found.value);
      if backslashes % 2 == 0 {
        return found;
      }
      index := found.value + 1;
    }
  }

  /** A character is escaped when a backslash that is not escaped itself stands before it. */
  predicate Escaped(line: string, lo: nat, k: nat)
    requires lo <= k <= |line|
    decreases k
  {
    k > lo && line[k - 1] == '\\' && !Escaped(line, lo, k - 1)
  }

  /** Counting backslashes and pairing them off come to the same. */
  lemma {:induction false} EscapedByParity(line: string, lo: nat, k: nat)
    requires lo <= k <= |line|
    ensures Escaped(line, lo, k) <==> Backslashes(line, lo, k) % 2 == 1
    decreases k
  {
    if k > lo {
      EscapedByParity(line, lo, k - 1);
    }
  }

  /** Where a string ends: the first place of its token, leaving out escaped ones where a backslash escapes. */
  lemma EndsUnescaped(line: string, token: string, start: nat, escapes: bool, k: nat)
    requires start <= k && k + |token| <= |line|
    ensures StringEnd(line, token, start, escapes) == Some(k) <==>
              && StartsWith(line, token, k) && !(escapes && Escaped(line, 0, k))
              && forall j :: start <= j < k && StartsWith(line, token, j) ==> escapes && Escaped(line, 0, j)
  {
    forall j | start <= j <= k
      ensures EndsAt(line, token, escapes, j) <==> StartsWith(line, token, j) && !(escapes && Escaped(line, 0, j))
    {
      if j <= |line| {
        EscapedByParity(line, 0, j);
      }
    }
  }

  // ── skip_quoted ────────────────────────────────────────────────────────────

  /** The quote at `k` closes a string whose text begins at `lo`. */
  predicate ClosesAt(line: string, quote: char, lo: nat, k: nat) {
    lo <= k < |line| && line[k] == quote && Backslashes(line, lo, k) % 2 == 0
  }

  /** `r` is just after the first closing quote from `lo` on, or the end of the line when there is none. */
  ghost predicate IsAfterQuoted(line: string, quote: char, lo: nat, r: nat) {
    || (r > lo && ClosesAt(line, quote, lo, r - 1) && forall k :: lo <= k < r - 1 ==> !ClosesAt(line, quote, lo, k))
    || (r == |line| && forall k :: lo <= k ==> !ClosesAt(line, quote, lo, k))
  }

  /** The place after the closing quote, or the end of the line. */
  function AfterQuoted(line: string, quote: char, i: nat): (r: nat)
    ensures r <= |line| && (i < |line| ==> i < r)
    decreases |line| - i
  {
    if i >= |line| then |line|
    else if line[i] == '\\' then (if i + 2 >= |line| then |line| else AfterQuoted(line, quote, i + 2))
    else if line[i] == quote then i + 1
    else AfterQuoted(line, quote, i + 1)
  }

  /** Skipping pairs of backslash and character finds the first quote after an even run of backslashes. */
  lemma {:induction false} AfterQuotedMeans(line: string, quote: char, lo: nat, i: nat)
    requires quote != '\\' && lo <= i <= |line| && Backslashes(line, lo, i) % 2 == 0
    requires forall k :: lo <= k < i ==> !ClosesAt(line, quote, lo, k)
    ensures IsAfterQuoted(line, quote, lo, AfterQuoted(line, quote, i))
    decreases |line| - i
  {
    if i < |line| && line[i] == '\\' {
      if i + 2 <= |line| {
        AfterQuotedMeans(line, quote, lo, i + 2);
      }
    } else if i < |line| && line[i] != quote {
      AfterQuotedMeans(line, quote, lo, i + 1);
    }
  }

  /** `skip_quoted`: to just after the closing quote of the string that opens at `start`. */
  method SkipQuoted(line: string, start: nat, quote: char) returns (r: nat)
    requires start < |line| && quote != '\\'
    ensures r == AfterQuoted(line, quote, start + 1)
    ensures start < r <= |line|
    ensures IsAfterQuoted(line, quote, start + 1, r)
  {
    AfterQuotedMeans(line, quote, start + 1, start + 1);
    var index := start + 1;
    while index < |line|
      invariant start < index
      invariant AfterQuoted(line, quote, start + 1) == AfterQuoted(line, quote, index)
      decreases |line| - index
    {
      if line[index] == '\\' {
        index := index + 2;
      } else if line[index] == quote {
        return index + 1;
      } else {
        index := index + 1;
      }
    }
    return |line|;
  }

  // ── Raw strings ────────────────────────────────────────────────────────────

  predicate IsDelimiter(c: char) {
    c !in [' ', '(', ')', '\\', '\t', '\r', '\n']
  }

  function DelimiterRun(line: string, i: nat): (n: nat)
    requires i <= |line|
    ensures i + n <= |line|
    decreases |line| - i
  {
    if i < |line| && IsDelimiter(line[i]) then 1 + DelimiterRun(line, i + 1) else 0
  }

  function HashRun(line: string, i: nat): (n: nat)
    requires i <= |line|
    ensures i + n <= |line|
    decreases |line| - i
  {
    if i < |line| && line[i] == '#' then 1 + HashRun(line, i + 1) else 0
  }

  lemma DelimiterRunMeans(line: string, i: nat)
    requires i <= |line|
    ensures var n := DelimiterRun(line, i);
            (forall k :: i <= k < i + n ==> IsDelimiter(line[k])) && (i + n < |line| ==> !IsDelimiter(line[i + n]))
    decreases |line| - i
  {
  }

  lemma HashRunMeans(line: string, i: nat)
    requires i <= |line|
    ensures var n := HashRun(line, i);
            (forall k :: i <= k < i + n ==> line[k] == '#') && (i + n < |line| ==> line[i + n] != '#')
    decreases |line| - i
  {
  }

  const CXX_PREFIXES: set<string> := {"u8R\"", "uR\"", "UR\"", "LR\"", "R\""}
  const RUST_PREFIXES: set<string> := {"br", "r"}

  /** Where the text before a C++ raw string's delimiter ends: one of the five prefixes. */
  function CxxPrefix(line: string, i: nat): Option<string> {
    if StartsWith(line, "u8R\"", i) then Some("u8R\"")
    else if StartsWith(line, "uR\"", i) then Some("uR\"")
    else if StartsWith(line, "UR\"", i) then Some("UR\"")
    else if StartsWith(line, "LR\"", i) then Some("LR\"")
    else if StartsWith(line, "R\"", i) then Some("R\"")
    else None
  }

  /** A raw string's start: where its text begins, and its delimiter or hashes. */
  datatype RawStart = RawStart(after: nat, mark: string)

  function CxxRaw(line: string, i: nat): Option<RawStart> {
    var prefix := CxxPrefix(line, i);
    if prefix.None? then None
    else
      var d := i + |prefix.value|;
      var n := DelimiterRun(line, d);
      if n <= 16 && d + n < |line| && line[d + n] == '(' then Some(RawStart(d + n + 1, line[d..d + n])) else None
  }

  function RustRaw(line: string, i: nat): Option<RawStart> {
    var p := if StartsWith(line, "br", i) then 2 else if StartsWith(line, "r", i) then 1 else 0;
    if p == 0 then None
    else
      var h := i + p;
      var n := HashRun(line, h);
      if n <= 255 && h + n < |line| && line[h + n] == '"' then Some(RawStart(h + n + 1, line[h..h + n])) else None
  }

  /** `line[i..after]` is in the language of the C++ raw-string pattern, with `mark` its group. */
  ghost predicate MatchesCxx(line: string, i: nat, raw: RawStart) {
    exists prefix :: prefix in CXX_PREFIXES && CxxSpelled(line, i, raw, prefix)
  }

  ghost predicate CxxSpelled(line: string, i: nat, raw: RawStart, prefix: string) {
    && |raw.mark| <= 16
    && (forall k :: 0 <= k < |raw.mark| ==> raw.mark[k] !in " ()\\\t\r\n")
    && i <= raw.after <= |line|
    && line[i..raw.after] == prefix + raw.mark + "("
  }

  ghost predicate MatchesRust(line: string, i: nat, raw: RawStart) {
    exists prefix :: prefix in RUST_PREFIXES && RustSpelled(line, i, raw, prefix)
  }

  ghost predicate RustSpelled(line: string, i: nat, raw: RawStart, prefix: string) {
    && |raw.mark| <= 255
    && (forall k :: 0 <= k < |raw.mark| ==> raw.mark[k] == '#')
    && i <= raw.after <= |line|
    && line[i..raw.after] == prefix + raw.mark + "\""
  }

  /** Pieces of a slice that is known to be a concatenation. */
  lemma SpelledParts(line: string, i: nat, after: nat, prefix: string, mark: string, last: char)
    requires i <= after <= |line| && line[i..after] == prefix + mark + [last]
    ensures var d := i + |prefix|;
            && after == d + |mark| + 1
            && line[i..d] == prefix
            && line[d..d + |mark|] == mark
            && line[d + |mark|] == last
    ensures forall k :: i + |prefix| <= k < i + |prefix| + |mark| ==> line[k] == mark[k - (i + |prefix|)]
    ensures forall k :: 0 <= k < |prefix| ==> line[i + k] == prefix[k]
  {
    var whole := prefix + mark + [last];
    assert |line[i..after]| == |whole|;
    forall k | i + |prefix| <= k < i + |prefix| + |mark| ensures line[k] == mark[k - (i + |prefix|)] {
      assert line[i..after][k - i] == whole[k - i];
    }
    forall k | 0 <= k < |prefix| ensures line[i + k] == prefix[k] {
      assert line[i..after][k] == whole[k];
    }
    assert line[i..after][|prefix| + |mark|] == last;
  }

  lemma SpelledWhole(line: string, i: nat, prefix: string, n: nat)
    requires StartsWith(line, prefix, i) && i + |prefix| + n < |line|
    ensures var d := i + |prefix|; line[i..d + n + 1] == prefix + line[d..d + n] + [line[d + n]]
  {
  }

  lemma {:induction false} RunIsDelimiter(line: string, d: nat, n: nat)
    requires d + n < |line| && !IsDelimiter(line[d + n]) && forall k :: d <= k < d + n ==> IsDelimiter(line[k])
    ensures DelimiterRun(line, d) == n
  {
    DelimiterRunMeans(line, d);
  }

  lemma {:induction false} RunIsHashes(line: string, h: nat, n: nat)
    requires h + n < |line| && line[h + n] != '#' && forall k :: h <= k < h + n ==> line[k] == '#'
    ensures HashRun(line, h) == n
  {
    HashRunMeans(line, h);
  }

  lemma CxxPrefixUnique(line: string, i: nat, prefix: string)
    requires prefix in CXX_PREFIXES && StartsWith(line, prefix, i)
    ensures CxxPrefix(line, i) == Some(prefix)
  {
    forall p | p in CXX_PREFIXES && StartsWith(line, p, i) ensures p[0] == line[i] && p[1] == line[i + 1] {
      assert line[i..i + |p|][0] == line[i] && line[i..i + |p|][1] == line[i + 1];
    }
  }

  lemma CxxPrefixMeans(line: string, i: nat)
    ensures CxxPrefix(line, i).Some? ==>
              CxxPrefix(line, i).value in CXX_PREFIXES && StartsWith(line, CxxPrefix(line, i).value, i)
  {
  }

  lemma CxxSpelling(line: string, i: nat, prefix: string, n: nat)
    requires StartsWith(line, prefix, i) && n <= 16
    requires i + |prefix| + n < |line| && n == DelimiterRun(line, i + |prefix|) && line[i + |prefix| + n] == '('
    ensures var d := i + |prefix|; CxxSpelled(line, i, RawStart(d + n + 1, line[d..d + n]), prefix)
  {
    DelimiterRunMeans(line, i + |prefix|);
    SpelledWhole(line, i, prefix, n);
  }

  lemma CxxRawSound(line: string, i: nat) returns (prefix: string)
    ensures CxxRaw(line, i).Some? ==> prefix in CXX_PREFIXES && CxxSpelled(line, i, CxxRaw(line, i).value, prefix)
  {
    prefix := "";
    CxxPrefixMeans(line, i);
    if CxxRaw(line, i).Some? {
      prefix := CxxPrefix(line, i).value;
      CxxSpelling(line, i, prefix, DelimiterRun(line, i + |prefix|));
    }
  }

  lemma CxxRawComplete(line: string, i: nat, raw: RawStart, prefix: string)
    requires prefix in CXX_PREFIXES && CxxSpelled(line, i, raw, prefix)
    ensures CxxRaw(line, i) == Some(raw)
  {
    SpelledParts(line, i, raw.after, prefix, raw.mark, '(');
    CxxPrefixUnique(line, i, prefix);
    RunIsDelimiter(line, i + |prefix|, |raw.mark|);
  }

  /** The prefix, run and bracket tests decide exactly the pattern, and it matches in at most one way. */
  lemma CxxRawExactly(line: string, i: nat, raw: RawStart)
    ensures CxxRaw(line, i) == Some(raw) <==> MatchesCxx(line, i, raw)
  {
    var p := CxxRawSound(line, i);
    if MatchesCxx(line, i, raw) {
      var prefix :| prefix in CXX_PREFIXES && CxxSpelled(line, i, raw, prefix);
      CxxRawComplete(line, i, raw, prefix);
    }
  }

  lemma RustRawSound(line: string, i: nat)
    ensures RustRaw(line, i).Some? ==> MatchesRust(line, i, RustRaw(line, i).value)
  {
    if RustRaw(line, i).Some? {
      var (prefix, raw) := (if StartsWith(line, "br", i) then "br" else "r", RustRaw(line, i).value);
      HashRunMeans(line, i + |prefix|);
      SpelledWhole(line, i, prefix, |raw.mark|);
      assert RustSpelled(line, i, raw, prefix);
    }
  }

  lemma RustRawComplete(line: string, i: nat, raw: RawStart, prefix: string)
    requires prefix in RUST_PREFIXES && RustSpelled(line, i, raw, prefix)
    ensures RustRaw(line, i) == Some(raw)
  {
    SpelledParts(line, i, raw.after, prefix, raw.mark, '"');
    assert prefix == "r" ==> line[i] == 'r' && !StartsWith(line, "br", i) by {
      if StartsWith(line, "br", i) {
        assert line[i..i + 2][0] == line[i] == 'b';
      }
    }
    RunIsHashes(line, i + |prefix|, |raw.mark|);
  }

  lemma RustRawExactly(line: string, i: nat, raw: RawStart)
    ensures RustRaw(line, i) == Some(raw) <==> MatchesRust(line, i, raw)
  {
    RustRawSound(line, i);
    if MatchesRust(line, i, raw) {
      var prefix :| prefix in RUST_PREFIXES && RustSpelled(line, i, raw, prefix);
      RustRawComplete(line, i, raw, prefix);
    }
  }
}
