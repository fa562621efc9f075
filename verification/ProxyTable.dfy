/**
 * The host table: the build-time checks of build.sh (Step 2.5) and the run-time lookup of
 * patches/006-attest-requests.patch.
 */
module ProxyTable {
  import opened Wrappers
  import Text

  /** A proxy: its name and its normalized domains. */
  datatype Entry = Entry(name: string, domains: seq<string>)

  predicate EndsWith(s: string, suffix: string) {
    |suffix| <= |s| && s[|s| - |suffix|..] == suffix
  }

  /** `claims`, the build's own rule. */
  predicate Claims(domain: string, host: string) {
    host == domain || EndsWith(host, "." + domain)
  }

  /** `ProxyHostMatch`, the browser's rule. */
  predicate HostMatch(host: string, pattern: string) {
    || host == pattern
    || (|host| > |pattern| + 1 && host[|host| - |pattern| - 1] == '.' && host[|host| - |pattern|..] == pattern)
  }

  lemma DotSuffix(host: string, domain: string)
    ensures EndsWith(host, "." + domain)
       <==> |host| >= |domain| + 1 && host[|host| - |domain| - 1] == '.' && host[|host| - |domain|..] == domain
  {
    if |host| >= |domain| + 1 {
      var tail := host[|host| - |domain| - 1..];
      assert tail == [tail[0]] + host[|host| - |domain|..];
    }
  }

  /** The two rules differ on one host only: the domain with a dot before it. */
  lemma RulesAgreeExactly(domain: string, host: string)
    ensures HostMatch(host, domain) <==> Claims(domain, host) && host != "." + domain
  {
    DotSuffix(host, domain);
    if |host| == |domain| + 1 && EndsWith(host, "." + domain) {
      assert host[|host| - |domain| - 1..] == host;
    }
  }

  /** Domains that match one host form a chain: the shorter one claims the longer. */
  lemma Chain(host: string, d: string, e: string)
    requires HostMatch(host, d) && HostMatch(host, e) && |d| <= |e|
    ensures Claims(d, e)
  {
    DotSuffix(e, d);
    if |d| < |e| {
      var at := |host| - |e|;
      assert e == host[at..];
      assert e[|e| - |d|..] == host[|host| - |d|..];
      assert e[|e| - |d| - 1] == host[|host| - |d| - 1];
    } else {
      assert d == e;
    }
  }

  // ── First match ────────────────────────────────────────────────────────────

  predicate MatchesAny(host: string, domains: seq<string>) {
    exists k :: 0 <= k < |domains| && HostMatch(host, domains[k])
  }

  /** `i` is what the lookup answers: the first entry with a matching domain, or none. */
  ghost predicate IsFirst(table: seq<Entry>, host: string, r: Option<nat>) {
    match r
    case None => forall j :: 0 <= j < |table| ==> !MatchesAny(host, table[j].domains)
    case Some(i) => i < |table| && MatchesAny(host, table[i].domains) && forall j :: 0 <= j < i ==>
      !MatchesAny(host, table[j].domains)
  }

  function Lookup(table: seq<Entry>, host: string, from: nat := 0): (r: Option<nat>)
    requires from <= |table|
    requires forall j :: 0 <= j < from ==> !MatchesAny(host, table[j].domains)
    ensures IsFirst(table, host, r)
    decreases |table| - from
  {
    if from == |table| then None
    else if MatchesAny(host, table[from].domains) then Some(from)
    else Lookup(table, host, from + 1)
  }

  /** `FindProxyForHost`: the nested loops; -1 when no proxy claims the host. */
  method FindProxyForHost(table: seq<Entry>, host: string) returns (index: int)
    ensures index == match Lookup(table, host) case Some(i) => i as int case None => -1
    ensures IsFirst(table, host, if index < 0 then None else Some(index))
  {
    ghost var answer := Lookup(table, host);
    for i := 0 to |table|
      invariant forall j :: 0 <= j < i ==> !MatchesAny(host, table[j].domains)
    {
      var domains := table[i].domains;
      for k := 0 to |domains|
        invariant forall m :: 0 <= m < k ==> !HostMatch(host, domains[m])
      {
        if HostMatch(host, domains[k]) {
          assert MatchesAny(host, table[i].domains);
          return i;
        }
      }
    }
    return -1;
  }

  // ── Shadow warnings ────────────────────────────────────────────────────────

  /** "`winner` claims `cover`, which already covers `domain` from `loser`": entries by their place. */
  datatype Warning = Warning(winner: nat, cover: string, domain: string, loser: nat)

  /** The domains of a list that claim `domain`, in order. */
  function Claiming(domains: seq<string>, domain: string): seq<string> {
    if domains == [] then []
    else (if Claims(domains[0], domain) then [domains[0]] else []) + Claiming(domains[1..], domain)
  }

  lemma {:induction false} ClaimingMeans(domains: seq<string>, domain: string)
    ensures forall d :: d in Claiming(domains, domain) <==> d in domains && Claims(d, domain)
  {
    if domains != [] {
      ClaimingMeans(domains[1..], domain);
      assert domains == [domains[0]] + domains[1..];
    }
  }

  /** The warning about a domain of entry `i` against entry `j`, if any: it names the first claiming domain. */
  type Warner = (nat, nat, string) -> seq<Warning>

  function WarnerOf(table: seq<Entry>): Warner {
    (i: nat, j: nat, domain: string) =>
      if j < |table| && Claiming(table[j].domains, domain) != []
        then [Warning(j, Claiming(table[j].domains, domain)[0], domain, i)] else []
  }

  /** The warnings about each domain of entry `i` against entry `j`. */
  function DomainWarnings(table: seq<Entry>, warn: Warner, i: nat, j: nat): nat -> seq<Warning>
    requires i < |table|
  {
    (k: nat) => if k < |table[i].domains| then warn(i, j, table[i].domains[k]) else []
  }

  /** The warnings about entry `i` against entry `j`, domain by domain. */
  function PairWarnings(table: seq<Entry>, warn: Warner, i: nat, j: nat): seq<Warning>
    requires i < |table|
  {
    Text.Gathered(DomainWarnings(table, warn, i, j), |table[i].domains|)
  }

  function PairsOf(table: seq<Entry>, warn: Warner, i: nat): nat -> seq<Warning>
    requires i < |table|
  {
    (j: nat) => PairWarnings(table, warn, i, j)
  }

  /** The warnings about entry `i` against every entry before it. */
  function EntryWarnings(table: seq<Entry>, warn: Warner, i: nat): seq<Warning>
    requires i < |table|
  {
    Text.Gathered(PairsOf(table, warn, i), i)
  }

  function EntriesOf(table: seq<Entry>, warn: Warner): nat -> seq<Warning> {
    (i: nat) => if i < |table| then EntryWarnings(table, warn, i) else []
  }

  /** The warnings about all entries, in the order of the loops. */
  function Warnings(table: seq<Entry>, warn: Warner): seq<Warning> {
    Text.Gathered(EntriesOf(table, warn), |table|)
  }

  /** The inner loops: one entry's domains against one entry before it. */
  method WarnPair(table: seq<Entry>, i: nat, j: nat) returns (warnings: seq<Warning>)
    requires j < i < |table|
    ensures warnings == PairWarnings(table, WarnerOf(table), i, j)
  {
    warnings := [];
    var domains := table[i].domains;
    for k := 0 to |domains|
      invariant warnings == Text.Gathered(DomainWarnings(table, WarnerOf(table), i, j), k)
    {
      var shadowing := CollectClaiming(table[j].domains, domains[k]);
      if shadowing != [] {
        warnings := warnings + [Warning(j, shadowing[0], domains[k], i)];
      }
    }
  }

  /** The list comprehension of the source. */
  method CollectClaiming(domains: seq<string>, domain: string) returns (shadowing: seq<string>)
    ensures shadowing == Claiming(domains, domain)
  {
    shadowing := [];
    assert domains[0..] == domains;
    for k := 0 to |domains|
      invariant Claiming(domains, domain) == shadowing + Claiming(domains[k..], domain)
    {
      assert domains[k..][1..] == domains[k + 1..];
      if Claims(domains[k], domain) {
        shadowing := shadowing + [domains[k]];
      }
    }
    assert shadowing + [] == shadowing;
  }

  /** The middle loop: one entry against every entry before it. */
  method WarnEntry(table: seq<Entry>, i: nat) returns (warnings: seq<Warning>)
    requires i < |table|
    ensures warnings == EntryWarnings(table, WarnerOf(table), i)
  {
    warnings := [];
    ghost var pairs := PairsOf(table, WarnerOf(table), i);
    for j := 0 to i
      invariant warnings == Text.Gathered(pairs, j)
    {
      var pair := WarnPair(table, i, j);
      warnings := warnings + pair;
    }
  }

  /** The shadowing pass: every entry against every entry before it. */
  method Warn(table: seq<Entry>) returns (warnings: seq<Warning>)
    ensures warnings == Warnings(table, WarnerOf(table))
  {
    warnings := [];
    ghost var entries := EntriesOf(table, WarnerOf(table));
    for i := 0 to |table|
      invariant warnings == Text.Gathered(entries, i)
    {
      var entry := WarnEntry(table, i);
      warnings := warnings + entry;
    }
  }

  /** "The winner claims the cover, which already covers the domain", and the cover is the first such. */
  predicate Covers(table: seq<Entry>, w: Warning) {
    && w.winner < |table|
    && var claiming := Claiming(table[w.winner].domains, w.domain);
       claiming != [] && claiming[0] == w.cover
  }

  ghost predicate IsWarning(table: seq<Entry>, w: Warning) {
    w.winner < w.loser < |table| && w.domain in table[w.loser].domains && Covers(table, w)
  }

  /** The warner gives `w` for its own entries and domain only, and only if `covers`. */
  ghost predicate GivesOnly(warn: Warner, w: Warning, covers: bool) {
    forall i: nat, j: nat, domain :: w in warn(i, j, domain) <==>
      covers && i == w.loser && j == w.winner && domain == w.domain
  }

  lemma WarnerGives(table: seq<Entry>, w: Warning)
    ensures GivesOnly(WarnerOf(table), w, Covers(table, w))
  {
  }

  lemma PairWarningsMean(table: seq<Entry>, warn: Warner, i: nat, j: nat, w: Warning, covers: bool)
    requires i < |table| && GivesOnly(warn, w, covers)
    ensures w in PairWarnings(table, warn, i, j) <==>
              covers && i == w.loser && j == w.winner && w.domain in table[i].domains
  {
    var domains := table[i].domains;
    Text.InGathered(DomainWarnings(table, warn, i, j), |domains|, w);
    if covers && i == w.loser && j == w.winner && w.domain in domains {
      var k: nat :| k < |domains| && domains[k] == w.domain;
      assert w in DomainWarnings(table, warn, i, j)(k);
    }
  }

  lemma EntryWarningsMean(table: seq<Entry>, warn: Warner, i: nat, w: Warning, covers: bool)
    requires i < |table| && GivesOnly(warn, w, covers)
    ensures w in EntryWarnings(table, warn, i) <==>
              covers && i == w.loser && w.winner < i && w.domain in table[i].domains
  {
    var pairs := PairsOf(table, warn, i);
    Text.InGathered(pairs, i, w);
    forall j: nat ensures w in pairs(j) <==> covers && i == w.loser && j == w.winner && w.domain in table[i].domains {
      PairWarningsMean(table, warn, i, j, w, covers);
    }
    assert w in pairs(w.winner) <==> covers && i == w.loser && w.domain in table[i].domains;
  }

  lemma WarningsMean(table: seq<Entry>, warn: Warner, w: Warning, covers: bool)
    requires GivesOnly(warn, w, covers)
    ensures w in Warnings(table, warn) <==> covers && w.winner < w.loser < |table| && w.domain in table[w.loser].domains
  {
    var entries := EntriesOf(table, warn);
    Text.InGathered(entries, |table|, w);
    forall i: nat | i < |table|
      ensures w in entries(i) <==> covers && i == w.loser && w.winner < i && w.domain in table[i].domains
    {
      EntryWarningsMean(table, warn, i, w, covers);
    }
    assert w.loser < |table| ==>
             (w in entries(w.loser) <==> covers && w.winner < w.loser && w.domain in table[w.loser].domains);
  }

  /** A warning is printed exactly for an entry's domain that an entry before it claims, naming the first that does. */
  lemma WarningsExactly(table: seq<Entry>, w: Warning)
    ensures w in Warnings(table, WarnerOf(table)) <==> IsWarning(table, w)
  {
    WarnerGives(table, w);
    WarningsMean(table, WarnerOf(table), w, Covers(table, w));
  }

  // ── What the warnings mean ─────────────────────────────────────────────────

  /** No domain is empty or starts with a dot: what the hostname pattern makes sure of. */
  predicate Wellformed(table: seq<Entry>) {
    forall i, k :: 0 <= i < |table| && 0 <= k < |table[i].domains| ==> NoLeadingDot(table[i].domains[k])
  }

  predicate NoLeadingDot(domain: string) {
    domain != [] && domain[0] != '.'
  }

  /** Some domain that an entry lists is claimed by an entry before it. */
  ghost predicate Shadowed(table: seq<Entry>) {
    exists w :: IsWarning(table, w)
  }

  lemma ClaimedIsMatched(table: seq<Entry>, i: nat, k: nat, d: string)
    requires Wellformed(table) && i < |table| && k < |table[i].domains|
    ensures HostMatch(table[i].domains[k], d) <==> Claims(d, table[i].domains[k])
  {
    assert NoLeadingDot(table[i].domains[k]);
    RulesAgreeExactly(d, table[i].domains[k]);
  }

  /** An entry before `i` matches the domain exactly when there is a warning that says so. */
  lemma MatchIsWarning(table: seq<Entry>, i: nat, k: nat, j: nat)
    requires Wellformed(table) && j < i < |table| && k < |table[i].domains|
    ensures MatchesAny(table[i].domains[k], table[j].domains)
       <==> exists cover :: IsWarning(table, Warning(j, cover, table[i].domains[k], i))
  {
    var (host, domains) := (table[i].domains[k], table[j].domains);
    var claiming := Claiming(domains, host);
    ClaimingMeans(domains, host);
    if MatchesAny(host, domains) {
      var m :| 0 <= m < |domains| && HostMatch(host, domains[m]);
      ClaimedIsMatched(table, i, k, domains[m]);
      assert domains[m] in claiming;
      assert IsWarning(table, Warning(j, claiming[0], host, i));
    }
    if cover :| IsWarning(table, Warning(j, cover, host, i)) {
      assert cover in claiming;
      var m :| 0 <= m < |domains| && domains[m] == cover;
      ClaimedIsMatched(table, i, k, cover);
    }
  }

  /** Every warning names a host that the losing entry never gets: an entry no later than the winner takes it. */
  lemma WarnedHostIsTaken(table: seq<Entry>, w: Warning)
    requires Wellformed(table) && IsWarning(table, w)
    ensures Lookup(table, w.domain).Some? && Lookup(table, w.domain).value <= w.winner < w.loser
  {
    var k :| 0 <= k < |table[w.loser].domains| && table[w.loser].domains[k] == w.domain;
    MatchIsWarning(table, w.loser, k, w.winner);
    assert MatchesAny(w.domain, table[w.winner].domains);
  }

  /** "`winner` wins" is true of the host exactly when no warning names an earlier winner for it. */
  lemma WinnerNamedRightly(table: seq<Entry>, w: Warning)
    requires Wellformed(table) && IsWarning(table, w)
    ensures Lookup(table, w.domain) == Some(w.winner)
       <==> forall v :: IsWarning(table, v) && v.loser == w.loser && v.domain == w.domain ==> w.winner <= v.winner
  {
    WarnedHostIsTaken(table, w);
    var k :| 0 <= k < |table[w.loser].domains| && table[w.loser].domains[k] == w.domain;
    var first := Lookup(table, w.domain).value;
    MatchIsWarning(table, w.loser, k, first);
    var cover :| IsWarning(table, Warning(first, cover, w.domain, w.loser));
    forall v | IsWarning(table, v) && v.loser == w.loser && v.domain == w.domain ensures first <= v.winner {
      WarnedHostIsTaken(table, v);
    }
  }

  /** The message is not always true: with three nested domains the second "wins" is wrong. */
  lemma MiddleDoesNotWin()
    ensures var table := [Entry("a", ["com"]), Entry("b", ["example.com"]), Entry("c", ["app.example.com"])];
            var w := Warning(1, "example.com", "app.example.com", 2);
            Wellformed(table) && IsWarning(table, w) && Lookup(table, w.domain) == Some(0)
  {
    var table := [Entry("a", ["com"]), Entry("b", ["example.com"]), Entry("c", ["app.example.com"])];
    var host := "app.example.com";
    assert host[|host| - 12..] == ".example.com" == "." + "example.com";
    assert host[|host| - 3..] == "com";
    assert Claims(table[1].domains[0], host);
    assert HostMatch(host, table[0].domains[0]);
    assert MatchesAny(host, table[0].domains);
    assert "app.example.com" in table[2].domains;
    assert table[1].domains[1..] == [];
    assert Claiming(table[1].domains, host) == ["example.com"];
  }

  /** Without warnings every listed domain goes to the entry that lists it, and only then. */
  lemma NoWarningExactly(table: seq<Entry>)
    requires Wellformed(table)
    ensures !Shadowed(table)
       <==> forall i, k :: 0 <= i < |table| && 0 <= k < |table[i].domains| ==>
         Lookup(table, table[i].domains[k]) == Some(i)
  {
    if !Shadowed(table) {
      forall i, k | 0 <= i < |table| && 0 <= k < |table[i].domains|
        ensures Lookup(table, table[i].domains[k]) == Some(i)
      {
        assert HostMatch(table[i].domains[k], table[i].domains[k]);
        forall j | 0 <= j < i ensures !MatchesAny(table[i].domains[k], table[j].domains) {
          MatchIsWarning(table, i, k, j);
        }
      }
    } else {
      var w :| IsWarning(table, w);
      WarnedHostIsTaken(table, w);
      var k :| 0 <= k < |table[w.loser].domains| && table[w.loser].domains[k] == w.domain;
      assert Lookup(table, table[w.loser].domains[k]) != Some(w.loser);
    }
  }

  /** The entry lists a domain that matches the host and is as long as any that does. */
  ghost predicate OwnsLongest(table: seq<Entry>, host: string, i: nat)
    requires i < |table|
  {
    exists k :: 0 <= k < |table[i].domains| && IsLongest(table, host, table[i].domains[k])
  }

  ghost predicate IsLongest(table: seq<Entry>, host: string, d: string) {
    && HostMatch(host, d)
    && forall j, m :: 0 <= j < |table| && 0 <= m < |table[j].domains| && HostMatch(host, table[j].domains[m]) ==>
         |table[j].domains[m]| <= |d|
  }

  /** The host goes to an entry that owns the longest matching domain, when any matches. */
  ghost predicate LongestWins(table: seq<Entry>, host: string) {
    var first := Lookup(table, host);
    first.Some? ==> OwnsLongest(table, host, first.value)
  }

  /** Some matching domain is longest. */
  lemma {:induction false} LongestExists(table: seq<Entry>, host: string, i: nat, k: nat, bound: nat)
    returns (j: nat, m: nat)
    requires i < |table| && k < |table[i].domains| && HostMatch(host, table[i].domains[k])
    requires bound == |host| - |table[i].domains[k]|
    ensures j < |table| && m < |table[j].domains| && IsLongest(table, host, table[j].domains[m])
    decreases bound
  {
    if IsLongest(table, host, table[i].domains[k]) {
      return i, k;
    }
    var j', m' :| 0 <= j' < |table| && 0 <= m' < |table[j'].domains| && HostMatch(host, table[j'].domains[m'])
                  && |table[j'].domains[m']| > |table[i].domains[k]|;
    j, m := LongestExists(table, host, j', m', |host| - |table[j'].domains[m']|);
  }

  /** Every listed domain goes to an entry that lists that very domain. */
  ghost predicate DomainsKept(table: seq<Entry>) {
    forall i, k :: 0 <= i < |table| && 0 <= k < |table[i].domains| ==>
      var first := Lookup(table, table[i].domains[k]);
      first.Some? && table[i].domains[k] in table[first.value].domains
  }

  /** The host's first match and its longest domain's first match are one entry, if that entry lists the domain. */
  lemma SameFirst(table: seq<Entry>, host: string, i: nat, j: nat, m: nat, owner: nat)
    requires Wellformed(table) && Lookup(table, host) == Some(i)
    requires j < |table| && m < |table[j].domains| && IsLongest(table, host, table[j].domains[m])
    requires Lookup(table, table[j].domains[m]) == Some(owner) && table[j].domains[m] in table[owner].domains
    ensures owner == i
  {
    var e := table[j].domains[m];
    // The owner of the longest domain matches the host, so it is not before the first match.
    var o :| 0 <= o < |table[owner].domains| && table[owner].domains[o] == e;
    assert MatchesAny(host, table[owner].domains);
    // The first match's own domain claims the longest one, so the owner is not after it.
    var k :| 0 <= k < |table[i].domains| && HostMatch(host, table[i].domains[k]);
    Chain(host, table[i].domains[k], e);
    ClaimedIsMatched(table, j, m, table[i].domains[k]);
    assert MatchesAny(e, table[i].domains);
  }

  lemma LongestListed(table: seq<Entry>, host: string, i: nat, e: string)
    requires i < |table| && IsLongest(table, host, e) && e in table[i].domains
    ensures OwnsLongest(table, host, i)
  {
  }

  lemma LongestOfMatch(table: seq<Entry>, host: string, i: nat) returns (j: nat, m: nat)
    requires i < |table| && MatchesAny(host, table[i].domains)
    ensures j < |table| && m < |table[j].domains| && IsLongest(table, host, table[j].domains[m])
  {
    var k :| 0 <= k < |table[i].domains| && HostMatch(host, table[i].domains[k]);
    j, m := LongestExists(table, host, i, k, |host| - |table[i].domains[k]|);
  }

  lemma KeptGivesLongest(table: seq<Entry>, host: string)
    requires Wellformed(table) && DomainsKept(table)
    ensures LongestWins(table, host)
  {
    var first := Lookup(table, host);
    if first.Some? {
      var j, m := LongestOfMatch(table, host, first.value);
      var owner := Lookup(table, table[j].domains[m]);
      assert owner.Some? && table[j].domains[m] in table[owner.value].domains;
      SameFirst(table, host, first.value, j, m, owner.value);
      LongestListed(table, host, first.value, table[j].domains[m]);
    }
  }

  /** The lookup is by longest match, for every host, exactly when every listed domain is kept. */
  lemma LongestMatchExactly(table: seq<Entry>)
    requires Wellformed(table)
    ensures (forall host :: LongestWins(table, host)) <==> DomainsKept(table)
  {
    if DomainsKept(table) {
      forall host ensures LongestWins(table, host) {
        KeptGivesLongest(table, host);
      }
    }
    if forall host :: LongestWins(table, host) {
      forall i, k | 0 <= i < |table| && 0 <= k < |table[i].domains|
        ensures var first := Lookup(table, table[i].domains[k]);
                first.Some? && table[i].domains[k] in table[first.value].domains
      {
        var d := table[i].domains[k];
        assert HostMatch(d, d);
        assert MatchesAny(d, table[i].domains);
        assert LongestWins(table, d);
        var first := Lookup(table, d).value;
        var o :| 0 <= o < |table[first].domains| && IsLongest(table, d, table[first].domains[o]);
        assert |table[first].domains[o]| == |d|;
      }
    }
  }

  /** A build without warnings looks every host up by longest match. */
  lemma NoWarningLongestMatch(table: seq<Entry>, host: string)
    requires Wellformed(table) && !Shadowed(table)
    ensures LongestWins(table, host)
  {
    NoWarningExactly(table);
    forall i, k | 0 <= i < |table| && 0 <= k < |table[i].domains|
      ensures var first := Lookup(table, table[i].domains[k]);
              first.Some? && table[i].domains[k] in table[first.value].domains
    {
      assert Lookup(table, table[i].domains[k]) == Some(i);
    }
    KeptGivesLongest(table, host);
  }

  // ── Normalizing the configured domains ─────────────────────────────────────

  predicate IsAlnum(c: char) {
    'a' <= c <= 'z' || '0' <= c <= '9'
  }

  /** One label of a hostname: letters, digits and inner hyphens. */
  predicate IsLabel(s: string) {
    && s != [] && IsAlnum(s[0]) && IsAlnum(s[|s| - 1])
    && forall i :: 0 <= i < |s| ==> IsAlnum(s[i]) || s[i] == '-'
  }

  predicate IsHost(s: string) {
    forall part :: part in Text.Split(s, '.') ==> IsLabel(part)
  }

  /** The pattern as `re.match` decides it: its `$` also matches before a final newline. */
  predicate MatchesHostPattern(s: string) {
    IsHost(s) || (s != [] && s[|s| - 1] == '\n' && IsHost(s[..|s| - 1]))
  }

  /** `str.isspace` and `str.lower`, which are not this build's own. */
  datatype Unicode = Unicode(space: char -> bool, lower: string -> string)

  function Normalized(domain: string, u: Unicode): string {
    Text.StripRight(u.lower(Text.Strip(domain, u.space)), (c: char) => c == '.')
  }

  datatype DomainError = NoDomains | Wildcard | InvalidHostname

  predicate Accepted(domain: string) {
    '*' !in domain && MatchesHostPattern(domain)
  }

  /** The domains of one entry: all normalized, or the first error. */
  method NormalizeDomains(domains: seq<string>, u: Unicode) returns (r: Result<seq<string>, DomainError>)
    ensures r.Ok? ==>
              && |r.value| == |domains| > 0
              && forall k :: 0 <= k < |domains| ==> r.value[k] == Normalized(domains[k], u) && Accepted(r.value[k])
    ensures r.Err? ==>
              || (domains == [] && r.error == NoDomains)
              || exists k :: 0 <= k < |domains| && FirstRefused(domains, u, k, r.error)
  {
    if domains == [] {
      return Err(NoDomains);
    }
    var normalized: seq<string> := [];
    for k := 0 to |domains|
      invariant |normalized| == k
      invariant forall m :: 0 <= m < k ==> normalized[m] == Normalized(domains[m], u) && Accepted(normalized[m])
    {
      var domain := Normalized(domains[k], u);
      if '*' in domain {
        assert FirstRefused(domains, u, k, Wildcard);
        return Err(Wildcard);
      }
      if !MatchesHostPattern(domain) {
        assert FirstRefused(domains, u, k, InvalidHostname);
        return Err(InvalidHostname);
      }
      normalized := normalized + [domain];
    }
    return Ok(normalized);
  }

  /** The first refused domain decides the error; a wildcard is reported as such. */
  ghost predicate FirstRefused(domains: seq<string>, u: Unicode, k: nat, e: DomainError)
    requires k < |domains|
  {
    && (forall m :: 0 <= m < k ==> Accepted(Normalized(domains[m], u)))
    && !Accepted(Normalized(domains[k], u))
    && (e == Wildcard <==> '*' in Normalized(domains[k], u))
    && (e == InvalidHostname <==> '*' !in Normalized(domains[k], u))
  }

  lemma HostStart(s: string)
    requires IsHost(s)
    ensures s != [] && IsAlnum(s[0])
  {
    var parts := Text.Split(s, '.');
    assert parts[0] in parts;
    assert IsLabel(parts[0]);
  }

  /** What an accepted domain may be used for: the lookup's laws apply to every accepted table. */
  lemma AcceptedIsWellformed(table: seq<Entry>)
    requires forall i, k :: 0 <= i < |table| && 0 <= k < |table[i].domains| ==> Accepted(table[i].domains[k])
    ensures Wellformed(table)
  {
    forall i, k | 0 <= i < |table| && 0 <= k < |table[i].domains| ensures NoLeadingDot(table[i].domains[k]) {
      var d := table[i].domains[k];
      assert Accepted(d);
      if IsHost(d) {
        HostStart(d);
      } else {
        HostStart(d[..|d| - 1]);
      }
    }
  }

  lemma {:induction false} NoNewlineInParts(parts: seq<string>)
    requires parts != [] && forall p :: p in parts ==> IsLabel(p)
    ensures '\n' !in Text.Join(parts, '.')
  {
    assert IsLabel(parts[0]);
    if |parts| > 1 {
      NoNewlineInParts(parts[1..]);
    }
  }

  /** An accepted domain is a hostname unless it ends in a newline, and then it matches no real host. */
  lemma AcceptedMeans(domain: string)
    requires Accepted(domain)
    ensures IsHost(domain) <==> '\n' !in domain
    ensures !IsHost(domain) ==> forall host :: '\n' !in host ==> !HostMatch(host, domain)
  {
    if IsHost(domain) {
      Text.JoinSplit(domain, '.');
      NoNewlineInParts(Text.Split(domain, '.'));
    } else {
      assert domain[|domain| - 1] == '\n';
      forall host | HostMatch(host, domain) ensures '\n' in host {
        assert host[|host| - 1] == domain[|domain| - 1];
      }
    }
  }

  lemma {:induction false} StripRightEnd(s: string, drop: char -> bool)
    ensures var r := Text.StripRight(s, drop); r != [] ==> !drop(r[|r| - 1])
  {
    if s != [] && drop(s[|s| - 1]) {
      StripRightEnd(s[..|s| - 1], drop);
    }
  }

  predicate EndsIn(s: string, c: char) {
    s != [] && s[|s| - 1] == c
  }

  /** Lowering puts no newline and no dot at the end of a text that had none there. */
  ghost predicate LowerAddsNoEnd(u: Unicode) {
    forall s, c :: (c == '\n' || c == '.') && EndsIn(u.lower(s), c) ==> EndsIn(s, c)
  }

  /**
   * On the configured text: an accepted entry is a hostname unless a newline is left after it is
   * normalized, and only a trailing dot can leave one there, behind which the strip does not see it.
   */
  lemma AcceptedText(raw: string, u: Unicode)
    requires Accepted(Normalized(raw, u)) && u.space('\n') && LowerAddsNoEnd(u)
    ensures IsHost(Normalized(raw, u)) <==> '\n' !in Normalized(raw, u)
    ensures '\n' in Normalized(raw, u) ==> EndsIn(Text.Strip(raw, u.space), '.')
  {
    var (s, domain) := (Text.Strip(raw, u.space), Normalized(raw, u));
    AcceptedMeans(domain);
    StripRightEnd(Text.StripLeft(raw, u.space), u.space);
    if '\n' in domain {
      assert EndsIn(domain, '\n');
      assert EndsIn(u.lower(s), '\n') || EndsIn(u.lower(s), '.');
    }
  }

  /** The newline gets past the checks when a dot hides it from the strip. */
  lemma NewlineAccepted(u: Unicode)
    requires u.lower("a\n.") == "a\n." && u.space('\n') && !u.space('a') && !u.space('.')
    ensures Normalized("a\n.", u) == "a\n" && Accepted("a\n") && !IsHost("a\n")
  {
    var d := "a\n";
    assert Text.Strip("a\n.", u.space) == "a\n.";
    assert "a\n."[..2] == d;
    assert d[..1] == "a";
    Text.SplitWhole("a", '.');
    assert IsLabel("a");
    Text.SplitWhole(d, '.');
    assert !IsLabel(d) && d in Text.Split(d, '.');
  }

  // ── What normalizing does, and what a hostname is, character by character ──

  lemma {:induction false} StripLeftSplits(s: string, drop: char -> bool) returns (lead: string)
    ensures s == lead + Text.StripLeft(s, drop) && forall c :: c in lead ==> drop(c)
    ensures var t := Text.StripLeft(s, drop); t != [] ==> !drop(t[0])
  {
    lead := [];
    if s != [] && drop(s[0]) {
      var more := StripLeftSplits(s[1..], drop);
      lead := [s[0]] + more;
    }
  }

  lemma {:induction false} StripRightSplits(s: string, drop: char -> bool) returns (tail: string)
    ensures s == Text.StripRight(s, drop) + tail && forall c :: c in tail ==> drop(c)
    ensures var t := Text.StripRight(s, drop); t != [] ==> !drop(t[|t| - 1])
  {
    tail := [];
    if s != [] && drop(s[|s| - 1]) {
      var more := StripRightSplits(s[..|s| - 1], drop);
      tail := more + [s[|s| - 1]];
    }
  }

  /** A configured domain is its text between white space, in lower case, without the dots at its end. */
  lemma NormalizedMeans(raw: string, u: Unicode) returns (lead: string, text: string, tail: string, dots: string)
    ensures raw == lead + text + tail && (forall c :: c in lead + tail ==> u.space(c))
    ensures text != [] ==> !u.space(text[0]) && !u.space(text[|text| - 1])
    ensures u.lower(text) == Normalized(raw, u) + dots && (forall c :: c in dots ==> c == '.')
    ensures !EndsIn(Normalized(raw, u), '.')
  {
    lead := StripLeftSplits(raw, u.space);
    var t := Text.StripLeft(raw, u.space);
    tail := StripRightSplits(t, u.space);
    text := Text.StripRight(t, u.space);
    assert text != [] ==> text[0] == t[0];
    dots := StripRightSplits(u.lower(text), (c: char) => c == '.');
  }

  /** A lower-case letter or a digit of ASCII. */
  predicate IsLetterOrDigit(c: char) {
    97 <= c as int <= 122 || 48 <= c as int <= 57
  }

  /** The text begins and ends with a letter or digit, and so does whatever stands between two dots. */
  predicate IsHostText(s: string) {
    && s != [] && IsLetterOrDigit(s[0]) && IsLetterOrDigit(s[|s| - 1])
    && (forall i :: 0 <= i < |s| ==> IsLetterOrDigit(s[i]) || s[i] == '-' || s[i] == '.')
    && (forall i :: 0 < i < |s| - 1 && s[i] == '.' ==> IsLetterOrDigit(s[i - 1]) && IsLetterOrDigit(s[i + 1]))
  }

  lemma LabelIsText(p: string)
    requires '.' !in p
    ensures IsLabel(p) <==> IsHostText(p)
  {
  }

  lemma TextAtDot(s: string, k: nat)
    requires k < |s| && s[k] == '.'
    ensures IsHostText(s) <==> IsHostText(s[..k]) && IsHostText(s[k + 1..])
  {
    var (p, q) := (s[..k], s[k + 1..]);
    assert forall i :: 0 <= i < |p| ==> p[i] == s[i];
    assert forall i :: 0 <= i < |q| ==> q[i] == s[k + 1 + i];
    if IsHostText(s) {
      assert 0 < k < |s| - 1;
      assert p[|p| - 1] == s[k - 1] && q[0] == s[k + 1] && q[|q| - 1] == s[|s| - 1];
    }
    if IsHostText(p) && IsHostText(q) {
      forall i | 0 <= i < |s| ensures IsLetterOrDigit(s[i]) || s[i] == '-' || s[i] == '.' {
        assert i < k ==> s[i] == p[i];
        assert i > k ==> s[i] == q[i - k - 1];
      }
      forall i | 0 < i < |s| - 1 && s[i] == '.' ensures IsLetterOrDigit(s[i - 1]) && IsLetterOrDigit(s[i + 1]) {
        if i < k {
          assert p[i] == '.' && i != |p| - 1;
          assert p[i - 1] == s[i - 1] && p[i + 1] == s[i + 1];
        } else if i == k {
          assert s[k - 1] == p[|p| - 1] && s[k + 1] == q[0];
        } else {
          var j := i - k - 1;
          assert q[j] == '.' && j != 0;
          assert q[j - 1] == s[i - 1] && q[j + 1] == s[i + 1];
        }
      }
    }
  }

  lemma HostAtDot(p: string, rest: string)
    requires '.' !in p
    ensures IsHost(p + ['.'] + rest) <==> IsLabel(p) && IsHost(rest)
  {
    Text.SplitFirst(p, rest, '.');
    var parts := Text.Split(p + ['.'] + rest, '.');
    assert forall x :: x in parts <==> x == p || x in Text.Split(rest, '.');
  }

  lemma {:induction false} FirstDot(s: string) returns (k: nat)
    requires '.' in s
    ensures k < |s| && s[k] == '.' && '.' !in s[..k]
  {
    k := 0;
    if s[0] != '.' {
      var j := FirstDot(s[1..]);
      k := j + 1;
      assert s[..k] == [s[0]] + s[1..][..j];
    }
  }

  /** The hostname pattern, label by label, takes exactly the texts that this reads character by character. */
  lemma {:induction false} HostExactly(s: string)
    ensures IsHost(s) <==> IsHostText(s)
    decreases |s|
  {
    if '.' in s {
      var k := FirstDot(s);
      assert s == s[..k] + ['.'] + s[k + 1..];
      HostAtDot(s[..k], s[k + 1..]);
      TextAtDot(s, k);
      LabelIsText(s[..k]);
      HostExactly(s[k + 1..]);
    } else {
      Text.SplitWhole(s, '.');
      LabelIsText(s);
    }
  }
}
