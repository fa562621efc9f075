# DenBrowser attestation proxy: a Dafny model

DenBrowser signs every request it sends with a one-time token, and a proxy in front of the
protected service forwards a request only when the token checks out. This project models how the
proxy accepts requests and proves what acceptance guarantees, together with five algorithms around
it: the configuration expander, the audit record and its timestamps, the DNS answer cache, the
host table that picks a proxy, and the text tools of the repository.

`dafny verify dfyconfig.toml` checks everything.

| part | files |
|---|---|
| token windows, replay cache, token checks | `CommitWindow`, `ReplayCache`, `CacheHistory`, `AttestToken` |
| the request filter, sequential and concurrent | `RequestFilter`, `ProxyRun`, `SoloRun` |
| which request is refused, why, and with what status | `ProxyInvariant`, `Refusals`, `RunRefusals` |
| safety of all concurrent runs, and its exact limit | `ReplaySafety`, `ProxyCache`, `ReplaySharp` |
| audit record and timestamps | `Audit`, `AuditTrail`, `Timestamps`, `TimestampReading` |
| machine identity and its DNS cache | `MachineIdentity`, `DnsRuns`, `ResolverRuns` |
| the browser's side | `BrowserToken`, `GenuineRuns`, `ProxyTable` |
| configuration | `EnvExpansion`, `ExpansionLaws`, `ConfigTree`, `ConfigPaths`, `ConfigSchema`, `ConfigSecrets` |
| text tools | `StringTokens`, `CommentLexer`, `CommentLaws`, `LineReading`, `NameStatus`, `Hunks`, `HunkCounts`, `DiffReading`, `LinearStack`, `StackTotals`, `FileHistories`, `DistinguishedName`, `Utf8` |
| shared | `Wrappers`, `Text` |

## How the model is laid out

Code that updates state is a class or a method with loops, proved against a function of the old
state; the properties are lemmas about those functions. `RequestFilter` holds the filter as one
request sees it. `ProxyRun` is the same filter cut at every point where another request may run: an
await, the cache lock, each clock reading. Any number of requests interleave, the wall clock moves
freely in both directions and the monotonic clock only forwards, also between the two readings that
are made under the lock. `SoloRun.RunsAsFilter` connects the two: a request whose steps run
without others between them gets exactly the sequential filter's answer, record and cache.
`ProxyCache` shows that the cache inside any run is what its commits alone leave behind,
`ResolverRuns` lets the DNS cache run beside the proxy, and `GenuineRuns` follows one genuine request
among any others.

What an operation answers is also said a second time, by a reader that shares no step with it:
`Refusals` from conditions on the request alone, `ExpansionLaws` from the text and the variables,
`LineReading` by the place that each character lies in, `TimestampReading` from the digits of the
printed text and the Gregorian calendar in closed form, `DistinguishedName` by a reader of RFC 4514.

Cryptography, base64, certificate checks, the rate limiter, the bypass policy, the resolver and the
clocks are inputs: function values or step parameters that may answer anything.

## Results that differ from the documentation

- **Replay slack.** The comment beside the TTL speaks of 59 seconds between the acceptance span and
  the TTL. The wall clock is read with a clamp: an instant before 1970 reads as second 0. That makes the
  acceptance span longer by however far the clock was before the epoch. A token can never be recorded
  twice exactly when the wall clock's loss against the monotonic clock plus that distance is at most
  59 seconds (`ReplaySharp.ReplayProofExactly`); for every larger pair there is a run that records one
  token twice (`ReplaySharp.ReplayRun`).
- **Sweeping the DNS cache.** Sweeping on insert cannot be noticed exactly when the negative TTL is at
  most the positive TTL plus the grace period (`DnsRuns.SweepInvisibleExactly`). The configuration does
  not check this; the defaults satisfy it. The same condition decides whether a lookup is always answered
  at once while the last answer is younger than the TTL of its sign (`DnsRuns.BeginExactly`); for positive
  answers that needs no condition (`DnsRuns.PositiveAnswers`).
- **Shadow warnings.** The build prints that the earlier proxy "wins" for a shadowed domain. That is true
  exactly when no other warning names an earlier winner for the same domain
  (`ProxyTable.WinnerNamedRightly`); with three nested domains the last message is wrong
  (`ProxyTable.MiddleDoesNotWin`). The losing entry never gets the host in any case.
- **Host pattern.** The pattern's `$` also matches before a final newline, and a trailing dot hides a
  newline from the strip that runs first, so `"a\n."` is accepted as `"a\n"`
  (`ProxyTable.NewlineAccepted`, `ProxyTable.AcceptedText`). Such a domain matches no host
  (`ProxyTable.AcceptedMeans`), and as it is written into a C++ string literal the generated table
  then holds a line break inside the literal.
- **Same rule at build time and at run time.** The two host rules are documented as the same. They differ
  on one host for each domain, the domain with a dot before it (`ProxyTable.RulesAgreeExactly`).
- **IPv6 literals.** The proxy takes the host up to the first colon, so it could never accept a token for an
  IPv6 literal; for every other host it reads what was signed (`BrowserToken.HostSurvivesExactly`,
  `BrowserToken.GenuineRequestForwarded`). The domains of the host table are hostnames, so the browser
  has no reason to sign a request to such a literal.
- **Sections written as arrays.** A struct may be written as an array of its fields. The passphrase is then
  at the path `[proxy][5]`, which the list of secret settings does not hold
  (`ConfigSecrets.SecretsListedExactly`, `ConfigSecrets.PositionalPassphraseNamed`). And the "bug in the
  proxy" error can be reached if the first typed pass ignores elements after the last field and the second
  refuses them (`ConfigSchema.ParseConfig`, `ConfigSchema.ExtraElement`); whether they do is up to the TOML
  library, which is not part of this model. Without such elements it cannot be reached.
- **Net of a patch stack.** The merged totals of the patches and the totals of the final tree need not agree
  on added minus deleted: a file that turns binary counts in the patch that added its text and not in the
  final tree (`StackTotals.TextTurnsBinary`). `StackTotals.StackNetsOutExactly` says exactly when they agree, and
  `FileHistories.SteadyStackExactly` which kinds of files make them agree whatever the files hold.

## Model

| member | source | states |
|---|---|---|
| CommitWindow.UnixNow | proxy/src/attest.rs:89-94 | whole seconds of the wall clock; every instant before 1970 reads as 0 |
| CommitWindow.CheckDrift | proxy/src/attest.rs:99-106 | for all 64-bit pairs the saturating test accepts exactly ts-30 <= now < ts+31, and reports the saturated distance |
| CommitWindow.CheckCommitWindow | proxy/src/attest.rs:116-125 | for all 64-bit pairs accepts exactly ts-30 <= now < ts+91, with the error that fits each side |
| CommitWindow.AcceptanceSpan | proxy/src/attest.rs:17-33 | any two acceptances of one token lie less than 121 s of wall time apart, plus how far the clock was before 1970 |
| ReplayCache.NonceCache.Contains | proxy/src/attest.rs:159-161 | membership in the set of seen nonces |
| ReplayCache.NonceCache.EvictExpired | proxy/src/attest.rs:175-185 | the loop drops exactly the aged-out front of the queue, at most 256 entries, from queue and set |
| ReplayCache.NonceCache.Commit | proxy/src/attest.rs:166-173 | the new cache and the verdict of one commit; a replay adds nothing |
| ReplayCache.EvictKeepsValid | proxy/src/attest.rs:147-151 | eviction keeps the queue distinct, in time order, and equal to the set |
| ReplayCache.CommitKeepsValid | proxy/src/attest.rs:163-173 | so does a commit at any later time, accepted or refused |
| ReplayCache.EvictsExactly | proxy/src/attest.rs:175-185 | a commit evicts at most 256 entries, each at least 180 s old, from the front of the queue; if fewer, no such entry is left |
| CacheHistory.RunFaithful | proxy/src/attest.rs:127-186 | after any sequence of commits, everything ever inserted is what was evicted followed by what is queued, in order; evictions never exceed insertions |
| CacheHistory.NothingForgottenEarly | proxy/src/attest.rs:127-139 | an entry younger than the TTL is still seen |
| CacheHistory.RefinesIdeal | proxy/src/attest.rs:147-186 | what the cache accepts, a cache that forgets exactly at the TTL accepts; a refused commit adds no entry and refreshes no stamp; no entry is lost early |
| CacheHistory.DecidesAsIdeal | proxy/src/attest.rs:38-43 | while the eviction batch is not exhausted the two decide alike |
| CacheHistory.PeakSize | proxy/src/attest.rs:38-43 | the cache is never larger than the largest number of successful commits inside one TTL window |
| AttestToken.Verifier.DecodeDigest | proxy/src/attest.rs:362-371 | the loop over digit pairs decodes the whole field or refuses it |
| AttestToken.Verifier.VerifyHeaders | proxy/src/attest.rs:288-384 | the header checks in the source's order, cache untouched |
| AttestToken.Verifier.CommitNonce | proxy/src/attest.rs:391-403 | replay check, commit window and commit under one lock, and the cache they leave |
| AttestToken.Verifier.VerifyBodyAndCommit | proxy/src/attest.rs:418-429 | a wrong body hash spends nothing; otherwise as the commit |
| AttestToken.CommitVerdictMeans | proxy/src/attest.rs:386-403 | a commit succeeds exactly when the nonce is absent and the token in its window; a present nonce is reported as a replay, in or out of the window; a refused commit leaves the cache, a successful one records nonce and time |
| AttestToken.DecodesExactly | proxy/src/attest.rs:362-371 | a text decodes to given bytes if and only if its pairs of characters spell them: hex digits of either case, or a plus sign and one digit |
| Text.ParsesExactly | proxy/src/attest.rs:290 | a timestamp parses to a number if and only if it is digits behind at most one sign, and the number is in range |
| RequestFilter.DrainMeans | proxy/src/main.rs:387-417 | however a body is cut into chunks, the read loop yields all of it exactly when it ends and has at most 65536 bytes |
| RequestFilter.PreflightMeans | proxy/src/main.rs:229-311 | which requests get past rate limit, bypass, header presence and the machine preflight |
| RequestFilter.CommitPhaseDecides | proxy/src/main.rs:368-429 | which requests the last phase forwards, and that only those spend their nonce |
| RequestFilter.FilterDecides | proxy/src/main.rs:198-430 | a request is forwarded attested exactly when every condition holds, without the order of the checks; exactly then its nonce is recorded, otherwise the cache is as before |
| Refusals.FilterAnswers | proxy/src/main.rs:198-430 | from conditions on request and world alone, in the order in which the first that fails decides: rate, bypass, headers sent and readable, required certificate, timestamp, drift, nonce, replay, token, its request, machine, body size, body end, digest, commit window; each with its recorded reason and status, and forwarded if none fails |
| Refusals.HeadersAnswer | proxy/src/attest.rs:288-384 | which error the header phase gives, from the first of seven conditions on the headers, and otherwise what nonce, time and digest the token says |
| Refusals.FirstFaultMeans | proxy/src/main.rs:198-430 | the first failing rule of a list gives the reason, and there is none if and only if no rule fails |
| Refusals.RunAnswersFit | proxy/src/main.rs:240-425 | in every run an answered request carries the reason its status stands for: 429 if and only if rate limited, 413 body too large, 400 body not read, otherwise 403 |
| RunRefusals.RunRefusesRightly | proxy/src/main.rs:229-429 | in every run a step that answers a request is one of its own, and there and then the condition fails that the recorded reason names: at preflight, on the clock, in the cache, on the machine, in the body, under the lock |
| RunRefusals.LockExcludes | proxy/src/attest.rs:391-403 | while one request holds the lock no other looks into the cache or takes it |
| Refusals.MachineAnswers | proxy/src/machine.rs:422-438 | which machine error is found, from certificate, client address and resolved addresses |
| Refusals.DrainAnswers | proxy/src/main.rs:387-417 | too large, whole or broken, from the length of the whole body and the end of its stream, however it is cut |
| Refusals.HostRead | proxy/src/main.rs:501-505 | the host is the part before the first colon of a readable Host header, and otherwise of the authority |
| Refusals.RiskAsDocumented | proxy/audit/README.md:95-138 | low, medium, critical and high are given to exactly the reasons that the documented table gives them to |
| Refusals.StageAsDocumented | proxy/audit/README.md:109-138 | so are the stages |
| RequestFilter.DenBrowserProxy.ReadBody | proxy/src/main.rs:386-417 | the read loop with its running total |
| RequestFilter.DenBrowserProxy.CheckPreflight | proxy/src/main.rs:198-311 | everything before the token, and what it leaves in the audit state |
| RequestFilter.DenBrowserProxy.CheckIdentity | proxy/src/main.rs:313-366 | the token and machine checks, and what they leave in the audit state |
| RequestFilter.DenBrowserProxy.CheckBodyAndCommit | proxy/src/main.rs:368-429 | body, commit and forward, and what they leave in cache and audit state |
| RequestFilter.DenBrowserProxy.RequestFilter | proxy/src/main.rs:198-430 | the whole filter on its two pieces of mutable state |
| SoloRun.RunsAsFilter | proxy/src/main.rs:198-430 | the step machine run for one request alone, after any earlier run, gives the sequential filter's answer, audit record and cache |
| ProxyInvariant.RunJobs | proxy/src/main.rs:198-430 | in every run every request carries the evidence its position requires: preflight, headers, machine and body checks in turn, the last with the end of the body; an answered one has the status of its reason |
| ReplaySafety.RunKeeps | proxy/src/attest.rs:127-186 | the protocol invariant over clocks, lock, cache, ledger and requests holds in every reachable state |
| ReplaySafety.ReplayNeedsLoss | proxy/src/attest.rs:22-33 | a token recorded twice proves that clock loss and clamp distance together exceeded 59 s |
| ReplaySafety.NoReplay | proxy/src/attest.rs:22-33 | in every run of any number of interleaved requests no nonce and timestamp pair is recorded twice while those together are at most 59 s |
| ReplaySafety.LedgerMatchesForwards | proxy/src/main.rs:368-429 | recorded nonces and attested forwards correspond one to one; a refused request spends nothing, and every recorded one passed headers, machine and body checks |
| ReplaySafety.EveryRecordConsistent | proxy/src/audit.rs:642-719 | at any point of any run, with or without a terminal error, the record a request would write is consistent |
| ProxyCache.RunRecorded | proxy/src/attest.rs:391-403 | in every run of the proxy its cache is the one that the run's commits, taken as attempts on a cache of their own in time order, leave behind, and none of them was refused |
| ProxyCache.PeakSize | proxy/src/attest.rs:38-43 | at no point of any run is the proxy's cache larger than the number of commits inside some one TTL window |
| ProxyCache.RefinesIdeal | proxy/src/attest.rs:127-139 | in every run two commits of one nonce are at least a TTL apart, and a nonce committed less than a TTL ago is present |
| ReplaySharp.ReplayRun | proxy/src/attest.rs:22-33 | for every larger pair of bounds, a run that records one token twice |
| ReplaySharp.ReplayProofExactly | proxy/src/attest.rs:22-33 | replay is impossible if and only if clock loss plus clamp distance is at most 59 s |
| Audit.RecordConsistent | proxy/src/audit.rs:625-719 | success, no reason, risk info and level INFO go together; failed attestation is a reason at an attestation stage; verified is a forward; a refusal keeps its reason; the filter level is the record's |
| AuditTrail.EveryRecordShows | proxy/src/audit.rs:506-554 | in every run a record names its own request: method, host, nonce and time within their limits, the machine verified for it or else the subject of the certificate sent with it, and the kind of binding of a forwarded token |
| AuditTrail.ForwardShowsMachine | proxy/src/audit.rs:528-542 | in every run a forward is recorded with the machine check off, the machine absent, or the machine verified, each if and only if it was so |
| Audit.StartCoherent | proxy/src/audit.rs:476-504 | a new record state is coherent and undecided |
| Audit.MachineStepCoherent | proxy/src/audit.rs:528-542 | machine absence and verification keep it so |
| Audit.RefusalCoherent | proxy/src/audit.rs:556-572 | a refusal leaves a coherent refused state |
| Audit.MachineRefusalCoherent | proxy/src/audit.rs:544-548 | so does a machine refusal |
| Audit.LetThroughCoherent | proxy/src/audit.rs:574-595 | so does a forward after the token, or a bypass before it |
| Audit.RequestAudit.Request | proxy/src/audit.rs:506-510 | bounded method and host, nothing else |
| Audit.RequestAudit.Headers | proxy/src/audit.rs:512-518 | bounded nonce, and the client time when it has a four-digit year |
| Audit.RequestAudit.RejectWith | proxy/src/audit.rs:556-572 | action, reason and attestation status of a refusal |
| Audit.RequestAudit.RejectMachine | proxy/src/audit.rs:544-548 | the same for a machine error |
| Audit.RequestAudit.MachineIsVerified | proxy/src/audit.rs:533-542 | the verified identity, and no certificate left to parse |
| Audit.RequestAudit.TokenIsVerified | proxy/src/audit.rs:550-554 | the token flag and the body binding |
| Audit.RequestAudit.ForwardRequest | proxy/src/audit.rs:574-584 | a forward is verified |
| Audit.RequestAudit.BypassRequest | proxy/src/audit.rs:586-595 | a bypass is bypassed |
| Audit.RequestAudit.MakeRecord | proxy/src/audit.rs:642-719 | the record, and the fields it takes out of the state |
| Audit.Bounded | proxy/src/audit.rs:792-797 | the text itself when it fits, otherwise its first characters, as many as given, and an ellipsis |
| Timestamps.DateIsReal | proxy/src/audit.rs:777-789 | the printed date is a real calendar date, and it is the one that many days after 1970-01-01 |
| Timestamps.StringsSortInTimeOrder | proxy/src/audit.rs:756-760 | from 1970 to the end of 9999 comparing the strings compares the instants at millisecond precision |
| Timestamps.FourDigitYears | proxy/src/audit.rs:762-775 | 253402300799 is exactly the last second with a four-digit year |
| Timestamps.FixedWidth | proxy/src/audit.rs:756-760 | the string has 24 characters exactly up to that second |
| TimestampReading.TimestampNames | proxy/src/audit.rs:756-790 | for every instant from 1970 through 9999 the 24 characters, read digit by digit, are a real date of the Gregorian calendar and a time of day, and name exactly that millisecond |
| TimestampReading.UnixTimestampNames | proxy/src/audit.rs:756-790 | a Unix time is printed if and only if it lies in 0..=253402300799, and then names exactly that second |
| TimestampReading.CalendarClosed | proxy/src/audit.rs:756-790 | the walk over years and months agrees with the calendar in closed form |
| MachineIdentity.Verify | proxy/src/machine.rs:422-438 | accepted exactly when the certificate is, an address is known and the resolver's answer holds it; otherwise no address, the certificate's own error, an unresolvable name or a mismatch, in that order |
| MachineIdentity.DnsCache.LookupFresh | proxy/src/machine.rs:445-458 | a cached answer is returned if and only if it is younger than the TTL of its sign |
| MachineIdentity.DnsCache.LookupStale | proxy/src/machine.rs:465-480 | a cached answer is returned if and only if it is not empty and younger than TTL plus grace |
| MachineIdentity.DnsCache.Store | proxy/src/machine.rs:486-497 | sweep and insert, while the clock moves between the entries |
| DnsRuns.RunMirrors | proxy/src/machine.rs:444-497 | under any interleaving of lookups the swept cache answers as an unswept history of last answers would |
| DnsRuns.SweepInvisibleExactly | proxy/src/machine.rs:484-497 | that holds for every run if and only if the negative TTL is at most TTL plus grace |
| DnsRuns.RunSound | proxy/src/machine.rs:444-497 | every entry is the last stored answer of its host, and every answer given is backed by the last stored one in the way that it was given: at once while younger than the TTL of its sign, as a fallback while younger than TTL plus grace |
| DnsRuns.AcceptedAddressIsBacked | proxy/src/machine.rs:422-482 | every accepted client address is in the answer just returned or in the last stored one, younger than TTL plus grace |
| DnsRuns.BeginExactly | proxy/src/machine.rs:444-463 | a lookup is answered at once, with the last stored answer, if and only if that is younger than the TTL of its sign: in every run, if and only if the negative TTL is at most the TTL plus the grace period |
| DnsRuns.PositiveAnswers | proxy/src/machine.rs:444-463 | whatever the policy, a positive last answer is served at once if and only if it is younger than the TTL |
| DnsRuns.FailedAnswers | proxy/src/machine.rs:465-481 | when the resolver fails the last stored answer is served if and only if it is not empty and younger than TTL plus grace, and nothing otherwise |
| DnsRuns.ResolvedAnswers | proxy/src/machine.rs:460-464 | an answer of the resolver is given to its lookup, and is the last stored one of its host |
| DnsRuns.SweepsExactly | proxy/src/machine.rs:484-497 | after an answer is stored, no other entry was TTL plus grace old when the sweep began, and every last answer younger than that at its end is still there |
| ResolverRuns.RunKeeps | proxy/src/machine.rs:422-482 | with proxy and DNS cache running together, every machine verdict was reached on the answer of the request's own lookup |
| ResolverRuns.ForwardIsBacked | proxy/src/machine.rs:422-482 | every request forwarded after a machine check came from an address in the last answer stored for the name its certificate proves, just given or younger than TTL plus grace |
| BrowserToken.PrintHex | patches/006-attest-requests.patch:438-446 | the loop prints two lowercase digits for each byte |
| BrowserToken.RequestPath | patches/006-attest-requests.patch:534-541 | the signed path is the text before the fragment, or `/` when that is empty |
| BrowserToken.BuildPlaintext | patches/006-attest-requests.patch:567-580 | the appended fields are the seven fields joined by newlines |
| BrowserToken.HexRoundTrip | patches/006-attest-requests.patch:438-446 | the proxy decodes the printed digest to the same bytes |
| BrowserToken.BodyFieldBinding | patches/006-attest-requests.patch:464-484 | the body field is read back as the binding the browser chose |
| BrowserToken.PlaintextBindsRequest | patches/006-attest-requests.patch:567-580 | newline-free fields are accepted for exactly that nonce, time, host, method and path |
| BrowserToken.HostSurvivesExactly | proxy/src/main.rs:492-505 | in a Host header or an HTTP/2 authority, with or without a port, the proxy reads the signed host if and only if it is no IPv6 literal |
| BrowserToken.PathSurvives | proxy/src/main.rs:314-318 | from the request target, with or without its fragment, the proxy reads the signed path |
| BrowserToken.OtherHostRefused | proxy/src/attest.rs:342-360 | a token that was signed for another host than the proxy reads is refused |
| BrowserToken.GenuineHeadersAccepted | proxy/src/attest.rs:288-384 | a genuine token with a fresh nonce inside the window passes the header phase with its binding |
| BrowserToken.GenuineRequestForwarded | proxy/src/main.rs:198-430 | from the browser's own values: a genuine request is forwarded, in either form and however its body is chunked, if and only if its host is no IPv6 literal and its body is unbound or has at most 65536 bytes; the browser's own limit ensures the latter |
| BrowserToken.BoundExactly | patches/006-attest-requests.patch:464-487 | a genuine request that is forwarded carries the digest of its body if and only if it has no upload or one that is cloneable and at most 65536 long, and its record says which |
| GenuineRuns.KindRunForwards | proxy/src/main.rs:198-430 | among any other requests, none of which carries its nonce, a genuine request whose own steps are taken inside the windows is never refused; when it is finished it has been forwarded on a commit of its own nonce |
| GenuineRuns.CanFinish | proxy/src/main.rs:198-430 | from wherever it stands on its way in such a run, steps of its own alone bring it to being forwarded while the windows are open, its machine check would pass and no other request holds the lock |
| GenuineRuns.GenuineInAnyRun | patches/006-attest-requests.patch:567-580 | the same from the browser's own values; and once sent on it is bound to the digest of its body if and only if there is no upload or a cloneable one of at most 65536 |
| ProxyTable.RulesAgreeExactly | patches/006-attest-requests.patch:305-314 | the build's rule and the browser's differ on one host only: a dot and then the domain |
| ProxyTable.Chain | build.sh:279-282 | domains that match one host form a chain |
| ProxyTable.FindProxyForHost | patches/006-attest-requests.patch:319-326 | the nested loops find the first entry with a matching domain, or -1 |
| ProxyTable.CollectClaiming | build.sh:351 | the claiming domains, in order: the filter of the list |
| ProxyTable.WarnPair | build.sh:350-357 | for each listed domain in turn the warning that names the first domain of the earlier entry to claim it, if any |
| ProxyTable.WarnEntry | build.sh:349-357 | those of one entry against the entries before it, one after another |
| ProxyTable.Warn | build.sh:348-357 | those of all entries, one after another |
| ProxyTable.WarningsExactly | build.sh:346-357 | a warning is printed if and only if an entry before claims the listed domain and the warning names the first domain that does |
| ProxyTable.MatchIsWarning | build.sh:346-357 | an earlier entry matches a domain at run time exactly when the build warned about it |
| ProxyTable.WarnedHostIsTaken | build.sh:346-357 | every warning names a host that an entry no later than the named winner takes |
| ProxyTable.WinnerNamedRightly | build.sh:352-357 | the named winner is right exactly when no warning names an earlier one for that domain |
| ProxyTable.MiddleDoesNotWin | build.sh:352-357 | a table whose last warning names the wrong winner |
| ProxyTable.NoWarningExactly | build.sh:346-357 | no warning if and only if every listed domain goes to the entry that lists it |
| ProxyTable.LongestMatchExactly | patches/006-attest-requests.patch:316-326 | first match is longest match for every host if and only if every listed domain goes to an entry that lists it |
| ProxyTable.NoWarningLongestMatch | build.sh:346-357 | without warnings every host goes to the proxy that owns the longest matching domain |
| ProxyTable.NormalizeDomains | build.sh:298-313 | all domains normalized and accepted, or the first refused one and its error |
| ProxyTable.NormalizedMeans | build.sh:305 | a configured domain is its text between white space, lowered, without the dots at its end |
| ProxyTable.HostExactly | build.sh:198 | the hostname pattern takes exactly the non-empty texts of letters, digits, hyphens and dots in which both ends and both neighbours of every dot are letters or digits |
| ProxyTable.AcceptedIsWellformed | build.sh:198 | accepted domains are non-empty and do not start with a dot |
| ProxyTable.AcceptedMeans | build.sh:198 | an accepted domain is a hostname unless it holds a newline, and then it matches no host |
| ProxyTable.AcceptedText | build.sh:305-312 | the same on the configured text: only behind a trailing dot can a newline be left, if lowering puts no newline and no dot at the end of a text |
| ProxyTable.NewlineAccepted | build.sh:305-312 | an input that gets a newline accepted |
| EnvExpansion.ExpandRun | proxy/src/config/env.rs:121-174 | one turn of the loop leaves a shorter text with the same meaning after what it appended |
| EnvExpansion.ExpandStr | proxy/src/config/env.rs:110-179 | the loop computes the meaning of the text's pieces, the first failing piece deciding the error |
| EnvExpansion.OneSegmentation | proxy/src/config/env.rs:8-20 | the pieces are the only segmentation of the text into literals, escapes and references by the documented rules; they depend on the text alone |
| EnvExpansion.EscapeRoundTrip | proxy/src/config/env.rs:13-15 | doubling every run of dollars before a brace is undone by expansion, for every string |
| EnvExpansion.NoReferenceUnchanged | proxy/src/config/env.rs:16-18 | text without `${` is unchanged, whatever other dollars it holds |
| EnvExpansion.ErrorsHideValues | proxy/src/config/env.rs:45-48 | environments whose variables turn out alike give the same error, or both none |
| EnvExpansion.SecretErrors | proxy/src/config/env.rs:45-48 | in a secret setting there are six errors, whatever text and environment hold |
| ExpansionLaws.ReferenceReplaced | proxy/src/config/env.rs:121-174 | a reference behind text without dollars is replaced by the value of its variable before what the rest expands to, if that value has something visible at both ends |
| ExpansionLaws.ReferenceOutcomes | proxy/src/config/env.rs:154-174 | the error of a reference: not set, not Unicode, nothing visible, or padded, each if and only if the variable is so |
| ExpansionLaws.MalformedRefused | proxy/src/config/env.rs:140-153 | an unterminated reference and one with an invalid name give their own errors |
| ExpansionLaws.ExpandsExactly | proxy/src/config/env.rs:110-179 | for every text, expansion succeeds if and only if every reference can be replaced, and then gives the text with each reference replaced by its value and each escape by one dollar; otherwise the first that cannot decides the error |
| ConfigTree.ExpandValue | proxy/src/config/env.rs:79-106 | the new subtree, and the errors below it pushed in order |
| ConfigTree.ExpandItems | proxy/src/config/env.rs:91-95 | the loop over an array |
| ConfigTree.ExpandEntries | proxy/src/config/env.rs:96-100 | the loop over a table |
| ConfigTree.ExpandTree | proxy/src/config/env.rs:61-75 | the whole tree, or every error in traversal order |
| ConfigTree.KeepsShape | proxy/src/config/env.rs:79-106 | structure, keys and every value that is not a string come out as they went in |
| ConfigTree.ReplacesStrings | proxy/src/config/env.rs:79-106 | every string is replaced by its own expansion, at the same path and in the same order |
| ConfigTree.ShapeAndStringsDecide | proxy/src/config/env.rs:79-106 | shape and strings determine a tree, so the two rows above leave no freedom |
| ConfigTree.ReportsExactly | proxy/src/config/env.rs:53-60 | every failing setting is reported exactly once, in traversal order, and nothing else is |
| ConfigTree.ReportsHideValues | proxy/src/config/env.rs:45-48 | over a whole tree, environments whose variables turn out alike give the same reports |
| ConfigTree.SecretReports | proxy/src/config/env.rs:57-60 | a report about a setting at a listed path is one of six |
| ConfigPaths.PathLeads | proxy/src/config/env.rs:61-106 | the path of every string, read from its section through keys and item numbers, leads to that very string |
| ConfigSecrets.SecretsListedExactly | proxy/src/config.rs:122-127 | in every config the types accept, the strings read into a `Secret` are exactly those at a path that `SECRET_SETTINGS` lists, if and only if the passphrase is not written by position |
| ConfigSecrets.SecretFieldReports | proxy/src/config.rs:122-127 | then whatever is reported about a `Secret` is one of six errors, none of which names a variable |
| ConfigSecrets.PositionalPassphraseNamed | proxy/src/config.rs:122-127 | written as the sixth element of a `proxy` array the passphrase is accepted, and its error names the variable |
| ConfigSchema.LenientExactly | proxy/src/config.rs:511-515 | a pass that takes datetimes for text is one that does not, on the tree with its datetimes written as text, for every schema and tree |
| ConfigSchema.OtherPass | proxy/src/config.rs:508-531 | what one pass accepts, a pass no stricter about datetimes accepts if and only if it ignores extra elements too or no struct written as an array has any |
| ConfigSchema.FirstPassIsStricter | proxy/src/config.rs:511-515 | `listen = 1979-05-27` is accepted exactly by a pass that takes datetimes for text |
| ConfigSchema.SecondPassAccepts | proxy/src/config.rs:522-531 | for every schema, tree and environment the second pass accepts what expansion leaves of a tree the first accepted, if and only if it ignores extra elements or there are none |
| ConfigSchema.ParseConfig | proxy/src/config.rs:507-532 | exactly when each outcome occurs: wrong type, expansion errors, the expanded tree, or the "bug in the proxy" error, which takes extra elements that only the first pass ignores |
| ConfigSchema.ExtraElement | proxy/src/config.rs:522-531 | a config with such an element |
| ConfigSchema.ScalarsExactly | proxy/src/config.rs:507-532 | which scalars each type accepts |
| ConfigSchema.TableExactly | proxy/src/config.rs:507-532 | a table is accepted if and only if every entry is read by the field of its name and no required field is left out |
| ConfigSchema.ArrayExactly | proxy/src/config.rs:507-532 | an array is accepted for a struct if and only if each field reads the item in its place, no required field is left out, and there are no extra elements or they are ignored |
| StringTokens.FindStringEnd | scripts/patch-stats.py:383-400 | the least place from the start on where the token stands after an even number of backslashes, or the least place at all when they do not escape, or nothing |
| StringTokens.EndsUnescaped | scripts/patch-stats.py:383-400 | that is the first place of the token where no unescaped backslash stands before it, or the first at all |
| StringTokens.EscapedByParity | scripts/patch-stats.py:371-400 | counting the backslashes before a character and pairing them off come to the same |
| StringTokens.SkipQuoted | scripts/patch-stats.py:371-380 | just after the first quote that follows an even number of backslashes, or the end of the line |
| StringTokens.AfterQuotedMeans | scripts/patch-stats.py:371-380 | skipping backslash and character pairs finds that quote |
| StringTokens.CxxRawExactly | scripts/patch-stats.py:38-40 | the raw-string test decides exactly the C++ pattern, which matches in at most one way |
| StringTokens.RustRawExactly | scripts/patch-stats.py:41 | the same for the Rust pattern |
| CommentLexer.MultilineStart | scripts/patch-stats.py:403-423 | a multi-line string starts after the current character, with a closer, and only in three syntaxes |
| CommentLexer.Step | scripts/patch-stats.py:451-513 | every turn of the scan moves on and stays inside the line |
| CommentLexer.Turn | scripts/patch-stats.py:451-513 | the body of the scan loop |
| CommentLexer.ScanTheLine | scripts/patch-stats.py:448-515 | the scan of a line: its category and what it hands on |
| CommentLexer.ClassifyBlob | scripts/patch-stats.py:426-516 | the categories of all lines |
| CommentLaws.NeverBothOpen | scripts/patch-stats.py:433-434 | after any file a block comment and a multi-line string are never both open, only Rust nests, and each is open only where the syntax has it |
| CommentLaws.BlankExactly | scripts/patch-stats.py:436-440 | a line is blank exactly when it holds white space only, inside comments and strings too |
| CommentLaws.ClassifyConcat | scripts/patch-stats.py:426-516 | later lines are classified from what earlier ones hand on |
| CommentLaws.PrefixOfLines | scripts/patch-stats.py:426-516 | a prefix of the lines has the prefix of the categories |
| CommentLaws.CommentEndsFirst | scripts/patch-stats.py:464-478 | without nesting the end token that comes first ends a comment, at any depth |
| CommentLaws.DepthIsNesting | scripts/patch-stats.py:464-478 | with nesting the depth counter follows a recursive-descent reading of nested comments exactly |
| CommentLaws.LineInsideComments | scripts/patch-stats.py:464-478 | a line entered with any number of comments open resumes code where that reading says they all end |
| LineReading.CategoryByPlace | scripts/patch-stats.py:436-515 | reading every character by the place it lies in, without flags: a line is code if and only if it is plainly code or some character lies in code or a string, and a comment if and only if it is neither that nor blank |
| LineReading.BeginningDecides | scripts/patch-stats.py:448-515 | outside comments and strings, and unless it is a directive, a line that begins with a line comment mark is a comment and one that begins with anything but a comment mark is code, whatever follows |
| LineReading.InsideIsComment | scripts/patch-stats.py:464-478 | a line, not blank, on which the block comments open over it do not all end is a comment, and hands on those still open |
| LineReading.CodeBeforeComment | scripts/patch-stats.py:448-515 | a character other than white space in code or in a string makes its line code, whatever comes before or after |
| LineReading.MultilineExactly | scripts/patch-stats.py:403-423 | which syntaxes open which multi-line strings, and where their text begins |
| LineReading.MarkersByKind | scripts/patch-stats.py:59-88 | the line comment marks of each syntax |
| LineReading.BlocksByKind | scripts/patch-stats.py:59-88 | the block comment marks of each syntax |
| NameStatus.ParseNameStatus | scripts/patch-stats.py:519-543 | the loop over the fields gives the changes or the error of the first malformed record |
| NameStatus.ParseEncode | scripts/patch-stats.py:519-543 | every list of changes with NUL-free fields survives the record format |
| NameStatus.ParseExactly | scripts/patch-stats.py:519-543 | bytes parse to a list of changes exactly when they are its encoding, with or without the last NUL |
| NameStatus.ParseFails | scripts/patch-stats.py:519-543 | bytes that do not parse are whole records and then the beginning of one, and the error says whether that is a rename or copy |
| Hunks.Counts.Record | scripts/patch-stats.py:111-113 | one field goes up by one |
| Hunks.Counts.Merge | scripts/patch-stats.py:115-120 | all six fields add up |
| Hunks.TallyTotals | scripts/patch-stats.py:122-128 | the totals are the numbers of lines: each line has one category |
| Hunks.CountLine | scripts/patch-stats.py:573-595 | the body of the loop at one line of the diff |
| Hunks.ParseHunks | scripts/patch-stats.py:568-596 | the loop counts what the walk over the diff's events meets, or reports where it leaves a file |
| HunkCounts.ParseHeaderBack | scripts/patch-stats.py:37 | the header pattern reads back both positions as git prints them, whatever the suffix |
| HunkCounts.CountsTheScript | scripts/patch-stats.py:568-596 | reading back the zero-context rendering of any edit script counts, field by field, exactly the categories of the deleted and inserted lines; no index check fires; added minus deleted is the change in length |
| HunkCounts.NetByCategory | scripts/patch-stats.py:568-596 | in each category, old lines and counted additions balance new lines and counted deletions, up to the lines that stay and change category |
| DiffReading.HeaderParts | scripts/patch-stats.py:37 | only two numbers with their counts between the marks read as a header, and as those numbers |
| DiffReading.WalkFails | scripts/patch-stats.py:584-592 | a diff is refused at the first line taken out or put in outside its file, with the error of that side |
| DiffReading.IndexesFollow | scripts/patch-stats.py:573-595 | between headers each index moves over its own lines and those of the context, and every line taken out or put in is counted once |
| LinearStack.ValidateLinearStack | scripts/patch-stats.py:294-327 | the loop over the commits gives the patches, or the error of the first commit with something wrong |
| LinearStack.AcceptedExactly | scripts/patch-stats.py:294-327 | a range is accepted exactly when every commit has the one before as its only parent, from base to tip, under well-formed and distinct patch names |
| LinearStack.OutcomeMeans | scripts/patch-stats.py:294-327 | what each error says: the first commit that is not linear, badly named or a duplicate, in that order; and an accepted stack lists every commit with its name |
| LinearStack.SubjectExactly | scripts/patch-stats.py:32 | a patch name is three digits, a hyphen, and letters, digits and hyphens that begin with no hyphen |
| StackTotals.FileReportNet | scripts/patch-stats.py:630-657 | a file's report never fails and nets its change in lines, or nothing when it is binary |
| StackTotals.BinaryCountsNothing | scripts/patch-stats.py:644-651 | a change is not counted if and only if one of its sides is binary or its diff says so, and then every counter is 0 |
| StackTotals.PatchNet | scripts/patch-stats.py:659-665 | a patch nets the change in text lines between the two trees, renames included, less the lines of text that its binary changes hide |
| StackTotals.StackNetsOutExactly | scripts/patch-stats.py:885-901 | over a validated stack the merged totals and those of the final tree agree on added minus deleted if and only if the patches' binary changes hide as many lines as the final diff's |
| StackTotals.StackNetsOut | scripts/patch-stats.py:885-901 | in particular when no file with text lines changes to or from binary |
| StackTotals.TextTurnsBinary | scripts/patch-stats.py:885-901 | ten lines of text that a second patch turns binary: the stack nets ten, the final tree nothing |
| StackTotals.SteadyExactly | scripts/patch-stats.py:630-657 | a file that stays at its path nets the same step by step as end to end, whatever it holds, if and only if its versions are all text, or never text twice in a row and not text at both ends |
| StackTotals.StepIsReported | scripts/patch-stats.py:630-657 | such a step is what is reported for the change |
| FileHistories.FileByFile | scripts/patch-stats.py:885-901 | over a stack whose files stay at their paths, merged and final totals net the same if and only if the files' steps add up to what they net end to end |
| FileHistories.SteadyStackExactly | scripts/patch-stats.py:885-901 | whatever the files hold they do, if and only if every file's versions are steady in the sense above |
| DistinguishedName.EscapeDnValue | proxy/src/mtls.rs:132-154 | the loop appends the escaped value |
| DistinguishedName.PrintName | proxy/src/mtls.rs:109-131 | the entries in reverse order, joined by commas |
| DistinguishedName.ReadsBackExactly | proxy/src/mtls.rs:103-131 | a reader of RFC 4514, sections 2.4 and 3, recovers exactly the entries, values as their UTF-8, if and only if the attributes are named by a keyword or a dotted OID of RFC 4512, section 1.4 |
| DistinguishedName.PrintInjective | proxy/src/mtls.rs:103-131 | two names whose attribute names hold letters, digits, hyphens and dots only, and that print alike, are alike |
| DistinguishedName.OtherNamesCollide | proxy/src/mtls.rs:117-122 | with an attribute name that holds a comma and an equals sign they need not be alike |
| DistinguishedName.PrintsNoControl | proxy/src/mtls.rs:106-108 | no control character of a value reaches the output |
| DistinguishedName.VerbatimExactly | proxy/src/mtls.rs:132-154 | a value is printed as it stands if and only if it holds no special and no control character, begins with no number sign or space and ends in no space |
| Utf8.EncodeInjective | proxy/src/mtls.rs:145-150 | the octets that are hex-escaped determine the text |

## Left out

- Cryptography: key agreement, AES-GCM, SHA-256, base64 and key loading are function values of the model; only that equal bytes hash alike is used, the hasher being the bytes it has absorbed.
- Certificates: chain verification, expiry, host globs and DER parsing are one nondeterministic verdict.
- The rate limiter and the bypass policy are one nondeterministic "may refuse" and one "may bypass" answer each.
- Audit text: messages, `code` strings, JSON and log output, response counters and connection fields.
- Token spelling: a token's digest has more than one accepted hex spelling (upper case, a leading plus sign), so no uniqueness is claimed.
- Nonces with other timestamps: a dropped nonce may be used again by a fresh token, so uniqueness is of nonce and timestamp together.
- Two readings of one clock under one lock are steps of their own; a single instant within a step is all that is observed of a clock.
- Threads that panic while holding the lock, and a request that is dropped while it waits for the lock, which is a blocking call.
- Bodies longer than memory: the running total of the read loop is unbounded here.
- MachineIdentity.DnsCache.LookupFresh: the await between lookup and store is not in the method; `DnsRuns` has the steps.
- MachineIdentity.DnsCache.Store: adding TTL and grace does not overflow here, where the source would panic on durations beyond its range.
- ResolverRuns.ForwardIsBacked: the resolver cache keeps a clock of its own beside the proxy's; ages are measured on it.
- Config: the TOML syntax itself and the `validate` methods. The tree that expansion rewrites in place is a value here, since the source holds it exclusively.
- ConfigSchema.ParseConfig: how the library's two deserializers treat datetimes and extra array elements is a parameter of each pass; the source's comment gives the first, nothing in the repository the second.
- ConfigTree.ExpandValue: takes `expand_str` as a function, which `EnvExpansion.ExpandStr` computes.
- EnvExpansion: `str::find` on bytes is on characters here; the characters looked for are ASCII.
- DistinguishedName: the lossy decoding of a value that is not UTF-8 comes before the text the model starts from.
- CommentLexer: `splitlines`, UTF-8 replacement and the choice of syntax by file name; a file is its lines, and white space and letters are function values.
- Hunks: Unicode digits in headers, and lines that a renderer other than git might print between hunks.
- NameStatus: bytes are characters, and the decoding of paths is left to the caller.
- The numstat cross-check, the printed reports and the git subprocesses of patch-stats.
- ProxyTable: proxy names, keys and pins, and the generated C++ text; `strip` and `lower` are function values.
- ProxyTable.Warn: the printed sentence is the four things it names, entries by their place.
- StackTotals: copies (git is asked for renames only), and the check that a patch's counts equal git's own numbers. Churn is not compared: it depends on the scripts git chooses.
- Start-up, TLS listeners, file rotation, the stress tool, the container files and every other patch.
