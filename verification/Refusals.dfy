/**
 * Which answer a refused request gets, and why: the conditions on the request and the world, in the
 * order in which the first that fails decides, each with the reason that is recorded for it.
 */
module Refusals {
  import opened Wrappers
  import opened CommitWindow
  import opened ReplayCache
  import opened AttestToken
  import opened RequestFilter
  import opened ProxyRun
  import opened ProxyInvariant
  import Audit
  import MachineIdentity
  import Text

  // ── Status and reason ──────────────────────────────────────────────────────

  /** The status tells the reason apart as far as the source does. */
  ghost predicate Fitting(reason: Option<Audit.Reason>, status: nat) {
    && reason.Some?
    && (status == 429 <==> reason.value == Audit.RateLimited)
    && (status == 413 <==> reason.value == Audit.BodyTooLarge)
    && (status == 400 <==> reason.value == Audit.BodyReadFailed)
    && (status == 429 || status == 413 || status == 400 || status == 403)
  }

  /** In every run a request that has been answered carries the reason its status stands for. */
  lemma RunAnswersFit(cfg: Config, start: Clock, steps: seq<Step>, id: Id)
    requires id in Run(cfg, start, steps).jobs && Run(cfg, start, steps).jobs[id].pc.Answered?
    ensures var job := Run(cfg, start, steps).jobs[id]; Fitting(job.audit.reason, job.pc.status)
  {
    RunJobs(cfg, start, steps);
    var job := Run(cfg, start, steps).jobs[id];
    assert JobOk(cfg, job);
  }

  // ── The documented table ───────────────────────────────────────────────────

  const BENIGN := {Audit.NoAttestationHeaders, Audit.BodyReadFailed, Audit.DownstreamError}
  const OPERATIONAL := {
    Audit.RateLimited, Audit.MachineCertMissing, Audit.MachineCertExpired, Audit.MachineCertNotYetValid,
    Audit.MachineHostnameUnresolvable, Audit.MachineNoClientAddress, Audit.TimestampOutOfWindow,
    Audit.BodyTooLarge, Audit.UpstreamError, Audit.InternalError}
  const OF_ANOTHER := {Audit.TokenRequestMismatch, Audit.ReasonBodyHashMismatch}

  /**
   * The risk of a reason as proxy/audit/README.md tells it: low for what is benign, medium for what is
   * operational, critical for a token of another request or body, and high for everything else.
   */
  lemma RiskAsDocumented(r: Audit.Reason)
    ensures Audit.RiskOf(r) == Audit.Low <==> r in BENIGN
    ensures Audit.RiskOf(r) == Audit.Medium <==> r in OPERATIONAL
    ensures Audit.RiskOf(r) == Audit.Critical <==> r in OF_ANOTHER
    ensures Audit.RiskOf(r) == Audit.High <==> r !in BENIGN + OPERATIONAL + OF_ANOTHER
  {
  }

  /** The stage of a reason as the same table lists it, from the limiter to the upstream. */
  lemma StageAsDocumented(r: Audit.Reason)
    ensures Audit.StageOf(r) == Audit.RateLimit <==> r == Audit.RateLimited
    ensures Audit.StageOf(r) == Audit.AttestationHeaders <==>
              r in {Audit.NoAttestationHeaders, Audit.IncompleteAttestationHeaders}
    ensures Audit.StageOf(r) == Audit.AttestationToken <==>
              r in {Audit.TimestampInvalid, Audit.TimestampOutOfWindow, Audit.NonceInvalid, Audit.ReasonNonceReplay,
                    Audit.TokenMalformed, Audit.TokenDecryptFailed, Audit.TokenRequestMismatch}
    ensures Audit.StageOf(r) == Audit.AttestationBody <==> r in {Audit.BodyTooLarge, Audit.ReasonBodyHashMismatch}
    ensures Audit.StageOf(r) == Audit.Downstream <==>
              r in {Audit.BodyReadFailed, Audit.RequestMalformed, Audit.DownstreamError}
    ensures Audit.StageOf(r) == Audit.Upstream <==> r == Audit.UpstreamError
    ensures Audit.StageOf(r) == Audit.Internal <==> r == Audit.InternalError
  {
  }

  // ── The conditions ─────────────────────────────────────────────────────────

  predicate Sent(h: Header) {
    !h.NotSent?
  }

  /** The limiter is on, the client's address is known, and it does not admit the request. */
  predicate OverLimit(cfg: Config, rq: Request, w: World) {
    cfg.rateLimiting && rq.client.Some? && !w.admitted
  }

  predicate LetPast(cfg: Config, rq: Request, w: World) {
    cfg.bypass && rq.client.Some? && w.authorized
  }

  predicate NothingSent(rq: Request) {
    !Sent(rq.ts) && !Sent(rq.nonce) && !Sent(rq.token) && !Sent(rq.machineCert)
  }

  /** One of the three headers is missing or unreadable, or the request names no host. */
  predicate HeaderLacking(rq: Request) {
    !rq.ts.Readable? || !rq.nonce.Readable? || !rq.token.Readable? || (!rq.hostHeader.Readable? && rq.authority.None?)
  }

  /** The host of a request: the part before the first colon of its Host header, or else of its authority. */
  lemma HostRead(rq: Request, text: string, k: nat)
    requires if rq.hostHeader.Readable? then text == rq.hostHeader.text else rq.authority == Some(text)
    requires k <= |text| && ':' !in text[..k] && (k < |text| ==> text[k] == ':')
    ensures HostOf(rq) == Some(text[..k])
  {
    if k < |text| {
      assert text == text[..k] + [':'] + text[k + 1..];
      Text.SplitFirst(text[..k], text[k + 1..], ':');
    } else {
      assert text[..k] == text;
      Text.SplitWhole(text, ':');
    }
  }

  predicate CertificateLacking(cfg: Config, rq: Request) {
    cfg.machine == Some(true) && !Sent(rq.machineCert)
  }

  predicate TimestampUnreadable(rq: Request)
    requires rq.ts.Readable?
  {
    Text.ParseI64(rq.ts.text).None?
  }

  /** The token's time is not within half a minute of the clock. */
  predicate OutOfDrift(rq: Request, now: i64)
    requires rq.ts.Readable?
  {
    Text.ParseI64(rq.ts.text).Some?
      && !(Text.ParseI64(rq.ts.text).value - 30 <= now < Text.ParseI64(rq.ts.text).value + 31)
  }

  predicate NonceUnreadable(crypto: Crypto, rq: Request)
    requires rq.nonce.Readable?
  {
    var raw := crypto.decode64(rq.nonce.text); raw.None? || |raw.value| != 16
  }

  predicate NonceSpent(crypto: Crypto, rq: Request, seen: set<Nonce>)
    requires rq.nonce.Readable?
  {
    var raw := crypto.decode64(rq.nonce.text); raw.Some? && |raw.value| == 16 && raw.value in seen
  }

  /** 65 octets of the point, 12 of the vector, 16 of the tag, and at least one of the text. */
  predicate TokenWhole(crypto: Crypto, token: string) {
    var raw := crypto.decode64(token); raw.Some? && |raw.value| >= 65 + 12 + 16 + 1
  }

  function Content(crypto: Crypto, token: string): Opened
    requires TokenWhole(crypto, token)
  {
    var raw := crypto.decode64(token).value;
    crypto.open(raw[..65], raw[65..77], raw[77..])
  }

  predicate TokenBroken(crypto: Crypto, rq: Request)
    requires rq.token.Readable?
  {
    !TokenWhole(crypto, rq.token.text) || Content(crypto, rq.token.text).BadPoint?
  }

  predicate TokenForged(crypto: Crypto, rq: Request)
    requires rq.token.Readable?
  {
    TokenWhole(crypto, rq.token.text) && Content(crypto, rq.token.text).BadTag?
  }

  /** The seven lines of a token's text say what the request says; the last is `unbound` or 64 hex digits. */
  predicate NamesRequest(text: string, rq: Request)
    requires rq.ts.Readable? && rq.nonce.Readable? && HostOf(rq).Some?
  {
    var lines := Text.Split(text, '\n');
    && |lines| == 7
    && lines[0] == "denbrowser-attest:v2" && lines[1] == rq.nonce.text && lines[2] == rq.ts.text
    && lines[3] == HostOf(rq).value && lines[4] == rq.method_ && lines[5] == rq.path
    && (lines[6] == "unbound" || (|lines[6]| == 64 && DecodeHex(lines[6]).Some?))
  }

  predicate TokenOfAnother(crypto: Crypto, rq: Request)
    requires rq.ts.Readable? && rq.nonce.Readable? && rq.token.Readable? && HostOf(rq).Some?
  {
    && TokenWhole(crypto, rq.token.text) && Content(crypto, rq.token.text).Plain?
    && !NamesRequest(Content(crypto, rq.token.text).text, rq)
  }

  /** The digest a token binds its body to, if it binds it at all. */
  function BoundTo(crypto: Crypto, rq: Request): Option<seq<byte>>
    requires rq.token.Readable?
  {
    if TokenWhole(crypto, rq.token.text) && Content(crypto, rq.token.text).Plain? then
      var lines := Text.Split(Content(crypto, rq.token.text).text, '\n');
      if |lines| == 7 && |lines[6]| == 64 then DecodeHex(lines[6]) else None
    else None
  }

  predicate MachineAsked(cfg: Config, rq: Request) {
    cfg.machine.Some? && Sent(rq.machineCert)
  }

  /** Why the machine's certificate does not do, if it does not. */
  function MachineFault(rq: Request, w: World): Option<MachineIdentity.MachineError> {
    if !rq.machineCert.Readable? then Some(MachineIdentity.NotBase64)
    else if rq.client.None? then Some(MachineIdentity.NoClientAddress)
    else if w.cert.Err? then Some(w.cert.error)
    else if w.answer.None? || w.answer.value == [] then Some(MachineIdentity.HostnameUnresolvable)
    else if rq.client.value !in w.answer.value then Some(MachineIdentity.HostnameAddressMismatch)
    else None
  }

  /** How each machine error is recorded. */
  predicate RecordedAs(e: MachineIdentity.MachineError, r: Audit.Reason) {
    && (r == Audit.MachineCertMissing <==> e == MachineIdentity.Missing)
    && (r == Audit.MachineCertMalformed <==> e == MachineIdentity.NotBase64 || e == MachineIdentity.NotDer)
    && (r == Audit.MachineCertUntrusted <==> e == MachineIdentity.UntrustedChain)
    && (r == Audit.MachineCertExpired <==> e == MachineIdentity.CertExpired)
    && (r == Audit.MachineCertNotYetValid <==> e == MachineIdentity.CertNotYetValid)
    && (r == Audit.MachineCertNoCommonName <==> e == MachineIdentity.NoCommonName)
    && (r == Audit.MachineCertUnsafeCommonName <==> e == MachineIdentity.UnsafeCommonName)
    && (r == Audit.MachineHostnameNotAllowed <==> e == MachineIdentity.HostnameNotAllowed)
    && (r == Audit.MachineAddressMismatch <==> e == MachineIdentity.HostnameAddressMismatch)
    && (r == Audit.MachineHostnameUnresolvable <==> e == MachineIdentity.HostnameUnresolvable)
    && (r == Audit.MachineNoClientAddress <==> e == MachineIdentity.NoClientAddress)
    && Audit.StageOf(r) == Audit.MachineIdentityStage
  }

  /** The commit comes before the token's time, or more than a minute and a half after it. */
  predicate OutOfCommitWindow(rq: Request, now: i64)
    requires rq.ts.Readable?
  {
    Text.ParseI64(rq.ts.text).Some?
      && !(Text.ParseI64(rq.ts.text).value - 30 <= now < Text.ParseI64(rq.ts.text).value + 91)
  }

  // ── The order ──────────────────────────────────────────────────────────────

  /** A condition under which a request is refused, and the reason recorded for it. */
  datatype Rule = Rule(fails: bool, reason: Audit.Reason)

  /** Rules before anything is known of the headers. */
  function OpeningRules(cfg: Config, rq: Request): seq<Rule> {
    [Rule(HeaderLacking(rq) && NothingSent(rq), Audit.NoAttestationHeaders),
     Rule(HeaderLacking(rq) && !NothingSent(rq), Audit.IncompleteAttestationHeaders),
     Rule(CertificateLacking(cfg, rq), Audit.MachineCertMissing)]
  }

  function TimeRules(rq: Request, now: i64): seq<Rule>
    requires !HeaderLacking(rq)
  {
    [Rule(TimestampUnreadable(rq), Audit.TimestampInvalid),
     Rule(OutOfDrift(rq, now), Audit.TimestampOutOfWindow)]
  }

  function TokenRules(crypto: Crypto, rq: Request, seen: set<Nonce>): seq<Rule>
    requires !HeaderLacking(rq)
  {
    [Rule(NonceUnreadable(crypto, rq), Audit.NonceInvalid),
     Rule(NonceSpent(crypto, rq, seen), Audit.ReasonNonceReplay),
     Rule(TokenBroken(crypto, rq), Audit.TokenMalformed),
     Rule(TokenForged(crypto, rq), Audit.TokenDecryptFailed),
     Rule(TokenOfAnother(crypto, rq), Audit.TokenRequestMismatch)]
  }

  function BodyRules(crypto: Crypto, rq: Request, w: World): seq<Rule>
    requires !HeaderLacking(rq)
  {
    var bound := BoundTo(crypto, rq);
    var bytes := Text.Flatten(w.body.chunks);
    [Rule(bound.Some? && |bytes| > 65536, Audit.BodyTooLarge),
     Rule(bound.Some? && !w.body.ends, Audit.BodyReadFailed),
     Rule(bound.Some? && crypto.sha256(bytes) != bound.value, Audit.ReasonBodyHashMismatch),
     Rule(OutOfCommitWindow(rq, UnixNow(w.commitWall)), Audit.TimestampOutOfWindow)]
  }

  /** Rule `k` is the first that fails. */
  predicate Decides(rules: seq<Rule>, k: nat) {
    k < |rules| && rules[k].fails && forall j :: 0 <= j < k ==> !rules[j].fails
  }

  /** The reason of the first rule that fails. */
  function FirstFault(rules: seq<Rule>): Option<Audit.Reason> {
    if rules == [] then None
    else if rules[0].fails then Some(rules[0].reason)
    else FirstFault(rules[1..])
  }

  lemma {:induction false} FirstFaultMeans(rules: seq<Rule>, k: nat)
    ensures FirstFault(rules).None? <==> forall j :: 0 <= j < |rules| ==> !rules[j].fails
    ensures Decides(rules, k) ==> FirstFault(rules) == Some(rules[k].reason)
  {
    if rules != [] && !rules[0].fails {
      FirstFaultMeans(rules[1..], if k > 0 then k - 1 else 0);
      assert forall j :: 1 <= j < |rules| ==> rules[j] == rules[1..][j - 1];
      if Decides(rules, k) {
        assert Decides(rules[1..], k - 1);
      }
    }
  }

  lemma FirstOf(rule: Rule, rest: seq<Rule>)
    ensures FirstFault([rule] + rest) == if rule.fails then Some(rule.reason) else FirstFault(rest)
  {
    assert ([rule] + rest)[1..] == rest;
  }

  lemma FirstOfFour(a: Rule, b: Rule, c: Rule, d: Rule)
    ensures FirstFault([a, b, c, d])
         == if a.fails then Some(a.reason) else if b.fails then Some(b.reason)
            else if c.fails then Some(c.reason) else if d.fails then Some(d.reason) else None
  {
    assert [a, b, c, d] == [a] + ([b] + ([c] + ([d] + [])));
    FirstOf(d, []);
    FirstOf(c, [d] + []);
    FirstOf(b, [c] + ([d] + []));
    FirstOf(a, [b] + ([c] + ([d] + [])));
  }

  lemma FirstOfThree(a: Rule, b: Rule, c: Rule)
    ensures FirstFault([a, b, c])
         == if a.fails then Some(a.reason) else if b.fails then Some(b.reason) else if c.fails then Some(c.reason)
           else None
  {
    assert [a, b, c] == [a] + ([b] + ([c] + []));
    FirstOf(c, []);
    FirstOf(b, [c] + []);
    FirstOf(a, [b] + ([c] + []));
  }

  lemma FirstOfFive(a: Rule, b: Rule, c: Rule, d: Rule, e: Rule)
    ensures FirstFault([a, b, c, d, e])
         == if a.fails then Some(a.reason) else if b.fails then Some(b.reason) else if c.fails then Some(c.reason)
            else if d.fails then Some(d.reason) else if e.fails then Some(e.reason) else None
  {
    FirstOfFour(b, c, d, e);
    FirstOf(a, [b, c, d, e]);
    assert [a, b, c, d, e] == [a] + [b, c, d, e];
  }

  // ── Stage by stage ─────────────────────────────────────────────────────────

  /** The request is refused for this reason, with the status that goes with it. */
  ghost predicate RefusedFor(p: Progress, reason: Audit.Reason) {
    p.Refuse? && p.audit.reason == Some(reason) && Fitting(p.audit.reason, p.status)
  }

  lemma PreflightAnswers(cfg: Config, rq: Request, w: World)
    ensures var (p, fault) := (Preflight(cfg, rq, w.admitted, w.authorized), FirstFault(OpeningRules(cfg, rq)));
            if OverLimit(cfg, rq, w) then RefusedFor(p, Audit.RateLimited)
            else if LetPast(cfg, rq, w) then p.LetThrough?
            else if fault.Some? then RefusedFor(p, fault.value)
            else p.Continue? && HeadersComplete(rq)
  {
    FirstOfThree(OpeningRules(cfg, rq)[0], OpeningRules(cfg, rq)[1], OpeningRules(cfg, rq)[2]);
  }

  lemma PlaintextAnswers(rq: Request, text: string)
    requires !HeaderLacking(rq)
    ensures var r := ComparePlaintext(InputsOf(rq), text);
            if NamesRequest(text, rq) then
              r.Ok? && var last := Text.Split(text, '\n')[6];
                       if last == "unbound" then r.value == Streamed
                       else |last| == 64 && DecodeHex(last).Some? && r.value == Hash(DecodeHex(last).value)
            else r == Err(PlaintextMismatch)
  {
    var (parts, i) := (Text.Split(text, '\n'), InputsOf(rq));
    if |parts| == 7 {
      var want := ["denbrowser-attest:v2", i.nonceB64, i.ts, i.host, i.method_, i.path];
      assert parts[..6] == want <==>
               parts[0] == want[0] && parts[1] == want[1] && parts[2] == want[2] && parts[3] == want[3]
               && parts[4] == want[4] && parts[5] == want[5];
    }
    assert |"unbound"| == 7;
  }

  lemma TokenAnswers(crypto: Crypto, rq: Request)
    requires !HeaderLacking(rq)
    ensures match OpenToken(crypto, rq.token.text)
            case Err(e) =>
              && (e == InvalidToken <==> TokenBroken(crypto, rq)) && (e == DecryptFailed <==> TokenForged(crypto, rq))
              && (TokenBroken(crypto, rq) || TokenForged(crypto, rq))
            case Ok(text) => TokenWhole(crypto, rq.token.text) && Content(crypto, rq.token.text) == Plain(text)
  {
  }

  /** What a token that passes the header phase says. */
  ghost predicate Says(crypto: Crypto, rq: Request, p1: PhaseOne)
    requires !HeaderLacking(rq)
  {
    && crypto.decode64(rq.nonce.text) == Some(p1.nonce) && Text.ParseI64(rq.ts.text) == Some(p1.ts)
    && (if p1.binding.Hash? then BoundTo(crypto, rq) == Some(p1.binding.digest) else BoundTo(crypto, rq) == None)
  }

  lemma TokenVerdictAnswers(crypto: Crypto, rq: Request, ts: i64, seen: set<Nonce>)
    requires !HeaderLacking(rq) && Text.ParseI64(rq.ts.text) == Some(ts)
    ensures var r := TokenVerdict(crypto, InputsOf(rq), ts, seen);
            if NonceUnreadable(crypto, rq) then r == Err(InvalidNonce)
            else if NonceSpent(crypto, rq, seen) then r == Err(NonceReplay)
            else if TokenBroken(crypto, rq) then r == Err(InvalidToken)
            else if TokenForged(crypto, rq) then r == Err(DecryptFailed)
            else if TokenOfAnother(crypto, rq) then r == Err(PlaintextMismatch)
            else r.Ok? && Says(crypto, rq, r.value)
  {
    TokenAnswers(crypto, rq);
    if TokenWhole(crypto, rq.token.text) && Content(crypto, rq.token.text).Plain? {
      PlaintextAnswers(rq, Content(crypto, rq.token.text).text);
      assert |"unbound"| == 7;
    }
  }

  /** The verdict on a token, and the fault among its rules. */
  ghost predicate VerdictFits(crypto: Crypto, rq: Request, seen: set<Nonce>, r: Result<PhaseOne, AttestError>,
                              fault: Option<Audit.Reason>)
    requires !HeaderLacking(rq)
  {
    if fault.Some? then r.Err? && Audit.AttestReason(r.error) == fault.value
    else r.Ok? && Says(crypto, rq, r.value) && !NonceSpent(crypto, rq, seen)
  }

  lemma TokenPartAnswers(crypto: Crypto, rq: Request, ts: i64, seen: set<Nonce>)
    requires !HeaderLacking(rq) && Text.ParseI64(rq.ts.text) == Some(ts)
    ensures VerdictFits(crypto, rq, seen, TokenVerdict(crypto, InputsOf(rq), ts, seen),
                        FirstFault(TokenRules(crypto, rq, seen)))
  {
    TokenVerdictAnswers(crypto, rq, ts, seen);
    FiveErrors(TokenRules(crypto, rq, seen), TokenVerdict(crypto, InputsOf(rq), ts, seen));
  }

  /** Five rules, and the error of the first that fails. */
  lemma FiveErrors<T>(rules: seq<Rule>, r: Result<T, AttestError>)
    requires |rules| == 5 && rules[0].reason == Audit.NonceInvalid && rules[1].reason == Audit.ReasonNonceReplay
    requires rules[2].reason == Audit.TokenMalformed && rules[3].reason == Audit.TokenDecryptFailed
    requires rules[4].reason == Audit.TokenRequestMismatch
    requires if rules[0].fails then r == Err(InvalidNonce)
             else if rules[1].fails then r == Err(NonceReplay)
             else if rules[2].fails then r == Err(InvalidToken)
             else if rules[3].fails then r == Err(DecryptFailed)
             else if rules[4].fails then r == Err(PlaintextMismatch)
             else r.Ok?
    ensures match FirstFault(rules)
            case Some(reason) => r.Err? && Audit.AttestReason(r.error) == reason
            case None => r.Ok? && !rules[1].fails
  {
    assert rules == [rules[0], rules[1], rules[2], rules[3], rules[4]];
    FirstOfFive(rules[0], rules[1], rules[2], rules[3], rules[4]);
  }

  lemma TimePartAnswers(rq: Request, now: i64)
    requires !HeaderLacking(rq)
    ensures var (ts, fault) := (DriftVerdict(InputsOf(rq), now), FirstFault(TimeRules(rq, now)));
            if fault.Some? then ts.Err? && Audit.AttestReason(ts.error) == fault.value
            else ts.Ok? && Text.ParseI64(rq.ts.text) == Some(ts.value)
  {
    FirstOf(TimeRules(rq, now)[0], [TimeRules(rq, now)[1]]);
    FirstOf(TimeRules(rq, now)[1], []);
    assert TimeRules(rq, now) == [TimeRules(rq, now)[0]] + ([TimeRules(rq, now)[1]] + []);
  }

  lemma HeadersAnswer(crypto: Crypto, rq: Request, now: i64, seen: set<Nonce>)
    requires !HeaderLacking(rq)
    ensures var (time, token) := (FirstFault(TimeRules(rq, now)), FirstFault(TokenRules(crypto, rq, seen)));
            VerdictFits(crypto, rq, seen, HeadersVerdict(crypto, InputsOf(rq), now, seen),
                        if time.Some? then time else token)
  {
    TimePartAnswers(rq, now);
    var ts := DriftVerdict(InputsOf(rq), now);
    if ts.Ok? {
      TokenPartAnswers(crypto, rq, ts.value, seen);
    }
  }

  lemma MachineAnswers(rq: Request, w: World)
    ensures var r := MachineVerdict(rq, w.cert, w.answer);
            if MachineFault(rq, w).Some? then r == Err(MachineFault(rq, w).value) else r.Ok?
  {
  }

  lemma RecordedReason(e: MachineIdentity.MachineError)
    ensures RecordedAs(e, Audit.MachineReason(e)) && StatusOf(Audit.MachineReason(e)) == 403
  {
  }

  /** What the read loop makes of a body depends on its length and its end alone. */
  lemma {:induction false} DrainAnswers(body: Body, read: seq<byte>)
    requires |read| <= 65536
    ensures var all := read + Text.Flatten(body.chunks);
            Drain(body, read) == if |all| > 65536 then TooLarge else if body.ends then Whole(all) else Broken
    decreases |body.chunks|
  {
    if body.chunks == [] {
      assert read + Text.Flatten(body.chunks) == read;
    } else {
      var chunk, rest := body.chunks[0], Text.Flatten(body.chunks[1..]);
      assert read + Text.Flatten(body.chunks) == read + chunk + rest;
      if |read| + |chunk| <= 65536 {
        DrainAnswers(Body(body.chunks[1..], body.ends), read + chunk);
      }
    }
  }

  lemma CommitAnswers(cfg: Config, w: World, a: Audit.AuditState, p1: PhaseOne, c: Cache, rq: Request)
    requires !HeaderLacking(rq) && Says(cfg.crypto, rq, p1) && p1.nonce !in c.seen
    ensures var p := CommitPhase(cfg, w, a, p1, c).0;
            var fault := FirstFault(BodyRules(cfg.crypto, rq, w));
            if fault.Some? then RefusedFor(p, fault.value) else p.LetThrough?
  {
    var rules := BodyRules(cfg.crypto, rq, w);
    var bytes := Text.Flatten(w.body.chunks);
    FirstOfFour(rules[0], rules[1], rules[2], rules[3]);
    DrainAnswers(w.body, []);
    assert [] + bytes == bytes;
  }

  // ── The whole filter ───────────────────────────────────────────────────────

  /** The answer once the token has passed. */
  ghost predicate AnsweredLast(cfg: Config, rq: Request, w: World, p: Progress)
    requires !HeaderLacking(rq)
  {
    if MachineAsked(cfg, rq) && MachineFault(rq, w).Some? then
      p.Refuse? && p.audit.reason.Some? && RecordedAs(MachineFault(rq, w).value, p.audit.reason.value)
        && p.status == 403
    else
      var body := FirstFault(BodyRules(cfg.crypto, rq, w));
      if body.Some? then RefusedFor(p, body.value) else p.LetThrough?
  }

  /** The answer once all headers are there. */
  ghost predicate AnsweredToken(cfg: Config, rq: Request, w: World, seen: set<Nonce>, p: Progress)
    requires !HeaderLacking(rq)
  {
    var (time, token) :=
      (FirstFault(TimeRules(rq, UnixNow(w.headersWall))), FirstFault(TokenRules(cfg.crypto, rq, seen)));
    if time.Some? then RefusedFor(p, time.value)
    else if token.Some? then RefusedFor(p, token.value)
    else AnsweredLast(cfg, rq, w, p)
  }

  /** The answer of the filter, from conditions on the request and the world alone. */
  ghost predicate AnsweredRightly(cfg: Config, rq: Request, w: World, seen: set<Nonce>, p: Progress) {
    if OverLimit(cfg, rq, w) then RefusedFor(p, Audit.RateLimited)
    else if LetPast(cfg, rq, w) then p.LetThrough?
    else
      var opening := FirstFault(OpeningRules(cfg, rq));
      if opening.Some? then RefusedFor(p, opening.value)
      else !HeaderLacking(rq) && AnsweredToken(cfg, rq, w, seen, p)
  }

  lemma LastAnswers(cfg: Config, rq: Request, w: World, c: Cache, a: Audit.AuditState, p1: PhaseOne)
    requires !HeaderLacking(rq) && Says(cfg.crypto, rq, p1) && p1.nonce !in c.seen
    ensures var machine := if MachineChecked(cfg, rq) then AfterMachine(a, MachineVerdict(rq, w.cert, w.answer))
              else Continue(a);
            AnsweredLast(cfg, rq, w, if machine.Refuse? then machine else CommitPhase(cfg, w, machine.audit, p1, c).0)
  {
    MachineAnswers(rq, w);
    if MachineAsked(cfg, rq) && MachineFault(rq, w).Some? {
      RecordedReason(MachineFault(rq, w).value);
    } else {
      var machine := if MachineChecked(cfg, rq) then AfterMachine(a, MachineVerdict(rq, w.cert, w.answer))
        else Continue(a);
      CommitAnswers(cfg, w, machine.audit, p1, c, rq);
    }
  }

  lemma TokenRefusal(a: Audit.AuditState, e: AttestError)
    ensures RefusedFor(AfterToken(a, Err(e)), Audit.AttestReason(e))
  {
  }

  lemma TokenStageAnswers(cfg: Config, rq: Request, w: World, c: Cache, a: Audit.AuditState,
                          r: Result<PhaseOne, AttestError>, p: Progress)
    requires HeadersComplete(rq) && r == HeaderPhase(cfg, rq, w, c)
    requires r.Err? ==> p == AfterToken(a, r)
    requires r.Ok? ==>
               var b := AfterToken(a, r).audit;
               var machine := if MachineChecked(cfg, rq) then AfterMachine(b, MachineVerdict(rq, w.cert, w.answer))
                 else Continue(b);
               p == if machine.Refuse? then machine else CommitPhase(cfg, w, machine.audit, r.value, c).0
    ensures AnsweredToken(cfg, rq, w, c.seen, p)
  {
    HeadersAnswer(cfg.crypto, rq, UnixNow(w.headersWall), c.seen);
    if r.Err? {
      TokenRefusal(a, r.error);
    } else {
      LastAnswers(cfg, rq, w, c, AfterToken(a, r).audit, r.value);
    }
  }

  /**
   * The filter refuses a request exactly when some condition fails, and the first that fails decides
   * the reason that is recorded and the status that is sent; otherwise it lets the request through.
   */
  lemma FilterAnswers(cfg: Config, rq: Request, w: World, c: Cache)
    ensures AnsweredRightly(cfg, rq, w, c.seen, Filter(cfg, rq, w, c).0)
  {
    PreflightAnswers(cfg, rq, w);
    var front := Preflight(cfg, rq, w.admitted, w.authorized);
    if front.Continue? {
      TokenStageAnswers(cfg, rq, w, c, front.audit, HeaderPhase(cfg, rq, w, c), Filter(cfg, rq, w, c).0);
    }
  }
}
