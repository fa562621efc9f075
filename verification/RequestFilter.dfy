/**
 * `request_filter` (proxy/src/main.rs): the checks one request goes through, in order.  Each function
 * below is one stretch of the filter between two points where other requests may run; the method at
 * the end is the filter as one request sees it.
 */
module RequestFilter {
  import opened Wrappers
  import opened CommitWindow
  import opened ReplayCache
  import opened AttestToken
  import Text
  import Audit
  import MachineIdentity

  /** The largest bound body that can be verified before forwarding. */
  const BOUND_BODY_MAX := 64 * 1024

  /** A header line: not sent, sent but not visible ASCII, or readable. */
  datatype Header = NotSent | Unreadable | Readable(text: string) {
    function Text(): Option<string> {
      if Readable? then Some(text) else None
    }
  }

  datatype Request = Request(
    method_: string,
    hostHeader: Header,
    authority: Option<string>,
    path: string,
    ts: Header,
    nonce: Header,
    token: Header,
    machineCert: Header,
    client: Option<MachineIdentity.Ip>)

  /** Which layers are on; `machine` holds whether a certificate is required. */
  datatype Config = Config(crypto: Crypto, rateLimiting: bool, bypass: bool, machine: Option<bool>)

  /** The host the token binds: the Host header, else the URI authority, up to the first colon. */
  function HostOf(rq: Request): Option<string> {
    if rq.hostHeader.Readable? then Some(Text.Split(rq.hostHeader.text, ':')[0])
    else if rq.authority.Some? then Some(Text.Split(rq.authority.value, ':')[0])
    else None
  }

  // ── The stretches of the filter ────────────────────────────────────────────

  datatype Progress =
    | Refuse(audit: Audit.AuditState, status: nat)
    | LetThrough(audit: Audit.AuditState)
    | Continue(audit: Audit.AuditState)

  function OpeningAudit(cfg: Config, rq: Request): Audit.AuditState {
    var a := Audit.SawHeaders(Audit.SawRequest(Audit.NewAudit(cfg.machine.Some?), rq.method_, HostOf(rq)), rq.ts.Text(),
                              rq.nonce.Text());
    if rq.machineCert.Readable? then Audit.SawMachineCert(a, rq.machineCert.text) else a
  }

  predicate HeadersComplete(rq: Request) {
    rq.ts.Readable? && rq.nonce.Readable? && rq.token.Readable? && HostOf(rq).Some?
  }

  function InputsOf(rq: Request): Inputs
    requires HeadersComplete(rq)
  {
    Inputs(rq.ts.text, rq.nonce.text, rq.token.text, HostOf(rq).value, rq.method_, rq.path)
  }

  predicate RateRefused(cfg: Config, rq: Request, admitted: bool) {
    cfg.rateLimiting && rq.client.Some? && !admitted
  }

  predicate Bypassed(cfg: Config, rq: Request, authorized: bool) {
    cfg.bypass && rq.client.Some? && authorized
  }

  predicate MachineMissing(cfg: Config, rq: Request) {
    cfg.machine == Some(true) && rq.machineCert.NotSent?
  }

  /** Rate limit, bypass, header presence and machine preflight. */
  function Preflight(cfg: Config, rq: Request, admitted: bool, authorized: bool): Progress {
    var a := OpeningAudit(cfg, rq);
    if RateRefused(cfg, rq, admitted) then Refuse(Audit.Rejected(a, Audit.RateLimited), 429)
    else if Bypassed(cfg, rq, authorized) then LetThrough(Audit.MarkBypassed(a))
    else if !HeadersComplete(rq) then
      var bare := rq.ts.NotSent? && rq.nonce.NotSent? && rq.token.NotSent? && rq.machineCert.NotSent?;
      Refuse(Audit.Rejected(a, if bare then Audit.NoAttestationHeaders else Audit.IncompleteAttestationHeaders), 403)
    else if MachineMissing(cfg, rq) then Refuse(Audit.MachineRejected(a, MachineIdentity.Missing), 403)
    else if cfg.machine.Some? && rq.machineCert.NotSent? then Continue(Audit.MarkMachineAbsent(a))
    else Continue(a)
  }

  function BindingKind(b: BodyBinding): Audit.Binding {
    if b.Hash? then Audit.Bound else Audit.Unbound
  }

  /** A verification failure, or the state once the token has passed. */
  function AfterToken(a: Audit.AuditState, r: Result<PhaseOne, AttestError>): Progress {
    if r.Err? then Refuse(Audit.Rejected(a, Audit.AttestReason(r.error)), 403)
    else Continue(Audit.MarkTokenVerified(a, BindingKind(r.value.binding)))
  }

  predicate MachineChecked(cfg: Config, rq: Request) {
    cfg.machine.Some? && !rq.machineCert.NotSent?
  }

  function MachineVerdict(rq: Request, cert: Result<MachineIdentity.VerifiedMachine, MachineIdentity.MachineError>,
                          answer: Option<MachineIdentity.Answer>)
    : Result<MachineIdentity.VerifiedMachine, MachineIdentity.MachineError>
  {
    if rq.machineCert.Readable? then MachineIdentity.Verify(cert, rq.client, answer) else Err(MachineIdentity.NotBase64)
  }

  function AfterMachine(a: Audit.AuditState, r: Result<MachineIdentity.VerifiedMachine, MachineIdentity.MachineError>)
    : Progress
  {
    if r.Err? then Refuse(Audit.MachineRejected(a, r.error), 403) else Continue(Audit.MarkMachineVerified(a, r.value))
  }

  /** One chunk of a bound body. */
  function AfterChunk(a: Audit.AuditState, read: seq<byte>, chunk: seq<byte>): Progress {
    if |read| + |chunk| > BOUND_BODY_MAX then Refuse(Audit.Rejected(a, Audit.BodyTooLarge), 413) else Continue(a)
  }

  function AfterReadError(a: Audit.AuditState): Progress {
    Refuse(Audit.Rejected(a, Audit.BodyReadFailed), 400)
  }

  function AfterCommit(a: Audit.AuditState, r: Result<Unit, AttestError>): Progress {
    if r.Err? then Refuse(Audit.Rejected(a, Audit.AttestReason(r.error)), 403) else LetThrough(Audit.Forwarded(a))
  }

  /** The body as it arrives: chunks, and whether the stream then ends or fails. */
  datatype Body = Body(chunks: seq<seq<byte>>, ends: bool)

  datatype Drained = Whole(bytes: seq<byte>) | TooLarge | Broken

  /** The read loop: chunks are hashed until the stream ends, fails, or passes the limit. */
  function Drain(body: Body, read: seq<byte>): Drained
    decreases |body.chunks|
  {
    if body.chunks == [] then (if body.ends then Whole(read) else Broken)
    else if |read| + |body.chunks[0]| > BOUND_BODY_MAX then TooLarge
    else Drain(Body(body.chunks[1..], body.ends), read + body.chunks[0])
  }

  // ── The whole filter ───────────────────────────────────────────────────────

  /** What the rest of the world answers one request. */
  datatype World = World(
    admitted: bool,
    authorized: bool,
    headersWall: Wall,
    cert: Result<MachineIdentity.VerifiedMachine, MachineIdentity.MachineError>,
    answer: Option<MachineIdentity.Answer>,
    body: Body,
    commitWall: Wall,
    commitMono: Instant)

  function CommitPhase(cfg: Config, w: World, a: Audit.AuditState, p1: PhaseOne, c: Cache): (Progress, Cache) {
    if p1.binding.Streamed? then
      var (d, r) := CommitVerdict(c, p1, w.commitWall, w.commitMono);
      (AfterCommit(a, r), d)
    else
      match Drain(w.body, [])
      case TooLarge => (Refuse(Audit.Rejected(a, Audit.BodyTooLarge), 413), c)
      case Broken => (AfterReadError(a), c)
      case Whole(bytes) =>
        var (d, r) := CommitBody(c, p1, cfg.crypto.sha256(bytes), w.commitWall, w.commitMono);
        (AfterCommit(a, r), d)
  }

  function Filter(cfg: Config, rq: Request, w: World, c: Cache): (Progress, Cache) {
    var front := Preflight(cfg, rq, w.admitted, w.authorized);
    if !front.Continue? || !HeadersComplete(rq) then (front, c)
    else
      var r := HeaderPhase(cfg, rq, w, c);
      var token := AfterToken(front.audit, r);
      if r.Err? then (token, c)
      else
        var machine := if MachineChecked(cfg, rq) then AfterMachine(token.audit, MachineVerdict(rq, w.cert, w.answer))
          else token;
        if machine.Refuse? then (machine, c) else CommitPhase(cfg, w, machine.audit, r.value, c)
  }

  // ── What the filter decides ────────────────────────────────────────────────

  predicate BodyAccepted(cfg: Config, p1: PhaseOne, body: Body) {
    p1.binding.Hash? ==>
      body.ends && |Text.Flatten(body.chunks)| <= BOUND_BODY_MAX
        && cfg.crypto.sha256(Text.Flatten(body.chunks)) == p1.binding.digest
  }

  /** Every condition for an attested forward, without the order the filter checks them in. */
  predicate Attestable(cfg: Config, rq: Request, w: World, c: Cache) {
    && !RateRefused(cfg, rq, w.admitted)
    && !Bypassed(cfg, rq, w.authorized)
    && HeadersComplete(rq)
    && !MachineMissing(cfg, rq)
    && var r := HeadersVerdict(cfg.crypto, InputsOf(rq), UnixNow(w.headersWall), c.seen);
       && r.Ok?
       && (MachineChecked(cfg, rq) ==> MachineVerdict(rq, w.cert, w.answer).Ok?)
       && BodyAccepted(cfg, r.value, w.body)
       && r.value.ts - 30 <= UnixNow(w.commitWall) < r.value.ts + 91
  }

  /** The loop's verdict depends on the bytes alone: it yields the whole body if and only if that fits. */
  lemma {:induction false} DrainMeans(body: Body, read: seq<byte>)
    requires |read| <= BOUND_BODY_MAX
    ensures Drain(body, read).Whole? <==> body.ends && |read + Text.Flatten(body.chunks)| <= BOUND_BODY_MAX
    ensures Drain(body, read).Whole? ==> Drain(body, read).bytes == read + Text.Flatten(body.chunks)
    decreases |body.chunks|
  {
    if body.chunks != [] {
      var chunk, rest := body.chunks[0], Text.Flatten(body.chunks[1..]);
      assert read + Text.Flatten(body.chunks) == read + chunk + rest;
      if |read| + |chunk| <= BOUND_BODY_MAX {
        DrainMeans(Body(body.chunks[1..], body.ends), read + chunk);
      }
    } else {
      assert read + Text.Flatten(body.chunks) == read;
    }
  }

  lemma CommitPhaseDecides(cfg: Config, w: World, a: Audit.AuditState, p1: PhaseOne, c: Cache)
    ensures var (p, d) := CommitPhase(cfg, w, a, p1, c);
            && !p.Continue?
            && (p.LetThrough? <==>
                BodyAccepted(cfg, p1, w.body) && p1.nonce !in c.seen
                  && p1.ts - 30 <= UnixNow(w.commitWall) < p1.ts + 91)
            && d == (if p.LetThrough? then Committed(c, p1.nonce, w.commitMono).0 else c)
  {
    DrainMeans(w.body, []);
    assert [] + Text.Flatten(w.body.chunks) == Text.Flatten(w.body.chunks);
    CommitVerdictMeans(c, p1, w.commitWall, w.commitMono);
  }

  /** What the header phase found, when preflight lets the request reach it. */
  function HeaderPhase(cfg: Config, rq: Request, w: World, c: Cache): Result<PhaseOne, AttestError>
    requires HeadersComplete(rq)
  {
    HeadersVerdict(cfg.crypto, InputsOf(rq), UnixNow(w.headersWall), c.seen)
  }

  lemma FreshWhenVerified(crypto: Crypto, i: Inputs, now: i64, seen: set<Nonce>)
    requires HeadersVerdict(crypto, i, now, seen).Ok?
    ensures HeadersVerdict(crypto, i, now, seen).value.nonce !in seen
  {
  }

  /**
   * The filter forwards an attested request exactly when every condition holds; it then has recorded
   * the token's nonce, and otherwise has left the replay cache as it was.
   */
  lemma FilterDecides(cfg: Config, rq: Request, w: World, c: Cache)
    ensures var (p, d) := Filter(cfg, rq, w, c);
            && !p.Continue?
            && (p.LetThrough? <==>
                Attestable(cfg, rq, w, c) || (!RateRefused(cfg, rq, w.admitted) && Bypassed(cfg, rq, w.authorized)))
            && d == (if Attestable(cfg, rq, w, c)
                     then Committed(c, HeaderPhase(cfg, rq, w, c).value.nonce, w.commitMono).0 else c)
  {
    var front := Preflight(cfg, rq, w.admitted, w.authorized);
    if front.Continue? {
      PreflightMeans(cfg, rq, w.admitted, w.authorized);
      var r := HeaderPhase(cfg, rq, w, c);
      if r.Ok? {
        FreshWhenVerified(cfg.crypto, InputsOf(rq), UnixNow(w.headersWall), c.seen);
        var token := AfterToken(front.audit, r);
        var machine := if MachineChecked(cfg, rq) then AfterMachine(token.audit, MachineVerdict(rq, w.cert, w.answer))
          else token;
        if !machine.Refuse? {
          CommitPhaseDecides(cfg, w, machine.audit, r.value, c);
        }
      }
    }
  }

  lemma PreflightMeans(cfg: Config, rq: Request, admitted: bool, authorized: bool)
    ensures Preflight(cfg, rq, admitted, authorized).Continue? <==>
              !RateRefused(cfg, rq, admitted) && !Bypassed(cfg, rq, authorized) && HeadersComplete(rq)
                && !MachineMissing(cfg, rq)
    ensures Preflight(cfg, rq, admitted, authorized).LetThrough? <==>
              !RateRefused(cfg, rq, admitted) && Bypassed(cfg, rq, authorized)
  {
  }

  // ── The filter as it runs ──────────────────────────────────────────────────

  class DenBrowserProxy {
    const cfg: Config
    const verifier: Verifier

    constructor (cfg: Config)
      ensures this.cfg == cfg && fresh(verifier) && fresh(verifier.cache)
      ensures verifier.crypto == cfg.crypto && verifier.cache.Contents() == EMPTY_CACHE
    {
      this.cfg := cfg;
      verifier := new Verifier(cfg.crypto);
    }

    /** Reads and hashes a bound body; the hasher is modelled by the bytes it has absorbed. */
    method ReadBody(body: Body) returns (r: Drained)
      ensures r == Drain(body, [])
    {
      var absorbed: seq<byte> := [];
      var total := 0;
      var next := 0;
      assert body.chunks[0..] == body.chunks;
      while next < |body.chunks|
        invariant 0 <= next <= |body.chunks| && total == |absorbed|
        invariant Drain(body, []) == Drain(Body(body.chunks[next..], body.ends), absorbed)
      {
        var chunk := body.chunks[next];
        total := total + |chunk|;
        if total > BOUND_BODY_MAX {
          return TooLarge;
        }
        assert body.chunks[next..][1..] == body.chunks[next + 1..];
        absorbed := absorbed + chunk;
        next := next + 1;
      }
      return if body.ends then Whole(absorbed) else Broken;
    }

    /** Everything before the token is looked at. */
    method CheckPreflight(rq: Request, admitted: bool, authorized: bool, ctx: Audit.RequestAudit) returns (p: Progress)
      requires ctx.State() == Audit.NewAudit(cfg.machine.Some?)
      modifies ctx
      ensures p == Preflight(cfg, rq, admitted, authorized)
      ensures ctx.State() == p.audit
    {
      var host := HostOf(rq);
      ctx.Request(rq.method_, host);
      ctx.Headers(rq.ts.Text(), rq.nonce.Text());
      if rq.machineCert.Readable? {
        ctx.MachineCertPresented(rq.machineCert.text);
      }
      if cfg.rateLimiting && rq.client.Some? && !admitted {
        ctx.RejectWith(Audit.RateLimited);
        return Refuse(ctx.State(), 429);
      }
      if cfg.bypass && rq.client.Some? && authorized {
        ctx.BypassRequest();
        return LetThrough(ctx.State());
      }
      if !(rq.ts.Readable? && rq.nonce.Readable? && rq.token.Readable? && host.Some?) {
        if rq.ts.NotSent? && rq.nonce.NotSent? && rq.token.NotSent? && rq.machineCert.NotSent? {
          ctx.RejectWith(Audit.NoAttestationHeaders);
        } else {
          ctx.RejectWith(Audit.IncompleteAttestationHeaders);
        }
        return Refuse(ctx.State(), 403);
      }
      if cfg.machine.Some? && rq.machineCert.NotSent? {
        if cfg.machine.value {
          ctx.RejectMachine(MachineIdentity.Missing);
          return Refuse(ctx.State(), 403);
        }
        ctx.MachineIsAbsent();
      }
      return Continue(ctx.State());
    }

    /** The token's header phase, then the machine's certificate if one was sent. */
    method CheckIdentity(rq: Request, w: World, ctx: Audit.RequestAudit)
      returns (p: Progress, p1: Result<PhaseOne, AttestError>)
      requires HeadersComplete(rq) && verifier.crypto == cfg.crypto
      modifies ctx
      ensures p1 == HeaderPhase(cfg, rq, w, verifier.cache.Contents())
      ensures var token := AfterToken(old(ctx.State()), p1);
              p == if p1.Ok? && MachineChecked(cfg, rq)
                then AfterMachine(token.audit, MachineVerdict(rq, w.cert, w.answer)) else token
      ensures ctx.State() == p.audit
    {
      p1 := verifier.VerifyHeaders(InputsOf(rq), w.headersWall);
      if p1.Err? {
        ctx.RejectWith(Audit.AttestReason(p1.error));
        return Refuse(ctx.State(), 403), p1;
      }
      ctx.TokenIsVerified(BindingKind(p1.value.binding));
      if cfg.machine.Some? && !rq.machineCert.NotSent? {
        var verdict := MachineVerdict(rq, w.cert, w.answer);
        if verdict.Err? {
          ctx.RejectMachine(verdict.error);
          return Refuse(ctx.State(), 403), p1;
        }
        ctx.MachineIsVerified(verdict.value);
      }
      return Continue(ctx.State()), p1;
    }

    /** Body and commit: an unbound upload commits at once, a bound body is read and compared first. */
    method CheckBodyAndCommit(p1: PhaseOne, w: World, ctx: Audit.RequestAudit) returns (p: Progress)
      requires verifier.crypto == cfg.crypto
      modifies ctx, verifier.cache
      ensures (p, verifier.cache.Contents())
                == CommitPhase(cfg, w, old(ctx.State()), p1, old(verifier.cache.Contents()))
      ensures ctx.State() == p.audit
    {
      var commit: Result<Unit, AttestError>;
      if p1.binding.Streamed? {
        commit := verifier.CommitNonce(p1, w.commitWall, w.commitMono);
      } else {
        var body := ReadBody(w.body);
        if body.TooLarge? {
          ctx.RejectWith(Audit.BodyTooLarge);
          return Refuse(ctx.State(), 413);
        }
        if body.Broken? {
          ctx.RejectWith(Audit.BodyReadFailed);
          return Refuse(ctx.State(), 400);
        }
        commit := verifier.VerifyBodyAndCommit(p1, cfg.crypto.sha256(body.bytes), w.commitWall, w.commitMono);
      }
      if commit.Err? {
        ctx.RejectWith(Audit.AttestReason(commit.error));
        return Refuse(ctx.State(), 403);
      }
      ctx.ForwardRequest();
      return LetThrough(ctx.State());
    }

    /** `Ok(true)` of the source, an answered request, is a refusal here; `Ok(false)` lets it through. */
    method RequestFilter(rq: Request, w: World, ctx: Audit.RequestAudit) returns (p: Progress)
      requires ctx.State() == Audit.NewAudit(cfg.machine.Some?) && verifier.crypto == cfg.crypto
      modifies ctx, verifier.cache
      ensures (p, verifier.cache.Contents()) == Filter(cfg, rq, w, old(verifier.cache.Contents()))
      ensures ctx.State() == p.audit
    {
      p := CheckPreflight(rq, w.admitted, w.authorized, ctx);
      if p.Continue? {
        PreflightMeans(cfg, rq, w.admitted, w.authorized);
        var p1;
        p, p1 := CheckIdentity(rq, w, ctx);
        if p.Continue? {
          p := CheckBodyAndCommit(p1.value, w, ctx);
        }
      }
    }
  }
}
