/**
 * The browser's side of a token (patches/006-attest-requests.patch), and the whole path of a genuine
 * request: what the browser builds, the proxy accepts.
 */
module BrowserToken {
  import opened Wrappers
  import opened CommitWindow
  import opened ReplayCache
  import opened Text
  import opened AttestToken
  import opened RequestFilter
  import Audit
  import MachineIdentity

  /** Uploads longer than this are sent without a body hash. */
  const MAX_BOUND_BODY_BYTES: nat := 64 * 1024

  datatype Upload = Upload(bytes: seq<byte>, cloneable: bool)

  const HEX_DIGITS: string := "0123456789abcdef"

  function HexByte(b: byte): string {
    [HEX_DIGITS[b / 16], HEX_DIGITS[b % 16]]
  }

  function EncodeHex(d: seq<byte>): string {
    if d == [] then [] else HexByte(d[0]) + EncodeHex(d[1..])
  }

  /** The digest printer at the end of `HashBody`. */
  method PrintHex(d: seq<byte>) returns (hex: string)
    ensures hex == EncodeHex(d)
  {
    hex := "";
    var i := 0;
    assert d[0..] == d;
    while i < |d|
      invariant 0 <= i <= |d| && EncodeHex(d) == hex + EncodeHex(d[i..])
    {
      hex := hex + [HEX_DIGITS[d[i] / 16]];
      hex := hex + [HEX_DIGITS[d[i] % 16]];
      assert d[i..][1..] == d[i + 1..];
      i := i + 1;
    }
  }

  /** `ShouldSkipBodyHash`: no body hashes as empty; too long or not cloneable goes unbound. */
  predicate ShouldSkipBodyHash(upload: Option<Upload>, length: nat) {
    upload.Some? && (length > MAX_BOUND_BODY_BYTES || !upload.value.cloneable)
  }

  function BytesOf(upload: Option<Upload>): seq<byte> {
    if upload.Some? then upload.value.bytes else []
  }

  function BodyField(crypto: Crypto, upload: Option<Upload>, length: nat): string {
    if ShouldSkipBodyHash(upload, length) then UNBOUND_SENTINEL else EncodeHex(crypto.sha256(BytesOf(upload)))
  }

  /** `k` is where the fragment starts, or the end of the text. */
  predicate FragmentAt(s: string, k: int) {
    0 <= k <= |s| && '#' !in s[..k] && (k < |s| ==> s[k] == '#')
  }

  /** Path and query without the fragment, `/` when empty. */
  function RequestPath(pathQueryRef: string): (r: string)
    ensures r != [] && '#' !in r
    ensures forall k :: FragmentAt(pathQueryRef, k) ==> r == if k == 0 then "/" else pathQueryRef[..k]
  {
    JoinSplit(pathQueryRef, '#');
    var path := Split(pathQueryRef, '#')[0];
    assert path in Split(pathQueryRef, '#');
    FragmentSplit(pathQueryRef);
    if path == [] then "/" else path
  }

  lemma FragmentSplit(s: string)
    ensures forall k :: FragmentAt(s, k) ==> Split(s, '#')[0] == s[..k]
  {
    forall k | FragmentAt(s, k) ensures Split(s, '#')[0] == s[..k] {
      if k < |s| {
        assert s == s[..k] + ['#'] + s[k + 1..];
        SplitFirst(s[..k], s[k + 1..], '#');
      } else {
        assert s[..k] == s;
        SplitWhole(s, '#');
      }
    }
  }

  /** The canonical plaintext, field by field. */
  method BuildPlaintext(nonceB64: string, ts: string, host: string, method_: string, path: string, bodyHex: string)
    returns (plaintext: string)
    ensures plaintext == Join([PLAINTEXT_PREFIX, nonceB64, ts, host, method_, path, bodyHex], '\n')
  {
    JoinSeven(PLAINTEXT_PREFIX, nonceB64, ts, host, method_, path, bodyHex);
    plaintext := "denbrowser-attest:v2\n";
    plaintext := plaintext + nonceB64;
    plaintext := plaintext + "\n";
    plaintext := plaintext + ts;
    plaintext := plaintext + "\n";
    plaintext := plaintext + host;
    plaintext := plaintext + "\n";
    plaintext := plaintext + method_;
    plaintext := plaintext + "\n";
    plaintext := plaintext + path;
    plaintext := plaintext + "\n";
    plaintext := plaintext + bodyHex;
    assert "denbrowser-attest:v2\n" == PLAINTEXT_PREFIX + "\n";
  }

  lemma JoinTwo(p: string, rest: seq<string>)
    requires rest != []
    ensures Join([p] + rest, '\n') == p + "\n" + Join(rest, '\n')
  {
    assert ([p] + rest)[1..] == rest;
  }

  lemma JoinSeven(a: string, b: string, c: string, d: string, e: string, f: string, g: string)
    ensures Join([a, b, c, d, e, f, g], '\n')
         == a + "\n" + b + "\n" + c + "\n" + d + "\n" + e + "\n" + f + "\n" + g
  {
    assert [a, b, c, d, e, f, g] == [a] + ([b] + ([c] + ([d] + ([e] + ([f] + [g])))));
    JoinTwo(f, [g]);
    JoinTwo(e, [f] + [g]);
    JoinTwo(d, [e] + ([f] + [g]));
    JoinTwo(c, [d] + ([e] + ([f] + [g])));
    JoinTwo(b, [c] + ([d] + ([e] + ([f] + [g]))));
    JoinTwo(a, [b] + ([c] + ([d] + ([e] + ([f] + [g])))));
  }

  // ── Hex ────────────────────────────────────────────────────────────────────

  lemma HexByteDecodes(b: byte)
    ensures |HexByte(b)| == 2 && HexPair(HexByte(b)[0], HexByte(b)[1]) == Some(b)
    ensures '\n' !in HexByte(b)
  {
    HexDigitDecodes(b / 16);
    HexDigitDecodes(b % 16);
  }

  lemma HexDigitDecodes(d: nat)
    requires d < 16
    ensures HexValue(HEX_DIGITS[d]) == Some(d) && HEX_DIGITS[d] != '+' && HEX_DIGITS[d] != '\n'
  {
    if d < 10 {
      assert HEX_DIGITS[d] == '0' + d as char;
    } else {
      assert HEX_DIGITS[d] == 'a' + (d - 10) as char;
    }
  }

  /** The browser's lowercase form decodes back to the same bytes. */
  lemma {:induction false} HexRoundTrip(d: seq<byte>)
    ensures |EncodeHex(d)| == 2 * |d| && '\n' !in EncodeHex(d)
    ensures DecodeHex(EncodeHex(d)) == Some(d)
  {
    if d != [] {
      HexRoundTrip(d[1..]);
      HexByteDecodes(d[0]);
      assert EncodeHex(d)[2..] == EncodeHex(d[1..]);
      assert [d[0]] + d[1..] == d;
    }
  }

  // ── Plaintext ──────────────────────────────────────────────────────────────

  predicate NewlineFree(i: Inputs) {
    '\n' !in i.nonceB64 && '\n' !in i.ts && '\n' !in i.host && '\n' !in i.method_ && '\n' !in i.path
  }

  function Canonical(i: Inputs, bodyHex: string): string {
    Join([PLAINTEXT_PREFIX, i.nonceB64, i.ts, i.host, i.method_, i.path, bodyHex], '\n')
  }

  lemma PrefixNewlineFree()
    ensures '\n' !in PLAINTEXT_PREFIX
  {
  }

  /**
   * The verifier reads exactly the fields the browser wrote: from newline-free fields it accepts the
   * plaintext for those very header values, host, method and path, and for no others.
   */
  lemma PlaintextBindsRequest(i: Inputs, j: Inputs, bodyHex: string)
    requires NewlineFree(i) && '\n' !in bodyHex
    ensures ComparePlaintext(i, Canonical(i, bodyHex)) == BindingOf(bodyHex)
    ensures ComparePlaintext(j, Canonical(i, bodyHex)).Ok? ==>
              j.nonceB64 == i.nonceB64 && j.ts == i.ts && j.host == i.host && j.method_ == i.method_ && j.path == i.path
  {
    var parts := [PLAINTEXT_PREFIX, i.nonceB64, i.ts, i.host, i.method_, i.path, bodyHex];
    PrefixNewlineFree();
    SplitJoin(parts, '\n');
    assert parts[..6] == [PLAINTEXT_PREFIX, i.nonceB64, i.ts, i.host, i.method_, i.path];
    var other := [PLAINTEXT_PREFIX, j.nonceB64, j.ts, j.host, j.method_, j.path];
    assert other[1] == j.nonceB64 && other[2] == j.ts && other[3] == j.host && other[4] == j.method_
             && other[5] == j.path;
  }

  /** The body field decodes to the binding the browser chose. */
  lemma BodyFieldBinding(crypto: Crypto, upload: Option<Upload>, length: nat)
    ensures '\n' !in BodyField(crypto, upload, length)
    ensures BindingOf(BodyField(crypto, upload, length))
         == Ok(if ShouldSkipBodyHash(upload, length) then Streamed else Hash(crypto.sha256(BytesOf(upload))))
  {
    HexRoundTrip(crypto.sha256(BytesOf(upload)));
  }

  // ── A genuine request ──────────────────────────────────────────────────────

  /** The token opens to what the browser sealed; the foreign cryptography is taken at its word. */
  ghost predicate Sealed(crypto: Crypto, tokenB64: string, plaintext: string) {
    && var raw := crypto.decode64(tokenB64);
       && raw.Some? && |raw.value| == EPHEMERAL_LEN + IV_LEN + |plaintext| + TAG_LEN
       && crypto.open(raw.value[..EPHEMERAL_LEN], raw.value[EPHEMERAL_LEN..EPHEMERAL_LEN + IV_LEN],
                      raw.value[EPHEMERAL_LEN + IV_LEN..]) == Plain(plaintext)
  }

  /** The header phase accepts what the browser built, for exactly its nonce, timestamp and body binding. */
  lemma GenuineHeadersAccepted(crypto: Crypto, i: Inputs, nonce: Nonce, ts: i64, upload: Option<Upload>, length: nat,
                               now: i64, seen: set<Nonce>)
    requires NewlineFree(i) && i.ts == PrintI64(ts) && crypto.decode64(i.nonceB64) == Some(nonce)
    requires Sealed(crypto, i.tokenB64, Canonical(i, BodyField(crypto, upload, length)))
    requires ts - 30 <= now < ts + 31 && nonce !in seen
    ensures HeadersVerdict(crypto, i, now, seen)
         == Ok(PhaseOne(nonce,
                        if ShouldSkipBodyHash(upload, length) then Streamed
                          else Hash(crypto.sha256(BytesOf(upload))), ts))
  {
    ParsePrintI64(ts);
    BodyFieldBinding(crypto, upload, length);
    PlaintextBindsRequest(i, i, BodyField(crypto, upload, length));
    CanonicalLength(i, BodyField(crypto, upload, length));
  }

  lemma CanonicalLength(i: Inputs, bodyHex: string)
    ensures |Canonical(i, bodyHex)| >= 26
  {
    JoinSeven(PLAINTEXT_PREFIX, i.nonceB64, i.ts, i.host, i.method_, i.path, bodyHex);
  }

  lemma CommitPhaseAudit(cfg: Config, w: World, a: Audit.AuditState, p1: PhaseOne, c: Cache)
    ensures CommitPhase(cfg, w, a, p1, c).0.LetThrough? ==>
              && CommitPhase(cfg, w, a, p1, c).0.audit.action == Some(Audit.Forward)
              && CommitPhase(cfg, w, a, p1, c).0.audit.attestation.bodyBinding == a.attestation.bodyBinding
  {
  }

  /** Without a bypass, letting a request through is recorded as an attested forward, with its token's binding. */
  lemma ForwardedAudit(cfg: Config, rq: Request, w: World, c: Cache)
    requires !Bypassed(cfg, rq, w.authorized)
    ensures var p := Filter(cfg, rq, w, c).0;
            p.LetThrough? ==>
              && HeadersComplete(rq) && HeaderPhase(cfg, rq, w, c).Ok? && p.audit.action == Some(Audit.Forward)
              && p.audit.attestation.bodyBinding == Some(BindingKind(HeaderPhase(cfg, rq, w, c).value.binding))
  {
    PreflightMeans(cfg, rq, w.admitted, w.authorized);
    var front := Preflight(cfg, rq, w.admitted, w.authorized);
    if front.Continue? && HeaderPhase(cfg, rq, w, c).Ok? {
      var r := HeaderPhase(cfg, rq, w, c);
      var token := AfterToken(front.audit, r);
      CommitPhaseAudit(cfg, w, token.audit, r.value, c);
      var machine := AfterMachine(token.audit, MachineVerdict(rq, w.cert, w.answer));
      CommitPhaseAudit(cfg, w, machine.audit, r.value, c);
    }
  }

  // ── From the browser's values to the proxy's answer ────────────────────────

  /** What the browser attests: its own values, before anything is put on the wire. */
  datatype Outgoing = Outgoing(
    nonceB64: string,
    ts: i64,
    host: string,
    port: Option<string>,
    method_: string,
    pathQueryRef: string,
    upload: Option<Upload>,
    length: nat)

  /** How the request travels: HTTP/1.1 with a Host header, or HTTP/2 with the authority in the URI. */
  datatype Form = HostHeader(uriAuthority: Option<string>) | UriAuthority

  /** Host and port as they are sent; an IPv6 literal goes in brackets. */
  function Authority(o: Outgoing): string {
    (if ':' in o.host && o.host[0] != '[' then "[" + o.host + "]" else o.host) + if o.port.Some? then ":" + o.port.value
      else ""
  }

  /** `path_and_query` of a request target: no fragment, and `/` when nothing is left. */
  function UriPath(target: string): string {
    var path := BeforeFragment(target);
    if path == [] then "/" else path
  }

  function BeforeFragment(target: string): string {
    if target == [] || target[0] == '#' then [] else [target[0]] + BeforeFragment(target[1..])
  }

  /** The request as the proxy receives it, with or without the fragment in its target. */
  function Sent(o: Outgoing, tokenB64: string, form: Form, fragment: bool, cert: Header,
                client: Option<MachineIdentity.Ip>)
    : Request
  {
    Request(o.method_,
            if form.HostHeader? then Readable(Authority(o)) else NotSent,
            if form.HostHeader? then form.uriAuthority else Some(Authority(o)),
            UriPath(if fragment then o.pathQueryRef else RequestPath(o.pathQueryRef)),
            Readable(PrintI64(o.ts)), Readable(o.nonceB64), Readable(tokenB64), cert, client)
  }

  /** What the browser signs. */
  function Signed(o: Outgoing, tokenB64: string): Inputs {
    Inputs(PrintI64(o.ts), o.nonceB64, tokenB64, o.host, o.method_, RequestPath(o.pathQueryRef))
  }

  /**
   * The proxy takes from the request the host that was signed, whatever the form and the port, unless it is an
   * IPv6 literal.
   */
  lemma HostSurvivesExactly(o: Outgoing, tokenB64: string, form: Form, fragment: bool, cert: Header,
                            client: Option<MachineIdentity.Ip>)
    ensures HostOf(Sent(o, tokenB64, form, fragment, cert, client)) == Some(o.host) <==> ':' !in o.host
  {
    var authority := Authority(o);
    JoinSplit(authority, ':');
    assert Split(authority, ':')[0] in Split(authority, ':');
    if ':' !in o.host {
      if o.port.Some? {
        SplitFirst(o.host, o.port.value, ':');
        assert authority == o.host + [':'] + o.port.value;
      } else {
        SplitWhole(o.host, ':');
        assert authority == o.host;
      }
    }
  }

  lemma {:induction false} BeforeFragmentMeans(target: string) returns (k: nat)
    ensures FragmentAt(target, k) && BeforeFragment(target) == target[..k]
  {
    k := 0;
    if target != [] && target[0] != '#' {
      var rest := BeforeFragmentMeans(target[1..]);
      k := rest + 1;
      assert target[..k] == [target[0]] + target[1..][..rest];
    }
  }

  /** The proxy takes from the target the path that was signed. */
  lemma PathSurvives(pathQueryRef: string, fragment: bool)
    ensures UriPath(if fragment then pathQueryRef else RequestPath(pathQueryRef)) == RequestPath(pathQueryRef)
  {
    var target := if fragment then pathQueryRef else RequestPath(pathQueryRef);
    var k := BeforeFragmentMeans(target);
    if !fragment {
      assert k == |target| && target[..k] == target;
    }
  }

  lemma {:induction false} DigitsNewlineFree(n: nat, width: nat)
    ensures '\n' !in Pad(n, width)
  {
  }

  /** Apart from the host, the proxy compares exactly what was signed. */
  lemma InputsSurvive(o: Outgoing, tokenB64: string, form: Form, fragment: bool, cert: Header,
                      client: Option<MachineIdentity.Ip>)
    ensures HeadersComplete(Sent(o, tokenB64, form, fragment, cert, client))
    ensures InputsOf(Sent(o, tokenB64, form, fragment, cert, client)) == Signed(o, tokenB64) <==> ':' !in o.host
    ensures InputsOf(Sent(o, tokenB64, form, fragment, cert, client)).host == o.host <==> ':' !in o.host
  {
    HostSurvivesExactly(o, tokenB64, form, fragment, cert, client);
    PathSurvives(o.pathQueryRef, fragment);
  }

  /** The values hold no newline, which no URL, method or base64 text does. */
  predicate CleanValues(o: Outgoing) {
    '\n' !in o.nonceB64 && '\n' !in o.host && '\n' !in o.method_ && '\n' !in o.pathQueryRef
  }

  lemma SignedClean(o: Outgoing, tokenB64: string)
    requires CleanValues(o)
    ensures NewlineFree(Signed(o, tokenB64))
  {
    DigitsNewlineFree(if o.ts < 0 then 0 - (o.ts as int) else o.ts as int, 1);
    var k := BeforeFragmentMeans(o.pathQueryRef);
    assert forall i :: 0 <= i < k ==> o.pathQueryRef[..k][i] == o.pathQueryRef[i];
  }

  /** A token for another host than the proxy reads from the request does not pass. */
  lemma OtherHostRefused(crypto: Crypto, i: Inputs, j: Inputs, bodyHex: string, now: i64, seen: set<Nonce>)
    requires NewlineFree(i) && '\n' !in bodyHex && i.host != j.host
    requires j.tokenB64 == i.tokenB64 && Sealed(crypto, i.tokenB64, Canonical(i, bodyHex))
    ensures HeadersVerdict(crypto, j, now, seen).Err?
  {
    PlaintextBindsRequest(i, j, bodyHex);
    CanonicalLength(i, bodyHex);
  }

  /**
   * From the browser's own values to the proxy's answer: a genuine request with a fresh nonce inside
   * both windows is sent on exactly when its host is no IPv6 literal and its body is unbound or fits
   * the limit, in either form and however the body is split into chunks.
   */
  lemma GenuineRequestForwarded(cfg: Config, o: Outgoing, nonce: Nonce, tokenB64: string, form: Form, fragment: bool,
                                cert: Header, client: Option<MachineIdentity.Ip>, w: World, c: Cache)
    requires CleanValues(o) && cfg.crypto.decode64(o.nonceB64) == Some(nonce) && nonce !in c.seen
    requires Sealed(cfg.crypto, tokenB64, Canonical(Signed(o, tokenB64), BodyField(cfg.crypto, o.upload, o.length)))
    requires var rq := Sent(o, tokenB64, form, fragment, cert, client);
             && !RateRefused(cfg, rq, w.admitted) && !Bypassed(cfg, rq, w.authorized)
             && !MachineMissing(cfg, rq) && (MachineChecked(cfg, rq) ==> MachineVerdict(rq, w.cert, w.answer).Ok?)
    requires o.ts - 30 <= UnixNow(w.headersWall) < o.ts + 31 && o.ts - 30 <= UnixNow(w.commitWall) < o.ts + 91
    requires w.body.ends && Flatten(w.body.chunks) == BytesOf(o.upload)
    ensures var (p, d) := Filter(cfg, Sent(o, tokenB64, form, fragment, cert, client), w, c);
            && (p.LetThrough? <==>
                && ':' !in o.host
                && (|BytesOf(o.upload)| <= 65536
                    || (o.upload.Some? && (o.length > 65536 || !o.upload.value.cloneable))))
            && (p.LetThrough? ==> nonce in d.seen && p.audit.action == Some(Audit.Forward))
            && (':' !in o.host && o.length == |BytesOf(o.upload)| ==> p.LetThrough?)
  {
    var rq := Sent(o, tokenB64, form, fragment, cert, client);
    var body := BodyField(cfg.crypto, o.upload, o.length);
    InputsSurvive(o, tokenB64, form, fragment, cert, client);
    SignedClean(o, tokenB64);
    BodyFieldBinding(cfg.crypto, o.upload, o.length);
    if ':' !in o.host {
      GenuineHeadersAccepted(cfg.crypto, InputsOf(rq), nonce, o.ts, o.upload, o.length, UnixNow(w.headersWall), c.seen);
    } else {
      OtherHostRefused(cfg.crypto, Signed(o, tokenB64), InputsOf(rq), body, UnixNow(w.headersWall), c.seen);
    }
    FilterDecides(cfg, rq, w, c);
    ForwardedAudit(cfg, rq, w, c);
  }

  /** A token that the proxy lets pass has the binding its browser chose. */
  lemma BindingSurvives(crypto: Crypto, i: Inputs, j: Inputs, upload: Option<Upload>, length: nat, now: i64,
                        seen: set<Nonce>)
    requires NewlineFree(i) && j.tokenB64 == i.tokenB64 && HeadersVerdict(crypto, j, now, seen).Ok?
    requires Sealed(crypto, i.tokenB64, Canonical(i, BodyField(crypto, upload, length)))
    ensures Ok(HeadersVerdict(crypto, j, now, seen).value.binding) == BindingOf(BodyField(crypto, upload, length))
  {
    var body := BodyField(crypto, upload, length);
    BodyFieldBinding(crypto, upload, length);
    PlaintextBindsRequest(i, j, body);
    CanonicalLength(i, body);
  }

  /**
   * A genuine request that is forwarded, whatever the circumstances, carries the digest of its body
   * exactly when it has no upload, or one that is cloneable and at most 64 KiB long; and its record
   * says which.
   */
  lemma BoundExactly(cfg: Config, o: Outgoing, tokenB64: string, form: Form, fragment: bool, cert: Header,
                     client: Option<MachineIdentity.Ip>, w: World, c: Cache)
    requires CleanValues(o)
    requires Sealed(cfg.crypto, tokenB64, Canonical(Signed(o, tokenB64), BodyField(cfg.crypto, o.upload, o.length)))
    requires var rq := Sent(o, tokenB64, form, fragment, cert, client);
             !Bypassed(cfg, rq, w.authorized) && Filter(cfg, rq, w, c).0.LetThrough?
    ensures var rq := Sent(o, tokenB64, form, fragment, cert, client);
            var bound := o.upload.None? || (o.upload.value.cloneable && o.length <= 65536);
            && HeadersComplete(rq) && HeaderPhase(cfg, rq, w, c).Ok?
            && HeaderPhase(cfg, rq, w, c).value.binding
               == (if o.upload.None? then Hash(cfg.crypto.sha256([]))
                   else if bound then Hash(cfg.crypto.sha256(o.upload.value.bytes)) else Streamed)
            && (Filter(cfg, rq, w, c).0.audit.attestation.bodyBinding == Some(Audit.Bound) <==> bound)
  {
    var rq := Sent(o, tokenB64, form, fragment, cert, client);
    ForwardedAudit(cfg, rq, w, c);
    SignedClean(o, tokenB64);
    BodyFieldBinding(cfg.crypto, o.upload, o.length);
    BindingSurvives(cfg.crypto, Signed(o, tokenB64), InputsOf(rq), o.upload, o.length, UnixNow(w.headersWall), c.seen);
  }
}
