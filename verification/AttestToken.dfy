/** Token verification (proxy/src/attest.rs): the header phase, and the commit under the cache lock. */
module AttestToken {
  import opened Wrappers
  import opened CommitWindow
  import opened ReplayCache
  import opened Text

  type Digest = d: seq<byte> | |d| == 32 witness seq(32, _ => 0)

  /** What opening `ephemeral point, IV, ciphertext and tag` with the proxy's key gives. */
  datatype Opened = BadPoint | BadTag | Plain(text: string)

  /** The foreign primitives, as functions of their inputs. */
  datatype Crypto = Crypto(
    decode64: string -> Option<seq<byte>>,
    open: (seq<byte>, seq<byte>, seq<byte>) -> Opened,
    sha256: seq<byte> -> Digest)

  datatype Inputs = Inputs(ts: string, nonceB64: string, tokenB64: string, host: string, method_: string, path: string)

  datatype BodyBinding = Hash(digest: Digest) | Streamed

  datatype PhaseOne = PhaseOne(nonce: Nonce, binding: BodyBinding, ts: i64)

  const EPHEMERAL_LEN := 65
  const IV_LEN := 12
  const TAG_LEN := 16
  const TOKEN_MIN_LEN := 94
  const HEX_HASH_LEN := 64
  const PLAINTEXT_PREFIX: string := "denbrowser-attest:v2"
  const UNBOUND_SENTINEL: string := "unbound"

  function HexValue(c: char): Option<nat> {
    if '0' <= c <= '9' then Some(c as int - '0' as int)
    else if 'a' <= c <= 'f' then Some(c as int - 'a' as int + 10)
    else if 'A' <= c <= 'F' then Some(c as int - 'A' as int + 10)
    else None
  }

  /** `u8::from_str_radix(_, 16)` on two characters: a leading `+` counts as a sign. */
  function HexPair(a: char, b: char): Option<byte> {
    var (x, y) := (if a == '+' then Some(0) else HexValue(a), HexValue(b));
    if x.Some? && y.Some? && x.value < 16 && y.value < 16 then Some(16 * x.value + y.value) else None
  }

  function DecodeHex(s: string): (r: Option<seq<byte>>)
    requires |s| % 2 == 0
    ensures r.Some? ==> |r.value| == |s| / 2
  {
    if s == [] then Some([])
    else
      var first := HexPair(s[0], s[1]);
      if first.Some? then Prepend([first.value], DecodeHex(s[2..])) else None
  }

  function Prepend(done: seq<byte>, rest: Option<seq<byte>>): Option<seq<byte>> {
    if rest.Some? then Some(done + rest.value) else None
  }

  lemma PrependNothing(rest: Option<seq<byte>>)
    ensures Prepend([], rest) == rest
  {
    if rest.Some? {
      assert [] + rest.value == rest.value;
    }
  }

  lemma PrependMore(done: seq<byte>, b: byte, rest: Option<seq<byte>>)
    ensures Prepend(done, Prepend([b], rest)) == Prepend(done + [b], rest)
  {
    if rest.Some? {
      assert done + ([b] + rest.value) == done + [b] + rest.value;
    }
  }

  /** A hexadecimal digit in either case. */
  predicate IsHex(c: char, n: nat) {
    n < 16 && (c == "0123456789abcdef"[n] || c == "0123456789ABCDEF"[n])
  }

  /** Two digits, or a plus sign and one. */
  predicate Spells(a: char, b: char, n: nat) {
    IsHex(b, n % 16) && (IsHex(a, n / 16) || (a == '+' && n < 16))
  }

  lemma HexValueMeans(c: char, n: nat)
    ensures HexValue(c) == Some(n) <==> IsHex(c, n)
  {
    assert forall d: nat :: d < 10 ==> "0123456789abcdef"[d] == '0' + d as char;
    assert forall d: nat :: d < 10 ==> "0123456789ABCDEF"[d] == '0' + d as char;
    assert forall d: nat :: 10 <= d < 16 ==> "0123456789abcdef"[d] == 'a' + (d - 10) as char;
    assert forall d: nat :: 10 <= d < 16 ==> "0123456789ABCDEF"[d] == 'A' + (d - 10) as char;
  }

  lemma TwoDigits(x: nat, y: nat, n: nat)
    requires x < 16 && y < 16
    ensures 16 * x + y == n <==> x == n / 16 && y == n % 16
  {
  }

  lemma HexPairMeans(a: char, b: char, n: byte)
    ensures HexPair(a, b) == Some(n) <==> Spells(a, b, n)
  {
    var x := if a == '+' then Some(0) else HexValue(a);
    var y := HexValue(b);
    HexValueMeans(a, n / 16);
    HexValueMeans(b, n % 16);
    HexValueMeans('+', n / 16);
    if x.Some? && y.Some? && x.value < 16 && y.value < 16 {
      TwoDigits(x.value, y.value, n);
    }
  }

  /** Every pair of characters spells its byte. */
  predicate SpellsAll(s: string, d: seq<byte>) {
    |s| == 2 * |d| && forall k :: 0 <= k < |d| ==> Spells(s[2 * k], s[2 * k + 1], d[k])
  }

  lemma SpellsNext(s: string, d: seq<byte>)
    requires |s| >= 2 && d != []
    ensures SpellsAll(s, d) <==> Spells(s[0], s[1], d[0]) && SpellsAll(s[2..], d[1..])
  {
    if Spells(s[0], s[1], d[0]) && SpellsAll(s[2..], d[1..]) {
      forall k | 1 <= k < |d| ensures Spells(s[2 * k], s[2 * k + 1], d[k]) {
        assert Spells(s[2..][2 * (k - 1)], s[2..][2 * (k - 1) + 1], d[1..][k - 1]);
      }
    }
  }

  /** That is all that decodes, and to nothing else. */
  lemma {:induction false} DecodesExactly(s: string, d: seq<byte>)
    requires |s| % 2 == 0
    ensures DecodeHex(s) == Some(d) <==> SpellsAll(s, d)
  {
    if s != [] && d != [] {
      DecodesExactly(s[2..], d[1..]);
      HexPairMeans(s[0], s[1], d[0]);
      SpellsNext(s, d);
      assert d == [d[0]] + d[1..];
    }
  }

  function BindingOf(field: string): Result<BodyBinding, AttestError> {
    if field == UNBOUND_SENTINEL then Ok(Streamed)
    else if |field| != HEX_HASH_LEN then Err(PlaintextMismatch)
    else
      var digest := DecodeHex(field);
      if digest.Some? then Ok(Hash(digest.value)) else Err(PlaintextMismatch)
  }

  /** The timestamp checks, made before the cache is consulted. */
  function DriftVerdict(i: Inputs, now: i64): Result<i64, AttestError> {
    var ts := ParseI64(i.ts);
    if ts.None? then Err(BadTimestamp)
    else
      var _ :- CheckDrift(ts.value, now);
      Ok(ts.value)
  }

  function NonceOf(crypto: Crypto, nonceB64: string): Result<Nonce, AttestError> {
    var raw := crypto.decode64(nonceB64);
    if raw.Some? && |raw.value| == NONCE_LEN then Ok(raw.value) else Err(InvalidNonce)
  }

  function OpenToken(crypto: Crypto, tokenB64: string): Result<string, AttestError> {
    var raw := crypto.decode64(tokenB64);
    if raw.None? || |raw.value| < TOKEN_MIN_LEN then Err(InvalidToken)
    else
      match crypto.open(raw.value[..EPHEMERAL_LEN], raw.value[EPHEMERAL_LEN..EPHEMERAL_LEN + IV_LEN],
                        raw.value[EPHEMERAL_LEN + IV_LEN..])
      case BadPoint => Err(InvalidToken)
      case BadTag => Err(DecryptFailed)
      case Plain(text) => Ok(text)
  }

  /** Every plaintext field but the last must repeat the request; the last is the body binding. */
  function ComparePlaintext(i: Inputs, text: string): Result<BodyBinding, AttestError> {
    var parts := Split(text, '\n');
    if |parts| != 7 || parts[..6] != [PLAINTEXT_PREFIX, i.nonceB64, i.ts, i.host, i.method_, i.path]
    then Err(PlaintextMismatch)
    else BindingOf(parts[6])
  }

  /** The rest of the header phase, against the nonces seen when the cache was consulted. */
  function TokenVerdict(crypto: Crypto, i: Inputs, ts: i64, seen: set<Nonce>): Result<PhaseOne, AttestError> {
    var nonce :- NonceOf(crypto, i.nonceB64);
    if nonce in seen then Err(NonceReplay)
    else
      var text :- OpenToken(crypto, i.tokenB64);
      var binding :- ComparePlaintext(i, text);
      Ok(PhaseOne(nonce, binding, ts))
  }

  function HeadersVerdict(crypto: Crypto, i: Inputs, now: i64, seen: set<Nonce>): Result<PhaseOne, AttestError> {
    var ts :- DriftVerdict(i, now);
    TokenVerdict(crypto, i, ts, seen)
  }

  /** `commit_nonce`: replay first, then the commit window on the wall clock, then the cache. */
  function CommitVerdict(c: Cache, p1: PhaseOne, wall: Wall, mono: Instant): (Cache, Result<Unit, AttestError>) {
    if p1.nonce in c.seen then (c, Err(NonceReplay))
    else
      var window := CheckCommitWindow(p1.ts, UnixNow(wall));
      if window.Err? then (c, window) else Committed(c, p1.nonce, mono)
  }

  predicate BodyMatches(binding: BodyBinding, digest: Digest) {
    binding.Hash? ==> binding.digest == digest
  }

  function CommitBody(c: Cache, p1: PhaseOne, digest: Digest, wall: Wall, mono: Instant)
    : (Cache, Result<Unit, AttestError>)
  {
    if BodyMatches(p1.binding, digest) then CommitVerdict(c, p1, wall, mono) else (c, Err(BodyHashMismatch))
  }

  /**
   * A commit succeeds exactly when the nonce is absent and the token inside its window; a refused
   * one leaves the cache as it was, and a successful one records the nonce at its commit time.
   */
  lemma CommitVerdictMeans(c: Cache, p1: PhaseOne, wall: Wall, mono: Instant)
    ensures var (d, r) := CommitVerdict(c, p1, wall, mono);
            && (r.Ok? <==> p1.nonce !in c.seen && p1.ts - 30 <= UnixNow(wall) < p1.ts + 91)
            && (r.Err? ==> d == c)
            && (r == Err(NonceReplay) <==> p1.nonce in c.seen)
            && (r.Err? && r.error.CommitTooLate? ==> UnixNow(wall) >= p1.ts + 91)
            && (r.Err? && r.error.TimestampDrift? ==> UnixNow(wall) < p1.ts - 30)
            && (r.Ok? ==> p1.nonce in d.seen && d.expiry != [] && d.expiry[|d.expiry| - 1] == Entry(p1.nonce, mono))
  {
  }

  class Verifier {
    const crypto: Crypto
    const cache: NonceCache

    constructor (crypto: Crypto)
      ensures this.crypto == crypto && fresh(cache) && cache.Contents() == EMPTY_CACHE
    {
      this.crypto := crypto;
      cache := new NonceCache();
    }

    method DecodeDigest(field: string) returns (r: Option<Digest>)
      requires |field| == HEX_HASH_LEN
      ensures r == DecodeHex(field)
    {
      var digest: seq<byte> := [];
      var idx := 0;
      assert field[0..] == field;
      PrependNothing(DecodeHex(field));
      while idx < 32
        invariant 0 <= idx <= 32 && |digest| == idx
        invariant DecodeHex(field) == Prepend(digest, DecodeHex(field[2 * idx..]))
      {
        var pair := HexPair(field[2 * idx], field[2 * idx + 1]);
        assert field[2 * idx..][2..] == field[2 * (idx + 1)..];
        if pair.None? {
          return None;
        }
        PrependMore(digest, pair.value, DecodeHex(field[2 * (idx + 1)..]));
        digest := digest + [pair.value];
        idx := idx + 1;
      }
      assert field[64..] == [] && digest + [] == digest;
      return Some(digest);
    }

    method VerifyHeaders(i: Inputs, wall: Wall) returns (r: Result<PhaseOne, AttestError>)
      ensures r == HeadersVerdict(crypto, i, UnixNow(wall), cache.seen)
    {
      var ts := ParseI64(i.ts);
      if ts.None? {
        return Err(BadTimestamp);
      }
      var drift := CheckDrift(ts.value, UnixNow(wall));
      if drift.Err? {
        return Err(drift.error);
      }
      var raw := crypto.decode64(i.nonceB64);
      if raw.None? || |raw.value| != NONCE_LEN {
        return Err(InvalidNonce);
      }
      var replay := cache.Contains(raw.value);
      if replay {
        return Err(NonceReplay);
      }
      var text := OpenToken(crypto, i.tokenB64);
      if text.Err? {
        return Err(text.error);
      }
      var parts := Split(text.value, '\n');
      if |parts| != 7 || parts[..6] != [PLAINTEXT_PREFIX, i.nonceB64, i.ts, i.host, i.method_, i.path] {
        return Err(PlaintextMismatch);
      }
      var binding := Streamed;
      if parts[6] != UNBOUND_SENTINEL {
        if |parts[6]| != HEX_HASH_LEN {
          return Err(PlaintextMismatch);
        }
        var digest := DecodeDigest(parts[6]);
        if digest.None? {
          return Err(PlaintextMismatch);
        }
        binding := Hash(digest.value);
      }
      return Ok(PhaseOne(raw.value, binding, ts.value));
    }

    method CommitNonce(p1: PhaseOne, wall: Wall, mono: Instant) returns (r: Result<Unit, AttestError>)
      modifies cache
      ensures (cache.Contents(), r) == CommitVerdict(old(cache.Contents()), p1, wall, mono)
    {
      var replay := cache.Contains(p1.nonce);
      if replay {
        return Err(NonceReplay);
      }
      r := CheckCommitWindow(p1.ts, UnixNow(wall));
      if r.Ok? {
        r := cache.Commit(p1.nonce, mono);
      }
    }

    method VerifyBodyAndCommit(p1: PhaseOne, digest: Digest, wall: Wall, mono: Instant)
      returns (r: Result<Unit, AttestError>)
      modifies cache
      ensures (cache.Contents(), r) == CommitBody(old(cache.Contents()), p1, digest, wall, mono)
    {
      if p1.binding.Hash? && p1.binding.digest != digest {
        return Err(BodyHashMismatch);
      }
      r := CommitNonce(p1, wall, mono);
    }
  }
}
