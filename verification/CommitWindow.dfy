/** The two timestamp windows of proxy/src/attest.rs, over 64-bit saturating arithmetic. */
module CommitWindow {
  import opened Wrappers

  const I64_MIN: int := -0x8000_0000_0000_0000
  const I64_MAX: int := 0x7fff_ffff_ffff_ffff

  type i64 = x: int | I64_MIN <= x <= I64_MAX

  const MAX_TS_DRIFT_SECS: i64 := 30
  const COMMIT_GRACE_SECS: i64 := 60
  const NONCE_TTL_SECS: i64 := 180
  const NANOS_PER_SEC: int := 1_000_000_000

  /** How long a committed nonce is remembered, on the monotonic clock. */
  const NONCE_TTL: int := NONCE_TTL_SECS * NANOS_PER_SEC

  /** What is left of the lifetime of an entry after the span in which one token is accepted. */
  const CLOCK_SLACK: int := 59 * NANOS_PER_SEC

  datatype AttestError =
    | BadTimestamp
    | TimestampDrift(secs: i64)
    | CommitTooLate(secs: i64)
    | InvalidNonce
    | NonceReplay
    | InvalidToken
    | DecryptFailed
    | PlaintextMismatch
    | BodyHashMismatch

  function Saturate(x: int): (r: i64)
    ensures I64_MIN <= x <= I64_MAX ==> r == x
  {
    if x < I64_MIN then I64_MIN else if x > I64_MAX then I64_MAX else x
  }

  function SaturatingSub(a: i64, b: i64): i64 {
    Saturate(a - b)
  }

  function SaturatingAbs(a: i64): i64 {
    if a == I64_MIN then I64_MAX else if a < 0 then -a else a
  }

  function Magnitude(x: int): int {
    if x < 0 then -x else x
  }

  /** Phase 1: the saturating test decides what unbounded integers would, for every pair of 64-bit values. */
  function CheckDrift(ts: i64, now: i64): (r: Result<Unit, AttestError>)
    ensures r.Ok? <==> ts - 30 <= now < ts + 31
    ensures r.Err? ==> r.error == TimestampDrift(Saturate(Magnitude(now - ts)))
  {
    var drift := SaturatingAbs(SaturatingSub(now, ts));
    if drift > MAX_TS_DRIFT_SECS then Err(TimestampDrift(drift)) else Ok(Unit)
  }

  /** Commit time: the lower bound of phase 1, and an upper bound extended by the grace period. */
  function CheckCommitWindow(ts: i64, now: i64): (r: Result<Unit, AttestError>)
    ensures r.Ok? <==> ts - 30 <= now < ts + 91
    ensures now < ts - 30 ==> r == Err(TimestampDrift(Saturate(ts - now)))
    ensures now >= ts + 91 ==> r == Err(CommitTooLate(Saturate(now - ts)))
  {
    var elapsed := SaturatingSub(now, ts);
    if elapsed < -MAX_TS_DRIFT_SECS then
      Err(TimestampDrift(SaturatingAbs(elapsed)))
    else if elapsed > MAX_TS_DRIFT_SECS + COMMIT_GRACE_SECS then
      Err(CommitTooLate(elapsed))
    else
      Ok(Unit)
  }

  /** A wall-clock time: nanoseconds since the Unix epoch, whose whole seconds fit 64 signed bits. */
  type Wall = w: int | I64_MIN * NANOS_PER_SEC <= w < (I64_MAX + 1) * NANOS_PER_SEC

  /** The clock as whole Unix seconds; a clock set before the epoch reads as the epoch. */
  function UnixNow(wall: Wall): (r: i64)
    ensures 0 <= wall ==> r * NANOS_PER_SEC <= wall < (r + 1) * NANOS_PER_SEC
    ensures wall < 0 ==> r == 0
  {
    if wall < 0 then 0 else wall / NANOS_PER_SEC
  }

  /**
   * Two wall readings that both pass the commit window of one token are less than 121 s apart,
   * provided neither is before the epoch; a reading before it widens the span by how far it is.
   */
  lemma AcceptanceSpan(ts: i64, first: Wall, second: Wall, early: nat)
    requires CheckCommitWindow(ts, UnixNow(first)).Ok?
    requires CheckCommitWindow(ts, UnixNow(second)).Ok?
    requires first + early >= 0
    ensures second - first < 121 * NANOS_PER_SEC + early
  {
    var a, b := UnixNow(first), UnixNow(second);
    assert a - b >= -120 && ts - 30 <= a && b <= ts + 90;
    if first < 0 {
      assert ts <= 30;
    }
  }
}
