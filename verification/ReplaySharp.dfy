/**
 * The slack is exact: a run in which one token is recorded twice, for every pair of bounds on the
 * clocks that together exceed 59 seconds.
 */
module ReplaySharp {
  import opened Wrappers
  import opened CommitWindow
  import opened ReplayCache
  import opened Text
  import opened AttestToken
  import opened RequestFilter
  import opened ProxyRun
  import opened ReplaySafety
  import opened BrowserToken

  // ── The requests ───────────────────────────────────────────────────────────

  const NONCE_A: Nonce := seq(NONCE_LEN, _ => 0)
  const NONCE_B: Nonce := seq(NONCE_LEN, _ => 1)

  /** An unbound upload by token `tag`; everything else about it is ordinary. */
  function UploadBy(tag: string, token: string, ts: i64): Request {
    Request("PUT", Readable("h"), None, "/", Readable(PrintI64(ts)), Readable(tag), Readable(token), NotSent, None)
  }

  function PlaintextOf(tag: string, token: string, ts: i64): string {
    Canonical(Inputs(PrintI64(ts), tag, token, "h", "PUT", "/"), UNBOUND_SENTINEL)
  }

  function TokenBytes(fill: byte, plaintext: string): seq<byte> {
    seq(EPHEMERAL_LEN + IV_LEN + |plaintext| + TAG_LEN, _ => fill)
  }

  /** A toy cipher: the first byte of the ephemeral point selects the plaintext. */
  function ToyCrypto(): Crypto {
    var (a, b) := (PlaintextOf("A", "a", 30), PlaintextOf("B", "b", 121));
    Crypto((s: string) => if s == "A" then Some(NONCE_A) else if s == "B" then Some(NONCE_B)
                          else if s == "a" then Some(TokenBytes(0, a)) else Some(TokenBytes(1, b)),
           (point: seq<byte>, iv: seq<byte>, sealed: seq<byte>) => if point != [] && point[0] == 0 then Plain(a)
             else Plain(b),
           (body: seq<byte>) => seq(32, _ => 0))
  }

  function Plainest(): Config {
    Config(ToyCrypto(), false, false, None)
  }

  function Enter(id: Id, rq: Request): seq<Step> {
    [Arrive(id, rq), DoPreflight(id, true, false), ReadHeaderClock(id), Consult(id)]
  }

  function Record(id: Id): seq<Step> {
    [TakeLock(id), ReadWall(id), ReadMono(id)]
  }

  lemma HostIsPlain()
    ensures Split("h", ':')[0] == "h"
  {
    SplitWhole("h", ':');
  }

  lemma {:induction false} PadNewlineFree(s: string)
    requires AllDigits(s)
    ensures '\n' !in s && '\n' !in "-" + s
  {
  }

  lemma TagsDiffer()
    ensures "A" != "B" && "A" != "a" && "B" != "a" && "A" != "b" && "B" != "b" && "a" != "b"
  {
    assert "A"[0] == 'A' && "B"[0] == 'B' && "a"[0] == 'a' && "b"[0] == 'b';
  }

  lemma ToySealed()
    ensures Sealed(ToyCrypto(), "a", PlaintextOf("A", "a", 30)) && Sealed(ToyCrypto(), "b", PlaintextOf("B", "b", 121))
  {
    TagsDiffer();
    var raw := TokenBytes(0, PlaintextOf("A", "a", 30));
    assert raw[..EPHEMERAL_LEN][0] == 0;
    var other := TokenBytes(1, PlaintextOf("B", "b", 121));
    assert other[..EPHEMERAL_LEN][0] == 1;
  }

  /** A toy token passes the header phase inside its window while its nonce is unknown. */
  lemma ToyAccepted(tag: string, token: string, ts: i64, nonce: Nonce, now: i64, seen: set<Nonce>)
    requires (tag == "A" && token == "a" && ts == 30 && nonce == NONCE_A)
               || (tag == "B" && token == "b" && ts == 121 && nonce == NONCE_B)
    requires ts - 30 <= now < ts + 31 && nonce !in seen
    ensures HeadersVerdict(ToyCrypto(), Inputs(PrintI64(ts), tag, token, "h", "PUT", "/"), now, seen)
              == Ok(PhaseOne(nonce, Streamed, ts))
  {
    var i := Inputs(PrintI64(ts), tag, token, "h", "PUT", "/");
    TagsDiffer();
    ToySealed();
    PadNewlineFree(Numeral(ts));
    assert NewlineFree(i);
    GenuineHeadersAccepted(ToyCrypto(), i, nonce, ts, Some(Upload([], false)), 0, now, seen);
  }

  /** The configuration admits the unbound upload `rq` for `nonce` and `ts`, whenever its window is open. */
  ghost predicate Admits(cfg: Config, rq: Request, nonce: Nonce, ts: i64) {
    && !cfg.rateLimiting && !cfg.bypass && cfg.machine.None? && HeadersComplete(rq)
    && forall now: i64, seen: set<Nonce> :: ts - 30 <= now < ts + 31 && nonce !in seen ==>
         HeadersVerdict(cfg.crypto, InputsOf(rq), now, seen) == Ok(PhaseOne(nonce, Streamed, ts))
  }

  lemma ToyAdmits(tag: string, token: string, ts: i64, nonce: Nonce)
    requires (tag == "A" && token == "a" && ts == 30 && nonce == NONCE_A)
               || (tag == "B" && token == "b" && ts == 121 && nonce == NONCE_B)
    ensures Admits(Plainest(), UploadBy(tag, token, ts), nonce, ts)
  {
    var rq := UploadBy(tag, token, ts);
    HostIsPlain();
    assert HeadersComplete(rq) && InputsOf(rq) == Inputs(PrintI64(ts), tag, token, "h", "PUT", "/");
    forall now: i64, seen: set<Nonce> | ts - 30 <= now < ts + 31 && nonce !in seen
      ensures HeadersVerdict(ToyCrypto(), InputsOf(rq), now, seen) == Ok(PhaseOne(nonce, Streamed, ts))
    {
      ToyAccepted(tag, token, ts, nonce, now, seen);
    }
  }

  lemma FourSteps(cfg: Config, s: State, a: Step, b: Step, c: Step, d: Step)
    ensures Exec(cfg, s, [a, b, c, d]) == Apply(cfg, Apply(cfg, Apply(cfg, Apply(cfg, s, a), b), c), d)
  {
    var s1 := Apply(cfg, s, a);
    assert [a, b, c, d][1..] == [b, c, d];
    ThreeSteps(cfg, s1, b, c, d);
  }

  lemma ThreeSteps(cfg: Config, s: State, a: Step, b: Step, c: Step)
    ensures Exec(cfg, s, [a, b, c]) == Apply(cfg, Apply(cfg, Apply(cfg, s, a), b), c)
  {
    var s2 := Apply(cfg, Apply(cfg, s, a), b);
    assert [a, b, c][1..] == [b, c] && [b, c][1..] == [c];
    OneStep(cfg, s2, c);
    assert Exec(cfg, Apply(cfg, s, a), [b, c]) == Exec(cfg, s2, [c]);
  }

  lemma OneStep(cfg: Config, s: State, step: Step)
    ensures Exec(cfg, s, [step]) == Apply(cfg, s, step)
  {
    assert [step][1..] == [];
  }

  lemma LocalApplies(cfg: Config, s: State, id: Id, job: Job, step: Step)
    requires !step.Tick? && !step.Arrive? && !step.TakeLock? && !step.ReadWall? && !step.ReadMono? && step.id == id
    ensures Apply(cfg, With(s, id, job), step) == With(s, id, Local(cfg, With(s, id, job), job, step))
  {
  }

  lemma AdmittedPreflight(cfg: Config, s: State, id: Id, rq: Request, nonce: Nonce, ts: i64) returns (job: Job)
    requires Admits(cfg, rq, nonce, ts)
    ensures job == Local(cfg, s, NewJob(cfg, rq), DoPreflight(id, true, false)) && job.pc == Passed && job.rq == rq
  {
    PreflightMeans(cfg, rq, true, false);
    job := Local(cfg, s, NewJob(cfg, rq), DoPreflight(id, true, false));
  }

  lemma AdmittedHeaders(cfg: Config, s: State, id: Id, job: Job, nonce: Nonce, ts: i64) returns (j2: Job, j3: Job)
    requires Admits(cfg, job.rq, nonce, ts) && job.pc == Passed
    requires s.lock.None? && nonce !in s.cache.seen && ts - 30 <= UnixNow(s.clock.wall) < ts + 31
    ensures j2 == Local(cfg, With(s, id, job), job, ReadHeaderClock(id))
    ensures j3 == Local(cfg, With(s, id, j2), j2, Consult(id)) && j3.pc == Ready(PhaseOne(nonce, Streamed, ts))
  {
    var now := UnixNow(s.clock.wall);
    assert HeadersVerdict(cfg.crypto, InputsOf(job.rq), now, s.cache.seen) == Ok(PhaseOne(nonce, Streamed, ts));
    j2 := Local(cfg, With(s, id, job), job, ReadHeaderClock(id));
    assert j2 == job.(pc := Clocked(now, ts));
    j3 := Local(cfg, With(s, id, j2), j2, Consult(id));
  }

  /** Four steps bring an admitted request to the point of committing. */
  lemma EnterRuns(cfg: Config, s: State, id: Id, rq: Request, nonce: Nonce, ts: i64) returns (t: State)
    requires Admits(cfg, rq, nonce, ts) && id !in s.jobs
    requires s.lock.None? && nonce !in s.cache.seen && ts - 30 <= UnixNow(s.clock.wall) < ts + 31
    ensures t == Exec(cfg, s, Enter(id, rq))
    ensures id in t.jobs && t.jobs[id].pc == Ready(PhaseOne(nonce, Streamed, ts)) && t == With(s, id, t.jobs[id])
  {
    var j0 := NewJob(cfg, rq);
    var j1 := AdmittedPreflight(cfg, With(s, id, j0), id, rq, nonce, ts);
    var j2, j3 := AdmittedHeaders(cfg, s, id, j1, nonce, ts);
    FourSteps(cfg, s, Arrive(id, rq), DoPreflight(id, true, false), ReadHeaderClock(id), Consult(id));
    assert Apply(cfg, s, Arrive(id, rq)) == With(s, id, j0);
    LocalApplies(cfg, s, id, j0, DoPreflight(id, true, false));
    LocalApplies(cfg, s, id, j1, ReadHeaderClock(id));
    LocalApplies(cfg, s, id, j2, Consult(id));
    t := With(s, id, j3);
  }

  lemma LockApplies(cfg: Config, s: State, id: Id, p1: PhaseOne) returns (t: State)
    requires id in s.jobs && s.jobs[id].pc == Ready(p1) && s.lock.None? && p1.nonce !in s.cache.seen
    ensures t == Apply(cfg, s, TakeLock(id))
    ensures t == s.(jobs := t.jobs, lock := Some(id)) && id in t.jobs && t.jobs[id].pc == Locked(p1)
              && t.jobs == s.jobs[id := t.jobs[id]]
  {
    t := Apply(cfg, s, TakeLock(id));
  }

  lemma WallApplies(cfg: Config, s: State, id: Id, p1: PhaseOne) returns (t: State)
    requires id in s.jobs && s.jobs[id].pc == Locked(p1) && p1.ts - 30 <= UnixNow(s.clock.wall) < p1.ts + 91
    ensures t == Apply(cfg, s, ReadWall(id))
    ensures t == s.(jobs := t.jobs, readings := s.readings + [s.clock])
    ensures id in t.jobs && t.jobs[id].pc == Timed(p1, |s.readings|) && t.jobs == s.jobs[id := t.jobs[id]]
  {
    t := Apply(cfg, s, ReadWall(id));
  }

  lemma MonoApplies(cfg: Config, s: State, id: Id, p1: PhaseOne, w: nat) returns (t: State)
    requires id in s.jobs && s.jobs[id].pc == Timed(p1, w) && p1.nonce !in s.cache.seen
    ensures t == Apply(cfg, s, ReadMono(id))
    ensures t.clock == s.clock && t.lock == None && t.readings == s.readings + [s.clock]
    ensures t.cache == Committed(s.cache, p1.nonce, s.clock.mono).0
    ensures t.commits == s.commits + [Commit(id, p1.nonce, p1.ts, w, |s.readings|)]
    ensures id in t.jobs && t.jobs == s.jobs[id := t.jobs[id]]
  {
    t := Apply(cfg, s, ReadMono(id));
  }

  /** Three steps record the nonce of a request ready to commit, inside its window. */
  lemma RecordRuns(cfg: Config, s: State, id: Id, p1: PhaseOne) returns (t: State)
    requires id in s.jobs && s.jobs[id].pc == Ready(p1) && s.lock.None?
    requires p1.nonce !in s.cache.seen && p1.ts - 30 <= UnixNow(s.clock.wall) < p1.ts + 91
    ensures t == Exec(cfg, s, Record(id))
    ensures t.clock == s.clock && t.lock == None && t.readings == s.readings + [s.clock, s.clock]
    ensures t.cache == Committed(s.cache, p1.nonce, s.clock.mono).0
    ensures t.commits == s.commits + [Commit(id, p1.nonce, p1.ts, |s.readings|, |s.readings| + 1)]
    ensures id in t.jobs && t.jobs == s.jobs[id := t.jobs[id]]
  {
    ThreeSteps(cfg, s, TakeLock(id), ReadWall(id), ReadMono(id));
    var s1 := LockApplies(cfg, s, id, p1);
    var s2 := WallApplies(cfg, s1, id, p1);
    t := MonoApplies(cfg, s2, id, p1, |s.readings|);
    assert s.readings + [s.clock] + [s.clock] == s.readings + [s.clock, s.clock];
  }

  // ── The run ────────────────────────────────────────────────────────────────

  /** Two copies of one token pass phase 1; the second commits after the first one's entry was evicted. */
  function ReplaySteps(rqA: Request, rqB: Request, late: Clock): seq<Step> {
    Enter(0, rqA) + (Enter(1, rqA) + (Record(0) + ([Tick(late)] + (Enter(2, rqB) + (Record(2) + Record(1))))))
  }

  lemma NoncesDiffer()
    ensures NONCE_A != NONCE_B
  {
    assert NONCE_A[0] != NONCE_B[0];
  }

  /** An entry a lifetime old makes way for the next. */
  lemma Replaced(c: Cache, nonce: Nonce, other: Nonce, now: Instant)
    requires c == Cache({nonce}, [Entry(nonce, 0)]) && other != nonce && now == NONCE_TTL
    ensures Committed(c, other, now).0.seen == {other}
  {
    assert Expired(c.expiry[0], now) && EvictCount(c.expiry, now, MAX_EVICTIONS_PER_COMMIT) == 1;
    assert Nonces(c.expiry[..1]) == {nonce} by {
      assert c.expiry[..1] == [Entry(nonce, 0)];
    }
  }

  lemma FirstCommit(nonce: Nonce, now: Instant)
    ensures Committed(EMPTY_CACHE, nonce, now).0 == Cache({nonce}, [Entry(nonce, now)])
  {
    assert EvictCount([], now, MAX_EVICTIONS_PER_COMMIT) == 0;
    assert Nonces([]) == {};
  }

  lemma TwoCopies(cfg: Config, s: State, rqA: Request, a: Nonce) returns (s1: State, s2: State)
    requires Admits(cfg, rqA, a, 30) && UnixNow(s.clock.wall) == 0
    requires s.lock == None && a !in s.cache.seen && 0 !in s.jobs && 1 !in s.jobs && 2 !in s.jobs
    ensures s1 == Exec(cfg, s, Enter(0, rqA)) && s2 == Exec(cfg, s1, Enter(1, rqA))
    ensures s2 == s.(jobs := s2.jobs) && 2 !in s2.jobs
    ensures 0 in s2.jobs && s2.jobs[0].pc == Ready(PhaseOne(a, Streamed, 30))
    ensures 1 in s2.jobs && s2.jobs[1].pc == Ready(PhaseOne(a, Streamed, 30))
  {
    s1 := EnterRuns(cfg, s, 0, rqA, a, 30);
    s2 := EnterRuns(cfg, s1, 1, rqA, a, 30);
  }

  lemma FirstHalf(cfg: Config, s: State, rqA: Request, a: Nonce) returns (s1: State, s2: State, s3: State)
    requires Admits(cfg, rqA, a, 30) && UnixNow(s.clock.wall) == 0
    requires s.lock == None && a !in s.cache.seen && 0 !in s.jobs && 1 !in s.jobs && 2 !in s.jobs
    ensures s1 == Exec(cfg, s, Enter(0, rqA)) && s2 == Exec(cfg, s1, Enter(1, rqA)) && s3 == Exec(cfg, s2, Record(0))
    ensures s3.clock == s.clock && s3.lock == None && s3.readings == s.readings + [s.clock, s.clock]
    ensures s3.cache == Committed(s.cache, a, s.clock.mono).0
    ensures s3.commits == s.commits + [Commit(0, a, 30, |s.readings|, |s.readings| + 1)]
    ensures 1 in s3.jobs && s3.jobs[1].pc == Ready(PhaseOne(a, Streamed, 30)) && 2 !in s3.jobs
  {
    s1, s2 := TwoCopies(cfg, s, rqA, a);
    s3 := RecordRuns(cfg, s2, 0, PhaseOne(a, Streamed, 30));
  }

  lemma SecondHalf(cfg: Config, s: State, rqB: Request, a: Nonce, b: Nonce) returns (s1: State, s2: State, s3: State)
    requires Admits(cfg, rqB, b, 121) && a != b
    requires s.lock == None && s.cache == Cache({a}, [Entry(a, 0)]) && |s.commits| == 1
    requires 1 in s.jobs && s.jobs[1].pc == Ready(PhaseOne(a, Streamed, 30)) && 2 !in s.jobs
    requires UnixNow(s.clock.wall) == 120 && s.clock.mono == NONCE_TTL
    ensures s1 == Exec(cfg, s, Enter(2, rqB)) && s2 == Exec(cfg, s1, Record(2)) && s3 == Exec(cfg, s2, Record(1))
    ensures s3.readings == s.readings + [s.clock, s.clock, s.clock, s.clock]
    ensures |s3.commits| == 3 && s3.commits[0] == s.commits[0] && s3.commits[2].nonce == a && s3.commits[2].ts == 30
  {
    s1, s2 := SecondToken(cfg, s, rqB, a, b);
    s3 := RecordRuns(cfg, s2, 1, PhaseOne(a, Streamed, 30));
    TwiceTwo(s.readings, s.clock);
  }

  lemma TwiceTwo<T>(s: seq<T>, x: T)
    ensures s + [x, x] + [x, x] == s + [x, x, x, x]
  {
  }

  /** The second token's commit evicts the first one's entry. */
  lemma SecondToken(cfg: Config, s: State, rqB: Request, a: Nonce, b: Nonce) returns (s1: State, s2: State)
    requires Admits(cfg, rqB, b, 121) && a != b
    requires s.lock == None && s.cache == Cache({a}, [Entry(a, 0)]) && |s.commits| == 1
    requires 1 in s.jobs && s.jobs[1].pc == Ready(PhaseOne(a, Streamed, 30)) && 2 !in s.jobs
    requires UnixNow(s.clock.wall) == 120 && s.clock.mono == NONCE_TTL
    ensures s1 == Exec(cfg, s, Enter(2, rqB)) && s2 == Exec(cfg, s1, Record(2))
    ensures s2.clock == s.clock && s2.lock == None && s2.readings == s.readings + [s.clock, s.clock]
              && a !in s2.cache.seen
    ensures |s2.commits| == 2 && s2.commits[0] == s.commits[0]
    ensures 1 in s2.jobs && s2.jobs[1].pc == Ready(PhaseOne(a, Streamed, 30))
  {
    s1 := EnterRuns(cfg, s, 2, rqB, b, 121);
    s2 := RecordRuns(cfg, s1, 2, PhaseOne(b, Streamed, 121));
    Replaced(s.cache, a, b, NONCE_TTL);
  }

  lemma TickRuns(cfg: Config, s: State, late: Clock) returns (t: State)
    requires late.mono >= s.clock.mono
    ensures t == Exec(cfg, s, [Tick(late)]) && t == s.(clock := late)
  {
    OneStep(cfg, s, Tick(late));
    t := s.(clock := late);
  }

  lemma FromFresh(cfg: Config, s: State, rqA: Request, rqB: Request, a: Nonce, b: Nonce, late: Clock) returns (t: State)
    requires Admits(cfg, rqA, a, 30) && Admits(cfg, rqB, b, 121) && a != b
    requires UnixNow(s.clock.wall) == 0 && s.clock.mono == 0 && UnixNow(late.wall) == 120 && late.mono == NONCE_TTL
    requires s.lock == None && s.cache == EMPTY_CACHE && s.commits == [] && 0 !in s.jobs && 1 !in s.jobs && 2 !in s.jobs
    ensures t == Exec(cfg, s, ReplaySteps(rqA, rqB, late))
    ensures t.readings == s.readings + [s.clock, s.clock] + [late, late, late, late]
    ensures |t.commits| == 3 && t.commits[0].nonce == t.commits[2].nonce && t.commits[0].ts == t.commits[2].ts
  {
    FirstCommit(a, 0);
    var s1, s2, s3 := FirstHalf(cfg, s, rqA, a);
    var s4 := TickRuns(cfg, s3, late);
    var s5, s6, s7 := SecondHalf(cfg, s4, rqB, a, b);
    ExecParts(cfg, s, rqA, rqB, late);
    t := s7;
  }

  lemma WholeRun(cfg: Config, start: Clock, rqA: Request, rqB: Request, a: Nonce, b: Nonce, late: Clock)
    requires Admits(cfg, rqA, a, 30) && Admits(cfg, rqB, b, 121) && a != b
    requires UnixNow(start.wall) == 0 && start.mono == 0 && UnixNow(late.wall) == 120 && late.mono == NONCE_TTL
    ensures var t := Run(cfg, start, ReplaySteps(rqA, rqB, late));
            && t.readings == [start, start, late, late, late, late]
            && |t.commits| == 3 && t.commits[0].nonce == t.commits[2].nonce && t.commits[0].ts == t.commits[2].ts
  {
    var steps := ReplaySteps(rqA, rqB, late);
    RunFromStart(cfg, start, steps);
    var t := FromFresh(cfg, Initial(start), rqA, rqB, a, b, late);
    assert [] + [start, start] + [late, late, late, late] == [start, start, late, late, late, late];
  }

  lemma ExecParts(cfg: Config, s: State, rqA: Request, rqB: Request, late: Clock)
    ensures Exec(cfg, s, ReplaySteps(rqA, rqB, late))
         == Exec(cfg,
                 Exec(cfg,
                      Exec(cfg,
                           Exec(cfg, Exec(cfg, Exec(cfg, Exec(cfg, s, Enter(0, rqA)), Enter(1, rqA)), Record(0)),
                                [Tick(late)]), Enter(2, rqB)), Record(2)), Record(1))
  {
    SevenParts(cfg, s, Enter(0, rqA), Enter(1, rqA), Record(0), [Tick(late)], Enter(2, rqB), Record(2), Record(1));
  }

  lemma SevenParts(cfg: Config, s: State, a: seq<Step>, b: seq<Step>, c: seq<Step>, d: seq<Step>, e: seq<Step>,
                   f: seq<Step>, g: seq<Step>)
    ensures Exec(cfg, s, a + (b + (c + (d + (e + (f + g))))))
         == Exec(cfg, Exec(cfg, Exec(cfg, Exec(cfg, Exec(cfg, Exec(cfg, Exec(cfg, s, a), b), c), d), e), f), g)
  {
    var s1 := Exec(cfg, s, a);
    var s2 := Exec(cfg, s1, b);
    var s3 := Exec(cfg, s2, c);
    var s4 := Exec(cfg, s3, d);
    ExecConcat(cfg, s, a, b + (c + (d + (e + (f + g)))));
    ExecConcat(cfg, s1, b, c + (d + (e + (f + g))));
    ExecConcat(cfg, s2, c, d + (e + (f + g)));
    ExecConcat(cfg, s3, d, e + (f + g));
    ExecConcat(cfg, s4, e, f + g);
    ExecConcat(cfg, Exec(cfg, s4, e), f, g);
  }

  lemma SixReadings(start: Clock, late: Clock, loss: nat, early: nat)
    requires start.mono <= late.mono && late.wall - start.wall >= late.mono - start.mono - loss
    requires start.wall + early >= 0 && late.wall >= 0
    ensures ClocksWithin([start, start, late, late, late, late], loss, early)
  {
  }

  /** Where a clock may read so early, or lose so much, one token is recorded twice. */
  lemma ReplayRun(loss: nat, early: nat)
    requires loss + early > CLOCK_SLACK
    ensures !ReplayProof(loss, early)
  {
    var x := if early <= CLOCK_SLACK + 1 then early else CLOCK_SLACK + 1;
    var start := Clock(0 - x, 0);
    var late := Clock(121 * NANOS_PER_SEC - 1, NONCE_TTL);
    var (cfg, rqA, rqB) := (Plainest(), UploadBy("A", "a", 30), UploadBy("B", "b", 121));
    ToyAdmits("A", "a", 30, NONCE_A);
    ToyAdmits("B", "b", 121, NONCE_B);
    NoncesDiffer();
    WholeRun(cfg, start, rqA, rqB, NONCE_A, NONCE_B, late);
    SixReadings(start, late, loss, early);
    var t := Run(cfg, start, ReplaySteps(rqA, rqB, late));
    assert !NoTokenTwice(t.commits);
  }

  // ── Main result ────────────────────────────────────────────────────────────

  /** No run of any proxy whose locked clock readings stay within the bounds records a token twice. */
  ghost predicate ReplayProof(loss: nat, early: nat) {
    forall cfg: Config, start: Clock, steps: seq<Step> ::
      ClocksWithin(Run(cfg, start, steps).readings, loss, early) ==> NoTokenTwice(Run(cfg, start, steps).commits)
  }

  /**
   * The exact tolerance: tokens are proof against replay if and only if what the wall clock may lose
   * between two readings, plus how far before the epoch it may read, is at most 59 seconds.
   */
  lemma ReplayProofExactly(loss: nat, early: nat)
    ensures ReplayProof(loss, early) <==> loss + early <= CLOCK_SLACK
  {
    if loss + early <= CLOCK_SLACK {
      forall cfg: Config, start: Clock, steps: seq<Step> | ClocksWithin(Run(cfg, start, steps).readings, loss, early)
        ensures NoTokenTwice(Run(cfg, start, steps).commits)
      {
        NoReplay(cfg, start, steps, loss, early);
      }
    } else {
      ReplayRun(loss, early);
    }
  }
}
