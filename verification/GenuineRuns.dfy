/**
 * A genuine request among any others.  Whatever other requests do meanwhile, as long as none of them
 * carries its nonce, it is never refused; when it is done, it has been forwarded.
 */
module GenuineRuns {
  import opened Wrappers
  import opened CommitWindow
  import opened ReplayCache
  import opened AttestToken
  import opened RequestFilter
  import opened ProxyRun
  import opened ProxyInvariant
  import opened ReplaySafety
  import opened BrowserToken
  import ProxyCache
  import Audit
  import MachineIdentity

  /** A request under its number, what its token says, and the body it sends. */
  datatype Genuine = Genuine(id: Id, rq: Request, p1: PhaseOne, body: seq<byte>)

  /** The request's header carries this nonce. */
  predicate Carries(crypto: Crypto, rq: Request, nonce: Nonce) {
    rq.nonce.Readable? && NonceOf(crypto, rq.nonce.text) == Ok(nonce)
  }

  /** The headers pass inside the drift window while the nonce is unknown, and the body is the one bound. */
  ghost predicate Acceptable(cfg: Config, g: Genuine) {
    && HeadersComplete(g.rq) && !MachineMissing(cfg, g.rq)
    && (forall now: i64 :: g.p1.ts - 30 <= now < g.p1.ts + 31 ==> DriftVerdict(InputsOf(g.rq), now) == Ok(g.p1.ts))
    && (forall seen: set<Nonce> :: g.p1.nonce !in seen ==>
        TokenVerdict(cfg.crypto, InputsOf(g.rq), g.p1.ts, seen) == Ok(g.p1))
    && (g.p1.binding.Hash? ==> |g.body| <= BOUND_BODY_MAX && cfg.crypto.sha256(g.body) == g.p1.binding.digest)
  }

  /**
   * What the world must do for the request: its own steps are taken inside the windows, its machine
   * check passes, and its body arrives; and no other request carries its nonce.
   */
  ghost predicate Kind(cfg: Config, g: Genuine, s: State, step: Step) {
    match step
    case Tick(_) => true
    case Arrive(id, rq) => if id == g.id then rq == g.rq else !Carries(cfg.crypto, rq, g.p1.nonce)
    case _ => step.id == g.id && g.id in s.jobs ==> KindToOwn(cfg, g, s.clock, s.jobs[g.id], step)
  }

  ghost predicate KindToOwn(cfg: Config, g: Genuine, clock: Clock, job: Job, step: Step) {
    match step
    case DoPreflight(_, admitted, authorized) => !RateRefused(cfg, g.rq, admitted) && !Bypassed(cfg, g.rq, authorized)
    case ReadHeaderClock(_) => g.p1.ts - 30 <= UnixNow(clock.wall) < g.p1.ts + 31
    case MachineAnswer(_, cert, answer) => MachineVerdict(g.rq, cert, answer).Ok?
    case ReadChunk(_, chunk) => job.read + chunk <= g.body
    case EndBody(_) => job.read == g.body
    case FailBody(_) => false
    case Drop(_) => false
    case ReadWall(_) => g.p1.ts - 30 <= UnixNow(clock.wall) < g.p1.ts + 91
    case _ => true
  }

  ghost predicate KindRun(cfg: Config, g: Genuine, start: Clock, steps: seq<Step>) {
    forall k :: 0 <= k < |steps| ==> Kind(cfg, g, Run(cfg, start, steps[..k]), steps[k])
  }

  /** Where the request may stand: on its way, never refused. */
  predicate OnTrack(g: Genuine, job: Job) {
    && job.rq == g.rq
    && match job.pc
       case Arrived => true
       case Passed => true
       case Clocked(_, ts) => ts == g.p1.ts
       case AwaitMachine(p1) => p1 == g.p1
       case Reading(p1) => p1 == g.p1 && job.read <= g.body
       case Ready(p1) => p1 == g.p1
       case Locked(p1) => p1 == g.p1
       case Timed(p1, _) => p1 == g.p1
       case Spent(p1, _) => p1 == g.p1
       case Through(p1, _) => p1 == g.p1
       case _ => false
  }

  /** The request is on its way, if it has arrived, and no other request carries its nonce. */
  ghost predicate Alone(cfg: Config, g: Genuine, s: State) {
    && (g.id in s.jobs ==> OnTrack(g, s.jobs[g.id]))
    && (forall id :: id in s.jobs && id != g.id ==> !Carries(cfg.crypto, s.jobs[id].rq, g.p1.nonce))
  }

  // ── The nonce stays free until the request commits ─────────────────────────

  lemma HeadersCarry(cfg: Config, job: Job, p1: PhaseOne)
    requires HeadersPassed(cfg, job, p1)
    ensures Carries(cfg.crypto, job.rq, p1.nonce)
  {
  }

  /** Only the request itself can have put its nonce into the cache. */
  lemma NonceFree(cfg: Config, g: Genuine, s: State)
    requires JobsOk(cfg, s) && LedgerOk(s) && ProxyCache.Recorded(s.readings, s.commits, s.cache) && Alone(cfg, g, s)
    requires g.id in s.jobs && !s.jobs[g.id].pc.HasCommitted()
    ensures g.p1.nonce !in s.cache.seen
  {
    if g.p1.nonce in s.cache.seen {
      var k := ProxyCache.SeenIsCommitted(s, g.p1.nonce);
      var job := s.jobs[s.commits[k].id];
      assert JobOk(cfg, job);
      HeadersCarry(cfg, job, job.pc.p1);
    }
  }

  // ── One step ───────────────────────────────────────────────────────────────

  predicate IsOwn(g: Genuine, step: Step) {
    !step.Tick? && !step.Arrive? && step.id == g.id
  }

  lemma PreflightOnTrack(cfg: Config, g: Genuine, s: State, job: Job, step: Step)
    requires Acceptable(cfg, g) && OnTrack(g, job) && step.DoPreflight? && KindToOwn(cfg, g, s.clock, job, step)
    ensures OnTrack(g, Local(cfg, s, job, step))
  {
    if job.pc.Arrived? {
      PreflightMeans(cfg, g.rq, step.admitted, step.authorized);
    }
  }

  lemma HeadersOnTrack(cfg: Config, g: Genuine, s: State, job: Job, step: Step)
    requires Acceptable(cfg, g) && OnTrack(g, job) && (step.ReadHeaderClock? || step.Consult?)
    requires JobOk(cfg, job) && KindToOwn(cfg, g, s.clock, job, step)
               && (!job.pc.HasCommitted() ==> g.p1.nonce !in s.cache.seen)
    ensures OnTrack(g, Local(cfg, s, job, step))
  {
    if step.Consult? && job.pc.Clocked? && s.lock.None? {
      assert TokenVerdict(cfg.crypto, InputsOf(g.rq), g.p1.ts, s.cache.seen) == Ok(g.p1);
    }
  }

  lemma MachineOnTrack(cfg: Config, g: Genuine, s: State, job: Job, step: Step)
    requires OnTrack(g, job) && step.MachineAnswer? && JobOk(cfg, job) && KindToOwn(cfg, g, s.clock, job, step)
    ensures OnTrack(g, Local(cfg, s, job, step))
  {
  }

  lemma BodyOnTrack(cfg: Config, g: Genuine, s: State, job: Job, step: Step)
    requires Acceptable(cfg, g) && OnTrack(g, job) && (step.ReadChunk? || step.EndBody?)
    requires JobOk(cfg, job) && KindToOwn(cfg, g, s.clock, job, step)
    ensures OnTrack(g, Local(cfg, s, job, step))
  {
  }

  lemma LocalOnTrack(cfg: Config, g: Genuine, s: State, job: Job, step: Step)
    requires Acceptable(cfg, g) && OnTrack(g, job) && LocalStep(step)
    requires JobOk(cfg, job) && KindToOwn(cfg, g, s.clock, job, step)
               && (!job.pc.HasCommitted() ==> g.p1.nonce !in s.cache.seen)
    ensures OnTrack(g, Local(cfg, s, job, step))
  {
    match step
    case DoPreflight(_, _, _) => PreflightOnTrack(cfg, g, s, job, step);
    case ReadHeaderClock(_) => HeadersOnTrack(cfg, g, s, job, step);
    case Consult(_) => HeadersOnTrack(cfg, g, s, job, step);
    case MachineAnswer(_, _, _) => MachineOnTrack(cfg, g, s, job, step);
    case ReadChunk(_, _) => BodyOnTrack(cfg, g, s, job, step);
    case EndBody(_) => BodyOnTrack(cfg, g, s, job, step);
    case _ =>
  }

  ghost predicate OwnOnTrack(g: Genuine, t: State) {
    g.id in t.jobs && OnTrack(g, t.jobs[g.id])
  }

  lemma TakeLockOnTrack(cfg: Config, g: Genuine, s: State)
    requires OwnOnTrack(g, s) && (s.jobs[g.id].pc.Ready? ==> g.p1.nonce !in s.cache.seen)
    ensures OwnOnTrack(g, Apply(cfg, s, TakeLock(g.id)))
  {
  }

  lemma ReadWallOnTrack(cfg: Config, g: Genuine, s: State)
    requires OwnOnTrack(g, s) && g.p1.ts - 30 <= UnixNow(s.clock.wall) < g.p1.ts + 91
    ensures OwnOnTrack(g, Apply(cfg, s, ReadWall(g.id)))
  {
  }

  lemma ReadMonoOnTrack(cfg: Config, g: Genuine, s: State)
    requires OwnOnTrack(g, s) && (s.jobs[g.id].pc.Timed? ==> g.p1.nonce !in s.cache.seen)
    ensures OwnOnTrack(g, Apply(cfg, s, ReadMono(g.id)))
  {
  }

  /** What the request itself does keeps it on its way. */
  lemma OwnStep(cfg: Config, g: Genuine, s: State, step: Step)
    requires Acceptable(cfg, g) && OwnOnTrack(g, s) && JobOk(cfg, s.jobs[g.id])
    requires IsOwn(g, step) && KindToOwn(cfg, g, s.clock, s.jobs[g.id], step)
    requires !s.jobs[g.id].pc.HasCommitted() ==> g.p1.nonce !in s.cache.seen
    ensures OwnOnTrack(g, Apply(cfg, s, step))
  {
    if step.TakeLock? {
      TakeLockOnTrack(cfg, g, s);
    } else if step.ReadWall? {
      ReadWallOnTrack(cfg, g, s);
    } else if step.ReadMono? {
      ReadMonoOnTrack(cfg, g, s);
    } else {
      LocalOnTrack(cfg, g, s, s.jobs[g.id], step);
    }
  }

  lemma OthersKeepAlone(cfg: Config, g: Genuine, s: State, t: State, step: Step)
    requires Alone(cfg, g, s) && Kind(cfg, g, s, step) && TouchesOne(cfg, s, t, step)
    requires g.id in s.jobs && g.id in t.jobs && t.jobs[g.id] != s.jobs[g.id] ==> OnTrack(g, t.jobs[g.id])
    ensures Alone(cfg, g, t)
  {
  }

  lemma StepKeepsAlone(cfg: Config, g: Genuine, s: State, step: Step, t: State)
    requires Acceptable(cfg, g) && JobsOk(cfg, s) && LedgerOk(s) && ProxyCache.Recorded(s.readings, s.commits, s.cache)
    requires Alone(cfg, g, s) && Kind(cfg, g, s, step) && t == Apply(cfg, s, step)
    ensures Alone(cfg, g, t)
  {
    StepTouchesOne(cfg, s, step);
    if g.id in s.jobs && IsOwn(g, step) {
      if !s.jobs[g.id].pc.HasCommitted() {
        NonceFree(cfg, g, s);
      }
      assert JobOk(cfg, s.jobs[g.id]);
      OwnStep(cfg, g, s, step);
    }
    OthersKeepAlone(cfg, g, s, t, step);
  }

  // ── Every run ──────────────────────────────────────────────────────────────

  lemma KindBefore(cfg: Config, g: Genuine, start: Clock, steps: seq<Step>)
    requires steps != [] && KindRun(cfg, g, start, steps)
    ensures KindRun(cfg, g, start, steps[..|steps| - 1])
    ensures Kind(cfg, g, Run(cfg, start, steps[..|steps| - 1]), steps[|steps| - 1])
  {
    var init := steps[..|steps| - 1];
    forall k | 0 <= k < |init| ensures Kind(cfg, g, Run(cfg, start, init[..k]), init[k]) {
      assert init[..k] == steps[..k];
    }
  }

  lemma {:induction false} RunAlone(cfg: Config, g: Genuine, start: Clock, steps: seq<Step>)
    requires Acceptable(cfg, g) && KindRun(cfg, g, start, steps)
    ensures Alone(cfg, g, Run(cfg, start, steps))
  {
    if steps != [] {
      var init := steps[..|steps| - 1];
      KindBefore(cfg, g, start, steps);
      RunAlone(cfg, g, start, init);
      RunJobs(cfg, start, init);
      RunKeeps(cfg, start, init);
      ProxyCache.RunRecorded(cfg, start, init);
      StepKeepsAlone(cfg, g, Run(cfg, start, init), steps[|steps| - 1], Run(cfg, start, steps));
    }
  }

  /** What is known of the states of a run that treats the request kindly. */
  ghost predicate Reached(cfg: Config, g: Genuine, s: State) {
    JobsOk(cfg, s) && LockOk(s) && LedgerOk(s) && ProxyCache.Recorded(s.readings, s.commits, s.cache)
      && Alone(cfg, g, s)
  }

  lemma RunReached(cfg: Config, g: Genuine, start: Clock, steps: seq<Step>)
    requires Acceptable(cfg, g) && KindRun(cfg, g, start, steps)
    ensures Reached(cfg, g, Run(cfg, start, steps))
  {
    RunAlone(cfg, g, start, steps);
    RunJobs(cfg, start, steps);
    RunKeeps(cfg, start, steps);
    ProxyCache.RunRecorded(cfg, start, steps);
  }

  /** Answered, sent on or dropped. */
  predicate Finished(pc: Pc) {
    pc.Answered? || pc.Through? || pc.ThroughBypass? || pc.Dropped?
  }

  /** Once finished the request has been forwarded, attested, on a commit of its own nonce. */
  ghost predicate Forwarded(s: State, g: Genuine) {
    && g.id in s.jobs
    && var job := s.jobs[g.id];
       && job.pc.Through? && job.pc.p1 == g.p1 && job.audit.action == Some(Audit.Forward)
       && job.pc.commit < |s.commits|
       && var c := s.commits[job.pc.commit];
          c.id == g.id && c.nonce == g.p1.nonce && c.ts == g.p1.ts
  }

  lemma FinishedIsForwarded(cfg: Config, g: Genuine, s: State)
    requires JobsOk(cfg, s) && LedgerOk(s) && Alone(cfg, g, s) && g.id in s.jobs && Finished(s.jobs[g.id].pc)
    ensures Forwarded(s, g)
  {
    assert JobOk(cfg, s.jobs[g.id]);
  }

  /** In every run that treats it kindly the request is on its way or forwarded, never refused. */
  lemma KindRunForwards(cfg: Config, g: Genuine, start: Clock, steps: seq<Step>)
    requires Acceptable(cfg, g) && KindRun(cfg, g, start, steps) && g.id in Run(cfg, start, steps).jobs
    ensures var s := Run(cfg, start, steps); !Finished(s.jobs[g.id].pc) || Forwarded(s, g)
  {
    RunReached(cfg, g, start, steps);
    var s := Run(cfg, start, steps);
    if Finished(s.jobs[g.id].pc) {
      FinishedIsForwarded(cfg, g, s);
    }
  }

  // ── It can always go on ────────────────────────────────────────────────────

  function Rank(pc: Pc): nat {
    match pc
    case Arrived => 0
    case Passed => 1
    case Clocked(_, _) => 2
    case AwaitMachine(_) => 3
    case Reading(_) => 4
    case Ready(_) => 5
    case Locked(_) => 6
    case Timed(_, _) => 7
    case Spent(_, _) => 8
    case _ => 9
  }

  /** Past the point it stood at, or with more of its body read. */
  predicate Further(job: Job, job': Job) {
    Rank(job.pc) < Rank(job'.pc) || (job.pc.Reading? && job.pc == job'.pc && |job.read| < |job'.read|)
  }

  /** The step that takes the request on, given a machine check that passes. */
  function NextStep(g: Genuine, job: Job, cert: CertResult, answer: Option<MachineIdentity.Answer>): Step {
    match job.pc
    case Arrived => DoPreflight(g.id, true, false)
    case Passed => ReadHeaderClock(g.id)
    case Clocked(_, _) => Consult(g.id)
    case AwaitMachine(_) => MachineAnswer(g.id, cert, answer)
    case Reading(_) => if |job.read| < |g.body| then ReadChunk(g.id, g.body[|job.read|..]) else EndBody(g.id)
    case Ready(_) => TakeLock(g.id)
    case Locked(_) => ReadWall(g.id)
    case Timed(_, _) => ReadMono(g.id)
    case _ => Send(g.id)
  }

  /** The windows are open, the lock is not in another request's hands, and the machine check would pass. */
  ghost predicate Welcomes(cfg: Config, g: Genuine, s: State, cert: CertResult, answer: Option<MachineIdentity.Answer>)
  {
    && g.p1.ts - 30 <= UnixNow(s.clock.wall) < g.p1.ts + 31
    && (s.lock.None? || s.lock == Some(g.id))
    && (MachineChecked(cfg, g.rq) ==> MachineVerdict(g.rq, cert, answer).Ok?)
  }

  lemma HeadersGoOn(cfg: Config, g: Genuine, s: State, job: Job, cert: CertResult,
                    answer: Option<MachineIdentity.Answer>)
    requires Acceptable(cfg, g) && OnTrack(g, job) && Welcomes(cfg, g, s, cert, answer) && g.p1.nonce !in s.cache.seen
    requires job.pc.Arrived? || job.pc.Passed? || (job.pc.Clocked? && s.lock.None?)
    ensures Further(job, Local(cfg, s, job, NextStep(g, job, cert, answer)))
  {
    PreflightMeans(cfg, g.rq, true, false);
    assert TokenVerdict(cfg.crypto, InputsOf(g.rq), g.p1.ts, s.cache.seen) == Ok(g.p1);
  }

  lemma ChunkGoesOn(cfg: Config, g: Genuine, s: State, job: Job, rest: seq<byte>)
    requires Acceptable(cfg, g) && job.pc == Reading(g.p1) && g.p1.binding.Hash? && rest != []
               && job.read + rest == g.body
    ensures Further(job, Local(cfg, s, job, ReadChunk(g.id, rest)))
  {
    assert |job.read| + |rest| == |g.body|;
  }

  lemma EndGoesOn(cfg: Config, g: Genuine, s: State, job: Job)
    requires Acceptable(cfg, g) && job.pc == Reading(g.p1) && job.read == g.body
    ensures Further(job, Local(cfg, s, job, EndBody(g.id)))
  {
  }

  lemma BodyGoesOn(cfg: Config, g: Genuine, s: State, job: Job, cert: CertResult,
                   answer: Option<MachineIdentity.Answer>)
    requires Acceptable(cfg, g) && OnTrack(g, job) && JobOk(cfg, job) && job.pc.Reading?
    ensures var step := NextStep(g, job, cert, answer);
            KindToOwn(cfg, g, s.clock, job, step) && Further(job, Local(cfg, s, job, step))
  {
    var rest := g.body[|job.read|..];
    assert job.read + rest == g.body;
    if rest == [] {
      EndGoesOn(cfg, g, s, job);
    } else {
      ChunkGoesOn(cfg, g, s, job, rest);
    }
  }

  lemma CommitGoesOn(cfg: Config, g: Genuine, s: State, step: Step)
    requires OwnOnTrack(g, s) && LockOk(s) && g.p1.nonce !in s.cache.seen
    requires g.p1.ts - 30 <= UnixNow(s.clock.wall) < g.p1.ts + 31
    requires match s.jobs[g.id].pc
             case Ready(_) => step == TakeLock(g.id) && s.lock.None?
             case Locked(_) => step == ReadWall(g.id)
             case Timed(_, _) => step == ReadMono(g.id)
             case _ => false
    ensures var t := Apply(cfg, s, step); g.id in t.jobs && Further(s.jobs[g.id], t.jobs[g.id])
  {
  }

  lemma MachineGoesOn(cfg: Config, g: Genuine, s: State, job: Job, cert: CertResult,
                      answer: Option<MachineIdentity.Answer>)
    requires Acceptable(cfg, g) && OnTrack(g, job) && job.pc.AwaitMachine? && MachineVerdict(g.rq, cert, answer).Ok?
    ensures Further(job, Local(cfg, s, job, MachineAnswer(g.id, cert, answer)))
  {
  }

  lemma SendGoesOn(cfg: Config, g: Genuine, s: State, job: Job)
    requires OnTrack(g, job) && job.pc.Spent?
    ensures Further(job, Local(cfg, s, job, Send(g.id)))
  {
  }

  lemma LateGoesOn(cfg: Config, g: Genuine, s: State, job: Job, cert: CertResult,
                   answer: Option<MachineIdentity.Answer>)
    requires Acceptable(cfg, g) && OnTrack(g, job) && JobOk(cfg, job) && Welcomes(cfg, g, s, cert, answer)
    requires job.pc.AwaitMachine? || job.pc.Spent?
    ensures var step := NextStep(g, job, cert, answer);
            KindToOwn(cfg, g, s.clock, job, step) && Further(job, Local(cfg, s, job, step))
  {
    if job.pc.Spent? {
      SendGoesOn(cfg, g, s, job);
    } else {
      assert MachineChecked(cfg, g.rq);
      MachineGoesOn(cfg, g, s, job, cert, answer);
    }
  }

  lemma EarlyIsKind(cfg: Config, g: Genuine, s: State, job: Job, cert: CertResult,
                    answer: Option<MachineIdentity.Answer>)
    requires Welcomes(cfg, g, s, cert, answer) && Rank(job.pc) < 3
    ensures KindToOwn(cfg, g, s.clock, job, NextStep(g, job, cert, answer))
  {
  }

  lemma LocalGoesOn(cfg: Config, g: Genuine, s: State, job: Job, cert: CertResult,
                    answer: Option<MachineIdentity.Answer>)
    requires Acceptable(cfg, g) && OnTrack(g, job) && JobOk(cfg, job) && Welcomes(cfg, g, s, cert, answer)
               && !Finished(job.pc)
    requires !job.pc.Ready? && !job.pc.HoldsLock() && (!job.pc.Spent? ==> g.p1.nonce !in s.cache.seen && s.lock.None?)
    ensures var step := NextStep(g, job, cert, answer);
            KindToOwn(cfg, g, s.clock, job, step) && Further(job, Local(cfg, s, job, step))
  {
    if job.pc.Reading? {
      BodyGoesOn(cfg, g, s, job, cert, answer);
    } else if Rank(job.pc) < 3 {
      EarlyIsKind(cfg, g, s, job, cert, answer);
      HeadersGoOn(cfg, g, s, job, cert, answer);
    } else {
      LateGoesOn(cfg, g, s, job, cert, answer);
    }
  }

  lemma LocalAppliesTo(cfg: Config, s: State, id: Id, step: Step)
    requires LocalStep(step) && step.id == id && id in s.jobs
    ensures Apply(cfg, s, step) == With(s, id, Local(cfg, s, s.jobs[id], step))
  {
  }

  /** While it is welcome there is a step of its own that takes it on. */
  lemma NeverStuck(cfg: Config, g: Genuine, s: State, cert: CertResult, answer: Option<MachineIdentity.Answer>)
    returns (step: Step)
    requires Acceptable(cfg, g) && Reached(cfg, g, s) && OwnOnTrack(g, s) && !Finished(s.jobs[g.id].pc)
    requires Welcomes(cfg, g, s, cert, answer)
    ensures IsOwn(g, step) && KindToOwn(cfg, g, s.clock, s.jobs[g.id], step)
    ensures var t := Apply(cfg, s, step); g.id in t.jobs && Further(s.jobs[g.id], t.jobs[g.id])
  {
    var job := s.jobs[g.id];
    step := NextStep(g, job, cert, answer);
    assert JobOk(cfg, job);
    if !job.pc.HasCommitted() {
      NonceFree(cfg, g, s);
    }
    if job.pc.Ready? || job.pc.HoldsLock() {
      CommitGoesOn(cfg, g, s, step);
    } else {
      LocalGoesOn(cfg, g, s, job, cert, answer);
      LocalAppliesTo(cfg, s, g.id, step);
    }
  }

  /** An own step leaves the clock alone, and the lock in no hands but its own. */
  lemma OwnStepWelcomes(cfg: Config, g: Genuine, s: State, cert: CertResult, answer: Option<MachineIdentity.Answer>,
                        step: Step)
    requires Welcomes(cfg, g, s, cert, answer) && IsOwn(g, step)
    ensures Welcomes(cfg, g, Apply(cfg, s, step), cert, answer)
  {
  }

  lemma KindOneMore(cfg: Config, g: Genuine, start: Clock, steps: seq<Step>, step: Step)
    requires KindRun(cfg, g, start, steps) && Kind(cfg, g, Run(cfg, start, steps), step)
    ensures KindRun(cfg, g, start, steps + [step])
    ensures Run(cfg, start, steps + [step]) == Apply(cfg, Run(cfg, start, steps), step)
  {
    var all := steps + [step];
    assert all[..|all| - 1] == steps;
    forall k | 0 <= k < |all| ensures Kind(cfg, g, Run(cfg, start, all[..k]), all[k]) {
      assert all[..k] == if k < |steps| then steps[..k] else steps;
    }
  }

  /** The request stands somewhere on its way in a run that treats it kindly, and is welcome there. */
  ghost predicate Welcome(cfg: Config, g: Genuine, start: Clock, steps: seq<Step>, s: State,
                          cert: CertResult, answer: Option<MachineIdentity.Answer>) {
    && KindRun(cfg, g, start, steps) && s == Run(cfg, start, steps)
    && OwnOnTrack(g, s) && Welcomes(cfg, g, s, cert, answer)
  }

  lemma OneStepOn(cfg: Config, g: Genuine, start: Clock, steps: seq<Step>, s: State,
                  cert: CertResult, answer: Option<MachineIdentity.Answer>)
    returns (step: Step, t: State)
    requires Acceptable(cfg, g) && Welcome(cfg, g, start, steps, s, cert, answer) && !Finished(s.jobs[g.id].pc)
    ensures IsOwn(g, step) && Welcome(cfg, g, start, steps + [step], t, cert, answer)
    ensures Further(s.jobs[g.id], t.jobs[g.id])
  {
    RunReached(cfg, g, start, steps);
    step := NeverStuck(cfg, g, s, cert, answer);
    t := Apply(cfg, s, step);
    KindOneMore(cfg, g, start, steps, step);
    OwnStepWelcomes(cfg, g, s, cert, answer, step);
    RunReached(cfg, g, start, steps + [step]);
  }

  lemma DoneIsForwarded(cfg: Config, g: Genuine, start: Clock, steps: seq<Step>, s: State)
    requires Acceptable(cfg, g) && KindRun(cfg, g, start, steps) && s == Run(cfg, start, steps)
    requires OwnOnTrack(g, s) && Finished(s.jobs[g.id].pc)
    ensures Forwarded(s, g)
  {
    RunReached(cfg, g, start, steps);
    FinishedIsForwarded(cfg, g, s);
  }

  /** Steps of its own after `steps` bring the request to being forwarded. */
  ghost predicate Finishes(cfg: Config, g: Genuine, start: Clock, steps: seq<Step>, more: seq<Step>) {
    && (forall i :: 0 <= i < |more| ==> IsOwn(g, more[i]))
    && KindRun(cfg, g, start, steps + more)
    && Forwarded(Run(cfg, start, steps + more), g)
  }

  lemma FinishesLater(cfg: Config, g: Genuine, start: Clock, steps: seq<Step>, step: Step, rest: seq<Step>)
    requires IsOwn(g, step) && Finishes(cfg, g, start, steps + [step], rest)
    ensures Finishes(cfg, g, start, steps, [step] + rest)
  {
    assert steps + ([step] + rest) == steps + [step] + rest;
  }

  /**
   * It always can finish: while the clock stays inside both windows, no other request holds the lock
   * and the machine check would pass, steps of its own alone take it from where it stands to being
   * forwarded.
   */
  lemma {:induction false} CanFinish(cfg: Config, g: Genuine, start: Clock, steps: seq<Step>, s: State,
                                     cert: CertResult, answer: Option<MachineIdentity.Answer>)
    returns (more: seq<Step>)
    requires Acceptable(cfg, g) && Welcome(cfg, g, start, steps, s, cert, answer)
    ensures Finishes(cfg, g, start, steps, more)
    decreases 9 - Rank(s.jobs[g.id].pc), if s.jobs[g.id].pc.Reading? then |g.body| - |s.jobs[g.id].read| else 0
  {
    if Finished(s.jobs[g.id].pc) {
      DoneIsForwarded(cfg, g, start, steps, s);
      more := [];
      assert steps + more == steps;
    } else {
      var step, t := OneStepOn(cfg, g, start, steps, s, cert, answer);
      var rest := CanFinish(cfg, g, start, steps + [step], t, cert, answer);
      FinishesLater(cfg, g, start, steps, step, rest);
      more := [step] + rest;
    }
  }

  // ── From the browser's values ──────────────────────────────────────────────

  /** The request that the browser sends under a number, its token's content and its body. */
  function GenuineOf(cfg: Config, id: Id, o: Outgoing, nonce: Nonce, tokenB64: string, form: Form, fragment: bool,
                     cert: Header, client: Option<MachineIdentity.Ip>): Genuine {
    var binding := if ShouldSkipBodyHash(o.upload, o.length) then Streamed
      else Hash(cfg.crypto.sha256(BytesOf(o.upload)));
    Genuine(id, Sent(o, tokenB64, form, fragment, cert, client), PhaseOne(nonce, binding, o.ts), BytesOf(o.upload))
  }

  lemma BrowserRequestAcceptable(cfg: Config, id: Id, o: Outgoing, nonce: Nonce, tokenB64: string, form: Form,
                                 fragment: bool,
                                 cert: Header, client: Option<MachineIdentity.Ip>)
    requires CleanValues(o) && cfg.crypto.decode64(o.nonceB64) == Some(nonce) && ':' !in o.host
    requires Sealed(cfg.crypto, tokenB64, Canonical(Signed(o, tokenB64), BodyField(cfg.crypto, o.upload, o.length)))
    requires !MachineMissing(cfg, Sent(o, tokenB64, form, fragment, cert, client))
    requires ShouldSkipBodyHash(o.upload, o.length) || |BytesOf(o.upload)| <= BOUND_BODY_MAX
    ensures Acceptable(cfg, GenuineOf(cfg, id, o, nonce, tokenB64, form, fragment, cert, client))
  {
    var g := GenuineOf(cfg, id, o, nonce, tokenB64, form, fragment, cert, client);
    InputsSurvive(o, tokenB64, form, fragment, cert, client);
    SignedClean(o, tokenB64);
    var i := InputsOf(g.rq);
    forall now: i64 | o.ts - 30 <= now < o.ts + 31 ensures DriftVerdict(i, now) == Ok(o.ts) {
      GenuineHeadersAccepted(cfg.crypto, i, nonce, o.ts, o.upload, o.length, now, {});
    }
    forall seen: set<Nonce> | nonce !in seen ensures TokenVerdict(cfg.crypto, i, o.ts, seen) == Ok(g.p1) {
      GenuineHeadersAccepted(cfg.crypto, i, nonce, o.ts, o.upload, o.length, o.ts, seen);
    }
  }

  /**
   * From the browser's own values, among any other requests: a genuine request whose nonce no other
   * request carries, and whose own steps are taken inside the windows, is on its way or forwarded;
   * its token is bound to its body exactly when there is no upload, or a cloneable one of at most 64 KiB.
   */
  lemma GenuineInAnyRun(cfg: Config, id: Id, o: Outgoing, nonce: Nonce, tokenB64: string, form: Form, fragment: bool,
                        cert: Header, client: Option<MachineIdentity.Ip>, start: Clock, steps: seq<Step>)
    requires CleanValues(o) && cfg.crypto.decode64(o.nonceB64) == Some(nonce) && ':' !in o.host
    requires Sealed(cfg.crypto, tokenB64, Canonical(Signed(o, tokenB64), BodyField(cfg.crypto, o.upload, o.length)))
    requires !MachineMissing(cfg, Sent(o, tokenB64, form, fragment, cert, client))
    requires |BytesOf(o.upload)| <= 65536 || (o.upload.Some? && (o.length > 65536 || !o.upload.value.cloneable))
    requires KindRun(cfg, GenuineOf(cfg, id, o, nonce, tokenB64, form, fragment, cert, client), start, steps)
    requires id in Run(cfg, start, steps).jobs
    ensures var (s, g) :=
              (Run(cfg, start, steps), GenuineOf(cfg, id, o, nonce, tokenB64, form, fragment, cert, client));
            && (!Finished(s.jobs[id].pc) || Forwarded(s, g))
            && (s.jobs[id].pc.Through? ==>
                  s.jobs[id].pc.p1.binding
                  == if o.upload.None? || (o.upload.value.cloneable && o.length <= 65536)
                     then Hash(cfg.crypto.sha256(BytesOf(o.upload))) else Streamed)
  {
    BrowserRequestAcceptable(cfg, id, o, nonce, tokenB64, form, fragment, cert, client);
    KindRunForwards(cfg, GenuineOf(cfg, id, o, nonce, tokenB64, form, fragment, cert, client), start, steps);
  }
}
