/**
 * Why a request is refused in the middle of a run: each step that answers a request does so for the
 * condition that fails at that very moment, and records that reason.
 */
module RunRefusals {
  import opened Wrappers
  import opened CommitWindow
  import opened ReplayCache
  import opened AttestToken
  import opened RequestFilter
  import opened ProxyRun
  import opened ProxyInvariant
  import opened ReplaySafety
  import opened Refusals
  import Audit
  import MachineIdentity

  /** The world as one step sees it: the limiter and the bypass, or the certificate and the resolver. */
  function Facing(admitted: bool, authorized: bool, cert: CertResult, answer: Option<MachineIdentity.Answer>): World {
    World(admitted, authorized, 0, cert, answer, Body([], true), 0, 0)
  }

  function Asked(admitted: bool, authorized: bool): World {
    Facing(admitted, authorized, Err(MachineIdentity.Missing), None)
  }

  function Shown(cert: CertResult, answer: Option<MachineIdentity.Answer>): World {
    Facing(true, false, cert, answer)
  }

  /** The condition under which a step refuses its request, and the reason that it records. */
  ghost predicate RefusesFor(cfg: Config, s: State, job: Job, step: Step, reason: Audit.Reason) {
    match step
    case DoPreflight(_, admitted, authorized) =>
      if OverLimit(cfg, job.rq, Asked(admitted, authorized)) then reason == Audit.RateLimited
      else !LetPast(cfg, job.rq, Asked(admitted, authorized)) && FirstFault(OpeningRules(cfg, job.rq)) == Some(reason)
    case ReadHeaderClock(_) =>
      !HeaderLacking(job.rq) && FirstFault(TimeRules(job.rq, UnixNow(s.clock.wall))) == Some(reason)
    case Consult(_) =>
      !HeaderLacking(job.rq) && FirstFault(TokenRules(cfg.crypto, job.rq, s.cache.seen)) == Some(reason)
    case MachineAnswer(_, cert, answer) =>
      && MachineAsked(cfg, job.rq) && MachineFault(job.rq, Shown(cert, answer)).Some?
      && RecordedAs(MachineFault(job.rq, Shown(cert, answer)).value, reason)
    case ReadChunk(_, chunk) => |job.read| + |chunk| > 65536 && reason == Audit.BodyTooLarge
    case FailBody(_) => reason == Audit.BodyReadFailed
    case EndBody(_) =>
      && !HeaderLacking(job.rq) && BoundTo(cfg.crypto, job.rq).Some?
      && cfg.crypto.sha256(job.read) != BoundTo(cfg.crypto, job.rq).value && reason == Audit.ReasonBodyHashMismatch
    case TakeLock(_) =>
      && job.rq.nonce.Readable? && NonceSpent(cfg.crypto, job.rq, s.cache.seen) && reason == Audit.ReasonNonceReplay
    case ReadWall(_) =>
      && job.rq.ts.Readable? && OutOfCommitWindow(job.rq, UnixNow(s.clock.wall)) && reason == Audit.TimestampOutOfWindow
    case _ => false
  }

  /** If the step refuses the request, it does so rightly. */
  ghost predicate Rightly(cfg: Config, s: State, job: Job, job': Job, step: Step) {
    job'.pc.Answered? && !job.pc.Answered? ==>
      job'.audit.reason.Some? && RefusesFor(cfg, s, job, step, job'.audit.reason.value)
  }

  /** What a token that has passed the header phase says. */
  lemma PassedSays(cfg: Config, job: Job, p1: PhaseOne)
    requires HeadersPassed(cfg, job, p1)
    ensures !HeaderLacking(job.rq) && Says(cfg.crypto, job.rq, p1)
  {
    var (now, seen) := (job.look.value.now, job.look.value.seen);
    HeadersAnswer(cfg.crypto, job.rq, now, seen);
  }

  lemma PreflightRightly(cfg: Config, s: State, job: Job, id: Id, admitted: bool, authorized: bool)
    ensures Rightly(cfg, s, job, Local(cfg, s, job, DoPreflight(id, admitted, authorized)),
                    DoPreflight(id, admitted, authorized))
  {
    PreflightAnswers(cfg, job.rq, Asked(admitted, authorized));
  }

  lemma ClockRightly(cfg: Config, s: State, job: Job, id: Id)
    ensures Rightly(cfg, s, job, Local(cfg, s, job, ReadHeaderClock(id)), ReadHeaderClock(id))
  {
    if job.pc.Passed? && HeadersComplete(job.rq) {
      TimePartAnswers(job.rq, UnixNow(s.clock.wall));
    }
  }

  lemma ConsultRightly(cfg: Config, s: State, job: Job, id: Id)
    requires JobOk(cfg, job)
    ensures Rightly(cfg, s, job, Local(cfg, s, job, Consult(id)), Consult(id))
  {
    if job.pc.Clocked? && HeadersComplete(job.rq) {
      TimePartAnswers(job.rq, job.pc.now);
      TokenPartAnswers(cfg.crypto, job.rq, job.pc.ts, s.cache.seen);
    }
  }

  lemma MachineRightly(cfg: Config, s: State, job: Job, id: Id, cert: CertResult,
                       answer: Option<MachineIdentity.Answer>)
    requires JobOk(cfg, job)
    ensures Rightly(cfg, s, job, Local(cfg, s, job, MachineAnswer(id, cert, answer)), MachineAnswer(id, cert, answer))
  {
    MachineAnswers(job.rq, Shown(cert, answer));
    var fault := MachineFault(job.rq, Shown(cert, answer));
    if fault.Some? {
      RecordedReason(fault.value);
    }
  }

  lemma ChunkRightly(cfg: Config, s: State, job: Job, id: Id, chunk: seq<byte>)
    ensures Rightly(cfg, s, job, Local(cfg, s, job, ReadChunk(id, chunk)), ReadChunk(id, chunk))
  {
  }

  lemma FailRightly(cfg: Config, s: State, job: Job, id: Id)
    ensures Rightly(cfg, s, job, Local(cfg, s, job, FailBody(id)), FailBody(id))
  {
  }

  /** What the step makes of a body that has ended. */
  lemma EndAnswers(cfg: Config, s: State, job: Job, id: Id)
    ensures var job' := Local(cfg, s, job, EndBody(id));
            job'.pc.Answered? && !job.pc.Answered? ==>
              && job.pc.Reading? && job.pc.p1.binding.Hash?
              && cfg.crypto.sha256(job.read) != job.pc.p1.binding.digest
              && job'.audit.reason == Some(Audit.ReasonBodyHashMismatch)
  {
  }

  lemma EndRightly(cfg: Config, s: State, job: Job, id: Id)
    requires JobOk(cfg, job)
    ensures Rightly(cfg, s, job, Local(cfg, s, job, EndBody(id)), EndBody(id))
  {
    EndAnswers(cfg, s, job, id);
    if job.pc.Reading? {
      PassedSays(cfg, job, job.pc.p1);
    }
  }

  lemma TakeLockAnswers(cfg: Config, s: State, id: Id, t: State)
    requires id in s.jobs && t == Apply(cfg, s, TakeLock(id))
    ensures id in t.jobs
    ensures t.jobs[id].pc.Answered? && !s.jobs[id].pc.Answered? ==>
              && s.jobs[id].pc.Ready? && s.jobs[id].pc.p1.nonce in s.cache.seen
              && t.jobs[id].audit.reason == Some(Audit.ReasonNonceReplay)
  {
  }

  lemma TakeLockRightly(cfg: Config, s: State, id: Id, t: State)
    requires id in s.jobs && JobOk(cfg, s.jobs[id]) && t == Apply(cfg, s, TakeLock(id))
    ensures id in t.jobs && Rightly(cfg, s, s.jobs[id], t.jobs[id], TakeLock(id))
  {
    TakeLockAnswers(cfg, s, id, t);
    if s.jobs[id].pc.Ready? {
      PassedSays(cfg, s.jobs[id], s.jobs[id].pc.p1);
    }
  }

  lemma ReadWallAnswers(cfg: Config, s: State, id: Id, t: State)
    requires id in s.jobs && t == Apply(cfg, s, ReadWall(id))
    ensures id in t.jobs
    ensures t.jobs[id].pc.Answered? && !s.jobs[id].pc.Answered? ==>
              && s.jobs[id].pc.Locked?
              && !(s.jobs[id].pc.p1.ts - 30 <= UnixNow(s.clock.wall) < s.jobs[id].pc.p1.ts + 91)
              && t.jobs[id].audit.reason == Some(Audit.TimestampOutOfWindow)
  {
  }

  lemma ReadWallRightly(cfg: Config, s: State, id: Id, t: State)
    requires id in s.jobs && JobOk(cfg, s.jobs[id]) && t == Apply(cfg, s, ReadWall(id))
    ensures id in t.jobs && Rightly(cfg, s, s.jobs[id], t.jobs[id], ReadWall(id))
  {
    ReadWallAnswers(cfg, s, id, t);
    if s.jobs[id].pc.Locked? {
      PassedSays(cfg, s.jobs[id], s.jobs[id].pc.p1);
    }
  }

  lemma ReadMonoRightly(cfg: Config, s: State, id: Id, t: State)
    requires id in s.jobs && LockOk(s) && t == Apply(cfg, s, ReadMono(id))
    ensures id in t.jobs && Rightly(cfg, s, s.jobs[id], t.jobs[id], ReadMono(id))
  {
  }

  lemma OwnRightly(cfg: Config, s: State, step: Step, t: State)
    requires !step.Tick? && !step.Arrive? && step.id in s.jobs && t == Apply(cfg, s, step)
    requires JobOk(cfg, s.jobs[step.id]) && LockOk(s)
    ensures step.id in t.jobs && Rightly(cfg, s, s.jobs[step.id], t.jobs[step.id], step)
  {
    var job := s.jobs[step.id];
    if step.TakeLock? {
      TakeLockRightly(cfg, s, step.id, t);
    } else if step.ReadWall? {
      ReadWallRightly(cfg, s, step.id, t);
    } else if step.ReadMono? {
      ReadMonoRightly(cfg, s, step.id, t);
    } else if step.DoPreflight? {
      PreflightRightly(cfg, s, job, step.id, step.admitted, step.authorized);
    } else if step.ReadHeaderClock? {
      ClockRightly(cfg, s, job, step.id);
    } else if step.Consult? {
      ConsultRightly(cfg, s, job, step.id);
    } else if step.MachineAnswer? {
      MachineRightly(cfg, s, job, step.id, step.cert, step.answer);
    } else if step.ReadChunk? {
      ChunkRightly(cfg, s, job, step.id, step.chunk);
    } else if step.FailBody? {
      FailRightly(cfg, s, job, step.id);
    } else if step.EndBody? {
      EndRightly(cfg, s, job, step.id);
    }
  }

  /**
   * In every run, a step that answers a request is one of its own, and the request fails there and then
   * the condition that its recorded reason names.
   */
  lemma RunRefusesRightly(cfg: Config, start: Clock, steps: seq<Step>, step: Step, id: Id)
    requires var s := Run(cfg, start, steps);
             id in s.jobs && !s.jobs[id].pc.Answered? && Apply(cfg, s, step).jobs[id].pc.Answered?
    ensures var s := Run(cfg, start, steps);
            var reason := Apply(cfg, s, step).jobs[id].audit.reason;
            && !step.Tick? && !step.Arrive? && step.id == id
            && reason.Some? && RefusesFor(cfg, s, s.jobs[id], step, reason.value)
  {
    var s := Run(cfg, start, steps);
    RunJobs(cfg, start, steps);
    RunKeeps(cfg, start, steps);
    StepTouchesOne(cfg, s, step);
    assert JobOk(cfg, s.jobs[id]);
    OwnRightly(cfg, s, step, Apply(cfg, s, step));
  }

  /** While the lock is held no request can look into the cache, or take the lock. */
  lemma LockExcludes(cfg: Config, s: State, id: Id)
    requires s.lock.Some?
    ensures Apply(cfg, s, Consult(id)) == s && Apply(cfg, s, TakeLock(id)) == s
  {
    if id in s.jobs {
      assert s.jobs[id := s.jobs[id]] == s.jobs;
    }
  }
}
