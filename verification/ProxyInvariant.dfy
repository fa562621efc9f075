/** What every reachable state of the proxy satisfies, whatever interleaves. */
module ProxyInvariant {
  import opened Wrappers
  import opened CommitWindow
  import opened ReplayCache
  import opened AttestToken
  import opened RequestFilter
  import opened ProxyRun
  import Audit
  import MachineIdentity

  // ── One request ────────────────────────────────────────────────────────────

  ghost predicate PreflightPassed(cfg: Config, rq: Request) {
    HeadersComplete(rq) && !MachineMissing(cfg, rq)
  }

  ghost predicate HeadersPassed(cfg: Config, job: Job, p1: PhaseOne) {
    && PreflightPassed(cfg, job.rq)
    && job.look.Some?
    && HeadersVerdict(cfg.crypto, InputsOf(job.rq), job.look.value.now, job.look.value.seen) == Ok(p1)
  }

  ghost predicate MachinePassed(cfg: Config, job: Job) {
    MachineChecked(cfg, job.rq) ==>
      job.machine.Some? && MachineVerdict(job.rq, job.machine.value.0, job.machine.value.1).Ok?
  }

  ghost predicate BodyPassed(cfg: Config, job: Job, p1: PhaseOne) {
    p1.binding.Hash? ==> job.ended && |job.read| <= BOUND_BODY_MAX && cfg.crypto.sha256(job.read) == p1.binding.digest
  }

  /** Every check an attested forward needs, as this request passed it. */
  ghost predicate Attested(cfg: Config, job: Job, p1: PhaseOne) {
    HeadersPassed(cfg, job, p1) && MachinePassed(cfg, job) && BodyPassed(cfg, job, p1)
  }

  /** The evidence a request carries at each point, towards an attested forward. */
  ghost predicate EvidenceOk(cfg: Config, job: Job) {
    match job.pc
    case Arrived => job.read == []
    case Passed => PreflightPassed(cfg, job.rq) && job.read == []
    case Clocked(now, ts) => PreflightPassed(cfg, job.rq) && DriftVerdict(InputsOf(job.rq), now) == Ok(ts)
      && job.read == []
    case AwaitMachine(p1) => HeadersPassed(cfg, job, p1) && MachineChecked(cfg, job.rq) && job.read == []
    case Reading(p1) =>
      HeadersPassed(cfg, job, p1) && MachinePassed(cfg, job) && p1.binding.Hash? && |job.read| <= BOUND_BODY_MAX
    case Ready(p1) => Attested(cfg, job, p1)
    case Locked(p1) => Attested(cfg, job, p1)
    case Timed(p1, _) => Attested(cfg, job, p1)
    case Spent(p1, _) => Attested(cfg, job, p1)
    case Through(p1, _) => Attested(cfg, job, p1)
    case _ => true
  }

  ghost predicate TokenUnseen(a: Audit.AuditState) {
    Audit.Undecided(a) && !a.tokenVerified && a.machine.status != Audit.MachineVerified
  }

  /** The status that goes with each reason. */
  function StatusOf(reason: Audit.Reason): nat {
    match reason
    case RateLimited => 429
    case BodyTooLarge => 413
    case BodyReadFailed => 400
    case _ => 403
  }

  /** The state of the audit record at each point. */
  ghost predicate AuditOk(cfg: Config, a: Audit.AuditState, pc: Pc) {
    match pc
    case Arrived => a == Audit.NewAudit(cfg.machine.Some?)
    case Passed => TokenUnseen(a)
    case Clocked(_, _) => TokenUnseen(a)
    case AwaitMachine(_) => Audit.Undecided(a) && a.tokenVerified && a.machine.status != Audit.MachineVerified
    case Through(_, _) => Audit.Coherent(a) && a.action == Some(Audit.Forward)
    case ThroughBypass => Audit.Coherent(a) && a.action == Some(Audit.Bypass)
    case Answered(status) => Audit.Coherent(a) && Audit.Refused(a) && a.reason.Some?
      && status == StatusOf(a.reason.value)
    case Dropped => Audit.Undecided(a)
    case _ => Audit.Undecided(a) && a.tokenVerified
  }

  ghost predicate JobOk(cfg: Config, job: Job) {
    EvidenceOk(cfg, job) && AuditOk(cfg, job.audit, job.pc)
  }

  lemma PreflightOk(cfg: Config, rq: Request, admitted: bool, authorized: bool)
    ensures match Preflight(cfg, rq, admitted, authorized)
            case Refuse(a, status) => AuditOk(cfg, a, Answered(status))
            case LetThrough(a) => AuditOk(cfg, a, ThroughBypass)
            case Continue(a) => AuditOk(cfg, a, Passed)
  {
    var a := OpeningAudit(cfg, rq);
    OpeningOk(cfg, rq);
    Audit.RefusalCoherent(a, Audit.RateLimited);
    Audit.RefusalCoherent(a, Audit.NoAttestationHeaders);
    Audit.RefusalCoherent(a, Audit.IncompleteAttestationHeaders);
    Audit.MachineRefusalCoherent(a, MachineIdentity.Missing);
    Audit.LetThroughCoherent(a);
  }

  lemma OpeningOk(cfg: Config, rq: Request)
    ensures var a := OpeningAudit(cfg, rq); TokenUnseen(a) && TokenUnseen(Audit.MarkMachineAbsent(a))
  {
    Audit.StartCoherent(cfg.machine.Some?, rq.method_, HostOf(rq), rq.ts.Text(), rq.nonce.Text());
  }

  lemma ConsultedOk(cfg: Config, job: Job, seen: set<Nonce>)
    requires JobOk(cfg, job) && job.pc.Clocked?
    ensures var job' := Consulted(cfg, job, job.pc.now, job.pc.ts, seen);
            JobOk(cfg, job') && !job'.pc.HoldsLock() && !job'.pc.HasCommitted()
  {
    var r := TokenVerdict(cfg.crypto, InputsOf(job.rq), job.pc.ts, seen);
    if r.Err? {
      Audit.RefusalCoherent(job.audit, Audit.AttestReason(r.error));
    } else {
      var job' := Consulted(cfg, job, job.pc.now, job.pc.ts, seen);
      assert HeadersPassed(cfg, job', r.value);
    }
  }

  lemma MachineOk(cfg: Config, job: Job, cert: CertResult, answer: Option<MachineIdentity.Answer>)
    requires JobOk(cfg, job) && job.pc.AwaitMachine?
    ensures var v := MachineVerdict(job.rq, cert, answer);
            JobOk(cfg,
                  Advance(job.(machine := Some((cert, answer))), AfterMachine(job.audit, v), Identified(job.pc.p1)))
  {
    var v := MachineVerdict(job.rq, cert, answer);
    if v.Ok? {
      Audit.MachineStepCoherent(job.audit, v.value);
    } else {
      Audit.MachineRefusalCoherent(job.audit, v.error);
    }
  }

  lemma RefusalOk(cfg: Config, job: Job, reason: Audit.Reason, status: nat, next: Pc)
    requires Audit.Undecided(job.audit) && Audit.StageOf(reason) != Audit.MachineIdentityStage
    requires reason != Audit.RateLimited && status == StatusOf(reason)
    ensures JobOk(cfg, Advance(job, Refuse(Audit.Rejected(job.audit, reason), status), next))
  {
    Audit.RefusalCoherent(job.audit, reason);
  }

  lemma ReadOk(cfg: Config, job: Job, chunk: seq<byte>)
    requires JobOk(cfg, job) && job.pc.Reading?
    ensures JobOk(cfg, Advance(job.(read := job.read + chunk), AfterChunk(job.audit, job.read, chunk), job.pc))
  {
    var more := job.(read := job.read + chunk);
    if |job.read| + |chunk| > BOUND_BODY_MAX {
      RefusalOk(cfg, more, Audit.BodyTooLarge, 413, job.pc);
    } else {
      assert HeadersPassed(cfg, more, job.pc.p1) && MachinePassed(cfg, more);
    }
  }

  lemma SendOk(cfg: Config, job: Job)
    requires JobOk(cfg, job) && job.pc.Spent?
    ensures JobOk(cfg, job.(audit := Audit.Forwarded(job.audit), pc := Through(job.pc.p1, job.pc.commit)))
  {
    Audit.LetThroughCoherent(job.audit);
  }

  lemma ClockOk(cfg: Config, s: State, job: Job, id: Id)
    requires JobOk(cfg, job) && job.pc.Passed?
    ensures JobOk(cfg, Local(cfg, s, job, ReadHeaderClock(id)))
  {
    var ts := DriftVerdict(InputsOf(job.rq), UnixNow(s.clock.wall));
    if ts.Err? {
      Audit.RefusalCoherent(job.audit, Audit.AttestReason(ts.error));
    }
  }

  ghost predicate LocalStep(step: Step) {
    !step.Tick? && !step.Arrive? && !step.TakeLock? && !step.ReadWall? && !step.ReadMono?
  }

  /** The lock is untouched, and only sending a request moves it past its commit. */
  ghost predicate SameStanding(job: Job, job': Job) {
    && (job' == job || (!job.pc.HoldsLock() && !job'.pc.HoldsLock()))
    && (job.pc.HasCommitted() <==> job'.pc.HasCommitted())
    && (job.pc.HasCommitted() ==> job'.pc.p1 == job.pc.p1 && job'.pc.commit == job.pc.commit)
  }

  lemma LocalStanding(cfg: Config, s: State, job: Job, step: Step)
    requires LocalStep(step)
    ensures SameStanding(job, Local(cfg, s, job, step))
  {
  }

  lemma IdentityStepOk(cfg: Config, s: State, job: Job, step: Step)
    requires JobOk(cfg, job) && (step.DoPreflight? || step.ReadHeaderClock? || step.Consult? || step.MachineAnswer?)
    ensures JobOk(cfg, Local(cfg, s, job, step))
  {
    if step.DoPreflight? && job.pc.Arrived? {
      PreflightOk(cfg, job.rq, step.admitted, step.authorized);
      PreflightMeans(cfg, job.rq, step.admitted, step.authorized);
    } else if step.ReadHeaderClock? && job.pc.Passed? {
      ClockOk(cfg, s, job, step.id);
    } else if step.Consult? && job.pc.Clocked? {
      ConsultedOk(cfg, job, s.cache.seen);
    } else if step.MachineAnswer? && job.pc.AwaitMachine? {
      MachineOk(cfg, job, step.cert, step.answer);
    }
  }

  lemma EndBodyOk(cfg: Config, s: State, job: Job, id: Id)
    requires JobOk(cfg, job) && job.pc.Reading?
    ensures JobOk(cfg, Local(cfg, s, job, EndBody(id)))
  {
    RefusalOk(cfg, job.(ended := true), Audit.AttestReason(BodyHashMismatch), 403, job.pc);
  }

  lemma FailRefuses(cfg: Config, s: State, job: Job, id: Id)
    requires job.pc.Reading?
    ensures Local(cfg, s, job, FailBody(id))
         == Advance(job, Refuse(Audit.Rejected(job.audit, Audit.BodyReadFailed), 400), job.pc)
  {
  }

  lemma FailBodyOk(cfg: Config, s: State, job: Job, id: Id)
    requires JobOk(cfg, job) && job.pc.Reading?
    ensures JobOk(cfg, Local(cfg, s, job, FailBody(id)))
  {
    FailRefuses(cfg, s, job, id);
    RefusalOk(cfg, job, Audit.BodyReadFailed, 400, job.pc);
  }

  lemma BodyStepOk(cfg: Config, s: State, job: Job, step: Step)
    requires JobOk(cfg, job) && (step.ReadChunk? || step.EndBody? || step.FailBody?)
    ensures JobOk(cfg, Local(cfg, s, job, step))
  {
    if job.pc.Reading? {
      if step.ReadChunk? {
        ReadOk(cfg, job, step.chunk);
      } else if step.EndBody? {
        EndBodyOk(cfg, s, job, step.id);
      } else {
        FailBodyOk(cfg, s, job, step.id);
      }
    }
  }

  lemma LocalOk(cfg: Config, s: State, job: Job, step: Step)
    requires JobOk(cfg, job) && LocalStep(step)
    ensures JobOk(cfg, Local(cfg, s, job, step))
  {
    if step.Send? {
      if job.pc.Spent? {
        SendOk(cfg, job);
      }
    } else if step.ReadChunk? || step.EndBody? || step.FailBody? {
      BodyStepOk(cfg, s, job, step);
    } else if !step.Drop? {
      IdentityStepOk(cfg, s, job, step);
    }
  }

  // ── What one step touches ──────────────────────────────────────────────────

  /** The request is the same, and so is its machine verdict unless this is the step that gives it. */
  ghost predicate SameRequest(job: Job, job': Job, step: Step) {
    job'.rq == job.rq
      && (job'.machine == job.machine || (step.MachineAnswer? && job'.machine == Some((step.cert, step.answer))))
  }

  /** Only the request that a step is about changes, and an arrival adds a new one. */
  ghost predicate TouchesOne(cfg: Config, s: State, t: State, step: Step) {
    forall id :: id in t.jobs ==>
      if id !in s.jobs then step.Arrive? && step.id == id && t.jobs[id] == NewJob(cfg, step.rq)
      else
        || t.jobs[id] == s.jobs[id]
        || (!step.Tick? && !step.Arrive? && step.id == id && SameRequest(s.jobs[id], t.jobs[id], step))
  }

  lemma LocalSameRequest(cfg: Config, s: State, job: Job, step: Step)
    ensures SameRequest(job, Local(cfg, s, job, step), step)
  {
  }

  lemma TakeLockTouches(cfg: Config, s: State, id: Id)
    ensures TouchesOne(cfg, s, Apply(cfg, s, TakeLock(id)), TakeLock(id))
  {
  }

  lemma ReadWallTouches(cfg: Config, s: State, id: Id)
    ensures TouchesOne(cfg, s, Apply(cfg, s, ReadWall(id)), ReadWall(id))
  {
  }

  lemma ReadMonoTouches(cfg: Config, s: State, id: Id)
    ensures TouchesOne(cfg, s, Apply(cfg, s, ReadMono(id)), ReadMono(id))
  {
  }

  lemma LocalTouches(cfg: Config, s: State, step: Step)
    requires LocalStep(step)
    ensures TouchesOne(cfg, s, Apply(cfg, s, step), step)
  {
    if step.id in s.jobs {
      LocalSameRequest(cfg, s, s.jobs[step.id], step);
    }
  }

  lemma StepTouchesOne(cfg: Config, s: State, step: Step)
    ensures TouchesOne(cfg, s, Apply(cfg, s, step), step)
  {
    if step.TakeLock? {
      TakeLockTouches(cfg, s, step.id);
    } else if step.ReadWall? {
      ReadWallTouches(cfg, s, step.id);
    } else if step.ReadMono? {
      ReadMonoTouches(cfg, s, step.id);
    } else if LocalStep(step) {
      LocalTouches(cfg, s, step);
    }
  }

  // ── All requests ───────────────────────────────────────────────────────────

  ghost predicate JobsOk(cfg: Config, s: State) {
    forall id :: id in s.jobs ==> JobOk(cfg, s.jobs[id])
  }

  lemma StepJobs(cfg: Config, s: State, step: Step)
    requires JobsOk(cfg, s)
    ensures JobsOk(cfg, Apply(cfg, s, step))
  {
    if LocalStep(step) {
      if step.id in s.jobs {
        LocalOk(cfg, s, s.jobs[step.id], step);
      }
    } else if !step.Tick? && !step.Arrive? {
      CommitStepJobs(cfg, s, step);
    }
  }

  lemma WithOk(cfg: Config, s: State, id: Id, job: Job)
    requires JobsOk(cfg, s) && JobOk(cfg, job)
    ensures JobsOk(cfg, With(s, id, job))
  {
  }

  lemma RefusedAtCommit(cfg: Config, s: State, id: Id, job: Job, e: AttestError)
    requires JobsOk(cfg, s) && Audit.Undecided(job.audit)
    ensures JobsOk(cfg, RefuseCommit(s, id, job, e))
  {
    RefusalOk(cfg, job, Audit.AttestReason(e), 403, job.pc);
    WithOk(cfg, s, id, Advance(job, AfterCommit(job.audit, Err(e)), job.pc));
  }

  lemma TakeLockJobs(cfg: Config, s: State, id: Id, job: Job)
    requires JobsOk(cfg, s) && JobOk(cfg, job) && job.pc.Ready?
    ensures JobsOk(cfg, TakeLockStep(s, id, job))
  {
    RefusedAtCommit(cfg, s, id, job, NonceReplay);
    WithOk(cfg, s, id, job.(pc := Locked(job.pc.p1)));
  }

  lemma ReadWallJobs(cfg: Config, s: State, id: Id, job: Job)
    requires JobsOk(cfg, s) && JobOk(cfg, job) && job.pc.Locked?
    ensures JobsOk(cfg, ReadWallStep(s, id, job))
  {
    var t := s.(readings := s.readings + [s.clock]);
    var window := CheckCommitWindow(job.pc.p1.ts, UnixNow(s.clock.wall));
    if window.Err? {
      RefusedAtCommit(cfg, t, id, job, window.error);
    }
    WithOk(cfg, t, id, job.(pc := Timed(job.pc.p1, |s.readings|)));
  }

  lemma ReadMonoJobs(cfg: Config, s: State, id: Id, job: Job)
    requires JobsOk(cfg, s) && JobOk(cfg, job) && job.pc.Timed?
    ensures JobsOk(cfg, ReadMonoStep(s, id, job))
  {
    var t := s.(readings := s.readings + [s.clock], lock := None);
    var (cache, r) := Committed(s.cache, job.pc.p1.nonce, s.clock.mono);
    if r.Err? {
      RefusedAtCommit(cfg, t.(cache := cache), id, job, r.error);
    }
    WithOk(cfg, t, id, job.(pc := Spent(job.pc.p1, |s.commits|)));
  }

  lemma CommitStepJobs(cfg: Config, s: State, step: Step)
    requires step.TakeLock? || step.ReadWall? || step.ReadMono?
    requires JobsOk(cfg, s)
    ensures JobsOk(cfg, Apply(cfg, s, step))
  {
    if step.id in s.jobs {
      var (id, job) := (step.id, s.jobs[step.id]);
      if step.TakeLock? && job.pc.Ready? {
        TakeLockJobs(cfg, s, id, job);
      } else if step.ReadWall? && job.pc.Locked? {
        ReadWallJobs(cfg, s, id, job);
      } else if step.ReadMono? && job.pc.Timed? {
        ReadMonoJobs(cfg, s, id, job);
      }
    }
  }

  lemma {:induction false} RunJobs(cfg: Config, start: Clock, steps: seq<Step>)
    ensures JobsOk(cfg, Run(cfg, start, steps))
  {
    if steps != [] {
      RunJobs(cfg, start, steps[..|steps| - 1]);
      StepJobs(cfg, Run(cfg, start, steps[..|steps| - 1]), steps[|steps| - 1]);
    }
  }
}
