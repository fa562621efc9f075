/**
 * What a record says about the request it is of: in every run, whatever else happens, it names that
 * request's method, host, nonce and time, the machine that was verified for it and the kind of token.
 */
module AuditTrail {
  import opened Wrappers
  import opened CommitWindow
  import opened ReplayCache
  import opened AttestToken
  import opened RequestFilter
  import opened ProxyRun
  import opened ProxyInvariant
  import opened TimestampReading
  import Audit
  import MachineIdentity
  import Text

  /** A text as it is shown: whole if it has at most `max` characters, else its first `max` and an ellipsis. */
  predicate ShownAs(shown: Option<string>, text: Option<string>, max: nat) {
    if text.None? then shown.None?
    else if |text.value| <= max then shown == text
    else
      && shown.Some? && |shown.value| == max + 1
      && shown.value[..max] == text.value[..max] && shown.value[max] == '\U{2026}'
  }

  /** A Unix time in the years 1970 to 9999, between blanks and tabs, is shown as a date; anything else is not shown. */
  predicate TimeShown(shown: Option<string>, ts: Option<string>) {
    if ts.None? then shown.None?
    else
      var secs := Text.ParseI64(Text.Strip(ts.value, (c: char) => c == ' ' || c == '\t'));
      if secs.Some? && 0 <= secs.value <= 253_402_300_799 then shown.Some? && Names(shown.value, 1000 * secs.value)
      else shown.None?
  }

  predicate ShowsRequest(a: Audit.AuditState, rq: Request) {
    && ShownAs(a.method_, Some(rq.method_), 32)
    && ShownAs(a.host, HostOf(rq), 256)
    && ShownAs(a.attestation.nonce, rq.nonce.Text(), 64)
    && TimeShown(a.attestation.clientTimestamp, rq.ts.Text())
  }

  /** A machine shown as verified is the one whose certificate was verified for this request. */
  predicate ShowsMachine(a: Audit.AuditState, machine: Option<(CertResult, Option<MachineIdentity.Answer>)>) {
    a.machine.status == Audit.MachineVerified ==>
      && machine.Some? && machine.value.0.Ok?
      && a.machine.hostname == Some(machine.value.0.value.hostname)
      && ShownAs(a.machine.subjectDn, Some(machine.value.0.value.subjectDn), 1024)
  }

  /** Until a machine is verified its certificate is kept, unread, for the record. */
  predicate KeepsCertificate(a: Audit.AuditState, rq: Request) {
    a.machine.status != Audit.MachineVerified ==> a.presentedCert == rq.machineCert.Text() && a.machine.subjectDn.None?
  }

  /** The binding shown is that of the token. */
  predicate ShowsBinding(a: Audit.AuditState, binding: BodyBinding) {
    a.attestation.bodyBinding == Some(if binding.Hash? then Audit.Bound else Audit.Unbound)
  }

  function PhaseOneOf(pc: Pc): Option<PhaseOne> {
    match pc
    case AwaitMachine(p1) => Some(p1)
    case Reading(p1) => Some(p1)
    case Ready(p1) => Some(p1)
    case Locked(p1) => Some(p1)
    case Timed(p1, _) => Some(p1)
    case Spent(p1, _) => Some(p1)
    case Through(p1, _) => Some(p1)
    case _ => None
  }

  ghost predicate Shows(job: Job) {
    && (job.pc.Arrived? ==> job.audit.machine.status != Audit.MachineVerified)
    && (!job.pc.Arrived? ==> ShowsRequest(job.audit, job.rq) && KeepsCertificate(job.audit, job.rq))
    && ShowsMachine(job.audit, job.machine)
    && (PhaseOneOf(job.pc).Some? ==> ShowsBinding(job.audit, PhaseOneOf(job.pc).value.binding))
  }

  // ── Each step ──────────────────────────────────────────────────────────────

  lemma BoundedShown(text: Option<string>, max: nat)
    ensures ShownAs(Audit.BoundedOption(text, max), text, max)
  {
  }

  lemma ClientTimeShown(ts: Option<string>)
    ensures TimeShown(Audit.ClientTimestamp(ts), ts)
  {
    if ts.Some? {
      var secs := Text.ParseI64(Text.Strip(ts.value, (c: char) => c == ' ' || c == '\t'));
      if secs.Some? {
        UnixTimestampNames(secs.value);
      }
    }
  }

  /** The opening entries are those of the request, and no machine is verified yet. */
  lemma OpeningShows(cfg: Config, rq: Request)
    ensures var a := OpeningAudit(cfg, rq);
            ShowsRequest(a, rq) && KeepsCertificate(a, rq) && a.machine.status != Audit.MachineVerified
  {
    BoundedShown(Some(rq.method_), 32);
    BoundedShown(HostOf(rq), 256);
    BoundedShown(rq.nonce.Text(), 64);
    ClientTimeShown(rq.ts.Text());
  }

  /** The request's own entries are the same, and a machine is verified only if one was before. */
  predicate KeepsEntries(a: Audit.AuditState, b: Audit.AuditState) {
    && b.method_ == a.method_ && b.host == a.host
    && b.attestation.nonce == a.attestation.nonce && b.attestation.clientTimestamp == a.attestation.clientTimestamp
    && (b.machine.status == Audit.MachineVerified ==> b.machine == a.machine)
    && (b.machine.status != Audit.MachineVerified ==> a.machine.status != Audit.MachineVerified)
    && b.presentedCert == a.presentedCert && b.machine.subjectDn == a.machine.subjectDn
  }

  lemma PreflightKeeps(cfg: Config, rq: Request, admitted: bool, authorized: bool)
    ensures KeepsEntries(OpeningAudit(cfg, rq), Preflight(cfg, rq, admitted, authorized).audit)
  {
  }

  lemma EntriesKept(a: Audit.AuditState, b: Audit.AuditState, rq: Request)
    requires ShowsRequest(a, rq) && KeepsCertificate(a, rq) && KeepsEntries(a, b)
    ensures ShowsRequest(b, rq) && KeepsCertificate(b, rq)
  {
  }

  lemma AdvanceOpens(job: Job, p: Progress, a: Audit.AuditState)
    requires KeepsEntries(a, p.audit)
    ensures var job' := Advance(job, p, Passed);
            && job'.rq == job.rq && job'.machine == job.machine && !job'.pc.Arrived? && PhaseOneOf(job'.pc).None?
            && KeepsEntries(a, job'.audit)
  {
  }

  /** The first step opens the record. */
  lemma PreflightOpens(cfg: Config, s: State, job: Job, id: Id, admitted: bool, authorized: bool)
    requires job.pc.Arrived?
    ensures var job' := Local(cfg, s, job, DoPreflight(id, admitted, authorized));
            && job'.rq == job.rq && job'.machine == job.machine && !job'.pc.Arrived? && PhaseOneOf(job'.pc).None?
            && KeepsEntries(OpeningAudit(cfg, job.rq), job'.audit)
  {
    PreflightKeeps(cfg, job.rq, admitted, authorized);
    AdvanceOpens(job, Preflight(cfg, job.rq, admitted, authorized), OpeningAudit(cfg, job.rq));
  }

  /** A later step keeps the entries of the request, and of the token it goes on with. */
  predicate Follows(job: Job, job': Job) {
    job' == job
    || (&& job'.rq == job.rq && job'.machine == job.machine && !job.pc.Arrived? && !job'.pc.Arrived?
        && KeepsEntries(job.audit, job'.audit)
        && job'.audit.attestation.bodyBinding == job.audit.attestation.bodyBinding
        && (PhaseOneOf(job'.pc).Some? ==> PhaseOneOf(job'.pc) == PhaseOneOf(job.pc)))
  }

  lemma FollowsShows(job: Job, job': Job)
    requires Shows(job) && Follows(job, job')
    ensures Shows(job')
  {
    if job' != job {
      EntriesKept(job.audit, job'.audit, job.rq);
    }
  }

  lemma ClockFollows(cfg: Config, s: State, job: Job, id: Id)
    ensures Follows(job, Local(cfg, s, job, ReadHeaderClock(id)))
  {
  }

  lemma BodyFollows(cfg: Config, s: State, job: Job, step: Step)
    requires step.ReadChunk? || step.EndBody? || step.FailBody?
    ensures Follows(job, Local(cfg, s, job, step))
  {
  }

  lemma LastFollows(cfg: Config, s: State, job: Job, step: Step)
    requires step.Send? || step.Drop?
    ensures Follows(job, Local(cfg, s, job, step))
  {
  }

  /** A token that passes is entered with its binding; one that does not leaves the entries. */
  lemma ConsultShows(cfg: Config, job: Job, now: i64, ts: i64, seen: set<Nonce>)
    requires Shows(job) && job.pc.Clocked? && HeadersComplete(job.rq)
               && job.audit.machine.status != Audit.MachineVerified
    ensures Shows(Consulted(cfg, job, now, ts, seen))
  {
    var r := TokenVerdict(cfg.crypto, InputsOf(job.rq), ts, seen);
    var job' := Consulted(cfg, job, now, ts, seen);
    if r.Err? {
      assert Follows(job, job');
      FollowsShows(job, job');
    } else {
      EntriesKept(job.audit, job'.audit, job.rq);
    }
  }

  lemma MachineShows(cfg: Config, job: Job, cert: CertResult, answer: Option<MachineIdentity.Answer>)
    requires Shows(job) && job.pc.AwaitMachine? && job.audit.machine.status != Audit.MachineVerified
    ensures var v := MachineVerdict(job.rq, cert, answer);
            Shows(Advance(job.(machine := Some((cert, answer))), AfterMachine(job.audit, v), Identified(job.pc.p1)))
  {
    if MachineVerdict(job.rq, cert, answer).Ok? {
      BoundedShown(Some(cert.value.subjectDn), 1024);
    }
  }

  lemma ConsultStepShows(cfg: Config, s: State, job: Job, id: Id)
    requires Shows(job) && JobOk(cfg, job)
    ensures Shows(Local(cfg, s, job, Consult(id)))
  {
    if job.pc.Clocked? {
      ConsultShows(cfg, job, job.pc.now, job.pc.ts, s.cache.seen);
    }
  }

  lemma MachineStepShows(cfg: Config, s: State, job: Job, id: Id, cert: CertResult,
                         answer: Option<MachineIdentity.Answer>)
    requires Shows(job) && JobOk(cfg, job)
    ensures Shows(Local(cfg, s, job, MachineAnswer(id, cert, answer)))
  {
    if job.pc.AwaitMachine? {
      MachineShows(cfg, job, cert, answer);
    }
  }

  lemma OpeningStepShows(cfg: Config, s: State, job: Job, id: Id, admitted: bool, authorized: bool)
    requires Shows(job) && JobOk(cfg, job)
    ensures Shows(Local(cfg, s, job, DoPreflight(id, admitted, authorized)))
  {
    if job.pc.Arrived? {
      OpeningShows(cfg, job.rq);
      PreflightOpens(cfg, s, job, id, admitted, authorized);
      EntriesKept(OpeningAudit(cfg, job.rq), Local(cfg, s, job, DoPreflight(id, admitted, authorized)).audit, job.rq);
    }
  }

  lemma LocalShows(cfg: Config, s: State, job: Job, step: Step)
    requires Shows(job) && JobOk(cfg, job) && LocalStep(step)
    ensures Shows(Local(cfg, s, job, step))
  {
    if step.DoPreflight? {
      OpeningStepShows(cfg, s, job, step.id, step.admitted, step.authorized);
    } else if step.Consult? {
      ConsultStepShows(cfg, s, job, step.id);
    } else if step.MachineAnswer? {
      MachineStepShows(cfg, s, job, step.id, step.cert, step.answer);
    } else {
      if step.ReadHeaderClock? {
        ClockFollows(cfg, s, job, step.id);
      } else if step.Send? || step.Drop? {
        LastFollows(cfg, s, job, step);
      } else {
        BodyFollows(cfg, s, job, step);
      }
      FollowsShows(job, Local(cfg, s, job, step));
    }
  }

  ghost predicate AllShow(s: State) {
    forall id :: id in s.jobs ==> Shows(s.jobs[id])
  }

  lemma TakeLockFollows(cfg: Config, s: State, id: Id)
    requires id in s.jobs
    ensures var t := Apply(cfg, s, TakeLock(id)); id in t.jobs && Follows(s.jobs[id], t.jobs[id])
  {
  }

  lemma ReadWallFollows(cfg: Config, s: State, id: Id)
    requires id in s.jobs
    ensures var t := Apply(cfg, s, ReadWall(id)); id in t.jobs && Follows(s.jobs[id], t.jobs[id])
  {
  }

  lemma ReadMonoFollows(cfg: Config, s: State, id: Id)
    requires id in s.jobs
    ensures var t := Apply(cfg, s, ReadMono(id)); id in t.jobs && Follows(s.jobs[id], t.jobs[id])
  {
  }

  /** The request that a step is about shows itself after it. */
  lemma OwnStepShows(cfg: Config, s: State, step: Step, t: State)
    requires !step.Tick? && !step.Arrive? && step.id in s.jobs && t == Apply(cfg, s, step)
    requires Shows(s.jobs[step.id]) && JobOk(cfg, s.jobs[step.id])
    ensures step.id in t.jobs && Shows(t.jobs[step.id])
  {
    if LocalStep(step) {
      LocalShows(cfg, s, s.jobs[step.id], step);
    } else {
      if step.TakeLock? {
        TakeLockFollows(cfg, s, step.id);
      } else if step.ReadWall? {
        ReadWallFollows(cfg, s, step.id);
      } else {
        ReadMonoFollows(cfg, s, step.id);
      }
      FollowsShows(s.jobs[step.id], t.jobs[step.id]);
    }
  }

  lemma StepShows(cfg: Config, s: State, step: Step, t: State)
    requires AllShow(s) && JobsOk(cfg, s) && t == Apply(cfg, s, step) && TouchesOne(cfg, s, t, step)
    ensures AllShow(t)
  {
    if !step.Tick? && !step.Arrive? && step.id in s.jobs {
      OwnStepShows(cfg, s, step, t);
    }
  }

  lemma {:induction false} RunShows(cfg: Config, start: Clock, steps: seq<Step>)
    ensures AllShow(Run(cfg, start, steps))
  {
    if steps != [] {
      RunShows(cfg, start, steps[..|steps| - 1]);
      RunJobs(cfg, start, steps[..|steps| - 1]);
      StepTouchesOne(cfg, Run(cfg, start, steps[..|steps| - 1]), steps[|steps| - 1]);
      StepShows(cfg, Run(cfg, start, steps[..|steps| - 1]), steps[|steps| - 1], Run(cfg, start, steps));
    }
  }

  // ── The record ─────────────────────────────────────────────────────────────

  /** The record's entries about the request are those of the state it is made from. */
  lemma RecordKeeps(a: Audit.AuditState, error: Option<Audit.ProxyError>, subject: string -> Option<string>)
    ensures var r := Audit.RecordOf(a, error, subject);
            && r.method_ == a.method_ && r.host == a.host
            && r.attestation == a.attestation
            && r.machine.status == a.machine.status && r.machine.hostname == a.machine.hostname
            && (a.machine.subjectDn.Some? ==> r.machine.subjectDn == a.machine.subjectDn)
            && (a.machine.subjectDn.None? ==>
                  ShownAs(r.machine.subjectDn, if a.presentedCert.Some? then subject(a.presentedCert.value) else None,
                          1024))
  {
  }

  /**
   * In every run the record of a request whose checks have begun shows that request's method, host,
   * nonce and time; a verified machine is the one whose certificate was verified for it, and without one
   * the certificate that came with the request is named; and a forwarded request shows whether its
   * token bound the body.
   */
  lemma EveryRecordShows(cfg: Config, start: Clock, steps: seq<Step>, id: Id, error: Option<Audit.ProxyError>,
                         subject: string -> Option<string>)
    requires id in Run(cfg, start, steps).jobs && !Run(cfg, start, steps).jobs[id].pc.Arrived?
    ensures var job := Run(cfg, start, steps).jobs[id];
            var r := Audit.RecordOf(job.audit, error, subject);
            && ShownAs(r.method_, Some(job.rq.method_), 32) && ShownAs(r.host, HostOf(job.rq), 256)
            && ShownAs(r.attestation.nonce, job.rq.nonce.Text(), 64)
            && TimeShown(r.attestation.clientTimestamp, job.rq.ts.Text())
            && (r.machine.status == Audit.MachineVerified ==>
                  && job.machine.Some? && job.machine.value.0.Ok?
                  && r.machine.hostname == Some(job.machine.value.0.value.hostname)
                  && ShownAs(r.machine.subjectDn, Some(job.machine.value.0.value.subjectDn), 1024))
            && (r.machine.status != Audit.MachineVerified ==>
                  ShownAs(r.machine.subjectDn,
                          if job.rq.machineCert.Readable? then subject(job.rq.machineCert.text) else None, 1024))
            && (job.pc.Through? ==>
                  r.attestation.bodyBinding == Some(if job.pc.p1.binding.Hash? then Audit.Bound else Audit.Unbound))
  {
    RunShows(cfg, start, steps);
    var job := Run(cfg, start, steps).jobs[id];
    assert Shows(job);
    RecordKeeps(job.audit, error, subject);
  }

  // ── The machine's status ───────────────────────────────────────────────────

  /** Before the machine is checked: off, absent, or not evaluated yet. */
  function StatusBefore(cfg: Config, rq: Request): Audit.MachineStatus {
    if cfg.machine.None? then Audit.Disabled
    else if rq.machineCert.NotSent? then Audit.Absent
    else Audit.MachineNotEvaluated
  }

  /** After it: off, absent, or verified. */
  function StatusAfter(cfg: Config, rq: Request): Audit.MachineStatus {
    if cfg.machine.None? then Audit.Disabled
    else if rq.machineCert.NotSent? then Audit.Absent
    else Audit.MachineVerified
  }

  predicate ShowsStatus(cfg: Config, job: Job) {
    match job.pc
    case Passed => job.audit.machine.status == StatusBefore(cfg, job.rq)
    case Clocked(_, _) => job.audit.machine.status == StatusBefore(cfg, job.rq)
    case AwaitMachine(_) => job.audit.machine.status == StatusBefore(cfg, job.rq)
    case _ => PhaseOneOf(job.pc).Some? ==> job.audit.machine.status == StatusAfter(cfg, job.rq)
  }

  lemma PreflightStatus(cfg: Config, s: State, job: Job, id: Id, admitted: bool, authorized: bool)
    requires ShowsStatus(cfg, job)
    ensures ShowsStatus(cfg, Local(cfg, s, job, DoPreflight(id, admitted, authorized)))
  {
  }

  lemma ConsultStatus(cfg: Config, job: Job, now: i64, ts: i64, seen: set<Nonce>)
    requires ShowsStatus(cfg, job) && job.pc.Clocked? && HeadersComplete(job.rq)
    ensures ShowsStatus(cfg, Consulted(cfg, job, now, ts, seen))
  {
  }

  lemma MachineStatusStep(cfg: Config, s: State, job: Job, id: Id, cert: CertResult,
                          answer: Option<MachineIdentity.Answer>)
    requires ShowsStatus(cfg, job) && JobOk(cfg, job)
    ensures ShowsStatus(cfg, Local(cfg, s, job, MachineAnswer(id, cert, answer)))
  {
    if job.pc.AwaitMachine? {
      assert MachineChecked(cfg, job.rq);
    }
  }

  lemma OtherStatus(cfg: Config, s: State, job: Job, step: Step)
    requires ShowsStatus(cfg, job)
    requires step.ReadHeaderClock? || step.ReadChunk? || step.EndBody? || step.FailBody? || step.Send? || step.Drop?
    ensures ShowsStatus(cfg, Local(cfg, s, job, step))
  {
  }

  lemma LocalStatus(cfg: Config, s: State, job: Job, step: Step)
    requires ShowsStatus(cfg, job) && JobOk(cfg, job) && LocalStep(step)
    ensures ShowsStatus(cfg, Local(cfg, s, job, step))
  {
    if step.DoPreflight? {
      PreflightStatus(cfg, s, job, step.id, step.admitted, step.authorized);
    } else if step.MachineAnswer? {
      MachineStatusStep(cfg, s, job, step.id, step.cert, step.answer);
    } else if step.Consult? {
      if job.pc.Clocked? && HeadersComplete(job.rq) {
        ConsultStatus(cfg, job, job.pc.now, job.pc.ts, s.cache.seen);
      }
    } else {
      OtherStatus(cfg, s, job, step);
    }
  }

  lemma TakeLockStatus(cfg: Config, s: State, id: Id)
    requires id in s.jobs && ShowsStatus(cfg, s.jobs[id])
    ensures var t := Apply(cfg, s, TakeLock(id)); id in t.jobs && ShowsStatus(cfg, t.jobs[id])
  {
  }

  lemma ReadWallStatus(cfg: Config, s: State, id: Id)
    requires id in s.jobs && ShowsStatus(cfg, s.jobs[id])
    ensures var t := Apply(cfg, s, ReadWall(id)); id in t.jobs && ShowsStatus(cfg, t.jobs[id])
  {
  }

  lemma ReadMonoStatus(cfg: Config, s: State, id: Id)
    requires id in s.jobs && ShowsStatus(cfg, s.jobs[id])
    ensures var t := Apply(cfg, s, ReadMono(id)); id in t.jobs && ShowsStatus(cfg, t.jobs[id])
  {
  }

  ghost predicate AllStatus(cfg: Config, s: State) {
    forall id :: id in s.jobs ==> ShowsStatus(cfg, s.jobs[id])
  }

  lemma OwnStatus(cfg: Config, s: State, step: Step, t: State)
    requires !step.Tick? && !step.Arrive? && step.id in s.jobs && t == Apply(cfg, s, step)
    requires ShowsStatus(cfg, s.jobs[step.id]) && JobOk(cfg, s.jobs[step.id])
    ensures step.id in t.jobs && ShowsStatus(cfg, t.jobs[step.id])
  {
    if LocalStep(step) {
      LocalStatus(cfg, s, s.jobs[step.id], step);
    } else if step.TakeLock? {
      TakeLockStatus(cfg, s, step.id);
    } else if step.ReadWall? {
      ReadWallStatus(cfg, s, step.id);
    } else {
      ReadMonoStatus(cfg, s, step.id);
    }
  }

  lemma StepStatus(cfg: Config, s: State, step: Step, t: State)
    requires AllStatus(cfg, s) && JobsOk(cfg, s) && t == Apply(cfg, s, step) && TouchesOne(cfg, s, t, step)
    ensures AllStatus(cfg, t)
  {
    if !step.Tick? && !step.Arrive? && step.id in s.jobs {
      OwnStatus(cfg, s, step, t);
    }
  }

  lemma {:induction false} RunStatus(cfg: Config, start: Clock, steps: seq<Step>)
    ensures AllStatus(cfg, Run(cfg, start, steps))
  {
    if steps != [] {
      var init := steps[..|steps| - 1];
      RunStatus(cfg, start, init);
      RunJobs(cfg, start, init);
      StepTouchesOne(cfg, Run(cfg, start, init), steps[|steps| - 1]);
      StepStatus(cfg, Run(cfg, start, init), steps[|steps| - 1], Run(cfg, start, steps));
    }
  }

  /**
   * In every run the record of an attested forward says of the machine that the check is off, that no
   * certificate was sent, or that it was verified, each exactly when that is so.
   */
  lemma ForwardShowsMachine(cfg: Config, start: Clock, steps: seq<Step>, id: Id, error: Option<Audit.ProxyError>,
                            subject: string -> Option<string>)
    requires id in Run(cfg, start, steps).jobs && Run(cfg, start, steps).jobs[id].pc.Through?
    ensures var job := Run(cfg, start, steps).jobs[id];
            var r := Audit.RecordOf(job.audit, error, subject);
            && (r.machine.status == Audit.Disabled <==> cfg.machine.None?)
            && (r.machine.status == Audit.Absent <==> cfg.machine.Some? && job.rq.machineCert.NotSent?)
            && (r.machine.status == Audit.MachineVerified <==> cfg.machine.Some? && !job.rq.machineCert.NotSent?)
  {
    RunStatus(cfg, start, steps);
    var job := Run(cfg, start, steps).jobs[id];
    assert ShowsStatus(cfg, job);
    RecordKeeps(job.audit, error, subject);
  }
}
