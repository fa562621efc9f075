/**
 * Any number of requests running through the proxy at once.  One step is one stretch of one request
 * between points where others may run: an await, the cache lock, a clock reading.  Wall clock and
 * monotonic clock move on their own, also between the two readings made under the lock.
 */
module ProxyRun {
  import opened Wrappers
  import opened CommitWindow
  import opened ReplayCache
  import opened AttestToken
  import opened RequestFilter
  import Audit
  import MachineIdentity

  type Id = nat

  datatype Clock = Clock(wall: Wall, mono: Instant)

  /** Where a request stands. */
  datatype Pc =
    | Arrived
    | Passed
    | Clocked(now: i64, ts: i64)
    | AwaitMachine(p1: PhaseOne)
    | Reading(p1: PhaseOne)
    | Ready(p1: PhaseOne)
    | Locked(p1: PhaseOne)
    | Timed(p1: PhaseOne, wallRead: nat)
    | Spent(p1: PhaseOne, commit: nat)
    | Through(p1: PhaseOne, commit: nat)
    | ThroughBypass
    | Answered(status: nat)
    | Dropped
  {
    predicate HoldsLock() {
      Locked? || Timed?
    }

    predicate HasCommitted() {
      Spent? || Through?
    }
  }

  datatype Look = Look(now: i64, seen: set<Nonce>)

  type CertResult = Result<MachineIdentity.VerifiedMachine, MachineIdentity.MachineError>

  /** A request, and what it was shown on its way: clock and cache, machine verdicts, body bytes and their end. */
  datatype Job = Job(
    rq: Request,
    audit: Audit.AuditState,
    pc: Pc,
    look: Option<Look>,
    machine: Option<(CertResult, Option<MachineIdentity.Answer>)>,
    read: seq<byte>,
    ended: bool)

  /** A recorded nonce, with the positions among all locked clock readings of the two made for it. */
  datatype Commit = Commit(id: Id, nonce: Nonce, ts: i64, wallRead: nat, monoRead: nat)

  datatype State = State(
    clock: Clock,
    cache: Cache,
    lock: Option<Id>,
    jobs: map<Id, Job>,
    readings: seq<Clock>,
    commits: seq<Commit>)

  datatype Step =
    | Tick(to: Clock)
    | Arrive(id: Id, rq: Request)
    | DoPreflight(id: Id, admitted: bool, authorized: bool)
    | ReadHeaderClock(id: Id)
    | Consult(id: Id)
    | MachineAnswer(id: Id, cert: CertResult, answer: Option<MachineIdentity.Answer>)
    | ReadChunk(id: Id, chunk: seq<byte>)
    | EndBody(id: Id)
    | FailBody(id: Id)
    | TakeLock(id: Id)
    | ReadWall(id: Id)
    | ReadMono(id: Id)
    | Send(id: Id)
    | Drop(id: Id)

  function Initial(clock: Clock): State {
    State(clock, EMPTY_CACHE, None, map[], [], [])
  }

  function NewJob(cfg: Config, rq: Request): Job {
    Job(rq, Audit.NewAudit(cfg.machine.Some?), Arrived, None, None, [], false)
  }

  /** The request is answered or let through, or goes on at `next`. */
  function Advance(job: Job, p: Progress, next: Pc): Job {
    match p
    case Refuse(a, status) => job.(audit := a, pc := Answered(status))
    case LetThrough(a) => job.(audit := a, pc := ThroughBypass)
    case Continue(a) => job.(audit := a, pc := next)
  }

  /** After the identity checks: an unbound upload commits at once, a bound body is read first. */
  function Identified(p1: PhaseOne): Pc {
    if p1.binding.Streamed? then Ready(p1) else Reading(p1)
  }

  /** `verify_headers` past its clock reading: the cache is consulted once, then the token opened. */
  function Consulted(cfg: Config, job: Job, now: i64, ts: i64, seen: set<Nonce>): Job
    requires HeadersComplete(job.rq)
  {
    var r := TokenVerdict(cfg.crypto, InputsOf(job.rq), ts, seen);
    var p := AfterToken(job.audit, r);
    if r.Err? then Advance(job, p, job.pc)
    else
      var next := if MachineChecked(cfg, job.rq) then AwaitMachine(r.value) else Identified(r.value);
      Advance(job.(look := Some(Look(now, seen))), p, next)
  }

  /** A step of one request that changes nothing but that request. */
  function Local(cfg: Config, s: State, job: Job, step: Step): Job {
    match step
    case DoPreflight(_, admitted, authorized) =>
      if job.pc.Arrived? then Advance(job, Preflight(cfg, job.rq, admitted, authorized), Passed) else job
    case ReadHeaderClock(_) =>
      if job.pc.Passed? && HeadersComplete(job.rq) then
        var now := UnixNow(s.clock.wall);
        var ts := DriftVerdict(InputsOf(job.rq), now);
        if ts.Ok? then job.(pc := Clocked(now, ts.value))
          else Advance(job, Refuse(Audit.Rejected(job.audit, Audit.AttestReason(ts.error)), 403), job.pc)
      else job
    case Consult(_) =>
      if job.pc.Clocked? && HeadersComplete(job.rq) && s.lock.None?
        then Consulted(cfg, job, job.pc.now, job.pc.ts, s.cache.seen) else job
    case MachineAnswer(_, cert, answer) =>
      if job.pc.AwaitMachine? then
        Advance(job.(machine := Some((cert, answer))), AfterMachine(job.audit, MachineVerdict(job.rq, cert, answer)),
                Identified(job.pc.p1))
      else job
    case ReadChunk(_, chunk) =>
      if job.pc.Reading? then Advance(job.(read := job.read + chunk), AfterChunk(job.audit, job.read, chunk), job.pc)
        else job
    case EndBody(_) =>
      if !job.pc.Reading? then job
      else if BodyMatches(job.pc.p1.binding, cfg.crypto.sha256(job.read))
        then job.(ended := true, pc := Ready(job.pc.p1))
      else Advance(job.(ended := true), AfterCommit(job.audit, Err(BodyHashMismatch)), job.pc)
    case FailBody(_) =>
      if job.pc.Reading? then Advance(job, AfterReadError(job.audit), job.pc) else job
    case Send(_) =>
      if job.pc.Spent? then job.(audit := Audit.Forwarded(job.audit), pc := Through(job.pc.p1, job.pc.commit)) else job
    case Drop(_) =>
      if job.pc.AwaitMachine? || job.pc.Reading? then job.(pc := Dropped) else job
    case _ => job
  }

  function With(s: State, id: Id, job: Job): State {
    s.(jobs := s.jobs[id := job])
  }

  /** The request is refused at commit time and gives up the lock if it held it. */
  function RefuseCommit(s: State, id: Id, job: Job, e: AttestError): State {
    With(s, id, Advance(job, AfterCommit(job.audit, Err(e)), job.pc)).(lock := None)
  }

  /** The first half of `commit_nonce`: take the lock and look for the nonce. */
  function TakeLockStep(s: State, id: Id, job: Job): State
    requires job.pc.Ready?
  {
    if job.pc.p1.nonce in s.cache.seen then RefuseCommit(s, id, job, NonceReplay)
    else With(s, id, job.(pc := Locked(job.pc.p1))).(lock := Some(id))
  }

  /** Still holding it, read the wall clock and check the commit window. */
  function ReadWallStep(s: State, id: Id, job: Job): State
    requires job.pc.Locked?
  {
    var t := s.(readings := s.readings + [s.clock]);
    var window := CheckCommitWindow(job.pc.p1.ts, UnixNow(s.clock.wall));
    if window.Err? then RefuseCommit(t, id, job, window.error)
    else With(t, id, job.(pc := Timed(job.pc.p1, |s.readings|)))
  }

  /** Read the monotonic clock, evict and insert, and release the lock. */
  function ReadMonoStep(s: State, id: Id, job: Job): State
    requires job.pc.Timed?
  {
    var p1 := job.pc.p1;
    var t := s.(readings := s.readings + [s.clock], lock := None);
    var (cache, r) := Committed(s.cache, p1.nonce, s.clock.mono);
    if r.Err? then RefuseCommit(t.(cache := cache), id, job, r.error)
    else
      var commit := Commit(id, p1.nonce, p1.ts, job.pc.wallRead, |s.readings|);
      With(t, id, job.(pc := Spent(p1, |s.commits|))).(cache := cache, commits := s.commits + [commit])
  }

  /** One step of the proxy.  A step that is not possible where its request stands changes nothing. */
  function Apply(cfg: Config, s: State, step: Step): State {
    match step
    case Tick(to) => if to.mono >= s.clock.mono then s.(clock := to) else s
    case Arrive(id, rq) => if id in s.jobs then s else With(s, id, NewJob(cfg, rq))
    case TakeLock(id) =>
      if id in s.jobs && s.jobs[id].pc.Ready? && s.lock.None? then TakeLockStep(s, id, s.jobs[id]) else s
    case ReadWall(id) =>
      if id in s.jobs && s.jobs[id].pc.Locked? then ReadWallStep(s, id, s.jobs[id]) else s
    case ReadMono(id) =>
      if id in s.jobs && s.jobs[id].pc.Timed? then ReadMonoStep(s, id, s.jobs[id]) else s
    case _ => if step.id in s.jobs then With(s, step.id, Local(cfg, s, s.jobs[step.id], step)) else s
  }

  function Run(cfg: Config, start: Clock, steps: seq<Step>): State {
    if steps == [] then Initial(start)
    else Apply(cfg, Run(cfg, start, steps[..|steps| - 1]), steps[|steps| - 1])
  }

  /** Steps taken one after another from a given state. */
  function Exec(cfg: Config, s: State, steps: seq<Step>): State
    decreases |steps|
  {
    if steps == [] then s else Exec(cfg, Apply(cfg, s, steps[0]), steps[1..])
  }

  lemma {:induction false} ExecConcat(cfg: Config, s: State, a: seq<Step>, b: seq<Step>)
    ensures Exec(cfg, s, a + b) == Exec(cfg, Exec(cfg, s, a), b)
    decreases |a|
  {
    if a == [] {
      assert a + b == b;
    } else {
      assert (a + b)[0] == a[0] && (a + b)[1..] == a[1..] + b;
      ExecConcat(cfg, Apply(cfg, s, a[0]), a[1..], b);
    }
  }

  /** A run goes on from where an earlier part of it stopped. */
  lemma {:induction false} RunGoesOn(cfg: Config, start: Clock, earlier: seq<Step>, steps: seq<Step>)
    ensures Run(cfg, start, earlier + steps) == Exec(cfg, Run(cfg, start, earlier), steps)
    decreases |steps|
  {
    if steps == [] {
      assert earlier + steps == earlier;
    } else {
      var more := earlier + [steps[0]];
      assert more[..|more| - 1] == earlier;
      assert earlier + steps == more + steps[1..];
      RunGoesOn(cfg, start, more, steps[1..]);
    }
  }

  lemma RunFromStart(cfg: Config, start: Clock, steps: seq<Step>)
    ensures Run(cfg, start, steps) == Exec(cfg, Initial(start), steps)
  {
    RunGoesOn(cfg, start, [], steps);
    assert [] + steps == steps;
  }
}
