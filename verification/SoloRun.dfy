/**
 * The step machine of ProxyRun against the sequential filter of RequestFilter: a request whose steps
 * run without others between them gets exactly the filter's answer, audit record and cache.
 */
module SoloRun {
  import opened Wrappers
  import opened CommitWindow
  import opened ReplayCache
  import opened AttestToken
  import opened RequestFilter
  import opened ProxyRun
  import Audit

  // ── The script of one request ──────────────────────────────────────────────

  function Front(id: Id, rq: Request, w: World, mono: Instant): seq<Step> {
    [Arrive(id, rq), DoPreflight(id, w.admitted, w.authorized), Tick(Clock(w.headersWall, mono)), ReadHeaderClock(id),
     Consult(id), MachineAnswer(id, w.cert, w.answer)]
  }

  function BodySteps(id: Id, body: Body): seq<Step>
    decreases |body.chunks|
  {
    if body.chunks == [] then [if body.ends then EndBody(id) else FailBody(id)]
    else [ReadChunk(id, body.chunks[0])] + BodySteps(id, Body(body.chunks[1..], body.ends))
  }

  function Back(id: Id, w: World, mono: Instant): seq<Step> {
    [TakeLock(id), Tick(Clock(w.commitWall, mono)), ReadWall(id), Tick(Clock(w.commitWall, w.commitMono)), ReadMono(id),
     Send(id)]
  }

  // ── A request that is done stays as it is ──────────────────────────────────

  predicate Done(pc: Pc) {
    pc.Answered? || pc.ThroughBypass? || pc.Through?
  }

  predicate Own(step: Step, id: Id) {
    !step.Tick? && !step.Arrive? && step.id == id
  }

  lemma {:induction false} DoneStays(cfg: Config, s: State, id: Id, steps: seq<Step>)
    requires id in s.jobs && Done(s.jobs[id].pc)
    requires forall i :: 0 <= i < |steps| ==> steps[i].Tick? || Own(steps[i], id)
    ensures var t := Exec(cfg, s, steps); id in t.jobs && t.jobs[id] == s.jobs[id] && t.cache == s.cache
    decreases |steps|
  {
    if steps != [] {
      var t := Apply(cfg, s, steps[0]);
      assert id in t.jobs && t.jobs[id] == s.jobs[id] && t.cache == s.cache;
      DoneStays(cfg, t, id, steps[1..]);
    }
  }

  /** The request stands where the filter's progress says. */
  predicate Mirrors(job: Job, p: Progress) {
    match p
    case Refuse(a, status) => job.audit == a && job.pc == Answered(status)
    case LetThrough(a) => job.audit == a && (job.pc.Through? || job.pc.ThroughBypass?)
    case Continue(a) => false
  }

  // ── Up to the identity checks ──────────────────────────────────────────────

  /** What the filter knows once the identity checks have passed. */
  function Checked(cfg: Config, rq: Request, w: World, c: Cache): (Progress, Option<PhaseOne>) {
    var front := Preflight(cfg, rq, w.admitted, w.authorized);
    if !front.Continue? || !HeadersComplete(rq) then (front, None)
    else
      var r := HeaderPhase(cfg, rq, w, c);
      var token := AfterToken(front.audit, r);
      if r.Err? then (token, None)
      else
        var machine := if MachineChecked(cfg, rq) then AfterMachine(token.audit, MachineVerdict(rq, w.cert, w.answer))
          else token;
        (machine, if machine.Refuse? then None else Some(r.value))
  }

  lemma FilterFromChecked(cfg: Config, rq: Request, w: World, c: Cache)
    ensures var (p, p1) := Checked(cfg, rq, w, c);
            && (p1.None? ==> !p.Continue? && Filter(cfg, rq, w, c) == (p, c))
            && (p1.Some? ==> p.Continue? && Filter(cfg, rq, w, c) == CommitPhase(cfg, w, p.audit, p1.value, c))
  {
    PreflightMeans(cfg, rq, w.admitted, w.authorized);
  }

  lemma ExecSix(cfg: Config, s: State, a: Step, b: Step, c: Step, d: Step, e: Step, f: Step)
    ensures Exec(cfg, s, [a, b, c, d, e, f])
         == Apply(cfg, Apply(cfg, Apply(cfg, Apply(cfg, Apply(cfg, Apply(cfg, s, a), b), c), d), e), f)
  {
    ExecOne(cfg, s, a, [b, c, d, e, f]);
    var s1 := Apply(cfg, s, a);
    ExecOne(cfg, s1, b, [c, d, e, f]);
    var s2 := Apply(cfg, s1, b);
    ExecOne(cfg, s2, c, [d, e, f]);
    var s3 := Apply(cfg, s2, c);
    ExecOne(cfg, s3, d, [e, f]);
    var s4 := Apply(cfg, s3, d);
    ExecOne(cfg, s4, e, [f]);
    ExecOne(cfg, Apply(cfg, s4, e), f, []);
    assert [a] + [b, c, d, e, f] == [a, b, c, d, e, f] && [b] + [c, d, e, f] == [b, c, d, e, f];
    assert [c] + [d, e, f] == [c, d, e, f] && [d] + [e, f] == [d, e, f] && [e] + [f] == [e, f] && [f] + [] == [f];
  }

  lemma ExecOne(cfg: Config, s: State, step: Step, rest: seq<Step>)
    ensures Exec(cfg, s, [step] + rest) == Exec(cfg, Apply(cfg, s, step), rest)
  {
    assert ([step] + rest)[1..] == rest;
  }

  /** The request is at `pc` with this audit; nothing of a body has been read. */
  predicate At(s: State, id: Id, rq: Request, audit: Audit.AuditState, pc: Pc) {
    id in s.jobs && s.jobs[id].rq == rq && s.jobs[id].audit == audit && s.jobs[id].pc == pc && s.jobs[id].read == []
  }

  /** Nothing that other requests see has changed. */
  predicate Unseen(s: State, t: State) {
    t.cache == s.cache && t.lock == s.lock && t.clock.mono == s.clock.mono
  }

  lemma ArrivalRuns(cfg: Config, s: State, id: Id, rq: Request, w: World) returns (t: State)
    requires id !in s.jobs
    ensures t == Apply(cfg, Apply(cfg, s, Arrive(id, rq)), DoPreflight(id, w.admitted, w.authorized))
    ensures Unseen(s, t) && id in t.jobs
    ensures var p := Preflight(cfg, rq, w.admitted, w.authorized);
            if p.Continue? then At(t, id, rq, p.audit, Passed) else Mirrors(t.jobs[id], p)
  {
    var s1 := Apply(cfg, s, Arrive(id, rq));
    assert s1 == With(s, id, NewJob(cfg, rq));
    t := Apply(cfg, s1, DoPreflight(id, w.admitted, w.authorized));
    assert t == With(s1, id, Advance(NewJob(cfg, rq), Preflight(cfg, rq, w.admitted, w.authorized), Passed));
  }

  lemma HeadersRun(cfg: Config, s: State, id: Id, rq: Request, audit: Audit.AuditState, w: World, mono: Instant)
    returns (t: State)
    requires At(s, id, rq, audit, Passed) && HeadersComplete(rq) && s.lock.None? && mono == s.clock.mono
    ensures t == Apply(cfg, Apply(cfg, Apply(cfg, s, Tick(Clock(w.headersWall, mono))), ReadHeaderClock(id)),
                       Consult(id))
    ensures Unseen(s, t) && id in t.jobs
    ensures var r := HeaderPhase(cfg, rq, w, s.cache);
            var p := AfterToken(audit, r);
            if r.Err? then Mirrors(t.jobs[id], p)
            else At(t, id, rq, p.audit, if MachineChecked(cfg, rq) then AwaitMachine(r.value) else Identified(r.value))
  {
    var s1 := Apply(cfg, s, Tick(Clock(w.headersWall, mono)));
    var s2 := Apply(cfg, s1, ReadHeaderClock(id));
    var now := UnixNow(w.headersWall);
    var ts := DriftVerdict(InputsOf(rq), now);
    assert s2 == With(s1, id, Local(cfg, s1, s1.jobs[id], ReadHeaderClock(id)));
    t := Apply(cfg, s2, Consult(id));
    assert t == With(s2, id, Local(cfg, s2, s2.jobs[id], Consult(id)));
    if ts.Ok? {
      assert At(s2, id, rq, audit, Clocked(now, ts.value));
      assert t.jobs[id] == Consulted(cfg, s2.jobs[id], now, ts.value, s.cache.seen);
    } else {
      assert t.jobs[id] == s2.jobs[id];
    }
  }

  lemma MachineRuns(cfg: Config, s: State, id: Id, rq: Request, token: Audit.AuditState, w: World, p1: PhaseOne)
    returns (t: State)
    requires At(s, id, rq, token, if MachineChecked(cfg, rq) then AwaitMachine(p1) else Identified(p1))
    ensures t == Apply(cfg, s, MachineAnswer(id, w.cert, w.answer))
    ensures Unseen(s, t) && id in t.jobs
    ensures var p := if MachineChecked(cfg, rq) then AfterMachine(token, MachineVerdict(rq, w.cert, w.answer))
              else Continue(token);
            if p.Refuse? then Mirrors(t.jobs[id], p) else At(t, id, rq, p.audit, Identified(p1))
  {
    t := Apply(cfg, s, MachineAnswer(id, w.cert, w.answer));
    assert t == With(s, id, Local(cfg, s, s.jobs[id], MachineAnswer(id, w.cert, w.answer)));
  }

  lemma FrontRuns(cfg: Config, s: State, id: Id, rq: Request, w: World, mono: Instant)
    requires id !in s.jobs && s.lock.None? && mono == s.clock.mono
    ensures var t := Exec(cfg, s, Front(id, rq, w, mono));
            var (p, p1) := Checked(cfg, rq, w, s.cache);
            && Unseen(s, t) && id in t.jobs
            && (if p1.None? then Mirrors(t.jobs[id], p) else At(t, id, rq, p.audit, Identified(p1.value)))
  {
    ExecSix(cfg, s, Arrive(id, rq), DoPreflight(id, w.admitted, w.authorized), Tick(Clock(w.headersWall, mono)),
            ReadHeaderClock(id), Consult(id), MachineAnswer(id, w.cert, w.answer));
    var front := Preflight(cfg, rq, w.admitted, w.authorized);
    PreflightMeans(cfg, rq, w.admitted, w.authorized);
    var s2 := ArrivalRuns(cfg, s, id, rq, w);
    if !front.Continue? {
      DoneFour(cfg, s2, id, Tick(Clock(w.headersWall, mono)), ReadHeaderClock(id), Consult(id),
               MachineAnswer(id, w.cert, w.answer));
    } else {
      var s5 := HeadersRun(cfg, s2, id, rq, front.audit, w, mono);
      var r := HeaderPhase(cfg, rq, w, s.cache);
      if r.Err? {
        DoneOne(cfg, s5, id, MachineAnswer(id, w.cert, w.answer));
      } else {
        var s6 := MachineRuns(cfg, s5, id, rq, AfterToken(front.audit, r).audit, w, r.value);
      }
    }
  }

  lemma DoneOne(cfg: Config, s: State, id: Id, a: Step)
    requires id in s.jobs && Done(s.jobs[id].pc) && Own(a, id)
    ensures var t := Apply(cfg, s, a); Unseen(s, t) && id in t.jobs && t.jobs[id] == s.jobs[id]
  {
  }

  lemma DoneFour(cfg: Config, s: State, id: Id, tick: Step, a: Step, b: Step, c: Step)
    requires id in s.jobs && Done(s.jobs[id].pc) && Own(a, id) && Own(b, id) && Own(c, id)
    requires tick.Tick? && tick.to.mono == s.clock.mono
    ensures var t := Apply(cfg, Apply(cfg, Apply(cfg, Apply(cfg, s, tick), a), b), c);
            Unseen(s, t) && id in t.jobs && t.jobs[id] == s.jobs[id]
  {
    var s1 := Apply(cfg, s, tick);
    DoneOne(cfg, s1, id, a);
    var s2 := Apply(cfg, s1, a);
    DoneOne(cfg, s2, id, b);
    DoneOne(cfg, Apply(cfg, s2, b), id, c);
  }

  // ── The body ───────────────────────────────────────────────────────────────

  /** What the read loop leaves: the request ready to commit, or refused. */
  predicate BodyRead(cfg: Config, before: Job, after: Job, p1: PhaseOne, d: Drained) {
    match d
    case TooLarge => Mirrors(after, Refuse(Audit.Rejected(before.audit, Audit.BodyTooLarge), 413))
    case Broken => Mirrors(after, AfterReadError(before.audit))
    case Whole(bytes) =>
      if BodyMatches(p1.binding, cfg.crypto.sha256(bytes)) then after.pc == Ready(p1) && after.audit == before.audit
      else Mirrors(after, AfterCommit(before.audit, Err(BodyHashMismatch)))
  }

  lemma {:induction false} BodyRuns(cfg: Config, s: State, id: Id, p1: PhaseOne, body: Body)
    requires id in s.jobs && s.jobs[id].pc == Reading(p1)
    ensures var t := Exec(cfg, s, BodySteps(id, body));
            Unseen(s, t) && id in t.jobs && BodyRead(cfg, s.jobs[id], t.jobs[id], p1, Drain(body, s.jobs[id].read))
    decreases |body.chunks|
  {
    var job := s.jobs[id];
    if body.chunks == [] {
      var last := if body.ends then EndBody(id) else FailBody(id);
      ExecOne(cfg, s, last, []);
      assert [last] + [] == [last];
      assert Apply(cfg, s, last) == With(s, id, Local(cfg, s, job, last));
    } else {
      var rest := Body(body.chunks[1..], body.ends);
      ExecOne(cfg, s, ReadChunk(id, body.chunks[0]), BodySteps(id, rest));
      var t := Apply(cfg, s, ReadChunk(id, body.chunks[0]));
      assert t == With(s, id, Local(cfg, s, job, ReadChunk(id, body.chunks[0])));
      if |job.read| + |body.chunks[0]| > BOUND_BODY_MAX {
        DoneBody(cfg, t, id, rest);
      } else {
        BodyRuns(cfg, t, id, p1, rest);
      }
    }
  }

  /** Body steps do nothing to a request that is not reading its body. */
  lemma {:induction false} DoneBody(cfg: Config, s: State, id: Id, body: Body)
    requires id in s.jobs && !s.jobs[id].pc.Reading?
    ensures var t := Exec(cfg, s, BodySteps(id, body)); Unseen(s, t) && id in t.jobs && t.jobs[id] == s.jobs[id]
    decreases |body.chunks|
  {
    var first := BodySteps(id, body)[0];
    var t := Apply(cfg, s, first);
    assert t == With(s, id, Local(cfg, s, s.jobs[id], first)) && t.jobs[id] == s.jobs[id];
    if body.chunks == [] {
      ExecOne(cfg, s, first, []);
      assert [first] + [] == [first];
    } else {
      var rest := Body(body.chunks[1..], body.ends);
      ExecOne(cfg, s, first, BodySteps(id, rest));
      DoneBody(cfg, t, id, rest);
    }
  }

  // ── The commit ─────────────────────────────────────────────────────────────

  lemma BackRuns(cfg: Config, s: State, id: Id, p1: PhaseOne, w: World, mono: Instant)
    requires id in s.jobs && s.jobs[id].pc == Ready(p1) && s.lock.None? && mono == s.clock.mono <= w.commitMono
    ensures var t := Exec(cfg, s, Back(id, w, mono));
            var (d, r) := CommitVerdict(s.cache, p1, w.commitWall, w.commitMono);
            id in t.jobs && t.cache == d && Mirrors(t.jobs[id], AfterCommit(s.jobs[id].audit, r))
  {
    var rest :=
      [Tick(Clock(w.commitWall, mono)), ReadWall(id), Tick(Clock(w.commitWall, w.commitMono)), ReadMono(id), Send(id)];
    assert [TakeLock(id)] + rest == Back(id, w, mono);
    ExecOne(cfg, s, TakeLock(id), rest);
    var t := Apply(cfg, s, TakeLock(id));
    assert t == TakeLockStep(s, id, s.jobs[id]);
    if p1.nonce in s.cache.seen {
      DoneStays(cfg, t, id, rest);
    } else {
      LockTaken(cfg, t, id, p1, w, mono);
      assert rest == [rest[0]] + [ReadWall(id), Tick(Clock(w.commitWall, w.commitMono)), ReadMono(id), Send(id)];
    }
  }

  lemma LockTaken(cfg: Config, s: State, id: Id, p1: PhaseOne, w: World, mono: Instant)
    requires id in s.jobs && s.jobs[id].pc == Locked(p1) && mono == s.clock.mono <= w.commitMono
               && p1.nonce !in s.cache.seen
    ensures var steps := [ReadWall(id), Tick(Clock(w.commitWall, w.commitMono)), ReadMono(id), Send(id)];
            var t := Exec(cfg, s, [Tick(Clock(w.commitWall, mono))] + steps);
            var (d, r) := CommitVerdict(s.cache, p1, w.commitWall, w.commitMono);
            id in t.jobs && t.cache == d && Mirrors(t.jobs[id], AfterCommit(s.jobs[id].audit, r))
  {
    var tick := Tick(Clock(w.commitWall, mono));
    var t := Apply(cfg, s, tick);
    assert t == s.(clock := tick.to);
    ExecOne(cfg, s, tick, [ReadWall(id), Tick(Clock(w.commitWall, w.commitMono)), ReadMono(id), Send(id)]);
    LockedRuns(cfg, t, id, p1, w);
  }

  lemma LockedRuns(cfg: Config, s: State, id: Id, p1: PhaseOne, w: World)
    requires id in s.jobs && s.jobs[id].pc == Locked(p1) && s.clock.wall == w.commitWall && s.clock.mono <= w.commitMono
    requires p1.nonce !in s.cache.seen
    ensures var t := Exec(cfg, s, [ReadWall(id), Tick(Clock(w.commitWall, w.commitMono)), ReadMono(id), Send(id)]);
            var (d, r) := CommitVerdict(s.cache, p1, w.commitWall, w.commitMono);
            id in t.jobs && t.cache == d && Mirrors(t.jobs[id], AfterCommit(s.jobs[id].audit, r))
  {
    var tick := Tick(Clock(w.commitWall, w.commitMono));
    var s1 := Apply(cfg, s, ReadWall(id));
    assert s1 == ReadWallStep(s, id, s.jobs[id]);
    ExecOne(cfg, s, ReadWall(id), [tick, ReadMono(id), Send(id)]);
    assert [ReadWall(id)] + [tick, ReadMono(id), Send(id)] == [ReadWall(id), tick, ReadMono(id), Send(id)];
    if CheckCommitWindow(p1.ts, UnixNow(w.commitWall)).Err? {
      DoneStays(cfg, s1, id, [tick, ReadMono(id), Send(id)]);
    } else {
      var s2 := Apply(cfg, s1, tick);
      TimedRuns(cfg, s2, id, p1, w);
      ExecOne(cfg, s1, tick, [ReadMono(id), Send(id)]);
      assert [tick] + [ReadMono(id), Send(id)] == [tick, ReadMono(id), Send(id)];
    }
  }

  lemma TimedRuns(cfg: Config, s: State, id: Id, p1: PhaseOne, w: World)
    requires id in s.jobs && s.jobs[id].pc.Timed? && s.jobs[id].pc.p1 == p1 && s.clock.mono == w.commitMono
    ensures var t := Exec(cfg, s, [ReadMono(id), Send(id)]);
            var (d, r) := Committed(s.cache, p1.nonce, w.commitMono);
            id in t.jobs && t.cache == d && Mirrors(t.jobs[id], AfterCommit(s.jobs[id].audit, r))
  {
    var s1 := Apply(cfg, s, ReadMono(id));
    assert s1 == ReadMonoStep(s, id, s.jobs[id]);
    var s2 := Apply(cfg, s1, Send(id));
    assert s2 == With(s1, id, Local(cfg, s1, s1.jobs[id], Send(id)));
    ExecOne(cfg, s, ReadMono(id), [Send(id)]);
    ExecOne(cfg, s1, Send(id), []);
    assert [ReadMono(id)] + [Send(id)] == [ReadMono(id), Send(id)] && [Send(id)] + [] == [Send(id)];
  }

  // ── The whole request ──────────────────────────────────────────────────────

  function Script(id: Id, rq: Request, w: World, mono: Instant): seq<Step> {
    Front(id, rq, w, mono) + (BodySteps(id, w.body) + Back(id, w, mono))
  }

  lemma {:induction false} BodyStepsOwn(id: Id, body: Body)
    ensures forall i :: 0 <= i < |BodySteps(id, body)| ==> Own(BodySteps(id, body)[i], id)
    decreases |body.chunks|
  {
    if body.chunks != [] {
      BodyStepsOwn(id, Body(body.chunks[1..], body.ends));
    }
  }

  /** After the identity checks: the rest of the script does what the filter's last phase does. */
  lemma RestRuns(cfg: Config, s: State, id: Id, rq: Request, audit: Audit.AuditState, p1: PhaseOne, w: World,
                 mono: Instant)
    requires At(s, id, rq, audit, Identified(p1)) && s.lock.None? && mono == s.clock.mono <= w.commitMono
    ensures var t := Exec(cfg, s, BodySteps(id, w.body) + Back(id, w, mono));
            var (p, d) := CommitPhase(cfg, w, audit, p1, s.cache);
            id in t.jobs && t.cache == d && Mirrors(t.jobs[id], p)
  {
    ExecConcat(cfg, s, BodySteps(id, w.body), Back(id, w, mono));
    var s' := Exec(cfg, s, BodySteps(id, w.body));
    if p1.binding.Streamed? {
      DoneBody(cfg, s, id, w.body);
      BackRuns(cfg, s', id, p1, w, mono);
    } else {
      BodyRuns(cfg, s, id, p1, w.body);
      if s'.jobs[id].pc == Ready(p1) {
        BackRuns(cfg, s', id, p1, w, mono);
      } else {
        DoneStays(cfg, s', id, Back(id, w, mono));
      }
    }
  }

  lemma ScriptRuns(cfg: Config, s: State, id: Id, rq: Request, w: World, mono: Instant)
    requires id !in s.jobs && s.lock.None? && mono == s.clock.mono <= w.commitMono
    ensures var t := Exec(cfg, s, Script(id, rq, w, mono));
            var (p, d) := Filter(cfg, rq, w, s.cache);
            id in t.jobs && t.cache == d && Mirrors(t.jobs[id], p)
  {
    var rest := BodySteps(id, w.body) + Back(id, w, mono);
    ExecConcat(cfg, s, Front(id, rq, w, mono), rest);
    FrontRuns(cfg, s, id, rq, w, mono);
    FilterFromChecked(cfg, rq, w, s.cache);
    var (p, p1) := Checked(cfg, rq, w, s.cache);
    AfterFront(cfg, Exec(cfg, s, Front(id, rq, w, mono)), id, rq, p, p1, w, mono);
  }

  /** Where the identity checks left the request, the rest of the script leads to the filter's answer. */
  lemma AfterFront(cfg: Config, s: State, id: Id, rq: Request, p: Progress, p1: Option<PhaseOne>, w: World,
                   mono: Instant)
    requires s.lock.None? && mono == s.clock.mono <= w.commitMono && id in s.jobs
    requires if p1.None? then !p.Continue? && Mirrors(s.jobs[id], p)
               else p.Continue? && At(s, id, rq, p.audit, Identified(p1.value))
    ensures var t := Exec(cfg, s, BodySteps(id, w.body) + Back(id, w, mono));
            var (q, d) := if p1.None? then (p, s.cache) else CommitPhase(cfg, w, p.audit, p1.value, s.cache);
            id in t.jobs && t.cache == d && Mirrors(t.jobs[id], q)
  {
    if p1.None? {
      BodyStepsOwn(id, w.body);
      DoneStays(cfg, s, id, BodySteps(id, w.body) + Back(id, w, mono));
    } else {
      RestRuns(cfg, s, id, rq, p.audit, p1.value, w, mono);
    }
  }

  /**
   * Whatever ran before, a request that then runs alone while the lock is free gets the filter's
   * answer and audit record, and leaves the cache as the filter leaves it.
   */
  lemma RunsAsFilter(cfg: Config, start: Clock, earlier: seq<Step>, id: Id, rq: Request, w: World)
    requires var s := Run(cfg, start, earlier); id !in s.jobs && s.lock.None? && s.clock.mono <= w.commitMono
    ensures var s := Run(cfg, start, earlier);
            var t := Run(cfg, start, earlier + Script(id, rq, w, s.clock.mono));
            var (p, d) := Filter(cfg, rq, w, s.cache);
            id in t.jobs && t.cache == d && Mirrors(t.jobs[id], p)
  {
    var s := Run(cfg, start, earlier);
    RunGoesOn(cfg, start, earlier, Script(id, rq, w, s.clock.mono));
    ScriptRuns(cfg, s, id, rq, w, s.clock.mono);
  }
}
