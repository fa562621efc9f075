/**
 * No token is accepted twice.  In every run, two commits of one nonce are separated by a monotonic
 * clock reading at least one lifetime after the first; from that, and a bound on how much the wall
 * clock may lose, follows that no token passes its commit window twice.
 */
module ReplaySafety {
  import opened Wrappers
  import opened CommitWindow
  import opened ReplayCache
  import opened AttestToken
  import opened RequestFilter
  import opened ProxyRun
  import opened ProxyInvariant
  import Audit

  // ── The invariant ──────────────────────────────────────────────────────────

  /** Some reading after position `m` and before `upTo` was a whole lifetime later than reading `m`. */
  ghost predicate AgedOut(readings: seq<Clock>, m: nat, upTo: nat) {
    exists e: nat :: m < e < upTo && e < |readings| && readings[e].mono - readings[m].mono >= NONCE_TTL
  }

  ghost predicate ClocksOk(s: State) {
    && Valid(s.cache, s.clock.mono)
    && (forall i, j :: 0 <= i < j < |s.readings| ==> s.readings[i].mono <= s.readings[j].mono)
    && (forall i :: 0 <= i < |s.readings| ==> s.readings[i].mono <= s.clock.mono)
  }

  ghost predicate InWindow(s: State, ts: i64, reading: nat) {
    reading < |s.readings| && CheckCommitWindow(ts, UnixNow(s.readings[reading].wall)).Ok?
  }

  /** The lock is held by exactly the request inside the critical section, whose nonce is absent. */
  ghost predicate LockOk(s: State) {
    && (forall id :: id in s.jobs && s.jobs[id].pc.HoldsLock() ==>
          s.lock == Some(id) && s.jobs[id].pc.p1.nonce !in s.cache.seen)
    && (s.lock.Some? ==> s.lock.value in s.jobs && s.jobs[s.lock.value].pc.HoldsLock())
  }

  ghost predicate TimedOk(s: State) {
    forall id :: id in s.jobs && s.jobs[id].pc.Timed? ==>
      var (p1, w) := (s.jobs[id].pc.p1, s.jobs[id].pc.wallRead);
      && InWindow(s, p1.ts, w)
      && forall k :: 0 <= k < |s.commits| && s.commits[k].nonce == p1.nonce ==>
        AgedOut(s.readings, s.commits[k].monoRead, w)
  }

  ghost predicate CommitOk(s: State, c: Commit) {
    && InWindow(s, c.ts, c.wallRead)
    && c.wallRead < c.monoRead < |s.readings|
    && (Entry(c.nonce, s.readings[c.monoRead].mono) in s.cache.expiry || AgedOut(s.readings, c.monoRead, |s.readings|))
  }

  ghost predicate CommitsOk(s: State) {
    forall k :: 0 <= k < |s.commits| ==> CommitOk(s, s.commits[k])
  }

  ghost predicate Separated(s: State) {
    forall i, j :: 0 <= i < j < |s.commits| && s.commits[i].nonce == s.commits[j].nonce ==>
      AgedOut(s.readings, s.commits[i].monoRead, s.commits[j].wallRead)
  }

  /** Commits and the requests past their commit match one to one. */
  ghost predicate LedgerOk(s: State) {
    && (forall k :: 0 <= k < |s.commits| ==>
          && s.commits[k].id in s.jobs
          && var pc := s.jobs[s.commits[k].id].pc;
             pc.HasCommitted() && pc.commit == k && pc.p1.nonce == s.commits[k].nonce && pc.p1.ts == s.commits[k].ts)
    && (forall id :: id in s.jobs && s.jobs[id].pc.HasCommitted() ==>
          s.jobs[id].pc.commit < |s.commits| && s.commits[s.jobs[id].pc.commit].id == id)
  }

  ghost predicate Inv(s: State) {
    ClocksOk(s) && LockOk(s) && TimedOk(s) && CommitsOk(s) && Separated(s) && LedgerOk(s)
  }

  // ── Steps that leave the cache, the readings and the commits alone ──────────

  /** A request changes without entering or leaving the critical section, or passing its commit. */
  lemma JobChange(s: State, id: Id, job: Job)
    requires Inv(s) && !job.pc.HoldsLock()
    requires id in s.jobs ==> SameStanding(s.jobs[id], job)
    requires id !in s.jobs ==> !job.pc.HasCommitted()
    ensures Inv(With(s, id, job))
  {
    var t := With(s, id, job);
    assert forall k :: 0 <= k < |s.commits| ==> CommitOk(s, s.commits[k]) ==> CommitOk(t, t.commits[k]);
  }

  lemma TickKeeps(s: State, to: Clock)
    requires Inv(s) && to.mono >= s.clock.mono
    ensures Inv(s.(clock := to))
  {
    var t := s.(clock := to);
    assert forall k :: 0 <= k < |s.commits| ==> CommitOk(s, s.commits[k]) ==> CommitOk(t, t.commits[k]);
  }

  /** A request refused outside or at the end of its critical section. */
  lemma RefusalKeeps(s: State, id: Id, job: Job, e: AttestError)
    requires Inv(s) && id in s.jobs && s.jobs[id] == job && (job.pc.Ready? || job.pc.HoldsLock())
    requires job.pc.HoldsLock() || s.lock.None?
    ensures Inv(RefuseCommit(s, id, job, e))
  {
    var t := RefuseCommit(s, id, job, e);
    assert !t.jobs[id].pc.HoldsLock() && !t.jobs[id].pc.HasCommitted();
    assert forall k :: 0 <= k < |s.commits| ==> CommitOk(s, s.commits[k]) ==> CommitOk(t, t.commits[k]);
  }

  lemma TakeLockKeeps(s: State, id: Id, job: Job)
    requires Inv(s) && id in s.jobs && s.jobs[id] == job && job.pc.Ready? && s.lock.None?
    ensures Inv(TakeLockStep(s, id, job))
  {
    if job.pc.p1.nonce in s.cache.seen {
      RefusalKeeps(s, id, job, NonceReplay);
    } else {
      var t := TakeLockStep(s, id, job);
      assert forall k :: 0 <= k < |s.commits| ==> CommitOk(s, s.commits[k]) ==> CommitOk(t, t.commits[k]);
    }
  }

  // ── Reading the clocks under the lock ──────────────────────────────────────

  lemma AgedOutLater(readings: seq<Clock>, more: Clock, m: nat, upTo: nat)
    requires m < |readings| && upTo <= |readings| && AgedOut(readings, m, upTo)
    ensures AgedOut(readings + [more], m, upTo) && AgedOut(readings + [more], m, |readings| + 1)
  {
    var e: nat :| m < e < upTo && e < |readings| && readings[e].mono - readings[m].mono >= NONCE_TTL;
    assert (readings + [more])[e] == readings[e];
  }

  /** One more reading under the lock disturbs nothing recorded before it. */
  lemma ReadingKeeps(s: State)
    requires Inv(s)
    ensures Inv(s.(readings := s.readings + [s.clock]))
  {
    var t := s.(readings := s.readings + [s.clock]);
    forall k | 0 <= k < |s.commits|
      ensures CommitOk(t, s.commits[k])
    {
      assert CommitOk(s, s.commits[k]);
      if AgedOut(s.readings, s.commits[k].monoRead, |s.readings|) {
        AgedOutLater(s.readings, s.clock, s.commits[k].monoRead, |s.readings|);
      }
    }
    forall i, j | 0 <= i < j < |s.commits| && s.commits[i].nonce == s.commits[j].nonce
      ensures AgedOut(t.readings, s.commits[i].monoRead, s.commits[j].wallRead)
    {
      assert CommitOk(s, s.commits[i]) && CommitOk(s, s.commits[j]);
      AgedOutLater(s.readings, s.clock, s.commits[i].monoRead, s.commits[j].wallRead);
    }
    assert TimedOk(t) by {
      TimedReading(s, t);
    }
  }

  lemma TimedReading(s: State, t: State)
    requires Inv(s) && t == s.(readings := s.readings + [s.clock])
    ensures TimedOk(t)
  {
    forall id | id in s.jobs && s.jobs[id].pc.Timed?
      ensures InWindow(t, s.jobs[id].pc.p1.ts, s.jobs[id].pc.wallRead)
      ensures forall k :: 0 <= k < |s.commits| && s.commits[k].nonce == s.jobs[id].pc.p1.nonce ==>
                AgedOut(t.readings, s.commits[k].monoRead, s.jobs[id].pc.wallRead)
    {
      forall k | 0 <= k < |s.commits| && s.commits[k].nonce == s.jobs[id].pc.p1.nonce
        ensures AgedOut(t.readings, s.commits[k].monoRead, s.jobs[id].pc.wallRead)
      {
        assert CommitOk(s, s.commits[k]);
        AgedOutLater(s.readings, s.clock, s.commits[k].monoRead, s.jobs[id].pc.wallRead);
      }
    }
  }

  /** A commit whose nonce is absent from the cache has aged out. */
  lemma AbsentAgedOut(s: State, k: nat)
    requires Inv(s) && k < |s.commits| && s.commits[k].nonce !in s.cache.seen
    ensures AgedOut(s.readings, s.commits[k].monoRead, |s.readings|)
  {
    assert CommitOk(s, s.commits[k]);
  }

  /** The request inside the critical section passes its window at reading `w`. */
  lemma WindowKeeps(t: State, id: Id, job: Job, w: nat)
    requires Inv(t) && id in t.jobs && t.jobs[id] == job && job.pc.Locked?
    requires InWindow(t, job.pc.p1.ts, w)
    requires forall k :: 0 <= k < |t.commits| && t.commits[k].nonce == job.pc.p1.nonce ==>
               AgedOut(t.readings, t.commits[k].monoRead, w)
    ensures Inv(With(t, id, job.(pc := Timed(job.pc.p1, w))))
  {
    var u := With(t, id, job.(pc := Timed(job.pc.p1, w)));
    assert forall k :: 0 <= k < |t.commits| ==> CommitOk(t, t.commits[k]) ==> CommitOk(u, u.commits[k]);
  }

  lemma ReadWallKeeps(s: State, id: Id, job: Job)
    requires Inv(s) && id in s.jobs && s.jobs[id] == job && job.pc.Locked?
    ensures Inv(ReadWallStep(s, id, job))
  {
    var t := s.(readings := s.readings + [s.clock]);
    ReadingKeeps(s);
    var window := CheckCommitWindow(job.pc.p1.ts, UnixNow(s.clock.wall));
    if window.Err? {
      RefusalKeeps(t, id, job, window.error);
    } else {
      forall k | 0 <= k < |s.commits| && s.commits[k].nonce == job.pc.p1.nonce
        ensures AgedOut(t.readings, s.commits[k].monoRead, |s.readings|)
      {
        AbsentAgedOut(s, k);
        assert CommitOk(s, s.commits[k]);
        AgedOutLater(s.readings, s.clock, s.commits[k].monoRead, |s.readings|);
      }
      WindowKeeps(t, id, job, |s.readings|);
    }
  }

  /** Eviction at the newest reading drops only entries that have then aged out. */
  lemma CommitKeepsEntries(t: State, nonce: Nonce, c: Commit)
    requires t.readings != [] && t.readings[|t.readings| - 1] == t.clock
    requires c.monoRead < |t.readings| - 1 && CommitOk(t, c) && nonce !in t.cache.seen
    ensures CommitOk(t.(cache := Committed(t.cache, nonce, t.clock.mono).0), c)
  {
    var e := Entry(c.nonce, t.readings[c.monoRead].mono);
    var q := t.cache.expiry;
    if e in q {
      var n := EvictCount(q, t.clock.mono, MAX_EVICTIONS_PER_COMMIT);
      assert q == q[..n] + q[n..];
      if e in q[..n] {
        assert Expired(e, t.clock.mono);
        assert AgedOut(t.readings, c.monoRead, |t.readings|);
      }
    }
  }

  lemma ReadMonoCommits(s: State, id: Id, job: Job)
    requires Inv(s) && id in s.jobs && s.jobs[id] == job && job.pc.Timed?
    ensures CommitsOk(ReadMonoStep(s, id, job))
  {
    var t := s.(readings := s.readings + [s.clock]);
    var u := ReadMonoStep(s, id, job);
    ReadingKeeps(s);
    var p1 := job.pc.p1;
    forall k | 0 <= k < |s.commits|
      ensures CommitOk(u, s.commits[k])
    {
      assert CommitOk(s, s.commits[k]);
      CommitKeepsEntries(t, p1.nonce, s.commits[k]);
    }
    assert InWindow(s, p1.ts, job.pc.wallRead);
    assert u.cache.expiry[|u.cache.expiry| - 1] == Entry(p1.nonce, s.clock.mono);
    assert CommitOk(u, u.commits[|s.commits|]);
  }

  lemma ReadMonoSeparated(s: State, id: Id, job: Job)
    requires Inv(s) && id in s.jobs && s.jobs[id] == job && job.pc.Timed?
    ensures Separated(ReadMonoStep(s, id, job))
  {
    var u := ReadMonoStep(s, id, job);
    ReadingKeeps(s);
    forall k | 0 <= k < |s.commits| && s.commits[k].nonce == job.pc.p1.nonce
      ensures AgedOut(u.readings, s.commits[k].monoRead, job.pc.wallRead)
    {
      assert CommitOk(s, s.commits[k]) && InWindow(s, job.pc.p1.ts, job.pc.wallRead);
      AgedOutLater(s.readings, s.clock, s.commits[k].monoRead, job.pc.wallRead);
    }
  }

  lemma ReadMonoKeeps(s: State, id: Id, job: Job)
    requires Inv(s) && id in s.jobs && s.jobs[id] == job && job.pc.Timed?
    ensures Inv(ReadMonoStep(s, id, job))
  {
    ReadMonoCommits(s, id, job);
    ReadMonoSeparated(s, id, job);
    CommitKeepsValid(s.cache, job.pc.p1.nonce, s.clock.mono);
    assert job.pc.p1.nonce !in s.cache.seen;
    var u := ReadMonoStep(s, id, job);
    assert LedgerOk(u) && LockOk(u) && TimedOk(u);
  }

  // ── Every run ──────────────────────────────────────────────────────────────

  lemma StepKeeps(cfg: Config, s: State, step: Step)
    requires Inv(s)
    ensures Inv(Apply(cfg, s, step))
  {
    match step
    case Tick(to) =>
      if to.mono >= s.clock.mono {
        TickKeeps(s, to);
      }
    case Arrive(id, rq) =>
      if id !in s.jobs {
        JobChange(s, id, NewJob(cfg, rq));
      }
    case TakeLock(id) => TakeLockApplied(cfg, s, id);
    case ReadWall(id) => ReadWallApplied(cfg, s, id);
    case ReadMono(id) => ReadMonoApplied(cfg, s, id);
    case _ => LocalKeeps(cfg, s, step);
  }

  lemma TakeLockApplied(cfg: Config, s: State, id: Id)
    requires Inv(s)
    ensures Inv(Apply(cfg, s, TakeLock(id)))
  {
    if id in s.jobs && s.jobs[id].pc.Ready? && s.lock.None? {
      TakeLockKeeps(s, id, s.jobs[id]);
    }
  }

  lemma ReadWallApplied(cfg: Config, s: State, id: Id)
    requires Inv(s)
    ensures Inv(Apply(cfg, s, ReadWall(id)))
  {
    if id in s.jobs && s.jobs[id].pc.Locked? {
      ReadWallKeeps(s, id, s.jobs[id]);
    }
  }

  lemma ReadMonoApplied(cfg: Config, s: State, id: Id)
    requires Inv(s)
    ensures Inv(Apply(cfg, s, ReadMono(id)))
  {
    if id in s.jobs && s.jobs[id].pc.Timed? {
      ReadMonoKeeps(s, id, s.jobs[id]);
    }
  }

  lemma LocalKeeps(cfg: Config, s: State, step: Step)
    requires Inv(s) && LocalStep(step)
    ensures Inv(Apply(cfg, s, step))
  {
    if step.id in s.jobs {
      var job := s.jobs[step.id];
      var job' := Local(cfg, s, job, step);
      LocalStanding(cfg, s, job, step);
      if job' == job {
        assert With(s, step.id, job') == s;
      } else {
        JobChange(s, step.id, job');
      }
    }
  }

  lemma {:induction false} RunKeeps(cfg: Config, start: Clock, steps: seq<Step>)
    ensures Inv(Run(cfg, start, steps))
  {
    if steps != [] {
      RunKeeps(cfg, start, steps[..|steps| - 1]);
      StepKeeps(cfg, Run(cfg, start, steps[..|steps| - 1]), steps[|steps| - 1]);
    }
  }

  // ── Main results ───────────────────────────────────────────────────────────

  /**
   * Between any two readings made under the lock the wall clock lost at most `loss` nanoseconds
   * against the monotonic clock, and no reading lay more than `early` before the Unix epoch.
   */
  ghost predicate ClocksWithin(readings: seq<Clock>, loss: nat, early: nat) {
    && (forall i, j :: 0 <= i <= j < |readings| ==>
          readings[j].wall - readings[i].wall >= readings[j].mono - readings[i].mono - loss)
    && (forall i :: 0 <= i < |readings| ==> readings[i].wall + early >= 0)
  }

  ghost predicate NoTokenTwice(commits: seq<Commit>) {
    forall i, j :: 0 <= i < j < |commits| ==> !(commits[i].nonce == commits[j].nonce && commits[i].ts == commits[j].ts)
  }

  /** Two commits of one token cost the wall clock more than the slack the lifetime leaves it. */
  lemma ReplayNeedsLoss(s: State, i: nat, j: nat, loss: nat, early: nat)
    requires Inv(s) && ClocksWithin(s.readings, loss, early) && i < j < |s.commits|
    requires s.commits[i].nonce == s.commits[j].nonce && s.commits[i].ts == s.commits[j].ts
    ensures loss + early > CLOCK_SLACK
  {
    var (a, b, r) := (s.commits[i], s.commits[j], s.readings);
    assert CommitOk(s, a) && CommitOk(s, b);
    var e: nat :| a.monoRead < e < b.wallRead && e < |r| && r[e].mono - r[a.monoRead].mono >= NONCE_TTL;
    AcceptanceSpan(a.ts, r[a.wallRead].wall, r[b.wallRead].wall, early);
    assert r[a.wallRead].mono <= r[a.monoRead].mono && r[e].mono <= r[b.wallRead].mono;
  }

  /** In every run whose clocks stay within the slack, no token is recorded twice. */
  lemma NoReplay(cfg: Config, start: Clock, steps: seq<Step>, loss: nat, early: nat)
    requires ClocksWithin(Run(cfg, start, steps).readings, loss, early) && loss + early <= CLOCK_SLACK
    ensures NoTokenTwice(Run(cfg, start, steps).commits)
  {
    var s := Run(cfg, start, steps);
    RunKeeps(cfg, start, steps);
    forall i, j | 0 <= i < j < |s.commits|
      ensures !(s.commits[i].nonce == s.commits[j].nonce && s.commits[i].ts == s.commits[j].ts)
    {
      if s.commits[i].nonce == s.commits[j].nonce && s.commits[i].ts == s.commits[j].ts {
        ReplayNeedsLoss(s, i, j, loss, early);
      }
    }
  }

  /**
   * One to one, whatever interleaves: every recorded nonce belongs to one request, which has been
   * sent on or is about to be and passed every check on its way; no other request is sent on
   * attested, and a refused, dropped or bypassed request has recorded nothing.
   */
  lemma LedgerMatchesForwards(cfg: Config, start: Clock, steps: seq<Step>)
    ensures var s := Run(cfg, start, steps);
            && (forall k :: 0 <= k < |s.commits| ==>
                  && s.commits[k].id in s.jobs
                  && var job := s.jobs[s.commits[k].id];
                     job.pc.HasCommitted() && job.pc.commit == k && job.pc.p1.nonce == s.commits[k].nonce
                       && Attested(cfg, job, job.pc.p1))
            && (forall id :: id in s.jobs && s.jobs[id].audit.action == Some(Audit.Forward) ==>
                  s.jobs[id].pc.Through? && s.jobs[id].pc.commit < |s.commits|
                    && s.commits[s.jobs[id].pc.commit].id == id)
            && (forall k, id :: 0 <= k < |s.commits| && id in s.jobs && !s.jobs[id].pc.HasCommitted() ==>
                s.commits[k].id != id)
  {
    RunKeeps(cfg, start, steps);
    RunJobs(cfg, start, steps);
  }

  /** Every record any request leaves in any run is consistent, whatever error ends the exchange, and whenever. */
  lemma EveryRecordConsistent(cfg: Config, start: Clock, steps: seq<Step>, id: Id, error: Option<Audit.ProxyError>,
                              subject: string -> Option<string>)
    requires id in Run(cfg, start, steps).jobs
    ensures Audit.Consistent(Audit.RecordOf(Run(cfg, start, steps).jobs[id].audit, error, subject))
  {
    RunJobs(cfg, start, steps);
    var job := Run(cfg, start, steps).jobs[id];
    assert JobOk(cfg, job);
    Audit.StartCoherent(cfg.machine.Some?, "", None, None, None);
    Audit.RecordConsistent(job.audit, error, subject);
  }
}
