/**
 * The replay cache inside the running proxy: in every run it is what the commits of that run, taken
 * as attempts on a cache of their own, leave behind, so the laws of `CacheHistory` hold of it.
 */
module ProxyCache {
  import opened CommitWindow
  import opened ReplayCache
  import opened RequestFilter
  import opened ProxyRun
  import opened ReplaySafety
  import H = CacheHistory

  /** The monotonic time of a reading made under the lock. */
  function MonoAt(readings: seq<Clock>, k: nat): Instant {
    if k < |readings| then readings[k].mono else 0
  }

  function AttemptOf(readings: seq<Clock>, c: Commit): H.Attempt {
    H.Attempt(c.nonce, MonoAt(readings, c.monoRead))
  }

  /** The commits of a run, as attempts on a cache. */
  function Attempts(readings: seq<Clock>, commits: seq<Commit>): seq<H.Attempt> {
    seq(|commits|, i requires 0 <= i < |commits| => AttemptOf(readings, commits[i]))
  }

  function EntryOf(a: H.Attempt): Entry {
    Entry(a.nonce, a.now)
  }

  /** The entries of a run of attempts none of which is refused. */
  function Entries(attempts: seq<H.Attempt>): seq<Entry> {
    seq(|attempts|, i requires 0 <= i < |attempts| => EntryOf(attempts[i]))
  }

  /** The attempts leave this cache behind, and none of them was refused. */
  ghost predicate LeaveBehind(attempts: seq<H.Attempt>, c: Cache) {
    && H.InTimeOrder(attempts)
    && H.Run(attempts).cache == c
    && H.Run(attempts).log == Entries(attempts)
  }

  ghost predicate InReadOrder(readings: seq<Clock>, commits: seq<Commit>) {
    && (forall i, j :: 0 <= i < j < |commits| ==> commits[i].monoRead < commits[j].monoRead)
    && (forall i :: 0 <= i < |commits| ==> commits[i].monoRead < |readings|)
  }

  ghost predicate Recorded(readings: seq<Clock>, commits: seq<Commit>, c: Cache) {
    InReadOrder(readings, commits) && LeaveBehind(Attempts(readings, commits), c)
  }

  /** The same commits read off more readings are the same attempts. */
  lemma SameAttempts(readings: seq<Clock>, more: seq<Clock>, commits: seq<Commit>)
    requires readings <= more && forall i :: 0 <= i < |commits| ==> commits[i].monoRead < |readings|
    ensures Attempts(more, commits) == Attempts(readings, commits)
  {
  }

  lemma OneMoreAttempt(attempts: seq<H.Attempt>, c: Cache, a: H.Attempt)
    requires LeaveBehind(attempts, c) && (attempts != [] ==> attempts[|attempts| - 1].now <= a.now)
               && a.nonce !in c.seen
    ensures LeaveBehind(attempts + [a], Committed(c, a.nonce, a.now).0)
  {
    var all := attempts + [a];
    assert forall i :: 0 <= i < |attempts| ==> all[i] == attempts[i];
    H.RunSplit(attempts, a);
    assert Entries(all) == Entries(attempts) + [EntryOf(a)];
  }

  lemma OneMoreCommit(readings: seq<Clock>, commits: seq<Commit>, c: Cache, clock: Clock, commit: Commit)
    requires Recorded(readings, commits, c) && commit.monoRead == |readings| && commit.nonce !in c.seen
    requires forall i :: 0 <= i < |readings| ==> readings[i].mono <= clock.mono
    ensures Recorded(readings + [clock], commits + [commit], Committed(c, commit.nonce, clock.mono).0)
  {
    var before := Attempts(readings, commits);
    var a := H.Attempt(commit.nonce, clock.mono);
    assert commits != [] ==> before[|before| - 1].now == readings[commits[|commits| - 1].monoRead].mono;
    OneMoreAttempt(before, c, a);
    SameAttempts(readings, readings + [clock], commits);
    assert AttemptOf(readings + [clock], commit) == a;
    assert Attempts(readings + [clock], commits + [commit]) == before + [a];
  }

  lemma CommitMeans(s: State, id: Id, job: Job) returns (commit: Commit)
    requires LockOk(s) && id in s.jobs && s.jobs[id] == job && job.pc.Timed?
    ensures commit.monoRead == |s.readings| && commit.nonce !in s.cache.seen
    ensures var t := ReadMonoStep(s, id, job);
            && t.readings == s.readings + [s.clock]
            && t.commits == s.commits + [commit]
            && t.cache == Committed(s.cache, commit.nonce, s.clock.mono).0
  {
    commit := Commit(id, job.pc.p1.nonce, job.pc.p1.ts, job.pc.wallRead, |s.readings|);
  }

  predicate Commits(s: State, step: Step) {
    step.ReadMono? && step.id in s.jobs && s.jobs[step.id].pc.Timed?
  }

  lemma CommitRecorded(cfg: Config, s: State, step: Step)
    requires LockOk(s) && ClocksOk(s) && Commits(s, step) && Recorded(s.readings, s.commits, s.cache)
    ensures var t := Apply(cfg, s, step); Recorded(t.readings, t.commits, t.cache)
  {
    var commit := CommitMeans(s, step.id, s.jobs[step.id]);
    OneMoreCommit(s.readings, s.commits, s.cache, s.clock, commit);
  }

  lemma OtherStep(cfg: Config, s: State, step: Step)
    requires !Commits(s, step)
    ensures var t := Apply(cfg, s, step); t.cache == s.cache && t.commits == s.commits && s.readings <= t.readings
  {
  }

  lemma StepRecorded(cfg: Config, s: State, step: Step, t: State)
    requires Inv(s) && t == Apply(cfg, s, step) && Recorded(s.readings, s.commits, s.cache)
    ensures Recorded(t.readings, t.commits, t.cache)
  {
    if Commits(s, step) {
      CommitRecorded(cfg, s, step);
    } else {
      OtherStep(cfg, s, step);
      SameAttempts(s.readings, t.readings, s.commits);
    }
  }

  /** In every run the cache is the one that its commits alone leave behind. */
  lemma {:induction false} RunRecorded(cfg: Config, start: Clock, steps: seq<Step>)
    ensures var s := Run(cfg, start, steps); Recorded(s.readings, s.commits, s.cache)
  {
    if steps == [] {
      assert Attempts([], []) == [] && Entries([]) == [];
    } else {
      var init := steps[..|steps| - 1];
      RunRecorded(cfg, start, init);
      RunKeeps(cfg, start, init);
      StepRecorded(cfg, Run(cfg, start, init), steps[|steps| - 1], Run(cfg, start, steps));
    }
  }

  // ── What follows for the running cache ─────────────────────────────────────

  /** The commits at or before the `j`-th that were made less than one lifetime before it. */
  ghost function InLifetime(s: State, j: nat): set<nat>
    requires j < |s.commits|
  {
    set i: nat | i <= j
      && MonoAt(s.readings, s.commits[j].monoRead) - MonoAt(s.readings, s.commits[i].monoRead) < NONCE_TTL
  }

  ghost predicate WithinLifetime(s: State) {
    s.cache.expiry == [] || exists j: nat :: j < |s.commits| && |s.cache.expiry| <= |InLifetime(s, j)|
  }

  lemma RecordedSize(s: State)
    requires Recorded(s.readings, s.commits, s.cache)
    ensures WithinLifetime(s)
  {
    var attempts := Attempts(s.readings, s.commits);
    H.PeakSize(attempts);
    if s.cache.expiry != [] {
      var log := Entries(attempts);
      var j: nat :| j < |log| && |s.cache.expiry| <= |H.InWindow(log, j)|;
      assert InLifetime(s, j) == H.InWindow(log, j);
    }
  }

  /** At no point of any run is the cache larger than the number of commits inside some one lifetime. */
  lemma PeakSize(cfg: Config, start: Clock, steps: seq<Step>)
    ensures WithinLifetime(Run(cfg, start, steps))
  {
    RunRecorded(cfg, start, steps);
    RecordedSize(Run(cfg, start, steps));
  }

  /** Commits of one nonce are at least a lifetime apart, and one made less than a lifetime ago is present. */
  ghost predicate DecidesAsIdeal(s: State) {
    && (forall i, j :: 0 <= i < j < |s.commits| && s.commits[i].nonce == s.commits[j].nonce ==>
          MonoAt(s.readings, s.commits[j].monoRead) - MonoAt(s.readings, s.commits[i].monoRead) >= NONCE_TTL)
    && (forall i :: 0 <= i < |s.commits| && s.clock.mono - MonoAt(s.readings, s.commits[i].monoRead) < NONCE_TTL ==>
          s.commits[i].nonce in s.cache.seen)
  }

  lemma LifetimeApart(s: State, i: nat, j: nat)
    requires Inv(s) && i < j < |s.commits| && s.commits[i].nonce == s.commits[j].nonce
    ensures MonoAt(s.readings, s.commits[j].monoRead) - MonoAt(s.readings, s.commits[i].monoRead) >= NONCE_TTL
  {
    assert CommitOk(s, s.commits[i]) && CommitOk(s, s.commits[j]);
    var m := s.commits[i].monoRead;
    assert AgedOut(s.readings, m, s.commits[j].wallRead);
    var e: nat :| m < e < s.commits[j].wallRead && e < |s.readings|
      && s.readings[e].mono - s.readings[m].mono >= NONCE_TTL;
    assert s.readings[e].mono <= s.readings[s.commits[j].monoRead].mono;
  }

  lemma AbsentIsOld(s: State, i: nat)
    requires Inv(s) && i < |s.commits| && s.commits[i].nonce !in s.cache.seen
    ensures s.clock.mono - MonoAt(s.readings, s.commits[i].monoRead) >= NONCE_TTL
  {
    AbsentAgedOut(s, i);
    var m := s.commits[i].monoRead;
    assert CommitOk(s, s.commits[i]);
    var e: nat :| m < e < |s.readings| && s.readings[e].mono - s.readings[m].mono >= NONCE_TTL;
    assert s.readings[e].mono <= s.clock.mono;
  }

  lemma InvDecides(s: State)
    requires Inv(s)
    ensures DecidesAsIdeal(s)
  {
    forall i, j | 0 <= i < j < |s.commits| && s.commits[i].nonce == s.commits[j].nonce
      ensures MonoAt(s.readings, s.commits[j].monoRead) - MonoAt(s.readings, s.commits[i].monoRead) >= NONCE_TTL
    {
      LifetimeApart(s, i, j);
    }
    forall i | 0 <= i < |s.commits| && s.commits[i].nonce !in s.cache.seen
      ensures s.clock.mono - MonoAt(s.readings, s.commits[i].monoRead) >= NONCE_TTL
    {
      AbsentIsOld(s, i);
    }
  }

  /**
   * In every run the proxy commits only what a cache would that forgets an entry exactly when it turns
   * one lifetime old, and it still knows every nonce that such a cache knows.
   */
  lemma RefinesIdeal(cfg: Config, start: Clock, steps: seq<Step>)
    ensures DecidesAsIdeal(Run(cfg, start, steps))
  {
    RunKeeps(cfg, start, steps);
    InvDecides(Run(cfg, start, steps));
  }

  /** Whatever the cache holds was put there by a commit. */
  lemma SeenIsCommitted(s: State, nonce: Nonce) returns (k: nat)
    requires Recorded(s.readings, s.commits, s.cache) && nonce in s.cache.seen
    ensures k < |s.commits| && s.commits[k].nonce == nonce
  {
    var attempts := Attempts(s.readings, s.commits);
    H.RunFaithful(attempts);
    k := LoggedAt(H.Run(attempts), H.LastTime(attempts), nonce);
    assert Entries(attempts)[k] == EntryOf(attempts[k]);
  }

  lemma LoggedAt(h: H.History, now: Instant, nonce: Nonce) returns (k: nat)
    requires H.Faithful(h, now) && nonce in h.cache.seen
    ensures k < |h.log| && h.log[k].nonce == nonce
  {
    var e :| e in h.cache.expiry && e.nonce == nonce;
    var i :| 0 <= i < |h.cache.expiry| && h.cache.expiry[i] == e;
    k := h.evictions + i;
  }
}
