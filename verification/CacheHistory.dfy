/**
 * What the replay cache does over whole runs of commits: nothing is forgotten early, the queue is
 * the tail of everything ever committed, and its size stays below one lifetime's worth of commits.
 */
module CacheHistory {
  import opened CommitWindow
  import opened ReplayCache

  datatype Attempt = Attempt(nonce: Nonce, now: Instant)

  /** A cache, every entry it ever accepted (oldest first), and how many entries it has popped. */
  datatype History = History(cache: Cache, log: seq<Entry>, evictions: nat)

  function Step(h: History, a: Attempt): History {
    var popped := EvictCount(h.cache.expiry, a.now, MAX_EVICTIONS_PER_COMMIT);
    var (cache, r) := Committed(h.cache, a.nonce, a.now);
    History(cache, if r.Ok? then h.log + [Entry(a.nonce, a.now)] else h.log, h.evictions + popped)
  }

  function Run(attempts: seq<Attempt>): History {
    if attempts == [] then History(EMPTY_CACHE, [], 0)
    else Step(Run(attempts[..|attempts| - 1]), attempts[|attempts| - 1])
  }

  ghost predicate InTimeOrder(attempts: seq<Attempt>) {
    forall i, j :: 0 <= i < j < |attempts| ==> attempts[i].now <= attempts[j].now
  }

  function LastTime(attempts: seq<Attempt>): Instant {
    if attempts == [] then 0 else attempts[|attempts| - 1].now
  }

  /** The cache that forgets an entry exactly when it turns `NONCE_TTL` old. */
  ghost predicate IdealAccepts(log: seq<Entry>, nonce: Nonce, now: Instant) {
    forall e :: e in log && e.nonce == nonce ==> Expired(e, now)
  }

  /** What links a history to its log: only the oldest entries are gone, and only expired ones. */
  ghost predicate Faithful(h: History, now: Instant) {
    && Valid(h.cache, now)
    && Ordered(h.log)
    && (h.log != [] ==> h.log[|h.log| - 1].committed <= now)
    && h.evictions <= |h.log|
    && h.cache.expiry == h.log[h.evictions..]
    && forall i :: 0 <= i < h.evictions ==> Expired(h.log[i], now)
  }

  lemma ValidLater(c: Cache, now: Instant, later: Instant)
    requires Valid(c, now) && now <= later
    ensures Valid(c, later)
  {
  }

  /** One attempt pops expired entries off the front and appends at most one entry, to queue and log alike. */
  ghost predicate Shape(h: History, h': History, e: Entry) {
    && h.evictions <= h'.evictions <= |h.log|
    && (forall i :: h.evictions <= i < h'.evictions ==> Expired(h.log[i], e.committed))
    && (h'.log == h.log || h'.log == h.log + [e])
    && h'.cache.expiry == h'.log[h'.evictions..]
  }

  lemma StepShape(h: History, a: Attempt)
    requires h.evictions <= |h.log| && h.cache.expiry == h.log[h.evictions..]
    ensures Shape(h, Step(h, a), Entry(a.nonce, a.now))
  {
    var q := h.cache.expiry;
    var popped := EvictCount(q, a.now, MAX_EVICTIONS_PER_COMMIT);
    var k := h.evictions + popped;
    assert q[popped..] == h.log[k..];
    assert (h.log + [Entry(a.nonce, a.now)])[k..] == h.log[k..] + [Entry(a.nonce, a.now)];
    forall i | h.evictions <= i < k
      ensures Expired(h.log[i], a.now)
    {
      assert h.log[i] == q[i - h.evictions];
    }
  }

  lemma OrderedAppend(q: seq<Entry>, e: Entry)
    requires Ordered(q) && (q != [] ==> q[|q| - 1].committed <= e.committed)
    ensures Ordered(q + [e])
  {
  }

  lemma ShapeFaithful(h: History, now: Instant, h': History, e: Entry)
    requires Faithful(h, now) && now <= e.committed
    requires Shape(h, h', e) && Valid(h'.cache, e.committed)
    ensures Faithful(h', e.committed)
  {
    OrderedAppend(h.log, e);
  }

  lemma StepFaithful(h: History, now: Instant, a: Attempt)
    requires Faithful(h, now) && now <= a.now
    ensures Faithful(Step(h, a), a.now)
  {
    StepShape(h, a);
    ValidLater(h.cache, now, a.now);
    CommitKeepsValid(h.cache, a.nonce, a.now);
    ShapeFaithful(h, now, Step(h, a), Entry(a.nonce, a.now));
  }

  /**
   * Conservation: at any point of any run the queue is the log without its first `evictions`
   * entries, so pops never outnumber insertions, and every entry popped had aged out.
   */
  lemma {:induction false} RunFaithful(attempts: seq<Attempt>)
    requires InTimeOrder(attempts)
    ensures Faithful(Run(attempts), LastTime(attempts))
  {
    if attempts != [] {
      var init := attempts[..|attempts| - 1];
      RunFaithful(init);
      StepFaithful(Run(init), LastTime(init), attempts[|attempts| - 1]);
    }
  }

  lemma RunSplit(attempts: seq<Attempt>, a: Attempt)
    requires InTimeOrder(attempts + [a])
    ensures InTimeOrder(attempts) && LastTime(attempts) <= a.now
    ensures Run(attempts + [a]) == Step(Run(attempts), a)
  {
    var all := attempts + [a];
    assert all[..|all| - 1] == attempts && all[|all| - 1] == a;
    assert forall i :: 0 <= i < |attempts| ==> attempts[i] == all[i];
    assert attempts != [] ==> all[|attempts| - 1].now <= a.now;
  }

  /** An entry still queued after a step was in the log before it, or is the one just committed. */
  lemma QueuedIsLogged(h: History, e: Entry)
    requires h.evictions <= |h.log| && h.cache.expiry == h.log[h.evictions..]
    requires e in h.log && e !in h.log[..h.evictions]
    ensures e in h.cache.expiry
  {
    assert h.log == h.log[..h.evictions] + h.log[h.evictions..];
  }

  /** In a faithful history an entry younger than the lifetime is still queued, and its nonce present. */
  lemma NothingForgottenEarly(h: History, now: Instant, e: Entry)
    requires Faithful(h, now) && e in h.log && !Expired(e, now)
    ensures e in h.cache.expiry && e.nonce in h.cache.seen
  {
    QueuedIsLogged(h, e);
  }

  /**
   * Refinement: the cache accepts only what the ideal cache accepts; a refused attempt leaves the
   * log, and with it every stamp, as it was; and an entry younger than the lifetime is present.
   */
  lemma RefinesIdeal(attempts: seq<Attempt>, a: Attempt)
    requires InTimeOrder(attempts + [a])
    ensures var (h, h') := (Run(attempts), Run(attempts + [a]));
            if IdealAccepts(h.log, a.nonce, a.now) then h'.log == h.log || h'.log == h.log + [Entry(a.nonce, a.now)]
            else h'.log == h.log
    ensures var (h, h') := (Run(attempts), Run(attempts + [a]));
            forall e :: e in h'.cache.expiry ==> e in h.cache.expiry || h'.log == h.log + [e]
    ensures forall e :: e in Run(attempts).log && !Expired(e, a.now) ==> e.nonce in Run(attempts + [a]).cache.seen
  {
    RunSplit(attempts, a);
    RunFaithful(attempts);
    var h := Run(attempts);
    StepShape(h, a);
    StepFaithful(h, LastTime(attempts), a);
    forall e | e in h.log && !Expired(e, a.now)
      ensures e.nonce in Step(h, a).cache.seen && e.nonce in Evicted(h.cache, a.now).seen
    {
      NothingForgottenEarly(Step(h, a), a.now, e);
      EvictedKeepsYoung(h, LastTime(attempts), a.now, e);
    }
  }

  lemma EvictedKeepsYoung(h: History, now: Instant, later: Instant, e: Entry)
    requires Faithful(h, now) && now <= later && e in h.log && !Expired(e, later)
    ensures e.nonce in Evicted(h.cache, later).seen
  {
    NothingForgottenEarly(h, now, e);
    ValidLater(h.cache, now, later);
    EvictKeepsValid(h.cache, later);
    YoungSurvives(h.cache.expiry, later, e);
  }

  lemma YoungSurvives(q: seq<Entry>, now: Instant, e: Entry)
    requires e in q && !Expired(e, now)
    ensures e in q[EvictCount(q, now, MAX_EVICTIONS_PER_COMMIT)..]
  {
    var popped := EvictCount(q, now, MAX_EVICTIONS_PER_COMMIT);
    assert q == q[..popped] + q[popped..];
  }

  /**
   * Where the batch limit does not bite, the two caches decide alike: the attempt is refused
   * exactly when its nonce was committed less than one lifetime ago.
   */
  lemma DecidesAsIdeal(attempts: seq<Attempt>, a: Attempt)
    requires InTimeOrder(attempts + [a])
    requires EvictCount(Run(attempts).cache.expiry, a.now, MAX_EVICTIONS_PER_COMMIT) < MAX_EVICTIONS_PER_COMMIT
    ensures Committed(Run(attempts).cache, a.nonce, a.now).1.Ok? <==> IdealAccepts(Run(attempts).log, a.nonce, a.now)
  {
    RunSplit(attempts, a);
    RunFaithful(attempts);
    var h := Run(attempts);
    forall e | e in h.log && !Expired(e, a.now)
      ensures e.nonce in Evicted(h.cache, a.now).seen
    {
      EvictedKeepsYoung(h, LastTime(attempts), a.now, e);
    }
    if a.nonce in Evicted(h.cache, a.now).seen {
      QueueIsYoung(h, LastTime(attempts), a);
    }
  }

  /** When eviction stops before its batch limit, everything left in the queue is younger than the lifetime. */
  lemma QueueIsYoung(h: History, now: Instant, a: Attempt)
    requires Faithful(h, now) && now <= a.now
    requires EvictCount(h.cache.expiry, a.now, MAX_EVICTIONS_PER_COMMIT) < MAX_EVICTIONS_PER_COMMIT
    requires a.nonce in Evicted(h.cache, a.now).seen
    ensures exists e :: e in h.log && e.nonce == a.nonce && !Expired(e, a.now)
  {
    ValidLater(h.cache, now, a.now);
    EvictKeepsValid(h.cache, a.now);
    var q := h.cache.expiry;
    var popped := EvictCount(q, a.now, MAX_EVICTIONS_PER_COMMIT);
    var e := FindYoung(q[popped..], a);
    assert e in q && e in h.log;
  }

  lemma FindYoung(q: seq<Entry>, a: Attempt) returns (e: Entry)
    requires Ordered(q) && (q != [] ==> !Expired(q[0], a.now)) && a.nonce in Nonces(q)
    ensures e in q && e.nonce == a.nonce && !Expired(e, a.now)
  {
    e :| e in q && e.nonce == a.nonce;
    var i :| 0 <= i < |q| && q[i] == e;
    assert q[0].committed <= q[i].committed;
  }

  /** The log positions at or before `j` committed less than one lifetime before entry `j`. */
  ghost function InWindow(log: seq<Entry>, j: nat): set<nat>
    requires j < |log|
  {
    set i: nat | i <= j && log[j].committed - log[i].committed < NONCE_TTL
  }

  lemma {:induction false} RangeSize(lo: nat, hi: nat, s: set<nat>)
    requires lo <= hi
    requires forall i :: lo <= i < hi ==> i in s
    ensures |s| >= hi - lo
    decreases hi - lo
  {
    if lo < hi {
      RangeSize(lo + 1, hi, s - {lo});
    }
  }

  ghost predicate BoundedByWindow(h: History) {
    h.cache.expiry == [] || exists j: nat :: j < |h.log| && |h.cache.expiry| <= |InWindow(h.log, j)|
  }

  /**
   * Peak size: although one commit pops at most 256 entries, the queue is never longer than the
   * number of commits that fell inside one lifetime ending at some commit of the run.
   */
  lemma {:induction false} PeakSize(attempts: seq<Attempt>)
    requires InTimeOrder(attempts)
    ensures BoundedByWindow(Run(attempts))
  {
    if attempts != [] {
      var init, a := attempts[..|attempts| - 1], attempts[|attempts| - 1];
      assert attempts == init + [a];
      RunSplit(init, a);
      PeakSize(init);
      RunFaithful(init);
      StepBounded(Run(init), LastTime(init), a);
    }
  }

  lemma StepBounded(h: History, now: Instant, a: Attempt)
    requires Faithful(h, now) && now <= a.now && BoundedByWindow(h)
    ensures BoundedByWindow(Step(h, a))
  {
    var h' := Step(h, a);
    StepShape(h, a);
    StepFaithful(h, now, a);
    if h'.cache.expiry != [] {
      if h'.log != h.log && !Expired(h'.cache.expiry[0], a.now) {
        FreshQueueFits(h', a.now);
      } else {
        StepShrinks(h, a);
        LongerLogSameWindows(h, h', Entry(a.nonce, a.now));
      }
    }
  }

  lemma FreshQueueFits(h: History, now: Instant)
    requires Faithful(h, now) && h.cache.expiry != [] && !Expired(h.cache.expiry[0], now)
    requires h.log[|h.log| - 1].committed == now
    ensures BoundedByWindow(h)
  {
    var last := |h.log| - 1;
    assert h.log[h.evictions] == h.cache.expiry[0];
    forall i: nat | h.evictions <= i < |h.log|
      ensures i in InWindow(h.log, last)
    {
      assert h.log[h.evictions].committed <= h.log[i].committed;
    }
    RangeSize(h.evictions, |h.log|, InWindow(h.log, last));
  }

  lemma LongerLogSameWindows(h: History, h': History, e: Entry)
    requires BoundedByWindow(h) && (h'.log == h.log || h'.log == h.log + [e])
    requires h'.cache.expiry != [] && |h'.cache.expiry| <= |h.cache.expiry|
    ensures BoundedByWindow(h')
  {
    var j: nat :| j < |h.log| && |h.cache.expiry| <= |InWindow(h.log, j)|;
    assert InWindow(h'.log, j) == InWindow(h.log, j);
  }

  /** Unless a commit succeeds and finds nothing old left at the front, the queue does not grow. */
  lemma StepShrinks(h: History, a: Attempt)
    requires h.evictions <= |h.log| && h.cache.expiry == h.log[h.evictions..]
    requires var h' := Step(h, a);
             h'.log == h.log || (h'.cache.expiry != [] && Expired(h'.cache.expiry[0], a.now))
    ensures |Step(h, a).cache.expiry| <= |h.cache.expiry|
  {
    var popped := EvictCount(h.cache.expiry, a.now, MAX_EVICTIONS_PER_COMMIT);
    var h' := Step(h, a);
    if h'.log != h.log && popped < |h.cache.expiry| {
      assert h'.cache.expiry[0] == h.cache.expiry[popped];
    }
  }
}
