/**
 * Concurrent lookups over the DNS answer cache of proxy/src/machine.rs.  The resolver is awaited
 * outside the lock, so any number of lookups interleave; every step below is one critical section.
 */
module DnsRuns {
  import opened Wrappers
  import opened MachineIdentity

  type Id = nat

  /** Answered from the cache at once, by the resolver, or, when that failed, from the cache after all. */
  datatype How = AtOnce | ByResolver | Fallback

  /**
   * Where a lookup stands.  An answered one records the stored entry it was served from, if it was,
   * and how many answers the resolver had given by then.
   */
  datatype Lookup =
    | Waiting(host: Host)
    | Answered(host: Host, answer: Option<Answer>, entry: Option<CacheEntry>, at: Time, upTo: nat, how: How)

  /** `stored` lists every answer the resolver gave, with the time it was stored, oldest first. */
  datatype World = World(now: Time, entries: Entries, lookups: map<Id, Lookup>, stored: seq<(Host, CacheEntry)>)

  datatype Step =
    | Tick(to: Time)
    | Begin(id: Id, host: Host)
    | Resolved(id: Id, addrs: Answer, late: set<Host>, end: Time)
    | Failed(id: Id)

  const START := World(0, map[], map[], [])

  function Served(w: World, host: Host, e: Option<CacheEntry>, how: How): Lookup {
    Answered(host, if e.Some? then Some(e.value.addrs) else None, e, w.now, |w.stored|, how)
  }

  /** One step.  `sweep` off gives the unbounded history: the last answer stored for every host, for ever. */
  function Apply(p: Policy, sweep: bool, w: World, step: Step): World {
    match step
    case Tick(to) =>
      if to < w.now then w else w.(now := to)
    case Begin(id, host) =>
      if id in w.lookups then w
      else
        var e := p.Fresh(w.entries, host, w.now);
        w.(lookups := w.lookups[id := if e.Some? then Served(w, host, e, AtOnce) else Waiting(host)])
    case Resolved(id, addrs, late, end) =>
      if id !in w.lookups || !w.lookups[id].Waiting? || end < w.now then w
      else
        var host := w.lookups[id].host;
        var left := if sweep then Swept(p, w.entries, w.now, end, late) else w.entries;
        var e := CacheEntry(addrs, end);
        var answered := Answered(host, Some(addrs), None, end, |w.stored| + 1, ByResolver);
        World(end, left[host := e], w.lookups[id := answered], w.stored + [(host, e)])
    case Failed(id) =>
      if id !in w.lookups || !w.lookups[id].Waiting? then w
      else
        var host := w.lookups[id].host;
        w.(lookups := w.lookups[id := Served(w, host, p.Stale(w.entries, host, w.now), Fallback)])
  }

  function Run(p: Policy, sweep: bool, steps: seq<Step>): World {
    if steps == [] then START
    else Apply(p, sweep, Run(p, sweep, steps[..|steps| - 1]), steps[|steps| - 1])
  }

  // ── Sweeping is invisible ──────────────────────────────────────────────────

  /** The swept cache is the unswept one without entries that had already expired. */
  ghost predicate Mirrors(p: Policy, swept: World, full: World) {
    && swept == full.(entries := swept.entries)
    && swept.entries.Keys <= full.entries.Keys
    && (forall h :: h in swept.entries ==> swept.entries[h] == full.entries[h])
    && (forall h :: h in full.entries && h !in swept.entries ==> p.Expired(full.entries[h], full.now))
  }

  lemma SameLookups(p: Policy, swept: World, full: World, host: Host)
    requires Mirrors(p, swept, full) && p.negativeTtl <= p.Keep()
    ensures p.Fresh(swept.entries, host, full.now) == p.Fresh(full.entries, host, full.now)
    ensures p.Stale(swept.entries, host, full.now) == p.Stale(full.entries, host, full.now)
  {
  }

  lemma StepMirrors(p: Policy, swept: World, full: World, step: Step)
    requires Mirrors(p, swept, full) && p.negativeTtl <= p.Keep()
    ensures Mirrors(p, Apply(p, true, swept, step), Apply(p, false, full, step))
  {
    match step
    case Tick(_) =>
    case Begin(_, host) =>
      SameLookups(p, swept, full, host);
    case Resolved(_, _, _, _) =>
    case Failed(id) =>
      if id in full.lookups && full.lookups[id].Waiting? {
        SameLookups(p, swept, full, full.lookups[id].host);
      }
  }

  lemma {:induction false} RunMirrors(p: Policy, steps: seq<Step>)
    requires p.negativeTtl <= p.Keep()
    ensures Mirrors(p, Run(p, true, steps), Run(p, false, steps))
  {
    if steps != [] {
      var init := steps[..|steps| - 1];
      RunMirrors(p, init);
      StepMirrors(p, Run(p, true, init), Run(p, false, init), steps[|steps| - 1]);
    }
  }

  /** Every run answers every lookup as the unbounded history would. */
  ghost predicate SweepInvisible(p: Policy) {
    forall steps: seq<Step> :: Run(p, true, steps).lookups == Run(p, false, steps).lookups
  }

  /** A run that tells the two apart: a negative answer outlives its sweep. */
  function Telltale(p: Policy): seq<Step> {
    [Begin(0, "a"), Resolved(0, [], {}, 0), Tick(p.Keep()), Begin(1, "b"), Resolved(1, [7], {}, p.Keep()),
     Begin(2, "a")]
  }

  lemma RunSnoc(p: Policy, sweep: bool, steps: seq<Step>, step: Step)
    ensures Run(p, sweep, steps + [step]) == Apply(p, sweep, Run(p, sweep, steps), step)
  {
    assert (steps + [step])[..|steps + [step]| - 1] == steps;
  }

  /** A negative answer is stored, and its keep time passes before another name is looked up. */
  lemma TelltaleStart(p: Policy, sweep: bool) returns (w: World)
    ensures w == Run(p, sweep, [Begin(0, "a"), Resolved(0, [], {}, 0), Tick(p.Keep()), Begin(1, "b")])
    ensures w.now == p.Keep() && w.entries == map["a" := CacheEntry([], 0)] && w.stored == [("a", CacheEntry([], 0))]
    ensures 1 in w.lookups && w.lookups[1] == Waiting("b") && 2 !in w.lookups
  {
    NamesDiffer();
    var s := [Begin(0, "a"), Resolved(0, [], {}, 0), Tick(p.Keep()), Begin(1, "b")];
    assert s == s[..3] + [s[3]] && s[..3] == s[..2] + [s[2]] && s[..2] == s[..1] + [s[1]] && s[..1] == [] + [s[0]];
    RunSnoc(p, sweep, [], s[0]);
    RunSnoc(p, sweep, s[..1], s[1]);
    RunSnoc(p, sweep, s[..2], s[2]);
    RunSnoc(p, sweep, s[..3], s[3]);
    assert Run(p, sweep, s[..1]).lookups == map[0 := Waiting("a")];
    w := Run(p, sweep, s);
  }

  /** Storing the other answer sweeps the negative one, which was still found. */
  lemma TelltaleEnd(p: Policy, sweep: bool, w: World)
    requires p.negativeTtl > p.Keep() && w.now == p.Keep() && w.entries == map["a" := CacheEntry([], 0)]
    requires 1 in w.lookups && w.lookups[1] == Waiting("b") && 2 !in w.lookups
    ensures var w' := Apply(p, sweep, Apply(p, sweep, w, Resolved(1, [7], {}, p.Keep())), Begin(2, "a"));
            2 in w'.lookups && (w'.lookups[2].Waiting? <==> sweep)
  {
    NamesDiffer();
    assert p.Expired(CacheEntry([], 0), p.Keep());
    assert "a" in Apply(p, sweep, w, Resolved(1, [7], {}, p.Keep())).entries <==> !sweep;
  }

  lemma NamesDiffer()
    ensures "a" != "b"
  {
    assert "a"[0] != "b"[0];
  }

  lemma TelltaleRun(p: Policy, sweep: bool)
    requires p.negativeTtl > p.Keep()
    ensures 2 in Run(p, sweep, Telltale(p)).lookups && (Run(p, sweep, Telltale(p)).lookups[2].Waiting? <==> sweep)
  {
    var w := TelltaleStart(p, sweep);
    var start := [Begin(0, "a"), Resolved(0, [], {}, 0), Tick(p.Keep()), Begin(1, "b")];
    RunSnoc(p, sweep, start, Resolved(1, [7], {}, p.Keep()));
    RunSnoc(p, sweep, start + [Resolved(1, [7], {}, p.Keep())], Begin(2, "a"));
    assert Telltale(p) == start + [Resolved(1, [7], {}, p.Keep())] + [Begin(2, "a")];
    TelltaleEnd(p, sweep, w);
  }

  /** Sweeping never changes an answer exactly when negative answers do not outlive an entry's keep time. */
  lemma SweepInvisibleExactly(p: Policy)
    ensures SweepInvisible(p) <==> p.negativeTtl <= p.Keep()
  {
    if p.negativeTtl <= p.Keep() {
      forall steps: seq<Step>
        ensures Run(p, true, steps).lookups == Run(p, false, steps).lookups
      {
        RunMirrors(p, steps);
      }
    } else {
      TelltaleRun(p, true);
      TelltaleRun(p, false);
    }
  }

  // ── Where answers come from ────────────────────────────────────────────────

  /** The last answer stored for a host. */
  ghost predicate LastStored(stored: seq<(Host, CacheEntry)>, host: Host, e: CacheEntry) {
    exists i :: 0 <= i < |stored| && stored[i] == (host, e) && forall j :: i < j < |stored| ==> stored[j].0 != host
  }

  /** An answer younger than the lifetime of its sign: the negative TTL if it is empty, the TTL otherwise. */
  predicate Young(p: Policy, e: CacheEntry, at: Time) {
    at - e.fetched < (if e.addrs == [] then p.negativeTtl else p.ttl)
  }

  /** An answer that may still stand in when the resolver fails: not empty, younger than TTL plus grace. */
  predicate Usable(p: Policy, e: CacheEntry, at: Time) {
    e.addrs != [] && at - e.fetched < p.ttl + p.staleGrace
  }

  /**
   * What was answered, by the way it was: at once, the last stored answer while it is young; by the
   * resolver, the answer just stored; as a fallback, the last stored answer if usable, otherwise none.
   */
  ghost predicate Backed(p: Policy, w: World, l: Lookup)
    requires l.Answered?
  {
    && l.at <= w.now && l.upTo <= |w.stored|
    && var before := w.stored[..l.upTo];
       match l.how
       case AtOnce =>
         && l.entry.Some? && l.answer == Some(l.entry.value.addrs) && LastStored(before, l.host, l.entry.value)
         && l.entry.value.fetched <= l.at && Young(p, l.entry.value, l.at)
       case ByResolver =>
         l.entry.None? && l.answer.Some? && LastStored(before, l.host, CacheEntry(l.answer.value, l.at))
       case Fallback =>
         if l.entry.Some? then
           && l.answer == Some(l.entry.value.addrs) && LastStored(before, l.host, l.entry.value)
           && l.entry.value.fetched <= l.at && Usable(p, l.entry.value, l.at)
         else
           l.answer.None? && forall e :: LastStored(before, l.host, e) ==> !Usable(p, e, l.at)
  }

  /** The cache holds the last stored answer of a host, unless that is TTL plus grace old. */
  ghost predicate Tracks(p: Policy, w: World) {
    && (forall h :: h in w.entries ==> LastStored(w.stored, h, w.entries[h]) && w.entries[h].fetched <= w.now)
    && (forall h, e :: LastStored(w.stored, h, e) && h !in w.entries ==> w.now - e.fetched >= p.ttl + p.staleGrace)
  }

  ghost predicate Sound(p: Policy, w: World) {
    && Tracks(p, w)
    && (forall id :: id in w.lookups && w.lookups[id].Answered? ==> Backed(p, w, w.lookups[id]))
  }

  /** There is one last answer. */
  lemma OneLast(stored: seq<(Host, CacheEntry)>, host: Host, e: CacheEntry, f: CacheEntry)
    requires LastStored(stored, host, e) && LastStored(stored, host, f)
    ensures e == f
  {
    var i :| 0 <= i < |stored| && stored[i] == (host, e) && forall j :: i < j < |stored| ==> stored[j].0 != host;
    var k :| 0 <= k < |stored| && stored[k] == (host, f) && forall j :: k < j < |stored| ==> stored[j].0 != host;
  }

  lemma LaterStores(stored: seq<(Host, CacheEntry)>, host: Host, e: CacheEntry, other: (Host, CacheEntry))
    requires other.0 != host
    ensures LastStored(stored + [other], host, e) <==> LastStored(stored, host, e)
  {
    var all := stored + [other];
    if LastStored(stored, host, e) {
      var i :| 0 <= i < |stored| && stored[i] == (host, e) && forall j :: i < j < |stored| ==> stored[j].0 != host;
      assert all[i] == (host, e);
    }
    if LastStored(all, host, e) {
      var i :| 0 <= i < |all| && all[i] == (host, e) && forall j :: i < j < |all| ==> all[j].0 != host;
      assert i < |stored| && stored[i] == (host, e);
      assert forall j :: i < j < |stored| ==> stored[j] == all[j];
    }
  }

  lemma NewestStored(stored: seq<(Host, CacheEntry)>, host: Host, e: CacheEntry)
    ensures LastStored(stored + [(host, e)], host, e)
  {
    assert (stored + [(host, e)])[|stored|] == (host, e);
  }

  /** What the fast path finds is the last stored answer, young; nothing it misses is young and still kept. */
  lemma FreshMeans(p: Policy, w: World, host: Host)
    requires Tracks(p, w)
    ensures match p.Fresh(w.entries, host, w.now)
            case Some(e) => LastStored(w.stored, host, e) && e.fetched <= w.now && Young(p, e, w.now)
            case None =>
              forall e :: LastStored(w.stored, host, e) && Young(p, e, w.now) ==>
                w.now - e.fetched >= p.ttl + p.staleGrace
  {
    if host in w.entries {
      forall e | LastStored(w.stored, host, e) ensures e == w.entries[host] {
        OneLast(w.stored, host, e, w.entries[host]);
      }
    }
  }

  /** What the fallback finds is the last stored answer, usable; otherwise that is not usable. */
  lemma StaleMeans(p: Policy, w: World, host: Host)
    requires Tracks(p, w)
    ensures match p.Stale(w.entries, host, w.now)
            case Some(e) => LastStored(w.stored, host, e) && e.fetched <= w.now && Usable(p, e, w.now)
            case None => forall e :: LastStored(w.stored, host, e) ==> !Usable(p, e, w.now)
  {
    if host in w.entries {
      forall e | LastStored(w.stored, host, e) ensures e == w.entries[host] {
        OneLast(w.stored, host, e, w.entries[host]);
      }
    }
  }

  lemma StoreTracks(p: Policy, w: World, id: Id, addrs: Answer, late: set<Host>, end: Time)
    requires Tracks(p, w) && id in w.lookups && w.lookups[id].Waiting? && w.now <= end
    ensures Tracks(p, Apply(p, true, w, Resolved(id, addrs, late, end)))
  {
    var w' := Apply(p, true, w, Resolved(id, addrs, late, end));
    var (host, e) := (w.lookups[id].host, CacheEntry(addrs, end));
    NewestStored(w.stored, host, e);
    forall h | h in w'.entries
      ensures LastStored(w'.stored, h, w'.entries[h])
    {
      if h != host {
        LaterStores(w.stored, h, w.entries[h], (host, e));
      }
    }
    forall h, f | LastStored(w'.stored, h, f) && h !in w'.entries
      ensures end - f.fetched >= p.ttl + p.staleGrace
    {
      LaterStores(w.stored, h, f, (host, e));
      if h in w.entries {
        OneLast(w.stored, h, f, w.entries[h]);
      }
    }
  }

  /** An answer given earlier is backed by the answers stored then, whatever is stored later. */
  lemma StaysBacked(p: Policy, w: World, w': World, l: Lookup)
    requires l.Answered? && Backed(p, w, l) && w.now <= w'.now && w.stored <= w'.stored
    ensures Backed(p, w', l)
  {
    assert w'.stored[..l.upTo] == w.stored[..l.upTo];
  }

  lemma StoreSound(p: Policy, w: World, id: Id, addrs: Answer, late: set<Host>, end: Time)
    requires Sound(p, w) && id in w.lookups && w.lookups[id].Waiting? && w.now <= end
    ensures Sound(p, Apply(p, true, w, Resolved(id, addrs, late, end)))
  {
    var w' := Apply(p, true, w, Resolved(id, addrs, late, end));
    var (host, e) := (w.lookups[id].host, CacheEntry(addrs, end));
    StoreTracks(p, w, id, addrs, late, end);
    NewestStored(w.stored, host, e);
    assert w'.stored[..|w'.stored|] == w'.stored;
    forall other | other in w.lookups && w.lookups[other].Answered?
      ensures Backed(p, w', w.lookups[other])
    {
      StaysBacked(p, w, w', w.lookups[other]);
    }
  }

  lemma BeginSound(p: Policy, w: World, id: Id, host: Host)
    requires Sound(p, w)
    ensures Sound(p, Apply(p, true, w, Begin(id, host)))
  {
    FreshMeans(p, w, host);
    assert w.stored[..|w.stored|] == w.stored;
  }

  lemma FailedSound(p: Policy, w: World, id: Id)
    requires Sound(p, w)
    ensures Sound(p, Apply(p, true, w, Failed(id)))
  {
    if id in w.lookups && w.lookups[id].Waiting? {
      StaleMeans(p, w, w.lookups[id].host);
      assert w.stored[..|w.stored|] == w.stored;
    }
  }

  lemma StepSound(p: Policy, w: World, step: Step)
    requires Sound(p, w)
    ensures Sound(p, Apply(p, true, w, step))
  {
    match step
    case Tick(_) =>
    case Begin(id, host) =>
      BeginSound(p, w, id, host);
    case Resolved(id, addrs, late, end) =>
      if id in w.lookups && w.lookups[id].Waiting? && w.now <= end {
        StoreSound(p, w, id, addrs, late, end);
      }
    case Failed(id) =>
      FailedSound(p, w, id);
  }

  lemma {:induction false} RunSound(p: Policy, steps: seq<Step>)
    ensures Sound(p, Run(p, true, steps))
  {
    if steps != [] {
      RunSound(p, steps[..|steps| - 1]);
      StepSound(p, Run(p, true, steps[..|steps| - 1]), steps[|steps| - 1]);
    }
  }

  /**
   * Storing an answer keeps the cache to what may still be served: of the other names it holds, when the
   * sweep begins, none TTL plus grace old, and it still holds every last answer that is younger at its end.
   */
  lemma SweepsExactly(p: Policy, steps: seq<Step>, id: Id, addrs: Answer, late: set<Host>, end: Time)
    requires id in Run(p, true, steps).lookups && Run(p, true, steps).lookups[id].Waiting?
    requires Run(p, true, steps).now <= end
    ensures var w := Run(p, true, steps);
            var w' := Apply(p, true, w, Resolved(id, addrs, late, end));
            && (forall h :: h in w'.entries && h != w.lookups[id].host ==>
                  w.now - w'.entries[h].fetched < p.ttl + p.staleGrace)
            && (forall h, e :: LastStored(w'.stored, h, e) && end - e.fetched < p.ttl + p.staleGrace ==>
                  h in w'.entries && w'.entries[h] == e)
  {
    RunSound(p, steps);
    var w := Run(p, true, steps);
    var w' := Apply(p, true, w, Resolved(id, addrs, late, end));
    StoreTracks(p, w, id, addrs, late, end);
    forall h, e | LastStored(w'.stored, h, e) && end - e.fetched < p.ttl + p.staleGrace
      ensures h in w'.entries && w'.entries[h] == e
    {
      OneLast(w'.stored, h, e, w'.entries[h]);
    }
  }

  // ── When a lookup is answered ──────────────────────────────────────────────

  /** The lookup is answered at once, with the last stored answer, exactly when that is young. */
  ghost predicate BeginRight(p: Policy, w: World, id: Id, host: Host) {
    var l := Apply(p, true, w, Begin(id, host)).lookups[id];
    if l.Answered? then exists e :: LastStored(w.stored, host, e) && Young(p, e, w.now) && l.answer == Some(e.addrs)
    else l.Waiting? && l.host == host && forall e :: LastStored(w.stored, host, e) ==> !Young(p, e, w.now)
  }

  /** In every run, for every name. */
  ghost predicate BeginAlwaysRight(p: Policy) {
    forall steps: seq<Step>, id: Id, host: Host ::
      id !in Run(p, true, steps).lookups ==> BeginRight(p, Run(p, true, steps), id, host)
  }

  lemma BeginAnswers(p: Policy, w: World, id: Id, host: Host)
    requires Tracks(p, w) && id !in w.lookups && p.negativeTtl <= p.ttl + p.staleGrace
    ensures BeginRight(p, w, id, host)
  {
    FreshMeans(p, w, host);
    var found := p.Fresh(w.entries, host, w.now);
    if found.Some? {
      assert LastStored(w.stored, host, found.value);
    }
  }

  /** A lookup that the telltale run makes wait although the last answer is young. */
  lemma TelltaleWaits(p: Policy)
    requires p.negativeTtl > p.ttl + p.staleGrace
    ensures !BeginAlwaysRight(p)
  {
    var w4 := TelltaleStart(p, true);
    var start := [Begin(0, "a"), Resolved(0, [], {}, 0), Tick(p.Keep()), Begin(1, "b")];
    var steps := start + [Resolved(1, [7], {}, p.Keep())];
    RunSnoc(p, true, start, Resolved(1, [7], {}, p.Keep()));
    TelltaleEnd(p, true, w4);
    var w := Run(p, true, steps);
    NamesDiffer();
    NewestStored([], "a", CacheEntry([], 0));
    assert w4.stored == [] + [("a", CacheEntry([], 0))];
    LaterStores(w4.stored, "a", CacheEntry([], 0), ("b", CacheEntry([7], p.Keep())));
    assert LastStored(w.stored, "a", CacheEntry([], 0)) && Young(p, CacheEntry([], 0), w.now);
    assert !BeginRight(p, w, 2, "a");
  }

  /**
   * A lookup is answered at once, with the last stored answer, exactly when that is younger than the
   * TTL of its sign, in every run if and only if the negative TTL is at most the TTL plus the grace period.
   */
  lemma BeginExactly(p: Policy)
    ensures BeginAlwaysRight(p) <==> p.negativeTtl <= p.ttl + p.staleGrace
  {
    if p.negativeTtl <= p.ttl + p.staleGrace {
      forall steps: seq<Step>, id: Id, host: Host | id !in Run(p, true, steps).lookups
        ensures BeginRight(p, Run(p, true, steps), id, host)
      {
        RunSound(p, steps);
        BeginAnswers(p, Run(p, true, steps), id, host);
      }
    } else {
      TelltaleWaits(p);
    }
  }

  /** Whatever the policy, a positive answer is served at once exactly while it is younger than the TTL. */
  lemma PositiveAnswers(p: Policy, steps: seq<Step>, id: Id, host: Host, e: CacheEntry)
    requires id !in Run(p, true, steps).lookups && LastStored(Run(p, true, steps).stored, host, e) && e.addrs != []
    ensures var w := Run(p, true, steps);
            var l := Apply(p, true, w, Begin(id, host)).lookups[id];
            if w.now - e.fetched < p.ttl then l.Answered? && l.answer == Some(e.addrs) else l.Waiting?
  {
    RunSound(p, steps);
    var w := Run(p, true, steps);
    FreshMeans(p, w, host);
    var found := p.Fresh(w.entries, host, w.now);
    if found.Some? {
      OneLast(w.stored, host, e, found.value);
    }
  }

  /**
   * When the resolver fails, a waiting lookup is answered with the last stored answer exactly when that
   * is not empty and younger than TTL plus grace, and with nothing otherwise.
   */
  lemma FailedAnswers(p: Policy, steps: seq<Step>, id: Id)
    requires id in Run(p, true, steps).lookups && Run(p, true, steps).lookups[id].Waiting?
    ensures var w := Run(p, true, steps);
            var (host, l) := (w.lookups[id].host, Apply(p, true, w, Failed(id)).lookups[id]);
            && l.Answered? && l.host == host
            && (l.answer.Some? ==> exists e ::
                LastStored(w.stored, host, e) && Usable(p, e, w.now) && l.answer == Some(e.addrs))
            && (l.answer.None? ==> forall e :: LastStored(w.stored, host, e) ==> !Usable(p, e, w.now))
  {
    RunSound(p, steps);
    var w := Run(p, true, steps);
    var host := w.lookups[id].host;
    StaleMeans(p, w, host);
    var stale := p.Stale(w.entries, host, w.now);
    if stale.Some? {
      assert LastStored(w.stored, host, stale.value);
    }
  }

  /** What the resolver returns is the answer, and is from then on the last one stored for its name. */
  lemma ResolvedAnswers(p: Policy, w: World, id: Id, addrs: Answer, late: set<Host>, end: Time)
    requires id in w.lookups && w.lookups[id].Waiting? && w.now <= end
    ensures var (host, w') := (w.lookups[id].host, Apply(p, true, w, Resolved(id, addrs, late, end)));
            && w'.lookups[id].Answered? && w'.lookups[id].answer == Some(addrs)
            && LastStored(w'.stored, host, CacheEntry(addrs, end))
            && forall h, e :: h != host ==> (LastStored(w'.stored, h, e) <==> LastStored(w.stored, h, e))
  {
    var host := w.lookups[id].host;
    NewestStored(w.stored, host, CacheEntry(addrs, end));
    forall h, e | h != host
      ensures LastStored(w.stored + [(host, CacheEntry(addrs, end))], h, e) <==> LastStored(w.stored, h, e)
    {
      LaterStores(w.stored, h, e, (host, CacheEntry(addrs, end)));
    }
  }

  // ── Where accepted addresses come from ─────────────────────────────────────

  /**
   * `ip` occurs in the last answer stored for the lookup's name: one younger than the TTL if it was
   * served at once, the one just returned by the resolver, or, when that failed, one younger than TTL
   * plus grace.
   */
  ghost predicate AddressBacked(p: Policy, w: World, l: Lookup, ip: Ip)
    requires l.Answered? && l.upTo <= |w.stored|
  {
    exists e :: && LastStored(w.stored[..l.upTo], l.host, e)
                && ip in e.addrs
                && match l.how
                   case AtOnce => 0 <= l.at - e.fetched < p.ttl
                   case ByResolver => e.fetched == l.at
                   case Fallback => 0 <= l.at - e.fetched < p.ttl + p.staleGrace
  }

  lemma SoundAddress(p: Policy, w: World, l: Lookup, cert: Result<VerifiedMachine, MachineError>, client: Option<Ip>)
    requires l.Answered? && Backed(p, w, l) && Verify(cert, client, l.answer).Ok?
    ensures AddressBacked(p, w, l, client.value)
  {
    var e := if l.entry.Some? then l.entry.value else CacheEntry(l.answer.value, l.at);
    assert LastStored(w.stored[..l.upTo], l.host, e) && client.value in e.addrs;
  }

  /**
   * Whatever interleaves, a machine is accepted only when its address occurs in the last answer
   * stored for its own name, which was young enough for the way it was served.
   */
  lemma AcceptedAddressIsBacked(p: Policy, steps: seq<Step>, id: Id, cert: Result<VerifiedMachine, MachineError>,
                                client: Option<Ip>)
    requires var w := Run(p, true, steps);
             && id in w.lookups && w.lookups[id].Answered? && (cert.Ok? ==> cert.value.hostname == w.lookups[id].host)
             && Verify(cert, client, w.lookups[id].answer).Ok?
    ensures var (w, l) := (Run(p, true, steps), Run(p, true, steps).lookups[id]);
            && l.host == cert.value.hostname && l.upTo <= |w.stored| && AddressBacked(p, w, l, client.value)
  {
    RunSound(p, steps);
    var w := Run(p, true, steps);
    assert Backed(p, w, w.lookups[id]);
    SoundAddress(p, w, w.lookups[id], cert, client);
  }
}
