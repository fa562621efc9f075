/** The replay cache of proxy/src/attest.rs: a set of nonces beside a queue of their commit times. */
module ReplayCache {
  import opened Wrappers
  import opened CommitWindow

  const NONCE_LEN := 16

  type Nonce = n: seq<byte> | |n| == NONCE_LEN witness seq(NONCE_LEN, _ => 0)

  /** A monotonic clock reading in nanoseconds. */
  type Instant = nat

  const MAX_EVICTIONS_PER_COMMIT: nat := 256

  datatype Entry = Entry(nonce: Nonce, committed: Instant)

  /** The value of a cache: what the class below holds in its two fields. */
  datatype Cache = Cache(seen: set<Nonce>, expiry: seq<Entry>)

  const EMPTY_CACHE := Cache({}, [])

  function Nonces(q: seq<Entry>): set<Nonce> {
    set e | e in q :: e.nonce
  }

  ghost predicate Ordered(q: seq<Entry>) {
    forall i, j :: 0 <= i < j < |q| ==> q[i].committed <= q[j].committed
  }

  ghost predicate Distinct(q: seq<Entry>) {
    forall i, j :: 0 <= i < j < |q| ==> q[i].nonce != q[j].nonce
  }

  /** Distinct nonces, oldest first, none stamped after `now`, and the set holds exactly the queued nonces. */
  ghost predicate Valid(c: Cache, now: Instant) {
    && c.seen == Nonces(c.expiry)
    && Ordered(c.expiry)
    && Distinct(c.expiry)
    && (c.expiry != [] ==> c.expiry[|c.expiry| - 1].committed <= now)
  }

  predicate Expired(e: Entry, now: Instant) {
    now - e.committed >= NONCE_TTL
  }

  /** How many entries one eviction pass pops: the expired ones at the front, at most `budget`. */
  function EvictCount(q: seq<Entry>, now: Instant, budget: nat): (n: nat)
    ensures n <= |q| && n <= budget
    ensures forall i :: 0 <= i < n ==> Expired(q[i], now)
    ensures n < budget && n < |q| ==> !Expired(q[n], now)
  {
    if budget == 0 || q == [] || !Expired(q[0], now) then 0 else 1 + EvictCount(q[1..], now, budget - 1)
  }

  function Evicted(c: Cache, now: Instant): Cache {
    var n := EvictCount(c.expiry, now, MAX_EVICTIONS_PER_COMMIT);
    Cache(c.seen - Nonces(c.expiry[..n]), c.expiry[n..])
  }

  /** `NonceCache::commit`: evict, then record the nonce unless it is still there. */
  function Committed(c: Cache, nonce: Nonce, now: Instant): (Cache, Result<Unit, AttestError>) {
    var d := Evicted(c, now);
    if nonce in d.seen then
      (d, Err(NonceReplay))
    else
      (Cache(d.seen + {nonce}, d.expiry + [Entry(nonce, now)]), Ok(Unit))
  }

  class NonceCache {
    var seen: set<Nonce>
    var expiry: seq<Entry>

    ghost function Contents(): Cache
      reads this
    {
      Cache(seen, expiry)
    }

    constructor ()
      ensures Contents() == EMPTY_CACHE
    {
      seen, expiry := {}, [];
    }

    method Contains(nonce: Nonce) returns (found: bool)
      ensures found <==> nonce in seen
    {
      found := nonce in seen;
    }

    method EvictExpired(now: Instant)
      modifies this
      ensures Contents() == Evicted(old(Contents()), now)
    {
      ghost var start := Contents();
      ghost var total := EvictCount(expiry, now, MAX_EVICTIONS_PER_COMMIT);
      var evicted := 0;
      while expiry != [] && !(evicted == MAX_EVICTIONS_PER_COMMIT || now - expiry[0].committed < NONCE_TTL)
        invariant 0 <= evicted <= total
        invariant evicted <= |start.expiry| && expiry == start.expiry[evicted..]
        invariant seen == start.seen - Nonces(start.expiry[..evicted])
        invariant total == evicted + EvictCount(expiry, now, MAX_EVICTIONS_PER_COMMIT - evicted)
        decreases |expiry|
      {
        var nonce := expiry[0].nonce;
        assert start.expiry[..evicted + 1] == start.expiry[..evicted] + [expiry[0]];
        NoncesAppend(start.expiry[..evicted], expiry[0]);
        expiry := expiry[1..];
        seen := seen - {nonce};
        evicted := evicted + 1;
      }
    }

    /** The eviction comes first, so a nonce whose entry it dropped is inserted anew; `r` tells insert from replay. */
    method Commit(nonce: Nonce, now: Instant) returns (r: Result<Unit, AttestError>)
      modifies this
      ensures (Contents(), r) == Committed(old(Contents()), nonce, now)
    {
      EvictExpired(now);
      if nonce in seen {
        return Err(NonceReplay);
      }
      seen := seen + {nonce};
      expiry := expiry + [Entry(nonce, now)];
      return Ok(Unit);
    }
  }

  lemma NoncesAppend(q: seq<Entry>, e: Entry)
    ensures Nonces(q + [e]) == Nonces(q) + {e.nonce}
  {
    assert forall x :: x in q + [e] <==> x in q || x == e;
  }

  lemma NoncesConcat(p: seq<Entry>, q: seq<Entry>)
    ensures Nonces(p + q) == Nonces(p) + Nonces(q)
  {
    assert forall x :: x in p + q <==> x in p || x in q;
  }

  /** In a queue of distinct nonces, removing the nonces of a prefix leaves those of the rest. */
  lemma DropPrefix(p: seq<Entry>, q: seq<Entry>)
    requires Distinct(p + q)
    ensures Nonces(p + q) - Nonces(p) == Nonces(q)
  {
    NoncesConcat(p, q);
    forall e | e in p
      ensures e.nonce !in Nonces(q)
    {
      var i :| 0 <= i < |p| && p[i] == e;
      forall f | f in q
        ensures f.nonce != e.nonce
      {
        var j :| 0 <= j < |q| && q[j] == f;
        assert (p + q)[i] == e && (p + q)[|p| + j] == f;
      }
    }
  }

  lemma SuffixOrderedDistinct(q: seq<Entry>, n: nat)
    requires n <= |q| && Ordered(q) && Distinct(q)
    ensures Ordered(q[n..]) && Distinct(q[n..])
  {
  }

  /** Eviction keeps the representation invariant: in particular the set still mirrors the queue. */
  lemma EvictKeepsValid(c: Cache, now: Instant)
    requires Valid(c, now)
    ensures Valid(Evicted(c, now), now)
  {
    var n := EvictCount(c.expiry, now, MAX_EVICTIONS_PER_COMMIT);
    assert c.expiry == c.expiry[..n] + c.expiry[n..];
    DropPrefix(c.expiry[..n], c.expiry[n..]);
    SuffixOrderedDistinct(c.expiry, n);
  }

  lemma AppendKeepsValid(c: Cache, e: Entry)
    requires Valid(c, e.committed) && e.nonce !in c.seen
    ensures Valid(Cache(c.seen + {e.nonce}, c.expiry + [e]), e.committed)
  {
    NoncesAppend(c.expiry, e);
    forall i | 0 <= i < |c.expiry|
      ensures c.expiry[i].nonce != e.nonce
    {
      assert c.expiry[i] in c.expiry;
    }
  }

  lemma CommitKeepsValid(c: Cache, nonce: Nonce, now: Instant)
    requires Valid(c, now)
    ensures Valid(Committed(c, nonce, now).0, now)
  {
    EvictKeepsValid(c, now);
    if nonce !in Evicted(c, now).seen {
      AppendKeepsValid(Evicted(c, now), Entry(nonce, now));
    }
  }

  /**
   * What a commit evicts: at most 256 entries from the front, each at least three minutes old; and if
   * they are fewer, no older entry is left.
   */
  lemma EvictsExactly(c: Cache, now: Instant) returns (n: nat)
    requires Valid(c, now)
    ensures n <= 256 && n <= |c.expiry| && Evicted(c, now).expiry == c.expiry[n..]
    ensures forall e :: e in c.expiry[..n] ==> now - e.committed >= 180_000_000_000 && e.nonce !in Evicted(c, now).seen
    ensures n < 256 ==> forall e :: e in c.expiry[n..] ==> now - e.committed < 180_000_000_000
  {
    n := EvictCount(c.expiry, now, MAX_EVICTIONS_PER_COMMIT);
    forall e | e in c.expiry[n..] && n < 256 ensures now - e.committed < 180_000_000_000 {
      var k :| n <= k < |c.expiry| && c.expiry[k] == e;
      assert c.expiry[n].committed <= c.expiry[k].committed;
    }
  }
}
