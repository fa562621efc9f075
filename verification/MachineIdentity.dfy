/** Machine identity (proxy/src/machine.rs): the verdict on a certificate, and the DNS answer cache behind it. */
module MachineIdentity {
  import opened Wrappers

  type Host = string
  type Ip = nat
  type Answer = seq<Ip>

  /** A monotonic clock reading, or a span of that clock. */
  type Time = nat

  datatype VerifiedMachine = VerifiedMachine(hostname: Host, subjectDn: string)

  datatype MachineError =
    | Missing
    | NotBase64
    | NotDer
    | UntrustedChain
    | CertExpired
    | CertNotYetValid
    | NoCommonName
    | UnsafeCommonName
    | HostnameNotAllowed
    | HostnameAddressMismatch
    | HostnameUnresolvable
    | NoClientAddress
  {
    /** Whether the chain had verified when the failure was found: only the forward-DNS failures. */
    predicate ChainVerified() {
      HostnameAddressMismatch? || HostnameUnresolvable?
    }
  }

  /** `MachineIdentity::verify`, given what certificate verification and the resolver cache returned. */
  function Verify(cert: Result<VerifiedMachine, MachineError>, client: Option<Ip>, answer: Option<Answer>)
    : (r: Result<VerifiedMachine, MachineError>)
    ensures r.Ok? <==> client.Some? && cert.Ok? && answer.Some? && client.value in answer.value
    ensures r.Ok? ==> r == cert
    ensures client.None? ==> r == Err(NoClientAddress)
    ensures client.Some? && cert.Err? ==> r == cert
    ensures client.Some? && cert.Ok? && (answer.None? || answer.value == []) ==> r == Err(HostnameUnresolvable)
    ensures client.Some? && cert.Ok? && answer.Some? && answer.value != [] && client.value !in answer.value ==>
              r == Err(HostnameAddressMismatch)
  {
    if client.None? then Err(NoClientAddress)
    else
      var machine :- cert;
      if answer.None? || answer.value == [] then Err(HostnameUnresolvable)
      else if client.value in answer.value then Ok(machine)
      else Err(HostnameAddressMismatch)
  }

  // ── The answer cache ───────────────────────────────────────────────────────

  datatype CacheEntry = CacheEntry(addrs: Answer, fetched: Time)

  type Entries = map<Host, CacheEntry>

  datatype Policy = Policy(ttl: Time, negativeTtl: Time, staleGrace: Time) {
    /** How long an entry survives sweeping. */
    function Keep(): Time {
      ttl + staleGrace
    }

    predicate Expired(e: CacheEntry, now: Time) {
      now - e.fetched >= Keep()
    }

    /** The fast path: an answer still within the lifetime its sign gives it. */
    function Fresh(entries: Entries, host: Host, now: Time): Option<CacheEntry> {
      if host !in entries then None
      else
        var e := entries[host];
        if now - e.fetched < (if e.addrs == [] then negativeTtl else ttl) then Some(e) else None
    }

    /** The fallback when the resolver fails: a positive answer within its lifetime plus the grace period. */
    function Stale(entries: Entries, host: Host, now: Time): Option<CacheEntry> {
      if host in entries && entries[host].addrs != [] && !Expired(entries[host], now)
      then Some(entries[host]) else None
    }
  }

  /**
   * A sweep whose clock readings lie between `start` and `end` and which drops, of the entries
   * that expire meanwhile, those in `late`.
   */
  function Swept(p: Policy, entries: Entries, start: Time, end: Time, late: set<Host>): (r: Entries)
    ensures r.Keys <= entries.Keys
  {
    map h | h in entries && !p.Expired(entries[h], start) && !(h in late && p.Expired(entries[h], end)) :: entries[h]
  }

  /** A monotonic clock: every reading is at least the one before it. */
  class Clock {
    var now: Time

    method Read() returns (t: Time)
      modifies this
      ensures t == now >= old(now)
    {
      var later: Time :| later >= now;
      now := later;
      t := later;
    }
  }

  class DnsCache {
    const policy: Policy
    const clock: Clock
    var entries: Entries

    constructor (policy: Policy, clock: Clock)
      ensures this.policy == policy && this.clock == clock && entries == map[]
    {
      this.policy := policy;
      this.clock := clock;
      entries := map[];
    }

    method LookupFresh(host: Host) returns (r: Option<Answer>)
      modifies clock
      ensures clock.now >= old(clock.now)
      ensures r.Some? <==>
                && host in entries
                && clock.now - entries[host].fetched < (if entries[host].addrs
                                                        == [] then policy.negativeTtl else policy.ttl)
      ensures r.Some? ==> r.value == entries[host].addrs
      ensures var e := policy.Fresh(entries, host, clock.now); r == if e.Some? then Some(e.value.addrs) else None
    {
      var now := clock.Read();
      if host in entries {
        var e := entries[host];
        var ttl := if e.addrs == [] then policy.negativeTtl else policy.ttl;
        if now - e.fetched < ttl {
          return Some(e.addrs);
        }
      }
      return None;
    }

    method LookupStale(host: Host) returns (r: Option<Answer>)
      modifies clock
      ensures clock.now >= old(clock.now)
      ensures r.Some? <==>
                && host in entries && entries[host].addrs != []
                && clock.now - entries[host].fetched < policy.ttl + policy.staleGrace
      ensures r.Some? ==> r.value == entries[host].addrs
      ensures var e := policy.Stale(entries, host, clock.now); r == if e.Some? then Some(e.value.addrs) else None
    {
      var now := clock.Read();
      if host in entries && entries[host].addrs != [] && now - entries[host].fetched < policy.ttl + policy.staleGrace {
        return Some(entries[host].addrs);
      }
      return None;
    }

    /** Inserts an answer after sweeping expired entries; the clock is read anew for every entry. */
    method Store(host: Host, addrs: Answer) returns (ghost end: Time, ghost late: set<Host>)
      modifies this`entries, clock
      ensures old(clock.now) <= end <= clock.now
      ensures entries == Swept(policy, old(entries), old(clock.now), end, late)[host := CacheEntry(addrs, clock.now)]
    {
      ghost var start := clock.now;
      var todo := entries.Keys;
      late := {};
      while todo != {}
        invariant clock.now >= start
        invariant todo <= old(entries).Keys && entries.Keys <= old(entries).Keys
        invariant forall h :: h in entries ==> entries[h] == old(entries)[h]
        invariant forall h :: h in todo ==> h in entries
        invariant forall h :: h in old(entries) && h !in todo && h in entries ==>
                    !policy.Expired(old(entries)[h], start)
        invariant forall h :: h in old(entries) && h !in entries ==>
                    h in late && policy.Expired(old(entries)[h], clock.now)
        invariant forall h :: h in late ==> h in old(entries) && h !in entries
        decreases todo
      {
        var h :| h in todo;
        var now := clock.Read();
        if now - entries[h].fetched >= policy.ttl + policy.staleGrace {
          entries := entries - {h};
          late := late + {h};
        }
        todo := todo - {h};
      }
      end := clock.now;
      assert entries == Swept(policy, old(entries), start, end, late);
      var now := clock.Read();
      entries := entries[host := CacheEntry(addrs, now)];
    }
  }
}
