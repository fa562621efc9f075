/**
 * The proxy and its resolver cache together.  A request's machine check gets the answer of the lookup
 * that was made for it, while other requests and other lookups go on; nothing else links the two.
 */
module ResolverRuns {
  import opened Wrappers
  import opened RequestFilter
  import opened ProxyInvariant
  import P = ProxyRun
  import D = DnsRuns
  import MachineIdentity

  datatype Both = Both(proxy: P.State, dns: D.World)

  datatype Step = OfProxy(proxy: P.Step) | OfDns(dns: D.Step)

  /** The certificate verified and the client's address is known, so the name is looked up. */
  predicate LooksUp(rq: Request, cert: P.CertResult) {
    rq.machineCert.Readable? && rq.client.Some? && cert.Ok?
  }

  /** The answer is what the lookup under the request's own number returned, for the name in its certificate. */
  predicate Looked(w: D.World, id: P.Id, rq: Request, cert: P.CertResult, answer: Option<MachineIdentity.Answer>) {
    LooksUp(rq, cert) ==>
      && id in w.lookups && w.lookups[id].Answered?
      && w.lookups[id].host == cert.value.hostname && w.lookups[id].answer == answer
  }

  predicate Possible(b: Both, step: P.Step) {
    step.MachineAnswer? && step.id in b.proxy.jobs ==>
      Looked(b.dns, step.id, b.proxy.jobs[step.id].rq, step.cert, step.answer)
  }

  /** One step of either; a machine verdict waits for its lookup. */
  function Apply(cfg: Config, p: MachineIdentity.Policy, b: Both, step: Step): Both {
    match step
    case OfProxy(s) => if Possible(b, s) then b.(proxy := P.Apply(cfg, b.proxy, s)) else b
    case OfDns(s) => b.(dns := D.Apply(p, true, b.dns, s))
  }

  function Run(cfg: Config, p: MachineIdentity.Policy, start: P.Clock, steps: seq<Step>): Both {
    if steps == [] then Both(P.Initial(start), D.START)
    else Apply(cfg, p, Run(cfg, p, start, steps[..|steps| - 1]), steps[|steps| - 1])
  }

  /** The verdict a request carries was reached on its own lookup. */
  ghost predicate JobLooked(w: D.World, id: P.Id, job: P.Job) {
    job.machine.Some? ==> Looked(w, id, job.rq, job.machine.value.0, job.machine.value.1)
  }

  ghost predicate AllLooked(s: P.State, w: D.World) {
    forall id :: id in s.jobs ==> JobLooked(w, id, s.jobs[id])
  }

  /** An answered lookup stays as it is. */
  lemma AnswersStay(p: MachineIdentity.Policy, w: D.World, step: D.Step, id: D.Id)
    requires id in w.lookups && w.lookups[id].Answered?
    ensures var w' := D.Apply(p, true, w, step); id in w'.lookups && w'.lookups[id] == w.lookups[id]
  {
  }

  lemma DnsStepLooked(p: MachineIdentity.Policy, s: P.State, w: D.World, step: D.Step)
    requires AllLooked(s, w)
    ensures AllLooked(s, D.Apply(p, true, w, step))
  {
    var w' := D.Apply(p, true, w, step);
    forall id | id in s.jobs
      ensures JobLooked(w', id, s.jobs[id])
    {
      assert JobLooked(w, id, s.jobs[id]);
      if id in w.lookups && w.lookups[id].Answered? {
        AnswersStay(p, w, step, id);
      }
    }
  }

  lemma ProxyStepLooked(cfg: Config, s: P.State, t: P.State, w: D.World, step: P.Step)
    requires AllLooked(s, w) && Possible(Both(s, w), step) && TouchesOne(cfg, s, t, step)
    ensures AllLooked(t, w)
  {
    forall id | id in t.jobs
      ensures JobLooked(w, id, t.jobs[id])
    {
      if id in s.jobs {
        assert JobLooked(w, id, s.jobs[id]);
      }
    }
  }

  ghost predicate Inv(cfg: Config, p: MachineIdentity.Policy, b: Both) {
    JobsOk(cfg, b.proxy) && D.Sound(p, b.dns) && AllLooked(b.proxy, b.dns)
  }

  lemma StepKeeps(cfg: Config, p: MachineIdentity.Policy, b: Both, step: Step)
    requires Inv(cfg, p, b)
    ensures Inv(cfg, p, Apply(cfg, p, b, step))
  {
    match step
    case OfProxy(s) =>
      if Possible(b, s) {
        StepJobs(cfg, b.proxy, s);
        StepTouchesOne(cfg, b.proxy, s);
        ProxyStepLooked(cfg, b.proxy, P.Apply(cfg, b.proxy, s), b.dns, s);
      }
    case OfDns(s) =>
      D.StepSound(p, b.dns, s);
      DnsStepLooked(p, b.proxy, b.dns, s);
  }

  lemma {:induction false} RunKeeps(cfg: Config, p: MachineIdentity.Policy, start: P.Clock, steps: seq<Step>)
    ensures Inv(cfg, p, Run(cfg, p, start, steps))
  {
    if steps != [] {
      RunKeeps(cfg, p, start, steps[..|steps| - 1]);
      StepKeeps(cfg, p, Run(cfg, p, start, steps[..|steps| - 1]), steps[|steps| - 1]);
    }
  }

  /** The address a request came from is backed by an answer stored for the name its certificate proves. */
  ghost predicate ClientBacked(p: MachineIdentity.Policy, w: D.World, id: P.Id, job: P.Job) {
    && job.machine.Some? && job.machine.value.0.Ok? && job.rq.client.Some?
    && id in w.lookups && w.lookups[id].Answered?
    && var l := w.lookups[id];
       && l.host == job.machine.value.0.value.hostname
       && l.upTo <= |w.stored|
       && D.AddressBacked(p, w, l, job.rq.client.value)
  }

  lemma PassedIsBacked(cfg: Config, p: MachineIdentity.Policy, w: D.World, id: P.Id, job: P.Job)
    requires MachinePassed(cfg, job) && MachineChecked(cfg, job.rq) && JobLooked(w, id, job) && D.Sound(p, w)
    ensures ClientBacked(p, w, id, job)
  {
    var (cert, answer) := job.machine.value;
    assert D.Backed(p, w, w.lookups[id]);
    D.SoundAddress(p, w, w.lookups[id], cert, job.rq.client);
  }

  /**
   * However requests and lookups interleave, a request that has been forwarded, or has spent its
   * nonce, after a machine check came from an address in the last answer stored for the name its
   * certificate proves: one the resolver had just given, or one younger than TTL plus grace.
   */
  lemma ForwardIsBacked(cfg: Config, p: MachineIdentity.Policy, start: P.Clock, steps: seq<Step>, id: P.Id)
    requires var b := Run(cfg, p, start, steps);
             id in b.proxy.jobs && b.proxy.jobs[id].pc.HasCommitted() && MachineChecked(cfg, b.proxy.jobs[id].rq)
    ensures var b := Run(cfg, p, start, steps); ClientBacked(p, b.dns, id, b.proxy.jobs[id])
  {
    RunKeeps(cfg, p, start, steps);
    var b := Run(cfg, p, start, steps);
    assert JobOk(cfg, b.proxy.jobs[id]) && JobLooked(b.dns, id, b.proxy.jobs[id]);
    PassedIsBacked(cfg, p, b.dns, id, b.proxy.jobs[id]);
  }
}
