/** The audit record of one request (proxy/src/audit.rs): its transitions, and what every record satisfies. */
module Audit {
  import opened Wrappers
  import opened CommitWindow
  import opened Text
  import MachineIdentity
  import Timestamps

  // ── The reason table ───────────────────────────────────────────────────────

  datatype Risk = Info | Low | Medium | High | Critical

  datatype Stage =
    | RateLimit
    | AttestationHeaders
    | MachineIdentityStage
    | AttestationToken
    | AttestationBody
    | Upstream
    | Downstream
    | Internal
  {
    predicate IsAttestation() {
      AttestationHeaders? || AttestationToken? || AttestationBody?
    }
  }

  datatype Reason =
    | RateLimited
    | NoAttestationHeaders
    | IncompleteAttestationHeaders
    | MachineCertMissing
    | MachineCertMalformed
    | MachineCertNoCommonName
    | MachineCertUnsafeCommonName
    | MachineHostnameNotAllowed
    | MachineCertExpired
    | MachineCertNotYetValid
    | MachineCertUntrusted
    | MachineHostnameUnresolvable
    | MachineAddressMismatch
    | MachineNoClientAddress
    | TimestampInvalid
    | TimestampOutOfWindow
    | NonceInvalid
    | ReasonNonceReplay
    | TokenMalformed
    | TokenDecryptFailed
    | TokenRequestMismatch
    | BodyTooLarge
    | ReasonBodyHashMismatch
    | BodyReadFailed
    | RequestMalformed
    | UpstreamError
    | DownstreamError
    | InternalError

  function StageOf(r: Reason): Stage {
    match r
    case RateLimited => RateLimit
    case NoAttestationHeaders | IncompleteAttestationHeaders => AttestationHeaders
    case MachineCertMissing | MachineCertMalformed | MachineCertNoCommonName | MachineCertUnsafeCommonName =>
      MachineIdentityStage
    case MachineHostnameNotAllowed | MachineCertExpired | MachineCertNotYetValid | MachineCertUntrusted =>
      MachineIdentityStage
    case MachineHostnameUnresolvable | MachineAddressMismatch | MachineNoClientAddress => MachineIdentityStage
    case TimestampInvalid | TimestampOutOfWindow | NonceInvalid | ReasonNonceReplay => AttestationToken
    case TokenMalformed | TokenDecryptFailed | TokenRequestMismatch => AttestationToken
    case BodyTooLarge | ReasonBodyHashMismatch => AttestationBody
    case BodyReadFailed | RequestMalformed | DownstreamError => Downstream
    case UpstreamError => Upstream
    case InternalError => Internal
  }

  function RiskOf(r: Reason): (risk: Risk)
    ensures risk != Info
  {
    match r
    case NoAttestationHeaders | BodyReadFailed | DownstreamError => Low
    case RateLimited | MachineCertMissing | MachineCertExpired | MachineCertNotYetValid => Medium
    case MachineHostnameUnresolvable | MachineNoClientAddress | TimestampOutOfWindow => Medium
    case BodyTooLarge | UpstreamError | InternalError => Medium
    case TokenRequestMismatch | ReasonBodyHashMismatch => Critical
    case _ => High
  }

  /** `AttestError::reason`: every attestation failure is recorded at an attestation stage. */
  function AttestReason(e: AttestError): (r: Reason)
    ensures StageOf(r).IsAttestation()
  {
    match e
    case BadTimestamp => TimestampInvalid
    case TimestampDrift(_) | CommitTooLate(_) => TimestampOutOfWindow
    case InvalidNonce => NonceInvalid
    case NonceReplay => ReasonNonceReplay
    case InvalidToken => TokenMalformed
    case DecryptFailed => TokenDecryptFailed
    case PlaintextMismatch => TokenRequestMismatch
    case BodyHashMismatch => ReasonBodyHashMismatch
  }

  function MachineReason(e: MachineIdentity.MachineError): (r: Reason)
    ensures StageOf(r) == MachineIdentityStage
    ensures e.ChainVerified() <==> r == MachineAddressMismatch || r == MachineHostnameUnresolvable
  {
    match e
    case Missing => MachineCertMissing
    case NotBase64 | NotDer => MachineCertMalformed
    case UntrustedChain => MachineCertUntrusted
    case CertExpired => MachineCertExpired
    case CertNotYetValid => MachineCertNotYetValid
    case NoCommonName => MachineCertNoCommonName
    case UnsafeCommonName => MachineCertUnsafeCommonName
    case HostnameNotAllowed => MachineHostnameNotAllowed
    case HostnameAddressMismatch => MachineAddressMismatch
    case HostnameUnresolvable => MachineHostnameUnresolvable
    case NoClientAddress => MachineNoClientAddress
  }

  /** A terminal error of the HTTP framework: which side failed, and whether a header was at fault. */
  datatype ProxyError = ProxyError(source: ErrorSource, invalidHeader: bool)
  datatype ErrorSource = FromUpstream | FromDownstream | FromInternal | Unset

  function Classify(e: ProxyError): (r: Reason)
    ensures r == UpstreamError <==> e.source == FromUpstream
    ensures r == RequestMalformed || r == DownstreamError <==> e.source == FromDownstream
    ensures r == RequestMalformed ==> e.invalidHeader
    ensures r == DownstreamError ==> !e.invalidHeader
    ensures r == InternalError <==> e.source == FromInternal || e.source == Unset
  {
    match e.source
    case FromUpstream => UpstreamError
    case FromDownstream => if e.invalidHeader then RequestMalformed else DownstreamError
    case FromInternal | Unset => InternalError
  }

  // ── The record under construction ──────────────────────────────────────────

  datatype Action = Forward | Bypass | Reject | RateLimitAction | Error
  datatype Outcome = Success | Failure
  datatype Level = INFO | WARN
  datatype AttestationStatus = Verified | Failed | Bypassed | Incomplete | NotEvaluated
  datatype MachineStatus = MachineVerified | MachineFailed | Absent | MachineNotEvaluated | Disabled
  datatype Binding = Bound | Unbound

  datatype MachineFields = MachineFields(status: MachineStatus, subjectDn: Option<string>, hostname: Option<string>,
                                         chainVerified: bool)
  datatype AttestationFields = AttestationFields(status: AttestationStatus, nonce: Option<string>,
                                                 clientTimestamp: Option<string>, bodyBinding: Option<Binding>)

  const MAX_DN_CHARS: nat := 1024
  const MAX_HOST_CHARS: nat := 256
  const MAX_METHOD_CHARS: nat := 32
  const MAX_NONCE_CHARS: nat := 64

  const ELLIPSIS: char := '\U{2026}'

  /** Cut to at most `max` characters, with a trailing ellipsis when cut. */
  function Bounded(s: string, max: nat): (r: string)
    ensures |s| <= max ==> r == s
    ensures |s| > max ==> |r| == max + 1 && r[..max] == s[..max] && r[max] == ELLIPSIS
  {
    if |s| <= max then s else s[..max] + [ELLIPSIS]
  }

  function BoundedOption(s: Option<string>, max: nat): Option<string> {
    if s.Some? then Some(Bounded(s.value, max)) else None
  }

  function ClientTimestamp(ts: Option<string>): Option<string> {
    if ts.None? then None
    else
      var secs := ParseI64(Strip(ts.value, (c: char) => c == ' ' || c == '\t'));
      if secs.None? then None else Timestamps.UnixTimestamp(secs.value)
  }

  /** The value of a `RequestAudit`. */
  datatype AuditState = AuditState(
    action: Option<Action>,
    reason: Option<Reason>,
    method_: Option<string>,
    host: Option<string>,
    attestation: AttestationFields,
    tokenVerified: bool,
    machine: MachineFields,
    presentedCert: Option<string>)

  function NewAudit(machineEnabled: bool): AuditState {
    AuditState(None, None, None, None, AttestationFields(NotEvaluated, None, None, None), false,
               MachineFields(if machineEnabled then MachineNotEvaluated else Disabled, None, None, false), None)
  }

  function SawRequest(a: AuditState, method_: string, host: Option<string>): AuditState {
    a.(method_ := Some(Bounded(method_, MAX_METHOD_CHARS)), host := BoundedOption(host, MAX_HOST_CHARS))
  }

  function SawHeaders(a: AuditState, ts: Option<string>, nonce: Option<string>): AuditState {
    a.(attestation :=
       a.attestation.(nonce := BoundedOption(nonce, MAX_NONCE_CHARS), clientTimestamp := ClientTimestamp(ts)))
  }

  function SawMachineCert(a: AuditState, cert: string): AuditState {
    a.(presentedCert := Some(cert))
  }

  function MarkMachineAbsent(a: AuditState): AuditState {
    a.(machine := a.machine.(status := Absent))
  }

  function MarkMachineVerified(a: AuditState, id: MachineIdentity.VerifiedMachine): AuditState {
    a.(machine := MachineFields(MachineVerified, Some(Bounded(id.subjectDn, MAX_DN_CHARS)), Some(id.hostname), true),
       presentedCert := None)
  }

  function MarkTokenVerified(a: AuditState, binding: Binding): AuditState {
    a.(tokenVerified := true, attestation := a.attestation.(bodyBinding := Some(binding)))
  }

  function Rejected(a: AuditState, reason: Reason): AuditState {
    a.(action := Some(if reason == RateLimited then RateLimitAction else Reject),
       reason := Some(reason),
       attestation := a.attestation.(status := if StageOf(reason).IsAttestation() then Failed
                                               else if a.tokenVerified then Incomplete
                                               else NotEvaluated))
  }

  function MachineRejected(a: AuditState, e: MachineIdentity.MachineError): AuditState {
    Rejected(a.(machine := a.machine.(status := MachineFailed, chainVerified := e.ChainVerified())), MachineReason(e))
  }

  function Forwarded(a: AuditState): AuditState {
    a.(action := Some(Forward), attestation := a.attestation.(status := Verified))
  }

  function MarkBypassed(a: AuditState): AuditState {
    a.(action := Some(Bypass), attestation := a.attestation.(status := Bypassed))
  }

  // ── The record ─────────────────────────────────────────────────────────────

  datatype Record = Record(
    level: Level,
    action: Action,
    outcome: Outcome,
    stage: Option<Stage>,
    reason: Option<Reason>,
    risk: Risk,
    method_: Option<string>,
    host: Option<string>,
    attestation: AttestationFields,
    machine: MachineFields)

  function OutcomeOf(a: AuditState, failed: bool): Outcome {
    if !failed && (a.action == Some(Forward) || a.action == Some(Bypass)) then Success else Failure
  }

  function LevelOf(a: AuditState, failed: bool): Level {
    if OutcomeOf(a, failed) == Success then INFO else WARN
  }

  /** A request that ended undecided with no error is reported as an internal one. */
  function EffectiveError(a: AuditState, error: Option<ProxyError>): Option<Reason> {
    if error.Some? then Some(Classify(error.value)) else if a.action.None? then Some(InternalError) else None
  }

  /** `record`: the state once a terminal error is folded in; a refusal keeps its own reason. */
  function Finished(a: AuditState, error: Option<ProxyError>, subject: string -> Option<string>): AuditState {
    var e := EffectiveError(a, error);
    var b := if e.Some? && (a.action.None? || a.action == Some(Forward) || a.action == Some(Bypass))
             then a.(action := Some(if a.action.None? then Error else a.action.value), reason := e)
             else a;
    if b.machine.subjectDn.None? && b.presentedCert.Some?
    then b.(machine := b.machine.(subjectDn := BoundedOption(subject(b.presentedCert.value), MAX_DN_CHARS)),
            presentedCert := None)
    else b
  }

  function RecordOf(a: AuditState, error: Option<ProxyError>, subject: string -> Option<string>): Record {
    var failed := EffectiveError(a, error).Some?;
    var b := Finished(a, error, subject);
    Record(LevelOf(a, failed), if b.action.Some? then b.action.value else Error, OutcomeOf(a, failed),
           if b.reason.Some? then Some(StageOf(b.reason.value)) else None, b.reason,
           if b.reason.Some? then RiskOf(b.reason.value) else Info,
           b.method_, b.host, b.attestation, b.machine)
  }

  // ── What every record satisfies ────────────────────────────────────────────

  /** The states a request can be in, decided or not. */
  ghost predicate Coherent(a: AuditState) {
    && (a.machine.hostname.Some? <==> a.machine.status == MachineVerified)
    && (a.machine.status == MachineVerified ==> a.machine.chainVerified)
    && (a.tokenVerified <==> a.attestation.bodyBinding.Some?)
    && match a.action
       case None =>
         && a.reason == None && a.attestation.status == NotEvaluated
         && a.machine.status != MachineFailed && (a.machine.chainVerified ==> a.machine.status == MachineVerified)
       case Some(Forward) =>
         && a.reason == None && a.attestation.status == Verified && a.tokenVerified
         && a.machine.status != MachineFailed && (a.machine.chainVerified ==> a.machine.status == MachineVerified)
       case Some(Bypass) =>
         && a.reason == None && a.attestation.status == Bypassed && !a.tokenVerified
         && a.machine.status != MachineFailed && (a.machine.chainVerified ==> a.machine.status == MachineVerified)
       case Some(Error) => false
       case Some(_) =>
         && a.reason.Some?
         && (a.action == Some(RateLimitAction) <==> a.reason.value == RateLimited)
         && (a.reason.value == RateLimited ==> !a.tokenVerified)
         && a.attestation.status == (if StageOf(a.reason.value).IsAttestation() then Failed
                                     else if a.tokenVerified then Incomplete
                                     else NotEvaluated)
         && (a.machine.status == MachineFailed <==> StageOf(a.reason.value) == MachineIdentityStage)
         && (a.machine.chainVerified ==>
               a.machine.status == MachineVerified || a.reason.value == MachineAddressMismatch
                 || a.reason.value == MachineHostnameUnresolvable)
  }

  ghost predicate Undecided(a: AuditState) {
    Coherent(a) && a.action.None?
  }

  /** What a consumer of the log may rely on. */
  ghost predicate Consistent(r: Record) {
    && (r.outcome == Success <==> r.reason == None)
    && (r.outcome == Success <==> r.risk == Info)
    && (r.outcome == Success <==> r.level == INFO)
    && (r.outcome == Success ==> r.action == Forward || r.action == Bypass)
    && (r.reason.Some? ==> r.stage == Some(StageOf(r.reason.value)) && r.risk == RiskOf(r.reason.value))
    && (r.attestation.status == Failed <==> r.stage.Some? && r.stage.value.IsAttestation())
    && (r.attestation.status == Verified <==> r.action == Forward)
    && (r.attestation.status == Bypassed <==> r.action == Bypass)
    && (r.attestation.status == Incomplete ==> r.action == Reject && r.attestation.bodyBinding.Some?)
    && (r.action == Forward ==> r.attestation.bodyBinding.Some?)
    && (r.action == RateLimitAction <==> r.reason == Some(RateLimited))
    && (r.machine.hostname.Some? <==> r.machine.status == MachineVerified)
    && (r.machine.status == MachineFailed <==> r.stage == Some(MachineIdentityStage))
    && (r.machine.chainVerified ==>
          r.machine.status == MachineVerified || r.reason == Some(MachineAddressMismatch)
            || r.reason == Some(MachineHostnameUnresolvable))
  }

  /** Refused: decided, and not to let the request through. */
  predicate Refused(a: AuditState) {
    a.action.Some? && a.action != Some(Forward) && a.action != Some(Bypass)
  }

  /** Whatever terminal error arrives, before the decision or after it, or none, the record is consistent. */
  lemma RecordConsistent(a: AuditState, error: Option<ProxyError>, subject: string -> Option<string>)
    requires Coherent(a)
    ensures Consistent(RecordOf(a, error, subject))
    ensures Refused(a) ==>
              RecordOf(a, error, subject).reason == a.reason && RecordOf(a, error, subject).action == a.action.value
    ensures !Refused(a) && error.Some? ==> RecordOf(a, error, subject).reason == Some(Classify(error.value))
    ensures RecordOf(a, error, subject).level == LevelOf(a, error.Some?)
  {
  }

  // Each transition the pipeline makes keeps coherence.

  lemma StartCoherent(machineEnabled: bool, method_: string, host: Option<string>, ts: Option<string>,
                      nonce: Option<string>)
    ensures Undecided(SawHeaders(SawRequest(NewAudit(machineEnabled), method_, host), ts, nonce))
  {
  }

  lemma MachineStepCoherent(a: AuditState, id: MachineIdentity.VerifiedMachine)
    requires Undecided(a)
    ensures Undecided(MarkMachineVerified(a, id))
    ensures a.machine.status != MachineVerified ==> Undecided(MarkMachineAbsent(a))
  {
  }

  lemma RefusalCoherent(a: AuditState, reason: Reason)
    requires Undecided(a) && StageOf(reason) != MachineIdentityStage && (reason == RateLimited ==> !a.tokenVerified)
    ensures Coherent(Rejected(a, reason)) && Refused(Rejected(a, reason))
  {
  }

  lemma MachineRefusalCoherent(a: AuditState, e: MachineIdentity.MachineError)
    requires Undecided(a) && a.machine.status != MachineVerified
    ensures Coherent(MachineRejected(a, e)) && Refused(MachineRejected(a, e))
  {
  }

  lemma LetThroughCoherent(a: AuditState)
    requires Undecided(a)
    ensures if a.tokenVerified then Coherent(Forwarded(a)) else Coherent(MarkBypassed(a))
  {
  }

  // ── The mutable record ─────────────────────────────────────────────────────

  class RequestAudit {
    var action: Option<Action>
    var reason: Option<Reason>
    var method_: Option<string>
    var host: Option<string>
    var attestation: AttestationFields
    var tokenVerified: bool
    var machine: MachineFields
    var presentedCert: Option<string>

    function State(): AuditState
      reads this
    {
      AuditState(action, reason, method_, host, attestation, tokenVerified, machine, presentedCert)
    }

    constructor (machineEnabled: bool)
      ensures State() == NewAudit(machineEnabled)
    {
      action, reason, method_, host := None, None, None, None;
      attestation := AttestationFields(NotEvaluated, None, None, None);
      tokenVerified := false;
      machine := MachineFields(if machineEnabled then MachineNotEvaluated else Disabled, None, None, false);
      presentedCert := None;
    }

    method Request(method_: string, host: Option<string>)
      modifies this
      ensures State() == SawRequest(old(State()), method_, host)
    {
      this.method_ := Some(Bounded(method_, MAX_METHOD_CHARS));
      this.host := BoundedOption(host, MAX_HOST_CHARS);
    }

    method Headers(ts: Option<string>, nonce: Option<string>)
      modifies this
      ensures State() == SawHeaders(old(State()), ts, nonce)
    {
      attestation := attestation.(nonce := BoundedOption(nonce, MAX_NONCE_CHARS));
      attestation := attestation.(clientTimestamp := ClientTimestamp(ts));
    }

    method MachineCertPresented(cert: string)
      modifies this
      ensures State() == SawMachineCert(old(State()), cert)
    {
      presentedCert := Some(cert);
    }

    method MachineIsAbsent()
      modifies this
      ensures State() == MarkMachineAbsent(old(State()))
    {
      machine := machine.(status := Absent);
    }

    method MachineIsVerified(id: MachineIdentity.VerifiedMachine)
      modifies this
      ensures State() == MarkMachineVerified(old(State()), id)
    {
      machine := MachineFields(MachineVerified, Some(Bounded(id.subjectDn, MAX_DN_CHARS)), Some(id.hostname), true);
      presentedCert := None;
    }

    method RejectMachine(e: MachineIdentity.MachineError)
      modifies this
      ensures State() == MachineRejected(old(State()), e)
    {
      machine := machine.(status := MachineFailed);
      machine := machine.(chainVerified := e.ChainVerified());
      RejectWith(MachineReason(e));
    }

    method TokenIsVerified(binding: Binding)
      modifies this
      ensures State() == MarkTokenVerified(old(State()), binding)
    {
      tokenVerified := true;
      attestation := attestation.(bodyBinding := Some(binding));
    }

    method RejectWith(reason: Reason)
      modifies this
      ensures State() == Rejected(old(State()), reason)
    {
      action := Some(if reason == RateLimited then RateLimitAction else Reject);
      this.reason := Some(reason);
      var status := if StageOf(reason).IsAttestation() then Failed else if tokenVerified then Incomplete
        else NotEvaluated;
      attestation := attestation.(status := status);
    }

    method ForwardRequest()
      modifies this
      ensures State() == Forwarded(old(State()))
    {
      action := Some(Forward);
      attestation := attestation.(status := Verified);
    }

    method BypassRequest()
      modifies this
      ensures State() == MarkBypassed(old(State()))
    {
      action := Some(Bypass);
      attestation := attestation.(status := Bypassed);
    }

    /** Builds the record; `method` and `host` are taken out of the state. */
    method MakeRecord(error: Option<ProxyError>, subject: string -> Option<string>) returns (r: Record)
      modifies this
      ensures r == RecordOf(old(State()), error, subject)
      ensures State() == Finished(old(State()), error, subject).(method_ := None, host := None)
    {
      var e := if error.Some? then Some(Classify(error.value)) else None;
      if action.None? && e.None? {
        e := Some(InternalError);
      }
      var succeeded := e.None? && (action == Some(Forward) || action == Some(Bypass));
      if e.Some? && (action.None? || action == Some(Forward) || action == Some(Bypass)) {
        if action.None? {
          action := Some(Error);
        }
        reason := e;
      }
      if machine.subjectDn.None? && presentedCert.Some? {
        machine := machine.(subjectDn := BoundedOption(subject(presentedCert.value), MAX_DN_CHARS));
        presentedCert := None;
      }
      r := Record(if succeeded then INFO else WARN, action.value, if succeeded then Success else Failure,
                  if reason.Some? then Some(StageOf(reason.value)) else None, reason,
                  if reason.Some? then RiskOf(reason.value) else Info,
                  method_, host, attestation, machine);
      method_, host := None, None;
    }
  }
}
