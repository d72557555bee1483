/**
 The enforcement pipeline: identity, policy, approval, credential, handler, redaction and audit,
 where each dependency may answer anything or throw. Whatever reaches outside is recorded in a
 log, and every dependency may let its answer depend on the whole log so far, so that it can keep
 state over any number of calls.
 */
module Pipeline {
  import opened Wrappers
  import opened BrokerTypes

  /** What a handler or a redaction hook returns; the pipeline never looks into it. */
  type Payload = string

  datatype Extra = Extra(session: string, overHttp: bool)

  /** A call; computing the fingerprint of its arguments may throw. */
  datatype ToolCall = ToolCall(tool: string, fingerprint: Result<string, string>, extra: Extra)

  datatype CredentialRef = CredentialRef(id: string, scope: Option<seq<string>>)

  datatype Credential = Credential(token: string, expires: bool, scope: Option<seq<string>>)

  datatype Outcome = CallAllowed | CallDenied | ApprovalTimeout | ApprovalDenied | HandlerError

  datatype Warning =
    | FailModeOpen(reason: string)
    | PolicyUnreachable(reason: string)
    | ApprovalWithoutProvider
    | ApprovalRefused(reason: string)
    | CredentialUnresolved(reason: string)
    | StaticSecret

  datatype AuditEvent = AuditEvent(
    req: AccessRequest,
    outcome: Outcome,
    effect: Effect, policyId: string, version: string,
    credentialScope: Option<seq<string>>,
    warnings: seq<Warning>,
    error: Option<string>)

  /** One thing the pipeline does to the world outside it. */
  datatype Act =
    | IdentityCall(extra: Extra)
    | PolicyCall(req: AccessRequest)
    | ApprovalCall(req: AccessRequest, decision: Decision)
    | SecretCall(ref: CredentialRef, decision: Decision)
    | HandlerCall(credential: Option<Credential>)
    | RedactCall(result: Payload, decision: Decision)
    | AuditCall(event: AuditEvent)
    | Warned(message: string)

  type Log = seq<Act>

  datatype Deps = Deps(
    serverName: string,
    failOpen: bool,
    identity: (Log, Extra) -> Result<Subject, string>,
    policy: (Log, AccessRequest) -> Result<Decision, string>,
    approval: Option<(Log, AccessRequest, Decision) -> Result<ApprovalResult, string>>,
    secrets: (Log, CredentialRef, Decision) -> Result<Credential, string>,
    handler: (Log, Option<Credential>) -> Result<Payload, string>,
    redact: Option<(Log, Payload, Decision) -> Result<Payload, string>>,
    sink: (Log, AuditEvent) -> Result<(), string>)

  /** What a run returns, or the exception that leaves it. */
  datatype RunResult = Ok(result: Payload) | Blocked(effect: Effect, reason: string) | Thrown(error: string)

  function RequestOf(deps: Deps, call: ToolCall, subject: Subject): AccessRequest
    requires call.fingerprint.Success?
  {
    AccessRequest(subject, call.tool, Resource(deps.serverName, call.tool), call.fingerprint.value,
                  if call.extra.overHttp then "http" else "stdio")
  }

  function FindCredential(obligations: seq<Obligation>): Option<CredentialRef> {
    if obligations == [] then None
    else if obligations[0].CredentialObligation? then Some(CredentialRef(obligations[0].ref, obligations[0].scope))
    else FindCredential(obligations[1..])
  }

  function ScopeOf(credential: Option<Credential>): Option<seq<string>> {
    if credential.Some? then credential.value.scope else None
  }

  const UNAVAILABLE := "unavailable"

  // ----- a run as a function of the log: what it adds to the log, and its result

  /** The audit attempt that ends a run; a sink that throws is only warned about. */
  function Emitted(deps: Deps, log: Log, event: AuditEvent): Log {
    [AuditCall(event)] + match deps.sink(log, event)
                         case Success(_) => []
                         case Failure(message) => [Warned("audit sink failed: " + message)]
  }

  function Ended(deps: Deps, log: Log, acts: Log, event: AuditEvent, r: RunResult): (Log, RunResult) {
    (acts + Emitted(deps, log + acts, event), r)
  }

  function EventOf(req: AccessRequest, outcome: Outcome, d: Decision, warnings: seq<Warning>): AuditEvent {
    AuditEvent(req, outcome, d.effect, d.policyId, d.version, None, warnings, None)
  }

  function Run(deps: Deps, log: Log, call: ToolCall): (Log, RunResult) {
    match deps.identity(log, call.extra)
    case Failure(error) => ([IdentityCall(call.extra)], Thrown(error))
    case Success(subject) =>
      if call.fingerprint.Failure? then ([IdentityCall(call.extra)], Thrown(call.fingerprint.error))
      else Requested(deps, log, call.extra, RequestOf(deps, call, subject))
  }

  function Requested(deps: Deps, log: Log, extra: Extra, req: AccessRequest): (Log, RunResult) {
    var before := [IdentityCall(extra)];
    var acts := before + [PolicyCall(req)];
    match deps.policy(log + before, req)
    case Success(d) => Decided(deps, log, acts, req, d, [])
    case Failure(reason) =>
      if deps.failOpen then
        Decided(deps, log, acts + [Warned("failMode=open: " + reason)], req,
                Decision(Allow, [], UNAVAILABLE, "0"), [FailModeOpen(reason)])
      else
        var d := Decision(Deny, [], UNAVAILABLE, "0");
        Ended(deps, log, acts, EventOf(req, CallDenied, d, [PolicyUnreachable(reason)]),
              Blocked(Deny, "policy source unreachable"))
  }

  function Decided(deps: Deps, log: Log, acts: Log, req: AccessRequest, d: Decision, warnings: seq<Warning>)
    : (Log, RunResult)
  {
    match d.effect
    case Deny => Ended(deps, log, acts, EventOf(req, CallDenied, d, warnings), Blocked(Deny, "denied by policy"))
    case Allow => Granted(deps, log, acts, req, d, warnings)
    case RequireApproval =>
      match deps.approval
      case None =>
        Ended(deps, log, acts, EventOf(req, ApprovalDenied, d, warnings + [ApprovalWithoutProvider]),
              Blocked(RequireApproval, "approval required but no approval provider is configured"))
      case Some(ask) =>
        var asked := acts + [ApprovalCall(req, d)];
        var (approved, reason) :=
          match ask(log + acts, req, d)
          case Success(a) => (a.approved, a.reason)
          case Failure(message) => (false, Some(message));
        if approved then Granted(deps, log, asked, req, d, warnings)
        else Ended(deps, log, asked, RefusalEvent(req, d, warnings, reason),
                   Blocked(RequireApproval, "approval " + if reason.Some? then reason.value else "not granted"))
  }

  function RefusalEvent(req: AccessRequest, d: Decision, warnings: seq<Warning>, reason: Option<string>): AuditEvent {
    EventOf(req, if reason == Some("timeout") then ApprovalTimeout else ApprovalDenied, d,
            warnings + if reason.Some? && reason.value != "" then [ApprovalRefused(reason.value)] else [])
  }

  function Granted(deps: Deps, log: Log, acts: Log, req: AccessRequest, d: Decision, warnings: seq<Warning>)
    : (Log, RunResult)
  {
    match FindCredential(d.obligations)
    case None => Resolved(deps, log, acts, req, d, warnings, None)
    case Some(ref) =>
      var called := acts + [SecretCall(ref, d)];
      match deps.secrets(log + acts, ref, d)
      case Failure(message) =>
        Ended(deps, log, called, EventOf(req, CallDenied, d, warnings + [CredentialUnresolved(message)]),
              Blocked(Deny, "credential could not be resolved"))
      case Success(c) =>
        Resolved(deps, log, called, req, d, warnings + (if c.expires then [] else [StaticSecret]), Some(c))
  }

  function Resolved(deps: Deps, log: Log, acts: Log, req: AccessRequest, d: Decision, warnings: seq<Warning>,
                    credential: Option<Credential>): (Log, RunResult)
  {
    var called := acts + [HandlerCall(credential)];
    match deps.handler(log + acts, credential)
    case Failure(error) =>
      var event := EventOf(req, HandlerError, d, warnings).(
        credentialScope := ScopeOf(credential), error := if error == "" then None else Some(error));
      Ended(deps, log, called, event, Thrown(error))
    case Success(result) =>
      var event := EventOf(req, CallAllowed, d, warnings).(credentialScope := ScopeOf(credential));
      Answered(deps, log, called, d, event, result)
  }

  function Answered(deps: Deps, log: Log, acts: Log, d: Decision, event: AuditEvent, result: Payload)
    : (Log, RunResult)
  {
    match deps.redact
    case None => Ended(deps, log, acts, event, Ok(result))
    case Some(redact) =>
      var redacting := acts + [RedactCall(result, d)];
      match redact(log + acts, result, d)
      case Failure(error) => (redacting, Thrown(error))
      case Success(redacted) => Ended(deps, log, redacting, event, Ok(redacted))
  }

  // ----- the program

  class Broker {
    const deps: Deps
    var log: Log

    constructor (deps: Deps)
      ensures this.deps == deps && log == []
    {
      this.deps := deps;
      log := [];
    }

    /** `start` is the log before this run and `acts` what the run has added to it. */
    method Emit(event: AuditEvent, ghost start: Log, ghost acts: Log)
      requires log == start + acts
      modifies this
      ensures log == old(log) + Emitted(deps, old(log), event)
      ensures log == start + (acts + Emitted(deps, old(log), event))
    {
      var reply := deps.sink(log, event);
      log := log + [AuditCall(event)];
      if reply.Failure? {
        log := log + [Warned("audit sink failed: " + reply.error)];
      }
    }

    method RunPipeline(call: ToolCall) returns (r: RunResult)
      modifies this
      ensures (log, r) == (old(log) + Run(deps, old(log), call).0, Run(deps, old(log), call).1)
    {
      ghost var start := log;
      var subject := deps.identity(log, call.extra);
      log := log + [IdentityCall(call.extra)];
      if subject.Failure? {
        return Thrown(subject.error);
      }
      if call.fingerprint.Failure? {
        return Thrown(call.fingerprint.error);
      }
      var req := RequestOf(deps, call, subject.value);
      var warnings: seq<Warning> := [];

      // Evaluate the policy; an unreachable source denies unless the broker fails open.
      var decision: Decision;
      var evaluated := deps.policy(log, req);
      log := log + [PolicyCall(req)];
      ghost var acts := [IdentityCall(call.extra)] + [PolicyCall(req)];
      assert log == start + acts;
      if evaluated.Failure? {
        if deps.failOpen {
          log := log + [Warned("failMode=open: " + evaluated.error)];
          acts := acts + [Warned("failMode=open: " + evaluated.error)];
          assert log == start + acts;
          warnings := [FailModeOpen(evaluated.error)];
          decision := Decision(Allow, [], UNAVAILABLE, "0");
        } else {
          warnings := [PolicyUnreachable(evaluated.error)];
          Emit(EventOf(req, CallDenied, Decision(Deny, [], UNAVAILABLE, "0"), warnings), start, acts);
          return Blocked(Deny, "policy source unreachable");
        }
      } else {
        decision := evaluated.value;
      }

      r := Decide(req, decision, warnings, start, acts);
    }

    /** Deny, approval and credential, for a decision that is made. */
    method Decide(req: AccessRequest, decision: Decision, before: seq<Warning>, ghost start: Log, ghost acts: Log)
      returns (r: RunResult)
      requires log == start + acts
      modifies this
      ensures (log, r) == (start + Decided(deps, start, acts, req, decision, before).0,
                           Decided(deps, start, acts, req, decision, before).1)
    {
      var warnings := before;
      ghost var asked := acts;
      if decision.effect == Deny {
        Emit(EventOf(req, CallDenied, decision, warnings), start, acts);
        return Blocked(Deny, "denied by policy");
      }
      if decision.effect == RequireApproval {
        if deps.approval.None? {
          warnings := warnings + [ApprovalWithoutProvider];
          Emit(EventOf(req, ApprovalDenied, decision, warnings), start, acts);
          return Blocked(RequireApproval, "approval required but no approval provider is configured");
        }
        var approved, approvalReason := false, None;
        var reply := deps.approval.value(log, req, decision);
        log := log + [ApprovalCall(req, decision)];
        asked := acts + [ApprovalCall(req, decision)];
        assert log == start + asked;
        match reply {
          case Success(a) => approved, approvalReason := a.approved, a.reason;
          case Failure(message) => approvalReason := Some(message);
        }
        if !approved {
          var outcome := if approvalReason == Some("timeout") then ApprovalTimeout else ApprovalDenied;
          if approvalReason.Some? && approvalReason.value != "" {
            warnings := warnings + [ApprovalRefused(approvalReason.value)];
          }
          assert EventOf(req, outcome, decision, warnings) == RefusalEvent(req, decision, before, approvalReason);
          Emit(EventOf(req, outcome, decision, warnings), start, asked);
          return Blocked(RequireApproval,
                         "approval " + if approvalReason.Some? then approvalReason.value else "not granted");
        }
      }
      r := Invoke(req, decision, warnings, start, asked);
    }

    /** Credential, handler, redaction and the audit of an allowed call. */
    method Invoke(req: AccessRequest, decision: Decision, before: seq<Warning>, ghost start: Log, ghost acts: Log)
      returns (r: RunResult)
      requires log == start + acts
      modifies this
      ensures (log, r) == (start + Granted(deps, start, acts, req, decision, before).0,
                           Granted(deps, start, acts, req, decision, before).1)
    {
      var warnings := before;
      ghost var called := acts;
      var credential: Option<Credential> := None;
      var ref := FindCredential(decision.obligations);
      if ref.Some? {
        var resolved := deps.secrets(log, ref.value, decision);
        log := log + [SecretCall(ref.value, decision)];
        called := acts + [SecretCall(ref.value, decision)];
        assert log == start + called;
        if resolved.Failure? {
          warnings := warnings + [CredentialUnresolved(resolved.error)];
          Emit(EventOf(req, CallDenied, decision, warnings), start, called);
          return Blocked(Deny, "credential could not be resolved");
        }
        credential := Some(resolved.value);
        if !resolved.value.expires {
          warnings := warnings + [StaticSecret];
        }
      }

      assert Granted(deps, start, acts, req, decision, before)
          == Resolved(deps, start, called, req, decision, warnings, credential) by {
        assert before + [] == before;
      }
      var invoked := deps.handler(log, credential);
      log := log + [HandlerCall(credential)];
      called := called + [HandlerCall(credential)];
      assert log == start + called;
      if invoked.Failure? {
        Emit(EventOf(req, HandlerError, decision, warnings).(
          credentialScope := ScopeOf(credential),
          error := if invoked.error == "" then None else Some(invoked.error)), start, called);
        return Thrown(invoked.error);
      }

      var redacted := invoked.value;
      if deps.redact.Some? {
        var reply := deps.redact.value(log, invoked.value, decision);
        log := log + [RedactCall(invoked.value, decision)];
        called := called + [RedactCall(invoked.value, decision)];
        assert log == start + called;
        if reply.Failure? {
          return Thrown(reply.error);
        }
        redacted := reply.value;
      }
      Emit(EventOf(req, CallAllowed, decision, warnings).(credentialScope := ScopeOf(credential)), start, called);
      return Ok(redacted);
    }
  }
}
