/** What holds of every run of the enforcement pipeline, whatever its dependencies do. */
module PipelineLaws {
  import opened Wrappers
  import opened Text
  import opened BrokerTypes
  import opened Pipeline

  // ----- order

  /** The stage an act belongs to; warnings belong to none. */
  function Stage(act: Act): nat {
    match act
    case Warned(_) => 0
    case IdentityCall(_) => 1
    case PolicyCall(_) => 2
    case ApprovalCall(_, _) => 3
    case SecretCall(_, _) => 4
    case HandlerCall(_) => 5
    case RedactCall(_, _) => 6
    case AuditCall(_) => 7
  }

  /** Every stage comes at most once, and after the stages before it. */
  predicate Staged(acts: Log) {
    forall i, j | 0 <= i < j < |acts| :: Stage(acts[j]) > 0 ==> Stage(acts[i]) < Stage(acts[j])
  }

  predicate Below(acts: Log, stage: nat) {
    forall i | 0 <= i < |acts| :: Stage(acts[i]) < stage
  }

  function Audits(acts: Log): seq<AuditEvent> {
    if acts == [] then []
    else
      var last := acts[|acts| - 1];
      Audits(acts[..|acts| - 1]) + if last.AuditCall? then [last.event] else []
  }

  lemma {:induction false} AuditsAppend(a: Log, b: Log)
    ensures Audits(a + b) == Audits(a) + Audits(b)
    decreases |b|
  {
    if b == [] {
      assert a + b == a;
    } else {
      assert (a + b)[..|a + b| - 1] == a + b[..|b| - 1];
      AuditsAppend(a, b[..|b| - 1]);
    }
  }

  lemma {:induction false} NoAudits(acts: Log)
    requires Below(acts, 7)
    ensures Audits(acts) == []
    decreases |acts|
  {
    if acts != [] {
      NoAudits(acts[..|acts| - 1]);
    }
  }

  /** An audit event that tells what the caller of the run saw. */
  predicate Tells(e: AuditEvent, r: RunResult) {
    match r
    case Ok(_) => e.outcome == CallAllowed
    case Thrown(error) => e.outcome == HandlerError && e.error == if error == "" then None else Some(error)
    case Blocked(effect, reason) =>
      match effect
      case Allow => false
      case Deny => e.outcome == CallDenied
      case RequireApproval => e.outcome == if reason == "approval timeout" then ApprovalTimeout else ApprovalDenied
  }

  // ----- what a run is made of

  /** The decision a run works with: the policy's, or what stands in for one that cannot be reached. */
  function DecisionMade(deps: Deps, log: Log, req: AccessRequest): Decision {
    match deps.policy(log, req)
    case Success(d) => d
    case Failure(_) => Decision(if deps.failOpen then Allow else Deny, [], UNAVAILABLE, "0")
  }

  /** Asked about this decision, the owner says yes. */
  predicate SaysYes(deps: Deps, log: Log, req: AccessRequest, d: Decision) {
    deps.approval.Some? && var reply := deps.approval.value(log, req, d); reply.Success? && reply.value.approved
  }

  /** The credential the decision names was resolved to this one; no name, no credential. */
  predicate CredentialIs(deps: Deps, log: Log, acts: Log, d: Decision, c: Option<Credential>) {
    match FindCredential(d.obligations)
    case None => c == None
    case Some(ref) =>
      c.Some? && exists k | 0 <= k < |acts| ::
        acts[k] == SecretCall(ref, d) && deps.secrets(log + acts[..k], ref, d) == Success(c.value)
  }

  /** Act number `k` calls the handler with this credential. */
  predicate HandlerAt(acts: Log, k: nat, c: Option<Credential>) {
    k < |acts| && acts[k] == HandlerCall(c)
  }

  predicate HandlerCalled(acts: Log) {
    exists k | 0 <= k < |acts| :: acts[k].HandlerCall?
  }

  // ----- what a run comes to, by its dependencies' answers alone

  /** The decision lets the handler be called: it allows, or the owner, asked, says yes. */
  predicate Permits(deps: Deps, log: Log, req: AccessRequest, d: Decision) {
    d.effect == Allow || (d.effect == RequireApproval && SaysYes(deps, log, req, d))
  }

  /** What is on the log when the credential is looked for. */
  function AfterApproval(log: Log, req: AccessRequest, d: Decision): Log {
    if d.effect == RequireApproval then log + [ApprovalCall(req, d)] else log
  }

  /** The credential the decision names can be resolved from here. */
  predicate CredentialResolves(deps: Deps, log: Log, d: Decision) {
    match FindCredential(d.obligations)
    case None => true
    case Some(ref) => deps.secrets(log, ref, d).Success?
  }

  function CredentialGot(deps: Deps, log: Log, d: Decision): Option<Credential>
    requires CredentialResolves(deps, log, d)
  {
    match FindCredential(d.obligations)
    case None => None
    case Some(ref) => Some(deps.secrets(log, ref, d).value)
  }

  /** What is on the log when the handler is called. */
  function AfterCredential(log: Log, d: Decision): Log {
    match FindCredential(d.obligations)
    case None => log
    case Some(ref) => log + [SecretCall(ref, d)]
  }

  /** The handler returns and the redaction hook throws on what it returned. */
  predicate RedactionThrows(deps: Deps, log: Log, c: Option<Credential>, d: Decision) {
    var reply := deps.handler(log, c);
    reply.Success? && HookThrows(deps, log + [HandlerCall(c)], reply.value, d)
  }

  predicate HookThrows(deps: Deps, log: Log, result: Payload, d: Decision) {
    deps.redact.Some? && deps.redact.value(log, result, d).Failure?
  }

  /** From a granted decision on: the credential is resolved and redaction throws. */
  predicate GrantedThenThrows(deps: Deps, log: Log, d: Decision) {
    CredentialResolves(deps, log, d)
    && RedactionThrows(deps, AfterCredential(log, d), CredentialGot(deps, log, d), d)
  }

  /** From a decision on: it lets the handler be called and redaction throws. */
  predicate DecidedThenThrows(deps: Deps, log: Log, req: AccessRequest, d: Decision) {
    Permits(deps, log, req, d) && GrantedThenThrows(deps, AfterApproval(log, req, d), d)
  }

  // ----- ends

  lemma EndedLaws(deps: Deps, log: Log, acts: Log, event: AuditEvent, r: RunResult)
    requires Staged(acts) && Below(acts, 7)
    ensures var all := Ended(deps, log, acts, event, r).0;
      && acts <= all && Staged(all) && Audits(all) == [event]
      && forall k | |acts| <= k < |all| :: all[k].AuditCall? || all[k].Warned?
  {
    var tail := Emitted(deps, log + acts, event);
    NoAudits(acts);
    AuditsAppend(acts, tail);
    var warnings := tail[1..];
    assert tail == [AuditCall(event)] + warnings && Below(warnings, 1);
    OneAudit(event, warnings);
    AuditIsLast(acts, event, warnings);
  }

  lemma AuditIsLast(acts: Log, event: AuditEvent, warnings: Log)
    requires Staged(acts) && Below(acts, 7) && Below(warnings, 1)
    ensures Staged(acts + ([AuditCall(event)] + warnings))
  {
  }

  lemma OneAudit(event: AuditEvent, rest: Log)
    requires Below(rest, 7)
    ensures Audits([AuditCall(event)] + rest) == [event]
  {
    assert [AuditCall(event)][..0] == [];
    AuditsAppend([AuditCall(event)], rest);
    NoAudits(rest);
  }

  /** An event for this decision and request. */
  predicate About(e: AuditEvent, req: AccessRequest, d: Decision) {
    e.req == req && e.effect == d.effect && e.policyId == d.policyId && e.version == d.version
  }

  /** All that the laws say of the end of a run; `cut` is whether an exception leaves it unaudited. */
  predicate Lawful(req: AccessRequest, d: Decision, all: Log, r: RunResult, cut: bool) {
    && Staged(all)
    && (if cut then Audits(all) == [] && r.Thrown?
        else |Audits(all)| == 1 && Tells(Audits(all)[0], r) && About(Audits(all)[0], req, d))
  }

  lemma EndedIsLawful(deps: Deps, log: Log, acts: Log, req: AccessRequest, d: Decision, event: AuditEvent, r: RunResult)
    requires Staged(acts) && Below(acts, 7) && Tells(event, r) && About(event, req, d)
    ensures var all := Ended(deps, log, acts, event, r).0;
      && Lawful(req, d, all, r, false) && acts <= all
      && forall k | |acts| <= k < |all| :: all[k].AuditCall? || all[k].Warned?
  {
    EndedLaws(deps, log, acts, event, r);
  }

  lemma AnsweredIsLawful(
      deps: Deps, log: Log, acts: Log, req: AccessRequest, d: Decision, event: AuditEvent, result: Payload)
    requires Staged(acts) && Below(acts, 6) && event.outcome == CallAllowed && About(event, req, d)
    ensures var (all, r) := Answered(deps, log, acts, d, event, result);
      Lawful(req, d, all, r, HookThrows(deps, log + acts, result, d)) && acts <= all
  {
    if deps.redact.Some? {
      var redacting := acts + [RedactCall(result, d)];
      var redacted := deps.redact.value(log + acts, result, d);
      NoAudits(redacting);
      if redacted.Success? {
        EndedIsLawful(deps, log, redacting, req, d, event, Ok(redacted.value));
      }
    } else {
      EndedIsLawful(deps, log, acts, req, d, event, Ok(result));
    }
  }

  lemma ResolvedIsLawful(deps: Deps, log: Log, acts: Log, req: AccessRequest, d: Decision, warnings: seq<Warning>,
                         c: Option<Credential>)
    requires Staged(acts) && Below(acts, 5)
    ensures var (all, r) := Resolved(deps, log, acts, req, d, warnings, c);
      && Lawful(req, d, all, r, RedactionThrows(deps, log + acts, c, d))
      && acts <= all && HandlerAt(all, |acts|, c)
  {
    var called := acts + [HandlerCall(c)];
    var reply := deps.handler(log + acts, c);
    ConcatAssoc(log, acts, [HandlerCall(c)]);
    if reply.Success? {
      var event := EventOf(req, CallAllowed, d, warnings).(credentialScope := ScopeOf(c));
      AnsweredIsLawful(deps, log, called, req, d, event, reply.value);
    } else {
      var event := EventOf(req, HandlerError, d, warnings).(
        credentialScope := ScopeOf(c), error := if reply.error == "" then None else Some(reply.error));
      EndedIsLawful(deps, log, called, req, d, event, Thrown(reply.error));
    }
  }

  /** Where the handler is called, it is called with the credential the decision names. */
  ghost predicate HandlerGetsCredential(deps: Deps, log: Log, all: Log, d: Decision) {
    forall k: nat, c | HandlerAt(all, k, c) :: CredentialIs(deps, log, all[..k], d, c)
  }

  lemma ResolvedGetsCredential(deps: Deps, log: Log, acts: Log, req: AccessRequest, d: Decision, warnings: seq<Warning>,
                               c: Option<Credential>)
    requires Staged(acts) && Below(acts, 5) && CredentialIs(deps, log, acts, d, c)
    ensures var (all, r) := Resolved(deps, log, acts, req, d, warnings, c);
      && Lawful(req, d, all, r, RedactionThrows(deps, log + acts, c, d))
      && acts <= all && HandlerCalled(all) && HandlerGetsCredential(deps, log, all, d)
  {
    ResolvedIsLawful(deps, log, acts, req, d, warnings, c);
    var all := Resolved(deps, log, acts, req, d, warnings, c).0;
    OneHandler(all, |acts|, c);
    assert all[..|acts|] == acts;
    assert all[|acts|].HandlerCall?;
  }

  lemma CredentialFound(deps: Deps, log: Log, acts: Log, ref: CredentialRef, d: Decision, c: Credential)
    requires FindCredential(d.obligations) == Some(ref) && deps.secrets(log + acts, ref, d) == Success(c)
    ensures CredentialIs(deps, log, acts + [SecretCall(ref, d)], d, Some(c))
  {
    var called := acts + [SecretCall(ref, d)];
    assert called[..|acts|] == acts && called[|acts|] == SecretCall(ref, d);
  }

  lemma SecretIsLawful(deps: Deps, log: Log, acts: Log, req: AccessRequest, d: Decision, warnings: seq<Warning>,
                       ref: CredentialRef)
    requires Staged(acts) && Below(acts, 4) && FindCredential(d.obligations) == Some(ref)
    ensures var (all, r) := Granted(deps, log, acts, req, d, warnings);
      && Lawful(req, d, all, r, GrantedThenThrows(deps, log + acts, d)) && acts <= all
      && HandlerGetsCredential(deps, log, all, d)
      && (HandlerCalled(all) <==> deps.secrets(log + acts, ref, d).Success?)
  {
    var called := acts + [SecretCall(ref, d)];
    var reply := deps.secrets(log + acts, ref, d);
    ConcatAssoc(log, acts, [SecretCall(ref, d)]);
    if reply.Success? {
      var c := reply.value;
      CredentialFound(deps, log, acts, ref, d, c);
      ResolvedGetsCredential(deps, log, called, req, d, warnings + (if c.expires then [] else [StaticSecret]), Some(c));
    } else {
      var event := EventOf(req, CallDenied, d, warnings + [CredentialUnresolved(reply.error)]);
      RefusedIsLawful(deps, log, called, req, d, event, Blocked(Deny, "credential could not be resolved"));
    }
  }

  lemma GrantedIsLawful(deps: Deps, log: Log, acts: Log, req: AccessRequest, d: Decision, warnings: seq<Warning>)
    requires Staged(acts) && Below(acts, 4)
    ensures var (all, r) := Granted(deps, log, acts, req, d, warnings);
      && Lawful(req, d, all, r, GrantedThenThrows(deps, log + acts, d)) && acts <= all
      && HandlerGetsCredential(deps, log, all, d)
      && (HandlerCalled(all) <==> CredentialResolves(deps, log + acts, d))
  {
    match FindCredential(d.obligations)
    case None =>
      ResolvedGetsCredential(deps, log, acts, req, d, warnings, None);
    case Some(ref) =>
      SecretIsLawful(deps, log, acts, req, d, warnings, ref);
  }

  lemma OneHandler(all: Log, k: nat, c: Option<Credential>)
    requires Staged(all) && HandlerAt(all, k, c)
    ensures forall j: nat, b :: HandlerAt(all, j, b) ==> j == k && b == c
  {
  }

  /** A run that ends before the handler with an audited refusal. */
  lemma RefusedIsLawful(
      deps: Deps, log: Log, acts: Log, req: AccessRequest, d: Decision, event: AuditEvent, r: RunResult)
    requires Staged(acts) && Below(acts, 5) && Tells(event, r) && About(event, req, d)
    ensures var all := Ended(deps, log, acts, event, r).0;
      && Lawful(req, d, all, r, false) && acts <= all && !HandlerCalled(all)
      && HandlerGetsCredential(deps, log, all, d)
  {
    EndedIsLawful(deps, log, acts, req, d, event, r);
    var all := Ended(deps, log, acts, event, r).0;
    assert forall k | 0 <= k < |acts| :: all[k] == acts[k];
    assert forall k: nat, c :: HandlerAt(all, k, c) ==> all[k].HandlerCall?;
  }

  lemma RefusalTells(req: AccessRequest, d: Decision, warnings: seq<Warning>, reason: Option<string>)
    ensures Tells(RefusalEvent(req, d, warnings, reason),
                  Blocked(RequireApproval, "approval " + if reason.Some? then reason.value else "not granted"))
  {
    var text := if reason.Some? then reason.value else "not granted";
    assert ("approval " + text)[9..] == text;
    assert "approval timeout" == "approval " + "timeout";
  }

  lemma DecidedIsLawful(deps: Deps, log: Log, acts: Log, req: AccessRequest, d: Decision, warnings: seq<Warning>)
    requires Staged(acts) && Below(acts, 3)
    ensures var (all, r) := Decided(deps, log, acts, req, d, warnings);
      && Lawful(req, d, all, r, DecidedThenThrows(deps, log + acts, req, d)) && acts <= all
      && HandlerGetsCredential(deps, log, all, d)
      && (HandlerCalled(all) <==>
            Permits(deps, log + acts, req, d) && CredentialResolves(deps, AfterApproval(log + acts, req, d), d))
  {
    match d.effect
    case Deny =>
      RefusedIsLawful(deps, log, acts, req, d, EventOf(req, CallDenied, d, warnings),
                      Blocked(Deny, "denied by policy"));
    case Allow =>
      GrantedIsLawful(deps, log, acts, req, d, warnings);
    case RequireApproval =>
      ApprovalIsLawful(deps, log, acts, req, d, warnings);
  }

  lemma ApprovalIsLawful(deps: Deps, log: Log, acts: Log, req: AccessRequest, d: Decision, warnings: seq<Warning>)
    requires Staged(acts) && Below(acts, 3) && d.effect == RequireApproval
    ensures var (all, r) := Decided(deps, log, acts, req, d, warnings);
      var asked := log + acts + [ApprovalCall(req, d)];
      && Lawful(req, d, all, r, SaysYes(deps, log + acts, req, d) && GrantedThenThrows(deps, asked, d)) && acts <= all
      && HandlerGetsCredential(deps, log, all, d)
      && (HandlerCalled(all) <==> SaysYes(deps, log + acts, req, d) && CredentialResolves(deps, asked, d))
  {
    if deps.approval.None? {
      var event := EventOf(req, ApprovalDenied, d, warnings + [ApprovalWithoutProvider]);
      assert "approval timeout"[9] == 't';
      RefusedIsLawful(deps, log, acts, req, d, event,
                      Blocked(RequireApproval, "approval required but no approval provider is configured"));
    } else {
      var asked := acts + [ApprovalCall(req, d)];
      ConcatAssoc(log, acts, [ApprovalCall(req, d)]);
      var reply := deps.approval.value(log + acts, req, d);
      if SaysYes(deps, log + acts, req, d) {
        GrantedIsLawful(deps, log, asked, req, d, warnings);
      } else {
        var reason := if reply.Success? then reply.value.reason else Some(reply.error);
        RefusalTells(req, d, warnings, reason);
        RefusedIsLawful(deps, log, asked, req, d, RefusalEvent(req, d, warnings, reason),
                        Blocked(RequireApproval, "approval " + if reason.Some? then reason.value else "not granted"));
      }
    }
  }

  // ----- the laws of a run

  /** What is on the log when the decision is acted on. */
  function AfterPolicy(deps: Deps, log: Log, extra: Extra, req: AccessRequest): Log {
    var before := log + [IdentityCall(extra)];
    match deps.policy(before, req)
    case Success(_) => before + [PolicyCall(req)]
    case Failure(reason) =>
      before + [PolicyCall(req)] + if deps.failOpen then [Warned("failMode=open: " + reason)] else []
  }

  /** The identity is resolved and the fingerprint computed, so that there is a request to judge. */
  predicate IsRequest(deps: Deps, log: Log, call: ToolCall) {
    deps.identity(log, call.extra).Success? && call.fingerprint.Success?
  }

  function RequestMade(deps: Deps, log: Log, call: ToolCall): AccessRequest
    requires IsRequest(deps, log, call)
  {
    RequestOf(deps, call, deps.identity(log, call.extra).value)
  }

  /**
   The exceptions that no stage catches, told by what the dependencies answer: the identity or the
   fingerprint throws, or the handler is let through, returns, and the redaction hook throws.
   */
  predicate CutShort(deps: Deps, log: Log, call: ToolCall) {
    if !IsRequest(deps, log, call) then true
    else
      var req := RequestMade(deps, log, call);
      DecidedThenThrows(deps, AfterPolicy(deps, log, call.extra, req), req,
                        DecisionMade(deps, log + [IdentityCall(call.extra)], req))
  }

  lemma RunIsLawful(deps: Deps, log: Log, call: ToolCall)
    requires IsRequest(deps, log, call)
    ensures var (all, r) := Run(deps, log, call);
      var req := RequestMade(deps, log, call);
      var d := DecisionMade(deps, log + [IdentityCall(call.extra)], req);
      var ready := AfterPolicy(deps, log, call.extra, req);
      && Lawful(req, d, all, r, DecidedThenThrows(deps, ready, req, d)) && HandlerGetsCredential(deps, log, all, d)
      && (HandlerCalled(all) <==>
            Permits(deps, ready, req, d) && CredentialResolves(deps, AfterApproval(ready, req, d), d))
  {
    RequestedIsLawful(deps, log, call.extra, RequestMade(deps, log, call));
  }

  lemma RequestedIsLawful(deps: Deps, log: Log, extra: Extra, req: AccessRequest)
    ensures var (all, r) := Requested(deps, log, extra, req);
      var d := DecisionMade(deps, log + [IdentityCall(extra)], req);
      var ready := AfterPolicy(deps, log, extra, req);
      && Lawful(req, d, all, r, DecidedThenThrows(deps, ready, req, d)) && HandlerGetsCredential(deps, log, all, d)
      && (HandlerCalled(all) <==>
            Permits(deps, ready, req, d) && CredentialResolves(deps, AfterApproval(ready, req, d), d))
  {
    var before := [IdentityCall(extra)];
    var acts := before + [PolicyCall(req)];
    var d := DecisionMade(deps, log + before, req);
    ConcatAssoc(log, before, [PolicyCall(req)]);
    match deps.policy(log + before, req)
    case Success(_) =>
      DecidedIsLawful(deps, log, acts, req, d, []);
    case Failure(reason) =>
      if deps.failOpen {
        var warning := [Warned("failMode=open: " + reason)];
        ConcatAssoc(log, acts, warning);
        DecidedIsLawful(deps, log, acts + warning, req, d, [FailModeOpen(reason)]);
      } else {
        assert d.effect == Deny;
        RefusedIsLawful(deps, log, acts, req, d, EventOf(req, CallDenied, d, [PolicyUnreachable(reason)]),
                        Blocked(Deny, "policy source unreachable"));
      }
  }

  /**
   A run attempts exactly one audit, which tells what the caller saw, exactly when it is not cut
   short by an exception that no stage catches; if it is, there is no audit and the exception leaves
   the run.
   */
  lemma AuditedOnce(deps: Deps, log: Log, call: ToolCall)
    ensures var (all, r) := Run(deps, log, call);
      && (|Audits(all)| == 1 <==> !CutShort(deps, log, call))
      && (if CutShort(deps, log, call) then Audits(all) == [] && r.Thrown? else Tells(Audits(all)[0], r))
  {
    if IsRequest(deps, log, call) {
      RunIsLawful(deps, log, call);
    } else {
      NoAudits([IdentityCall(call.extra)]);
    }
  }

  /** A hook that throws on what a handler returned leaves a call that was made and not audited. */
  lemma ThrowingHookIsNotAudited(deps: Deps, log: Log, call: ToolCall)
    requires IsRequest(deps, log, call) && CutShort(deps, log, call)
    ensures var (all, r) := Run(deps, log, call); HandlerCalled(all) && r.Thrown? && Audits(all) == []
  {
    RunIsLawful(deps, log, call);
  }

  /** A broker that allows every call and whose redaction hook always throws. */
  function ThrowingBroker(s: string, allowed: Decision): Deps {
    Deps(s, false,
         (log, extra) => Success(Subject(s, s)),
         (log, req) => Success(allowed),
         None,
         (log, ref, d) => Failure(s),
         (log, c) => Success(s),
         Some((log, result, d) => Failure(s)),
         (log, event) => Success(()))
  }

  /** There is such a call. */
  lemma UnauditedCallExists()
    ensures exists deps, call ::
      var (all, r) := Run(deps, [], call); HandlerCalled(all) && r.Thrown? && Audits(all) == []
  {
    var allowed := Decision(Allow, [], [], []);
    var deps := ThrowingBroker([], allowed);
    var call := ToolCall([], Success([]), Extra([], false));
    AllowedThenThrows(deps, call, allowed);
    ThrowingHookIsNotAudited(deps, [], call);
  }

  lemma AllowedThenThrows(deps: Deps, call: ToolCall, d: Decision)
    requires IsRequest(deps, [], call) && d.effect == Allow && FindCredential(d.obligations) == None
    requires forall log, req :: deps.policy(log, req) == Success(d)
    requires forall log, c :: deps.handler(log, c).Success?
    requires deps.redact.Some? && forall log, result :: deps.redact.value(log, result, d).Failure?
    ensures CutShort(deps, [], call)
  {
  }

  // ----- what the audit event tells of the run

  predicate FailsOpen(warnings: seq<Warning>) {
    exists i | 0 <= i < |warnings| :: warnings[i].FailModeOpen?
  }

  predicate HandlerOutcome(e: AuditEvent) {
    e.outcome == CallAllowed || e.outcome == HandlerError
  }

  /**
   The event is marked when the broker let a call through that no policy judged, it has the outcome
   of a handler exactly when the handler was called, and it tells what credential the handler got.
   */
  ghost predicate Marks(e: AuditEvent, acts: Log, open: bool) {
    && (FailsOpen(e.warnings) <==> open)
    && (HandlerOutcome(e) <==> HandlerCalled(acts))
    && (forall k: nat, c | HandlerAt(acts, k, c) ::
          e.credentialScope == ScopeOf(c) && (StaticSecret in e.warnings <==> c.Some? && !c.value.expires))
    && (!HandlerCalled(acts) ==> e.credentialScope == None && StaticSecret !in e.warnings)
  }

  lemma EndMarks(deps: Deps, log: Log, acts: Log, event: AuditEvent, r: RunResult, open: bool)
    requires Staged(acts) && Below(acts, 7) && Marks(event, acts, open)
    ensures var all := Ended(deps, log, acts, event, r).0; forall e | e in Audits(all) :: Marks(e, all, open)
  {
    EndedLaws(deps, log, acts, event, r);
    var all := Ended(deps, log, acts, event, r).0;
    assert forall k | 0 <= k < |acts| :: all[k] == acts[k];
    assert HandlerCalled(acts) ==> HandlerCalled(all);
    assert forall k: nat, c :: HandlerAt(all, k, c) <==> HandlerAt(acts, k, c);
  }

  lemma ResolvedMarks(deps: Deps, log: Log, acts: Log, req: AccessRequest, d: Decision, warnings: seq<Warning>,
                      c: Option<Credential>)
    requires Staged(acts) && Below(acts, 5) && (StaticSecret in warnings <==> c.Some? && !c.value.expires)
    ensures var all := Resolved(deps, log, acts, req, d, warnings, c).0;
      forall e | e in Audits(all) :: Marks(e, all, FailsOpen(warnings))
  {
    var called := acts + [HandlerCall(c)];
    var reply := deps.handler(log + acts, c);
    CalledWith(acts, c);
    var event := EventOf(req, if reply.Success? then CallAllowed else HandlerError, d, warnings).(
      credentialScope := ScopeOf(c), error := if reply.Success? || reply.error == "" then None else Some(reply.error));
    assert Marks(event, called, FailsOpen(warnings));
    if reply.Failure? {
      EndMarks(deps, log, called, event, Thrown(reply.error), FailsOpen(warnings));
    } else if deps.redact.None? {
      EndMarks(deps, log, called, event, Ok(reply.value), FailsOpen(warnings));
    } else {
      RedactedMarks(deps, log, called, d, event, reply.value, FailsOpen(warnings));
    }
  }

  lemma CalledWith(acts: Log, c: Option<Credential>)
    requires Below(acts, 5)
    ensures var called := acts + [HandlerCall(c)];
      HandlerCalled(called) && forall k: nat, b :: HandlerAt(called, k, b) <==> k == |acts| && b == c
  {
    assert (acts + [HandlerCall(c)])[|acts|].HandlerCall?;
  }

  lemma RedactedMarks(deps: Deps, log: Log, acts: Log, d: Decision, event: AuditEvent, result: Payload, open: bool)
    requires Staged(acts) && Below(acts, 6) && deps.redact.Some? && Marks(event, acts, open) && HandlerCalled(acts)
    ensures var all := Answered(deps, log, acts, d, event, result).0;
      forall e | e in Audits(all) :: Marks(e, all, open)
  {
    var redacting := acts + [RedactCall(result, d)];
    var reply := deps.redact.value(log + acts, result, d);
    assert forall k | 0 <= k < |acts| :: redacting[k] == acts[k];
    assert HandlerCalled(redacting);
    assert forall k: nat, c :: HandlerAt(redacting, k, c) <==> HandlerAt(acts, k, c);
    if reply.Failure? {
      NoAudits(redacting);
    } else {
      EndMarks(deps, log, redacting, event, Ok(reply.value), open);
    }
  }

  /** A refusal before the handler. */
  lemma RefusalMarks(deps: Deps, log: Log, acts: Log, event: AuditEvent, r: RunResult, open: bool)
    requires Staged(acts) && Below(acts, 5) && !HandlerOutcome(event) && event.credentialScope == None
    requires StaticSecret !in event.warnings && (FailsOpen(event.warnings) <==> open)
    ensures var all := Ended(deps, log, acts, event, r).0; forall e | e in Audits(all) :: Marks(e, all, open)
  {
    assert !HandlerCalled(acts);
    EndMarks(deps, log, acts, event, r, open);
  }

  lemma OneMore(warnings: seq<Warning>, w: Warning)
    requires !w.FailModeOpen?
    ensures FailsOpen(warnings + [w]) <==> FailsOpen(warnings)
    ensures StaticSecret in warnings + [w] <==> w == StaticSecret || StaticSecret in warnings
  {
    assert forall i | 0 <= i < |warnings| :: (warnings + [w])[i] == warnings[i];
    if FailsOpen(warnings) {
      var i :| 0 <= i < |warnings| && warnings[i].FailModeOpen?;
      assert (warnings + [w])[i].FailModeOpen?;
    }
  }

  lemma GrantedMarks(deps: Deps, log: Log, acts: Log, req: AccessRequest, d: Decision, warnings: seq<Warning>)
    requires Staged(acts) && Below(acts, 4) && StaticSecret !in warnings
    ensures var all := Granted(deps, log, acts, req, d, warnings).0;
      forall e | e in Audits(all) :: Marks(e, all, FailsOpen(warnings))
  {
    match FindCredential(d.obligations)
    case None => ResolvedMarks(deps, log, acts, req, d, warnings, None);
    case Some(ref) =>
      var called := acts + [SecretCall(ref, d)];
      match deps.secrets(log + acts, ref, d)
      case Failure(message) =>
        OneMore(warnings, CredentialUnresolved(message));
        RefusalMarks(deps, log, called, EventOf(req, CallDenied, d, warnings + [CredentialUnresolved(message)]),
                     Blocked(Deny, "credential could not be resolved"), FailsOpen(warnings));
      case Success(c) =>
        OneMore(warnings, StaticSecret);
        assert warnings + [] == warnings;
        ResolvedMarks(deps, log, called, req, d, warnings + (if c.expires then [] else [StaticSecret]), Some(c));
  }

  lemma DecidedMarks(deps: Deps, log: Log, acts: Log, req: AccessRequest, d: Decision, warnings: seq<Warning>)
    requires Staged(acts) && Below(acts, 3) && StaticSecret !in warnings
    ensures var all := Decided(deps, log, acts, req, d, warnings).0;
      forall e | e in Audits(all) :: Marks(e, all, FailsOpen(warnings))
  {
    match d.effect
    case Deny =>
      RefusalMarks(deps, log, acts, EventOf(req, CallDenied, d, warnings),
                   Blocked(Deny, "denied by policy"), FailsOpen(warnings));
    case Allow => GrantedMarks(deps, log, acts, req, d, warnings);
    case RequireApproval => ApprovalMarks(deps, log, acts, req, d, warnings);
  }

  lemma ApprovalMarks(deps: Deps, log: Log, acts: Log, req: AccessRequest, d: Decision, warnings: seq<Warning>)
    requires Staged(acts) && Below(acts, 3) && StaticSecret !in warnings && d.effect == RequireApproval
    ensures var all := Decided(deps, log, acts, req, d, warnings).0;
      forall e | e in Audits(all) :: Marks(e, all, FailsOpen(warnings))
  {
    if deps.approval.None? {
      OneMore(warnings, ApprovalWithoutProvider);
      RefusalMarks(deps, log, acts, EventOf(req, ApprovalDenied, d, warnings + [ApprovalWithoutProvider]),
                   Blocked(RequireApproval, "approval required but no approval provider is configured"),
                   FailsOpen(warnings));
    } else {
      var asked := acts + [ApprovalCall(req, d)];
      var reply := deps.approval.value(log + acts, req, d);
      if SaysYes(deps, log + acts, req, d) {
        GrantedMarks(deps, log, asked, req, d, warnings);
      } else {
        var reason := if reply.Success? then reply.value.reason else Some(reply.error);
        if reason.Some? {
          OneMore(warnings, ApprovalRefused(reason.value));
        }
        assert warnings + [] == warnings;
        RefusalMarks(deps, log, asked, RefusalEvent(req, d, warnings, reason),
                     Blocked(RequireApproval, "approval " + if reason.Some? then reason.value else "not granted"),
                     FailsOpen(warnings));
      }
    }
  }

  /**
   The audit event of a run is marked as failing open exactly when the policy source threw and the
   broker is set to fail open; it tells whether the handler ran and with what scope, and warns of a
   credential that does not expire exactly when the handler got one.
   */
  lemma AuditTells(deps: Deps, log: Log, call: ToolCall, e: AuditEvent)
    requires IsRequest(deps, log, call) && e in Audits(Run(deps, log, call).0)
    ensures Marks(e, Run(deps, log, call).0,
      deps.failOpen && deps.policy(log + [IdentityCall(call.extra)], RequestMade(deps, log, call)).Failure?)
  {
    RequestedMarks(deps, log, call.extra, RequestMade(deps, log, call));
  }

  lemma RequestedMarks(deps: Deps, log: Log, extra: Extra, req: AccessRequest)
    ensures var all := Requested(deps, log, extra, req).0;
      forall e | e in Audits(all) ::
        Marks(e, all, deps.failOpen && deps.policy(log + [IdentityCall(extra)], req).Failure?)
  {
    var acts := [IdentityCall(extra)] + [PolicyCall(req)];
    match deps.policy(log + [IdentityCall(extra)], req)
    case Success(d) => DecidedMarks(deps, log, acts, req, d, []);
    case Failure(reason) =>
      if deps.failOpen {
        assert [FailModeOpen(reason)][0].FailModeOpen?;
        DecidedMarks(deps, log, acts + [Warned("failMode=open: " + reason)], req,
                     Decision(Allow, [], UNAVAILABLE, "0"), [FailModeOpen(reason)]);
      } else {
        RefusalMarks(deps, log, acts,
                     EventOf(req, CallDenied, Decision(Deny, [], UNAVAILABLE, "0"), [PolicyUnreachable(reason)]),
                     Blocked(Deny, "policy source unreachable"), false);
      }
  }

  // ----- the sink

  /** The same acts, but for warnings at the end. */
  ghost predicate SameButLastWarnings(a: Log, b: Log) {
    exists acts, w, x :: a == acts + w && b == acts + x && Below(w, 1) && Below(x, 1)
  }

  /** The same result, reached by the same acts but for warnings at the end. */
  ghost predicate Agree(a: (Log, RunResult), b: (Log, RunResult)) {
    a.1 == b.1 && SameButLastWarnings(a.0, b.0)
  }

  lemma EndedAgrees(deps: Deps, other: Deps, log: Log)
    ensures forall acts, event, r :: Agree(Ended(deps, log, acts, event, r), Ended(other, log, acts, event, r))
    ensures forall acts: Log, r: RunResult :: Agree((acts, r), (acts, r))
  {
    forall acts: Log, r: RunResult ensures Agree((acts, r), (acts, r)) {
      assert acts == acts + [] && Below([], 1);
    }
    forall acts, event, r ensures Agree(Ended(deps, log, acts, event, r), Ended(other, log, acts, event, r)) {
      var a, b := Emitted(deps, log + acts, event), Emitted(other, log + acts, event);
      var audited := acts + [AuditCall(event)];
      assert acts + a == audited + a[1..] && acts + b == audited + b[1..];
      assert Below(a[1..], 1) && Below(b[1..], 1);
    }
  }

  lemma ResolvedAgrees(deps: Deps, other: Deps, log: Log, acts: Log, req: AccessRequest, d: Decision,
                       warnings: seq<Warning>, c: Option<Credential>)
    requires other == deps.(sink := other.sink)
    ensures Agree(Resolved(deps, log, acts, req, d, warnings, c), Resolved(other, log, acts, req, d, warnings, c))
  {
    EndedAgrees(deps, other, log);
  }

  lemma GrantedAgrees(
      deps: Deps, other: Deps, log: Log, acts: Log, req: AccessRequest, d: Decision, warnings: seq<Warning>)
    requires other == deps.(sink := other.sink)
    ensures Agree(Granted(deps, log, acts, req, d, warnings), Granted(other, log, acts, req, d, warnings))
  {
    match FindCredential(d.obligations)
    case None => ResolvedAgrees(deps, other, log, acts, req, d, warnings, None);
    case Some(ref) =>
      EndedAgrees(deps, other, log);
      var reply := deps.secrets(log + acts, ref, d);
      if reply.Success? {
        ResolvedAgrees(deps, other, log, acts + [SecretCall(ref, d)], req, d,
                       warnings + (if reply.value.expires then [] else [StaticSecret]), Some(reply.value));
      }
  }

  lemma DecidedAgrees(
      deps: Deps, other: Deps, log: Log, acts: Log, req: AccessRequest, d: Decision, warnings: seq<Warning>)
    requires other == deps.(sink := other.sink)
    ensures Agree(Decided(deps, log, acts, req, d, warnings), Decided(other, log, acts, req, d, warnings))
  {
    match d.effect
    case Deny => EndedAgrees(deps, other, log);
    case Allow => GrantedAgrees(deps, other, log, acts, req, d, warnings);
    case RequireApproval =>
      if SaysYes(deps, log + acts, req, d) {
        GrantedAgrees(deps, other, log, acts + [ApprovalCall(req, d)], req, d, warnings);
      } else {
        EndedAgrees(deps, other, log);
      }
  }

  /** Whatever the sink does, throwing included, the run returns the same and calls the same. */
  lemma SinkDoesNotMatter(deps: Deps, other: Deps, log: Log, call: ToolCall)
    requires other == deps.(sink := other.sink)
    ensures Agree(Run(deps, log, call), Run(other, log, call))
  {
    EndedAgrees(deps, other, log);
    if IsRequest(deps, log, call) {
      RequestedAgrees(deps, other, log, call.extra, RequestMade(deps, log, call));
    }
  }

  lemma RequestedAgrees(deps: Deps, other: Deps, log: Log, extra: Extra, req: AccessRequest)
    requires other == deps.(sink := other.sink)
    ensures Agree(Requested(deps, log, extra, req), Requested(other, log, extra, req))
  {
    EndedAgrees(deps, other, log);
    var acts := [IdentityCall(extra)] + [PolicyCall(req)];
    match deps.policy(log + [IdentityCall(extra)], req)
    case Success(d) => DecidedAgrees(deps, other, log, acts, req, d, []);
    case Failure(reason) =>
      DecidedAgrees(deps, other, log, acts + [Warned("failMode=open: " + reason)], req,
                    Decision(Allow, [], UNAVAILABLE, "0"), [FailModeOpen(reason)]);
  }

  // ----- many runs

  /** The log after these calls. */
  function LogAfter(deps: Deps, log: Log, calls: seq<ToolCall>): Log
    decreases |calls|
  {
    if calls == [] then log else LogAfter(deps, log + Run(deps, log, calls[0]).0, calls[1..])
  }

  /** How many of these calls an exception cuts short. */
  function CutShortCalls(deps: Deps, log: Log, calls: seq<ToolCall>): nat
    decreases |calls|
  {
    if calls == [] then 0
    else (if CutShort(deps, log, calls[0]) then 1 else 0)
         + CutShortCalls(deps, log + Run(deps, log, calls[0]).0, calls[1..])
  }

  /** Over any number of calls there are as many audit attempts as calls that were not cut short. */
  lemma {:induction false} AuditsOverCalls(deps: Deps, log: Log, calls: seq<ToolCall>)
    ensures |Audits(LogAfter(deps, log, calls))| == |Audits(log)| + |calls| - CutShortCalls(deps, log, calls)
    decreases |calls|
  {
    if calls != [] {
      var acts := Run(deps, log, calls[0]).0;
      AuditedOnce(deps, log, calls[0]);
      AuditsAppend(log, acts);
      AuditsOverCalls(deps, log + acts, calls[1..]);
    }
  }
}
