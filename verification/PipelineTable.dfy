/**
 The pipeline as a table: for each way a run can go, the calls it makes, what it returns, and every
 field of its audit event, told by what the dependencies answer.
 */
module PipelineTable {
  import opened Wrappers
  import opened Sequences
  import opened Text
  import opened BrokerTypes
  import opened Pipeline
  import opened PipelineLaws

  // ----- credentials by position

  /** Number `k` is the first obligation to name a credential. */
  predicate FirstCredentialAt(obligations: seq<Obligation>, k: nat) {
    && k < |obligations| && obligations[k].CredentialObligation?
    && forall j | 0 <= j < k :: !obligations[j].CredentialObligation?
  }

  predicate NamesNoCredential(obligations: seq<Obligation>) {
    forall k | 0 <= k < |obligations| :: !obligations[k].CredentialObligation?
  }

  lemma {:induction false} CredentialIsFirst(obligations: seq<Obligation>)
    ensures NamesNoCredential(obligations) ==> FindCredential(obligations) == None
    ensures forall k: nat | FirstCredentialAt(obligations, k) ::
      FindCredential(obligations) == Some(CredentialRef(obligations[k].ref, obligations[k].scope))
    ensures NamesNoCredential(obligations) || exists k: nat :: FirstCredentialAt(obligations, k)
    decreases |obligations|
  {
    if obligations != [] && !obligations[0].CredentialObligation? {
      CredentialIsFirst(obligations[1..]);
      forall k: nat | FirstCredentialAt(obligations, k)
        ensures k > 0 && FirstCredentialAt(obligations[1..], k - 1)
      {
      }
      if k: nat :| FirstCredentialAt(obligations[1..], k) {
        assert FirstCredentialAt(obligations, k + 1);
      } else {
        assert forall k | 0 < k < |obligations| :: obligations[k] == obligations[1..][k - 1];
      }
    } else if obligations != [] {
      assert FirstCredentialAt(obligations, 0);
    }
  }

  /** The credential was given out by the secret source for this reference and decision, earlier in the run. */
  ghost predicate GivenFor(
      deps: Deps, log: Log, all: Log, m: nat, ref: CredentialRef, d: Decision, c: Option<Credential>)
    requires m <= |all|
  {
    c.Some? && exists j | 0 <= j < m ::
      all[j] == SecretCall(ref, d) && deps.secrets(log + all[..j], ref, d) == Success(c.value)
  }

  /**
   Wherever the first credential stands among the obligations, the handler is called only with what the
   secret source gave for its reference, scope included; without one no secret is asked for and the
   handler gets none.
   */
  lemma HandlerGetsNamedCredential(deps: Deps, log: Log, call: ToolCall, m: nat, c: Option<Credential>)
    requires IsRequest(deps, log, call) && HandlerAt(Run(deps, log, call).0, m, c)
    ensures var all := Run(deps, log, call).0;
      var req := RequestMade(deps, log, call);
      var d := DecisionMade(deps, log + [IdentityCall(call.extra)], req);
      && (NamesNoCredential(d.obligations) ==> c == None && forall j | 0 <= j < |all| :: !all[j].SecretCall?)
      && (forall k: nat | FirstCredentialAt(d.obligations, k) ::
            GivenFor(deps, log, all, m, CredentialRef(d.obligations[k].ref, d.obligations[k].scope), d, c))
  {
    var all := Run(deps, log, call).0;
    var req := RequestMade(deps, log, call);
    var d := DecisionMade(deps, log + [IdentityCall(call.extra)], req);
    RunIsLawful(deps, log, call);
    CredentialIsFirst(d.obligations);
    assert CredentialIs(deps, log, all[..m], d, c);
    if FindCredential(d.obligations).Some? {
      var ref := FindCredential(d.obligations).value;
      var j :| 0 <= j < m && all[..m][j] == SecretCall(ref, d)
        && deps.secrets(log + all[..m][..j], ref, d) == Success(c.value);
      assert all[..m][..j] == all[..j];
    }
    RunIsTable(deps, log, call);
    RowsNameSecrets(deps, log, call.extra, req);
    forall j | 0 <= j < |all| && all[j].SecretCall?
      ensures Named(all[j], d)
    {
      CallsHold(all, all[j]);
    }
  }

  /** A secret is asked for only by the reference of the first credential obligation. */
  predicate Named(act: Act, d: Decision) {
    act.SecretCall? ==> act.decision == d && FindCredential(d.obligations) == Some(act.ref)
  }

  lemma HandlerRowsName(deps: Deps, now: Log, calls: Log, req: AccessRequest, d: Decision, warnings: seq<Warning>,
                        c: Option<Credential>, scope: Option<seq<string>>)
    requires forall act | act in calls :: Named(act, d)
    ensures forall act | act in HandlerRows(deps, now, calls, req, d, warnings, c, scope).0 :: Named(act, d)
  {
  }

  lemma GrantRowsName(deps: Deps, now: Log, calls: Log, req: AccessRequest, d: Decision, warnings: seq<Warning>)
    requires forall act | act in calls :: Named(act, d)
    ensures forall act | act in GrantRows(deps, now, calls, req, d, warnings).0 :: Named(act, d)
  {
    CredentialIsFirst(d.obligations);
    match FindCredential(d.obligations)
    case None => HandlerRowsName(deps, now, calls, req, d, warnings, None, None);
    case Some(ref) =>
      var asked := [SecretCall(ref, d)];
      assert forall act | act in calls + asked :: Named(act, d);
      var reply := deps.secrets(now, ref, d);
      if reply.Success? {
        HandlerRowsName(deps, now + asked, calls + asked, req, d,
                        if reply.value.expires then warnings else warnings + [StaticSecret],
                        Some(reply.value), reply.value.scope);
      }
  }

  lemma DecisionRowsName(deps: Deps, now: Log, calls: Log, req: AccessRequest, d: Decision, warnings: seq<Warning>)
    requires forall act | act in calls :: Named(act, d)
    ensures forall act | act in DecisionRows(deps, now, calls, req, d, warnings).0 :: Named(act, d)
  {
    var asked := [ApprovalCall(req, d)];
    assert forall act | act in calls + asked :: Named(act, d);
    GrantRowsName(deps, now, calls, req, d, warnings);
    GrantRowsName(deps, now + asked, calls + asked, req, d, warnings);
  }

  lemma RowsNameSecrets(deps: Deps, log: Log, extra: Extra, req: AccessRequest)
    ensures var d := DecisionMade(deps, log + [IdentityCall(extra)], req);
      forall act | act in PolicyRows(deps, log, extra, req).0 :: Named(act, d)
  {
    var i := [IdentityCall(extra)];
    var calls := i + [PolicyCall(req)];
    var d := DecisionMade(deps, log + i, req);
    assert forall act | act in calls :: Named(act, d);
    match deps.policy(log + i, req)
    case Success(_) => DecisionRowsName(deps, log + calls, calls, req, d, []);
    case Failure(reason) =>
      DecisionRowsName(deps, log + calls + [Warned("failMode=open: " + reason)], calls, req,
                       Decision(Allow, [], "unavailable", "0"), [FailModeOpen(reason)]);
  }

  // ----- the table

  /** What the pipeline calls, without what it writes to the console. */
  predicate IsCall(act: Act) {
    !act.Warned?
  }

  function Calls(acts: Log): Log {
    Filter(acts, IsCall)
  }

  /** A row that ends with an audit event. */
  function Audited(calls: Log, r: RunResult, event: AuditEvent): (Log, RunResult) {
    (calls + [AuditCall(event)], r)
  }

  /** An event without a credential and without an error. */
  function Plain(req: AccessRequest, outcome: Outcome, d: Decision, warnings: seq<Warning>): AuditEvent {
    AuditEvent(req, outcome, d.effect, d.policyId, d.version, None, warnings, None)
  }

  ghost function Table(deps: Deps, log: Log, call: ToolCall): (Log, RunResult) {
    var i := [IdentityCall(call.extra)];
    match deps.identity(log, call.extra)
    case Failure(error) => (i, Thrown(error))
    case Success(subject) =>
      match call.fingerprint
      case Failure(error) => (i, Thrown(error))
      case Success(digest) =>
        var req := AccessRequest(subject, call.tool, Resource(deps.serverName, call.tool), digest,
                                 if call.extra.overHttp then "http" else "stdio");
        PolicyRows(deps, log, call.extra, req)
  }

  ghost function PolicyRows(deps: Deps, log: Log, extra: Extra, req: AccessRequest): (Log, RunResult) {
    var i := [IdentityCall(extra)];
    var calls := i + [PolicyCall(req)];
    match deps.policy(log + i, req)
    case Success(d) => DecisionRows(deps, log + calls, calls, req, d, [])
    case Failure(reason) =>
      if deps.failOpen then
        DecisionRows(deps, log + calls + [Warned("failMode=open: " + reason)], calls, req,
                     Decision(Allow, [], "unavailable", "0"), [FailModeOpen(reason)])
      else
        Audited(calls, Blocked(Deny, "policy source unreachable"),
                AuditEvent(req, CallDenied, Deny, "unavailable", "0", None, [PolicyUnreachable(reason)], None))
  }

  /** `now` is the log when the decision is acted on, `calls` the calls of the run up to then. */
  ghost function DecisionRows(deps: Deps, now: Log, calls: Log, req: AccessRequest, d: Decision, warnings: seq<Warning>)
    : (Log, RunResult)
  {
    if d.effect == Allow then GrantRows(deps, now, calls, req, d, warnings)
    else if d.effect == Deny then
      Audited(calls, Blocked(Deny, "denied by policy"), Plain(req, CallDenied, d, warnings))
    else if deps.approval == None then
      Audited(calls, Blocked(RequireApproval, "approval required but no approval provider is configured"),
              Plain(req, ApprovalDenied, d, warnings + [ApprovalWithoutProvider]))
    else
      var reply := deps.approval.value(now, req, d);
      var asked := [ApprovalCall(req, d)];
      if reply.Success? && reply.value.approved then GrantRows(deps, now + asked, calls + asked, req, d, warnings)
      else
        var reason := if reply.Success? then reply.value.reason else Some(reply.error);
        Audited(
          calls + asked,
          Blocked(RequireApproval, if reason == None then "approval not granted" else "approval " + reason.value),
          Plain(req, if reason == Some("timeout") then ApprovalTimeout else ApprovalDenied, d,
                if reason == None || reason == Some("") then warnings else warnings + [ApprovalRefused(reason.value)]))
  }

  ghost function GrantRows(deps: Deps, now: Log, calls: Log, req: AccessRequest, d: Decision, warnings: seq<Warning>)
    : (Log, RunResult)
  {
    if k: nat :| FirstCredentialAt(d.obligations, k) then
      var ref := CredentialRef(d.obligations[k].ref, d.obligations[k].scope);
      var asked := [SecretCall(ref, d)];
      match deps.secrets(now, ref, d)
      case Failure(message) =>
        Audited(calls + asked, Blocked(Deny, "credential could not be resolved"),
                Plain(req, CallDenied, d, warnings + [CredentialUnresolved(message)]))
      case Success(c) =>
        HandlerRows(deps, now + asked, calls + asked, req, d,
                    if c.expires then warnings else warnings + [StaticSecret], Some(c), c.scope)
    else HandlerRows(deps, now, calls, req, d, warnings, None, None)
  }

  ghost function HandlerRows(deps: Deps, now: Log, calls: Log, req: AccessRequest, d: Decision, warnings: seq<Warning>,
                             c: Option<Credential>, scope: Option<seq<string>>): (Log, RunResult)
  {
    var called := [HandlerCall(c)];
    match deps.handler(now, c)
    case Failure(error) =>
      Audited(calls + called, Thrown(error),
              AuditEvent(req, HandlerError, d.effect, d.policyId, d.version, scope, warnings,
                         if error == "" then None else Some(error)))
    case Success(result) =>
      var event := AuditEvent(req, CallAllowed, d.effect, d.policyId, d.version, scope, warnings, None);
      if deps.redact == None then Audited(calls + called, Ok(result), event)
      else
        var redacting := called + [RedactCall(result, d)];
        match deps.redact.value(now + called, result, d)
        case Failure(error) => (calls + redacting, Thrown(error))
        case Success(redacted) => Audited(calls + redacting, Ok(redacted), event)
  }

  // ----- the pipeline is the table

  predicate Rows(run: (Log, RunResult), row: (Log, RunResult)) {
    Calls(run.0) == row.0 && run.1 == row.1
  }

  lemma CallsAppend(a: Log, b: Log)
    ensures Calls(a + b) == Calls(a) + Calls(b)
  {
    FilterAppend(a, b, IsCall);
  }

  lemma CallsOne(act: Act)
    ensures Calls([act]) == if act.Warned? then [] else [act]
  {
    FilterOne(act, IsCall);
  }

  lemma CallsMore(acts: Log, act: Act)
    ensures Calls(acts + [act]) == if act.Warned? then Calls(acts) else Calls(acts) + [act]
  {
    CallsAppend(acts, [act]);
    CallsOne(act);
  }

  lemma {:induction false} CallsHold(acts: Log, act: Act)
    requires act in acts && !act.Warned?
    ensures act in Calls(acts)
    decreases |acts|
  {
    var last := acts[|acts| - 1];
    if act != last {
      CallsHold(acts[..|acts| - 1], act);
    }
  }

  lemma EndedRow(deps: Deps, log: Log, acts: Log, event: AuditEvent, r: RunResult)
    ensures Rows(Ended(deps, log, acts, event, r), Audited(Calls(acts), r, event))
  {
    var tail := Emitted(deps, log + acts, event);
    CallsMore(acts, AuditCall(event));
    if |tail| > 1 {
      CallsMore(acts + [AuditCall(event)], tail[1]);
      assert acts + tail == acts + [AuditCall(event)] + [tail[1]];
    } else {
      assert acts + tail == acts + [AuditCall(event)];
    }
  }

  lemma ResolvedRow(deps: Deps, log: Log, acts: Log, req: AccessRequest, d: Decision, warnings: seq<Warning>,
                    c: Option<Credential>)
    ensures Rows(Resolved(deps, log, acts, req, d, warnings, c),
                 HandlerRows(deps, log + acts, Calls(acts), req, d, warnings, c,
                             if c.Some? then c.value.scope else None))
  {
    var scope := if c.Some? then c.value.scope else None;
    var called := acts + [HandlerCall(c)];
    CallsMore(acts, HandlerCall(c));
    ConcatAssoc(log, acts, [HandlerCall(c)]);
    match deps.handler(log + acts, c)
    case Failure(error) =>
      EndedRow(deps, log, called,
               AuditEvent(req, HandlerError, d.effect, d.policyId, d.version, scope, warnings,
                          if error == "" then None else Some(error)), Thrown(error));
    case Success(result) =>
      AnsweredRow(deps, log, called, d,
                  AuditEvent(req, CallAllowed, d.effect, d.policyId, d.version, scope, warnings, None), result);
      ConcatAssoc(Calls(acts), [HandlerCall(c)], [RedactCall(result, d)]);
  }

  lemma AnsweredRow(deps: Deps, log: Log, acts: Log, d: Decision, event: AuditEvent, result: Payload)
    ensures Rows(Answered(deps, log, acts, d, event, result),
                 if deps.redact == None then Audited(Calls(acts), Ok(result), event)
                 else match deps.redact.value(log + acts, result, d)
                      case Failure(error) => (Calls(acts) + [RedactCall(result, d)], Thrown(error))
                      case Success(redacted) => Audited(Calls(acts) + [RedactCall(result, d)], Ok(redacted), event))
  {
    var redacting := acts + [RedactCall(result, d)];
    CallsMore(acts, RedactCall(result, d));
    if deps.redact == None {
      EndedRow(deps, log, acts, event, Ok(result));
    } else {
      var reply := deps.redact.value(log + acts, result, d);
      if reply.Success? {
        EndedRow(deps, log, redacting, event, Ok(reply.value));
      }
    }
  }

  lemma GrantedRow(deps: Deps, log: Log, acts: Log, req: AccessRequest, d: Decision, warnings: seq<Warning>)
    ensures Rows(Granted(deps, log, acts, req, d, warnings), GrantRows(deps, log + acts, Calls(acts), req, d, warnings))
  {
    CredentialIsFirst(d.obligations);
    match FindCredential(d.obligations)
    case None =>
      ResolvedRow(deps, log, acts, req, d, warnings, None);
    case Some(ref) =>
      var called := acts + [SecretCall(ref, d)];
      CallsMore(acts, SecretCall(ref, d));
      ConcatAssoc(log, acts, [SecretCall(ref, d)]);
      match deps.secrets(log + acts, ref, d)
      case Failure(message) =>
        EndedRow(deps, log, called, Plain(req, CallDenied, d, warnings + [CredentialUnresolved(message)]),
                 Blocked(Deny, "credential could not be resolved"));
      case Success(c) =>
        assert warnings + [] == warnings;
        ResolvedRow(deps, log, called, req, d, if c.expires then warnings else warnings + [StaticSecret], Some(c));
  }

  lemma DecidedRow(deps: Deps, log: Log, acts: Log, req: AccessRequest, d: Decision, warnings: seq<Warning>)
    ensures Rows(Decided(deps, log, acts, req, d, warnings),
                 DecisionRows(deps, log + acts, Calls(acts), req, d, warnings))
  {
    match d.effect
    case Deny => EndedRow(deps, log, acts, Plain(req, CallDenied, d, warnings), Blocked(Deny, "denied by policy"));
    case Allow => GrantedRow(deps, log, acts, req, d, warnings);
    case RequireApproval =>
      if deps.approval == None {
        EndedRow(deps, log, acts, Plain(req, ApprovalDenied, d, warnings + [ApprovalWithoutProvider]),
                 Blocked(RequireApproval, "approval required but no approval provider is configured"));
      } else {
        AskedRow(deps, log, acts, req, d, warnings);
      }
  }

  lemma AskedRow(deps: Deps, log: Log, acts: Log, req: AccessRequest, d: Decision, warnings: seq<Warning>)
    requires d.effect == RequireApproval && deps.approval.Some?
    ensures Rows(Decided(deps, log, acts, req, d, warnings),
                 DecisionRows(deps, log + acts, Calls(acts), req, d, warnings))
  {
    var asked := acts + [ApprovalCall(req, d)];
    var reply := deps.approval.value(log + acts, req, d);
    CallsMore(acts, ApprovalCall(req, d));
    ConcatAssoc(log, acts, [ApprovalCall(req, d)]);
    if reply.Success? && reply.value.approved {
      GrantedRow(deps, log, asked, req, d, warnings);
    } else {
      var reason := if reply.Success? then reply.value.reason else Some(reply.error);
      assert warnings + [] == warnings;
      assert "approval " + "not granted" == "approval not granted";
      EndedRow(deps, log, asked, RefusalEvent(req, d, warnings, reason),
               Blocked(RequireApproval, "approval " + if reason.Some? then reason.value else "not granted"));
    }
  }

  lemma RequestedRow(deps: Deps, log: Log, extra: Extra, req: AccessRequest)
    ensures Rows(Requested(deps, log, extra, req), PolicyRows(deps, log, extra, req))
  {
    var i := [IdentityCall(extra)];
    var acts := i + [PolicyCall(req)];
    CallsOne(IdentityCall(extra));
    CallsMore(i, PolicyCall(req));
    match deps.policy(log + i, req)
    case Success(d) => DecidedRow(deps, log, acts, req, d, []);
    case Failure(reason) =>
      if deps.failOpen {
        CallsMore(acts, Warned("failMode=open: " + reason));
        ConcatAssoc(log, acts, [Warned("failMode=open: " + reason)]);
        DecidedRow(deps, log, acts + [Warned("failMode=open: " + reason)], req,
                   Decision(Allow, [], "unavailable", "0"), [FailModeOpen(reason)]);
      } else {
        EndedRow(deps, log, acts,
                 AuditEvent(req, CallDenied, Deny, "unavailable", "0", None, [PolicyUnreachable(reason)], None),
                 Blocked(Deny, "policy source unreachable"));
      }
  }

  /** A run makes the calls of its row of the table, in that order, and returns what stands there. */
  lemma RunIsTable(deps: Deps, log: Log, call: ToolCall)
    ensures Calls(Run(deps, log, call).0) == Table(deps, log, call).0
    ensures Run(deps, log, call).1 == Table(deps, log, call).1
  {
    CallsOne(IdentityCall(call.extra));
    if IsRequest(deps, log, call) {
      RequestedRow(deps, log, call.extra, RequestMade(deps, log, call));
    }
  }

  // ----- behind the audit

  predicate HasNoAudit(acts: Log) {
    forall m | 0 <= m < |acts| :: !acts[m].AuditCall?
  }

  /** Behind an audit attempt nothing comes, but for a warning with the sink's message if it throws. */
  predicate EndsWithAudit(deps: Deps, log: Log, all: Log) {
    forall m | 0 <= m < |all| && all[m].AuditCall? ::
      all[m + 1..] == match deps.sink(log + all[..m], all[m].event)
                      case Success(_) => []
                      case Failure(message) => [Warned("audit sink failed: " + message)]
  }

  lemma EndedTail(deps: Deps, log: Log, acts: Log, event: AuditEvent, r: RunResult)
    requires HasNoAudit(acts)
    ensures EndsWithAudit(deps, log, Ended(deps, log, acts, event, r).0)
  {
    var all, n := Ended(deps, log, acts, event, r).0, |acts|;
    assert all[..n] == acts && all[n] == AuditCall(event) && all[n + 1..] == Emitted(deps, log + acts, event)[1..];
    assert forall m | 0 <= m < n :: all[m] == acts[m];
  }

  lemma ResolvedTail(deps: Deps, log: Log, acts: Log, req: AccessRequest, d: Decision, warnings: seq<Warning>,
                     c: Option<Credential>)
    requires HasNoAudit(acts)
    ensures EndsWithAudit(deps, log, Resolved(deps, log, acts, req, d, warnings, c).0)
  {
    var called := acts + [HandlerCall(c)];
    forall a: Log, event, r | HasNoAudit(a)
      ensures EndsWithAudit(deps, log, Ended(deps, log, a, event, r).0)
    {
      EndedTail(deps, log, a, event, r);
    }
    assert HasNoAudit(called) && forall result :: HasNoAudit(called + [RedactCall(result, d)]);
  }

  lemma GrantedTail(deps: Deps, log: Log, acts: Log, req: AccessRequest, d: Decision, warnings: seq<Warning>)
    requires HasNoAudit(acts)
    ensures EndsWithAudit(deps, log, Granted(deps, log, acts, req, d, warnings).0)
  {
    match FindCredential(d.obligations)
    case None => ResolvedTail(deps, log, acts, req, d, warnings, None);
    case Some(ref) =>
      var called := acts + [SecretCall(ref, d)];
      match deps.secrets(log + acts, ref, d)
      case Failure(message) =>
        EndedTail(deps, log, called, EventOf(req, CallDenied, d, warnings + [CredentialUnresolved(message)]),
                  Blocked(Deny, "credential could not be resolved"));
      case Success(c) =>
        ResolvedTail(deps, log, called, req, d, warnings + (if c.expires then [] else [StaticSecret]), Some(c));
  }

  lemma DecidedTail(deps: Deps, log: Log, acts: Log, req: AccessRequest, d: Decision, warnings: seq<Warning>)
    requires HasNoAudit(acts)
    ensures EndsWithAudit(deps, log, Decided(deps, log, acts, req, d, warnings).0)
  {
    var asked := acts + [ApprovalCall(req, d)];
    assert HasNoAudit(asked);
    GrantedTail(deps, log, acts, req, d, warnings);
    GrantedTail(deps, log, asked, req, d, warnings);
    forall a: Log, event, r | HasNoAudit(a)
      ensures EndsWithAudit(deps, log, Ended(deps, log, a, event, r).0)
    {
      EndedTail(deps, log, a, event, r);
    }
  }

  /** A sink that throws is warned about, with its message, and nothing else comes behind an audit attempt. */
  lemma FailedAuditIsWarned(deps: Deps, log: Log, call: ToolCall)
    ensures EndsWithAudit(deps, log, Run(deps, log, call).0)
  {
    if IsRequest(deps, log, call) {
      var req := RequestMade(deps, log, call);
      var acts := [IdentityCall(call.extra)] + [PolicyCall(req)];
      match deps.policy(log + [IdentityCall(call.extra)], req)
      case Success(d) => DecidedTail(deps, log, acts, req, d, []);
      case Failure(reason) =>
        var unavailable := Decision(Deny, [], UNAVAILABLE, "0");
        EndedTail(deps, log, acts, EventOf(req, CallDenied, unavailable, [PolicyUnreachable(reason)]),
                  Blocked(Deny, "policy source unreachable"));
        DecidedTail(deps, log, acts + [Warned("failMode=open: " + reason)], req,
                    Decision(Allow, [], UNAVAILABLE, "0"), [FailModeOpen(reason)]);
    }
  }
}
