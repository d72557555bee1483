/** The enforcement pipeline over a local policy file: from the text of the file to the handler. */
module Enforcement {
  import opened Wrappers
  import opened BrokerTypes
  import opened Pipeline
  import opened PipelineLaws
  import P = PolicyYaml
  import F = FileSource

  // ----- one call under one text

  /** The credential a rule names; an empty name names none. */
  function Named(rule: P.Rule): Option<CredentialRef> {
    if rule.credential.Some? && rule.credential.value != "" then Some(CredentialRef(rule.credential.value, None))
    else None
  }

  predicate Fetched(deps: Deps, log: Log, d: Decision, ref: Option<CredentialRef>) {
    ref.Some? ==> deps.secrets(log, ref.value, d).Success?
  }

  /** What a rule asks for before a handler may run. */
  predicate RuleLetsRun(deps: Deps, log: Log, req: AccessRequest, d: Decision, rule: P.Rule) {
    match rule.effect
    case Deny => false
    case Allow => Fetched(deps, log, d, Named(rule))
    case RequireApproval =>
      SaysYes(deps, log, req, d) && Fetched(deps, log + [ApprovalCall(req, d)], d, Named(rule))
  }

  /**
   The handler of a call runs exactly when the document's rule for the tool lets it: a denying rule
   never does, an allowing one does once its credential is fetched, one that asks for approval does
   once the owner has said yes and its credential is fetched; a tool without a rule runs exactly when
   the default allows.
   */
  ghost predicate RunsBy(deps: Deps, doc: P.Doc, log: Log, call: ToolCall)
    requires IsRequest(deps, log, call)
  {
    var req := RequestMade(deps, log, call);
    var d := F.DecisionFor(doc, req.resource);
    var decided := log + [IdentityCall(call.extra)] + [PolicyCall(req)];
    var all := Run(deps, log, call).0;
    && (forall i | 0 <= i < |doc.rules| && doc.rules[i].tool == call.tool ::
          HandlerCalled(all) <==> RuleLetsRun(deps, decided, req, d, doc.rules[i]))
    && (!F.Listed(doc, call.tool) ==> (HandlerCalled(all) <==> doc.defaults == P.DefaultAllow))
    && HandlerGetsCredential(deps, log, all, d)
    && forall e | e in Audits(all) :: About(e, req, d)
  }

  /** Asked about this call, the policy source answers what the text says. */
  ghost predicate AnswersText(deps: Deps, source: string, log: Log, call: ToolCall)
    requires IsRequest(deps, log, call)
  {
    var req := RequestMade(deps, log, call);
    && P.Parse(source).Success?
    && deps.policy(log + [IdentityCall(call.extra)], req) == Success(F.DecisionFor(P.Parse(source).value, req.resource))
  }

  lemma TextToHandler(deps: Deps, source: string, log: Log, call: ToolCall)
    requires IsRequest(deps, log, call) && AnswersText(deps, source, log, call)
    ensures RunsBy(deps, P.Parse(source).value, log, call)
  {
    var doc := P.Parse(source).value;
    var req := RequestMade(deps, log, call);
    var d := F.DecisionFor(doc, req.resource);
    var decided := log + [IdentityCall(call.extra)] + [PolicyCall(req)];
    JudgedRun(deps, log, call, d);
    F.TextToDecision(source, req.resource);
    forall i | 0 <= i < |doc.rules| && doc.rules[i].tool == call.tool
      ensures LetsRun(deps, decided, req, d) <==> RuleLetsRun(deps, decided, req, d, doc.rules[i])
    {
      RuleDecides(deps, decided, req, d, doc.rules[i]);
    }
  }

  /** A run that the policy has judged. */
  lemma JudgedRun(deps: Deps, log: Log, call: ToolCall, d: Decision)
    requires IsRequest(deps, log, call)
    requires deps.policy(log + [IdentityCall(call.extra)], RequestMade(deps, log, call)) == Success(d)
    ensures var req := RequestMade(deps, log, call);
      var all := Run(deps, log, call).0;
      && (HandlerCalled(all) <==> LetsRun(deps, log + [IdentityCall(call.extra)] + [PolicyCall(req)], req, d))
      && HandlerGetsCredential(deps, log, all, d)
      && forall e | e in Audits(all) :: About(e, req, d)
  {
    RunIsLawful(deps, log, call);
    var all := Run(deps, log, call).0;
    assert |Audits(all)| == 1 ==> forall e | e in Audits(all) :: e == Audits(all)[0];
  }

  /** What the pipeline asks for before it calls the handler. */
  predicate LetsRun(deps: Deps, log: Log, req: AccessRequest, d: Decision) {
    Permits(deps, log, req, d) && CredentialResolves(deps, AfterApproval(log, req, d), d)
  }

  lemma RuleDecides(deps: Deps, log: Log, req: AccessRequest, d: Decision, rule: P.Rule)
    requires d.effect == F.EffectOf(rule.effect) && d.obligations == F.OwedBy(rule)
    ensures LetsRun(deps, log, req, d) <==> RuleLetsRun(deps, log, req, d, rule)
  {
    assert FindCredential(d.obligations) == if rule.effect == P.Deny then None else Named(rule);
  }

  // ----- any number of calls on a file that may change

  /** The requests that the policy source has been asked about. */
  function PolicyCalls(log: Log): seq<AccessRequest> {
    if log == [] then []
    else
      var last := log[|log| - 1];
      PolicyCalls(log[..|log| - 1]) + if last.PolicyCall? then [last.req] else []
  }

  /** What reading the policy file would give at the time of each policy call. */
  type Files = nat -> Result<string, string>

  function FileCalls(log: Log, files: Files): seq<F.FileCall> {
    seq(|PolicyCalls(log)|, i requires 0 <= i < |PolicyCalls(log)| =>
      F.FileCall(PolicyCalls(log)[i].resource, files(i)))
  }

  /** An answer as the pipeline gets it, a failure by the message of its exception. */
  function Told(message: F.SourceError -> string, answer: Result<Decision, F.SourceError>): Result<Decision, string> {
    match answer
    case Success(d) => Success(d)
    case Failure(error) => Failure(message(error))
  }

  /** The policy source is a file source that started empty and was asked all that the log tells. */
  ghost predicate AsksFile(deps: Deps, files: Files, message: F.SourceError -> string) {
    forall log: Log, req: AccessRequest ::
      var calls := FileCalls(log, files) + [F.FileCall(req.resource, files(|PolicyCalls(log)|))];
      deps.policy(log, req) == Told(message, F.Answers(None, calls)[|PolicyCalls(log)|])
  }

  /** The first policy call at which the file can be read and parsed. */
  predicate FirstLoad(files: Files, k: nat) {
    F.Loaded(files(k)).Success? && forall j: nat | j < k :: F.Loaded(files(j)).Failure?
  }

  lemma PolicyCallsOf(log: Log, extra: Extra)
    ensures PolicyCalls(log + [IdentityCall(extra)]) == PolicyCalls(log)
  {
    assert (log + [IdentityCall(extra)])[..|log|] == log;
  }

  lemma FilesOf(log: Log, files: Files, req: AccessRequest)
    ensures var n := |PolicyCalls(log)|;
      var calls := FileCalls(log, files) + [F.FileCall(req.resource, files(n))];
      |calls| == n + 1 && calls[n].resource == req.resource && forall i | 0 <= i <= n :: calls[i].file == files(i)
  {
  }

  lemma AnswerAfterLoad(
      deps: Deps, files: Files, message: F.SourceError -> string, log: Log, req: AccessRequest, k: nat)
    requires AsksFile(deps, files, message) && FirstLoad(files, k) && k <= |PolicyCalls(log)|
    ensures deps.policy(log, req) == Success(F.DecisionFor(F.Loaded(files(k)).value, req.resource))
  {
    var n := |PolicyCalls(log)|;
    FilesOf(log, files, req);
    F.AnswersAfterLoad(FileCalls(log, files) + [F.FileCall(req.resource, files(n))], k, n);
  }

  lemma AnswerBeforeLoad(deps: Deps, files: Files, message: F.SourceError -> string, log: Log, req: AccessRequest)
    requires AsksFile(deps, files, message)
    requires forall j: nat | j <= |PolicyCalls(log)| :: F.Loaded(files(j)).Failure?
    ensures deps.policy(log, req) == Failure(message(F.Loaded(files(|PolicyCalls(log)|)).error))
  {
    var n := |PolicyCalls(log)|;
    FilesOf(log, files, req);
    F.AnswersBeforeLoad(FileCalls(log, files) + [F.FileCall(req.resource, files(n))], n + 1, n);
  }

  /**
   A broker over a policy file, at any call after any number of others and any changes of the file:
   once the file has been read and parsed, at this call or an earlier one, the handler runs by the
   text that was loaded first; until then it runs exactly when the broker is set to fail open.
   */
  lemma FileToHandler(deps: Deps, files: Files, message: F.SourceError -> string, log: Log, call: ToolCall)
    requires AsksFile(deps, files, message) && IsRequest(deps, log, call)
    ensures forall k: nat | FirstLoad(files, k) && k <= |PolicyCalls(log)| ::
      RunsBy(deps, F.Loaded(files(k)).value, log, call)
    ensures (forall j: nat | j <= |PolicyCalls(log)| :: F.Loaded(files(j)).Failure?) ==>
      (HandlerCalled(Run(deps, log, call).0) <==> deps.failOpen)
  {
    var before := log + [IdentityCall(call.extra)];
    var req := RequestMade(deps, log, call);
    PolicyCallsOf(log, call.extra);
    forall k: nat | FirstLoad(files, k) && k <= |PolicyCalls(log)|
      ensures RunsBy(deps, F.Loaded(files(k)).value, log, call)
    {
      AnswerAfterLoad(deps, files, message, before, req, k);
      TextToHandler(deps, files(k).value, log, call);
    }
    if forall j: nat | j <= |PolicyCalls(log)| :: F.Loaded(files(j)).Failure? {
      AnswerBeforeLoad(deps, files, message, before, req);
      RunIsLawful(deps, log, call);
    }
  }
}
