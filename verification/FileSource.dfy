/**
 The file policy source: a policy document compiled to the kernel's input, the kernel's verdict
 turned into the broker's decision, and the document cached after the first successful load.
 */
module FileSource {
  import opened Wrappers
  import opened Sequences
  import opened Text
  import opened BrokerTypes
  import P = PolicyYaml
  import L = PolicyLaws
  import K = Kernel
  import KL = KernelLaws

  // ----- compilation

  function ScopeTarget(server: string, tool: string): K.Target {
    K.Target(K.Scope, server + ":" + tool)
  }

  function CompiledRule(server: string, rule: P.Rule): K.PolicyRule {
    K.PolicyRule(if rule.effect == P.Deny then K.DenyRule else K.AllowRule, ScopeTarget(server, rule.tool))
  }

  function CompiledRules(server: string, rules: seq<P.Rule>): seq<K.PolicyRule> {
    if rules == [] then []
    else CompiledRules(server, rules[..|rules| - 1]) + [CompiledRule(server, rules[|rules| - 1])]
  }

  function CompiledApprovals(server: string, rules: seq<P.Rule>): seq<K.Target> {
    if rules == [] then []
    else
      var last := rules[|rules| - 1];
      CompiledApprovals(server, rules[..|rules| - 1])
      + (if last.effect == P.RequireApproval then [ScopeTarget(server, last.tool)] else [])
  }

  function CatchAll(doc: P.Doc, server: string): seq<K.PolicyRule> {
    if doc.defaults == P.DefaultAllow then [K.PolicyRule(K.AllowRule, K.Target(K.Platform, server))] else []
  }

  function Compiled(doc: P.Doc, resource: Resource): K.Input {
    K.Input(
      Some(K.Snapshot("local", doc.version,
                      CompiledRules(resource.server, doc.rules) + CatchAll(doc, resource.server),
                      CompiledApprovals(resource.server, doc.rules))),
      [], K.Member, [], K.Request(resource.server, resource.tool))
  }

  method ToEvaluationInput(doc: P.Doc, resource: Resource) returns (input: K.Input)
    ensures input == Compiled(doc, resource)
  {
    var server := resource.server;
    var rules: seq<K.PolicyRule> := [];
    var approvalRules: seq<K.Target> := [];
    for i := 0 to |doc.rules|
      invariant rules == CompiledRules(server, doc.rules[..i])
      invariant approvalRules == CompiledApprovals(server, doc.rules[..i])
    {
      assert doc.rules[..i + 1][..i] == doc.rules[..i];
      var r := doc.rules[i];
      var tv := ScopeTarget(server, r.tool);
      if r.effect == P.Deny {
        rules := rules + [K.PolicyRule(K.DenyRule, tv)];
      } else {
        rules := rules + [K.PolicyRule(K.AllowRule, tv)];
        if r.effect == P.RequireApproval {
          approvalRules := approvalRules + [tv];
        }
      }
    }
    assert doc.rules[..|doc.rules|] == doc.rules;
    if doc.defaults == P.DefaultAllow {
      rules := rules + [K.PolicyRule(K.AllowRule, K.Target(K.Platform, server))];
    }
    assert rules == CompiledRules(server, doc.rules) + CatchAll(doc, server);
    return K.Input(Some(K.Snapshot("local", doc.version, rules, approvalRules)),
                   [], K.Member, [], K.Request(server, resource.tool));
  }

  /**
   The kernel is asked about a member without tags or guardrails, and its verdict names the local
   policy and the document's version.
   */
  lemma VerdictNamesDocument(doc: P.Doc, resource: Resource)
    ensures var input := Compiled(doc, resource);
      && input.callerRole == K.Member && input.guardrails == [] && input.tags == []
      && match K.Evaluate(input).verdict
         case Allowed(id, version) => id == "local" && version == doc.version
         case ApprovalByPolicy(id, version) => id == "local" && version == doc.version
         case DeniedByPolicy(id, version) => id == "local" && version == doc.version
         case _ => false
  {
    var input := Compiled(doc, resource);
    assert K.FirstGuardrail(input, K.EnforceDeny) == 0 && K.FirstGuardrail(input, K.EnforceApproval) == 0;
    assert K.Evaluate(input) == K.EvaluatePolicy(input, "", []);
  }

  // ----- decisions

  /** The credential of the first rule for the tool; an empty credential counts as none. */
  function ObligationsFor(doc: P.Doc, tool: string): seq<Obligation> {
    var n := First(doc.rules, (r: P.Rule) => r.tool == tool);
    if n < |doc.rules| && doc.rules[n].credential.Some? && doc.rules[n].credential.value != "" then
      [CredentialObligation(doc.rules[n].credential.value, None)]
    else []
  }

  /** The decision that the kernel's verdict on the compiled document stands for. */
  function DecisionFor(doc: P.Doc, resource: Resource): Decision {
    Translated(doc, resource, KL.Decide(Compiled(doc, resource)))
  }

  function Translated(doc: P.Doc, resource: Resource, decided: KL.Decision): Decision {
    var version := Numeral(doc.version);
    match decided
    case Allow => Decision(Allow, ObligationsFor(doc, resource.tool), "local", version)
    case Approval => Decision(RequireApproval, ObligationsFor(doc, resource.tool), "local", version)
    case Deny => Decision(Deny, [], "local", version)
  }

  // ----- what a policy text means

  function EffectOf(e: P.RuleEffect): Effect {
    match e
    case Allow => Allow
    case Deny => Deny
    case RequireApproval => RequireApproval
  }

  function DefaultEffectOf(e: P.DefaultEffect): Effect {
    match e
    case DefaultAllow => Allow
    case DefaultDeny => Deny
  }

  predicate Listed(doc: P.Doc, tool: string) {
    exists i | 0 <= i < |doc.rules| :: doc.rules[i].tool == tool
  }

  function OwedBy(rule: P.Rule): seq<Obligation> {
    if rule.effect != P.Deny && rule.credential.Some? && rule.credential.value != "" then
      [CredentialObligation(rule.credential.value, None)]
    else []
  }

  /** A decision that says what the document says of the tool. */
  ghost predicate SaysOf(doc: P.Doc, tool: string, d: Decision) {
    && d.policyId == "local" && d.version == "1"
    && (forall i | 0 <= i < |doc.rules| && doc.rules[i].tool == tool ::
          d.effect == EffectOf(doc.rules[i].effect) && d.obligations == OwedBy(doc.rules[i]))
    && (!Listed(doc, tool) ==> d.effect == DefaultEffectOf(doc.defaults) && d.obligations == [])
  }

  lemma {:induction false} CompiledRuleIs(server: string, rules: seq<P.Rule>)
    ensures |CompiledRules(server, rules)| == |rules|
    ensures forall i | 0 <= i < |rules| :: CompiledRules(server, rules)[i] == CompiledRule(server, rules[i])
  {
    if rules != [] {
      CompiledRuleIs(server, rules[..|rules| - 1]);
    }
  }

  lemma {:induction false} CompiledApprovalIs(server: string, rules: seq<P.Rule>, t: K.Target)
    ensures t in CompiledApprovals(server, rules)
       <==> exists i | 0 <= i < |rules| ::
              rules[i].effect == P.RequireApproval && t == ScopeTarget(server, rules[i].tool)
  {
    if rules != [] {
      var n := |rules| - 1;
      CompiledApprovalIs(server, rules[..n], t);
      if t in CompiledApprovals(server, rules[..n]) {
        var i :| 0 <= i < n
          && rules[..n][i].effect == P.RequireApproval && t == ScopeTarget(server, rules[..n][i].tool);
        assert rules[i].effect == P.RequireApproval && t == ScopeTarget(server, rules[i].tool);
      }
      if i :| 0 <= i < |rules| && rules[i].effect == P.RequireApproval && t == ScopeTarget(server, rules[i].tool) {
        assert i < n ==> rules[..n][i] == rules[i];
      }
    }
  }

  lemma ScopeMatches(resource: Resource, tool: string, input: K.Input)
    requires input.requested == K.Request(resource.server, resource.tool)
    ensures K.Matches(ScopeTarget(resource.server, tool), input) <==> tool == resource.tool
  {
    var a, b := resource.server + ":" + tool, resource.server + ":" + resource.tool;
    var n := |resource.server| + 1;
    assert a[n..] == tool && b[n..] == resource.tool;
  }

  lemma RulesMatch(doc: P.Doc, resource: Resource)
    ensures var input := Compiled(doc, resource); var policy := input.policy.value;
      && (KL.AnyRule(policy, K.DenyRule, input)
          <==> exists i | 0 <= i < |doc.rules| :: doc.rules[i].tool == resource.tool && doc.rules[i].effect == P.Deny)
      && (KL.AnyRule(policy, K.AllowRule, input)
          <==> doc.defaults == P.DefaultAllow
               || exists i | 0 <= i < |doc.rules| ::
                    doc.rules[i].tool == resource.tool && doc.rules[i].effect != P.Deny)
  {
    var input, server := Compiled(doc, resource), resource.server;
    var rules := input.policy.value.rules;
    CompiledRuleIs(server, doc.rules);
    forall i | 0 <= i < |doc.rules|
      ensures rules[i] in rules && rules[i] == CompiledRule(server, doc.rules[i])
      ensures K.Matches(rules[i].target, input) <==> doc.rules[i].tool == resource.tool
    {
      ScopeMatches(resource, doc.rules[i].tool, input);
    }
    assert doc.defaults == P.DefaultAllow ==>
      rules[|doc.rules|] in rules && K.RuleHit(rules[|doc.rules|], K.AllowRule, input);
    assert forall i | 0 <= i < |doc.rules| && doc.rules[i].tool == resource.tool ::
        K.RuleHit(rules[i], if doc.rules[i].effect == P.Deny then K.DenyRule else K.AllowRule, input);
  }

  lemma ApprovalsMatch(doc: P.Doc, resource: Resource)
    ensures var input := Compiled(doc, resource);
      KL.AnyApproval(input.policy.value, input)
      <==> exists i | 0 <= i < |doc.rules| ::
             doc.rules[i].tool == resource.tool && doc.rules[i].effect == P.RequireApproval
  {
    var input, server := Compiled(doc, resource), resource.server;
    if KL.AnyApproval(input.policy.value, input) {
      var t :| t in input.policy.value.approvalRules && K.Matches(t, input);
      CompiledApprovalIs(server, doc.rules, t);
      var i :| 0 <= i < |doc.rules|
        && doc.rules[i].effect == P.RequireApproval && t == ScopeTarget(server, doc.rules[i].tool);
      ScopeMatches(resource, doc.rules[i].tool, input);
    }
    if i :| 0 <= i < |doc.rules| && doc.rules[i].tool == resource.tool && doc.rules[i].effect == P.RequireApproval {
      CompiledApprovalIs(server, doc.rules, ScopeTarget(server, doc.rules[i].tool));
      ScopeMatches(resource, doc.rules[i].tool, input);
    }
  }

  predicate HasRule(doc: P.Doc, tool: string, effect: P.RuleEffect) {
    exists i | 0 <= i < |doc.rules| :: doc.rules[i].tool == tool && doc.rules[i].effect == effect
  }

  /** The strictest of the effects that a document lists for a tool, or its default. */
  function StrictestEffect(doc: P.Doc, tool: string): Effect {
    if HasRule(doc, tool, P.Deny) then Deny
    else if HasRule(doc, tool, P.RequireApproval) then RequireApproval
    else if Listed(doc, tool) then Allow
    else DefaultEffectOf(doc.defaults)
  }

  /**
   For any document, tools listed more than once included: compiled and evaluated, the strictest of a
   tool's rules decides, while the credential is always that of its first rule.
   */
  lemma StrictestRuleDecides(doc: P.Doc, resource: Resource)
    ensures var d := DecisionFor(doc, resource);
      && d.effect == StrictestEffect(doc, resource.tool)
      && d.obligations == if d.effect == Deny then [] else ObligationsFor(doc, resource.tool)
  {
    RulesMatch(doc, resource);
    ApprovalsMatch(doc, resource);
    KL.NamedGuardrailsCount(Compiled(doc, resource));
    if i :| 0 <= i < |doc.rules| && doc.rules[i].tool == resource.tool {
      assert HasRule(doc, resource.tool, doc.rules[i].effect);
    }
  }

  /** All rules for a tool say the same. */
  predicate RulesAgree(doc: P.Doc, tool: string) {
    forall i, j | 0 <= i < |doc.rules| && 0 <= j < |doc.rules| && doc.rules[i].tool == doc.rules[j].tool == tool ::
      doc.rules[i].effect == doc.rules[j].effect && OwedBy(doc.rules[i]) == OwedBy(doc.rules[j])
  }

  lemma NumeralOne(n: nat)
    ensures Numeral(n) == "1" <==> n == 1
  {
    if n >= 10 {
      assert |Numeral(n)| == |Numeral(n / 10)| + 1 > 1;
    }
  }

  /**
   Compiling and running the kernel says what the document says exactly when the document has version
   1 and its rules for the tool agree.
   */
  lemma SaysIffRulesAgree(doc: P.Doc, resource: Resource)
    ensures SaysOf(doc, resource.tool, DecisionFor(doc, resource))
       <==> doc.version == 1 && RulesAgree(doc, resource.tool)
  {
    NumeralOne(doc.version);
    if doc.version == 1 && RulesAgree(doc, resource.tool) {
      AgreedRulesAreSaid(doc, resource);
    }
  }

  lemma AgreedRulesAreSaid(doc: P.Doc, resource: Resource)
    requires doc.version == 1 && RulesAgree(doc, resource.tool)
    ensures SaysOf(doc, resource.tool, DecisionFor(doc, resource))
  {
    var d, tool := DecisionFor(doc, resource), resource.tool;
    var n := First(doc.rules, (r: P.Rule) => r.tool == tool);
    StrictestRuleDecides(doc, resource);
    FirstFinds(doc.rules, (r: P.Rule) => r.tool == tool);
    forall i | 0 <= i < |doc.rules| && doc.rules[i].tool == tool
      ensures d.effect == EffectOf(doc.rules[i].effect) && d.obligations == OwedBy(doc.rules[i])
    {
      assert HasRule(doc, tool, doc.rules[i].effect);
      assert doc.rules[i] in doc.rules;
      assert n < |doc.rules| && doc.rules[n].tool == tool;
    }
    assert !Listed(doc, tool) ==> n == |doc.rules|;
  }

  /** Compiling and running the kernel says what the document says. */
  lemma DecisionSays(doc: P.Doc, resource: Resource)
    requires L.WellFormed(doc)
    ensures SaysOf(doc, resource.tool, DecisionFor(doc, resource))
  {
    assert forall i, j | 0 <= i < |doc.rules| && 0 <= j < |doc.rules| && doc.rules[i].tool == doc.rules[j].tool ::
        i == j;
    SaysIffRulesAgree(doc, resource);
  }

  /**
   From text to decision: for every accepted text and every request, parsing, compiling and
   evaluating give the effect of the one rule for the tool, or the default effect if there is
   none, and that rule's credential is the only obligation on a decision that does not deny.
   */
  lemma TextToDecision(source: string, resource: Resource)
    requires P.Parse(source).Success?
    ensures SaysOf(P.Parse(source).value, resource.tool, DecisionFor(P.Parse(source).value, resource))
  {
    L.AcceptedIsWellFormed(source);
    DecisionSays(P.Parse(source).value, resource);
  }

  /**
   Without the parser's check on tool names the compiled document could say what none of its rules
   says: here the effect of the second rule with the credential of the first.
   */
  lemma DuplicatesAreMixed(resource: Resource)
    ensures var tool := resource.tool;
      var rules := [P.Rule(tool, P.Allow, Some("a")), P.Rule(tool, P.RequireApproval, Some("b"))];
      var d := DecisionFor(P.Doc(1, P.DefaultDeny, rules), resource);
      d.effect == RequireApproval && d.obligations == [CredentialObligation("a", None)]
  {
    var rules := [P.Rule(resource.tool, P.Allow, Some("a")), P.Rule(resource.tool, P.RequireApproval, Some("b"))];
    var doc := P.Doc(1, P.DefaultDeny, rules);
    assert doc.rules[0].tool == doc.rules[1].tool == resource.tool && doc.rules[1].effect == P.RequireApproval;
    assert HasRule(doc, resource.tool, P.RequireApproval);
    StrictestRuleDecides(doc, resource);
    FirstIs(doc.rules, (r: P.Rule) => r.tool == resource.tool, 0);
  }

  // ----- the cached source

  datatype SourceError = Unreadable(reason: string) | Malformed(error: P.ParseError)

  /** The document a file stands for, or why there is none. */
  function Loaded(file: Result<string, string>): Result<P.Doc, SourceError> {
    match file
    case Failure(reason) => Failure(Unreadable(reason))
    case Success(text) =>
      match P.Parse(text)
      case Failure(error) => Failure(Malformed(error))
      case Success(doc) => Success(doc)
  }

  class FilePolicySource {
    var doc: Option<P.Doc>

    constructor ()
      ensures doc == None
    {
      doc := None;
    }

    /** `file` is what reading the file would give at the time of the call. */
    method Load(file: Result<string, string>) returns (r: Result<P.Doc, SourceError>)
      modifies this
      ensures r == if old(doc).Some? then Success(old(doc).value) else Loaded(file)
      ensures doc == if r.Success? then Some(r.value) else None
    {
      if doc.Some? {
        return Success(doc.value);
      }
      if file.Failure? {
        return Failure(Unreadable(file.error));
      }
      var parsed := P.ParsePolicy(file.value);
      if parsed.Failure? {
        return Failure(Malformed(parsed.error));
      }
      doc := Some(parsed.value);
      return Success(parsed.value);
    }

    method Evaluate(resource: Resource, file: Result<string, string>) returns (r: Result<Decision, SourceError>)
      modifies this
      ensures (doc, r) == Call(old(doc), resource, file)
    {
      var loaded := Load(file);
      if loaded.Failure? {
        return Failure(loaded.error);
      }
      var d := loaded.value;
      var input := ToEvaluationInput(d, resource);
      var traced := K.EvaluatePolicyWithTrace(input);
      var decision := Translate(d, resource, traced.verdict);
      return Success(decision);
    }
  }

  method Translate(d: P.Doc, resource: Resource, verdict: K.Verdict) returns (decision: Decision)
    ensures decision == Translated(d, resource, KL.DecisionOf(verdict))
  {
    var version := Numeral(d.version);
    match verdict {
      case Allowed(_, _) =>
        return Decision(Allow, ObligationsFor(d, resource.tool), "local", version);
      case ApprovalByGuardrail(_) | ApprovalByPolicy(_, _) =>
        return Decision(RequireApproval, ObligationsFor(d, resource.tool), "local", version);
      case _ =>
        return Decision(Deny, [], "local", version);
    }
  }

  /** One call: the cache after it and what it returns. */
  function Call(doc: Option<P.Doc>, resource: Resource, file: Result<string, string>)
    : (Option<P.Doc>, Result<Decision, SourceError>)
  {
    var loaded := if doc.Some? then Success(doc.value) else Loaded(file);
    match loaded
    case Failure(error) => (None, Failure(error))
    case Success(d) => (Some(d), Success(DecisionFor(d, resource)))
  }

  /** A call: the request and the file as it is at that time. */
  datatype FileCall = FileCall(resource: Resource, file: Result<string, string>)

  /** What a run of calls on one source returns. */
  function Answers(doc: Option<P.Doc>, calls: seq<FileCall>): (answers: seq<Result<Decision, SourceError>>)
    ensures |answers| == |calls|
    decreases |calls|
  {
    if calls == [] then []
    else
      var (next, answer) := Call(doc, calls[0].resource, calls[0].file);
      [answer] + Answers(next, calls[1..])
  }

  /** The first call whose file can be read and parsed, or the number of calls. */
  function FirstLoaded(calls: seq<FileCall>): (n: nat)
    ensures n <= |calls|
    ensures n < |calls| ==> Loaded(calls[n].file).Success?
    ensures forall k | 0 <= k < n :: Loaded(calls[k].file).Failure?
  {
    First(calls, (c: FileCall) => Loaded(c.file).Success?)
  }

  /**
   Over any run of calls, whatever happens to the file in between: a call before the first
   successful load fails with its own reason, and every later call answers with what that first
   loaded text says of its tool.
   */
  lemma RunAnswersFirstText(calls: seq<FileCall>, k: nat)
    requires k < |calls|
    ensures var n := FirstLoaded(calls); var answer := Answers(None, calls)[k];
      if k < n then answer == Failure(Loaded(calls[k].file).error)
      else answer.Success? && SaysOf(Loaded(calls[n].file).value, calls[k].resource.tool, answer.value)
  {
    var n := FirstLoaded(calls);
    if k < n {
      AnswersBeforeLoad(calls, n, k);
    } else {
      AnswersAfterLoad(calls, n, k);
      var doc := Loaded(calls[n].file).value;
      L.AcceptedIsWellFormed(calls[n].file.value);
      DecisionSays(doc, calls[k].resource);
    }
  }

  lemma {:induction false} AnswersBeforeLoad(calls: seq<FileCall>, n: nat, k: nat)
    requires k < n <= |calls| && forall i | 0 <= i < n :: Loaded(calls[i].file).Failure?
    ensures Answers(None, calls)[k] == Failure(Loaded(calls[k].file).error)
  {
    if k > 0 {
      AnswersBeforeLoad(calls[1..], n - 1, k - 1);
    }
  }

  lemma {:induction false} AnswersGoOn(calls: seq<FileCall>, k: nat)
    requires 0 < k < |calls| && Loaded(calls[0].file).Failure?
    ensures Answers(None, calls)[k] == Answers(None, calls[1..])[k - 1]
  {
  }

  lemma {:induction false} LoadedAnswers(calls: seq<FileCall>, k: nat)
    requires k < |calls| && Loaded(calls[0].file).Success?
    ensures Answers(None, calls)[k] == Success(DecisionFor(Loaded(calls[0].file).value, calls[k].resource))
  {
    var doc := Loaded(calls[0].file).value;
    AnswersOfCached(doc, calls[1..]);
  }

  lemma {:induction false} AnswersAfterLoad(calls: seq<FileCall>, n: nat, k: nat)
    requires n <= k < |calls| && Loaded(calls[n].file).Success?
    requires forall i | 0 <= i < n :: Loaded(calls[i].file).Failure?
    ensures Answers(None, calls)[k] == Success(DecisionFor(Loaded(calls[n].file).value, calls[k].resource))
  {
    if n > 0 {
      AnswersGoOn(calls, k);
      AnswersAfterLoad(calls[1..], n - 1, k - 1);
    } else {
      LoadedAnswers(calls, k);
    }
  }

  lemma {:induction false} AnswersOfCached(doc: P.Doc, calls: seq<FileCall>)
    ensures forall k | 0 <= k < |calls| :: Answers(Some(doc), calls)[k] == Success(DecisionFor(doc, calls[k].resource))
  {
    if calls != [] {
      AnswersOfCached(doc, calls[1..]);
    }
  }
}
