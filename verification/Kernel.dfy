/**
 The policy kernel: one verdict and the trace of events that led to it, computed by five loops
 with early exits. `Evaluate` is the same computation by first positions, which the laws are
 stated on.
 */
module Kernel {
  import opened Wrappers
  import opened Sequences

  datatype TargetType = Platform | Tag | Scope

  datatype Effect = AllowRule | DenyRule

  datatype Role = Admin | Member

  datatype Target = Target(targetType: TargetType, targetValue: string)

  datatype PolicyRule = PolicyRule(effect: Effect, target: Target)

  datatype Enforcement = EnforceDeny | EnforceApproval

  datatype Guardrail = Guardrail(id: string, enforcement: Enforcement, target: Target, appliesToRole: Option<Role>)

  datatype Snapshot = Snapshot(id: string, version: nat, rules: seq<PolicyRule>, approvalRules: seq<Target>)

  datatype Request = Request(platformId: string, scopeId: string)

  datatype Input = Input(
    policy: Option<Snapshot>,
    guardrails: seq<Guardrail>,
    callerRole: Role,
    tags: seq<string>,
    requested: Request)

  datatype Verdict =
    | Allowed(policyId: string, policyVersion: nat)
    | ApprovalByGuardrail(guardrailId: string)
    | ApprovalByPolicy(policyId: string, policyVersion: nat)
    | NoPolicyAssigned
    | DeniedByGuardrail(guardrailId: string)
    | DeniedByPolicy(policyId: string, policyVersion: nat)

  datatype Event =
    | GuardrailSkippedRole(guardrailId: string, appliesToRole: Role)
    | GuardrailDenyMatched(guardrailId: string, target: Target)
    | GuardrailApprovalMatched(guardrailId: string, target: Target)
    | NoPolicy
    | PolicyAllowMatched(policyId: string, target: Target)
    | PolicyNoAllowMatched(policyId: string, allowRulesConsidered: nat)
    | PolicyDenyMatched(policyId: string, target: Target)
    | PolicyApprovalMatched(policyId: string, target: Target)

  datatype Traced = Traced(verdict: Verdict, events: seq<Event>)

  predicate Matches(t: Target, input: Input) {
    match t.targetType
    case Platform => t.targetValue == input.requested.platformId
    case Tag => t.targetValue in input.tags
    case Scope => t.targetValue == input.requested.platformId + ":" + input.requested.scopeId
  }

  predicate SkippedByRole(g: Guardrail, input: Input) {
    g.appliesToRole.Some? && g.appliesToRole.value != input.callerRole
  }

  /** A guardrail of this kind that applies to the caller and matches the request. */
  predicate Hit(g: Guardrail, enforcement: Enforcement, input: Input) {
    !SkippedByRole(g, input) && Matches(g.target, input) && g.enforcement == enforcement
  }

  predicate RuleHit(r: PolicyRule, effect: Effect, input: Input) {
    r.effect == effect && Matches(r.target, input)
  }

  // ----- first positions

  function FirstGuardrail(input: Input, enforcement: Enforcement): (n: nat)
    ensures n <= |input.guardrails|
  {
    First(input.guardrails, g => Hit(g, enforcement, input))
  }

  function FirstRule(rules: seq<PolicyRule>, effect: Effect, input: Input): (n: nat)
    ensures n <= |rules|
  {
    First(rules, r => RuleHit(r, effect, input))
  }

  function FirstApproval(targets: seq<Target>, input: Input): (n: nat)
    ensures n <= |targets|
  {
    First(targets, t => Matches(t, input))
  }

  // ----- the verdict and its trace

  /** One event for each of these guardrails that is for another role. */
  function Skips(guardrails: seq<Guardrail>, input: Input): seq<Event> {
    if guardrails == [] then []
    else
      var last := guardrails[|guardrails| - 1];
      Skips(guardrails[..|guardrails| - 1], input)
      + (if SkippedByRole(last, input) then [GuardrailSkippedRole(last.id, last.appliesToRole.value)] else [])
  }

  function CountAllow(rules: seq<PolicyRule>): nat {
    if rules == [] then 0
    else CountAllow(rules[..|rules| - 1]) + (if rules[|rules| - 1].effect == AllowRule then 1 else 0)
  }

  function Evaluate(input: Input): Traced {
    var guardrails := input.guardrails;
    var deny := FirstGuardrail(input, EnforceDeny);
    var skips := Skips(guardrails[..deny], input);
    if deny < |guardrails| then
      var g := guardrails[deny];
      Traced(DeniedByGuardrail(g.id), skips + [GuardrailDenyMatched(g.id, g.target)])
    else
      var approval := FirstGuardrail(input, EnforceApproval);
      if approval < |guardrails| then
        var g := guardrails[approval];
        EvaluatePolicy(input, g.id, skips + [GuardrailApprovalMatched(g.id, g.target)])
      else EvaluatePolicy(input, "", skips)
  }

  /** The policy's part; `guardrailId` is empty when no guardrail asked for approval. */
  function EvaluatePolicy(input: Input, guardrailId: string, events: seq<Event>): Traced {
    match input.policy
    case None => Traced(NoPolicyAssigned, events + [NoPolicy])
    case Some(policy) =>
      var denied := DeniedByPolicy(policy.id, policy.version);
      var allow := FirstRule(policy.rules, AllowRule, input);
      if allow == |policy.rules| then
        Traced(denied, events + [PolicyNoAllowMatched(policy.id, CountAllow(policy.rules))])
      else
        var allowed := events + [PolicyAllowMatched(policy.id, policy.rules[allow].target)];
        var deny := FirstRule(policy.rules, DenyRule, input);
        if deny < |policy.rules| then
          Traced(denied, allowed + [PolicyDenyMatched(policy.id, policy.rules[deny].target)])
        else
          var approval := FirstApproval(policy.approvalRules, input);
          var asked := approval < |policy.approvalRules|;
          Traced(
            if guardrailId != "" then ApprovalByGuardrail(guardrailId)
            else if asked then ApprovalByPolicy(policy.id, policy.version)
            else Allowed(policy.id, policy.version),
            allowed + if asked then [PolicyApprovalMatched(policy.id, policy.approvalRules[approval])] else [])
  }

  // ----- the program's loops

  method EvaluatePolicyWithTrace(input: Input) returns (t: Traced)
    ensures t == Evaluate(input)
  {
    var guardrails := input.guardrails;
    var events: seq<Event> := [];
    ghost var isDeny := (g: Guardrail) => Hit(g, EnforceDeny, input);
    ghost var isApproval := (g: Guardrail) => Hit(g, EnforceApproval, input);

    // Guardrails, the deny pass.
    for i := 0 to |guardrails|
      invariant forall k | 0 <= k < i :: !isDeny(guardrails[k])
      invariant events == Skips(guardrails[..i], input)
    {
      assert guardrails[..i + 1][..i] == guardrails[..i];
      var g := guardrails[i];
      if g.appliesToRole.Some? && g.appliesToRole.value != input.callerRole {
        events := events + [GuardrailSkippedRole(g.id, g.appliesToRole.value)];
        continue;
      }
      if !Matches(g.target, input) {
        continue;
      }
      if g.enforcement == EnforceDeny {
        FirstIs(guardrails, isDeny, i);
        events := events + [GuardrailDenyMatched(g.id, g.target)];
        return Traced(DeniedByGuardrail(g.id), events);
      }
    }
    assert guardrails[..|guardrails|] == guardrails;
    FirstIs(guardrails, isDeny, |guardrails|);

    // Guardrails, the approval pass.
    var guardrailApprovalId: Option<string> := None;
    ghost var skips := events;
    ghost var approval := First(guardrails, isApproval);
    for i := 0 to |guardrails|
      invariant forall k | 0 <= k < i :: !isApproval(guardrails[k])
      invariant guardrailApprovalId == None && events == skips
    {
      var g := guardrails[i];
      if g.appliesToRole.Some? && g.appliesToRole.value != input.callerRole {
        continue;
      }
      if !Matches(g.target, input) {
        continue;
      }
      if g.enforcement == EnforceApproval {
        FirstIs(guardrails, isApproval, i);
        guardrailApprovalId := Some(g.id);
        events := events + [GuardrailApprovalMatched(g.id, g.target)];
        break;
      }
    }
    assert guardrailApprovalId == if approval < |guardrails| then Some(guardrails[approval].id) else None;
    var id := if guardrailApprovalId.Some? then guardrailApprovalId.value else "";
    t := PolicyPart(input, id, events);
  }

  method PolicyPart(input: Input, guardrailId: string, before: seq<Event>) returns (t: Traced)
    ensures t == EvaluatePolicy(input, guardrailId, before)
  {
    var events := before;
    if input.policy.None? {
      events := events + [NoPolicy];
      return Traced(NoPolicyAssigned, events);
    }
    var policy := input.policy.value;
    var rules := policy.rules;
    ghost var isAllow := (r: PolicyRule) => RuleHit(r, AllowRule, input);
    ghost var isDeny := (r: PolicyRule) => RuleHit(r, DenyRule, input);
    ghost var isTarget := (a: Target) => Matches(a, input);

    // At least one allow rule.
    var hasAllow, allowRulesConsidered := false, 0;
    for i := 0 to |rules|
      invariant forall k | 0 <= k < i :: !isAllow(rules[k])
      invariant !hasAllow && events == before
      invariant allowRulesConsidered == CountAllow(rules[..i])
    {
      assert rules[..i + 1][..i] == rules[..i];
      var r := rules[i];
      if r.effect != AllowRule {
        continue;
      }
      allowRulesConsidered := allowRulesConsidered + 1;
      if Matches(r.target, input) {
        FirstIs(rules, isAllow, i);
        hasAllow := true;
        events := events + [PolicyAllowMatched(policy.id, r.target)];
        break;
      }
    }
    assert rules[..|rules|] == rules;
    if !hasAllow {
      FirstIs(rules, isAllow, |rules|);
      events := events + [PolicyNoAllowMatched(policy.id, allowRulesConsidered)];
      return Traced(DeniedByPolicy(policy.id, policy.version), events);
    }
    ghost var allowed := events;

    // No deny rule.
    for i := 0 to |rules|
      invariant forall k | 0 <= k < i :: !isDeny(rules[k])
      invariant events == allowed
    {
      var r := rules[i];
      if r.effect != DenyRule {
        continue;
      }
      if Matches(r.target, input) {
        FirstIs(rules, isDeny, i);
        events := events + [PolicyDenyMatched(policy.id, r.target)];
        return Traced(DeniedByPolicy(policy.id, policy.version), events);
      }
    }
    FirstIs(rules, isDeny, |rules|);

    // Approval rules.
    var policyApproval := false;
    for i := 0 to |policy.approvalRules|
      invariant forall k | 0 <= k < i :: !isTarget(policy.approvalRules[k])
      invariant !policyApproval && events == allowed
    {
      var a := policy.approvalRules[i];
      if Matches(a, input) {
        FirstIs(policy.approvalRules, isTarget, i);
        policyApproval := true;
        events := events + [PolicyApprovalMatched(policy.id, a)];
        break;
      }
    }
    if !policyApproval {
      FirstIs(policy.approvalRules, isTarget, |policy.approvalRules|);
    }
    ghost var first := FirstApproval(policy.approvalRules, input);
    assert events == allowed
      + (if policyApproval then [PolicyApprovalMatched(policy.id, policy.approvalRules[first])] else []);

    // The test on the guardrail is one of truth: an empty id counts as no guardrail.
    if guardrailId != "" {
      return Traced(ApprovalByGuardrail(guardrailId), events);
    }
    if policyApproval {
      return Traced(ApprovalByPolicy(policy.id, policy.version), events);
    }
    return Traced(Allowed(policy.id, policy.version), events);
  }
}
