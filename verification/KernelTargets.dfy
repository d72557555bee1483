/** What the kernel's targets and roles name, told by decisions alone. */
module KernelTargets {
  import opened Sequences
  import opened Wrappers
  import opened Kernel
  import opened KernelLaws

  /** The same request against one rule of a policy that has nothing else. */
  function UnderOneRule(input: Input, id: string, version: nat, effect: Effect, target: Target): Input {
    input.(policy := Some(Snapshot(id, version, [PolicyRule(effect, target)], [])), guardrails := [])
  }

  /** A target names a request by its platform, by one of its tags, or by its scope behind platform and colon. */
  predicate Names(target: Target, input: Input) {
    var name, platform, scope := target.targetValue, input.requested.platformId, input.requested.scopeId;
    || (target.targetType == Platform && name == platform)
    || (target.targetType == Tag && exists i | 0 <= i < |input.tags| :: input.tags[i] == name)
    || (target.targetType == Scope
        && |name| == |platform| + 1 + |scope|
        && platform <= name && name[|platform|] == ':' && name[|platform| + 1..] == scope)
  }

  lemma MatchesNamed(target: Target, input: Input)
    ensures Matches(target, input) <==> Names(target, input)
  {
    var name, platform, scope := target.targetValue, input.requested.platformId, input.requested.scopeId;
    if target.targetType == Scope && Names(target, input) {
      assert name == name[..|platform|] + [name[|platform|]] + name[|platform| + 1..];
    }
  }

  /** One rule alone lets a request through exactly when it allows and names it. */
  lemma OneRuleDecides(input: Input, id: string, version: nat, effect: Effect, target: Target)
    ensures Evaluate(UnderOneRule(input, id, version, effect, target)).verdict
         == if effect == AllowRule && Names(target, input) then Allowed(id, version) else DeniedByPolicy(id, version)
  {
    var one := UnderOneRule(input, id, version, effect, target);
    MatchesNamed(target, input);
    assert Matches(target, one) == Matches(target, input);
    var rules := one.policy.value.rules;
    FirstIs(rules, r => RuleHit(r, AllowRule, one), if effect == AllowRule && Matches(target, input) then 0 else 1);
    if effect == AllowRule {
      FirstIs(rules, r => RuleHit(r, DenyRule, one), 1);
    }
  }

  // ----- roles

  /** The guardrails for everyone and for the caller's role, written as guardrails for everyone. */
  function OwnGuardrails(input: Input): seq<Guardrail> {
    ForAll(input.guardrails, input.callerRole)
  }

  function ForAll(guardrails: seq<Guardrail>, role: Role): seq<Guardrail> {
    if guardrails == [] then []
    else
      var g := guardrails[0];
      (if g.appliesToRole.None? || g.appliesToRole.value == role then [g.(appliesToRole := None)] else [])
      + ForAll(guardrails[1..], role)
  }

  /**
   A guardrail for the caller's role counts like one for everyone, and one for another role like none:
   the verdict is that on the caller's own guardrails.
   */
  lemma OnlyOwnGuardrailsCount(input: Input)
    ensures Evaluate(input).verdict == Evaluate(input.(guardrails := OwnGuardrails(input))).verdict
  {
    var own := input.(guardrails := OwnGuardrails(input));
    FirstOfOwn(input, own, input.guardrails, EnforceDeny);
    FirstOfOwn(input, own, input.guardrails, EnforceApproval);
    SamePolicyPart(input, own);
  }

  function HitOf(input: Input, enforcement: Enforcement): Guardrail -> bool {
    g => Hit(g, enforcement, input)
  }

  /** The first hit among guardrails and the first among the caller's own have the same id. */
  lemma {:induction false} FirstOfOwn(input: Input, own: Input, guardrails: seq<Guardrail>, enforcement: Enforcement)
    requires own.callerRole == input.callerRole && own.tags == input.tags && own.requested == input.requested
    ensures var all := ForAll(guardrails, input.callerRole);
      var n, m := First(guardrails, HitOf(input, enforcement)), First(all, HitOf(own, enforcement));
      (n < |guardrails| <==> m < |all|) && (n < |guardrails| ==> guardrails[n].id == all[m].id)
  {
    if guardrails != [] {
      var g, rest := guardrails[0], guardrails[1..];
      var all, others := ForAll(guardrails, input.callerRole), ForAll(rest, input.callerRole);
      FirstOfOwn(input, own, rest, enforcement);
      assert Matches(g.target, own) == Matches(g.target, input);
      FirstBehind(g, rest, HitOf(input, enforcement));
      if g.appliesToRole.None? || g.appliesToRole.value == input.callerRole {
        FirstBehind(g.(appliesToRole := None), others, HitOf(own, enforcement));
        assert guardrails == [g] + rest && all == [g.(appliesToRole := None)] + others;
      } else {
        assert guardrails == [g] + rest && all == others;
      }
    }
  }

  lemma FirstBehind<T>(x: T, rest: seq<T>, p: T -> bool)
    ensures First([x] + rest, p) == if p(x) then 0 else 1 + First(rest, p)
  {
    var n := First(rest, p);
    if !p(x) {
      FirstIs([x] + rest, p, n + 1);
    }
  }

  lemma SamePolicyPart(input: Input, own: Input)
    requires own == input.(guardrails := own.guardrails)
    ensures forall id, a, b ::
      EvaluatePolicy(input, id, a).verdict == EvaluatePolicy(own, id, b).verdict
  {
    SameRules(input, own);
  }

  /** A verdict of the policy names the policy and its version; no other verdict says that there is none. */
  lemma VerdictNamesPolicy(input: Input)
    ensures match Evaluate(input).verdict
            case Allowed(id, version) =>
              input.policy.Some? && id == input.policy.value.id && version == input.policy.value.version
            case ApprovalByPolicy(id, version) =>
              input.policy.Some? && id == input.policy.value.id && version == input.policy.value.version
            case DeniedByPolicy(id, version) =>
              input.policy.Some? && id == input.policy.value.id && version == input.policy.value.version
            case NoPolicyAssigned => input.policy.None?
            case DeniedByGuardrail(_) => AnyGuardrail(input, EnforceDeny)
            case ApprovalByGuardrail(_) => input.policy.Some? && AnyGuardrail(input, EnforceApproval)
  {
    FirstsFind(input);
  }
}
