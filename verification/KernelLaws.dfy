/** What the kernel's verdict means, what changes it, and what its trace tells. */
module KernelLaws {
  import opened Wrappers
  import opened Sequences
  import opened Kernel

  datatype Decision = Deny | Approval | Allow

  function DecisionOf(v: Verdict): Decision {
    match v
    case Allowed(_, _) => Allow
    case ApprovalByGuardrail(_) => Approval
    case ApprovalByPolicy(_, _) => Approval
    case NoPolicyAssigned => Deny
    case DeniedByGuardrail(_) => Deny
    case DeniedByPolicy(_, _) => Deny
  }

  function Decide(input: Input): Decision {
    DecisionOf(Evaluate(input).verdict)
  }

  /** Deny below approval below allow. */
  function Rank(d: Decision): nat {
    match d
    case Deny => 0
    case Approval => 1
    case Allow => 2
  }

  // ----- the declarative rule

  predicate AnyGuardrail(input: Input, enforcement: Enforcement) {
    exists g | g in input.guardrails :: Hit(g, enforcement, input)
  }

  predicate AnyRule(policy: Snapshot, effect: Effect, input: Input) {
    exists r | r in policy.rules :: RuleHit(r, effect, input)
  }

  predicate AnyApproval(policy: Snapshot, input: Input) {
    exists t | t in policy.approvalRules :: Matches(t, input)
  }

  /** Nothing denies the request. */
  predicate Cleared(input: Input) {
    && !AnyGuardrail(input, EnforceDeny)
    && input.policy.Some?
    && AnyRule(input.policy.value, AllowRule, input)
    && !AnyRule(input.policy.value, DenyRule, input)
  }

  /** The documented meaning, which knows nothing of positions. */
  function Declared(input: Input): Decision {
    if !Cleared(input) then Deny
    else if AnyGuardrail(input, EnforceApproval) || AnyApproval(input.policy.value, input) then Approval
    else Allow
  }

  /**
   The approval guardrail that the kernel drops: the first to match has an empty id, and no
   approval rule asks for approval either.
   */
  predicate Dropped(input: Input) {
    var n := FirstGuardrail(input, EnforceApproval);
    && Cleared(input)
    && n < |input.guardrails| && input.guardrails[n].id == ""
    && !AnyApproval(input.policy.value, input)
  }

  predicate GuardrailsNamed(input: Input) {
    forall g | g in input.guardrails :: g.id != ""
  }

  lemma FirstsFind(input: Input)
    ensures FirstGuardrail(input, EnforceDeny) < |input.guardrails| <==> AnyGuardrail(input, EnforceDeny)
    ensures FirstGuardrail(input, EnforceApproval) < |input.guardrails| <==> AnyGuardrail(input, EnforceApproval)
    ensures input.policy.Some? ==>
      var policy := input.policy.value;
      && (FirstRule(policy.rules, AllowRule, input) < |policy.rules| <==> AnyRule(policy, AllowRule, input))
      && (FirstRule(policy.rules, DenyRule, input) < |policy.rules| <==> AnyRule(policy, DenyRule, input))
      && (FirstApproval(policy.approvalRules, input) < |policy.approvalRules| <==> AnyApproval(policy, input))
  {
    FirstFinds(input.guardrails, g => Hit(g, EnforceDeny, input));
    FirstFinds(input.guardrails, g => Hit(g, EnforceApproval, input));
    if input.policy.Some? {
      var policy := input.policy.value;
      FirstFinds(policy.rules, r => RuleHit(r, AllowRule, input));
      FirstFinds(policy.rules, r => RuleHit(r, DenyRule, input));
      FirstFinds(policy.approvalRules, t => Matches(t, input));
    }
  }

  /** The five loops compute the declarative rule, except that a dropped guardrail lets the call through. */
  lemma DecisionIsDeclared(input: Input)
    ensures Decide(input) == Declared(input) <==> !Dropped(input)
    ensures Dropped(input) ==> Declared(input) == Approval && Decide(input) == Allow
  {
    FirstsFind(input);
  }

  lemma NamedGuardrailsCount(input: Input)
    requires GuardrailsNamed(input)
    ensures Decide(input) == Declared(input)
  {
    DecisionIsDeclared(input);
    var n := FirstGuardrail(input, EnforceApproval);
    if n < |input.guardrails| {
      assert input.guardrails[n] in input.guardrails;
    }
  }

  // ----- order does not matter

  /** The same request against the same guardrails, rules and approval rules in any order. */
  predicate Reordered(a: Input, b: Input) {
    && a.callerRole == b.callerRole && a.tags == b.tags && a.requested == b.requested
    && multiset(a.guardrails) == multiset(b.guardrails)
    && a.policy.Some? == b.policy.Some?
    && (a.policy.Some? ==>
          && multiset(a.policy.value.rules) == multiset(b.policy.value.rules)
          && multiset(a.policy.value.approvalRules) == multiset(b.policy.value.approvalRules))
  }

  lemma SameMembers<T>(a: seq<T>, b: seq<T>)
    requires multiset(a) == multiset(b)
    ensures forall x :: x in a <==> x in b
  {
    assert forall x :: x in a <==> x in multiset(a);
    assert forall x :: x in b <==> x in multiset(b);
  }

  /** Reordering keeps the decision exactly when a guardrail is dropped in both orders or in neither. */
  lemma OrderMattersIffDropped(a: Input, b: Input)
    requires Reordered(a, b)
    ensures Decide(a) == Decide(b) <==> (Dropped(a) <==> Dropped(b))
  {
    DecisionIsDeclared(a);
    DecisionIsDeclared(b);
    DeclaredKnowsNoOrder(a, b);
  }

  lemma OrderDoesNotMatter(a: Input, b: Input)
    requires Reordered(a, b) && GuardrailsNamed(a)
    ensures Decide(a) == Decide(b)
  {
    SameMembers(a.guardrails, b.guardrails);
    NamedGuardrailsCount(a);
    NamedGuardrailsCount(b);
    DeclaredKnowsNoOrder(a, b);
  }

  lemma DeclaredKnowsNoOrder(a: Input, b: Input)
    requires Reordered(a, b)
    ensures Declared(a) == Declared(b)
  {
    SameMembers(a.guardrails, b.guardrails);
    if a.policy.Some? {
      SameMembers(a.policy.value.rules, b.policy.value.rules);
      SameMembers(a.policy.value.approvalRules, b.policy.value.approvalRules);
    }
    SameHits(a, b);
    SameHits(b, a);
  }

  lemma SameHits(a: Input, b: Input)
    requires a.callerRole == b.callerRole && a.tags == b.tags && a.requested == b.requested
    requires forall g | g in a.guardrails :: g in b.guardrails
    requires a.policy.Some? == b.policy.Some?
    requires a.policy.Some? ==> forall r | r in a.policy.value.rules :: r in b.policy.value.rules
    requires a.policy.Some? ==> forall t | t in a.policy.value.approvalRules :: t in b.policy.value.approvalRules
    ensures AnyGuardrail(a, EnforceDeny) ==> AnyGuardrail(b, EnforceDeny)
    ensures AnyGuardrail(a, EnforceApproval) ==> AnyGuardrail(b, EnforceApproval)
    ensures a.policy.Some? ==> forall e :: AnyRule(a.policy.value, e, a) ==> AnyRule(b.policy.value, e, b)
    ensures a.policy.Some? ==> (AnyApproval(a.policy.value, a) ==> AnyApproval(b.policy.value, b))
  {
    assert forall t :: Matches(t, a) == Matches(t, b);
    assert forall g, e :: Hit(g, e, a) == Hit(g, e, b);
    assert forall r, e :: RuleHit(r, e, a) == RuleHit(r, e, b);
  }

  /** With an empty id the order does matter: the same two guardrails, exchanged, decide differently. */
  lemma OrderMattersForEmptyIds()
    ensures exists a, b :: Reordered(a, b) && Decide(a) == Allow && Decide(b) == Approval
  {
    var a, b := TwoGuardrails("", "g"), TwoGuardrails("g", "");
    assert multiset(a.guardrails) == multiset(b.guardrails);
    assert Reordered(a, b);
    TwoGuardrailsDecide("", "g");
    TwoGuardrailsDecide("g", "");
  }

  /** Everything is allowed and two guardrails ask for approval of everything. */
  function TwoGuardrails(id1: string, id2: string): Input {
    var everything := Target(Platform, "p");
    Input(Some(Snapshot("local", 1, [PolicyRule(AllowRule, everything)], [])),
          [Guardrail(id1, EnforceApproval, everything, None), Guardrail(id2, EnforceApproval, everything, None)],
          Member, [], Request("p", "s"))
  }

  lemma TwoGuardrailsDecide(id1: string, id2: string)
    ensures Decide(TwoGuardrails(id1, id2)) == if id1 == "" then Allow else Approval
  {
    var input := TwoGuardrails(id1, id2);
    var rules := input.policy.value.rules;
    FirstIs(input.guardrails, g => Hit(g, EnforceApproval, input), 0);
    FirstIs(rules, r => RuleHit(r, AllowRule, input), 0);
  }

  // ----- adding rules

  function Inserted<T>(s: seq<T>, i: nat, x: T): seq<T>
    requires i <= |s|
  {
    s[..i] + [x] + s[i..]
  }

  lemma InsertedMembers<T>(s: seq<T>, i: nat, x: T)
    requires i <= |s|
    ensures forall y :: y in Inserted(s, i, x) <==> y == x || y in s
  {
    assert s == s[..i] + s[i..];
  }

  function WithPolicy(input: Input, rules: seq<PolicyRule>, approvalRules: seq<Target>): Input
    requires input.policy.Some?
  {
    input.(policy := Some(input.policy.value.(rules := rules, approvalRules := approvalRules)))
  }

  /**
   Put at position `i`, the guardrail is the first to ask for approval and has an empty id; it hides
   one with an id, and nothing else asks for approval of a request that nothing denies.
   */
  predicate Hides(input: Input, i: nat, g: Guardrail) {
    var n := FirstGuardrail(input, EnforceApproval);
    && Hit(g, EnforceApproval, input) && g.id == ""
    && i <= n < |input.guardrails| && input.guardrails[n].id != ""
    && Cleared(input) && !AnyApproval(input.policy.value, input)
  }

  /** One more guardrail, anywhere in the list, raises the decision exactly when it hides one. */
  lemma AddGuardrail(input: Input, i: nat, g: Guardrail)
    requires i <= |input.guardrails|
    ensures var more := input.(guardrails := Inserted(input.guardrails, i, g));
      Rank(Decide(more)) <= Rank(Decide(input)) <==> !Hides(input, i, g)
  {
    AddedAndDropped(input, i, g);
    HidingDrops(input, i, g);
  }

  lemma AddedAndDropped(input: Input, i: nat, g: Guardrail)
    requires i <= |input.guardrails|
    ensures var more := input.(guardrails := Inserted(input.guardrails, i, g));
      Rank(Decide(more)) <= Rank(Decide(input)) <==> !(Dropped(more) && Decide(input) == Approval)
  {
    var more := input.(guardrails := Inserted(input.guardrails, i, g));
    InsertedMembers(input.guardrails, i, g);
    DecisionIsDeclared(input);
    DecisionIsDeclared(more);
    SameHits(input, more);
    SameRules(input, more);
  }

  lemma HidingDrops(input: Input, i: nat, g: Guardrail)
    requires i <= |input.guardrails|
    ensures var more := input.(guardrails := Inserted(input.guardrails, i, g));
      Hides(input, i, g) <==> Dropped(more) && Decide(input) == Approval
  {
    var more := input.(guardrails := Inserted(input.guardrails, i, g));
    DecisionIsDeclared(input);
    ClearedAfterInsertion(input, i, g);
    FirstAfterInsertion(input, i, g);
    FirstsFind(input);
  }

  /** A guardrail that asks for approval denies nothing; no guardrail clears what was denied. */
  lemma ClearedAfterInsertion(input: Input, i: nat, g: Guardrail)
    requires i <= |input.guardrails|
    ensures var more := input.(guardrails := Inserted(input.guardrails, i, g));
      && (Cleared(more) ==> Cleared(input))
      && (Cleared(input) && !Hit(g, EnforceDeny, input) ==> Cleared(more))
      && (input.policy.Some? ==> AnyApproval(input.policy.value, input) == AnyApproval(input.policy.value, more))
  {
    var more := input.(guardrails := Inserted(input.guardrails, i, g));
    InsertedMembers(input.guardrails, i, g);
    SameHits(input, more);
    SameRules(input, more);
    assert forall x, e :: Hit(x, e, input) == Hit(x, e, more);
  }

  /** The first guardrail to ask for approval is the new one, or the one that was first before. */
  lemma FirstAfterInsertion(input: Input, i: nat, g: Guardrail)
    requires i <= |input.guardrails|
    ensures var more := input.(guardrails := Inserted(input.guardrails, i, g));
      var n := FirstGuardrail(input, EnforceApproval);
      FirstGuardrail(more, EnforceApproval)
      == if i <= n then (if Hit(g, EnforceApproval, input) then i else n + 1) else n
  {
    var guardrails := Inserted(input.guardrails, i, g);
    var more := input.(guardrails := guardrails);
    var n := FirstGuardrail(input, EnforceApproval);
    var first := if i <= n then (if Hit(g, EnforceApproval, input) then i else n + 1) else n;
    assert forall x, e :: Hit(x, e, input) == Hit(x, e, more);
    assert forall k | 0 <= k < i :: guardrails[k] == input.guardrails[k];
    assert forall k | i < k < |guardrails| :: guardrails[k] == input.guardrails[k - 1];
    FirstIs(guardrails, x => Hit(x, EnforceApproval, more), first);
  }

  /** Everything is allowed and one guardrail asks for approval: a second one without an id lifts that. */
  lemma GuardrailRaises()
    ensures exists input: Input, g: Guardrail :: var more := input.(guardrails := Inserted(input.guardrails, 0, g));
      Decide(input) == Approval && Decide(more) == Allow
  {
    var two := TwoGuardrails("", "g");
    var g := two.guardrails[0];
    var input := two.(guardrails := [two.guardrails[1]]);
    assert Inserted(input.guardrails, 0, g) == two.guardrails;
    TwoGuardrailsDecide("", "g");
    FirstIs(input.guardrails, x => Hit(x, EnforceApproval, input), 0);
    FirstIs(input.policy.value.rules, r => RuleHit(r, AllowRule, input), 0);
    assert Decide(input) == Approval && Decide(input.(guardrails := Inserted(input.guardrails, 0, g))) == Allow;
  }

  lemma SameRules(a: Input, b: Input)
    requires a.callerRole == b.callerRole && a.tags == b.tags && a.requested == b.requested && a.policy == b.policy
    ensures a.policy.Some? ==> forall e :: AnyRule(a.policy.value, e, a) == AnyRule(b.policy.value, e, b)
    ensures a.policy.Some? ==> AnyApproval(a.policy.value, a) == AnyApproval(b.policy.value, b)
  {
    assert forall t :: Matches(t, a) == Matches(t, b);
    assert forall r, e :: RuleHit(r, e, a) == RuleHit(r, e, b);
  }

  lemma SameGuardrails(a: Input, b: Input)
    requires a.callerRole == b.callerRole && a.tags == b.tags && a.requested == b.requested
    requires a.guardrails == b.guardrails
    ensures forall e :: AnyGuardrail(a, e) == AnyGuardrail(b, e)
    ensures FirstGuardrail(a, EnforceApproval) == FirstGuardrail(b, EnforceApproval)
  {
    assert forall t :: Matches(t, a) == Matches(t, b);
    assert forall g, e :: Hit(g, e, a) == Hit(g, e, b);
  }

  /** One more deny rule, anywhere, never raises the decision; one more allow rule never lowers it. */
  lemma AddRule(input: Input, i: nat, r: PolicyRule)
    requires input.policy.Some? && i <= |input.policy.value.rules|
    ensures var policy := input.policy.value;
      var more := WithPolicy(input, Inserted(policy.rules, i, r), policy.approvalRules);
      && (r.effect == DenyRule ==> Rank(Decide(more)) <= Rank(Decide(input)))
      && (r.effect == AllowRule ==> Rank(Decide(input)) <= Rank(Decide(more)))
  {
    var policy := input.policy.value;
    var more := WithPolicy(input, Inserted(policy.rules, i, r), policy.approvalRules);
    InsertedMembers(policy.rules, i, r);
    DecisionIsDeclared(input);
    DecisionIsDeclared(more);
    SameGuardrails(input, more);
    SameHits(input, more);
    RulesOfOtherEffect(input, more, r);
  }

  lemma RulesOfOtherEffect(input: Input, more: Input, r: PolicyRule)
    requires input.callerRole == more.callerRole && input.tags == more.tags && input.requested == more.requested
    requires input.policy.Some? && more.policy.Some?
    requires forall x :: x in more.policy.value.rules <==> x == r || x in input.policy.value.rules
    requires more.policy.value.approvalRules == input.policy.value.approvalRules
    ensures forall e ::
      e != r.effect ==> (AnyRule(input.policy.value, e, input) <==> AnyRule(more.policy.value, e, more))
    ensures AnyApproval(input.policy.value, input) <==> AnyApproval(more.policy.value, more)
  {
    assert forall t :: Matches(t, input) == Matches(t, more);
    assert forall x, e :: RuleHit(x, e, input) == RuleHit(x, e, more);
  }

  /** One more approval rule, anywhere, never raises the decision. */
  lemma AddApprovalRule(input: Input, i: nat, t: Target)
    requires input.policy.Some? && i <= |input.policy.value.approvalRules|
    ensures var policy := input.policy.value;
      var more := WithPolicy(input, policy.rules, Inserted(policy.approvalRules, i, t));
      Rank(Decide(more)) <= Rank(Decide(input))
  {
    var policy := input.policy.value;
    var more := WithPolicy(input, policy.rules, Inserted(policy.approvalRules, i, t));
    InsertedMembers(policy.approvalRules, i, t);
    DecisionIsDeclared(input);
    DecisionIsDeclared(more);
    SameGuardrails(input, more);
    MoreApprovals(input, more);
  }

  lemma MoreApprovals(input: Input, more: Input)
    requires input.callerRole == more.callerRole && input.tags == more.tags && input.requested == more.requested
    requires input.policy.Some? && more.policy.Some? && more.policy.value.rules == input.policy.value.rules
    requires forall t :: t in input.policy.value.approvalRules ==> t in more.policy.value.approvalRules
    ensures forall e :: AnyRule(input.policy.value, e, input) <==> AnyRule(more.policy.value, e, more)
    ensures AnyApproval(input.policy.value, input) ==> AnyApproval(more.policy.value, more)
  {
    assert forall t :: Matches(t, input) == Matches(t, more);
    assert forall x, e :: RuleHit(x, e, input) == RuleHit(x, e, more);
  }

  // ----- the trace

  /** A verdict without the policy's version, which no event carries. */
  datatype Summary =
    | SAllowed(policyId: string)
    | SApprovalByGuardrail(guardrailId: string)
    | SApprovalByPolicy(policyId: string)
    | SNoPolicy
    | SDeniedByGuardrail(guardrailId: string)
    | SDeniedByPolicy(policyId: string)

  function SummaryOf(v: Verdict): Summary {
    match v
    case Allowed(id, _) => SAllowed(id)
    case ApprovalByGuardrail(id) => SApprovalByGuardrail(id)
    case ApprovalByPolicy(id, _) => SApprovalByPolicy(id)
    case NoPolicyAssigned => SNoPolicy
    case DeniedByGuardrail(id) => SDeniedByGuardrail(id)
    case DeniedByPolicy(id, _) => SDeniedByPolicy(id)
  }

  predicate AsksApproval(e: Event) {
    e.GuardrailApprovalMatched? && e.guardrailId != ""
  }

  /** The verdict as it can be read off a list of events, with no access to the input. */
  function Explain(events: seq<Event>): Option<Summary> {
    if events == [] then None
    else
      var asked := First(events, AsksApproval);
      match events[|events| - 1]
      case GuardrailDenyMatched(id, _) => Some(SDeniedByGuardrail(id))
      case NoPolicy => Some(SNoPolicy)
      case PolicyNoAllowMatched(id, _) => Some(SDeniedByPolicy(id))
      case PolicyDenyMatched(id, _) => Some(SDeniedByPolicy(id))
      case PolicyAllowMatched(id, _) =>
        if asked < |events| then Some(SApprovalByGuardrail(events[asked].guardrailId)) else Some(SAllowed(id))
      case PolicyApprovalMatched(id, _) =>
        if asked < |events| then Some(SApprovalByGuardrail(events[asked].guardrailId)) else Some(SApprovalByPolicy(id))
      case _ => None
  }

  lemma {:induction false} SkipsAreSkips(guardrails: seq<Guardrail>, input: Input)
    ensures forall e | e in Skips(guardrails, input) :: e.GuardrailSkippedRole?
  {
    if guardrails != [] {
      SkipsAreSkips(guardrails[..|guardrails| - 1], input);
    }
  }

  /** The trace explains the verdict: decision, reason and id can be read off the events alone. */
  lemma TraceExplains(input: Input)
    ensures Explain(Evaluate(input).events) == Some(SummaryOf(Evaluate(input).verdict))
  {
    var deny := FirstGuardrail(input, EnforceDeny);
    var skips := Skips(input.guardrails[..deny], input);
    SkipsAreSkips(input.guardrails[..deny], input);
    if deny == |input.guardrails| {
      var approval := FirstGuardrail(input, EnforceApproval);
      if approval < |input.guardrails| {
        var g := input.guardrails[approval];
        PolicyExplains(input, g.id, skips, [GuardrailApprovalMatched(g.id, g.target)]);
      } else {
        assert skips + [] == skips;
        PolicyExplains(input, "", skips, []);
      }
    }
  }

  lemma PolicyExplains(input: Input, id: string, skips: seq<Event>, asked: seq<Event>)
    requires forall e | e in skips :: e.GuardrailSkippedRole?
    requires |asked| <= 1 && (asked == [] ==> id == "")
    requires asked != [] ==> asked[0].GuardrailApprovalMatched? && asked[0].guardrailId == id
    ensures Explain(EvaluatePolicy(input, id, skips + asked).events)
         == Some(SummaryOf(EvaluatePolicy(input, id, skips + asked).verdict))
  {
    var own := EvaluatePolicy(input, "", []).events;
    PolicyAppends(input, id, skips + asked);
    AskedFirst(skips, asked, own);
  }

  /** Before the policy's own events, only the guardrail's event can ask for approval. */
  lemma AskedFirst(skips: seq<Event>, asked: seq<Event>, own: seq<Event>)
    requires forall e | e in skips :: e.GuardrailSkippedRole?
    requires forall e | e in own :: !AsksApproval(e)
    requires |asked| <= 1
    ensures First(skips + asked + own, AsksApproval)
         == if asked != [] && AsksApproval(asked[0]) then |skips| else |skips + asked + own|
  {
    var events := skips + asked + own;
    assert forall k | 0 <= k < |skips| :: events[k] == skips[k] && skips[k] in skips;
    assert asked != [] ==> events[|skips|] == asked[0];
    assert forall k | |skips| + |asked| <= k < |events| :: events[k] == own[k - |skips| - |asked|];
    FirstIs(events, AsksApproval, if asked != [] && AsksApproval(asked[0]) then |skips| else |events|);
  }

  predicate IsFirstGuardrail(input: Input, n: nat, enforcement: Enforcement) {
    && n < |input.guardrails| && Hit(input.guardrails[n], enforcement, input)
    && forall k | 0 <= k < n :: !Hit(input.guardrails[k], enforcement, input)
  }

  predicate IsFirstRule(policy: Snapshot, n: nat, effect: Effect, input: Input) {
    && n < |policy.rules| && RuleHit(policy.rules[n], effect, input)
    && forall k | 0 <= k < n :: !RuleHit(policy.rules[k], effect, input)
  }

  predicate IsFirstApproval(policy: Snapshot, n: nat, input: Input) {
    && n < |policy.approvalRules| && Matches(policy.approvalRules[n], input)
    && forall k | 0 <= k < n :: !Matches(policy.approvalRules[k], input)
  }

  /** The number of allow rules of a policy. */
  ghost function AllowRules(rules: seq<PolicyRule>): nat {
    |set i | 0 <= i < |rules| && rules[i].effect == AllowRule|
  }

  /** What an event claims about the input. */
  ghost predicate Holds(e: Event, input: Input) {
    match e
    case GuardrailSkippedRole(id, role) =>
      exists n | 0 <= n < |input.guardrails| ::
        && input.guardrails[n].id == id && input.guardrails[n].appliesToRole == Some(role) && role != input.callerRole
        && forall k | 0 <= k <= n :: !Hit(input.guardrails[k], EnforceDeny, input)
    case GuardrailDenyMatched(id, target) =>
      exists n: nat ::
        && IsFirstGuardrail(input, n, EnforceDeny)
        && input.guardrails[n].id == id && input.guardrails[n].target == target
    case GuardrailApprovalMatched(id, target) =>
      exists n: nat ::
        && IsFirstGuardrail(input, n, EnforceApproval)
        && input.guardrails[n].id == id && input.guardrails[n].target == target
    case NoPolicy => input.policy.None?
    case _ => input.policy.Some? && PolicyEventHolds(e, input.policy.value, input)
  }

  ghost predicate PolicyEventHolds(e: Event, policy: Snapshot, input: Input) {
    match e
    case PolicyAllowMatched(id, target) =>
      id == policy.id && exists n: nat :: IsFirstRule(policy, n, AllowRule, input) && policy.rules[n].target == target
    case PolicyNoAllowMatched(id, considered) =>
      id == policy.id && !AnyRule(policy, AllowRule, input) && considered == AllowRules(policy.rules)
    case PolicyDenyMatched(id, target) =>
      id == policy.id && exists n: nat :: IsFirstRule(policy, n, DenyRule, input) && policy.rules[n].target == target
    case PolicyApprovalMatched(id, target) =>
      id == policy.id && exists n: nat :: IsFirstApproval(policy, n, input) && policy.approvalRules[n] == target
    case _ => false
  }

  lemma {:induction false} CountAllowIs(rules: seq<PolicyRule>)
    ensures CountAllow(rules) == AllowRules(rules)
  {
    if rules != [] {
      var n := |rules| - 1;
      var most := rules[..n];
      CountAllowIs(most);
      var before := set i | 0 <= i < |most| && most[i].effect == AllowRule;
      var all := set i | 0 <= i < |rules| && rules[i].effect == AllowRule;
      assert forall i | 0 <= i < n :: most[i] == rules[i];
      if rules[n].effect == AllowRule {
        assert all == before + {n};
      } else {
        assert all == before;
      }
    }
  }

  lemma {:induction false} SkipsHold(input: Input, m: nat)
    requires m <= FirstGuardrail(input, EnforceDeny)
    ensures forall e | e in Skips(input.guardrails[..m], input) :: Holds(e, input)
  {
    if m > 0 {
      SkipsHold(input, m - 1);
      assert input.guardrails[..m][..m - 1] == input.guardrails[..m - 1];
      var g := input.guardrails[m - 1];
      assert forall k | 0 <= k <= m - 1 :: !Hit(input.guardrails[k], EnforceDeny, input);
      if SkippedByRole(g, input) {
        assert Holds(GuardrailSkippedRole(g.id, g.appliesToRole.value), input);
      }
    }
  }

  /** Every event is true of the input: a match event names the first match of its kind. */
  lemma TraceIsTrue(input: Input)
    ensures forall e | e in Evaluate(input).events :: Holds(e, input)
  {
    var guardrails := input.guardrails;
    var deny := FirstGuardrail(input, EnforceDeny);
    var skips := Skips(guardrails[..deny], input);
    SkipsHold(input, deny);
    if deny < |guardrails| {
      assert IsFirstGuardrail(input, deny, EnforceDeny);
    } else {
      var approval := FirstGuardrail(input, EnforceApproval);
      if approval < |guardrails| {
        assert IsFirstGuardrail(input, approval, EnforceApproval);
        var g := guardrails[approval];
        PolicyTraceIsTrue(input, g.id, skips + [GuardrailApprovalMatched(g.id, g.target)]);
      } else {
        PolicyTraceIsTrue(input, "", skips);
      }
    }
  }

  lemma PolicyTraceIsTrue(input: Input, id: string, events: seq<Event>)
    requires forall e | e in events :: Holds(e, input)
    ensures forall e | e in EvaluatePolicy(input, id, events).events :: Holds(e, input)
  {
    if input.policy.Some? {
      var policy := input.policy.value;
      FirstsFind(input);
      CountAllowIs(policy.rules);
      var allow, deny := FirstRule(policy.rules, AllowRule, input), FirstRule(policy.rules, DenyRule, input);
      var approval := FirstApproval(policy.approvalRules, input);
      assert allow < |policy.rules| ==> IsFirstRule(policy, allow, AllowRule, input);
      assert deny < |policy.rules| ==> IsFirstRule(policy, deny, DenyRule, input);
      assert approval < |policy.approvalRules| ==> IsFirstApproval(policy, approval, input);
    }
  }

  // ----- role skips, in order

  predicate IsSkip(e: Event) {
    e.GuardrailSkippedRole?
  }

  function Skipped(input: Input): Guardrail -> bool {
    g => SkippedByRole(g, input)
  }

  /** The events that these guardrails leave when they are skipped. */
  predicate SkipEventsOf(events: seq<Event>, guardrails: seq<Guardrail>) {
    && |events| == |guardrails|
    && forall k | 0 <= k < |events| ::
         guardrails[k].appliesToRole.Some?
         && events[k] == GuardrailSkippedRole(guardrails[k].id, guardrails[k].appliesToRole.value)
  }

  /**
   The skip events are, in order and each once, exactly the guardrails for another role that come
   before the first guardrail that denies.
   */
  lemma SkipEventsInOrder(input: Input)
    ensures SkipEventsOf(
      Filter(Evaluate(input).events, IsSkip),
      Filter(input.guardrails[..FirstGuardrail(input, EnforceDeny)], Skipped(input)))
  {
    var before := input.guardrails[..FirstGuardrail(input, EnforceDeny)];
    var skips := Skips(before, input);
    var rest := RestOfTrace(input, skips);
    SkipsAreSkips(before, input);
    SkipsFiltered(before, input);
    FilterAppend(skips, rest, IsSkip);
    FilterAll(skips, IsSkip);
    FilterNone(rest, IsSkip);
  }

  /** After the skip events there are no more. */
  lemma RestOfTrace(input: Input, skips: seq<Event>) returns (rest: seq<Event>)
    requires skips == Skips(input.guardrails[..FirstGuardrail(input, EnforceDeny)], input)
    ensures Evaluate(input).events == skips + rest && forall e | e in rest :: !IsSkip(e)
  {
    rest := Evaluate(input).events[|skips|..];
  }

  lemma {:induction false} SkipsFiltered(guardrails: seq<Guardrail>, input: Input)
    ensures SkipEventsOf(Skips(guardrails, input), Filter(guardrails, Skipped(input)))
    decreases |guardrails|
  {
    if guardrails != [] {
      SkipsFiltered(guardrails[..|guardrails| - 1], input);
    }
  }

  // ----- the other events, in order

  datatype Kind =
    | GuardrailSkip | GuardrailDeny | GuardrailApproval | PolicyMissing
    | AllowFound | NoAllow | DenyFound | ApprovalFound

  function KindOf(e: Event): Kind {
    match e
    case GuardrailSkippedRole(_, _) => GuardrailSkip
    case GuardrailDenyMatched(_, _) => GuardrailDeny
    case GuardrailApprovalMatched(_, _) => GuardrailApproval
    case NoPolicy => PolicyMissing
    case PolicyAllowMatched(_, _) => AllowFound
    case PolicyNoAllowMatched(_, _) => NoAllow
    case PolicyDenyMatched(_, _) => DenyFound
    case PolicyApprovalMatched(_, _) => ApprovalFound
  }

  function Kinds(events: seq<Event>): seq<Kind> {
    seq(|events|, i requires 0 <= i < |events| => KindOf(events[i]))
  }

  /** The kinds of event that the input calls for after the skips, by existence of matches only. */
  function Expected(input: Input): seq<Kind> {
    if AnyGuardrail(input, EnforceDeny) then [GuardrailDeny]
    else
      (if AnyGuardrail(input, EnforceApproval) then [GuardrailApproval] else [])
      + ExpectedOfPolicy(input)
  }

  function ExpectedOfPolicy(input: Input): seq<Kind> {
    match input.policy
    case None => [PolicyMissing]
    case Some(policy) =>
      if !AnyRule(policy, AllowRule, input) then [NoAllow]
      else if AnyRule(policy, DenyRule, input) then [AllowFound, DenyFound]
      else if AnyApproval(policy, input) then [AllowFound, ApprovalFound]
      else [AllowFound]
  }

  /** The policy's part adds its own events to those before it, whatever the guardrails said. */
  lemma PolicyAppends(input: Input, id: string, events: seq<Event>)
    ensures EvaluatePolicy(input, id, events).events == events + EvaluatePolicy(input, "", []).events
  {
  }

  lemma PolicyKinds(input: Input)
    ensures Kinds(EvaluatePolicy(input, "", []).events) == ExpectedOfPolicy(input)
  {
    FirstsFind(input);
  }

  /** No event is missing, none is repeated, and they stand in the order of the evaluation. */
  lemma TraceIsComplete(input: Input)
    ensures var events := Evaluate(input).events;
      var n := |Filter(events, IsSkip)|;
      n <= |events| && Kinds(events[n..]) == Expected(input)
  {
    var before := input.guardrails[..FirstGuardrail(input, EnforceDeny)];
    var skips := Skips(before, input);
    var rest := RestOfTrace(input, skips);
    SkipsAreSkips(before, input);
    FilterAppend(skips, rest, IsSkip);
    FilterAll(skips, IsSkip);
    FilterNone(rest, IsSkip);
    assert Evaluate(input).events[|skips|..] == rest;
    RestKinds(input, skips, rest);
  }

  lemma RestKinds(input: Input, skips: seq<Event>, rest: seq<Event>)
    requires skips == Skips(input.guardrails[..FirstGuardrail(input, EnforceDeny)], input)
    requires Evaluate(input).events == skips + rest
    ensures Kinds(rest) == Expected(input)
  {
    FirstsFind(input);
    if FirstGuardrail(input, EnforceDeny) < |input.guardrails| {
      var g := input.guardrails[FirstGuardrail(input, EnforceDeny)];
      SamePrefix(skips, rest, [GuardrailDenyMatched(g.id, g.target)]);
    } else {
      var own := EvaluatePolicy(input, "", []).events;
      var approval := FirstGuardrail(input, EnforceApproval);
      PolicyKinds(input);
      if approval < |input.guardrails| {
        var g := input.guardrails[approval];
        var asked := [GuardrailApprovalMatched(g.id, g.target)];
        PolicyAppends(input, g.id, skips + asked);
        assert skips + asked + own == skips + (asked + own);
        SamePrefix(skips, rest, asked + own);
        assert Kinds(asked + own) == Kinds(asked) + Kinds(own);
      } else {
        PolicyAppends(input, "", skips);
        SamePrefix(skips, rest, own);
      }
    }
  }

  lemma SamePrefix<T>(prefix: seq<T>, a: seq<T>, b: seq<T>)
    requires prefix + a == prefix + b
    ensures a == b
  {
    assert a == (prefix + a)[|prefix|..] && b == (prefix + b)[|prefix|..];
  }
}
