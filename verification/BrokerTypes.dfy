/** The values that the broker's policy sources, secret sources and pipeline exchange. */
module BrokerTypes {
  import opened Wrappers

  datatype Effect = Allow | Deny | RequireApproval

  datatype Subject = Subject(id: string, sessionId: string)

  datatype Resource = Resource(server: string, tool: string)

  datatype AccessRequest = AccessRequest(
    subject: Subject, action: string, resource: Resource, argsFingerprint: string, transport: string)

  datatype Obligation =
    | CredentialObligation(ref: string, scope: Option<seq<string>>)
    | NarrowScope(scopes: seq<string>)
    | OtherObligation(kind: string)

  datatype Decision = Decision(effect: Effect, obligations: seq<Obligation>, policyId: string, version: string)

  datatype ApprovalResult = ApprovalResult(approved: bool, reason: Option<string>)
}
