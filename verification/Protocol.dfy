/** Envelopes and the authorization policy, from crates/leave-protocol/src/lib.rs. */
module Protocol {
  import opened Bytes
  import opened Outcomes

  const PROTOCOL_VERSION: nat := 1
  const MAX_CIPHERTEXT_BYTES: nat := 8 * 1024 * 1024

  datatype RelayEnvelope = RelayEnvelope(protocolVersion: nat, routeId: string, messageId: string,
                                         ciphertext: seq<Byte>)

  datatype EnvelopeError =
    | UnsupportedVersion(version: nat)
    | InvalidRoute
    | InvalidMessageId
    | CiphertextTooLarge
    | EmptyCiphertext

  /** Every part of the metadata is in order. */
  predicate IsRoutable(isUuid: string -> bool, e: RelayEnvelope) {
    && e.protocolVersion == 1 && 1 <= |e.routeId| <= 128 && isUuid(e.messageId)
    && 1 <= |e.ciphertext| <= 0x80_0000
  }

  /** The first violated rule, if any. */
  function ValidateEnvelope(isUuid: string -> bool, e: RelayEnvelope): (r: Result<(), EnvelopeError>)
    ensures r.Ok? <==> IsRoutable(isUuid, e)
  {
    if e.protocolVersion != PROTOCOL_VERSION then Err(UnsupportedVersion(e.protocolVersion))
    else if |e.routeId| == 0 || |e.routeId| > 128 then Err(InvalidRoute)
    else if !isUuid(e.messageId) then Err(InvalidMessageId)
    else if |e.ciphertext| == 0 then Err(EmptyCiphertext)
    else if |e.ciphertext| > MAX_CIPHERTEXT_BYTES then Err(CiphertextTooLarge)
    else Ok(())
  }

  datatype Role = Owner | Maintainer | Operator | Viewer
  datatype Capability =
    | RawPtyCapability
    | DangerousApprovalCapability
    | PersistentBrowserProfileCapability
    | GlobalCustomizationCapability
  datatype Action =
    | View | Prompt | LowRiskApproval | EditFiles | GitWrite | ProjectCustomization | ManageMembers
    | RawPty | DangerousApproval | PersistentBrowserProfile | GlobalCustomization

  predicate RoleAllows(role: Role, action: Action): (allowed: bool)
    ensures role == Owner ==> allowed
    ensures role == Maintainer ==> (allowed <==> action != ManageMembers)
    ensures role == Operator ==> (allowed <==> action !in {EditFiles, GitWrite, ProjectCustomization, ManageMembers})
    ensures role == Viewer ==> (allowed <==> action == View)
  {
    match action
    case View => true
    case EditFiles | GitWrite | ProjectCustomization => role == Owner || role == Maintainer
    case ManageMembers => role == Owner
    case _ => role != Viewer
  }

  predicate Authorize(role: Role, grants: set<Capability>, action: Action) {
    RoleAllows(role, action) &&
    match action
    case RawPty => RawPtyCapability in grants
    case DangerousApproval => DangerousApprovalCapability in grants
    case PersistentBrowserProfile => PersistentBrowserProfileCapability in grants
    case GlobalCustomization => GlobalCustomizationCapability in grants
    case _ => true
  }

  /** Owner, maintainer, operator and viewer in descending order of power. */
  function Rank(role: Role): nat {
    match role case Owner => 3 case Maintainer => 2 case Operator => 1 case Viewer => 0
  }

  /** More power and more grants never take an action away. */
  lemma AuthorityIsMonotone(low: Role, high: Role, few: set<Capability>, many: set<Capability>, action: Action)
    requires Rank(low) <= Rank(high) && few <= many && Authorize(low, few, action)
    ensures Authorize(high, many, action)
  {
  }

  /** What a further grant opens: its own action, and that for everyone but viewers. */
  lemma GrantOpens(role: Role, grants: set<Capability>, grant: Capability, action: Action)
    requires grant !in grants
    ensures Authorize(role, grants + {grant}, action) && !Authorize(role, grants, action) <==>
      role != Viewer && (grant, action) in {
        (RawPtyCapability, RawPty),
        (DangerousApprovalCapability, DangerousApproval),
        (PersistentBrowserProfileCapability, PersistentBrowserProfile),
        (GlobalCustomizationCapability, GlobalCustomization)}
  {
  }
}
