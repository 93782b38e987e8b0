/**
 * The provider collection authorization handler: a provider user acting for
 * the collection's organization succeeds for every bulk operation the handler
 * lists. It reads nothing of the caller's membership, role, permissions or
 * organization settings, and it keeps no state between calls.
 */
module ProviderCollectionAuthorization {
  import opened Common
  import opened CollectionOperations
  import MemberCollectionAuthorization

  /** The operations the handler's switch lists; ReadWithAccess is not among them. */
  const ProviderOperations: set<Requirement> :=
    {Create, Read, ReadAccess, Update, ModifyAccess, ImportCiphers, Delete}

  /** Of the bulk operations, the list leaves out ReadWithAccess alone. */
  lemma ListedOperations(requirement: Requirement)
    ensures requirement in ProviderOperations <==> requirement != ReadWithAccess && requirement != Unrecognized
  {
    match requirement
    case Create =>
    case Read =>
    case ReadAccess =>
    case ReadWithAccess =>
    case Update =>
    case ModifyAccess =>
    case ImportCiphers =>
    case Delete =>
    case Unrecognized =>
  }

  /** Whether the handler marks the requirement as succeeded. */
  predicate ProviderGrants(requirement: Requirement, resource: Option<Collection>, currentContext: CurrentContext): (granted: bool)
    ensures granted ==> resource.Some? && currentContext.providerUserForOrg(resource.value.organizationId)
    ensures granted ==> requirement != ReadWithAccess && requirement != Unrecognized
    ensures (&& resource.Some? && currentContext.providerUserForOrg(resource.value.organizationId)
             && requirement != ReadWithAccess && requirement != Unrecognized) ==> granted
  {
    ListedOperations(requirement);
    resource.Some? && requirement in ProviderOperations
    && currentContext.providerUserForOrg(resource.value.organizationId)
  }

  class ProviderCollectionAuthorizationHandler {
    const currentContext: CurrentContext

    constructor (currentContext: CurrentContext)
      ensures this.currentContext == currentContext
    {
      this.currentContext := currentContext;
    }

    method HandleRequirement(context: AuthorizationContext, requirement: Requirement, resource: Option<Collection>)
      modifies context
      ensures context.succeeded == (old(context.succeeded) || ProviderGrants(requirement, resource, currentContext))
    {
      if resource.None? {
        return;
      }
      match requirement
      case Create | Read | ReadAccess | Update | ModifyAccess | ImportCiphers | Delete =>
        if currentContext.providerUserForOrg(resource.value.organizationId) {
          context.Succeed();
        }
      case ReadWithAccess | Unrecognized =>
    }
  }

  /** A null resource gets no decision. */
  lemma NullResourceNoDecision(requirement: Requirement, currentContext: CurrentContext)
    ensures !ProviderGrants(requirement, None, currentContext)
  {
  }

  /** ReadWithAccess is never granted by this handler, provider or not. */
  lemma ReadWithAccessNeverGranted(resource: Option<Collection>, currentContext: CurrentContext)
    ensures !ProviderGrants(ReadWithAccess, resource, currentContext)
  {
  }

  /** Every listed operation is granted exactly when the caller is a provider for the organization. */
  lemma ListedOperationsGrantedIffProvider(requirement: Requirement, resource: Collection, currentContext: CurrentContext)
    requires requirement != ReadWithAccess && requirement != Unrecognized
    ensures ProviderGrants(requirement, Some(resource), currentContext) <==>
              currentContext.providerUserForOrg(resource.organizationId)
  {
  }

  /** The decision depends on the provider check alone: two contexts that agree on it
      decide alike, whatever their user ids and memberships. */
  lemma IgnoresMembership(requirement: Requirement, resource: Option<Collection>,
                          context1: CurrentContext, context2: CurrentContext)
    requires context1.providerUserForOrg == context2.providerUserForOrg
    ensures ProviderGrants(requirement, resource, context1) == ProviderGrants(requirement, resource, context2)
  {
  }

  /**
   * A provider for the organization with no membership in it deletes the
   * collection through this handler, while the member handler gives no decision.
   */
  lemma ProviderDeletesWithoutMembership(resource: Collection, collaborators: MemberCollectionAuthorization.Collaborators)
    requires resource.organizationId !in collaborators.currentContext.organizations
    requires collaborators.currentContext.providerUserForOrg(resource.organizationId)
    ensures ProviderGrants(Delete, Some(resource), collaborators.currentContext)
    ensures MemberCollectionAuthorization.MemberOutcome(Delete, Some(resource), collaborators)
            == MemberCollectionAuthorization.NoDecision
  {
  }
}
