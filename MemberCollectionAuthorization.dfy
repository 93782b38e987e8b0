/**
 * The member collection authorization handler: for one bulk operation on one
 * collection it decides whether an organization member succeeds, from the
 * member's role and permission flags, the cached organization settings, the
 * FlexibleCollectionsV1 feature flag and the set of collections the user can
 * manage. The handler only ever marks success; it never denies.
 *
 * `RuleFor` and `MemberOutcome` are the rule table, the reference against
 * which the handler class (written in the source's own control flow) is
 * proved.
 */
module MemberCollectionAuthorization {
  import opened Common
  import opened CollectionOperations

  /** What one evaluation does to the authorization context. `Faulted` is the
      exception thrown when the manage relation is needed and the current
      context has no user id. */
  datatype Outcome = Succeeded | NoDecision | Faulted

  /** The injected services, as the answers they give for this request. */
  datatype Collaborators = Collaborators(
    currentContext: CurrentContext,
    // ICollectionRepository.GetManyByUserIdAsync(userId, useFlexibleCollections: true)
    collectionsOfUser: Guid -> seq<CollectionDetails>,
    // IApplicationCacheService.GetOrganizationAbilityAsync; a missing key is a null ability
    organizationAbilities: map<Guid, OrganizationAbility>,
    // IFeatureService.IsEnabled(FeatureFlagKeys.FlexibleCollectionsV1)
    flexibleCollectionsV1: bool)

  /** The ids of the fetched collections the user can manage. */
  function ManagedCollectionIds(collections: seq<CollectionDetails>): (ids: set<Guid>)
    ensures forall id :: id in ids <==>
      exists i :: 0 <= i < |collections| && collections[i].id == id && collections[i].manage
  {
    if collections == [] then {}
    else
      var rest := ManagedCollectionIds(collections[1..]);
      assert forall i :: 1 <= i < |collections| ==> collections[i] == collections[1..][i - 1];
      if collections[0].manage then {collections[0].id} + rest else rest
  }

  /** Whether the acting user manages the collection with this id, or None when
      there is no user id to ask the repository about. */
  function ManageAnswer(collaborators: Collaborators, collectionId: Guid): (answer: Option<bool>)
    ensures answer.None? <==> collaborators.currentContext.userId.None?
    ensures answer == Some(true) <==>
      && collaborators.currentContext.userId.Some?
      && var collections := collaborators.collectionsOfUser(collaborators.currentContext.userId.value);
         exists i :: 0 <= i < |collections| && collections[i].id == collectionId && collections[i].manage
  {
    match collaborators.currentContext.userId
    case None => None
    case Some(userId) => Some(collectionId in ManagedCollectionIds(collaborators.collectionsOfUser(userId)))
  }

  predicate IsOwnerOrAdmin(org: CurrentContextOrganization) {
    org.userType == Owner || org.userType == Admin
  }

  /**
   * One row of the rule table: `privileged` when role, flags and organization
   * settings already grant the operation; otherwise `manageSuffices` when
   * managing the collection grants it.
   */
  datatype Rule = Rule(privileged: bool, manageSuffices: bool)

  function RuleFor(requirement: Requirement, org: CurrentContextOrganization,
                   ability: Option<OrganizationAbility>, flexibleCollectionsV1: bool): (rule: Rule)
    // Anything outside the switch is neither granted nor looked at further.
    ensures requirement == Unrecognized ==> !rule.privileged && !rule.manageSuffices
    // Owners and Admins are privileged for everything but the Update family,
    // where admin access to all items or V1 off is needed as well.
    ensures IsOwnerOrAdmin(org) && requirement in {Create, Read, ReadAccess, ReadWithAccess, Delete} ==> rule.privileged
    ensures IsOwnerOrAdmin(org) && requirement in {Update, ModifyAccess, ImportCiphers} ==>
      (rule.privileged <==> org.permissions.editAnyCollection
                            || (ability.Some? && ability.value.allowAdminAccessToAllCollectionItems)
                            || !flexibleCollectionsV1)
    // EditAnyCollection covers reading and updating, never creating or deleting.
    ensures org.permissions.editAnyCollection && requirement in {Read, ReadAccess, ReadWithAccess, Update, ModifyAccess, ImportCiphers} ==>
      rule.privileged
    // Managing the collection never matters for Create; it always does for reads
    // and updates; for Delete it does exactly when the creation limit is off.
    ensures requirement == Create ==> !rule.manageSuffices
    ensures requirement in {Read, ReadAccess, ReadWithAccess, Update, ModifyAccess, ImportCiphers} ==> rule.manageSuffices
    ensures requirement == Delete ==>
      (rule.manageSuffices <==> ability.Some? && !ability.value.limitCollectionCreationDeletion)
  {
    var ownerOrAdmin := IsOwnerOrAdmin(org);
    var p := org.permissions;
    var creationDeletionUnlimited := ability.Some? && !ability.value.limitCollectionCreationDeletion;
    var adminAccessToAllItems := ability.Some? && ability.value.allowAdminAccessToAllCollectionItems;
    match requirement
    case Create =>
      Rule(ownerOrAdmin || p.createNewCollections || creationDeletionUnlimited, false)
    case Read | ReadAccess =>
      Rule(ownerOrAdmin || p.editAnyCollection || p.deleteAnyCollection, true)
    case ReadWithAccess =>
      Rule(ownerOrAdmin || p.editAnyCollection || p.deleteAnyCollection || p.manageUsers, true)
    case Update | ModifyAccess | ImportCiphers =>
      Rule(p.editAnyCollection || (ownerOrAdmin && (adminAccessToAllItems || !flexibleCollectionsV1)), true)
    case Delete =>
      Rule(ownerOrAdmin || p.deleteAnyCollection, creationDeletionUnlimited)
    case Unrecognized =>
      Rule(false, false)
  }

  /** The rule that applies to a member of the collection's organization. */
  function MemberRule(requirement: Requirement, resource: Collection, collaborators: Collaborators): Rule
    requires resource.organizationId in collaborators.currentContext.organizations
  {
    RuleFor(requirement,
            collaborators.currentContext.organizations[resource.organizationId],
            Lookup(collaborators.organizationAbilities, resource.organizationId),
            collaborators.flexibleCollectionsV1)
  }

  /** Whether evaluating the requirement asks whether the user manages the collection. */
  predicate ConsultsManageRelation(requirement: Requirement, resource: Option<Collection>, collaborators: Collaborators)
  {
    && resource.Some?
    && resource.value.organizationId in collaborators.currentContext.organizations
    && !MemberRule(requirement, resource.value, collaborators).privileged
    && MemberRule(requirement, resource.value, collaborators).manageSuffices
  }

  /** The decision of the handler for one requirement on one resource. */
  function MemberOutcome(requirement: Requirement, resource: Option<Collection>, collaborators: Collaborators): (outcome: Outcome)
    // Only a member of the collection's organization ever gets a decision.
    ensures outcome != NoDecision ==>
      resource.Some? && resource.value.organizationId in collaborators.currentContext.organizations
    // Success comes from the role and flags, or from managing the collection where that suffices.
    ensures outcome == Succeeded ==>
      || MemberRule(requirement, resource.value, collaborators).privileged
      || (MemberRule(requirement, resource.value, collaborators).manageSuffices
          && ManageAnswer(collaborators, resource.value.id) == Some(true))
    // The only fault is asking for the manage relation without a user id.
    ensures outcome == Faulted ==> collaborators.currentContext.userId.None?
  {
    if resource.None? || resource.value.organizationId !in collaborators.currentContext.organizations then
      NoDecision
    else if MemberRule(requirement, resource.value, collaborators).privileged then
      Succeeded
    else if !MemberRule(requirement, resource.value, collaborators).manageSuffices then
      NoDecision
    else
      match ManageAnswer(collaborators, resource.value.id)
      case None => Faulted
      case Some(manages) => if manages then Succeeded else NoDecision
  }

  class MemberCollectionAuthorizationHandler {
    const collaborators: Collaborators
    /** `_managedCollectionsIds`: filled on the first need, then reused. */
    var managedCollectionIds: Option<set<Guid>>
    /** How many times the repository has been asked for the user's collections. */
    ghost var repositoryFetches: nat

    ghost predicate Valid()
      reads this
    {
      match managedCollectionIds
      case None => repositoryFetches == 0
      case Some(ids) =>
        && repositoryFetches == 1
        && collaborators.currentContext.userId.Some?
        && ids == ManagedCollectionIds(collaborators.collectionsOfUser(collaborators.currentContext.userId.value))
    }

    constructor (collaborators: Collaborators)
      ensures Valid() && this.collaborators == collaborators
      ensures managedCollectionIds == None && repositoryFetches == 0
    {
      this.collaborators := collaborators;
      managedCollectionIds := None;
      repositoryFetches := 0;
    }

    /** The memo after a step that needed the manage relation (`consulted`) or not:
        it is fetched only if it was empty, was needed and a user id exists. */
    twostate predicate MemoAfter(consulted: bool)
      reads this
    {
      var fetched := old(managedCollectionIds).None? && consulted && collaborators.currentContext.userId.Some?;
      && managedCollectionIds.Some? == (old(managedCollectionIds).Some? || fetched)
      && repositoryFetches == old(repositoryFetches) + (if fetched then 1 else 0)
    }

    method HandleRequirement(context: AuthorizationContext, requirement: Requirement, resource: Option<Collection>)
      returns (faulted: bool)
      requires Valid()
      modifies this, context
      ensures Valid() && repositoryFetches <= 1
      ensures MemoAfter(ConsultsManageRelation(requirement, resource, collaborators))
      ensures faulted <==> MemberOutcome(requirement, resource, collaborators) == Faulted
      ensures context.succeeded == (old(context.succeeded) || MemberOutcome(requirement, resource, collaborators) == Succeeded)
    {
      faulted := false;
      if resource.None? {
        return;
      }
      var collection := resource.value;
      var org := collaborators.currentContext.GetOrganization(collection.organizationId);
      if org.None? {
        return;
      }
      match requirement
      case Create =>
        CanCreate(context, requirement, collection);
      case Read =>
        faulted := CanRead(context, requirement, collection);
      case ReadAccess =>
        faulted := CanRead(context, requirement, collection);
      case ReadWithAccess =>
        faulted := CanReadWithAccess(context, requirement, collection);
      case Update =>
        faulted := CanUpdateCollection(context, requirement, collection);
      case ModifyAccess =>
        faulted := CanUpdateCollection(context, requirement, collection);
      case ImportCiphers =>
        faulted := CanUpdateCollection(context, requirement, collection);
      case Delete =>
        faulted := CanDelete(context, requirement, collection);
      case Unrecognized =>
    }

    function OrganizationAbilityOf(resource: Collection): (ability: Option<OrganizationAbility>)
      ensures ability.Some? <==> resource.organizationId in collaborators.organizationAbilities
      ensures ability.Some? ==> ability.value == collaborators.organizationAbilities[resource.organizationId]
    {
      Lookup(collaborators.organizationAbilities, resource.organizationId)
    }

    method CanCreate(context: AuthorizationContext, requirement: Requirement, resource: Collection)
      requires requirement == Create
      requires resource.organizationId in collaborators.currentContext.organizations
      modifies context
      ensures context.succeeded == (old(context.succeeded) || MemberOutcome(requirement, Some(resource), collaborators) == Succeeded)
    {
      var org := collaborators.currentContext.GetOrganization(resource.organizationId);
      if org.Some? && (IsOwnerOrAdmin(org.value) || org.value.permissions.createNewCollections) {
        context.Succeed();
        return;
      }
      var ability := OrganizationAbilityOf(resource);
      if ability.Some? && !ability.value.limitCollectionCreationDeletion {
        context.Succeed();
      }
    }

    method CanRead(context: AuthorizationContext, requirement: Requirement, resource: Collection)
      returns (faulted: bool)
      requires Valid() && (requirement == Read || requirement == ReadAccess)
      requires resource.organizationId in collaborators.currentContext.organizations
      modifies this, context
      ensures Valid()
      ensures MemoAfter(ConsultsManageRelation(requirement, Some(resource), collaborators))
      ensures faulted <==> MemberOutcome(requirement, Some(resource), collaborators) == Faulted
      ensures context.succeeded == (old(context.succeeded) || MemberOutcome(requirement, Some(resource), collaborators) == Succeeded)
    {
      faulted := false;
      var org := collaborators.currentContext.GetOrganization(resource.organizationId);
      if org.Some? && (IsOwnerOrAdmin(org.value) || org.value.permissions.editAnyCollection
                       || org.value.permissions.deleteAnyCollection) {
        context.Succeed();
        return;
      }
      if org.Some? {
        var canManage := CanManageCollection(resource);
        match canManage
        case None =>
          faulted := true;
        case Some(manages) =>
          if manages {
            context.Succeed();
          }
      }
    }

    method CanReadWithAccess(context: AuthorizationContext, requirement: Requirement, resource: Collection)
      returns (faulted: bool)
      requires Valid() && requirement == ReadWithAccess
      requires resource.organizationId in collaborators.currentContext.organizations
      modifies this, context
      ensures Valid()
      ensures MemoAfter(ConsultsManageRelation(requirement, Some(resource), collaborators))
      ensures faulted <==> MemberOutcome(requirement, Some(resource), collaborators) == Faulted
      ensures context.succeeded == (old(context.succeeded) || MemberOutcome(requirement, Some(resource), collaborators) == Succeeded)
    {
      faulted := false;
      var org := collaborators.currentContext.GetOrganization(resource.organizationId);
      if org.Some? && (IsOwnerOrAdmin(org.value) || org.value.permissions.editAnyCollection
                       || org.value.permissions.deleteAnyCollection || org.value.permissions.manageUsers) {
        context.Succeed();
        return;
      }
      if org.Some? {
        var canManage := CanManageCollection(resource);
        match canManage
        case None =>
          faulted := true;
        case Some(manages) =>
          if manages {
            context.Succeed();
          }
      }
    }

    method CanUpdateCollection(context: AuthorizationContext, requirement: Requirement, resource: Collection)
      returns (faulted: bool)
      requires Valid() && (requirement == Update || requirement == ModifyAccess || requirement == ImportCiphers)
      requires resource.organizationId in collaborators.currentContext.organizations
      modifies this, context
      ensures Valid()
      ensures MemoAfter(ConsultsManageRelation(requirement, Some(resource), collaborators))
      ensures faulted <==> MemberOutcome(requirement, Some(resource), collaborators) == Faulted
      ensures context.succeeded == (old(context.succeeded) || MemberOutcome(requirement, Some(resource), collaborators) == Succeeded)
    {
      faulted := false;
      var org := collaborators.currentContext.GetOrganization(resource.organizationId);
      if org.Some? && org.value.permissions.editAnyCollection {
        context.Succeed();
        return;
      }
      var ability := OrganizationAbilityOf(resource);
      if ((ability.Some? && ability.value.allowAdminAccessToAllCollectionItems) || !collaborators.flexibleCollectionsV1)
         && org.Some? && IsOwnerOrAdmin(org.value) {
        context.Succeed();
        return;
      }
      if org.Some? {
        var canManage := CanManageCollection(resource);
        match canManage
        case None =>
          faulted := true;
        case Some(manages) =>
          if manages {
            context.Succeed();
          }
      }
    }

    method CanDelete(context: AuthorizationContext, requirement: Requirement, resource: Collection)
      returns (faulted: bool)
      requires Valid() && requirement == Delete
      requires resource.organizationId in collaborators.currentContext.organizations
      modifies this, context
      ensures Valid()
      ensures MemoAfter(ConsultsManageRelation(requirement, Some(resource), collaborators))
      ensures faulted <==> MemberOutcome(requirement, Some(resource), collaborators) == Faulted
      ensures context.succeeded == (old(context.succeeded) || MemberOutcome(requirement, Some(resource), collaborators) == Succeeded)
    {
      faulted := false;
      var org := collaborators.currentContext.GetOrganization(resource.organizationId);
      if org.Some? && (IsOwnerOrAdmin(org.value) || org.value.permissions.deleteAnyCollection) {
        context.Succeed();
        return;
      }
      var ability := OrganizationAbilityOf(resource);
      if ability.Some? && !ability.value.limitCollectionCreationDeletion {
        var canManage := CanManageCollection(resource);
        match canManage
        case None =>
          faulted := true;
        case Some(manages) =>
          if manages {
            context.Succeed();
          }
      }
    }

    /** `CanManageCollectionAsync`: fetches the managed ids once, then answers from the memo.
        None is the exception thrown by `UserId!.Value` when there is no user id. */
    method CanManageCollection(targetCollection: Collection) returns (canManage: Option<bool>)
      requires Valid()
      modifies this
      ensures Valid()
      ensures MemoAfter(true)
      ensures canManage == ManageAnswer(collaborators, targetCollection.id)
    {
      if managedCollectionIds.None? {
        if collaborators.currentContext.userId.None? {
          return None;
        }
        var allUserCollections := collaborators.collectionsOfUser(collaborators.currentContext.userId.value);
        repositoryFetches := repositoryFetches + 1;
        managedCollectionIds := Some(ManagedCollectionIds(allUserCollections));
      }
      return Some(targetCollection.id in managedCollectionIds.value);
    }
  }

  // Properties of the rule table.

  /** A null resource, or a caller that is not a member of the collection's
      organization, gets no decision and the repository is never asked. */
  lemma NonMemberNeverSucceeds(requirement: Requirement, resource: Option<Collection>, collaborators: Collaborators)
    requires resource.None? || resource.value.organizationId !in collaborators.currentContext.organizations
    ensures MemberOutcome(requirement, resource, collaborators) == NoDecision
    ensures !ConsultsManageRelation(requirement, resource, collaborators)
  {
  }

  /** A requirement that is none of the bulk collection operations leaves the context alone. */
  lemma UnrecognizedRequirementIgnored(resource: Option<Collection>, collaborators: Collaborators)
    ensures MemberOutcome(Unrecognized, resource, collaborators) == NoDecision
    ensures !ConsultsManageRelation(Unrecognized, resource, collaborators)
  {
  }

  /** Only a missing user id, met while the manage relation is needed, makes the handler throw. */
  lemma FaultsOnlyWithoutUserId(requirement: Requirement, resource: Option<Collection>, collaborators: Collaborators)
    ensures MemberOutcome(requirement, resource, collaborators) == Faulted <==>
      ConsultsManageRelation(requirement, resource, collaborators) && collaborators.currentContext.userId.None?
  {
  }

  /** Create: Owner, Admin or CreateNewCollections; otherwise a non-null ability
      whose LimitCollectionCreationDeletion is off. The manage relation is never asked. */
  lemma CreateRule(resource: Collection, collaborators: Collaborators)
    requires resource.organizationId in collaborators.currentContext.organizations
    ensures var org := collaborators.currentContext.organizations[resource.organizationId];
            var ability := Lookup(collaborators.organizationAbilities, resource.organizationId);
            && (MemberOutcome(Create, Some(resource), collaborators) == Succeeded <==>
                 IsOwnerOrAdmin(org) || org.permissions.createNewCollections
                 || (ability.Some? && !ability.value.limitCollectionCreationDeletion))
            && (ability.None? && !IsOwnerOrAdmin(org) && !org.permissions.createNewCollections ==>
                 MemberOutcome(Create, Some(resource), collaborators) == NoDecision)
    ensures !ConsultsManageRelation(Create, Some(resource), collaborators)
  {
  }

  /** Read and ReadAccess follow one rule: Owner, Admin, EditAnyCollection or
      DeleteAnyCollection; otherwise managing the collection. */
  lemma ReadRule(resource: Collection, collaborators: Collaborators)
    requires resource.organizationId in collaborators.currentContext.organizations
    ensures MemberOutcome(Read, Some(resource), collaborators) == MemberOutcome(ReadAccess, Some(resource), collaborators)
    ensures var org := collaborators.currentContext.organizations[resource.organizationId];
            MemberOutcome(Read, Some(resource), collaborators) == Succeeded <==>
              || IsOwnerOrAdmin(org) || org.permissions.editAnyCollection || org.permissions.deleteAnyCollection
              || ManageAnswer(collaborators, resource.id) == Some(true)
  {
  }

  /** ReadWithAccess grants whatever Read grants, and ManageUsers grants it as well. */
  lemma ReadWithAccessExtendsRead(resource: Collection, collaborators: Collaborators)
    requires resource.organizationId in collaborators.currentContext.organizations
    ensures MemberOutcome(Read, Some(resource), collaborators) == Succeeded ==>
              MemberOutcome(ReadWithAccess, Some(resource), collaborators) == Succeeded
    ensures collaborators.currentContext.organizations[resource.organizationId].permissions.manageUsers ==>
              MemberOutcome(ReadWithAccess, Some(resource), collaborators) == Succeeded
    ensures !collaborators.currentContext.organizations[resource.organizationId].permissions.manageUsers ==>
              MemberOutcome(ReadWithAccess, Some(resource), collaborators) == MemberOutcome(Read, Some(resource), collaborators)
  {
  }

  /** Update, ModifyAccess and ImportCiphers share one rule, and EditAnyCollection
      grants it whatever the organization settings and the feature flag say. */
  lemma UpdateRule(resource: Collection, collaborators: Collaborators)
    requires resource.organizationId in collaborators.currentContext.organizations
    ensures MemberOutcome(ModifyAccess, Some(resource), collaborators) == MemberOutcome(Update, Some(resource), collaborators)
    ensures MemberOutcome(ImportCiphers, Some(resource), collaborators) == MemberOutcome(Update, Some(resource), collaborators)
    ensures collaborators.currentContext.organizations[resource.organizationId].permissions.editAnyCollection ==>
              MemberOutcome(Update, Some(resource), collaborators) == Succeeded
  {
  }

  /** Outside the Owner/Admin gate (neither an Owner or Admin with admin access
      to all items, nor one with FlexibleCollectionsV1 off), a member without
      EditAnyCollection updates exactly the collections it manages. */
  lemma UpdateOtherwiseNeedsManage(resource: Collection, collaborators: Collaborators)
    requires resource.organizationId in collaborators.currentContext.organizations
    requires !collaborators.currentContext.organizations[resource.organizationId].permissions.editAnyCollection
    requires var ability := Lookup(collaborators.organizationAbilities, resource.organizationId);
             !(IsOwnerOrAdmin(collaborators.currentContext.organizations[resource.organizationId])
               && ((ability.Some? && ability.value.allowAdminAccessToAllCollectionItems)
                   || !collaborators.flexibleCollectionsV1))
    ensures MemberOutcome(Update, Some(resource), collaborators) == Succeeded <==>
              ManageAnswer(collaborators, resource.id) == Some(true)
  {
  }

  /** Delete: Owner, Admin or DeleteAnyCollection; otherwise managing the
      collection, and only while LimitCollectionCreationDeletion is off. */
  lemma DeleteRule(resource: Collection, collaborators: Collaborators)
    requires resource.organizationId in collaborators.currentContext.organizations
    ensures var org := collaborators.currentContext.organizations[resource.organizationId];
            var ability := Lookup(collaborators.organizationAbilities, resource.organizationId);
            && (MemberOutcome(Delete, Some(resource), collaborators) == Succeeded <==>
                 || IsOwnerOrAdmin(org) || org.permissions.deleteAnyCollection
                 || (ability.Some? && !ability.value.limitCollectionCreationDeletion
                     && ManageAnswer(collaborators, resource.id) == Some(true)))
            && (!IsOwnerOrAdmin(org) && !org.permissions.deleteAnyCollection
                && (ability.None? || ability.value.limitCollectionCreationDeletion) ==>
                 MemberOutcome(Delete, Some(resource), collaborators) == NoDecision)
  {
  }

  /** Owners and Admins succeed for every operation except the Update family,
      where they succeed when admin access to all items is allowed or
      FlexibleCollectionsV1 is off. */
  lemma OwnerOrAdminSucceeds(requirement: Requirement, resource: Collection, collaborators: Collaborators)
    requires resource.organizationId in collaborators.currentContext.organizations
    requires IsOwnerOrAdmin(collaborators.currentContext.organizations[resource.organizationId])
    ensures requirement in {Create, Read, ReadAccess, ReadWithAccess, Delete} ==>
              MemberOutcome(requirement, Some(resource), collaborators) == Succeeded
    ensures var ability := Lookup(collaborators.organizationAbilities, resource.organizationId);
            requirement in {Update, ModifyAccess, ImportCiphers}
            && ((ability.Some? && ability.value.allowAdminAccessToAllCollectionItems) || !collaborators.flexibleCollectionsV1) ==>
              MemberOutcome(requirement, Some(resource), collaborators) == Succeeded
  {
  }

  /**
   * Two Update evaluations for two collections of a plain User, on one handler,
   * ask the repository exactly once.
   */
  method UpdateTwiceFetchesOnce(collaborators: Collaborators, collection1: Collection, collection2: Collection)
    returns (handler: MemberCollectionAuthorizationHandler)
    requires collaborators.currentContext.userId.Some?
    requires collection1.organizationId in collaborators.currentContext.organizations
    requires collection2.organizationId == collection1.organizationId
    requires collaborators.currentContext.organizations[collection1.organizationId]
             == CurrentContextOrganization(User, Permissions(false, false, false, false))
    ensures fresh(handler) && handler.Valid()
    ensures handler.repositoryFetches == 1
  {
    handler := new MemberCollectionAuthorizationHandler(collaborators);
    var context1 := new AuthorizationContext();
    var _ := handler.HandleRequirement(context1, Update, Some(collection1));
    var context2 := new AuthorizationContext();
    var _ := handler.HandleRequirement(context2, Update, Some(collection2));
  }
}
