/**
 * The entities the two collection authorization handlers share: the bulk
 * operations a caller asks about, the collection resource, the acting user's
 * organization membership as the current context reports it, the cached
 * organization settings, and the authorization context a handler marks.
 */
module CollectionOperations {
  import opened Common

  /**
   * The requirement handed to a handler. The first eight are the static
   * instances of `BulkCollectionOperations`; `Unrecognized` stands for any
   * other requirement object (or a null one), which no case of the handlers'
   * switches matches.
   */
  datatype Requirement =
    | Create
    | Read
    | ReadAccess
    | ReadWithAccess
    | Update
    | ModifyAccess
    | ImportCiphers
    | Delete
    | Unrecognized

  /** The collection being authorized. */
  datatype Collection = Collection(id: Guid, organizationId: Guid)

  /** One row of `ICollectionRepository.GetManyByUserIdAsync`: a collection and whether the user can manage it. */
  datatype CollectionDetails = CollectionDetails(id: Guid, manage: bool)

  datatype OrganizationUserType = Owner | Admin | User | Custom

  /**
   * The custom permission flags the handlers read. A null `Permissions`
   * object matches none of the handlers' property patterns, exactly as all
   * flags false does.
   */
  datatype Permissions = Permissions(
    editAnyCollection: bool,
    deleteAnyCollection: bool,
    manageUsers: bool,
    createNewCollections: bool)

  /** `CurrentContextOrganization`: the acting user's membership in one organization. */
  datatype CurrentContextOrganization = CurrentContextOrganization(
    userType: OrganizationUserType,
    permissions: Permissions)

  /**
   * `ICurrentContext` as far as the handlers use it: the acting user's id (null
   * for a caller without one), the organizations it is a member of keyed by
   * organization id, and the provider check `ProviderUserForOrgAsync`.
   */
  datatype CurrentContext = CurrentContext(
    userId: Option<Guid>,
    organizations: map<Guid, CurrentContextOrganization>,
    providerUserForOrg: Guid -> bool)
  {
    /** `GetOrganization(orgId)`: null when the acting user is not a member. */
    function GetOrganization(organizationId: Guid): (org: Option<CurrentContextOrganization>)
      ensures org.Some? <==> organizationId in organizations
      ensures org.Some? ==> org.value == organizations[organizationId]
    {
      Lookup(organizations, organizationId)
    }
  }

  /** The cached organization settings the handlers read (`OrganizationAbility`). */
  datatype OrganizationAbility = OrganizationAbility(
    limitCollectionCreationDeletion: bool,
    allowAdminAccessToAllCollectionItems: bool)

  /**
   * `AuthorizationHandlerContext` reduced to what a handler can do to it:
   * mark the (single) requirement as succeeded. Nothing here ever unmarks it.
   */
  class AuthorizationContext {
    var succeeded: bool

    constructor ()
      ensures !succeeded
    {
      succeeded := false;
    }

    method Succeed()
      modifies this
      ensures succeeded
    {
      succeeded := true;
    }
  }
}
