# Collection authorization, access-policy checks and domain-name validation

A Dafny model of four small pieces of decision and validation logic from the
Bitwarden server:

- **Member collection authorization.** `MemberCollectionAuthorizationHandler`
  decides, for one bulk collection operation on one collection, whether an
  organization member succeeds. The inputs are the member's role and
  permission flags, the cached organization ability, the
  `FlexibleCollectionsV1` feature flag and the collections the user can
  manage. The handler is a class. Its memo of managed collection ids is filled
  on first need and then reused, and a ghost counter records how often the
  repository is asked. Every method is proved against a rule table
  (`RuleFor`, `MemberOutcome`).
- **Provider collection authorization.** `ProviderCollectionAuthorizationHandler`
  grants the seven listed operations to a provider user of the collection's
  organization and nothing else.
- **Access-policy batch checks.** `AccessPolicyHelpers` has two checks. The
  first rejects a batch in which two policies share a (subject id, target id)
  key, and the second rejects one in which some policy lacks Read.
- **Domain-name validation.** `DomainNameAttribute` matches one regular
  expression. It is modelled as the language that expression denotes: split
  on dots, then check each label and the top-level domain. .NET's `$` also
  matches before a final newline, and the model keeps that.

Files: `Common.dfy` (Option, Guid), `CollectionOperations.dfy` (the shared
entities, the requirement enumeration, the authorization context),
`MemberCollectionAuthorization.dfy`, `ProviderCollectionAuthorization.dfy`,
`AccessPolicyHelpers.dfy`, `DomainName.dfy`.

## Model

| member | source | states |
|---|---|---|
| CollectionOperations.CurrentContext.GetOrganization | src/Api/Vault/AuthorizationHandlers/Collections/MemberCollectionAuthorizationHandler.cs:46-51 | the membership is present exactly when the user is a member of the organization, and it is that organization's entry |
| CollectionOperations.AuthorizationContext.Succeed | src/Api/Vault/AuthorizationHandlers/Collections/MemberCollectionAuthorizationHandler.cs:90 | after the call the requirement is marked succeeded |
| MemberCollectionAuthorization.ManagedCollectionIds | src/Api/Vault/AuthorizationHandlers/Collections/MemberCollectionAuthorizationHandler.cs:226-229 | an id is in the set exactly when some fetched collection has that id and Manage set |
| MemberCollectionAuthorization.ManageAnswer | src/Api/Vault/AuthorizationHandlers/Collections/MemberCollectionAuthorizationHandler.cs:220-233 | no answer (the throw) exactly when there is no user id; yes exactly when the user has a user id and one of its fetched collections has this id and Manage set |
| MemberCollectionAuthorization.RuleFor | src/Api/Vault/AuthorizationHandlers/Collections/MemberCollectionAuthorizationHandler.cs:80-218 | the rule table: an unrecognized requirement is neither privileged nor manageable; Owner and Admin are privileged outside the Update family, and inside it iff EditAnyCollection, admin access to all items or V1 off; EditAnyCollection makes reads and updates privileged; managing never counts for Create, always for reads and updates, and for Delete iff the ability is present with the creation limit off |
| MemberCollectionAuthorization.MemberOutcome | src/Api/Vault/AuthorizationHandlers/Collections/MemberCollectionAuthorizationHandler.cs:37-78 | only a member of the organization gets a decision; success comes from a privileged rule or from a managed collection where managing suffices; the only fault is a missing user id |
| MemberCollectionAuthorization.MemberCollectionAuthorizationHandler.constructor | src/Api/Vault/AuthorizationHandlers/Collections/MemberCollectionAuthorizationHandler.cs:25-35 | a new handler holds its collaborators, an empty memo and no repository fetch |
| MemberCollectionAuthorization.MemberCollectionAuthorizationHandler.HandleRequirement | src/Api/Vault/AuthorizationHandlers/Collections/MemberCollectionAuthorizationHandler.cs:37-78 | the context is marked succeeded exactly when it already was or the rule table grants the operation; the call faults exactly when the table says the manage relation is needed without a user id; the memo is fetched only when empty and needed, at most once per handler |
| MemberCollectionAuthorization.MemberCollectionAuthorizationHandler.OrganizationAbilityOf | src/Api/Vault/AuthorizationHandlers/Collections/MemberCollectionAuthorizationHandler.cs:235-238 | the ability is present exactly when the cache holds one for the collection's organization, and it is the cached one |
| MemberCollectionAuthorization.MemberCollectionAuthorizationHandler.CanCreate | src/Api/Vault/AuthorizationHandlers/Collections/MemberCollectionAuthorizationHandler.cs:80-99 | marks success exactly as the Create row of the rule table decides |
| MemberCollectionAuthorization.MemberCollectionAuthorizationHandler.CanRead | src/Api/Vault/AuthorizationHandlers/Collections/MemberCollectionAuthorizationHandler.cs:101-126 | marks success and faults exactly as the Read row decides, and keeps the memo invariant |
| MemberCollectionAuthorization.MemberCollectionAuthorizationHandler.CanReadWithAccess | src/Api/Vault/AuthorizationHandlers/Collections/MemberCollectionAuthorizationHandler.cs:128-154 | marks success and faults exactly as the ReadWithAccess row decides |
| MemberCollectionAuthorization.MemberCollectionAuthorizationHandler.CanUpdateCollection | src/Api/Vault/AuthorizationHandlers/Collections/MemberCollectionAuthorizationHandler.cs:159-191 | marks success and faults exactly as the Update row decides |
| MemberCollectionAuthorization.MemberCollectionAuthorizationHandler.CanDelete | src/Api/Vault/AuthorizationHandlers/Collections/MemberCollectionAuthorizationHandler.cs:193-218 | marks success and faults exactly as the Delete row decides |
| MemberCollectionAuthorization.MemberCollectionAuthorizationHandler.CanManageCollection | src/Api/Vault/AuthorizationHandlers/Collections/MemberCollectionAuthorizationHandler.cs:220-233 | the answer is whether the target is among the managed ids of the user's collections, or a fault without a user id; the memo, once filled, holds exactly that set and is never fetched again |
| MemberCollectionAuthorization.NonMemberNeverSucceeds | src/Api/Vault/AuthorizationHandlers/Collections/MemberCollectionAuthorizationHandler.cs:41-51 | a null resource or a non-member gets no decision, and the repository is not asked |
| MemberCollectionAuthorization.UnrecognizedRequirementIgnored | src/Api/Vault/AuthorizationHandlers/Collections/MemberCollectionAuthorizationHandler.cs:53-77 | a requirement outside the switch gets no decision and asks nothing |
| MemberCollectionAuthorization.FaultsOnlyWithoutUserId | src/Api/Vault/AuthorizationHandlers/Collections/MemberCollectionAuthorizationHandler.cs:224-225 | the handler throws exactly when the manage relation is needed and there is no user id |
| MemberCollectionAuthorization.CreateRule | src/Api/Vault/AuthorizationHandlers/Collections/MemberCollectionAuthorizationHandler.cs:80-99 | Create succeeds iff Owner, Admin, CreateNewCollections, or a non-null ability with the creation limit off; a null ability without role or flag gives no decision; managing is never asked |
| MemberCollectionAuthorization.ReadRule | src/Api/Vault/AuthorizationHandlers/Collections/MemberCollectionAuthorizationHandler.cs:101-126 | Read and ReadAccess decide alike; success iff Owner, Admin, EditAnyCollection, DeleteAnyCollection, or the collection is managed |
| MemberCollectionAuthorization.ReadWithAccessExtendsRead | src/Api/Vault/AuthorizationHandlers/Collections/MemberCollectionAuthorizationHandler.cs:128-154 | whatever Read grants ReadWithAccess grants; ManageUsers grants it too; without ManageUsers the two decide alike |
| MemberCollectionAuthorization.UpdateRule | src/Api/Vault/AuthorizationHandlers/Collections/MemberCollectionAuthorizationHandler.cs:159-170 | Update, ModifyAccess and ImportCiphers decide alike, and EditAnyCollection always grants them |
| MemberCollectionAuthorization.UpdateOtherwiseNeedsManage | src/Api/Vault/AuthorizationHandlers/Collections/MemberCollectionAuthorizationHandler.cs:159-191 | a member without EditAnyCollection that is not an Owner or Admin let through by admin access to all items or by the V1 flag being off updates exactly the collections it manages; this covers every User and Custom member whatever the flags |
| MemberCollectionAuthorization.DeleteRule | src/Api/Vault/AuthorizationHandlers/Collections/MemberCollectionAuthorizationHandler.cs:193-218 | Delete succeeds iff Owner, Admin, DeleteAnyCollection, or (creation limit off and the collection managed); with the limit on or a null ability, managing is not enough |
| MemberCollectionAuthorization.OwnerOrAdminSucceeds | src/Api/Vault/AuthorizationHandlers/Collections/MemberCollectionAuthorizationHandler.cs:86-205 | Owners and Admins succeed for Create, Read, ReadAccess, ReadWithAccess and Delete, and for the Update family when admin access to all items is allowed or V1 is off |
| MemberCollectionAuthorization.UpdateTwiceFetchesOnce | src/Api/Vault/AuthorizationHandlers/Collections/MemberCollectionAuthorizationHandler.cs:222-230 | two Update evaluations by a plain user on one handler ask the repository exactly once |
| ProviderCollectionAuthorization.ListedOperations | src/Api/Vault/AuthorizationHandlers/Collections/ProviderCollectionAuthorizationHandler.cs:37-43 | of the bulk operations, the list leaves out ReadWithAccess alone |
| ProviderCollectionAuthorization.ProviderGrants | src/Api/Vault/AuthorizationHandlers/Collections/ProviderCollectionAuthorizationHandler.cs:35-49 | a grant needs a non-null resource whose organization the caller is a provider for, and is never for ReadWithAccess or an unlisted requirement; every other operation under those conditions is granted |
| ProviderCollectionAuthorization.ProviderCollectionAuthorizationHandler.constructor | src/Api/Vault/AuthorizationHandlers/Collections/ProviderCollectionAuthorizationHandler.cs:21-24 | the handler holds only the injected current context |
| ProviderCollectionAuthorization.ProviderCollectionAuthorizationHandler.HandleRequirement | src/Api/Vault/AuthorizationHandlers/Collections/ProviderCollectionAuthorizationHandler.cs:26-50 | the context is marked succeeded exactly when it already was, or the resource is non-null, the operation is listed and the caller is a provider for the organization |
| ProviderCollectionAuthorization.NullResourceNoDecision | src/Api/Vault/AuthorizationHandlers/Collections/ProviderCollectionAuthorizationHandler.cs:30-33 | a null resource is never granted |
| ProviderCollectionAuthorization.ReadWithAccessNeverGranted | src/Api/Vault/AuthorizationHandlers/Collections/ProviderCollectionAuthorizationHandler.cs:37-43 | ReadWithAccess is never granted by this handler |
| ProviderCollectionAuthorization.ListedOperationsGrantedIffProvider | src/Api/Vault/AuthorizationHandlers/Collections/ProviderCollectionAuthorizationHandler.cs:37-48 | each listed operation is granted iff the caller is a provider for the organization |
| ProviderCollectionAuthorization.IgnoresMembership | src/Api/Vault/AuthorizationHandlers/Collections/ProviderCollectionAuthorizationHandler.cs:44-47 | two contexts that agree on the provider check decide alike, whatever their user ids and memberships |
| ProviderCollectionAuthorization.ProviderDeletesWithoutMembership | src/Api/Vault/AuthorizationHandlers/Collections/ProviderCollectionAuthorizationHandler.cs:37-48 | a provider with no membership deletes through this handler while the member handler gives no decision |
| AccessPolicyHelpers.KeyOf | src/Api/SecretsManager/Utilities/AccessPolicyHelpers.cs:12-22 | no key (the ArgumentException) exactly for an unsupported kind; otherwise the grantee id (organization user, group or service account) paired with the granted id (project or service account) |
| AccessPolicyHelpers.DistinctBy | src/Api/SecretsManager/Utilities/AccessPolicyHelpers.cs:10-23 | the selector fails exactly when some kind is unsupported, and the distinct list is never longer than the batch |
| AccessPolicyHelpers.DistinctByCount | src/Api/SecretsManager/Utilities/AccessPolicyHelpers.cs:10-23 | on a supported batch the distinct list is as long as the batch exactly when the keys are pairwise distinct and none was seen before |
| AccessPolicyHelpers.CheckForDistinctAccessPolicies | src/Api/SecretsManager/Utilities/AccessPolicyHelpers.cs:8-29 | passes iff every kind is supported and the keys are pairwise distinct; the ArgumentException iff some kind is unsupported; otherwise BadRequest "Resources must be unique" |
| AccessPolicyHelpers.RepeatedKeyRejected | src/Api/SecretsManager/Utilities/AccessPolicyHelpers.cs:25-28 | any two supported policies with one key, at any positions, make the check throw BadRequest |
| AccessPolicyHelpers.WithFlags | src/Api/SecretsManager/Utilities/AccessPolicyHelpers.cs:14-20 | changing Read and Write leaves the key unchanged |
| AccessPolicyHelpers.FlagsDoNotMatter | src/Api/SecretsManager/Utilities/AccessPolicyHelpers.cs:10-23 | batches whose keys agree position by position get the same outcome, whatever their flags |
| AccessPolicyHelpers.SameUserSameProject | src/Api/SecretsManager/Utilities/AccessPolicyHelpers.cs:14 | one user granted one project twice with different flags is a duplicate; the same user on two projects passes |
| AccessPolicyHelpers.UntaggedKeysCollide | src/Api/SecretsManager/Utilities/AccessPolicyHelpers.cs:14-20 | a user grant and a group grant with equal id pairs collide, and so do two all-null keys of different kinds |
| AccessPolicyHelpers.AllHaveRead | src/Api/SecretsManager/Utilities/AccessPolicyHelpers.cs:33 | true iff every policy of the batch has Read |
| AccessPolicyHelpers.CheckAccessPoliciesHasReadPermission | src/Api/SecretsManager/Utilities/AccessPolicyHelpers.cs:31-38 | passes iff every policy has Read (so the empty batch passes); otherwise BadRequest "Resources must be Read = true" |
| AccessPolicyHelpers.ReadCheckIgnoresWrite | src/Api/SecretsManager/Utilities/AccessPolicyHelpers.cs:33 | changing one policy's Write never changes the outcome, and one write-only policy rejects the batch |
| DomainName.IsMatch | src/Core/Utilities/DomainNameAttribute.cs:32 | a match holds only letters, digits, hyphens and dots, save one final newline, and ends in a letter or in a letter and that newline |
| DomainName.IsValid | src/Core/Utilities/DomainNameAttribute.cs:35-39 | null is invalid, and a valid string holds only letters, digits, hyphens and dots, save one final newline |
| DomainName.IsValidIntended | src/Core/Utilities/DomainNameAttribute.cs:32 | the corrected validator: null is invalid, and a valid string holds only letters, digits, hyphens and dots and ends in a letter, with no final newline |
| DomainName.Split | src/Core/Utilities/DomainNameAttribute.cs:32 | the parts are dot-free, there is at least one, and joining them with dots gives the input back |
| DomainName.SplitJoin | src/Core/Utilities/DomainNameAttribute.cs:32 | splitting dot-free parts joined with dots gives the parts back |
| DomainName.DomainOfParts | src/Core/Utilities/DomainNameAttribute.cs:32 | dot-free parts joined with dots form the expression's body iff they are labels followed by a top-level domain |
| DomainName.BodyIsWellFormed | src/Core/Utilities/DomainNameAttribute.cs:32 | a matched body, with any label floor, starts and ends with a letter or digit, has a letter or digit on both sides of each dot, and ends in a letter |
| DomainName.AcceptedIsWellFormed | src/Core/Utilities/DomainNameAttribute.cs:35-39 | an accepted string is a well-formed body, or one followed by a single final newline |
| DomainName.NullAndEmptyInvalid | src/Core/Utilities/DomainNameAttribute.cs:37-38 | null and the empty string are invalid |
| DomainName.ForeignCharacterRejected | src/Core/Utilities/DomainNameAttribute.cs:32 | any character other than a letter, digit, hyphen or dot rejects the string, except one final newline |
| DomainName.LeadingPunctuationRejected | src/Core/Utilities/DomainNameAttribute.cs:32 | a string starting with a hyphen or a dot is rejected |
| DomainName.PunctuationPairRejected | src/Core/Utilities/DomainNameAttribute.cs:32 | a hyphen next to a dot, or two dots in a row, reject the string |
| DomainName.LongLabelRejected | src/Core/Utilities/DomainNameAttribute.cs:32 | a non-final label longer than 63 characters means no match and an invalid string, with or without a final newline |
| DomainName.HttpPrefixesAlreadyExcluded | src/Core/Utilities/DomainNameAttribute.cs:32 | strings starting with "http://" or "https://" fail the body anyway, so only "www." needs the lookahead |
| DomainName.AcceptedParts | src/Core/Utilities/DomainNameAttribute.cs:32 | dot-free labels and a top-level domain whose joined string has no excluded prefix are accepted once joined; the converse of RejectedParts |
| DomainName.RejectedParts | src/Core/Utilities/DomainNameAttribute.cs:32 | dot-free parts that are not labels and a top-level domain, and do not end in a newline, are rejected once joined |
| DomainName.WwwPrefixNeedsLookahead | src/Core/Utilities/DomainNameAttribute.cs:32 | "www.example.com" has the form of a domain and only the lookahead rejects it |
| DomainName.UpperCaseWwwAccepted | src/Core/Utilities/DomainNameAttribute.cs:32 | the prefix check is case-sensitive: "WWW.example.com" is accepted |
| DomainName.TldHasNoUpperBound | src/Core/Utilities/DomainNameAttribute.cs:30-32 | any run of two or more letters is accepted as a top-level domain |
| DomainName.AcceptedEndsInLetter | src/Core/Utilities/DomainNameAttribute.cs:30-32 | an accepted string ends in a letter, or in a letter and a newline: a digit or hyphen never ends the top-level domain |
| DomainName.AcceptsTestCom | test/Core.Test/Utilities/DomainNameAttributeTests.cs:10 | "test.com" is valid |
| DomainName.AcceptsSubdomain | test/Core.Test/Utilities/DomainNameAttributeTests.cs:11 | "subdomain.example.net" is valid |
| DomainName.AcceptsDigitsInLabel | test/Core.Test/Utilities/DomainNameAttributeTests.cs:12 | "example123.co" is valid |
| DomainName.AcceptsHyphenInLabel | test/Core.Test/Utilities/DomainNameAttributeTests.cs:13 | "valid-domain.co.uk" is valid |
| DomainName.AttributeTestRejects | test/Core.Test/Utilities/DomainNameAttributeTests.cs:26-33 | an underscore, an at sign, a protocol prefix, a leading hyphen, a hyphen before a dot, a doubled dot and a space are all rejected |
| DomainName.RejectsShortTld | test/Core.Test/Utilities/DomainNameAttributeTests.cs:35 | "example.c" is invalid |
| DomainName.TrailingNewlineAccepted | src/Core/Utilities/DomainNameAttribute.cs:32 | as written "test.com\n" is accepted; the intended validator rejects it |
| DomainName.SingleCharacterLabelRejected | test/Core.Test/Utilities/DomainNameAttributeTests.cs:9 | as written "a.com" is rejected; the intended validator accepts it |
| DomainName.PatternAcceptedIsIntended | src/Core/Utilities/DomainNameAttribute.cs:32 | everything the expression accepts without a final newline, the intended validator accepts |
| DomainName.IntendedAcceptedByPattern | src/Core/Utilities/DomainNameAttribute.cs:32 | everything the intended validator accepts with no one-character label, the expression accepts |

## Left out

- async/`Task` and the ASP.NET authorization framework. `AuthorizationHandlerContext` is reduced to a `succeeded` flag that only `Succeed` sets.
- `ICurrentContext`, `ICollectionRepository`, `IApplicationCacheService` and `IFeatureService` are given values: a map of memberships, a provider predicate, a function from user id to collections, a map of abilities and a boolean. Persistence and caching behind them are not modelled.
- The feature flag and the ability cache are read once per handler. The source queries them on each call, so a value that changes between calls is not modelled.
- The exception thrown by `UserId!.Value` without a user id is an outcome (`Faulted`), not a propagated exception.
- The collaborators are assumed never to throw: the collection repository, the ability cache, the feature service and `ProviderUserForOrgAsync`. In the source a throwing `GetManyByUserIdAsync` leaves the memo null, so the next call asks again. The at-most-once bound on fetches therefore counts successful fetches.
- A null `Permissions` object is modelled as all flags false. A property pattern on null does not match, so the decisions are the same.
- A null requirement and requirements other than the eight bulk operations are one `Unrecognized` value.
- A null batch or null elements in an access-policy batch are not modelled. Neither is a policy type that would throw from its `Read` getter.
- `DomainNameAttribute.IsValid` receives an object and calls `ToString`. The model takes an optional string. What `ToString` returns for other objects is not modelled.
- The regular-expression engine (backtracking, lookahead evaluation) is not modelled, only the language the expression denotes.
- The 66-character label of the test at test/Core.Test/Utilities/DomainNameAttributeTests.cs:34 is covered by `LongLabelRejected` for every label longer than 63 characters, not as a literal instance.
- GUIDs are opaque 128-bit values compared by equality; their generation is not modelled.
- Test-harness mechanics are not modelled. Several loops in the member handler's tests pass `Read` where they iterate over operations, so the Read/ReadAccess equivalence rests on the code's switch.

## Findings

| source | as written | input that shows it | evidently intended | confidence | as-written member | corrected member |
|---|---|---|---|---|---|---|
| src/Core/Utilities/DomainNameAttribute.cs:32 | the expression ends in `$`, which in .NET also matches just before a final newline | "test.com\n" is accepted | the match ends at the end of the input (`\z`) | medium, not executed | DomainName.TrailingNewlineAccepted | DomainName.IsValidIntended |
| src/Core/Utilities/DomainNameAttribute.cs:32 | every non-final label needs two letters or digits around `{0,61}`, so a label has at least two characters | "a.com" is rejected, while test/Core.Test/Utilities/DomainNameAttributeTests.cs:9 expects it valid | labels of one character, as section 2 of RFC 3696 allows | high, not executed | DomainName.SingleCharacterLabelRejected | DomainName.IsValidIntended |

`IsValid` follows the expression as written, since that is what the attribute
does. `IsValidIntended` is the corrected definition. The lemmas above relate
the two in both directions, and the two as-written members show where they
differ.
