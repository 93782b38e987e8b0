/**
 * The two checks run on a batch of Secrets Manager access policies before it
 * is saved: no two policies may name the same (grantee, granted) pair, and
 * every policy must grant read.
 */
module AccessPolicyHelpers {
  import opened Common

  /**
   * An access policy. The first five are the kinds the distinctness check
   * knows; `OtherAccessPolicy` is any other subclass of `BaseAccessPolicy`,
   * for which the check throws `ArgumentException`.
   */
  datatype AccessPolicy =
    | UserProjectAccessPolicy(organizationUserId: Option<Guid>, grantedProjectId: Option<Guid>, read: bool, write: bool)
    | GroupProjectAccessPolicy(groupId: Option<Guid>, grantedProjectId: Option<Guid>, read: bool, write: bool)
    | ServiceAccountProjectAccessPolicy(serviceAccountId: Option<Guid>, grantedProjectId: Option<Guid>, read: bool, write: bool)
    | UserServiceAccountAccessPolicy(organizationUserId: Option<Guid>, grantedServiceAccountId: Option<Guid>, read: bool, write: bool)
    | GroupServiceAccountAccessPolicy(groupId: Option<Guid>, grantedServiceAccountId: Option<Guid>, read: bool, write: bool)
    | OtherAccessPolicy(read: bool, write: bool)

  /** The untagged `Tuple<Guid?, Guid?>` a policy is compared by. */
  type PolicyKey = (Option<Guid>, Option<Guid>)

  datatype CheckError =
    | BadRequest(message: string)   // BadRequestException
    | UnsupportedPolicyType         // ArgumentException("Unsupported access policy type provided.")

  /** The result of a check: it returns, or it throws. */
  datatype CheckResult = Pass | Fail(error: CheckError)

  /** The key selector of `CheckForDistinctAccessPolicies`; None where it throws. */
  function KeyOf(policy: AccessPolicy): (key: Option<PolicyKey>)
    ensures key.None? <==> policy.OtherAccessPolicy?
    // The first component is the grantee: the organization user, the group or the service account.
    ensures (policy.UserProjectAccessPolicy? || policy.UserServiceAccountAccessPolicy?) ==>
              key.value.0 == policy.organizationUserId
    ensures (policy.GroupProjectAccessPolicy? || policy.GroupServiceAccountAccessPolicy?) ==>
              key.value.0 == policy.groupId
    ensures policy.ServiceAccountProjectAccessPolicy? ==> key.value.0 == policy.serviceAccountId
    // The second is what is granted: the project or the service account.
    ensures (|| policy.UserProjectAccessPolicy? || policy.GroupProjectAccessPolicy?
             || policy.ServiceAccountProjectAccessPolicy?) ==> key.value.1 == policy.grantedProjectId
    ensures (policy.UserServiceAccountAccessPolicy? || policy.GroupServiceAccountAccessPolicy?) ==>
              key.value.1 == policy.grantedServiceAccountId
  {
    match policy
    case UserProjectAccessPolicy(userId, projectId, _, _) => Some((userId, projectId))
    case GroupProjectAccessPolicy(groupId, projectId, _, _) => Some((groupId, projectId))
    case ServiceAccountProjectAccessPolicy(serviceAccountId, projectId, _, _) => Some((serviceAccountId, projectId))
    case UserServiceAccountAccessPolicy(userId, serviceAccountId, _, _) => Some((userId, serviceAccountId))
    case GroupServiceAccountAccessPolicy(groupId, serviceAccountId, _, _) => Some((groupId, serviceAccountId))
    case OtherAccessPolicy(_, _) => None
  }

  predicate AllSupported(policies: seq<AccessPolicy>) {
    forall i :: 0 <= i < |policies| ==> KeyOf(policies[i]).Some?
  }

  /** No two policies of the batch share a key. */
  predicate KeysDistinct(policies: seq<AccessPolicy>) {
    forall i, j :: 0 <= i < j < |policies| ==> KeyOf(policies[i]) != KeyOf(policies[j])
  }

  /** No policy of the batch has a key already in `seen`. */
  predicate KeysUnseen(policies: seq<AccessPolicy>, seen: set<PolicyKey>) {
    forall i :: 0 <= i < |policies| ==> KeyOf(policies[i]).Some? && KeyOf(policies[i]).value !in seen
  }

  /**
   * `DistinctBy(KeyOf).ToList()`: the policies whose key has not been met
   * before, in order, with `seen` the keys met so far. `ToList` runs the key
   * selector over the whole batch, so any unsupported kind throws.
   */
  function DistinctBy(policies: seq<AccessPolicy>, seen: set<PolicyKey>): (distinct: Option<seq<AccessPolicy>>)
    ensures distinct.Some? <==> AllSupported(policies)
    ensures distinct.Some? ==> |distinct.value| <= |policies|
    decreases |policies|
  {
    if policies == [] then Some([])
    else match KeyOf(policies[0])
      case None => None
      case Some(key) =>
        if key in seen then DistinctBy(policies[1..], seen)
        else match DistinctBy(policies[1..], seen + {key})
          case None => None
          case Some(rest) => Some([policies[0]] + rest)
  }

  /**
   * On a batch of supported kinds the distinct list is as long as the batch
   * exactly when the keys are pairwise distinct and none was seen before.
   */
  lemma {:induction false} DistinctByCount(policies: seq<AccessPolicy>, seen: set<PolicyKey>)
    ensures DistinctBy(policies, seen).Some? ==>
      (|DistinctBy(policies, seen).value| == |policies| <==> KeysDistinct(policies) && KeysUnseen(policies, seen))
    decreases |policies|
  {
    if policies != [] {
      var rest := policies[1..];
      assert forall i :: 1 <= i < |policies| ==> policies[i] == rest[i - 1];
      match KeyOf(policies[0])
      case None =>
      case Some(key) =>
        if key in seen {
          DistinctByCount(rest, seen);
        } else {
          DistinctByCount(rest, seen + {key});
          if AllSupported(policies) && KeysDistinct(policies) && KeysUnseen(policies, seen) {
            assert KeysUnseen(rest, seen + {key}) by {
              forall i | 0 <= i < |rest|
                ensures KeyOf(rest[i]).Some? && KeyOf(rest[i]).value !in seen + {key}
              {
                assert KeyOf(policies[0]) != KeyOf(policies[i + 1]);
              }
            }
          }
        }
    }
  }

  /**
   * `CheckForDistinctAccessPolicies`: throws when the distinct list is shorter
   * than the batch. It passes exactly on a batch of supported kinds with
   * pairwise distinct keys, throws `ArgumentException` on any unsupported kind
   * and `BadRequestException` on a supported batch with a repeated key.
   */
  function CheckForDistinctAccessPolicies(policies: seq<AccessPolicy>): (result: CheckResult)
    ensures result == Pass <==> AllSupported(policies) && KeysDistinct(policies)
    ensures result == Fail(UnsupportedPolicyType) <==> !AllSupported(policies)
    ensures result != Pass && result != Fail(UnsupportedPolicyType) ==>
              result == Fail(BadRequest("Resources must be unique"))
  {
    DistinctByCount(policies, {});
    match DistinctBy(policies, {})
    case None => Fail(UnsupportedPolicyType)
    case Some(distinct) =>
      if |policies| != |distinct| then Fail(BadRequest("Resources must be unique")) else Pass
  }

  /** Duplicates are found whatever position they sit at: a repeated key among
      supported kinds is rejected. */
  lemma RepeatedKeyRejected(policies: seq<AccessPolicy>, i: nat, j: nat)
    requires AllSupported(policies)
    requires i < j < |policies| && KeyOf(policies[i]) == KeyOf(policies[j])
    ensures CheckForDistinctAccessPolicies(policies) == Fail(BadRequest("Resources must be unique"))
  {
  }

  /** The Read and Write flags are not part of the key: changing them changes no outcome. */
  function WithFlags(policy: AccessPolicy, read: bool, write: bool): (updated: AccessPolicy)
    ensures KeyOf(updated) == KeyOf(policy)
    ensures updated.read == read && updated.write == write
  {
    policy.(read := read, write := write)
  }

  lemma {:induction false} FlagsDoNotMatter(policies: seq<AccessPolicy>, reflagged: seq<AccessPolicy>)
    requires |policies| == |reflagged|
    requires forall i :: 0 <= i < |policies| ==> KeyOf(reflagged[i]) == KeyOf(policies[i])
    ensures CheckForDistinctAccessPolicies(reflagged) == CheckForDistinctAccessPolicies(policies)
  {
  }

  /** Two grants of one user on one project are duplicates even with different flags;
      the same user on two projects is accepted. */
  lemma SameUserSameProject(user: Guid, project1: Guid, project2: Guid)
    requires project1 != project2
    ensures CheckForDistinctAccessPolicies([
      UserProjectAccessPolicy(Some(user), Some(project1), true, true),
      UserProjectAccessPolicy(Some(user), Some(project1), true, false)]) == Fail(BadRequest("Resources must be unique"))
    ensures CheckForDistinctAccessPolicies([
      UserProjectAccessPolicy(Some(user), Some(project1), true, true),
      UserProjectAccessPolicy(Some(user), Some(project2), true, true)]) == Pass
  {
    RepeatedKeyRejected([
      UserProjectAccessPolicy(Some(user), Some(project1), true, true),
      UserProjectAccessPolicy(Some(user), Some(project1), true, false)], 0, 1);
  }

  /** The key carries no tag: a user grant and a group grant whose ids coincide are
      duplicates, and so are two grants whose ids are both null. */
  lemma UntaggedKeysCollide(id: Guid, project: Guid)
    ensures CheckForDistinctAccessPolicies([
      UserProjectAccessPolicy(Some(id), Some(project), true, false),
      GroupProjectAccessPolicy(Some(id), Some(project), true, false)]) == Fail(BadRequest("Resources must be unique"))
    ensures CheckForDistinctAccessPolicies([
      UserServiceAccountAccessPolicy(None, None, true, false),
      GroupProjectAccessPolicy(None, None, false, true)]) == Fail(BadRequest("Resources must be unique"))
  {
    RepeatedKeyRejected([
      UserProjectAccessPolicy(Some(id), Some(project), true, false),
      GroupProjectAccessPolicy(Some(id), Some(project), true, false)], 0, 1);
  }

  /** `accessPolicies.All(policy => policy.Read)`. */
  function AllHaveRead(policies: seq<AccessPolicy>): (all: bool)
    ensures all <==> forall i :: 0 <= i < |policies| ==> policies[i].read
  {
    if policies == [] then true
    else
      assert forall i :: 1 <= i < |policies| ==> policies[i] == policies[1..][i - 1];
      policies[0].read && AllHaveRead(policies[1..])
  }

  /** `CheckAccessPoliciesHasReadPermission`: throws unless every policy grants read. */
  function CheckAccessPoliciesHasReadPermission(policies: seq<AccessPolicy>): (result: CheckResult)
    ensures result == Pass <==> forall i :: 0 <= i < |policies| ==> policies[i].read
    ensures result != Pass ==> result == Fail(BadRequest("Resources must be Read = true"))
  {
    if !AllHaveRead(policies) then Fail(BadRequest("Resources must be Read = true")) else Pass
  }

  /** Write is unconstrained: a batch is judged on its Read flags alone, and one
      write-only grant rejects it. */
  lemma {:induction false} ReadCheckIgnoresWrite(policies: seq<AccessPolicy>, i: nat, write: bool)
    requires i < |policies|
    ensures CheckAccessPoliciesHasReadPermission(policies[i := WithFlags(policies[i], policies[i].read, write)])
            == CheckAccessPoliciesHasReadPermission(policies)
    ensures CheckAccessPoliciesHasReadPermission(policies[i := WithFlags(policies[i], false, true)]).Fail?
  {
    var rewritten := policies[i := WithFlags(policies[i], policies[i].read, write)];
    assert forall k :: 0 <= k < |policies| ==> rewritten[k].read == policies[k].read;
    var writeOnly := policies[i := WithFlags(policies[i], false, true)];
    assert !writeOnly[i].read;
  }
}
