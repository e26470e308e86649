/**
 * The role hierarchy of the application's start-up: the ordered roles User < Moderator <
 * Admin < SuperAdmin, the "at least role R" authorization policies built on that order,
 * and the seeding of the four roles into the roles table.
 *
 * `IsInRole` on the signed-in principal is membership in the roles the user holds.
 */
module RolePolicy {
  import opened Wrappers
  import opened DbContext

  /** `roleOrder`, lowest rank first; the same names are the seeded roles. */
  const RoleOrder: seq<string> := ["User", "Moderator", "Admin", "SuperAdmin"]

  /** `Array.IndexOf`: the first position of `x`, or -1. */
  function IndexOf(s: seq<string>, x: string): (r: int)
    ensures -1 <= r < |s|
    ensures r == -1 <==> x !in s
    ensures r >= 0 ==> s[r] == x && forall j :: 0 <= j < r ==> s[j] != x
  {
    if s == [] then -1
    else if s[0] == x then 0
    else
      var r := IndexOf(s[1..], x);
      if r == -1 then -1 else r + 1
  }

  /** The user holds some role ranked at or above `minimumRole`. */
  predicate RanksAtLeast(roles: set<string>, minimumRole: string) {
    exists i :: 0 <= IndexOf(RoleOrder, minimumRole) <= i < |RoleOrder| && RoleOrder[i] in roles
  }

  /**
   * The assertion of `AddMinimumRolePolicy`: an unknown minimum role fails; otherwise the
   * roles from the minimum upwards are tried in order and the first one held succeeds.
   */
  method AtLeast(roles: set<string>, minimumRole: string) returns (ok: bool)
    ensures ok <==> RanksAtLeast(roles, minimumRole)
  {
    var minIndex := IndexOf(RoleOrder, minimumRole);
    if minIndex < 0 {
      return false;
    }
    var i := minIndex;
    while i < |RoleOrder|
      invariant minIndex <= i <= |RoleOrder|
      invariant forall j :: minIndex <= j < i ==> RoleOrder[j] !in roles
    {
      if RoleOrder[i] in roles {
        return true;
      }
      i := i + 1;
    }
    return false;
  }

  /** The four policies and the minimum role of each. */
  function PolicyMinimumRole(policyName: string): (r: Option<string>)
    ensures r.Some? ==> r.value in RoleOrder
    ensures r.Some? <==> policyName in {"AtLeastUser", "AtLeastModerator", "AtLeastAdmin", "AtLeastSuperAdmin"}
  {
    if policyName == "AtLeastUser" then Some("User")
    else if policyName == "AtLeastModerator" then Some("Moderator")
    else if policyName == "AtLeastAdmin" then Some("Admin")
    else if policyName == "AtLeastSuperAdmin" then Some("SuperAdmin")
    else None
  }

  /** A minimum role outside the order admits nobody. */
  lemma UnknownMinimumRoleDenies(roles: set<string>, minimumRole: string)
    requires minimumRole !in RoleOrder
    ensures !RanksAtLeast(roles, minimumRole)
  {
  }

  /** Holding a role is enough for the policy of that role or of any role below it. */
  lemma HoldingRoleSatisfiesLowerPolicies(roles: set<string>, held: string, minimumRole: string)
    requires held in roles && held in RoleOrder && minimumRole in RoleOrder
    requires IndexOf(RoleOrder, minimumRole) <= IndexOf(RoleOrder, held)
    ensures RanksAtLeast(roles, minimumRole)
  {
    var i := IndexOf(RoleOrder, held);
    assert RoleOrder[i] in roles;
  }

  /** The policies are monotone: a higher minimum role demands more. */
  lemma {:induction false} PoliciesMonotone(roles: set<string>, higher: string, lower: string)
    requires lower in RoleOrder
    requires IndexOf(RoleOrder, lower) <= IndexOf(RoleOrder, higher)
    ensures RanksAtLeast(roles, higher) ==> RanksAtLeast(roles, lower)
  {
    if RanksAtLeast(roles, higher) {
      var i :| 0 <= IndexOf(RoleOrder, higher) <= i < |RoleOrder| && RoleOrder[i] in roles;
      assert IndexOf(RoleOrder, lower) <= i;
    }
  }

  /** AtLeastSuperAdmin ⇒ AtLeastAdmin ⇒ AtLeastModerator ⇒ AtLeastUser. */
  lemma PolicyChain(roles: set<string>)
    ensures RanksAtLeast(roles, "SuperAdmin") ==> RanksAtLeast(roles, "Admin")
    ensures RanksAtLeast(roles, "Admin") ==> RanksAtLeast(roles, "Moderator")
    ensures RanksAtLeast(roles, "Moderator") ==> RanksAtLeast(roles, "User")
  {
    assert IndexOf(RoleOrder, "User") == 0;
    assert IndexOf(RoleOrder, "Moderator") == 1;
    assert IndexOf(RoleOrder, "Admin") == 2;
    assert IndexOf(RoleOrder, "SuperAdmin") == 3;
    PoliciesMonotone(roles, "SuperAdmin", "Admin");
    PoliciesMonotone(roles, "Admin", "Moderator");
    PoliciesMonotone(roles, "Moderator", "User");
  }

  /** AtLeastSuperAdmin is exactly holding SuperAdmin; AtLeastUser is holding any of the four. */
  lemma PolicyEnds(roles: set<string>)
    ensures RanksAtLeast(roles, "SuperAdmin") <==> "SuperAdmin" in roles
    ensures RanksAtLeast(roles, "User") <==> exists r :: r in RoleOrder && r in roles
  {
    assert IndexOf(RoleOrder, "User") == 0;
    assert IndexOf(RoleOrder, "SuperAdmin") == 3;
    if exists r :: r in RoleOrder && r in roles {
      var r :| r in RoleOrder && r in roles;
      var i := IndexOf(RoleOrder, r);
      assert RoleOrder[i] in roles;
    }
  }

  /** A user holding none of the four roles satisfies no policy. */
  lemma NoRankedRoleNoPolicy(roles: set<string>, minimumRole: string)
    requires forall r :: r in RoleOrder ==> r !in roles
    ensures !RanksAtLeast(roles, minimumRole)
  {
  }

  // ---------------------------------------------------------------- role seeding

  /** The names of `names` that are not yet roles, in list order. */
  function Missing(names: seq<string>, existing: set<string>): (r: seq<string>)
    ensures forall x :: x in r <==> x in names && x !in existing
  {
    if names == [] then []
    else if names[0] in existing then Missing(names[1..], existing)
    else [names[0]] + Missing(names[1..], existing)
  }

  /** No name appears twice. */
  predicate Distinct(names: seq<string>) {
    forall i, j :: 0 <= i < j < |names| ==> names[i] != names[j]
  }

  /**
   * The seeding loop over `names`: each name that is not a role yet is created, in order;
   * `created` lists them (each is logged).
   */
  method CreateMissingRoles(db: ApplicationDbContext, names: seq<string>) returns (created: seq<string>)
    requires db.Valid() && Distinct(names)
    modifies db`roles
    ensures db.Valid()
    ensures db.roles == old(db.roles) + set r | r in names
    ensures created == Missing(names, old(db.roles))
  {
    var roles := db.roles;
    created := [];
    var k := 0;
    while k < |names|
      invariant 0 <= k <= |names|
      invariant forall x :: x in roles <==> x in old(db.roles) || x in names[..k]
      invariant created == Missing(names[..k], old(db.roles))
    {
      var role := names[k];
      assert role !in names[..k] by {
        forall j | 0 <= j < k ensures names[..k][j] != role {
          assert names[..k][j] == names[j];
        }
      }
      assert names[..k + 1] == names[..k] + [role];
      MissingSnoc(names[..k], role, old(db.roles));
      if role !in roles {
        roles := roles + {role};
        created := created + [role];
      }
      k := k + 1;
    }
    assert names[..k] == names;
    db.roles := roles;
  }

  /** Role seeding at start-up: the four roles of the order. */
  method SeedRoles(db: ApplicationDbContext) returns (created: seq<string>)
    requires db.Valid()
    modifies db`roles
    ensures db.Valid()
    ensures db.roles == old(db.roles) + set r | r in RoleOrder
    ensures created == Missing(RoleOrder, old(db.roles))
  {
    RoleOrderDistinct();
    created := CreateMissingRoles(db, RoleOrder);
  }

  /** No role appears twice in the order. */
  lemma RoleOrderDistinct()
    ensures Distinct(RoleOrder)
  {
  }

  /** What is missing of a longer list: what was missing, then the new name unless it exists. */
  lemma {:induction false} MissingSnoc(names: seq<string>, x: string, existing: set<string>)
    ensures Missing(names + [x], existing) == Missing(names, existing) + (if x in existing then [] else [x])
  {
    if names == [] {
      assert names + [x] == [x];
    } else {
      assert (names + [x])[1..] == names[1..] + [x];
      MissingSnoc(names[1..], x, existing);
    }
  }

  /** After seeding every role exists, so seeding again creates nothing. */
  lemma {:induction false} ReseedingCreatesNothing(names: seq<string>, existing: set<string>)
    requires forall x :: x in names ==> x in existing
    ensures Missing(names, existing) == []
  {
    if names != [] {
      ReseedingCreatesNothing(names[1..], existing);
    }
  }

  /** Seeding a second time, on the roles the first run left, creates nothing. */
  lemma SecondSeedingCreatesNothing(existing: set<string>)
    ensures Missing(RoleOrder, existing + set r | r in RoleOrder) == []
  {
    ReseedingCreatesNothing(RoleOrder, existing + set r | r in RoleOrder);
  }
}
