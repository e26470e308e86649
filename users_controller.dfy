/**
 * The admin area's `UsersController`: the user list, the edit form (basic information,
 * roles and the lockout switch) and the deletion of a user. The list and the form show a
 * user as locked out while `LockoutEnd` lies strictly in the future, whatever
 * `LockoutEnabled` says; sign-in (`IdentityLockedOut`) judges differently, and the lemmas
 * at the end say where the two agree.
 */
module UsersController {
  import opened Wrappers
  import opened Text
  import opened Domain
  import opened Collections
  import opened DbContext
  import opened AccountController

  // ---------------------------------------------------------------- the user list

  /** The lock shown in the list and on the edit form: `LockoutEnd > UtcNow`. */
  predicate IsLockedOut(u: ApplicationUser, now: int) {
    u.lockoutEnd.Some? && u.lockoutEnd.value > now
  }

  /** One row of the user list (`AdminUserViewModel` as the controller fills it). */
  datatype AdminUserRow = AdminUserRow(
    id: string,
    email: string,
    firstName: string,
    lastName: string,
    roles: set<string>,
    isLockedOut: bool,
    lockoutEnd: Option<int>)

  /**
   * `Index`: one row per user, in the order the users table is enumerated (`users`), each
   * carrying the user's identity, roles and lock state at `now`.
   */
  method Index(users: seq<ApplicationUser>, now: int) returns (model: seq<AdminUserRow>)
    ensures |model| == |users|
    ensures forall i :: 0 <= i < |users| ==>
      && model[i].id == users[i].id && model[i].email == users[i].email
      && model[i].firstName == users[i].firstName && model[i].lastName == users[i].lastName
      && model[i].roles == users[i].roles && model[i].lockoutEnd == users[i].lockoutEnd
      && (model[i].isLockedOut <==> users[i].lockoutEnd.Some? && users[i].lockoutEnd.value > now)
  {
    model := [];
    var k := 0;
    while k < |users|
      invariant 0 <= k <= |users|
      invariant |model| == k
      invariant forall i :: 0 <= i < k ==>
        && model[i].id == users[i].id && model[i].email == users[i].email
        && model[i].firstName == users[i].firstName && model[i].lastName == users[i].lastName
        && model[i].roles == users[i].roles && model[i].lockoutEnd == users[i].lockoutEnd
        && (model[i].isLockedOut <==> IsLockedOut(users[i], now))
    {
      var user := users[k];
      var isLocked := user.lockoutEnd.Some? && user.lockoutEnd.value > now;
      model := model + [AdminUserRow(
        user.id, user.email, user.firstName, user.lastName, user.roles, isLocked, user.lockoutEnd)];
      k := k + 1;
    }
  }

  /** A user the list shows as locked, and whose lockout is enabled, cannot sign in. */
  lemma ShownLockedRefusesSignIn(u: ApplicationUser, now: int)
    requires u.lockoutEnabled && IsLockedOut(u, now)
    ensures IdentityLockedOut(u, now)
  {
  }

  /**
   * A user sign-in refuses is shown as locked, except in the one instant when the lockout
   * ends exactly now (sign-in compares with `>=`, the list with `>`).
   */
  lemma SignInRefusalShownLocked(u: ApplicationUser, now: int)
    requires IdentityLockedOut(u, now)
    ensures IsLockedOut(u, now) <==> u.lockoutEnd.value != now
  {
  }

  // ---------------------------------------------------------------- the edit form

  /** The posted `AdminEditUserViewModel`. */
  datatype EditForm = EditForm(
    id: string,
    email: string,
    firstName: string,
    lastName: string,
    selectedRoles: seq<string>,
    isLockedOut: bool)

  /**
   * `[EmailAddress]`: no line break, and exactly one '@', neither first nor last.
   */
  predicate IsEmailAddress(s: string) {
    && '\r' !in s && '\n' !in s
    && exists i :: 0 < i < |s| - 1 && s[i] == '@' && '@' !in s[..i] && '@' !in s[i + 1..]
  }

  /** `ModelState.IsValid`: `[Required]` on the e-mail and both names, `[EmailAddress]` on the e-mail. */
  predicate ValidEditForm(f: EditForm) {
    !IsBlank(f.email) && IsEmailAddress(f.email) && !IsBlank(f.firstName) && !IsBlank(f.lastName)
  }

  /** The roles the form selects that the user lacks: `SelectedRoles.Except(userRoles)`. */
  function RolesToAdd(selected: seq<string>, current: set<string>): (r: set<string>)
    ensures forall x :: x in r <==> x in selected && x !in current
  {
    (set x | x in selected) - current
  }

  /** The roles the user has that the form does not select: `userRoles.Except(SelectedRoles)`. */
  function RolesToRemove(current: set<string>, selected: seq<string>): (r: set<string>)
    ensures forall x :: x in r <==> x in current && x !in selected
  {
    current - (set x | x in selected)
  }

  /**
   * Removing then adding leaves the user with exactly the selected roles; no role is both
   * removed and added.
   */
  lemma RoleChangesReachSelection(selected: seq<string>, current: set<string>)
    ensures RolesToAdd(selected, current) !! RolesToRemove(current, selected)
    ensures (current - RolesToRemove(current, selected)) + RolesToAdd(selected, current)
      == set x | x in selected
  {
  }

  /** The role calls are skipped exactly when the selection already matches the user's roles. */
  lemma NoRoleChangeIffSameRoles(selected: seq<string>, current: set<string>)
    ensures RolesToAdd(selected, current) == {} && RolesToRemove(current, selected) == {}
      <==> current == set x | x in selected
  {
    if RolesToAdd(selected, current) == {} && RolesToRemove(current, selected) == {} {
      RoleChangesReachSelection(selected, current);
    }
  }

  /** The basic information the form writes: the e-mail doubles as the user name. */
  function WithBasicInfo(u: ApplicationUser, f: EditForm): (v: ApplicationUser)
    ensures v.email == f.email && v.userName == f.email
    ensures v.firstName == f.firstName && v.lastName == f.lastName
    ensures v.(email := u.email, userName := u.userName, firstName := u.firstName, lastName := u.lastName) == u
  {
    u.(email := f.email, userName := f.email, firstName := f.firstName, lastName := f.lastName)
  }

  /**
   * The lockout switch. Locking sets the end to `DateTimeOffset.MaxValue`; unlocking
   * clears it and resets the failure count. `SetLockoutEndDateAsync` refuses, and changes
   * nothing, for a user whose lockout is not enabled; the reset of the count always happens.
   */
  function WithLockSwitch(u: ApplicationUser, locked: bool): (v: ApplicationUser)
    ensures v.(lockoutEnd := u.lockoutEnd, accessFailedCount := u.accessFailedCount) == u
    ensures !u.lockoutEnabled ==> v.lockoutEnd == u.lockoutEnd
    ensures u.lockoutEnabled ==> v.lockoutEnd == (if locked then Some(MaxTimestamp) else None)
    ensures v.accessFailedCount == (if locked then u.accessFailedCount else 0)
  {
    var endSet := if u.lockoutEnabled then u.(lockoutEnd := if locked then Some(MaxTimestamp) else None) else u;
    if locked then endSet else endSet.(accessFailedCount := 0)
  }

  /**
   * Where lockout is enabled, the list shows the lock the admin chose at any time before
   * `DateTimeOffset.MaxValue`, and an unlocked user can sign in again at once.
   */
  lemma LockSwitchShown(u: ApplicationUser, locked: bool, now: int)
    requires u.lockoutEnabled && now < MaxTimestamp
    ensures IsLockedOut(WithLockSwitch(u, locked), now) == locked
    ensures IdentityLockedOut(WithLockSwitch(u, locked), now) == locked
  {
  }

  /** Where lockout is not enabled, ticking "locked out" leaves the lock as it was. */
  lemma LockSwitchIgnoredWithoutLockout(u: ApplicationUser, now: int)
    requires !u.lockoutEnabled
    ensures IsLockedOut(WithLockSwitch(u, true), now) == IsLockedOut(u, now)
    ensures !IdentityLockedOut(WithLockSwitch(u, true), now)
  {
  }

  datatype EditOutcome =
    | FormRedisplayed  // the model state is invalid: the form is shown again
    | EditNotFound
    | RoleMissing      // `AddToRolesAsync` met a role that does not exist and threw
    | EditSaved        // redirect to the list

  /**
   * `Edit` (POST). After validation and lookup it saves the basic information, removes the
   * roles no longer selected, adds the newly selected ones and last applies the lockout
   * switch. Adding a role that does not exist throws after the first two steps are saved.
   */
  method Edit(db: ApplicationDbContext, f: EditForm) returns (r: EditOutcome)
    requires db.Valid()
    modifies db`users
    ensures db.Valid()
    ensures !ValidEditForm(f) ==> r == FormRedisplayed && db.users == old(db.users)
    ensures ValidEditForm(f) && f.id !in old(db.users) ==> r == EditNotFound && db.users == old(db.users)
    ensures ValidEditForm(f) && f.id in old(db.users) ==>
      var u := old(db.users)[f.id];
      var info := WithBasicInfo(u, f);
      if RolesToAdd(f.selectedRoles, u.roles) <= db.roles then
        && r == EditSaved
        && db.users == old(db.users)[f.id := WithLockSwitch(info.(roles := set x | x in f.selectedRoles), f.isLockedOut)]
      else
        && r == RoleMissing
        && db.users == old(db.users)[f.id := info.(roles := u.roles - RolesToRemove(u.roles, f.selectedRoles))]
  {
    if !ValidEditForm(f) {
      return FormRedisplayed;
    }
    if f.id !in db.users {
      return EditNotFound;
    }
    // The three saves (basic information, removed roles, added roles and the switch) are
    // computed first and written once: nothing observes the rows between them.
    var current := db.users[f.id];
    var info := WithBasicInfo(current, f);
    assert info.id == f.id && info.roles == current.roles;
    var rolesToAdd := RolesToAdd(f.selectedRoles, info.roles);
    var rolesToRemove := RolesToRemove(info.roles, f.selectedRoles);
    var kept := info.(roles := info.roles - rolesToRemove);
    if rolesToAdd != {} && !(rolesToAdd <= db.roles) {
      db.UpdateUser(kept);
      return RoleMissing;
    }
    RoleChangesReachSelection(f.selectedRoles, info.roles);
    var selected := kept.(roles := kept.roles + rolesToAdd);
    assert selected == info.(roles := set x | x in f.selectedRoles);
    var final := WithLockSwitch(selected, f.isLockedOut);
    assert final.id == f.id;
    db.UpdateUser(final);
    r := EditSaved;
  }

  // ---------------------------------------------------------------- deletion

  datatype DeleteOutcome =
    | DeleteNotFound
    | Forbidden                   // an admin may not delete the account signed in
    | Deleted                     // redirect to the list
    | DeleteFailed(error: DbError) // the database refused the deletion

  /**
   * `Delete`: an empty or unknown id is not found; the signed-in account
   * (`currentUserId`, the name-identifier claim) is forbidden; any other user is deleted
   * with the referential actions of `ApplicationDbContext.DeleteUser`.
   */
  method Delete(db: ApplicationDbContext, id: string, currentUserId: Option<string>) returns (r: DeleteOutcome)
    requires db.Valid()
    modifies db
    ensures db.Valid()
    ensures (id == "" || id !in old(db.users)) ==> r == DeleteNotFound && unchanged(db)
    ensures id != "" && id in old(db.users) && currentUserId == Some(id) ==> r == Forbidden && unchanged(db)
    ensures r.Deleted? ==>
      && id != "" && id in old(db.users) && currentUserId != Some(id)
      && !IsAuthorOfAudit(old(db.userAuditLogs), id)
      && db.users == old(db.users) - {id}
      && db.userSessions == WithoutOwner(old(db.userSessions), SessionUserOf, id)
      && db.userLoginHistories == WithoutOwner(old(db.userLoginHistories), LoginUserOf, id)
      && db.userAuditLogs == WithoutOwner(old(db.userAuditLogs), AuditSubjectOf, id)
    ensures r.DeleteFailed? ==>
      && IsAuthorOfAudit(old(db.userAuditLogs), id)
      && r.error == ForeignKeyViolation("FK_UserAuditLogs_AspNetUsers_ModifiedBy")
      && db.users == old(db.users) && db.userSessions == old(db.userSessions)
      && db.userLoginHistories == old(db.userLoginHistories) && db.userAuditLogs == old(db.userAuditLogs)
    ensures db.roles == old(db.roles) && db.appConfigurations == old(db.appConfigurations)
    ensures db.applicationLogs == old(db.applicationLogs)
    ensures id != "" && id in old(db.users) && currentUserId != Some(id) ==> r.Deleted? || r.DeleteFailed?
  {
    if id == "" || id !in db.users {
      return DeleteNotFound;
    }
    var user := db.users[id];
    if currentUserId.Some? && currentUserId.value != "" && currentUserId.value == user.id {
      return Forbidden;
    }
    var outcome := db.DeleteUser(id);
    if outcome.Failed? {
      return DeleteFailed(outcome.error);
    }
    r := Deleted;
  }
}
