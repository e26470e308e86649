/**
 * The two request gates of the pipeline: `MaintenanceModeMiddleware`, which during
 * maintenance lets through only static files, the account and maintenance pages and
 * SuperAdmins, and `RequirePasswordChangeMiddleware`, which sends a user who must change
 * the password to the change-password page. Each is a decision: pass the request on, or
 * answer with a redirect.
 *
 * The signed-in user is `Some(u)` when the request is authenticated and the principal
 * resolves to a user row, and `None` otherwise (the middleware treats both alike).
 */
module RequestGates {
  import opened Wrappers
  import opened Text
  import opened Domain
  import opened ConfigurationService

  datatype Decision = Pass | Redirect(location: string)

  const SuperAdmin := "SuperAdmin"

  // ---------------------------------------------------------------- maintenance mode

  const MaintenanceModeKey := "Maintenance_Mode_Enabled"
  const MaintenancePage := "/Maintenance"

  /** `GetValueAsync<bool>("Maintenance_Mode_Enabled") ?? false`. */
  function MaintenanceEnabled(t: seq<AppConfiguration>, cipher: Cipher): (r: bool)
    ensures r <==> GetBool(t, MaintenanceModeKey, cipher) == Some(true)
  {
    GetBool(t, MaintenanceModeKey, cipher).GetOr(false)
  }

  /** The prefixes of a lower-cased path that are served during maintenance. */
  predicate OpenDuringMaintenance(path: string) {
    || StartsWith(path, "/lib/")
    || StartsWith(path, "/css/")
    || StartsWith(path, "/js/")
    || StartsWith(path, "/images/")
    || StartsWith(path, "/favicon.ico")
    || StartsWith(path, "/account/")
    || StartsWith(path, "/maintenance")
  }

  predicate IsSuperAdmin(user: Option<ApplicationUser>) {
    user.Some? && SuperAdmin in user.value.roles
  }

  /**
   * `MaintenanceModeMiddleware.InvokeAsync`: the branches in source order, including the
   * final pass after the redirect test.
   */
  function MaintenanceGate(enabled: bool, path: Option<string>, user: Option<ApplicationUser>): (d: Decision)
    ensures !enabled ==> d == Pass
    ensures d.Redirect? <==> enabled && !OpenDuringMaintenance(ToLower(path.GetOr(""))) && !IsSuperAdmin(user)
    ensures d.Redirect? ==> d.location == MaintenancePage
  {
    if !enabled then Pass
    else
      var p := ToLower(path.GetOr(""));
      if OpenDuringMaintenance(p) then Pass
      else if IsSuperAdmin(user) then Pass
      else if !StartsWith(p, "/maintenance") then Redirect(MaintenancePage)
      else Pass
  }

  /**
   * The last pass of `InvokeAsync` is dead code: a request reaching it was neither
   * allow-listed nor a SuperAdmin's, and such a path never starts with "/maintenance".
   */
  lemma FinalPassUnreachable(path: string)
    requires !OpenDuringMaintenance(path)
    ensures !StartsWith(path, "/maintenance")
  {
  }

  /** The gate ignores the case of the path. */
  lemma {:induction false} MaintenanceGateIgnoresCase(enabled: bool, path: string, user: Option<ApplicationUser>)
    ensures MaintenanceGate(enabled, Some(path), user) == MaintenanceGate(enabled, Some(ToLower(path)), user)
  {
    ToLowerIdempotent(path);
  }

  /** The page the gate redirects to passes the gate, so the redirect never loops. */
  lemma {:induction false} MaintenanceRedirectPasses(enabled: bool, user: Option<ApplicationUser>)
    ensures MaintenanceGate(enabled, Some(MaintenancePage), user) == Pass
  {
    var p := ToLower(MaintenancePage);
    assert p[..|"/maintenance"|] == "/maintenance";
  }

  /** A SuperAdmin reaches every page while the site is down for maintenance. */
  lemma SuperAdminAlwaysPasses(enabled: bool, path: Option<string>, user: Option<ApplicationUser>)
    requires IsSuperAdmin(user)
    ensures MaintenanceGate(enabled, path, user) == Pass
  {
  }

  // ---------------------------------------------------------------- forced password change

  const ChangePasswordPage := "/Account/ChangePassword"

  /** The prefixes (compared ignoring case) a user who must change the password may still open. */
  predicate OpenDuringPasswordChange(path: string) {
    || StartsWithIgnoreCase(path, "/Account/ChangePassword")
    || StartsWithIgnoreCase(path, "/Account/Logout")
    || StartsWithIgnoreCase(path, "/Account/AccessDenied")
    || StartsWithIgnoreCase(path, "/Account/LoginWith2fa")
    || StartsWithIgnoreCase(path, "/Account/LoginWithRecovery")
    || StartsWithIgnoreCase(path, "/lib/")
    || StartsWithIgnoreCase(path, "/css/")
    || StartsWithIgnoreCase(path, "/js/")
    || StartsWithIgnoreCase(path, "/favicon.ico")
  }

  /** `RequirePasswordChangeMiddleware.InvokeAsync`. */
  function PasswordChangeGate(user: Option<ApplicationUser>, path: Option<string>): (d: Decision)
    ensures d.Redirect? <==>
      user.Some? && user.value.mustChangePassword && !OpenDuringPasswordChange(path.GetOr(""))
    ensures d.Redirect? ==> d.location == ChangePasswordPage
  {
    if user.Some? && user.value.mustChangePassword then
      var p := path.GetOr("");
      if !OpenDuringPasswordChange(p) then Redirect(ChangePasswordPage) else Pass
    else Pass
  }

  /** The change-password page passes the gate, so the redirect never loops. */
  lemma PasswordChangeRedirectPasses(user: Option<ApplicationUser>)
    ensures PasswordChangeGate(user, Some(ChangePasswordPage)) == Pass
  {
    assert StartsWith(ToUpper(ChangePasswordPage), ToUpper("/Account/ChangePassword"));
  }

  /**
   * The two gates agree on the change-password page: during maintenance a user sent there
   * is not turned away from it again.
   */
  lemma {:induction false} ChangePasswordPageOpenDuringMaintenance(enabled: bool, user: Option<ApplicationUser>)
    ensures MaintenanceGate(enabled, Some(ChangePasswordPage), user) == Pass
  {
    var p := ToLower(ChangePasswordPage);
    assert p[..|"/account/"|] == "/account/";
  }
}
