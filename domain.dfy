/**
 * The records of the application's database tables, as values, together with the
 * constraints the database enforces on them (unique keys, foreign keys).
 *
 * Time is a whole number of seconds on one fixed clock; `DateTime.UtcNow` becomes a
 * `now` parameter wherever the application reads the clock.
 */
module Domain {
  import opened Wrappers

  const SecondsPerMinute: int := 60
  const SecondsPerHour: int := 3600
  const SecondsPerDay: int := 86400

  /** `DateTimeOffset.MaxValue` (9999-12-31 23:59:59) in seconds after 1970-01-01. */
  const MaxTimestamp: int := 253402300799

  /** A row of `AppConfigurations`: one setting, its category and whether it is stored encrypted. */
  datatype AppConfiguration = AppConfiguration(
    key: string,
    value: string,
    description: Option<string>,
    category: string,
    isEncrypted: bool,
    lastModified: int,
    lastModifiedBy: Option<string>)

  /**
   * A row of `AspNetUsers` with the identity fields the application touches, and the
   * user's roles (the `AspNetUserRoles` rows of the user).
   */
  datatype ApplicationUser = ApplicationUser(
    id: string,
    email: string,
    userName: string,
    firstName: string,
    lastName: string,
    mustChangePassword: bool,
    passwordChangedAt: Option<int>,
    preferredTheme: string,
    twoFactorEnabled: bool,
    authenticatorKey: Option<string>,
    recoveryCodes: seq<string>,
    securityStamp: string,
    passwordHash: string,
    accessFailedCount: nat,
    lockoutEnabled: bool,
    lockoutEnd: Option<int>,
    roles: set<string>)

  /** A row of `UserSessions`; deactivation sets `isActive` to false and keeps the row. */
  datatype UserSession = UserSession(
    userId: string,
    userEmail: string,
    sessionId: string,
    createdAt: int,
    lastActivityAt: int,
    expiresAt: Option<int>,
    ipAddress: Option<string>,
    userAgent: Option<string>,
    browser: Option<string>,
    operatingSystem: Option<string>,
    device: Option<string>,
    isActive: bool,
    isPersistent: bool)

  /** A row of `UserLoginHistories`: one login attempt. */
  datatype UserLoginHistory = UserLoginHistory(
    userId: string,
    userEmail: string,
    loginTime: int,
    ipAddress: Option<string>,
    userAgent: Option<string>,
    browser: Option<string>,
    operatingSystem: Option<string>,
    device: Option<string>,
    isSuccessful: bool,
    failureReason: Option<string>,
    requiredTwoFactor: bool)

  /** A row of `UserAuditLogs`: `userId` is the subject of the change, `modifiedBy` its author. */
  datatype UserAuditLog = UserAuditLog(
    userId: string,
    userEmail: string,
    modifiedBy: string,
    modifiedByEmail: string,
    modifiedAt: int,
    action: string,
    changes: Option<string>,
    oldValues: Option<string>,
    newValues: Option<string>)

  /** A row of `ApplicationLogs`, written by the logging sink. */
  datatype ApplicationLog = ApplicationLog(
    timestamp: int,
    level: string,
    message: string,
    exception: Option<string>)

  // ---------------------------------------------------------------- columns as functions

  function LogTimestampOf(l: ApplicationLog): int { l.timestamp }
  function LoginTimeOf(h: UserLoginHistory): int { h.loginTime }
  function ModifiedAtOf(a: UserAuditLog): int { a.modifiedAt }
  function LastActivityOf(s: UserSession): int { s.lastActivityAt }
  function SessionUserOf(s: UserSession): string { s.userId }
  function LoginUserOf(h: UserLoginHistory): string { h.userId }
  function AuditSubjectOf(a: UserAuditLog): string { a.userId }

  // ---------------------------------------------------------------- constraints

  /** The unique index `IX_AppConfigurations_Key`. */
  predicate UniqueKeys(t: seq<AppConfiguration>) {
    forall i, j :: 0 <= i < j < |t| ==> t[i].key != t[j].key
  }

  /** The unique index on `UserSessions.SessionId`. */
  predicate UniqueSessionIds(t: seq<UserSession>) {
    forall i, j :: 0 <= i < j < |t| ==> t[i].sessionId != t[j].sessionId
  }

  /** Every user is stored under its own id. */
  predicate UsersKeyed(users: map<string, ApplicationUser>) {
    forall id :: id in users ==> users[id].id == id
  }

  /** `FK_UserSessions_AspNetUsers_UserId`. */
  predicate SessionOwnersExist(t: seq<UserSession>, users: map<string, ApplicationUser>) {
    forall i :: 0 <= i < |t| ==> t[i].userId in users
  }

  /** `FK_UserLoginHistories_AspNetUsers_UserId`. */
  predicate LoginOwnersExist(t: seq<UserLoginHistory>, users: map<string, ApplicationUser>) {
    forall i :: 0 <= i < |t| ==> t[i].userId in users
  }

  /** `FK_UserAuditLogs_AspNetUsers_UserId` and `FK_UserAuditLogs_AspNetUsers_ModifiedBy`. */
  predicate AuditPartiesExist(t: seq<UserAuditLog>, users: map<string, ApplicationUser>) {
    forall i :: 0 <= i < |t| ==> t[i].userId in users && t[i].modifiedBy in users
  }

  // ---------------------------------------------------------------- removing rows keeps the foreign keys

  lemma SessionOwnersOfSubset(r: seq<UserSession>, t: seq<UserSession>, users: map<string, ApplicationUser>)
    requires SessionOwnersExist(t, users)
    requires forall x :: x in r ==> x in t
    ensures SessionOwnersExist(r, users)
  {
    forall i | 0 <= i < |r| ensures r[i].userId in users {
      assert r[i] in t;
    }
  }

  lemma LoginOwnersOfSubset(r: seq<UserLoginHistory>, t: seq<UserLoginHistory>, users: map<string, ApplicationUser>)
    requires LoginOwnersExist(t, users)
    requires forall x :: x in r ==> x in t
    ensures LoginOwnersExist(r, users)
  {
    forall i | 0 <= i < |r| ensures r[i].userId in users {
      assert r[i] in t;
    }
  }

  lemma AuditPartiesOfSubset(r: seq<UserAuditLog>, t: seq<UserAuditLog>, users: map<string, ApplicationUser>)
    requires AuditPartiesExist(t, users)
    requires forall x :: x in r ==> x in t
    ensures AuditPartiesExist(r, users)
  {
    forall i | 0 <= i < |r| ensures r[i].userId in users && r[i].modifiedBy in users {
      assert r[i] in t;
    }
  }
}
