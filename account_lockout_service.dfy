/**
 * `AccountLockoutService`: the number of failed sign-ins that locks an account and the
 * length of the lockout, read from the settings table with their defaults. Lockout is
 * on exactly when the attempt limit is positive.
 */
module AccountLockoutService {
  import opened Wrappers
  import opened Text
  import opened Domain
  import opened DbContext
  import opened ConfigurationService

  const MaxFailedLoginAttemptsKey := "Security_MaxFailedLoginAttempts"
  const LockoutDurationMinutesKey := "Security_LockoutDurationMinutes"

  const DefaultMaxFailedLoginAttempts: int := 5
  const DefaultLockoutDurationMinutes: int := 30

  /** `GetMaxFailedLoginAttemptsAsync`: the stored limit, or 5 when it is null or unreadable. */
  function GetMaxFailedLoginAttempts(t: seq<AppConfiguration>, cipher: Cipher): (r: int)
    ensures GetInt(t, MaxFailedLoginAttemptsKey, cipher).None? ==> r == DefaultMaxFailedLoginAttempts
    ensures GetInt(t, MaxFailedLoginAttemptsKey, cipher).Some? ==> r == GetInt(t, MaxFailedLoginAttemptsKey, cipher).value
    ensures InInt32(r)
  {
    GetInt(t, MaxFailedLoginAttemptsKey, cipher).GetOr(DefaultMaxFailedLoginAttempts)
  }

  /** `GetLockoutDurationMinutesAsync`: the stored duration, or 30 when it is null or unreadable. */
  function GetLockoutDurationMinutes(t: seq<AppConfiguration>, cipher: Cipher): (r: int)
    ensures GetInt(t, LockoutDurationMinutesKey, cipher).None? ==> r == DefaultLockoutDurationMinutes
    ensures GetInt(t, LockoutDurationMinutesKey, cipher).Some? ==> r == GetInt(t, LockoutDurationMinutesKey, cipher).value
    ensures InInt32(r)
  {
    GetInt(t, LockoutDurationMinutesKey, cipher).GetOr(DefaultLockoutDurationMinutes)
  }

  /**
   * `IsLockoutEnabledAsync`: a limit of zero or less switches lockout off; with no readable
   * limit stored, lockout is on.
   */
  predicate IsLockoutEnabled(t: seq<AppConfiguration>, cipher: Cipher)
    ensures GetInt(t, MaxFailedLoginAttemptsKey, cipher).None? ==> IsLockoutEnabled(t, cipher)
    ensures GetInt(t, MaxFailedLoginAttemptsKey, cipher).Some? ==>
      (IsLockoutEnabled(t, cipher) <==> GetInt(t, MaxFailedLoginAttemptsKey, cipher).value > 0)
  {
    GetMaxFailedLoginAttempts(t, cipher) > 0
  }

  datatype LockoutConfiguration = LockoutConfiguration(maxAttempts: int, durationMinutes: int)

  /** `GetLockoutConfigurationAsync`: the limit and the duration together. */
  function GetLockoutConfiguration(t: seq<AppConfiguration>, cipher: Cipher): (r: LockoutConfiguration)
    ensures r.maxAttempts == GetMaxFailedLoginAttempts(t, cipher)
    ensures r.durationMinutes == GetLockoutDurationMinutes(t, cipher)
  {
    LockoutConfiguration(GetMaxFailedLoginAttempts(t, cipher), GetLockoutDurationMinutes(t, cipher))
  }

  /** The identity library's lockout options as `LockoutOptionsUpdater` sets them at start-up. */
  datatype LockoutOptions = LockoutOptions(
    maxFailedAccessAttempts: int,
    defaultLockoutSeconds: int,
    allowedForNewUsers: bool)

  /** The pushed options: the limit, the duration in seconds, and new users locked out iff lockout is on. */
  function PushedLockoutOptions(t: seq<AppConfiguration>, cipher: Cipher): (o: LockoutOptions)
    ensures o.allowedForNewUsers <==> IsLockoutEnabled(t, cipher)
    ensures o.maxFailedAccessAttempts == GetLockoutConfiguration(t, cipher).maxAttempts
    ensures o.defaultLockoutSeconds == GetLockoutConfiguration(t, cipher).durationMinutes * SecondsPerMinute
  {
    var c := GetLockoutConfiguration(t, cipher);
    LockoutOptions(c.maxAttempts, c.durationMinutes * SecondsPerMinute, c.maxAttempts > 0)
  }

  /** With neither setting stored, lockout is on after 5 failures for 30 minutes. */
  lemma LockoutDefaults(t: seq<AppConfiguration>, cipher: Cipher)
    requires FindConfig(t, MaxFailedLoginAttemptsKey).None?
    requires FindConfig(t, LockoutDurationMinutesKey).None?
    ensures GetLockoutConfiguration(t, cipher) == LockoutConfiguration(5, 30)
    ensures IsLockoutEnabled(t, cipher)
  {
  }

  /**
   * After an administrator stores the decimal text of a 32-bit limit `n`, the service
   * reads `n` back, and lockout is on exactly when `n` is positive.
   */
  lemma StoredLimitDecidesLockout(
    t: seq<AppConfiguration>, n: int, modifiedBy: Option<string>, now: int, cipher: Cipher)
    requires UniqueKeys(t) && RoundTrips(cipher) && InInt32(n)
    requires Assigned(t, MaxFailedLoginAttemptsKey, FormatInt(n), modifiedBy, now, cipher).Ok?
    ensures var t' := Assigned(t, MaxFailedLoginAttemptsKey, FormatInt(n), modifiedBy, now, cipher).value;
      GetMaxFailedLoginAttempts(t', cipher) == n && (IsLockoutEnabled(t', cipher) <==> n > 0)
    ensures var t' := Assigned(t, MaxFailedLoginAttemptsKey, FormatInt(n), modifiedBy, now, cipher).value;
      GetLockoutDurationMinutes(t', cipher) == GetLockoutDurationMinutes(t, cipher)
  {
    SetIntThenGetInt(t, MaxFailedLoginAttemptsKey, n, modifiedBy, now, cipher);
    SetKeepsOtherKeys(t, MaxFailedLoginAttemptsKey, FormatInt(n), modifiedBy, now, cipher, LockoutDurationMinutesKey);
  }

  /**
   * After an administrator stores the decimal text of a 32-bit duration `n`, the service
   * reads `n` minutes back, the identity options lock out for `n * 60` seconds, and the
   * attempt limit is unchanged.
   */
  lemma StoredDurationIsRead(
    t: seq<AppConfiguration>, n: int, modifiedBy: Option<string>, now: int, cipher: Cipher)
    requires UniqueKeys(t) && RoundTrips(cipher) && InInt32(n)
    requires Assigned(t, LockoutDurationMinutesKey, FormatInt(n), modifiedBy, now, cipher).Ok?
    ensures var t' := Assigned(t, LockoutDurationMinutesKey, FormatInt(n), modifiedBy, now, cipher).value;
      GetLockoutDurationMinutes(t', cipher) == n && PushedLockoutOptions(t', cipher).defaultLockoutSeconds == n * 60
    ensures var t' := Assigned(t, LockoutDurationMinutesKey, FormatInt(n), modifiedBy, now, cipher).value;
      GetMaxFailedLoginAttempts(t', cipher) == GetMaxFailedLoginAttempts(t, cipher)
  {
    SetIntThenGetInt(t, LockoutDurationMinutesKey, n, modifiedBy, now, cipher);
    SetKeepsOtherKeys(t, LockoutDurationMinutesKey, FormatInt(n), modifiedBy, now, cipher, MaxFailedLoginAttemptsKey);
  }
}
