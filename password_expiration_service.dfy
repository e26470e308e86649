/**
 * `PasswordExpirationService`: whether a user's password is older than the configured
 * number of days, how many days it has left, and recording a password change.
 * A setting of 0 days switches expiration off.
 */
module PasswordExpirationService {
  import opened Wrappers
  import opened Text
  import opened Domain
  import opened DbContext
  import opened ConfigurationService

  const PasswordExpirationDaysKey := "Security_PasswordExpirationDays"
  const DefaultPasswordExpirationDays: int := 90

  /**
   * `(now - changedAt).Days`: the whole days elapsed, truncated toward zero as `TimeSpan.Days`
   * is for a negative span (a change in the future).
   */
  function DaysSince(changedAt: int, now: int): (d: int)
    ensures now >= changedAt ==> 0 <= d * SecondsPerDay <= now - changedAt < d * SecondsPerDay + SecondsPerDay
    ensures now < changedAt ==> d * SecondsPerDay - SecondsPerDay < now - changedAt <= d * SecondsPerDay <= 0
  {
    var span := now - changedAt;
    if span >= 0 then span / SecondsPerDay else -((-span) / SecondsPerDay)
  }

  /** More time elapsed is never fewer whole days. */
  lemma DaysSinceMonotone(changedAt: int, now: int, later: int)
    requires now <= later
    ensures DaysSince(changedAt, now) <= DaysSince(changedAt, later)
  {
  }

  /** `GetPasswordExpirationDaysAsync`: the stored number of days, or 90 when it is null or unreadable. */
  function GetPasswordExpirationDays(t: seq<AppConfiguration>, cipher: Cipher): (r: int)
    ensures GetInt(t, PasswordExpirationDaysKey, cipher).None? ==> r == DefaultPasswordExpirationDays
    ensures GetInt(t, PasswordExpirationDaysKey, cipher).Some? ==> r == GetInt(t, PasswordExpirationDaysKey, cipher).value
    ensures InInt32(r)
  {
    GetInt(t, PasswordExpirationDaysKey, cipher).GetOr(DefaultPasswordExpirationDays)
  }

  /**
   * `IsPasswordExpiredAsync`: never when expiration is off; always when the password was
   * never changed; otherwise when the elapsed whole days reach the limit.
   */
  predicate IsPasswordExpired(t: seq<AppConfiguration>, cipher: Cipher, user: ApplicationUser, now: int)
    ensures GetPasswordExpirationDays(t, cipher) == 0 ==> !IsPasswordExpired(t, cipher, user, now)
    ensures GetPasswordExpirationDays(t, cipher) != 0 && user.passwordChangedAt.None? ==> IsPasswordExpired(t, cipher, user, now)
    ensures GetPasswordExpirationDays(t, cipher) > 0 && user.passwordChangedAt.Some? ==>
      (IsPasswordExpired(t, cipher, user, now) <==>
       now - user.passwordChangedAt.value >= GetPasswordExpirationDays(t, cipher) * SecondsPerDay)
  {
    var days := GetPasswordExpirationDays(t, cipher);
    if days == 0 then false
    else if user.passwordChangedAt.None? then true
    else DaysSince(user.passwordChangedAt.value, now) >= days
  }

  /**
   * `GetDaysUntilExpirationAsync`: null when expiration is off, 0 when the password was
   * never changed, otherwise the limit minus the elapsed whole days (negative once past).
   */
  function GetDaysUntilExpiration(t: seq<AppConfiguration>, cipher: Cipher, user: ApplicationUser, now: int): (r: Option<int>)
    ensures r.None? <==> GetPasswordExpirationDays(t, cipher) == 0
    ensures r.Some? && user.passwordChangedAt.None? ==> r.value == 0
    ensures r.Some? && user.passwordChangedAt.Some? ==>
      r.value + DaysSince(user.passwordChangedAt.value, now) == GetPasswordExpirationDays(t, cipher)
  {
    var days := GetPasswordExpirationDays(t, cipher);
    if days == 0 then None
    else if user.passwordChangedAt.None? then Some(0)
    else Some(days - DaysSince(user.passwordChangedAt.value, now))
  }

  /** The two queries agree: a password is expired exactly when it has no days left. */
  lemma ExpiredIffNoDaysLeft(t: seq<AppConfiguration>, cipher: Cipher, user: ApplicationUser, now: int)
    ensures IsPasswordExpired(t, cipher, user, now) <==>
      (GetDaysUntilExpiration(t, cipher, user, now).Some? && GetDaysUntilExpiration(t, cipher, user, now).value <= 0)
  {
  }

  /** With expiration off, no password expires, whatever its age. */
  lemma DisabledNeverExpires(t: seq<AppConfiguration>, cipher: Cipher, user: ApplicationUser, now: int)
    requires GetPasswordExpirationDays(t, cipher) == 0
    ensures !IsPasswordExpired(t, cipher, user, now)
    ensures GetDaysUntilExpiration(t, cipher, user, now) == None
  {
  }

  /** Once expired, a password stays expired as time goes on. */
  lemma ExpiryIsPermanent(t: seq<AppConfiguration>, cipher: Cipher, user: ApplicationUser, now: int, later: int)
    requires now <= later
    requires IsPasswordExpired(t, cipher, user, now)
    ensures IsPasswordExpired(t, cipher, user, later)
  {
    if user.passwordChangedAt.Some? {
      DaysSinceMonotone(user.passwordChangedAt.value, now, later);
    }
  }

  /**
   * Whole days are truncated toward zero, not floored: a span and its reverse count the same
   * number of days with opposite signs, so a change made 23 hours in the future is 0 days
   * old rather than minus 1.
   */
  lemma DaysSinceAntisymmetric(changedAt: int, now: int)
    ensures DaysSince(changedAt, now) == -DaysSince(now, changedAt)
  {
  }

  /**
   * `UpdatePasswordChangedDateAsync`: the user's `PasswordChangedAt` becomes `now`; nothing
   * else changes. An unknown user makes `UpdateAsync` fail, and that result is ignored.
   */
  method UpdatePasswordChangedDate(db: ApplicationDbContext, userId: string, now: int)
    requires db.Valid()
    modifies db`users
    ensures db.Valid()
    ensures userId in old(db.users) ==>
      db.users == old(db.users)[userId := old(db.users)[userId].(passwordChangedAt := Some(now))]
    ensures userId !in old(db.users) ==> db.users == old(db.users)
  {
    if userId in db.users {
      db.users := db.users[userId := db.users[userId].(passwordChangedAt := Some(now))];
    }
  }

  /** Right after a change, a password with a positive limit is not expired and has the whole limit left. */
  lemma JustChangedIsFresh(t: seq<AppConfiguration>, cipher: Cipher, user: ApplicationUser, now: int)
    requires GetPasswordExpirationDays(t, cipher) > 0
    ensures !IsPasswordExpired(t, cipher, user.(passwordChangedAt := Some(now)), now)
    ensures GetDaysUntilExpiration(t, cipher, user.(passwordChangedAt := Some(now)), now)
         == Some(GetPasswordExpirationDays(t, cipher))
  {
  }

  /**
   * After an administrator stores the decimal text of a 32-bit number of days `n`, the
   * service reads `n` back, and `n = 0` switches expiration off for every user.
   */
  lemma StoredDaysAreRead(
    t: seq<AppConfiguration>, n: int, modifiedBy: Option<string>, now: int, cipher: Cipher,
    user: ApplicationUser, at: int)
    requires UniqueKeys(t) && RoundTrips(cipher) && InInt32(n)
    requires Assigned(t, PasswordExpirationDaysKey, FormatInt(n), modifiedBy, now, cipher).Ok?
    ensures var t' := Assigned(t, PasswordExpirationDaysKey, FormatInt(n), modifiedBy, now, cipher).value;
      GetPasswordExpirationDays(t', cipher) == n
    ensures var t' := Assigned(t, PasswordExpirationDaysKey, FormatInt(n), modifiedBy, now, cipher).value;
      n == 0 ==> !IsPasswordExpired(t', cipher, user, at) && GetDaysUntilExpiration(t', cipher, user, at).None?
  {
    SetIntThenGetInt(t, PasswordExpirationDaysKey, n, modifiedBy, now, cipher);
  }
}
