/**
 * `LoginHistoryService`: every login attempt, successful or not, becomes one row of
 * `UserLoginHistories`, stamped with the current time and described by the parsed
 * `User-Agent` header.
 */
module LoginHistoryService {
  import opened Wrappers
  import opened Domain
  import opened DbContext
  import opened UserAgent

  /** The row `LogLoginAttemptAsync` builds before saving it. */
  function NewLoginHistory(
    userId: string, userEmail: string, isSuccessful: bool, ipAddress: Option<string>,
    userAgent: Option<string>, requiredTwoFactor: bool, failureReason: Option<string>,
    now: int, parse: Parser): (h: UserLoginHistory)
    ensures h.userId == userId && h.userEmail == userEmail && h.loginTime == now
    ensures h.ipAddress == ipAddress && h.userAgent == userAgent
    ensures h.isSuccessful == isSuccessful && h.failureReason == failureReason
    ensures h.requiredTwoFactor == requiredTwoFactor
    ensures var m := Describe(userAgent, parse);
      h.browser == m.browser && h.operatingSystem == m.operatingSystem && h.device == m.device
  {
    var m := Describe(userAgent, parse);
    UserLoginHistory(
      userId, userEmail, now, ipAddress, userAgent, m.browser, m.operatingSystem, m.device,
      isSuccessful, failureReason, requiredTwoFactor)
  }

  /**
   * `LogLoginAttemptAsync`: appends the attempt to the login history; the save fails on
   * `FK_UserLoginHistories_AspNetUsers_UserId` when no user has the id, and then the
   * history is unchanged.
   */
  method LogLoginAttempt(
    db: ApplicationDbContext, userId: string, userEmail: string, isSuccessful: bool,
    ipAddress: Option<string>, userAgent: Option<string>, requiredTwoFactor: bool,
    failureReason: Option<string>, now: int, parse: Parser)
    returns (outcome: Outcome<DbError>)
    requires db.Valid()
    modifies db`userLoginHistories
    ensures db.Valid()
    ensures outcome.Done? <==> userId in db.users
    ensures outcome.Failed? ==>
      (outcome.error == ForeignKeyViolation("FK_UserLoginHistories_AspNetUsers_UserId")
       && db.userLoginHistories == old(db.userLoginHistories))
    ensures outcome.Done? ==>
      db.userLoginHistories == old(db.userLoginHistories)
        + [NewLoginHistory(userId, userEmail, isSuccessful, ipAddress, userAgent, requiredTwoFactor, failureReason, now, parse)]
  {
    var entry := NewLoginHistory(userId, userEmail, isSuccessful, ipAddress, userAgent, requiredTwoFactor, failureReason, now, parse);
    if userId !in db.users {
      return Failed(ForeignKeyViolation("FK_UserLoginHistories_AspNetUsers_UserId"));
    }
    db.userLoginHistories := db.userLoginHistories + [entry];
    outcome := Done;
  }

  /** The login history of one user: that user's rows, in table order. */
  function HistoryOf(t: seq<UserLoginHistory>, userId: string): (r: seq<UserLoginHistory>)
    ensures |r| <= |t|
    ensures forall h :: h in r <==> h in t && h.userId == userId
  {
    if t == [] then []
    else
      var rest := HistoryOf(t[..|t| - 1], userId);
      assert t == t[..|t| - 1] + [t[|t| - 1]];
      if t[|t| - 1].userId == userId then rest + [t[|t| - 1]] else rest
  }

  /**
   * Logging an attempt adds it as the newest entry of that user's history and leaves the
   * history of every other user as it was.
   */
  lemma {:induction false} LoggingExtendsOnlyOwnHistory(t: seq<UserLoginHistory>, h: UserLoginHistory, other: string)
    requires other != h.userId
    ensures HistoryOf(t + [h], h.userId) == HistoryOf(t, h.userId) + [h]
    ensures HistoryOf(t + [h], other) == HistoryOf(t, other)
  {
    assert (t + [h])[..|t + [h]| - 1] == t;
  }

  /** The recorded attempt keeps outcome, reason and time, and a broken header only costs its description. */
  lemma RecordedAttemptFaithful(
    userId: string, userEmail: string, isSuccessful: bool, ipAddress: Option<string>,
    userAgent: Option<string>, requiredTwoFactor: bool, failureReason: Option<string>,
    now: int, parse: Parser)
    requires userAgent.Some? && userAgent.value != "" && parse(userAgent.value).None?
    ensures var h := NewLoginHistory(userId, userEmail, isSuccessful, ipAddress, userAgent, requiredTwoFactor, failureReason, now, parse);
      h.browser.None? && h.operatingSystem.None? && h.device.None?
      && h.userAgent == userAgent && h.isSuccessful == isSuccessful && h.loginTime == now
  {
  }
}
