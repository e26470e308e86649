/**
 * `SessionManagementService`: the `UserSessions` table. A sign-in opens a session or
 * refreshes the row with the same session id; activity extends the expiry; terminating
 * and the expiry sweep only clear `IsActive` (a soft delete) and never remove rows.
 */
module SessionManagementService {
  import opened Wrappers
  import opened Domain
  import opened DbContext
  import opened Collections
  import opened UserAgent

  /** `now.AddDays(30)` for a "remember me" session, `now.AddHours(1)` otherwise. */
  function ExpiryFor(isPersistent: bool, now: int): int {
    if isPersistent then now + 30 * SecondsPerDay else now + SecondsPerHour
  }

  // ---------------------------------------------------------------- lookups

  /** `FirstOrDefaultAsync(s => s.SessionId == sessionId)`, as an index. */
  function FindSession(t: seq<UserSession>, sessionId: string): (r: Option<nat>)
    ensures r.None? <==> forall i :: 0 <= i < |t| ==> t[i].sessionId != sessionId
    ensures r.Some? ==> r.value < |t| && t[r.value].sessionId == sessionId
    ensures r.Some? ==> forall j :: 0 <= j < r.value ==> t[j].sessionId != sessionId
  {
    if t == [] then None
    else if t[0].sessionId == sessionId then Some(0)
    else
      match FindSession(t[1..], sessionId)
      case None => None
      case Some(i) => Some(i + 1)
  }

  /** `FirstOrDefaultAsync(s => s.SessionId == sessionId && s.IsActive)`, as an index. */
  function FindActiveSession(t: seq<UserSession>, sessionId: string): (r: Option<nat>)
    ensures r.None? <==> forall i :: 0 <= i < |t| ==> !(t[i].sessionId == sessionId && t[i].isActive)
    ensures r.Some? ==> r.value < |t| && t[r.value].sessionId == sessionId && t[r.value].isActive
    ensures r.Some? ==> forall j :: 0 <= j < r.value ==> !(t[j].sessionId == sessionId && t[j].isActive)
  {
    if t == [] then None
    else if t[0].sessionId == sessionId && t[0].isActive then Some(0)
    else
      match FindActiveSession(t[1..], sessionId)
      case None => None
      case Some(i) => Some(i + 1)
  }

  /** `GetSessionByIdAsync`: the row with the session id, or null. */
  function GetSessionById(t: seq<UserSession>, sessionId: string): (r: Option<UserSession>)
    ensures r.None? <==> forall i :: 0 <= i < |t| ==> t[i].sessionId != sessionId
    ensures r.Some? ==> r.value in t && r.value.sessionId == sessionId
    ensures UniqueSessionIds(t) ==> forall i :: 0 <= i < |t| && t[i].sessionId == sessionId ==> r == Some(t[i])
  {
    match FindSession(t, sessionId)
    case None => None
    case Some(i) => Some(t[i])
  }

  /** `Where(s => s.UserId == userId && s.IsActive)`, in table order. */
  function ActiveSessionsOf(t: seq<UserSession>, userId: string): (r: seq<UserSession>)
    ensures |r| <= |t|
    ensures forall x :: x in r ==> x in t && x.userId == userId && x.isActive
    ensures forall x :: x in t && x.userId == userId && x.isActive ==> x in r
  {
    if t == [] then []
    else if t[0].userId == userId && t[0].isActive then [t[0]] + ActiveSessionsOf(t[1..], userId)
    else ActiveSessionsOf(t[1..], userId)
  }

  /** `GetActiveSessionsAsync`: exactly the user's active sessions, most recently active first. */
  function GetActiveSessions(t: seq<UserSession>, userId: string): (r: seq<UserSession>)
    ensures SortedDesc(r, LastActivityOf)
    ensures multiset(r) == multiset(ActiveSessionsOf(t, userId))
    ensures forall x :: x in r <==> x in t && x.userId == userId && x.isActive
  {
    var r := SortDesc(ActiveSessionsOf(t, userId), LastActivityOf);
    assert forall x :: x in r <==> x in multiset(r);
    r
  }

  // ---------------------------------------------------------------- opening and refreshing

  /** The row an unknown session id opens: active, created and last active now. */
  function NewSession(
    userId: string, userEmail: string, sessionId: string, ipAddress: Option<string>,
    userAgent: Option<string>, isPersistent: bool, now: int, parse: Parser): (s: UserSession)
    ensures s.userId == userId && s.userEmail == userEmail && s.sessionId == sessionId
    ensures s.createdAt == now && s.lastActivityAt == now && s.isActive && s.isPersistent == isPersistent
    ensures s.expiresAt == Some(ExpiryFor(isPersistent, now))
    ensures s.ipAddress == ipAddress && s.userAgent == userAgent
    ensures ClientMetadata(s.browser, s.operatingSystem, s.device) == Describe(userAgent, parse)
  {
    var m := Describe(userAgent, parse);
    UserSession(userId, userEmail, sessionId, now, now, Some(ExpiryFor(isPersistent, now)),
                ipAddress, userAgent, m.browser, m.operatingSystem, m.device, true, isPersistent)
  }

  /**
   * The refresh of a known row: active again, last active now, and an expiry computed from
   * the `isPersistent` ARGUMENT, while the stored `IsPersistent`, owner and creation time stay.
   */
  function Refreshed(s: UserSession, isPersistent: bool, now: int): (r: UserSession)
    ensures r.lastActivityAt == now && r.isActive && r.expiresAt == Some(ExpiryFor(isPersistent, now))
    ensures r.(lastActivityAt := s.lastActivityAt, isActive := s.isActive, expiresAt := s.expiresAt) == s
  {
    s.(lastActivityAt := now, isActive := true, expiresAt := Some(ExpiryFor(isPersistent, now)))
  }

  /**
   * `CreateOrUpdateSessionAsync`. An unknown session id inserts one new row (and the
   * insert fails on `FK_UserSessions_AspNetUsers_UserId` for an unknown user); a known one
   * refreshes that row in place and adds none.
   */
  method CreateOrUpdateSession(
    db: ApplicationDbContext, userId: string, userEmail: string, sessionId: string,
    ipAddress: Option<string>, userAgent: Option<string>, isPersistent: bool, now: int, parse: Parser)
    returns (result: Result<UserSession, DbError>)
    requires db.Valid()
    modifies db`userSessions
    ensures db.Valid()
    ensures match FindSession(old(db.userSessions), sessionId)
      case None =>
        if userId in db.users then
          && result == Ok(NewSession(userId, userEmail, sessionId, ipAddress, userAgent, isPersistent, now, parse))
          && db.userSessions == old(db.userSessions) + [result.value]
        else
          && result == Err(ForeignKeyViolation("FK_UserSessions_AspNetUsers_UserId"))
          && db.userSessions == old(db.userSessions)
      case Some(i) =>
        && result == Ok(Refreshed(old(db.userSessions)[i], isPersistent, now))
        && db.userSessions == old(db.userSessions)[i := result.value]
  {
    var found := FindSession(db.userSessions, sessionId);
    if found.None? {
      var session := NewSession(userId, userEmail, sessionId, ipAddress, userAgent, isPersistent, now, parse);
      if userId !in db.users {
        return Err(ForeignKeyViolation("FK_UserSessions_AspNetUsers_UserId"));
      }
      ghost var t := db.userSessions;
      db.userSessions := db.userSessions + [session];
      assert UniqueSessionIds(db.userSessions) by {
        forall a, b | 0 <= a < b < |db.userSessions|
          ensures db.userSessions[a].sessionId != db.userSessions[b].sessionId
        {
          if b == |t| {
            assert t[a].sessionId != sessionId;
          }
        }
      }
      result := Ok(session);
    } else {
      var i := found.value;
      var session := Refreshed(db.userSessions[i], isPersistent, now);
      db.userSessions := db.userSessions[i := session];
      result := Ok(session);
    }
  }

  /** Refreshing keeps the session id of every row, so re-opening a known id never duplicates it. */
  lemma RefreshAddsNoRow(t: seq<UserSession>, sessionId: string, isPersistent: bool, now: int)
    requires FindSession(t, sessionId).Some?
    ensures var i := FindSession(t, sessionId).value;
      |t[i := Refreshed(t[i], isPersistent, now)]| == |t|
      && FindSession(t[i := Refreshed(t[i], isPersistent, now)], sessionId) == Some(i)
  {
    var i := FindSession(t, sessionId).value;
    var r := t[i := Refreshed(t[i], isPersistent, now)];
    assert forall j :: 0 <= j < |t| ==> r[j].sessionId == t[j].sessionId;
  }

  // ---------------------------------------------------------------- activity

  /** The table after `UpdateSessionActivityAsync`: the first active row with the id touched. */
  function Touched(t: seq<UserSession>, sessionId: string, now: int): (r: seq<UserSession>)
    ensures |r| == |t|
    ensures FindActiveSession(t, sessionId).None? ==> r == t
    ensures FindActiveSession(t, sessionId).Some? ==> var i := FindActiveSession(t, sessionId).value;
      && r[i] == t[i].(lastActivityAt := now, expiresAt := Some(ExpiryFor(t[i].isPersistent, now)))
      && forall j :: 0 <= j < |t| && j != i ==> r[j] == t[j]
  {
    match FindActiveSession(t, sessionId)
    case None => t
    case Some(i) => t[i := t[i].(lastActivityAt := now, expiresAt := Some(ExpiryFor(t[i].isPersistent, now)))]
  }

  /**
   * `UpdateSessionActivityAsync`: a no-op for a missing or inactive session; otherwise the
   * session is last active now and expires a lifetime later, by its STORED persistence.
   */
  method UpdateSessionActivity(db: ApplicationDbContext, sessionId: string, now: int)
    requires db.Valid()
    modifies db`userSessions
    ensures db.Valid()
    ensures db.userSessions == Touched(old(db.userSessions), sessionId, now)
  {
    var found := FindActiveSession(db.userSessions, sessionId);
    if found.Some? {
      var i := found.value;
      var session := db.userSessions[i];
      db.userSessions := db.userSessions[i := session.(lastActivityAt := now,
                                                      expiresAt := Some(ExpiryFor(session.isPersistent, now)))];
    }
  }

  // ---------------------------------------------------------------- termination

  /** The table after `TerminateSessionAsync`: the first row with the id inactive. */
  function Terminated(t: seq<UserSession>, sessionId: string): (r: seq<UserSession>)
    ensures |r| == |t|
    ensures FindSession(t, sessionId).None? ==> r == t
    ensures FindSession(t, sessionId).Some? ==> var i := FindSession(t, sessionId).value;
      && r[i] == t[i].(isActive := false)
      && forall j :: 0 <= j < |t| && j != i ==> r[j] == t[j]
  {
    match FindSession(t, sessionId)
    case None => t
    case Some(i) => t[i := t[i].(isActive := false)]
  }

  /** `TerminateSessionAsync`: deactivates the session with the id; unknown ids change nothing. */
  method TerminateSession(db: ApplicationDbContext, sessionId: string)
    requires db.Valid()
    modifies db`userSessions
    ensures db.Valid()
    ensures db.userSessions == Terminated(old(db.userSessions), sessionId)
  {
    var found := FindSession(db.userSessions, sessionId);
    if found.Some? {
      var i := found.value;
      db.userSessions := db.userSessions[i := db.userSessions[i].(isActive := false)];
    }
  }

  /** Terminating a session twice is terminating it once. */
  lemma TerminateIdempotent(t: seq<UserSession>, sessionId: string)
    ensures Terminated(Terminated(t, sessionId), sessionId) == Terminated(t, sessionId)
  {
    var r := Terminated(t, sessionId);
    match FindSession(t, sessionId)
    case None =>
    case Some(i) =>
      assert forall j :: 0 <= j < |t| ==> r[j].sessionId == t[j].sessionId;
      assert FindSession(r, sessionId) == Some(i);
  }

  /** Which rows a bulk deactivation picks. */
  datatype Selector =
    | OtherSessionsOf(userId: string, currentSessionId: string)
    | AllSessionsOf(userId: string)
    | ExpiredBefore(now: int)

  /** The `Where` of `TerminateOtherSessionsAsync`, `TerminateAllSessionsAsync` and `CleanupExpiredSessionsAsync`. */
  predicate Selects(sel: Selector, s: UserSession) {
    match sel
    case OtherSessionsOf(userId, current) => s.userId == userId && s.sessionId != current && s.isActive
    case AllSessionsOf(userId) => s.userId == userId && s.isActive
    case ExpiredBefore(now) => s.isActive && s.expiresAt.Some? && s.expiresAt.value < now
  }

  function Deactivate(sel: Selector, s: UserSession): UserSession {
    if Selects(sel, s) then s.(isActive := false) else s
  }

  /** The table after the `foreach` that clears `IsActive` on every selected row. */
  function Deactivated(t: seq<UserSession>, sel: Selector): (r: seq<UserSession>)
    ensures |r| == |t|
    ensures forall i :: 0 <= i < |t| ==> r[i] == Deactivate(sel, t[i])
  {
    seq(|t|, i requires 0 <= i < |t| => Deactivate(sel, t[i]))
  }

  /** The shared `foreach`: every selected row becomes inactive, in table order. */
  method DeactivateWhere(db: ApplicationDbContext, sel: Selector)
    requires db.Valid()
    modifies db`userSessions
    ensures db.Valid()
    ensures db.userSessions == Deactivated(old(db.userSessions), sel)
  {
    ghost var t := db.userSessions;
    var i := 0;
    while i < |db.userSessions|
      invariant 0 <= i <= |db.userSessions| == |t|
      invariant forall k :: 0 <= k < i ==> db.userSessions[k] == Deactivate(sel, t[k])
      invariant forall k :: i <= k < |t| ==> db.userSessions[k] == t[k]
    {
      if Selects(sel, db.userSessions[i]) {
        db.userSessions := db.userSessions[i := db.userSessions[i].(isActive := false)];
      }
      i := i + 1;
    }
    assert db.userSessions == Deactivated(t, sel);
    assert forall k :: 0 <= k < |t| ==>
      db.userSessions[k].sessionId == t[k].sessionId && db.userSessions[k].userId == t[k].userId;
  }

  /** `TerminateOtherSessionsAsync`: the user's other active sessions become inactive. */
  method TerminateOtherSessions(db: ApplicationDbContext, userId: string, currentSessionId: string)
    requires db.Valid()
    modifies db`userSessions
    ensures db.Valid()
    ensures db.userSessions == Deactivated(old(db.userSessions), OtherSessionsOf(userId, currentSessionId))
  {
    DeactivateWhere(db, OtherSessionsOf(userId, currentSessionId));
  }

  /** `TerminateAllSessionsAsync`: all the user's active sessions become inactive. */
  method TerminateAllSessions(db: ApplicationDbContext, userId: string)
    requires db.Valid()
    modifies db`userSessions
    ensures db.Valid()
    ensures db.userSessions == Deactivated(old(db.userSessions), AllSessionsOf(userId))
  {
    DeactivateWhere(db, AllSessionsOf(userId));
  }

  /** `CleanupExpiredSessionsAsync`: active sessions whose expiry has passed become inactive. */
  method CleanupExpiredSessions(db: ApplicationDbContext, now: int)
    requires db.Valid()
    modifies db`userSessions
    ensures db.Valid()
    ensures db.userSessions == Deactivated(old(db.userSessions), ExpiredBefore(now))
  {
    DeactivateWhere(db, ExpiredBefore(now));
  }

  // ---------------------------------------------------------------- what the bulk operations leave

  /** After `TerminateAllSessions`, the user has no active session left. */
  lemma {:induction false} TerminateAllLeavesNone(t: seq<UserSession>, userId: string)
    ensures ActiveSessionsOf(Deactivated(t, AllSessionsOf(userId)), userId) == []
  {
    if t != [] {
      TerminateAllLeavesNone(t[1..], userId);
      assert Deactivated(t, AllSessionsOf(userId))[1..] == Deactivated(t[1..], AllSessionsOf(userId));
    }
  }

  /**
   * After `TerminateOtherSessions`, the user's active sessions are exactly those of theirs
   * with the current session id that were active before.
   */
  lemma {:induction false} TerminateOthersKeepsCurrent(t: seq<UserSession>, userId: string, current: string)
    ensures ActiveSessionsOf(Deactivated(t, OtherSessionsOf(userId, current)), userId)
         == SessionsWithId(ActiveSessionsOf(t, userId), current)
  {
    if t != [] {
      TerminateOthersKeepsCurrent(t[1..], userId, current);
      assert Deactivated(t, OtherSessionsOf(userId, current))[1..]
          == Deactivated(t[1..], OtherSessionsOf(userId, current));
    }
  }

  /** The rows with a given session id, in order. */
  function SessionsWithId(t: seq<UserSession>, sessionId: string): (r: seq<UserSession>)
    ensures forall x :: x in r ==> x in t && x.sessionId == sessionId
  {
    if t == [] then []
    else if t[0].sessionId == sessionId then [t[0]] + SessionsWithId(t[1..], sessionId)
    else SessionsWithId(t[1..], sessionId)
  }

  /**
   * The expiry sweep leaves a row active exactly when it was active and either has no
   * expiry or has not yet reached it; it deletes nothing and changes nothing else.
   */
  lemma CleanupExpiredEffect(t: seq<UserSession>, now: int, i: nat)
    requires i < |t|
    ensures var r := Deactivated(t, ExpiredBefore(now));
      && (r[i].isActive <==> t[i].isActive && (t[i].expiresAt.None? || t[i].expiresAt.value >= now))
      && r[i].(isActive := t[i].isActive) == t[i]
  {
  }

  /** Running a bulk deactivation again finds nothing more to do. */
  lemma DeactivateIdempotent(t: seq<UserSession>, sel: Selector)
    ensures Deactivated(Deactivated(t, sel), sel) == Deactivated(t, sel)
  {
  }
}
