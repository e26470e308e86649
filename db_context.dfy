/**
 * The application's database (`ApplicationDbContext`) as one object with a field per
 * table, the constraints that hold between the tables, and the deletion of a user with
 * the referential actions of the foreign keys declared in the relationship migrations:
 * sessions, login history and the audit rows about the user cascade; an audit row
 * written BY the user restricts the deletion.
 */
module DbContext {
  import opened Wrappers
  import opened Domain
  import opened Collections

  /** The database errors the application can meet. */
  datatype DbError =
    | ForeignKeyViolation(constraint: string)
    | KeyNotFound(key: string)

  class ApplicationDbContext {
    var appConfigurations: seq<AppConfiguration>
    var users: map<string, ApplicationUser>
    var roles: set<string>
    var userSessions: seq<UserSession>
    var userLoginHistories: seq<UserLoginHistory>
    var userAuditLogs: seq<UserAuditLog>
    var applicationLogs: seq<ApplicationLog>

    /** The unique indexes and foreign keys of the schema. */
    ghost predicate Valid()
      reads this
    {
      && UniqueKeys(appConfigurations)
      && UserTablesValid(users, userSessions, userLoginHistories, userAuditLogs)
    }

    /** An empty database. */
    constructor ()
      ensures Valid()
      ensures appConfigurations == [] && users == map[] && roles == {}
      ensures userSessions == [] && userLoginHistories == [] && userAuditLogs == [] && applicationLogs == []
    {
      appConfigurations := [];
      users := map[];
      roles := {};
      userSessions := [];
      userLoginHistories := [];
      userAuditLogs := [];
      applicationLogs := [];
    }

    /** `UPDATE AspNetUsers`: the stored row of an existing user replaced by `u`. */
    method UpdateUser(u: ApplicationUser)
      requires Valid() && u.id in users
      modifies this`users
      ensures Valid()
      ensures users == old(users)[u.id := u]
    {
      users := users[u.id := u];
      assert forall i :: 0 <= i < |userSessions| ==> userSessions[i].userId in old(users) ==> userSessions[i].userId in users;
    }

    /**
     * `DELETE FROM AspNetUsers WHERE Id = id`. `FK_UserAuditLogs_AspNetUsers_ModifiedBy`
     * is `Restrict`: while any audit row names the user as its author the statement fails
     * and nothing changes. Otherwise the user goes, and with it (`Cascade`) every session,
     * login-history row and audit row whose `UserId` is the user.
     */
    method DeleteUser(id: string) returns (outcome: Outcome<DbError>)
      requires Valid()
      requires id in users
      modifies this`users, this`userSessions, this`userLoginHistories, this`userAuditLogs
      ensures Valid()
      ensures roles == old(roles) && appConfigurations == old(appConfigurations)
      ensures applicationLogs == old(applicationLogs)
      ensures outcome.Failed? <==> IsAuthorOfAudit(old(userAuditLogs), id)
      ensures outcome.Failed? ==>
        && outcome.error == ForeignKeyViolation("FK_UserAuditLogs_AspNetUsers_ModifiedBy")
        && users == old(users) && userSessions == old(userSessions)
        && userLoginHistories == old(userLoginHistories) && userAuditLogs == old(userAuditLogs)
      ensures outcome.Done? ==>
        && users == old(users) - {id}
        && userSessions == WithoutOwner(old(userSessions), SessionUserOf, id)
        && userLoginHistories == WithoutOwner(old(userLoginHistories), LoginUserOf, id)
        && userAuditLogs == WithoutOwner(old(userAuditLogs), AuditSubjectOf, id)
    {
      if IsAuthorOfAudit(userAuditLogs, id) {
        return Failed(ForeignKeyViolation("FK_UserAuditLogs_AspNetUsers_ModifiedBy"));
      }
      RemoveWithOwnedRows(id);
      outcome := Done;
    }

    /** The cascading side of the deletion: the user and every row the user owns go. */
    method RemoveWithOwnedRows(id: string)
      requires Valid() && !IsAuthorOfAudit(userAuditLogs, id)
      modifies this`users, this`userSessions, this`userLoginHistories, this`userAuditLogs
      ensures Valid()
      ensures users == old(users) - {id}
      ensures userSessions == WithoutOwner(old(userSessions), SessionUserOf, id)
      ensures userLoginHistories == WithoutOwner(old(userLoginHistories), LoginUserOf, id)
      ensures userAuditLogs == WithoutOwner(old(userAuditLogs), AuditSubjectOf, id)
    {
      CascadeKeepsForeignKeys(userSessions, userLoginHistories, userAuditLogs, users, id);
      var sessions := WithoutOwner(userSessions, SessionUserOf, id);
      var history := WithoutOwner(userLoginHistories, LoginUserOf, id);
      var audits := WithoutOwner(userAuditLogs, AuditSubjectOf, id);
      users := users - {id};
      userSessions := sessions;
      userLoginHistories := history;
      userAuditLogs := audits;
    }
  }

  /** The constraints among the users and the tables that point at them. */
  predicate UserTablesValid(
    users: map<string, ApplicationUser>, sessions: seq<UserSession>, history: seq<UserLoginHistory>,
    audits: seq<UserAuditLog>)
  {
    && UsersKeyed(users)
    && UniqueSessionIds(sessions)
    && SessionOwnersExist(sessions, users)
    && LoginOwnersExist(history, users)
    && AuditPartiesExist(audits, users)
  }

  /** Some audit row was written by `id` (the restricting side of the audit foreign keys). */
  predicate IsAuthorOfAudit(audits: seq<UserAuditLog>, id: string) {
    exists i :: 0 <= i < |audits| && audits[i].modifiedBy == id
  }

  /**
   * Once no audit row names `id` as its author, removing `id` with the rows it owns leaves
   * every remaining row pointing at a remaining user, and the session ids unique.
   */
  lemma CascadeKeepsForeignKeys(
    sessions: seq<UserSession>, history: seq<UserLoginHistory>, audits: seq<UserAuditLog>,
    users: map<string, ApplicationUser>, id: string)
    requires UserTablesValid(users, sessions, history, audits)
    requires !IsAuthorOfAudit(audits, id)
    ensures UserTablesValid(users - {id}, WithoutOwner(sessions, SessionUserOf, id),
      WithoutOwner(history, LoginUserOf, id), WithoutOwner(audits, AuditSubjectOf, id))
  {
    WithoutOwnerKeepsUniqueIds(sessions, id);
    var s := WithoutOwner(sessions, SessionUserOf, id);
    var h := WithoutOwner(history, LoginUserOf, id);
    var a := WithoutOwner(audits, AuditSubjectOf, id);
    forall k | 0 <= k < |s| ensures s[k].userId in users - {id} {
      assert s[k] in sessions;
    }
    forall k | 0 <= k < |h| ensures h[k].userId in users - {id} {
      assert h[k] in history;
    }
    forall k | 0 <= k < |a| ensures a[k].userId in users - {id} && a[k].modifiedBy in users - {id} {
      assert a[k] in audits;
    }
  }

  /** Cascading a user's sessions away keeps the session ids unique. */
  lemma {:induction false} WithoutOwnerKeepsUniqueIds(s: seq<UserSession>, id: string)
    requires UniqueSessionIds(s)
    ensures UniqueSessionIds(WithoutOwner(s, SessionUserOf, id))
  {
    if s != [] {
      assert UniqueSessionIds(s[1..]) by {
        forall i, j | 0 <= i < j < |s[1..]| ensures s[1..][i].sessionId != s[1..][j].sessionId {
          assert s[1..][i] == s[i + 1] && s[1..][j] == s[j + 1];
        }
      }
      WithoutOwnerKeepsUniqueIds(s[1..], id);
      var rest := WithoutOwner(s[1..], SessionUserOf, id);
      if SessionUserOf(s[0]) != id {
        forall k | 0 <= k < |rest| ensures rest[k].sessionId != s[0].sessionId {
          assert rest[k] in s[1..];
          var j :| 0 <= j < |s[1..]| && s[1..][j] == rest[k];
          assert s[j + 1] == rest[k];
        }
        assert WithoutOwner(s, SessionUserOf, id) == [s[0]] + rest;
      }
    }
  }
}
