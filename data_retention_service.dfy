/**
 * `DataRetentionService`: deletes application logs, login history, audit rows and
 * inactive sessions older than their configured number of days (0 keeps a table forever),
 * the whole run behind the automatic-cleanup switch, and the read-only statistics of
 * what a run would delete.
 */
module DataRetentionService {
  import opened Wrappers
  import opened Domain
  import opened DbContext
  import opened Collections
  import opened ConfigurationService
  import opened DataRetentionTypes

  const ApplicationLogsDaysKey := "DataRetention_ApplicationLogs_Days"
  const LoginHistoryDaysKey := "DataRetention_LoginHistory_Days"
  const AuditLogsDaysKey := "DataRetention_AuditLogs_Days"
  const InactiveSessionsDaysKey := "DataRetention_InactiveSessions_Days"
  const EnableAutoCleanupKey := "DataRetention_EnableAutoCleanup"

  /** The number of rows each round trip of the batch loops deletes at most. */
  const BatchSize: nat := 1000

  /** `GetRetentionConfigurationAsync`: each readable setting, or its default when it is null. */
  function GetRetentionConfiguration(t: seq<AppConfiguration>, cipher: Cipher): (c: DataRetentionConfiguration)
    ensures GetInt(t, ApplicationLogsDaysKey, cipher).Some? ==> c.applicationLogsDays == GetInt(t, ApplicationLogsDaysKey, cipher).value
    ensures GetInt(t, ApplicationLogsDaysKey, cipher).None? ==> c.applicationLogsDays == 90
    ensures GetInt(t, LoginHistoryDaysKey, cipher).Some? ==> c.loginHistoryDays == GetInt(t, LoginHistoryDaysKey, cipher).value
    ensures GetInt(t, LoginHistoryDaysKey, cipher).None? ==> c.loginHistoryDays == 180
    ensures GetInt(t, AuditLogsDaysKey, cipher).Some? ==> c.auditLogsDays == GetInt(t, AuditLogsDaysKey, cipher).value
    ensures GetInt(t, AuditLogsDaysKey, cipher).None? ==> c.auditLogsDays == 365
    ensures GetInt(t, InactiveSessionsDaysKey, cipher).Some? ==> c.inactiveSessionsDays == GetInt(t, InactiveSessionsDaysKey, cipher).value
    ensures GetInt(t, InactiveSessionsDaysKey, cipher).None? ==> c.inactiveSessionsDays == 30
    ensures GetBool(t, EnableAutoCleanupKey, cipher).Some? ==> c.enableAutoCleanup == GetBool(t, EnableAutoCleanupKey, cipher).value
    ensures GetBool(t, EnableAutoCleanupKey, cipher).None? ==> c.enableAutoCleanup
  {
    DataRetentionConfiguration(
      GetInt(t, ApplicationLogsDaysKey, cipher).GetOr(90),
      GetInt(t, LoginHistoryDaysKey, cipher).GetOr(180),
      GetInt(t, AuditLogsDaysKey, cipher).GetOr(365),
      GetInt(t, InactiveSessionsDaysKey, cipher).GetOr(30),
      GetBool(t, EnableAutoCleanupKey, cipher).GetOr(true))
  }

  /** Without any retention setting: 90, 180, 365 and 30 days, and automatic cleanup on. */
  lemma RetentionDefaults(t: seq<AppConfiguration>, cipher: Cipher)
    requires FindConfig(t, ApplicationLogsDaysKey).None? && FindConfig(t, LoginHistoryDaysKey).None?
    requires FindConfig(t, AuditLogsDaysKey).None? && FindConfig(t, InactiveSessionsDaysKey).None?
    requires FindConfig(t, EnableAutoCleanupKey).None?
    ensures GetRetentionConfiguration(t, cipher) == DataRetentionConfiguration(90, 180, 365, 30, true)
  {
  }

  /** `DateTime.UtcNow.AddDays(-days)`. */
  function Cutoff(now: int, days: int): int {
    now - days * SecondsPerDay
  }

  // ---------------------------------------------------------------- what a cleanup leaves

  /** A timestamped table after a cleanup with `days`: unchanged for 0, else the rows at or after the cutoff. */
  function Retained<T>(s: seq<T>, ts: T -> int, now: int, days: int): (r: seq<T>)
    ensures days == 0 ==> r == s
    ensures days != 0 ==> forall x :: x in s ==> (x in r <==> ts(x) >= Cutoff(now, days))
    ensures forall x :: x in r ==> x in s
  {
    if days == 0 then s else KeepNotOlder(s, ts, Cutoff(now, days))
  }

  /** The number of rows that cleanup deletes. */
  function RemovedCount<T>(s: seq<T>, ts: T -> int, now: int, days: int): (n: nat)
    ensures days == 0 ==> n == 0
    ensures n == |s| - |Retained(s, ts, now, days)|
  {
    if days == 0 then 0 else CountOlder(s, ts, Cutoff(now, days))
  }

  /** The `Where` of the inactive-session cleanup. */
  predicate Stale(s: UserSession, cutoff: int) {
    !s.isActive && s.lastActivityAt < cutoff
  }

  function CountStale(t: seq<UserSession>, cutoff: int): (n: nat)
    ensures n <= |t|
  {
    if t == [] then 0 else (if Stale(t[0], cutoff) then 1 else 0) + CountStale(t[1..], cutoff)
  }

  /** The sessions that are active or were last active at or after the cutoff, in table order. */
  function KeepNotStale(t: seq<UserSession>, cutoff: int): (r: seq<UserSession>)
    ensures |r| == |t| - CountStale(t, cutoff)
    ensures forall x :: x in r ==> x in t && !Stale(x, cutoff)
    ensures forall x :: x in t && !Stale(x, cutoff) ==> x in r
  {
    if t == [] then []
    else if Stale(t[0], cutoff) then KeepNotStale(t[1..], cutoff)
    else [t[0]] + KeepNotStale(t[1..], cutoff)
  }

  /** Dropping stale sessions keeps the session ids unique. */
  lemma {:induction false} KeepNotStaleKeepsUniqueIds(t: seq<UserSession>, cutoff: int)
    ensures UniqueSessionIds(t) ==> UniqueSessionIds(KeepNotStale(t, cutoff))
  {
    if t != [] && UniqueSessionIds(t) {
      assert UniqueSessionIds(t[1..]) by {
        forall i, j | 0 <= i < j < |t[1..]| ensures t[1..][i].sessionId != t[1..][j].sessionId {
          assert t[1..][i] == t[i + 1] && t[1..][j] == t[j + 1];
        }
      }
      KeepNotStaleKeepsUniqueIds(t[1..], cutoff);
      var rest := KeepNotStale(t[1..], cutoff);
      if !Stale(t[0], cutoff) {
        forall k | 0 <= k < |rest| ensures rest[k].sessionId != t[0].sessionId {
          assert rest[k] in t[1..];
          var j :| 0 <= j < |t[1..]| && t[1..][j] == rest[k];
          assert t[j + 1] == rest[k];
        }
      }
    }
  }

  function RetainedSessions(t: seq<UserSession>, now: int, days: int): (r: seq<UserSession>)
    ensures days == 0 ==> r == t
    ensures days != 0 ==> forall x :: x in t ==> (x in r <==> !Stale(x, Cutoff(now, days)))
    ensures UniqueSessionIds(t) ==> UniqueSessionIds(r)
    ensures forall x :: x in r ==> x in t
  {
    if days == 0 then t
    else
      KeepNotStaleKeepsUniqueIds(t, Cutoff(now, days));
      KeepNotStale(t, Cutoff(now, days))
  }

  function RemovedSessions(t: seq<UserSession>, now: int, days: int): (n: nat)
    ensures days == 0 ==> n == 0
    ensures n == |t| - |RetainedSessions(t, now, days)|
  {
    if days == 0 then 0 else CountStale(t, Cutoff(now, days))
  }

  /** Active sessions survive every inactive-session cleanup. */
  lemma ActiveSessionsSurvive(t: seq<UserSession>, now: int, days: int, x: UserSession)
    requires x in t && x.isActive
    ensures x in RetainedSessions(t, now, days)
  {
  }

  // ---------------------------------------------------------------- the four cleanups

  /** `CleanupApplicationLogsAsync`: one `RemoveRange` of every log older than the cutoff. */
  method CleanupApplicationLogs(db: ApplicationDbContext, now: int, cipher: Cipher) returns (deleted: int)
    requires db.Valid()
    modifies db`applicationLogs
    ensures db.Valid()
    ensures var days := GetRetentionConfiguration(db.appConfigurations, cipher).applicationLogsDays;
      && db.applicationLogs == Retained(old(db.applicationLogs), LogTimestampOf, now, days)
      && deleted == RemovedCount(old(db.applicationLogs), LogTimestampOf, now, days)
  {
    var config := GetRetentionConfiguration(db.appConfigurations, cipher);
    if config.applicationLogsDays == 0 {
      return 0;
    }
    var cutoff := Cutoff(now, config.applicationLogsDays);
    var count := CountOlder(db.applicationLogs, LogTimestampOf, cutoff);
    if count > 0 {
      db.applicationLogs := KeepNotOlder(db.applicationLogs, LogTimestampOf, cutoff);
    } else {
      KeepAllWhenNoneOlder(db.applicationLogs, LogTimestampOf, cutoff);
    }
    deleted := count;
  }

  /**
   * `CleanupLoginHistoryAsync`: nothing for 0 days; otherwise the batch loop below with the
   * cutoff `days` before now.
   */
  method CleanupLoginHistory(db: ApplicationDbContext, now: int, cipher: Cipher)
    returns (deleted: int, ghost batches: seq<nat>)
    requires db.Valid()
    modifies db`userLoginHistories
    ensures db.Valid()
    ensures var days := GetRetentionConfiguration(db.appConfigurations, cipher).loginHistoryDays;
      && db.userLoginHistories == Retained(old(db.userLoginHistories), LoginTimeOf, now, days)
      && deleted == RemovedCount(old(db.userLoginHistories), LoginTimeOf, now, days)
    ensures forall i :: 0 <= i < |batches| ==> 0 < batches[i] <= BatchSize
    ensures Sum(batches) == deleted
  {
    var config := GetRetentionConfiguration(db.appConfigurations, cipher);
    if config.loginHistoryDays == 0 {
      return 0, [];
    }
    deleted, batches := CleanupLoginHistoryBatches(db, Cutoff(now, config.loginHistoryDays));
  }

  /**
   * The `while (true)` loop that removes the first 1000 login-history rows older than the
   * cutoff per round trip until none is left. It ends because each non-empty batch lowers the
   * number of old rows; the batches, each of 1 to 1000 rows, add up to the rows that were old
   * at the start, and every other row stays.
   */
  method CleanupLoginHistoryBatches(db: ApplicationDbContext, cutoff: int)
    returns (deleted: int, ghost batches: seq<nat>)
    requires db.Valid()
    modifies db`userLoginHistories
    ensures db.Valid()
    ensures db.userLoginHistories == KeepNotOlder(old(db.userLoginHistories), LoginTimeOf, cutoff)
    ensures deleted == CountOlder(old(db.userLoginHistories), LoginTimeOf, cutoff)
    ensures forall i :: 0 <= i < |batches| ==> 0 < batches[i] <= BatchSize
    ensures Sum(batches) == deleted
  {
    batches := [];
    ghost var t := db.userLoginHistories;
    deleted := 0;
    while true
      invariant BatchProgress(db.userLoginHistories, t, LoginTimeOf, cutoff, deleted, batches)
      decreases CountOlder(db.userLoginHistories, LoginTimeOf, cutoff)
    {
      var batch := TakeOlder(db.userLoginHistories, LoginTimeOf, cutoff, BatchSize);
      if |batch| == 0 {
        break;
      }
      BatchStep(db.userLoginHistories, t, LoginTimeOf, cutoff, deleted, batches);
      db.userLoginHistories := RemoveFirstOlder(db.userLoginHistories, LoginTimeOf, cutoff, BatchSize);
      batches := batches + [|batch|];
      deleted := deleted + |batch|;
    }
    BatchDone(db.userLoginHistories, t, LoginTimeOf, cutoff, deleted, batches);
    LoginOwnersOfSubset(db.userLoginHistories, t, db.users);
  }

  /**
   * `CleanupAuditLogsAsync`: nothing for 0 days; otherwise the batch loop below with the
   * cutoff `days` before now.
   */
  method CleanupAuditLogs(db: ApplicationDbContext, now: int, cipher: Cipher)
    returns (deleted: int, ghost batches: seq<nat>)
    requires db.Valid()
    modifies db`userAuditLogs
    ensures db.Valid()
    ensures var days := GetRetentionConfiguration(db.appConfigurations, cipher).auditLogsDays;
      && db.userAuditLogs == Retained(old(db.userAuditLogs), ModifiedAtOf, now, days)
      && deleted == RemovedCount(old(db.userAuditLogs), ModifiedAtOf, now, days)
    ensures forall i :: 0 <= i < |batches| ==> 0 < batches[i] <= BatchSize
    ensures Sum(batches) == deleted
  {
    var config := GetRetentionConfiguration(db.appConfigurations, cipher);
    if config.auditLogsDays == 0 {
      return 0, [];
    }
    deleted, batches := CleanupAuditLogsBatches(db, Cutoff(now, config.auditLogsDays));
  }

  /**
   * The same batch loop over the audit rows' `ModifiedAt`.
   */
  method CleanupAuditLogsBatches(db: ApplicationDbContext, cutoff: int)
    returns (deleted: int, ghost batches: seq<nat>)
    requires db.Valid()
    modifies db`userAuditLogs
    ensures db.Valid()
    ensures db.userAuditLogs == KeepNotOlder(old(db.userAuditLogs), ModifiedAtOf, cutoff)
    ensures deleted == CountOlder(old(db.userAuditLogs), ModifiedAtOf, cutoff)
    ensures forall i :: 0 <= i < |batches| ==> 0 < batches[i] <= BatchSize
    ensures Sum(batches) == deleted
  {
    batches := [];
    ghost var t := db.userAuditLogs;
    deleted := 0;
    while true
      invariant BatchProgress(db.userAuditLogs, t, ModifiedAtOf, cutoff, deleted, batches)
      decreases CountOlder(db.userAuditLogs, ModifiedAtOf, cutoff)
    {
      var batch := TakeOlder(db.userAuditLogs, ModifiedAtOf, cutoff, BatchSize);
      if |batch| == 0 {
        break;
      }
      BatchStep(db.userAuditLogs, t, ModifiedAtOf, cutoff, deleted, batches);
      db.userAuditLogs := RemoveFirstOlder(db.userAuditLogs, ModifiedAtOf, cutoff, BatchSize);
      batches := batches + [|batch|];
      deleted := deleted + |batch|;
    }
    BatchDone(db.userAuditLogs, t, ModifiedAtOf, cutoff, deleted, batches);
    AuditPartiesOfSubset(db.userAuditLogs, t, db.users);
  }

  /** `CleanupInactiveSessionsAsync`: one `RemoveRange` of the inactive sessions last active before the cutoff. */
  method CleanupInactiveSessions(db: ApplicationDbContext, now: int, cipher: Cipher) returns (deleted: int)
    requires db.Valid()
    modifies db`userSessions
    ensures db.Valid()
    ensures var days := GetRetentionConfiguration(db.appConfigurations, cipher).inactiveSessionsDays;
      && db.userSessions == RetainedSessions(old(db.userSessions), now, days)
      && deleted == RemovedSessions(old(db.userSessions), now, days)
  {
    var config := GetRetentionConfiguration(db.appConfigurations, cipher);
    if config.inactiveSessionsDays == 0 {
      return 0;
    }
    var cutoff := Cutoff(now, config.inactiveSessionsDays);
    var count := CountStale(db.userSessions, cutoff);
    ghost var t := db.userSessions;
    if count > 0 {
      KeepNotStaleKeepsUniqueIds(db.userSessions, cutoff);
      db.userSessions := KeepNotStale(db.userSessions, cutoff);
      SessionOwnersOfSubset(db.userSessions, t, db.users);
    } else {
      KeepAllWhenNoneStale(db.userSessions, cutoff);
    }
    deleted := count;
  }

  lemma {:induction false} KeepAllWhenNoneStale(t: seq<UserSession>, cutoff: int)
    requires CountStale(t, cutoff) == 0
    ensures KeepNotStale(t, cutoff) == t
  {
    if t != [] {
      KeepAllWhenNoneStale(t[1..], cutoff);
    }
  }

  /**
   * What the batch loops keep between round trips: the rows not yet deleted are rows of the
   * table at the start `t` with the same newer rows, the ones deleted so far are the old rows
   * no longer present, and each batch was of 1 to 1000 rows.
   */
  ghost predicate BatchProgress<T>(s: seq<T>, t: seq<T>, ts: T -> int, cutoff: int, deleted: int, batches: seq<nat>) {
    && KeepNotOlder(s, ts, cutoff) == KeepNotOlder(t, ts, cutoff)
    && deleted + CountOlder(s, ts, cutoff) == CountOlder(t, ts, cutoff)
    && (forall x :: x in s ==> x in t)
    && (forall i :: 0 <= i < |batches| ==> 0 < batches[i] <= BatchSize)
    && Sum(batches) == deleted
  }

  /** One round trip that finds old rows keeps the loop's progress and lowers the number of old rows. */
  lemma BatchStep<T>(s: seq<T>, t: seq<T>, ts: T -> int, cutoff: int, deleted: int, batches: seq<nat>)
    requires BatchProgress(s, t, ts, cutoff, deleted, batches)
    requires |TakeOlder(s, ts, cutoff, BatchSize)| != 0
    ensures var n := |TakeOlder(s, ts, cutoff, BatchSize)|;
      && BatchProgress(RemoveFirstOlder(s, ts, cutoff, BatchSize), t, ts, cutoff, deleted + n, batches + [n])
      && CountOlder(RemoveFirstOlder(s, ts, cutoff, BatchSize), ts, cutoff) < CountOlder(s, ts, cutoff)
  {
    var n := |TakeOlder(s, ts, cutoff, BatchSize)|;
    RemoveFirstOlderEffect(s, ts, cutoff, BatchSize);
    SumAppend(batches, n);
    assert forall i :: 0 <= i < |batches + [n]| ==> (batches + [n])[i] == if i < |batches| then batches[i] else n;
  }

  /** A round trip that finds no old row ends the loop with the table cleaned. */
  lemma BatchDone<T>(s: seq<T>, t: seq<T>, ts: T -> int, cutoff: int, deleted: int, batches: seq<nat>)
    requires BatchProgress(s, t, ts, cutoff, deleted, batches)
    requires |TakeOlder(s, ts, cutoff, BatchSize)| == 0
    ensures s == KeepNotOlder(t, ts, cutoff) && deleted == CountOlder(t, ts, cutoff)
    ensures forall x :: x in s ==> x in t
    ensures forall i :: 0 <= i < |batches| ==> 0 < batches[i] <= BatchSize
    ensures Sum(batches) == deleted
  {
    KeepAllWhenNoneOlder(s, ts, cutoff);
  }

  function Sum(s: seq<nat>): nat {
    if s == [] then 0 else Sum(s[..|s| - 1]) + s[|s| - 1]
  }

  lemma SumAppend(s: seq<nat>, n: nat)
    ensures Sum(s + [n]) == Sum(s) + n
  {
    assert (s + [n])[..|s|] == s;
  }

  // ---------------------------------------------------------------- the whole run

  /**
   * `CleanupAllAsync`: with automatic cleanup off, a fresh all-zero result and no change;
   * otherwise the four cleanups in the order logs, login history, audit rows, sessions,
   * and their counts in the result.
   */
  method CleanupAll(db: ApplicationDbContext, now: int, cipher: Cipher) returns (result: DataRetentionResult)
    requires db.Valid()
    modifies db`applicationLogs, db`userLoginHistories, db`userAuditLogs, db`userSessions
    ensures db.Valid()
    ensures var c := GetRetentionConfiguration(db.appConfigurations, cipher);
      if !c.enableAutoCleanup then
        && result == FreshResult(now)
        && db.applicationLogs == old(db.applicationLogs) && db.userLoginHistories == old(db.userLoginHistories)
        && db.userAuditLogs == old(db.userAuditLogs) && db.userSessions == old(db.userSessions)
      else
        && result == DataRetentionResult(
             RemovedCount(old(db.applicationLogs), LogTimestampOf, now, c.applicationLogsDays),
             RemovedCount(old(db.userLoginHistories), LoginTimeOf, now, c.loginHistoryDays),
             RemovedCount(old(db.userAuditLogs), ModifiedAtOf, now, c.auditLogsDays),
             RemovedSessions(old(db.userSessions), now, c.inactiveSessionsDays),
             now)
        && db.applicationLogs == Retained(old(db.applicationLogs), LogTimestampOf, now, c.applicationLogsDays)
        && db.userLoginHistories == Retained(old(db.userLoginHistories), LoginTimeOf, now, c.loginHistoryDays)
        && db.userAuditLogs == Retained(old(db.userAuditLogs), ModifiedAtOf, now, c.auditLogsDays)
        && db.userSessions == RetainedSessions(old(db.userSessions), now, c.inactiveSessionsDays)
  {
    result := FreshResult(now);
    var config := GetRetentionConfiguration(db.appConfigurations, cipher);
    if !config.enableAutoCleanup {
      return;
    }
    var logs := CleanupApplicationLogs(db, now, cipher);
    var logins, _ := CleanupLoginHistory(db, now, cipher);
    var audits, _ := CleanupAuditLogs(db, now, cipher);
    var sessions := CleanupInactiveSessions(db, now, cipher);
    result := result.(applicationLogsDeleted := logs, loginHistoryDeleted := logins,
      auditLogsDeleted := audits, inactiveSessionsDeleted := sessions);
  }

  /** The total of a run is the number of rows that left the four tables. */
  lemma TotalDeletedCountsRemovedRows(
    c: DataRetentionConfiguration, logs: seq<ApplicationLog>, logins: seq<UserLoginHistory>,
    audits: seq<UserAuditLog>, sessions: seq<UserSession>, now: int)
    ensures var r := DataRetentionResult(
        RemovedCount(logs, LogTimestampOf, now, c.applicationLogsDays),
        RemovedCount(logins, LoginTimeOf, now, c.loginHistoryDays),
        RemovedCount(audits, ModifiedAtOf, now, c.auditLogsDays),
        RemovedSessions(sessions, now, c.inactiveSessionsDays),
        now);
      TotalDeleted(r)
        == (|logs| - |Retained(logs, LogTimestampOf, now, c.applicationLogsDays)|)
         + (|logins| - |Retained(logins, LoginTimeOf, now, c.loginHistoryDays)|)
         + (|audits| - |Retained(audits, ModifiedAtOf, now, c.auditLogsDays)|)
         + (|sessions| - |RetainedSessions(sessions, now, c.inactiveSessionsDays)|)
  {
  }

  // ---------------------------------------------------------------- statistics

  /** `Where(s => !s.IsActive)`, in table order. */
  function InactiveSessions(t: seq<UserSession>): (r: seq<UserSession>)
    ensures forall x :: x in r <==> x in t && !x.isActive
  {
    if t == [] then []
    else if !t[0].isActive then [t[0]] + InactiveSessions(t[1..])
    else InactiveSessions(t[1..])
  }

  /** A to-delete count: only computed for a positive number of days, otherwise left at 0. */
  function ToDelete<T>(s: seq<T>, ts: T -> int, now: int, days: int): nat {
    if days > 0 then CountOlder(s, ts, Cutoff(now, days)) else 0
  }

  /** `GetRetentionStatisticsAsync`: counts, sizes and oldest timestamps, changing no table. */
  function GetRetentionStatistics(
    configs: seq<AppConfiguration>, logs: seq<ApplicationLog>, logins: seq<UserLoginHistory>,
    audits: seq<UserAuditLog>, sessions: seq<UserSession>, now: int, cipher: Cipher): (s: DataRetentionStatistics)
    ensures s.applicationLogsTotal == |logs| && s.loginHistoryTotal == |logins| && s.auditLogsTotal == |audits|
    ensures s.inactiveSessionsTotal == |InactiveSessions(sessions)|
    ensures s.oldestApplicationLog == Earliest(logs, LogTimestampOf)
    ensures s.oldestLoginHistory == Earliest(logins, LoginTimeOf)
    ensures s.oldestAuditLog == Earliest(audits, ModifiedAtOf)
    ensures s.oldestInactiveSession == Earliest(InactiveSessions(sessions), LastActivityOf)
  {
    var c := GetRetentionConfiguration(configs, cipher);
    var inactive := InactiveSessions(sessions);
    var oldestInactive := Earliest(inactive, LastActivityOf);
    DataRetentionStatistics(
      ToDelete(logs, LogTimestampOf, now, c.applicationLogsDays), |logs|, Earliest(logs, LogTimestampOf),
      ToDelete(logins, LoginTimeOf, now, c.loginHistoryDays), |logins|, Earliest(logins, LoginTimeOf),
      ToDelete(audits, ModifiedAtOf, now, c.auditLogsDays), |audits|, Earliest(audits, ModifiedAtOf),
      if c.inactiveSessionsDays > 0 then CountStale(sessions, Cutoff(now, c.inactiveSessionsDays)) else 0,
      |inactive|, oldestInactive)
  }

  /**
   * For retention periods of zero or more days the statistics predict the cleanup exactly:
   * every to-delete count is what the matching cleanup deletes, so the total to delete is
   * the total a run with automatic cleanup on reports.
   */
  lemma StatisticsPredictCleanup(
    configs: seq<AppConfiguration>, logs: seq<ApplicationLog>, logins: seq<UserLoginHistory>,
    audits: seq<UserAuditLog>, sessions: seq<UserSession>, now: int, cipher: Cipher)
    requires var c := GetRetentionConfiguration(configs, cipher);
      c.applicationLogsDays >= 0 && c.loginHistoryDays >= 0 && c.auditLogsDays >= 0 && c.inactiveSessionsDays >= 0
    ensures var c := GetRetentionConfiguration(configs, cipher);
      var s := GetRetentionStatistics(configs, logs, logins, audits, sessions, now, cipher);
      && s.applicationLogsToDelete == RemovedCount(logs, LogTimestampOf, now, c.applicationLogsDays)
      && s.loginHistoryToDelete == RemovedCount(logins, LoginTimeOf, now, c.loginHistoryDays)
      && s.auditLogsToDelete == RemovedCount(audits, ModifiedAtOf, now, c.auditLogsDays)
      && s.inactiveSessionsToDelete == RemovedSessions(sessions, now, c.inactiveSessionsDays)
      && TotalToDelete(s) == TotalDeleted(DataRetentionResult(
           RemovedCount(logs, LogTimestampOf, now, c.applicationLogsDays),
           RemovedCount(logins, LoginTimeOf, now, c.loginHistoryDays),
           RemovedCount(audits, ModifiedAtOf, now, c.auditLogsDays),
           RemovedSessions(sessions, now, c.inactiveSessionsDays),
           now))
  {
    var c := GetRetentionConfiguration(configs, cipher);
    var s := GetRetentionStatistics(configs, logs, logins, audits, sessions, now, cipher);
    assert s.applicationLogsToDelete == ToDelete(logs, LogTimestampOf, now, c.applicationLogsDays);
    assert s.loginHistoryToDelete == ToDelete(logins, LoginTimeOf, now, c.loginHistoryDays);
    assert s.auditLogsToDelete == ToDelete(audits, ModifiedAtOf, now, c.auditLogsDays);
    ToDeleteIsRemoved(logs, LogTimestampOf, now, c.applicationLogsDays);
    ToDeleteIsRemoved(logins, LoginTimeOf, now, c.loginHistoryDays);
    ToDeleteIsRemoved(audits, ModifiedAtOf, now, c.auditLogsDays);
  }

  /** For zero or more days a to-delete count is the number of rows the cleanup removes. */
  lemma ToDeleteIsRemoved<T>(s: seq<T>, ts: T -> int, now: int, days: int)
    requires days >= 0
    ensures ToDelete(s, ts, now, days) == RemovedCount(s, ts, now, days)
  {
  }

  /**
   * The statistics' total is every row the four tables hold that a run may look at: all
   * application logs, login history and audit rows, and the inactive sessions.
   */
  lemma StatisticsTotalRecords(
    configs: seq<AppConfiguration>, logs: seq<ApplicationLog>, logins: seq<UserLoginHistory>,
    audits: seq<UserAuditLog>, sessions: seq<UserSession>, now: int, cipher: Cipher)
    ensures TotalRecords(GetRetentionStatistics(configs, logs, logins, audits, sessions, now, cipher))
         == |logs| + |logins| + |audits| + |InactiveSessions(sessions)|
  {
  }

  /**
   * The oldest inactive session the statistics report is the earliest last activity of a
   * session that is not active, and there is one exactly when such a session exists.
   */
  lemma OldestInactiveSessionIsEarliest(
    configs: seq<AppConfiguration>, logs: seq<ApplicationLog>, logins: seq<UserLoginHistory>,
    audits: seq<UserAuditLog>, sessions: seq<UserSession>, now: int, cipher: Cipher)
    ensures var s := GetRetentionStatistics(configs, logs, logins, audits, sessions, now, cipher);
      && (s.oldestInactiveSession.None? <==> forall x :: x in sessions ==> x.isActive)
      && (s.oldestInactiveSession.Some? ==>
            && (exists x :: x in sessions && !x.isActive && x.lastActivityAt == s.oldestInactiveSession.value)
            && (forall x :: x in sessions && !x.isActive ==> s.oldestInactiveSession.value <= x.lastActivityAt))
  {
    var s := GetRetentionStatistics(configs, logs, logins, audits, sessions, now, cipher);
    var inactive := InactiveSessions(sessions);
    assert s.oldestInactiveSession == Earliest(inactive, LastActivityOf);
    EarliestOfMembers(inactive, LastActivityOf);
    if inactive != [] {
      assert inactive[0] in inactive;
    }
  }

  /**
   * A negative number of days makes the two disagree: the statistics report nothing to
   * delete, while the cleanup, whose cutoff then lies in the future, deletes every log
   * not newer than now.
   */
  lemma NegativeDaysDisagree(logs: seq<ApplicationLog>, now: int, days: int, x: ApplicationLog)
    requires days < 0 && x in logs && x.timestamp <= now
    ensures ToDelete(logs, LogTimestampOf, now, days) == 0
    ensures x !in Retained(logs, LogTimestampOf, now, days)
    ensures RemovedCount(logs, LogTimestampOf, now, days) > 0
  {
    assert x in logs && x !in Retained(logs, LogTimestampOf, now, days);
    if |Retained(logs, LogTimestampOf, now, days)| == |logs| {
      KeepAllOrMissing(logs, LogTimestampOf, Cutoff(now, days), x);
    }
  }

  /** A row of the table that the cleanup did not keep means at least one row was old. */
  lemma {:induction false} KeepAllOrMissing<T>(s: seq<T>, ts: T -> int, cutoff: int, x: T)
    requires x in s && ts(x) < cutoff
    ensures CountOlder(s, ts, cutoff) > 0
  {
    if s[0] != x {
      KeepAllOrMissing(s[1..], ts, cutoff, x);
    }
  }
}
