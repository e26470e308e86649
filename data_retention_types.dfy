/**
 * The records `IDataRetentionService` exchanges: the retention settings, the result of a
 * cleanup run and the statistics of what a run would delete, with their computed totals.
 */
module DataRetentionTypes {
  import opened Wrappers

  /** Retention periods in days (0 keeps a table forever) and the automatic-cleanup switch. */
  datatype DataRetentionConfiguration = DataRetentionConfiguration(
    applicationLogsDays: int,
    loginHistoryDays: int,
    auditLogsDays: int,
    inactiveSessionsDays: int,
    enableAutoCleanup: bool)

  /** The rows one cleanup run deleted per table, and when it ran. */
  datatype DataRetentionResult = DataRetentionResult(
    applicationLogsDeleted: int,
    loginHistoryDeleted: int,
    auditLogsDeleted: int,
    inactiveSessionsDeleted: int,
    executedAt: int)

  /** `new DataRetentionResult { ExecutedAt = now }`: every count at its default of 0. */
  function FreshResult(executedAt: int): (r: DataRetentionResult)
    ensures TotalDeleted(r) == 0 && r.executedAt == executedAt
  {
    DataRetentionResult(0, 0, 0, 0, executedAt)
  }

  /** `TotalDeleted`: the four deleted counts added up. */
  function TotalDeleted(r: DataRetentionResult): int {
    r.applicationLogsDeleted + r.loginHistoryDeleted + r.auditLogsDeleted + r.inactiveSessionsDeleted
  }

  /** Per table: the rows a run would delete, all rows, and the oldest timestamp. */
  datatype DataRetentionStatistics = DataRetentionStatistics(
    applicationLogsToDelete: int,
    applicationLogsTotal: int,
    oldestApplicationLog: Option<int>,
    loginHistoryToDelete: int,
    loginHistoryTotal: int,
    oldestLoginHistory: Option<int>,
    auditLogsToDelete: int,
    auditLogsTotal: int,
    oldestAuditLog: Option<int>,
    inactiveSessionsToDelete: int,
    inactiveSessionsTotal: int,
    oldestInactiveSession: Option<int>)

  /** `TotalToDelete`: the four to-delete counts added up. */
  function TotalToDelete(s: DataRetentionStatistics): int {
    s.applicationLogsToDelete + s.loginHistoryToDelete + s.auditLogsToDelete + s.inactiveSessionsToDelete
  }

  /** `TotalRecords`: the four table sizes added up. */
  function TotalRecords(s: DataRetentionStatistics): int {
    s.applicationLogsTotal + s.loginHistoryTotal + s.auditLogsTotal + s.inactiveSessionsTotal
  }
}
