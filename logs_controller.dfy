/**
 * The admin area's `LogsController` over the `ApplicationLogs` table: the filtered,
 * newest-first, paginated list; the removal of old logs and of all logs; and the
 * plain-text download of the filtered list.
 *
 * The clock enters as `today`, the first second of the current day (`DateTime.Now.Date`),
 * and as `now`; the formatting of a timestamp in a download line is the parameter `fmt`.
 */
module LogsController {
  import opened Wrappers
  import opened Text
  import opened Domain
  import opened DbContext
  import opened Collections

  // ---------------------------------------------------------------- the filter

  /** The query parameters of `Index` and `Download` once the date range has its defaults. */
  datatype LogFilter = LogFilter(
    level: Option<string>,
    startDate: int,
    endDate: int,
    search: Option<string>)

  /** `string.IsNullOrEmpty`. */
  predicate IsNullOrEmpty(s: Option<string>) {
    s.None? || s.value == ""
  }

  /**
   * The default range: from the start of the day seven days ago to the last second of
   * today (`DateTime.Now.Date.AddDays(1).AddSeconds(-1)`).
   */
  function ResolveFilter(level: Option<string>, startDate: Option<int>, endDate: Option<int>,
                         search: Option<string>, today: int): (f: LogFilter)
    ensures f.level == level && f.search == search
    ensures startDate.Some? ==> f.startDate == startDate.value
    ensures endDate.Some? ==> f.endDate == endDate.value
  {
    LogFilter(level, startDate.GetOr(today - 7 * SecondsPerDay),
              endDate.GetOr(today + SecondsPerDay - 1), search)
  }

  /** The three `Where` clauses: exact level, inclusive date range, search in message or exception. */
  predicate Matches(l: ApplicationLog, f: LogFilter) {
    && (IsNullOrEmpty(f.level) || l.level == f.level.value)
    && f.startDate <= l.timestamp <= f.endDate
    && (IsNullOrEmpty(f.search)
        || Contains(l.message, f.search.value)
        || (l.exception.Some? && Contains(l.exception.value, f.search.value)))
  }

  /**
   * Without dates the filter keeps exactly the logs of the last seven days and of today,
   * as far as their other columns match.
   */
  lemma DefaultRangeIsLastWeekAndToday(l: ApplicationLog, level: Option<string>, search: Option<string>, today: int)
    ensures var f := ResolveFilter(level, None, None, search, today);
      f.startDate <= l.timestamp <= f.endDate
      <==> today - 7 * SecondsPerDay <= l.timestamp < today + SecondsPerDay
  {
  }

  /** The matching logs in table order. */
  function Filtered(t: seq<ApplicationLog>, f: LogFilter): (r: seq<ApplicationLog>)
    ensures |r| <= |t|
  {
    if t == [] then []
    else if Matches(t[0], f) then [t[0]] + Filtered(t[1..], f)
    else Filtered(t[1..], f)
  }

  /** The filter keeps each matching log as often as the table holds it, and drops the rest. */
  lemma {:induction false} FilteredCounts(t: seq<ApplicationLog>, f: LogFilter)
    ensures forall x :: multiset(Filtered(t, f))[x] == if Matches(x, f) then multiset(t)[x] else 0
  {
    if t != [] {
      assert t == [t[0]] + t[1..];
      FilteredCounts(t[1..], f);
    }
  }

  /** The query's result before pagination: `Where ... OrderByDescending(Timestamp)`. */
  function Results(t: seq<ApplicationLog>, f: LogFilter): seq<ApplicationLog> {
    SortDesc(Filtered(t, f), LogTimestampOf)
  }

  /**
   * The result holds every matching log as often as the table does, nothing else, newest
   * first.
   */
  lemma ResultsAreMatchesNewestFirst(t: seq<ApplicationLog>, f: LogFilter)
    ensures SortedDesc(Results(t, f), LogTimestampOf)
    ensures forall x :: multiset(Results(t, f))[x] == if Matches(x, f) then multiset(t)[x] else 0
    ensures forall x :: x in Results(t, f) <==> x in t && Matches(x, f)
  {
    var r := Results(t, f);
    FilteredCounts(t, f);
    forall x
      ensures x in r <==> x in t && Matches(x, f)
    {
      assert x in r <==> multiset(r)[x] > 0;
      assert x in t <==> multiset(t)[x] > 0;
    }
  }

  // ---------------------------------------------------------------- pagination

  /** `(int)Math.Ceiling((double)totalCount / pageSize)`, as the integer ceiling. */
  function TotalPages(count: nat, pageSize: int): (n: nat)
    requires pageSize >= 1
    ensures count <= n * pageSize
    ensures n == 0 || (n - 1) * pageSize < count
  {
    (count + pageSize - 1) / pageSize
  }

  /** `Skip(skip).Take(n)`: at most `n` results, from position `skip` on. */
  function Slice<T>(r: seq<T>, skip: nat, n: nat): (p: seq<T>)
    ensures |p| <= n
    ensures skip >= |r| ==> p == []
    ensures skip < |r| ==> |p| == (if skip + n <= |r| then n else |r| - skip)
    ensures forall k :: 0 <= k < |p| ==> skip + k < |r| && p[k] == r[skip + k]
  {
    if skip >= |r| then []
    else if skip + n <= |r| then r[skip..skip + n]
    else r[skip..]
  }

  /** `Skip((page - 1) * pageSize).Take(pageSize)`. */
  function Page<T>(r: seq<T>, page: int, pageSize: int): (p: seq<T>)
    requires page >= 1 && pageSize >= 1
    ensures |p| <= pageSize
  {
    Slice(r, (page - 1) * pageSize, pageSize)
  }

  /** The first `n` pages one after the other. */
  function PagesUpTo<T>(r: seq<T>, pageSize: int, n: nat): seq<T>
    requires pageSize >= 1
  {
    if n == 0 then [] else PagesUpTo(r, pageSize, n - 1) + Page(r, n, pageSize)
  }

  /** The first `m` results, or all of them when there are fewer. */
  function Prefix<T>(r: seq<T>, m: nat): seq<T> {
    r[..if m <= |r| then m else |r|]
  }

  /** The results before `skip` followed by the slice at `skip` are the results before `skip + n`. */
  lemma PrefixThenSlice<T>(r: seq<T>, skip: nat, n: nat)
    ensures Prefix(r, skip) + Slice(r, skip, n) == Prefix(r, skip + n)
  {
    if skip < |r| {
      var end := if skip + n <= |r| then skip + n else |r|;
      assert Slice(r, skip, n) == r[skip..end];
      assert r[..end] == r[..skip] + r[skip..end];
    }
  }

  /** `n * pageSize`, spelt out as repeated addition. */
  function Times(n: nat, pageSize: nat): nat {
    if n == 0 then 0 else Times(n - 1, pageSize) + pageSize
  }

  lemma {:induction false} TimesIsProduct(n: nat, pageSize: nat)
    ensures Times(n, pageSize) == n * pageSize
  {
    if n > 0 {
      TimesIsProduct(n - 1, pageSize);
    }
  }

  /** The first `n` pages are the first `n * pageSize` results. */
  lemma {:induction false} PagesUpToPrefix<T>(r: seq<T>, pageSize: int, n: nat)
    requires pageSize >= 1
    ensures PagesUpTo(r, pageSize, n) == Prefix(r, Times(n, pageSize))
  {
    if n > 0 {
      PagesUpToPrefix(r, pageSize, n - 1);
      TimesIsProduct(n - 1, pageSize);
      PrefixThenSlice(r, Times(n - 1, pageSize), pageSize);
    }
  }

  /** Browsing the pages 1 to `TotalPages` shows every result exactly once, in order. */
  lemma AllPagesShowAllResults<T>(r: seq<T>, pageSize: int)
    requires pageSize >= 1
    ensures PagesUpTo(r, pageSize, TotalPages(|r|, pageSize)) == r
  {
    var n := TotalPages(|r|, pageSize);
    PagesUpToPrefix(r, pageSize, n);
    TimesIsProduct(n, pageSize);
    assert r[..|r|] == r;
  }

  /** A page after the last one is empty. */
  lemma PageBeyondLastIsEmpty<T>(r: seq<T>, page: int, pageSize: int)
    requires pageSize >= 1 && page > TotalPages(|r|, pageSize)
    ensures Page(r, page, pageSize) == []
  {
    var n := TotalPages(|r|, pageSize);
    TimesIsProduct(page - 1, pageSize);
    TimesIsProduct(n, pageSize);
    TimesMonotone(page - 1, n, pageSize);
  }

  /** More pages cover at least as many results. */
  lemma {:induction false} TimesMonotone(a: nat, b: nat, pageSize: nat)
    requires b <= a
    ensures Times(b, pageSize) <= Times(a, pageSize)
    decreases a
  {
    if b < a {
      TimesMonotone(a - 1, b, pageSize);
    }
  }

  /** What `Index` hands to the view. */
  datatype LogPage = LogPage(
    logs: seq<ApplicationLog>,
    totalCount: nat,
    totalPages: nat,
    levels: set<string>)

  /**
   * `Index`: one page of the results, their count and page count, and all levels of the
   * table (whatever the filter).
   */
  function Index(t: seq<ApplicationLog>, f: LogFilter, page: int, pageSize: int): (r: LogPage)
    requires page >= 1 && pageSize >= 1
    ensures r.logs == Page(Results(t, f), page, pageSize)
    ensures r.totalCount == |Results(t, f)| && r.totalPages == TotalPages(r.totalCount, pageSize)
    ensures forall l :: l in r.levels <==> exists x :: x in t && x.level == l
  {
    var results := Results(t, f);
    LogPage(Page(results, page, pageSize), |results|, TotalPages(|results|, pageSize), set x | x in t :: x.level)
  }

  /** A slice of newest-first matching logs is itself newest first and matching. */
  lemma PageOfMatchesNewestFirst(r: seq<ApplicationLog>, t: seq<ApplicationLog>, f: LogFilter, page: int, pageSize: int)
    requires page >= 1 && pageSize >= 1
    requires SortedDesc(r, LogTimestampOf)
    requires forall x :: x in r ==> x in t && Matches(x, f)
    ensures var logs := Page(r, page, pageSize);
      && (forall x :: x in logs ==> x in t && Matches(x, f))
      && SortedDesc(logs, LogTimestampOf)
  {
    var logs := Page(r, page, pageSize);
    var skip := (page - 1) * pageSize;
    forall x | x in logs ensures x in t && Matches(x, f) {
      var k :| 0 <= k < |logs| && logs[k] == x;
      assert r[skip + k] in r;
    }
    forall i, j | 0 <= i < j < |logs| ensures logs[i].timestamp >= logs[j].timestamp {
      assert logs[i] == r[skip + i] && logs[j] == r[skip + j];
    }
  }

  /** The logs on a page of `Index` match the filter and come newest first. */
  lemma IndexPageMatchesNewestFirst(t: seq<ApplicationLog>, f: LogFilter, page: int, pageSize: int)
    requires page >= 1 && pageSize >= 1
    ensures var logs := Index(t, f, page, pageSize).logs;
      && (forall x :: x in logs ==> x in t && Matches(x, f))
      && SortedDesc(logs, LogTimestampOf)
  {
    ResultsAreMatchesNewestFirst(t, f);
    PageOfMatchesNewestFirst(Results(t, f), t, f, page, pageSize);
  }

  // ---------------------------------------------------------------- removal

  /**
   * `DeleteOldLogs`: removes the logs older than `days` days before `now` and reports
   * how many went.
   */
  method DeleteOldLogs(db: ApplicationDbContext, days: int, now: int) returns (deleted: nat)
    requires db.Valid()
    modifies db`applicationLogs
    ensures db.Valid()
    ensures db.applicationLogs == KeepNotOlder(old(db.applicationLogs), LogTimestampOf, now - days * SecondsPerDay)
    ensures deleted == CountOlder(old(db.applicationLogs), LogTimestampOf, now - days * SecondsPerDay)
  {
    var cutoff := now - days * SecondsPerDay;
    deleted := CountOlder(db.applicationLogs, LogTimestampOf, cutoff);
    db.applicationLogs := KeepNotOlder(db.applicationLogs, LogTimestampOf, cutoff);
  }

  /** Removing old logs a second time with the same cutoff removes nothing. */
  lemma {:induction false} DeleteOldLogsIdempotent(s: seq<ApplicationLog>, cutoff: int)
    ensures CountOlder(KeepNotOlder(s, LogTimestampOf, cutoff), LogTimestampOf, cutoff) == 0
    ensures KeepNotOlder(KeepNotOlder(s, LogTimestampOf, cutoff), LogTimestampOf, cutoff)
         == KeepNotOlder(s, LogTimestampOf, cutoff)
  {
    if s != [] {
      DeleteOldLogsIdempotent(s[1..], cutoff);
    }
  }

  /** `DeleteAll`: empties the table and reports how many logs it held. */
  method DeleteAll(db: ApplicationDbContext) returns (deleted: nat)
    requires db.Valid()
    modifies db`applicationLogs
    ensures db.Valid()
    ensures db.applicationLogs == [] && deleted == |old(db.applicationLogs)|
  {
    deleted := |db.applicationLogs|;
    db.applicationLogs := [];
  }

  // ---------------------------------------------------------------- download

  /** `StringBuilder.AppendLine` ends a line with `Environment.NewLine`, here "\n". */
  const NewLine := "\n"

  /** The header line of a log: timestamp, level in brackets, message. */
  function Header(l: ApplicationLog, fmt: int -> string): string {
    fmt(l.timestamp) + " [" + l.level + "] " + l.message
  }

  /** The text of one log: the header line, the exception if there is one, an empty line. */
  function Entry(l: ApplicationLog, fmt: int -> string): string {
    Header(l, fmt) + NewLine + (if !IsNullOrEmpty(l.exception) then l.exception.value + NewLine else "") + NewLine
  }

  /**
   * Each log's text starts with its header line and ends with a line break; the exception
   * text appears on its own line exactly when there is one.
   */
  lemma EntryLines(l: ApplicationLog, fmt: int -> string)
    ensures var e := Entry(l, fmt);
      && |e| > 0 && e[|e| - 1] == '\n'
      && StartsWith(e, Header(l, fmt) + NewLine)
      && (!IsNullOrEmpty(l.exception) ==> e[|Header(l, fmt) + NewLine|..] == l.exception.value + NewLine + NewLine)
      && (IsNullOrEmpty(l.exception) ==> e[|Header(l, fmt) + NewLine|..] == NewLine)
  {
    var head := Header(l, fmt) + NewLine;
    var body := if !IsNullOrEmpty(l.exception) then l.exception.value + NewLine else "";
    assert Entry(l, fmt) == head + (body + NewLine);
    assert (head + (body + NewLine))[..|head|] == head;
    assert (head + (body + NewLine))[|head|..] == body + NewLine;
  }

  /** The downloaded text of a list of logs: their entries one after the other. */
  function Export(logs: seq<ApplicationLog>, fmt: int -> string): string {
    ConcatMap(logs, l => Entry(l, fmt))
  }

  /** The export of two lists one after the other is the two exports one after the other. */
  lemma ExportAppend(a: seq<ApplicationLog>, b: seq<ApplicationLog>, fmt: int -> string)
    ensures Export(a + b, fmt) == Export(a, fmt) + Export(b, fmt)
  {
    ConcatMapAppend(a, b, l => Entry(l, fmt));
  }

  /** The export is empty exactly when there is no log to write. */
  lemma {:induction false} ExportEmptyIffNoLogs(logs: seq<ApplicationLog>, fmt: int -> string)
    ensures Export(logs, fmt) == "" <==> logs == []
  {
    if logs != [] {
      EntryLines(logs[|logs| - 1], fmt);
    }
  }

  /** The `StringBuilder` loop of `Download`: each log's lines appended in list order. */
  method WriteLogs(logs: seq<ApplicationLog>, fmt: int -> string) returns (text: string)
    ensures text == Export(logs, fmt)
  {
    text := "";
    var k := 0;
    while k < |logs|
      invariant 0 <= k <= |logs|
      invariant text == Export(logs[..k], fmt)
    {
      var log := logs[k];
      ghost var before := text;
      text := text + Header(log, fmt) + NewLine;
      if !IsNullOrEmpty(log.exception) {
        text := text + log.exception.value + NewLine;
      }
      text := text + NewLine;
      assert text == before + Entry(log, fmt);
      assert logs[..k + 1][..k] == logs[..k] && logs[..k + 1][k] == log;
      assert Export(logs[..k + 1], fmt) == Export(logs[..k], fmt) + Entry(log, fmt);
      k := k + 1;
    }
    assert logs[..k] == logs;
  }

  /**
   * `Download`: the same filter and order as `Index`, without pagination, written out log
   * by log.
   */
  method Download(t: seq<ApplicationLog>, f: LogFilter, fmt: int -> string) returns (text: string)
    ensures text == Export(Results(t, f), fmt)
  {
    var logs := Results(t, f);
    text := WriteLogs(logs, fmt);
  }
}
