/**
 * The admin `MaintenanceController`: the status page reads the three maintenance settings
 * with their defaults, and the three POST actions are short runs of `SetValueAsync`
 * calls. Each call saves on its own, so a run that fails part-way keeps the writes before
 * the failure; the action catches the error and reports it as an error toast.
 */
module MaintenanceController {
  import opened Wrappers
  import opened Domain
  import opened DbContext
  import opened ConfigurationService
  import opened RequestGates
  import Text

  const MessageKey := "Maintenance_Mode_Message"
  const EstimatedEndKey := "Maintenance_Mode_EstimatedEnd"
  const DefaultMessage := "We are currently performing scheduled maintenance. Please check back soon."

  /** What the status page shows. */
  datatype MaintenanceStatus = MaintenanceStatus(enabled: bool, message: string, estimatedEnd: string)

  /** `Index`: the flag or false, the message or the stock sentence, the estimated end or "". */
  function Index(t: seq<AppConfiguration>, cipher: Cipher): (s: MaintenanceStatus)
    ensures s.enabled == MaintenanceEnabled(t, cipher)
    ensures s.message == GetValue(t, MessageKey, cipher).GetOr(DefaultMessage)
    ensures s.estimatedEnd == GetValue(t, EstimatedEndKey, cipher).GetOr("")
  {
    MaintenanceStatus(
      MaintenanceEnabled(t, cipher),
      GetValue(t, MessageKey, cipher).GetOr(DefaultMessage),
      GetValue(t, EstimatedEndKey, cipher).GetOr(""))
  }

  /** With none of the three settings stored the page shows the defaults. */
  lemma IndexDefaults(t: seq<AppConfiguration>, cipher: Cipher)
    requires forall i :: 0 <= i < |t| ==> t[i].key !in {MaintenanceModeKey, MessageKey, EstimatedEndKey}
    ensures Index(t, cipher) == MaintenanceStatus(false, DefaultMessage, "")
  {
    assert forall i :: 0 <= i < |t| ==> t[i].key != MaintenanceModeKey;
    assert forall i :: 0 <= i < |t| ==> t[i].key != MessageKey;
    assert forall i :: 0 <= i < |t| ==> t[i].key != EstimatedEndKey;
  }

  // ---------------------------------------------------------------- runs of writes

  /** One `SetValueAsync(key, value)` call (no `modifiedBy`, so the row records "System"). */
  datatype Write = Write(key: string, value: string)

  /** The table after a run of writes, and the error that stopped it, if any. */
  datatype WriteRun = WriteRun(table: seq<AppConfiguration>, failure: Option<DbError>)

  /** The writes in order, stopping at the first one that fails; earlier writes stay saved. */
  function ApplyWrites(t: seq<AppConfiguration>, ws: seq<Write>, now: int, cipher: Cipher): (r: WriteRun)
    decreases |ws|
  {
    if ws == [] then WriteRun(t, None)
    else Continue(ApplyWrites(t, ws[..|ws| - 1], now, cipher), ws[|ws| - 1], now, cipher)
  }

  /** One more write after a run: skipped once the run has failed. */
  function Continue(prev: WriteRun, w: Write, now: int, cipher: Cipher): WriteRun {
    if prev.failure.Some? then prev
    else
      match Assigned(prev.table, w.key, w.value, None, now, cipher)
      case Err(e) => WriteRun(prev.table, Some(e))
      case Ok(next) => WriteRun(next, None)
  }

  /**
   * One `SetValue` call extending a run that has not failed: the run with the write
   * appended.
   */
  method Step(db: ApplicationDbContext, ghost t0: seq<AppConfiguration>, ghost done: seq<Write>, w: Write,
              now: int, cipher: Cipher)
    returns (ok: bool)
    requires db.Valid()
    requires ApplyWrites(t0, done, now, cipher) == WriteRun(db.appConfigurations, None)
    modifies db`appConfigurations
    ensures db.Valid()
    ensures ApplyWrites(t0, done + [w], now, cipher).table == db.appConfigurations
    ensures ok <==> ApplyWrites(t0, done + [w], now, cipher).failure.None?
  {
    assert (done + [w])[..|done + [w]| - 1] == done;
    var outcome := SetValue(db, w.key, w.value, None, now, cipher);
    ok := outcome.Done?;
  }

  /** The write `w` when `cond` holds, and no write otherwise. */
  function When(cond: bool, w: Write): seq<Write> {
    if cond then [w] else []
  }

  /** `if (cond) await SetValueAsync(...)`, extending a run that has not failed. */
  method StepWhen(db: ApplicationDbContext, ghost t0: seq<AppConfiguration>, ghost done: seq<Write>, cond: bool,
                  w: Write, now: int, cipher: Cipher)
    returns (ok: bool)
    requires db.Valid()
    requires ApplyWrites(t0, done, now, cipher) == WriteRun(db.appConfigurations, None)
    modifies db`appConfigurations
    ensures db.Valid()
    ensures ApplyWrites(t0, done + When(cond, w), now, cipher).table == db.appConfigurations
    ensures ok <==> ApplyWrites(t0, done + When(cond, w), now, cipher).failure.None?
  {
    if cond {
      ok := Step(db, t0, done, w, now, cipher);
    } else {
      assert done + When(cond, w) == done;
      ok := true;
    }
  }

  datatype Toast = Warning | Success | Error

  function EnableWrites(message: Option<string>, estimatedEnd: Option<string>): seq<Write> {
    [Write(MaintenanceModeKey, "true")]
    + When(message.Some? && message.value != "", Write(MessageKey, message.GetOr("")))
    + When(estimatedEnd.Some? && estimatedEnd.value != "", Write(EstimatedEndKey, estimatedEnd.GetOr("")))
  }

  function DisableWrites(): seq<Write> {
    [Write(MaintenanceModeKey, "false")]
  }

  function UpdateMessageWrites(message: Option<string>, estimatedEnd: Option<string>): seq<Write> {
    When(message.Some? && message.value != "", Write(MessageKey, message.GetOr("")))
    + When(estimatedEnd.Some?, Write(EstimatedEndKey, estimatedEnd.GetOr("")))
  }

  /**
   * `EnableMaintenance`: sets the flag to "true", then the message and the estimated end
   * when each is non-empty. A failure is caught and shown as an error toast.
   */
  method EnableMaintenance(db: ApplicationDbContext, message: Option<string>, estimatedEnd: Option<string>,
                           now: int, cipher: Cipher)
    returns (toast: Toast)
    requires db.Valid()
    modifies db`appConfigurations
    ensures db.Valid()
    ensures var run := ApplyWrites(old(db.appConfigurations), EnableWrites(message, estimatedEnd), now, cipher);
      db.appConfigurations == run.table && toast == (if run.failure.None? then Warning else Error)
  {
    ghost var t0 := db.appConfigurations;
    var setMessage := message.Some? && message.value != "";
    var setEnd := estimatedEnd.Some? && estimatedEnd.value != "";
    var w1 := Write(MaintenanceModeKey, "true");
    var w2 := Write(MessageKey, message.GetOr(""));
    var w3 := Write(EstimatedEndKey, estimatedEnd.GetOr(""));
    ghost var all := EnableWrites(message, estimatedEnd);
    assert all == [w1] + When(setMessage, w2) + When(setEnd, w3);
    var ok := Step(db, t0, [], w1, now, cipher);
    if !ok {
      NoMoreWrites(t0, [w1], When(setMessage, w2) + When(setEnd, w3), now, cipher);
      Text.ConcatAssoc([w1], When(setMessage, w2), When(setEnd, w3));
      return Error;
    }
    ok := StepWhen(db, t0, [w1], setMessage, w2, now, cipher);
    if !ok {
      NoMoreWrites(t0, [w1] + When(setMessage, w2), When(setEnd, w3), now, cipher);
      return Error;
    }
    ok := StepWhen(db, t0, [w1] + When(setMessage, w2), setEnd, w3, now, cipher);
    if !ok {
      return Error;
    }
    toast := Warning;
  }

  /** Some row of the table has the key. */
  predicate KnownKey(t: seq<AppConfiguration>, key: string) {
    exists i :: 0 <= i < |t| && t[i].key == key
  }

  /** Every write of the run names a key of the table. */
  predicate AllKnown(t: seq<AppConfiguration>, ws: seq<Write>) {
    forall k :: 0 <= k < |ws| ==> KnownKey(t, ws[k].key)
  }

  /** Two tables with the same key column know the same keys. */
  predicate SameKeys(t: seq<AppConfiguration>, r: seq<AppConfiguration>) {
    |r| == |t| && forall j :: 0 <= j < |t| ==> r[j].key == t[j].key
  }

  lemma SameKeysKnown(t: seq<AppConfiguration>, r: seq<AppConfiguration>, key: string)
    requires SameKeys(t, r)
    ensures KnownKey(t, key) <==> KnownKey(r, key)
  {
    if KnownKey(t, key) {
      var i :| 0 <= i < |t| && t[i].key == key;
      assert r[i].key == key;
    }
    if KnownKey(r, key) {
      var i :| 0 <= i < |r| && r[i].key == key;
      assert t[i].key == key;
    }
  }

  /** A run rewrites values only: the rows and their keys stay, and keys stay unique. */
  lemma {:induction false} RunKeepsKeys(t: seq<AppConfiguration>, ws: seq<Write>, now: int, cipher: Cipher)
    ensures SameKeys(t, ApplyWrites(t, ws, now, cipher).table)
    ensures UniqueKeys(t) ==> UniqueKeys(ApplyWrites(t, ws, now, cipher).table)
    decreases |ws|
  {
    if ws != [] {
      var front := ws[..|ws| - 1];
      RunKeepsKeys(t, front, now, cipher);
      var prev := ApplyWrites(t, front, now, cipher);
      var w := ws[|ws| - 1];
      if prev.failure.None? && Assigned(prev.table, w.key, w.value, None, now, cipher).Ok? {
        var next := Assigned(prev.table, w.key, w.value, None, now, cipher).value;
        assert SameKeys(prev.table, next);
        if UniqueKeys(t) {
          AssignedKeepsKeys(prev.table, w.key, w.value, None, now, cipher);
        }
      }
    }
  }

  lemma AllKnownSnoc(t: seq<AppConfiguration>, front: seq<Write>, w: Write)
    ensures AllKnown(t, front + [w]) <==> AllKnown(t, front) && KnownKey(t, w.key)
  {
    var ws := front + [w];
    assert forall k :: 0 <= k < |front| ==> ws[k] == front[k];
    assert ws[|front|] == w;
  }

  /** The writes of `EnableMaintenance` name only the three maintenance settings. */
  lemma EnableWritesKnown(t: seq<AppConfiguration>, message: Option<string>, estimatedEnd: Option<string>)
    requires KnownKey(t, MaintenanceModeKey) && KnownKey(t, MessageKey) && KnownKey(t, EstimatedEndKey)
    ensures AllKnown(t, EnableWrites(message, estimatedEnd))
    ensures forall k :: 1 <= k < |EnableWrites(message, estimatedEnd)| ==>
      EnableWrites(message, estimatedEnd)[k].key != MaintenanceModeKey
  {
    var ws := EnableWrites(message, estimatedEnd);
    assert forall k :: 0 <= k < |ws| ==> ws[k].key in {MaintenanceModeKey, MessageKey, EstimatedEndKey};
    assert forall k :: 1 <= k < |ws| ==> ws[k].key in {MessageKey, EstimatedEndKey};
  }

  /** A run gets through exactly when each of its writes names a key of the table. */
  lemma {:induction false} RunSucceedsOnKnownKeys(t: seq<AppConfiguration>, ws: seq<Write>, now: int, cipher: Cipher)
    ensures ApplyWrites(t, ws, now, cipher).failure.None? <==> AllKnown(t, ws)
    decreases |ws|
  {
    if ws != [] {
      var front := ws[..|ws| - 1];
      RunSucceedsOnKnownKeys(t, front, now, cipher);
      var prev := ApplyWrites(t, front, now, cipher);
      var w := ws[|ws| - 1];
      assert ws == front + [w];
      assert ApplyWrites(t, ws, now, cipher) == Continue(prev, w, now, cipher);
      AllKnownSnoc(t, front, w);
      if prev.failure.None? {
        RunKeepsKeys(t, front, now, cipher);
        SameKeysKnown(t, prev.table, w.key);
        var r := Assigned(prev.table, w.key, w.value, None, now, cipher);
        assert r.Err? <==> !KnownKey(prev.table, w.key);
      }
    }
  }

  /** Once a run has failed, further writes change nothing. */
  lemma {:induction false} NoMoreWrites(t: seq<AppConfiguration>, done: seq<Write>, rest: seq<Write>, now: int, cipher: Cipher)
    requires ApplyWrites(t, done, now, cipher).failure.Some?
    ensures ApplyWrites(t, done + rest, now, cipher) == ApplyWrites(t, done, now, cipher)
    decreases |rest|
  {
    if rest == [] {
      assert done + rest == done;
    } else {
      var front := rest[..|rest| - 1];
      NoMoreWrites(t, done, front, now, cipher);
      assert (done + rest)[..|done + rest| - 1] == done + front;
    }
  }

  /** `DisableMaintenance`: sets the flag to "false"; a failure is shown as an error toast. */
  method DisableMaintenance(db: ApplicationDbContext, now: int, cipher: Cipher) returns (toast: Toast)
    requires db.Valid()
    modifies db`appConfigurations
    ensures db.Valid()
    ensures var run := ApplyWrites(old(db.appConfigurations), DisableWrites(), now, cipher);
      db.appConfigurations == run.table && toast == (if run.failure.None? then Success else Error)
  {
    var ok := Step(db, db.appConfigurations, [], Write(MaintenanceModeKey, "false"), now, cipher);
    toast := if ok then Success else Error;
  }

  /**
   * `UpdateMessage`: writes the message when it is non-empty and the estimated end
   * whenever it is given at all, so an empty estimated end clears the stored one.
   */
  method UpdateMessage(db: ApplicationDbContext, message: Option<string>, estimatedEnd: Option<string>,
                       now: int, cipher: Cipher)
    returns (toast: Toast)
    requires db.Valid()
    modifies db`appConfigurations
    ensures db.Valid()
    ensures var run := ApplyWrites(old(db.appConfigurations), UpdateMessageWrites(message, estimatedEnd), now, cipher);
      db.appConfigurations == run.table && toast == (if run.failure.None? then Success else Error)
  {
    ghost var t0 := db.appConfigurations;
    var setMessage := message.Some? && message.value != "";
    var w1 := Write(MessageKey, message.GetOr(""));
    var w2 := Write(EstimatedEndKey, estimatedEnd.GetOr(""));
    assert [] + When(setMessage, w1) == When(setMessage, w1);
    var ok := StepWhen(db, t0, [], setMessage, w1, now, cipher);
    if !ok {
      NoMoreWrites(t0, When(setMessage, w1), When(estimatedEnd.Some?, w2), now, cipher);
      return Error;
    }
    ok := StepWhen(db, t0, When(setMessage, w1), estimatedEnd.Some?, w2, now, cipher);
    if !ok {
      return Error;
    }
    toast := Success;
  }

  // ---------------------------------------------------------------- what the actions achieve

  /** With all three settings present, enabling succeeds and the maintenance gate closes. */
  lemma EnableClosesSite(
    t: seq<AppConfiguration>, message: Option<string>, estimatedEnd: Option<string>, now: int, cipher: Cipher)
    requires UniqueKeys(t) && RoundTrips(cipher)
    requires KnownKey(t, MaintenanceModeKey) && KnownKey(t, MessageKey) && KnownKey(t, EstimatedEndKey)
    ensures var run := ApplyWrites(t, EnableWrites(message, estimatedEnd), now, cipher);
      run.failure.None? && MaintenanceEnabled(run.table, cipher)
  {
    EnableWritesKnown(t, message, estimatedEnd);
    RunSucceedsOnKnownKeys(t, EnableWrites(message, estimatedEnd), now, cipher);
    EnableSetsFlag(t, message, estimatedEnd, now, cipher);
  }

  /** The first write of enabling sets the flag and the two later writes leave it set. */
  lemma EnableSetsFlag(
    t: seq<AppConfiguration>, message: Option<string>, estimatedEnd: Option<string>, now: int, cipher: Cipher)
    requires UniqueKeys(t) && RoundTrips(cipher)
    requires KnownKey(t, MaintenanceModeKey)
    ensures MaintenanceEnabled(ApplyWrites(t, EnableWrites(message, estimatedEnd), now, cipher).table, cipher)
  {
    var ws := EnableWrites(message, estimatedEnd);
    var first := [Write(MaintenanceModeKey, "true")];
    EnableWritesShape(message, estimatedEnd);
    FlagWritten(t, true, now, cipher);
    SingleWrite(t, first[0], now, cipher);
    var t1 := ApplyWrites(t, first, now, cipher).table;
    RunKeepsKeys(t, first, now, cipher);
    LaterWritesKeepFlag(t1, ws[1..], now, cipher);
    RunSplit(t, first, ws[1..], now, cipher);
  }

  /** Enabling writes the flag first and only the message and end time after it. */
  lemma EnableWritesShape(message: Option<string>, estimatedEnd: Option<string>)
    ensures var ws := EnableWrites(message, estimatedEnd);
      && [Write(MaintenanceModeKey, "true")] + ws[1..] == ws
      && forall k :: 0 <= k < |ws[1..]| ==> ws[1..][k].key != MaintenanceModeKey
  {
    var ws := EnableWrites(message, estimatedEnd);
    var rest := ws[1..];
    assert forall k :: 0 <= k < |rest| ==> rest[k].key == MessageKey || rest[k].key == EstimatedEndKey;
    assert MessageKey != MaintenanceModeKey && EstimatedEndKey != MaintenanceModeKey by {
      assert MessageKey[17] != MaintenanceModeKey[17] && |EstimatedEndKey| != |MaintenanceModeKey|;
    }
  }

  /** With the flag present, disabling succeeds and the gate lets every request through. */
  lemma DisableOpensSite(t: seq<AppConfiguration>, now: int, cipher: Cipher, path: Option<string>, user: Option<ApplicationUser>)
    requires UniqueKeys(t) && RoundTrips(cipher)
    requires KnownKey(t, MaintenanceModeKey)
    ensures var run := ApplyWrites(t, DisableWrites(), now, cipher);
      run.failure.None? && !MaintenanceEnabled(run.table, cipher)
      && MaintenanceGate(MaintenanceEnabled(run.table, cipher), path, user) == Pass
  {
    FlagWritten(t, false, now, cipher);
    SingleWrite(t, DisableWrites()[0], now, cipher);
  }

  /** A run of one write is that one `SetValue`. */
  lemma SingleWrite(t: seq<AppConfiguration>, w: Write, now: int, cipher: Cipher)
    ensures var r := Assigned(t, w.key, w.value, None, now, cipher);
      ApplyWrites(t, [w], now, cipher) == (if r.Ok? then WriteRun(r.value, None) else WriteRun(t, Some(r.error)))
  {
    assert [w][..0] == [];
  }

  /** Writing "true" or "false" to the flag switches maintenance on or off. */
  lemma FlagWritten(t: seq<AppConfiguration>, on: bool, now: int, cipher: Cipher)
    requires UniqueKeys(t) && RoundTrips(cipher)
    requires KnownKey(t, MaintenanceModeKey)
    ensures var r := Assigned(t, MaintenanceModeKey, if on then "true" else "false", None, now, cipher);
      r.Ok? && MaintenanceEnabled(r.value, cipher) == on
  {
    SetBoolThenGetBool(t, MaintenanceModeKey, on, None, now, cipher);
  }

  /** Writes to other keys leave the flag as it is read. */
  lemma {:induction false} LaterWritesKeepFlag(t: seq<AppConfiguration>, ws: seq<Write>, now: int, cipher: Cipher)
    requires UniqueKeys(t)
    requires forall k :: 0 <= k < |ws| ==> ws[k].key != MaintenanceModeKey
    ensures MaintenanceEnabled(ApplyWrites(t, ws, now, cipher).table, cipher) == MaintenanceEnabled(t, cipher)
    decreases |ws|
  {
    if ws != [] {
      var front := ws[..|ws| - 1];
      var w := ws[|ws| - 1];
      LaterWritesKeepFlag(t, front, now, cipher);
      RunKeepsKeys(t, front, now, cipher);
      var prev := ApplyWrites(t, front, now, cipher);
      if prev.failure.None? && Assigned(prev.table, w.key, w.value, None, now, cipher).Ok? {
        SetKeepsOtherKeys(prev.table, w.key, w.value, None, now, cipher, MaintenanceModeKey);
      }
    }
  }

  /** A run of `a + b` is the run of `a` followed, if it did not fail, by the run of `b`. */
  lemma {:induction false} RunSplit(t: seq<AppConfiguration>, a: seq<Write>, b: seq<Write>, now: int, cipher: Cipher)
    ensures var ra := ApplyWrites(t, a, now, cipher);
      ApplyWrites(t, a + b, now, cipher)
        == (if ra.failure.Some? then ra else ApplyWrites(ra.table, b, now, cipher))
    decreases |b|
  {
    if b == [] {
      assert a + b == a;
    } else {
      var front := b[..|b| - 1];
      RunSplit(t, a, front, now, cipher);
      var last := b[|b| - 1];
      assert (a + b)[..|a + b| - 1] == a + front;
      assert (a + b)[|a + b| - 1] == last;
      assert ApplyWrites(t, a + b, now, cipher) == Continue(ApplyWrites(t, a + front, now, cipher), last, now, cipher);
      var ra := ApplyWrites(t, a, now, cipher);
      if ra.failure.Some? {
        NoMoreWrites(t, a, b, now, cipher);
      } else {
        assert ApplyWrites(ra.table, b, now, cipher) == Continue(ApplyWrites(ra.table, front, now, cipher), last, now, cipher);
      }
    }
  }

  /**
   * An empty message leaves the stored message alone; an empty estimated end clears it.
   * This is what the action does with the arguments it receives. The standard form binding
   * converts an empty form field to null, so a browser form post never passes the empty
   * end, and from the page the end can only be replaced, not cleared; the binding is not
   * part of this model.
   */
  lemma UpdateMessageClearsEnd(t: seq<AppConfiguration>, now: int, cipher: Cipher)
    requires UniqueKeys(t) && RoundTrips(cipher)
    requires KnownKey(t, EstimatedEndKey)
    ensures var run := ApplyWrites(t, UpdateMessageWrites(Some(""), Some("")), now, cipher);
      && run.failure.None?
      && Index(run.table, cipher).estimatedEnd == ""
      && Index(run.table, cipher).message == Index(t, cipher).message
  {
    var ws := UpdateMessageWrites(Some(""), Some(""));
    assert ws == [Write(EstimatedEndKey, "")];
    assert ws[..0] == [];
    SetThenGet(t, EstimatedEndKey, "", None, now, cipher);
    SetKeepsOtherKeys(t, EstimatedEndKey, "", None, now, cipher, MessageKey);
  }
}
