/**
 * `ConfigurationService`: the key/value settings table. Reads look a key up and
 * decrypt encrypted values; typed reads convert the text and fall back to null;
 * a category read collects a dictionary; the setter refuses unknown keys and
 * encrypts the value when the row is marked encrypted.
 *
 * AES with the application's fixed key is not modelled: it is a `Cipher`, a pair of
 * functions, and the round-trip property of AES is the predicate `RoundTrips`.
 */
module ConfigurationService {
  import opened Wrappers
  import opened Text
  import opened Domain
  import opened DbContext

  /** `EncryptString` and `DecryptString`; decryption of malformed text throws, here `None`. */
  datatype Cipher = Cipher(encrypt: string -> string, decrypt: string -> Option<string>)

  /** Encrypting a non-empty value gives non-empty text that decrypts back to the value. */
  ghost predicate RoundTrips(c: Cipher) {
    forall v :: v != "" ==> c.encrypt(v) != "" && c.decrypt(c.encrypt(v)) == Some(v)
  }

  // ---------------------------------------------------------------- lookups

  /** `FirstOrDefaultAsync(c => c.Key == key)`: the index of the first row with the key. */
  function FindConfig(t: seq<AppConfiguration>, key: string): (r: Option<nat>)
    ensures r.None? <==> forall i :: 0 <= i < |t| ==> t[i].key != key
    ensures r.Some? ==> r.value < |t| && t[r.value].key == key
    ensures r.Some? ==> forall j :: 0 <= j < r.value ==> t[j].key != key
  {
    if t == [] then None
    else if t[0].key == key then Some(0)
    else
      match FindConfig(t[1..], key)
      case None => None
      case Some(i) => Some(i + 1)
  }

  /** The value `GetValueAsync` reads from a row: decrypted when encrypted and non-empty. */
  function Plain(row: AppConfiguration, cipher: Cipher): Option<string> {
    if row.isEncrypted && row.value != "" then cipher.decrypt(row.value) else Some(row.value)
  }

  /** `GetValueAsync(key)`: null for a missing key or a value that fails to decrypt. */
  function GetValue(t: seq<AppConfiguration>, key: string, cipher: Cipher): (r: Option<string>)
    ensures (forall i :: 0 <= i < |t| ==> t[i].key != key) ==> r.None?
    ensures forall i :: 0 <= i < |t| && t[i].key == key && UniqueKeys(t) ==> r == Plain(t[i], cipher)
  {
    match FindConfig(t, key)
    case None => None
    case Some(i) => Plain(t[i], cipher)
  }

  /**
   * `GetValueAsync<int>(key)`: null when the value is missing or empty, otherwise what the
   * integer parser makes of it (null for text that is not a 32-bit integer).
   */
  function GetInt(t: seq<AppConfiguration>, key: string, cipher: Cipher): (r: Option<int>)
    ensures GetValue(t, key, cipher) in {None, Some("")} ==> r.None?
    ensures GetValue(t, key, cipher).Some? && GetValue(t, key, cipher).value != "" ==>
      r == ParseInt(GetValue(t, key, cipher).value)
    ensures r.Some? ==> InInt32(r.value)
  {
    match GetValue(t, key, cipher)
    case None => None
    case Some(v) => if v == "" then None else ParseInt(v)
  }

  /**
   * `GetValueAsync<bool>(key)`: null when the value is missing or empty, otherwise what the
   * boolean parser makes of it (null for text that is not a boolean literal).
   */
  function GetBool(t: seq<AppConfiguration>, key: string, cipher: Cipher): (r: Option<bool>)
    ensures GetValue(t, key, cipher) in {None, Some("")} ==> r.None?
    ensures GetValue(t, key, cipher).Some? && GetValue(t, key, cipher).value != "" ==>
      r == ParseBool(GetValue(t, key, cipher).value)
  {
    match GetValue(t, key, cipher)
    case None => None
    case Some(v) => if v == "" then None else ParseBool(v)
  }

  // ---------------------------------------------------------------- reading a category

  /** `Where(c => c.Category == category)`, in table order. */
  function InCategory(t: seq<AppConfiguration>, category: string): (r: seq<AppConfiguration>)
    ensures forall x :: x in r ==> x in t && x.category == category
    ensures forall x :: x in t && x.category == category ==> x in r
  {
    if t == [] then []
    else if t[0].category == category then [t[0]] + InCategory(t[1..], category)
    else InCategory(t[1..], category)
  }

  /** The dictionary value of one row: decrypted, or "" when decryption fails. */
  function CategoryValue(row: AppConfiguration, cipher: Cipher): string {
    if row.isEncrypted && row.value != "" then cipher.decrypt(row.value).GetOr("") else row.value
  }

  /** `result[config.Key] = value` for each row in order: a later row with the same key wins. */
  function Collect(rows: seq<AppConfiguration>, cipher: Cipher): (m: map<string, string>)
    ensures forall k :: k in m ==> exists i :: 0 <= i < |rows| && rows[i].key == k
    ensures forall i :: 0 <= i < |rows| ==> rows[i].key in m
  {
    if rows == [] then map[]
    else
      var last := rows[|rows| - 1];
      var m := Collect(rows[..|rows| - 1], cipher);
      assert forall i :: 0 <= i < |rows| - 1 ==> rows[..|rows| - 1][i] == rows[i];
      m[last.key := CategoryValue(last, cipher)]
  }

  /** Collecting one row more sets that row's key last. */
  lemma CollectSnoc(rows: seq<AppConfiguration>, i: nat, cipher: Cipher)
    requires i < |rows|
    ensures Collect(rows[..i + 1], cipher) == Collect(rows[..i], cipher)[rows[i].key := CategoryValue(rows[i], cipher)]
  {
    assert rows[..i + 1][..i] == rows[..i];
  }

  /** The reference meaning of `GetCategoryAsync(category)`. */
  function CategoryMap(t: seq<AppConfiguration>, category: string, cipher: Cipher): map<string, string> {
    Collect(InCategory(t, category), cipher)
  }

  /** `GetCategoryAsync(category)`: the loop that fills the dictionary. */
  method GetCategory(db: ApplicationDbContext, category: string, cipher: Cipher)
    returns (result: map<string, string>)
    ensures result == CategoryMap(db.appConfigurations, category, cipher)
  {
    var configs := InCategory(db.appConfigurations, category);
    result := map[];
    var i := 0;
    while i < |configs|
      invariant 0 <= i <= |configs|
      invariant result == Collect(configs[..i], cipher)
    {
      var config := configs[i];
      var value := config.value;
      if config.isEncrypted && value != "" {
        match cipher.decrypt(value)
        case Some(plain) => value := plain;
        case None => value := "";
      }
      CollectSnoc(configs, i, cipher);
      result := result[config.key := value];
      i := i + 1;
    }
    assert configs[..i] == configs;
  }

  /** The category dictionary has exactly the keys of the rows in the category. */
  lemma CategoryMapKeys(t: seq<AppConfiguration>, category: string, cipher: Cipher, k: string)
    ensures k in CategoryMap(t, category, cipher) <==>
      exists i :: 0 <= i < |t| && t[i].category == category && t[i].key == k
  {
    var rows := InCategory(t, category);
    if k in CategoryMap(t, category, cipher) {
      var i :| 0 <= i < |rows| && rows[i].key == k;
      assert rows[i] in t;
    }
    if exists i :: 0 <= i < |t| && t[i].category == category && t[i].key == k {
      var i :| 0 <= i < |t| && t[i].category == category && t[i].key == k;
      assert t[i] in rows;
    }
  }

  /** Rows with distinct keys keep their own values in the dictionary. */
  lemma {:induction false} CollectValue(rows: seq<AppConfiguration>, cipher: Cipher, i: nat)
    requires UniqueKeys(rows)
    requires i < |rows|
    ensures Collect(rows, cipher)[rows[i].key] == CategoryValue(rows[i], cipher)
  {
    if i < |rows| - 1 {
      var init := rows[..|rows| - 1];
      assert init[i] == rows[i];
      assert UniqueKeys(init) by {
        forall a, b | 0 <= a < b < |init| ensures init[a].key != init[b].key {
          assert init[a] == rows[a] && init[b] == rows[b];
        }
      }
      CollectValue(init, cipher, i);
      assert rows[|rows| - 1].key != rows[i].key;
    }
  }

  /** Filtering a table with unique keys keeps them unique. */
  lemma {:induction false} InCategoryUnique(t: seq<AppConfiguration>, category: string)
    requires UniqueKeys(t)
    ensures UniqueKeys(InCategory(t, category))
  {
    if t != [] {
      assert UniqueKeys(t[1..]) by {
        forall a, b | 0 <= a < b < |t[1..]| ensures t[1..][a].key != t[1..][b].key {
          assert t[1..][a] == t[a + 1] && t[1..][b] == t[b + 1];
        }
      }
      InCategoryUnique(t[1..], category);
      var rest := InCategory(t[1..], category);
      if t[0].category == category {
        forall k | 0 <= k < |rest| ensures rest[k].key != t[0].key {
          assert rest[k] in t[1..];
          var j :| 0 <= j < |t[1..]| && t[1..][j] == rest[k];
          assert t[j + 1] == rest[k];
        }
        assert InCategory(t, category) == [t[0]] + rest;
      }
    }
  }

  /**
   * Every row of the category appears under its key with its plain value, and a value
   * that fails to decrypt appears as "" rather than failing the whole read.
   */
  lemma CategoryMapValue(t: seq<AppConfiguration>, category: string, cipher: Cipher, i: nat)
    requires UniqueKeys(t)
    requires i < |t| && t[i].category == category
    ensures t[i].key in CategoryMap(t, category, cipher)
    ensures CategoryMap(t, category, cipher)[t[i].key] ==
      if t[i].isEncrypted && t[i].value != "" then cipher.decrypt(t[i].value).GetOr("") else t[i].value
  {
    var rows := InCategory(t, category);
    InCategoryUnique(t, category);
    assert t[i] in rows;
    var j :| 0 <= j < |rows| && rows[j] == t[i];
    CollectValue(rows, cipher, j);
  }

  // ---------------------------------------------------------------- writing

  /** The text `SetValueAsync` stores for `value` in `row`. */
  function Stored(row: AppConfiguration, value: string, cipher: Cipher): string {
    if row.isEncrypted && value != "" then cipher.encrypt(value) else value
  }

  /** The table after `SetValueAsync(key, value, modifiedBy)` at time `now`, or KeyNotFound. */
  function Assigned(
    t: seq<AppConfiguration>, key: string, value: string, modifiedBy: Option<string>, now: int, cipher: Cipher)
    : (r: Result<seq<AppConfiguration>, DbError>)
    ensures r.Err? <==> forall i :: 0 <= i < |t| ==> t[i].key != key
    ensures r.Err? ==> r.error == KeyNotFound(key)
    ensures r.Ok? ==> |r.value| == |t|
    ensures r.Ok? ==> forall j :: 0 <= j < |t| ==>
      && r.value[j].key == t[j].key && r.value[j].category == t[j].category
      && r.value[j].isEncrypted == t[j].isEncrypted && r.value[j].description == t[j].description
    ensures r.Ok? ==> forall j :: 0 <= j < |t| && t[j].key != key ==> r.value[j] == t[j]
    ensures r.Ok? ==> forall j :: 0 <= j < |t| && t[j].key == key && UniqueKeys(t) ==>
      && r.value[j].lastModified == now
      && r.value[j].lastModifiedBy == Some(modifiedBy.GetOr("System"))
      && (RoundTrips(cipher) ==> Plain(r.value[j], cipher) == Some(value))
  {
    match FindConfig(t, key)
    case None => Err(KeyNotFound(key))
    case Some(i) =>
      var row := t[i];
      Ok(t[i := row.(value := Stored(row, value, cipher), lastModified := now,
                     lastModifiedBy := Some(modifiedBy.GetOr("System")))])
  }

  /**
   * `SetValueAsync(key, value, modifiedBy)`: updates the row with the key in place, or
   * throws `KeyNotFoundException` and changes nothing.
   */
  method SetValue(db: ApplicationDbContext, key: string, value: string, modifiedBy: Option<string>,
                  now: int, cipher: Cipher)
    returns (outcome: Outcome<DbError>)
    requires db.Valid()
    modifies db`appConfigurations
    ensures db.Valid()
    ensures outcome.Failed? <==> Assigned(old(db.appConfigurations), key, value, modifiedBy, now, cipher).Err?
    ensures outcome.Failed? ==> outcome.error == KeyNotFound(key) && db.appConfigurations == old(db.appConfigurations)
    ensures outcome.Done? ==>
      db.appConfigurations == Assigned(old(db.appConfigurations), key, value, modifiedBy, now, cipher).value
  {
    var found := FindConfig(db.appConfigurations, key);
    if found.None? {
      return Failed(KeyNotFound(key));
    }
    var i := found.value;
    var config := db.appConfigurations[i];
    var stored := value;
    if config.isEncrypted && value != "" {
      stored := cipher.encrypt(value);
    }
    var updated := Assigned(db.appConfigurations, key, value, modifiedBy, now, cipher).value;
    db.appConfigurations := db.appConfigurations[i := config.(value := stored, lastModified := now,
                                                              lastModifiedBy := Some(modifiedBy.GetOr("System")))];
    assert db.appConfigurations == updated;
    assert UniqueKeys(db.appConfigurations) by {
      forall a, b | 0 <= a < b < |updated| ensures updated[a].key != updated[b].key {
      }
    }
    outcome := Done;
  }

  // ---------------------------------------------------------------- properties of the store

  /** Writing a key never changes which keys exist, so the keys stay unique. */
  lemma AssignedKeepsKeys(
    t: seq<AppConfiguration>, key: string, value: string, modifiedBy: Option<string>, now: int, cipher: Cipher)
    requires UniqueKeys(t)
    requires Assigned(t, key, value, modifiedBy, now, cipher).Ok?
    ensures UniqueKeys(Assigned(t, key, value, modifiedBy, now, cipher).value)
  {
    var r := Assigned(t, key, value, modifiedBy, now, cipher).value;
    forall a, b | 0 <= a < b < |r| ensures r[a].key != r[b].key {
    }
  }

  /** Round trip: after `SetValue(key, value)` succeeds, `GetValue(key)` reads `value`. */
  lemma SetThenGet(
    t: seq<AppConfiguration>, key: string, value: string, modifiedBy: Option<string>, now: int, cipher: Cipher)
    requires UniqueKeys(t) && RoundTrips(cipher)
    requires Assigned(t, key, value, modifiedBy, now, cipher).Ok?
    ensures GetValue(Assigned(t, key, value, modifiedBy, now, cipher).value, key, cipher) == Some(value)
  {
    var r := Assigned(t, key, value, modifiedBy, now, cipher).value;
    AssignedKeepsKeys(t, key, value, modifiedBy, now, cipher);
    var i := FindConfig(t, key).value;
    assert r[i].key == key;
  }

  /** Writing one key leaves the reading of every other key as it was. */
  lemma SetKeepsOtherKeys(
    t: seq<AppConfiguration>, key: string, value: string, modifiedBy: Option<string>, now: int,
    cipher: Cipher, other: string)
    requires UniqueKeys(t)
    requires Assigned(t, key, value, modifiedBy, now, cipher).Ok?
    requires other != key
    ensures GetValue(Assigned(t, key, value, modifiedBy, now, cipher).value, other, cipher) == GetValue(t, other, cipher)
  {
    var r := Assigned(t, key, value, modifiedBy, now, cipher).value;
    AssignedKeepsKeys(t, key, value, modifiedBy, now, cipher);
    match FindConfig(t, other)
    case None =>
    case Some(i) =>
      assert r[i] == t[i];
  }

  /** Writing the decimal text of a 32-bit integer makes the typed read return that integer. */
  lemma SetIntThenGetInt(
    t: seq<AppConfiguration>, key: string, n: int, modifiedBy: Option<string>, now: int, cipher: Cipher)
    requires UniqueKeys(t) && RoundTrips(cipher) && InInt32(n)
    requires Assigned(t, key, FormatInt(n), modifiedBy, now, cipher).Ok?
    ensures GetInt(Assigned(t, key, FormatInt(n), modifiedBy, now, cipher).value, key, cipher) == Some(n)
  {
    SetThenGet(t, key, FormatInt(n), modifiedBy, now, cipher);
    ParseFormatInt(n);
  }

  /** Writing "true" or "false" makes the typed read return that boolean. */
  lemma SetBoolThenGetBool(
    t: seq<AppConfiguration>, key: string, b: bool, modifiedBy: Option<string>, now: int, cipher: Cipher)
    requires UniqueKeys(t) && RoundTrips(cipher)
    requires Assigned(t, key, if b then "true" else "false", modifiedBy, now, cipher).Ok?
    ensures GetBool(Assigned(t, key, if b then "true" else "false", modifiedBy, now, cipher).value, key, cipher) == Some(b)
  {
    SetThenGet(t, key, if b then "true" else "false", modifiedBy, now, cipher);
    ParseBoolLiterals(b);
  }
}
