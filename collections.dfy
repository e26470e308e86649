/**
 * Table helpers shared by the services: counting, keeping and batch-removing the rows
 * older than a cutoff (by a timestamp column given as a function), the earliest
 * timestamp of a table, `Distinct()`, and `OrderByDescending` on a key.
 */
module Collections {
  import opened Wrappers

  // ---------------------------------------------------------------- rows older than a cutoff

  /** The number of rows whose timestamp `ts` is strictly before `cutoff`. */
  function CountOlder<T>(s: seq<T>, ts: T -> int, cutoff: int): (n: nat)
    ensures n <= |s|
  {
    if s == [] then 0 else (if ts(s[0]) < cutoff then 1 else 0) + CountOlder(s[1..], ts, cutoff)
  }

  /** The rows at or after `cutoff`, in table order. */
  function KeepNotOlder<T>(s: seq<T>, ts: T -> int, cutoff: int): (r: seq<T>)
    ensures |r| == |s| - CountOlder(s, ts, cutoff)
    ensures forall x :: x in r ==> x in s && ts(x) >= cutoff
    ensures forall x :: x in s && ts(x) >= cutoff ==> x in r
  {
    if s == [] then []
    else if ts(s[0]) < cutoff then KeepNotOlder(s[1..], ts, cutoff)
    else [s[0]] + KeepNotOlder(s[1..], ts, cutoff)
  }

  /** `Where(ts < cutoff).Take(n)`: the first `n` rows older than `cutoff`. */
  function TakeOlder<T>(s: seq<T>, ts: T -> int, cutoff: int, n: nat): (r: seq<T>)
    ensures |r| == if n < CountOlder(s, ts, cutoff) then n else CountOlder(s, ts, cutoff)
    ensures forall x :: x in r ==> x in s && ts(x) < cutoff
  {
    if s == [] || n == 0 then []
    else if ts(s[0]) < cutoff then [s[0]] + TakeOlder(s[1..], ts, cutoff, n - 1)
    else TakeOlder(s[1..], ts, cutoff, n)
  }

  /** The table after `RemoveRange(TakeOlder(s, ts, cutoff, n))`. */
  function RemoveFirstOlder<T>(s: seq<T>, ts: T -> int, cutoff: int, n: nat): (r: seq<T>)
    ensures forall x :: x in r ==> x in s
  {
    if s == [] || n == 0 then s
    else if ts(s[0]) < cutoff then RemoveFirstOlder(s[1..], ts, cutoff, n - 1)
    else [s[0]] + RemoveFirstOlder(s[1..], ts, cutoff, n)
  }

  /** Removing a batch of old rows keeps every other row and lowers the old-row count by the batch size. */
  lemma RemoveFirstOlderEffect<T>(s: seq<T>, ts: T -> int, cutoff: int, n: nat)
    ensures KeepNotOlder(RemoveFirstOlder(s, ts, cutoff, n), ts, cutoff) == KeepNotOlder(s, ts, cutoff)
    ensures CountOlder(RemoveFirstOlder(s, ts, cutoff, n), ts, cutoff)
         == CountOlder(s, ts, cutoff) - |TakeOlder(s, ts, cutoff, n)|
  {
    RemoveFirstOlderKeeps(s, ts, cutoff, n);
    RemoveFirstOlderCount(s, ts, cutoff, n);
  }

  /** Removing a batch of old rows keeps every row at or after the cutoff, in order. */
  lemma {:induction false} RemoveFirstOlderKeeps<T>(s: seq<T>, ts: T -> int, cutoff: int, n: nat)
    ensures KeepNotOlder(RemoveFirstOlder(s, ts, cutoff, n), ts, cutoff) == KeepNotOlder(s, ts, cutoff)
  {
    if s != [] && n != 0 {
      if ts(s[0]) < cutoff {
        RemoveFirstOlderKeeps(s[1..], ts, cutoff, n - 1);
      } else {
        RemoveFirstOlderKeeps(s[1..], ts, cutoff, n);
        var r := RemoveFirstOlder(s, ts, cutoff, n);
        assert r[0] == s[0] && r[1..] == RemoveFirstOlder(s[1..], ts, cutoff, n);
      }
    }
  }

  /** Removing a batch of old rows lowers the old-row count by the batch size. */
  lemma {:induction false} RemoveFirstOlderCount<T>(s: seq<T>, ts: T -> int, cutoff: int, n: nat)
    ensures CountOlder(RemoveFirstOlder(s, ts, cutoff, n), ts, cutoff)
         == CountOlder(s, ts, cutoff) - |TakeOlder(s, ts, cutoff, n)|
  {
    if s != [] && n != 0 {
      if ts(s[0]) < cutoff {
        RemoveFirstOlderCount(s[1..], ts, cutoff, n - 1);
        assert CountOlder(s, ts, cutoff) == 1 + CountOlder(s[1..], ts, cutoff);
        assert TakeOlder(s, ts, cutoff, n) == [s[0]] + TakeOlder(s[1..], ts, cutoff, n - 1);
        assert RemoveFirstOlder(s, ts, cutoff, n) == RemoveFirstOlder(s[1..], ts, cutoff, n - 1);
      } else {
        RemoveFirstOlderCount(s[1..], ts, cutoff, n);
        var rest := RemoveFirstOlder(s[1..], ts, cutoff, n);
        var r := [s[0]] + rest;
        assert r[0] == s[0] && r[1..] == rest;
        assert CountOlder(r, ts, cutoff) == CountOlder(rest, ts, cutoff);
        assert CountOlder(s, ts, cutoff) == CountOlder(s[1..], ts, cutoff);
        assert TakeOlder(s, ts, cutoff, n) == TakeOlder(s[1..], ts, cutoff, n);
      }
    }
  }

  /** A table with no old rows is its own kept part. */
  lemma {:induction false} KeepAllWhenNoneOlder<T>(s: seq<T>, ts: T -> int, cutoff: int)
    requires CountOlder(s, ts, cutoff) == 0
    ensures KeepNotOlder(s, ts, cutoff) == s
  {
    if s != [] {
      KeepAllWhenNoneOlder(s[1..], ts, cutoff);
    }
  }

  // ---------------------------------------------------------------- rows owned by a user

  /** The rows whose owner column is not `id`, in table order: what a cascade delete of `id` leaves. */
  function WithoutOwner<T>(s: seq<T>, owner: T -> string, id: string): (r: seq<T>)
    ensures |r| <= |s|
    ensures forall x :: x in r ==> x in s && owner(x) != id
    ensures forall x :: x in s && owner(x) != id ==> x in r
  {
    if s == [] then []
    else if owner(s[0]) == id then WithoutOwner(s[1..], owner, id)
    else [s[0]] + WithoutOwner(s[1..], owner, id)
  }

  /** A table none of whose rows is owned by `id` loses nothing to the cascade. */
  lemma {:induction false} WithoutOwnerOfNone<T>(s: seq<T>, owner: T -> string, id: string)
    requires forall i :: 0 <= i < |s| ==> owner(s[i]) != id
    ensures WithoutOwner(s, owner, id) == s
  {
    if s != [] {
      WithoutOwnerOfNone(s[1..], owner, id);
    }
  }

  // ---------------------------------------------------------------- earliest timestamp

  /** `OrderBy(ts).Select(ts).FirstOrDefault()`: the earliest timestamp, or null for an empty table. */
  function Earliest<T>(s: seq<T>, ts: T -> int): (r: Option<int>)
    ensures r.None? <==> s == []
    ensures r.Some? ==> (exists i :: 0 <= i < |s| && ts(s[i]) == r.value)
    ensures r.Some? ==> forall i :: 0 <= i < |s| ==> r.value <= ts(s[i])
  {
    if s == [] then None
    else
      var rest := Earliest(s[1..], ts);
      if rest.None? || ts(s[0]) <= rest.value then Some(ts(s[0]))
      else
        assert forall i :: 1 <= i < |s| ==> s[i] == s[1..][i - 1];
        Some(rest.value)
  }

  /** `Earliest` in terms of membership: a timestamp of some row, and no later than any row's. */
  lemma EarliestOfMembers<T>(s: seq<T>, ts: T -> int)
    ensures Earliest(s, ts).Some? ==> exists x :: x in s && ts(x) == Earliest(s, ts).value
    ensures Earliest(s, ts).Some? ==> forall x :: x in s ==> Earliest(s, ts).value <= ts(x)
  {
    if Earliest(s, ts).Some? {
      var i :| 0 <= i < |s| && ts(s[i]) == Earliest(s, ts).value;
      assert s[i] in s;
      forall x | x in s ensures Earliest(s, ts).value <= ts(x) {
        var j :| 0 <= j < |s| && s[j] == x;
      }
    }
  }

  // ---------------------------------------------------------------- distinct values

  /** No value occurs twice. */
  predicate NoDuplicates<T(==)>(s: seq<T>) {
    forall i, j :: 0 <= i < j < |s| ==> s[i] != s[j]
  }

  /** `Distinct()`: each value once, where it first occurs, in order. */
  function Distinct<T(==)>(s: seq<T>): (r: seq<T>)
    ensures |r| <= |s|
    ensures forall i :: 0 <= i < |r| ==> r[i] in s
    ensures forall i :: 0 <= i < |s| ==> s[i] in r
    ensures NoDuplicates(r)
    decreases |s|
  {
    if s == [] then []
    else
      var d := Distinct(s[..|s| - 1]);
      if s[|s| - 1] in d then d
      else
        d + [s[|s| - 1]]
  }

  /** A sequence without duplicates is its own `Distinct()`. */
  lemma {:induction false} DistinctOfNoDuplicates<T>(s: seq<T>)
    requires NoDuplicates(s)
    ensures Distinct(s) == s
    decreases |s|
  {
    if s != [] {
      var front := s[..|s| - 1];
      DistinctOfNoDuplicates(front);
      assert s[|s| - 1] !in front;
      assert front + [s[|s| - 1]] == s;
    }
  }

  // ---------------------------------------------------------------- ordering

  predicate SortedDesc<T>(s: seq<T>, key: T -> int) {
    forall i, j :: 0 <= i < j < |s| ==> key(s[i]) >= key(s[j])
  }

  /** `x` placed in front of the first element whose key is no greater than its own. */
  function InsertDesc<T>(x: T, s: seq<T>, key: T -> int): (r: seq<T>)
    ensures multiset(r) == multiset(s) + multiset{x}
    ensures |r| == |s| + 1
  {
    if s == [] || key(s[0]) <= key(x) then [x] + s
    else
      assert s == [s[0]] + s[1..];
      [s[0]] + InsertDesc(x, s[1..], key)
  }

  /** Inserting into a non-increasing list keeps it non-increasing. */
  lemma {:induction false} InsertDescSorted<T>(x: T, s: seq<T>, key: T -> int)
    requires SortedDesc(s, key)
    ensures SortedDesc(InsertDesc(x, s, key), key)
    ensures InsertDesc(x, s, key)[0] == x || (s != [] && InsertDesc(x, s, key)[0] == s[0])
  {
    if s != [] && key(s[0]) > key(x) {
      var tail := s[1..];
      assert SortedDesc(tail, key) by {
        forall i, j | 0 <= i < j < |tail| ensures key(tail[i]) >= key(tail[j]) {
          assert tail[i] == s[i + 1] && tail[j] == s[j + 1];
        }
      }
      InsertDescSorted(x, tail, key);
      var t := InsertDesc(x, tail, key);
      assert key(t[0]) <= key(s[0]);
      var r := InsertDesc(x, s, key);
      assert r == [s[0]] + t;
      forall i, j | 0 <= i < j < |r| ensures key(r[i]) >= key(r[j]) {
        if i > 0 {
          assert r[i] == t[i - 1] && r[j] == t[j - 1];
        } else {
          assert r[j] == t[j - 1];
        }
      }
    }
  }

  /** `OrderByDescending(key)`: a permutation of `s` in non-increasing key order. */
  function SortDesc<T>(s: seq<T>, key: T -> int): (r: seq<T>)
    ensures SortedDesc(r, key)
    ensures multiset(r) == multiset(s)
    ensures |r| == |s|
  {
    if s == [] then []
    else
      assert s == [s[0]] + s[1..];
      var t := SortDesc(s[1..], key);
      InsertDescSorted(s[0], t, key);
      InsertDesc(s[0], t, key)
  }
}
