/**
 * Generic operations on the rows of one table, kept in physical (insertion)
 * order. Each table of the store is a `seq` of rows and a `key` function that
 * extracts the primary key.
 */
module Rows {
  import opened Base

  /** No two rows share a primary key. */
  predicate UniqueKeys<T>(rows: seq<T>, key: T -> string) {
    forall i, j :: 0 <= i < j < |rows| ==> key(rows[i]) != key(rows[j])
  }

  /** Some row has primary key `k`. */
  predicate HasKey<T>(rows: seq<T>, key: T -> string, k: string) {
    exists i :: 0 <= i < |rows| && key(rows[i]) == k
  }

  /** `SELECT ... WHERE key = k`, taking the first row that matches. */
  function Find<T>(rows: seq<T>, key: T -> string, k: string): (r: Option<T>)
    ensures r.Some? <==> HasKey(rows, key, k)
    ensures r.Some? ==> r.value in rows && key(r.value) == k
    ensures UniqueKeys(rows, key) ==>
              forall i :: 0 <= i < |rows| && key(rows[i]) == k ==> r == Some(rows[i])
  {
    if |rows| == 0 then None
    else if key(rows[0]) == k then Some(rows[0])
    else
      var r := Find(rows[1..], key, k);
      assert HasKey(rows[1..], key, k) ==> HasKey(rows, key, k) by {
        if HasKey(rows[1..], key, k) {
          var i :| 0 <= i < |rows[1..]| && key(rows[1..][i]) == k;
          assert key(rows[i + 1]) == k;
        }
      }
      assert HasKey(rows, key, k) ==> HasKey(rows[1..], key, k) by {
        if HasKey(rows, key, k) {
          var i :| 0 <= i < |rows| && key(rows[i]) == k;
          assert i > 0 && key(rows[1..][i - 1]) == k;
        }
      }
      r
  }

  /**
   * `UPDATE ... SET ... WHERE key = k`: every row whose key is `k` is
   * rewritten by `f`, which must not change the key; all other rows stay.
   */
  function UpdateWhere<T(!new)>(rows: seq<T>, key: T -> string, k: string, f: T -> T): (r: seq<T>)
    requires forall x :: key(f(x)) == key(x)
    ensures |r| == |rows|
    ensures forall i :: 0 <= i < |rows| ==> key(r[i]) == key(rows[i])
    ensures forall i :: 0 <= i < |rows| && key(rows[i]) != k ==> r[i] == rows[i]
    ensures forall i :: 0 <= i < |rows| && key(rows[i]) == k ==> r[i] == f(rows[i])
  {
    if |rows| == 0 then []
    else
      var tail := UpdateWhere(rows[1..], key, k, f);
      [if key(rows[0]) == k then f(rows[0]) else rows[0]] + tail
  }

  /** After an update, lookups see the rewritten row under `k` and the old rows elsewhere. */
  lemma {:induction false} FindAfterUpdate<T(!new)>(rows: seq<T>, key: T -> string, k: string, f: T -> T, k': string)
    requires forall x :: key(f(x)) == key(x)
    ensures var r := Find(UpdateWhere(rows, key, k, f), key, k');
            if k' == k && Find(rows, key, k).Some? then r == Some(f(Find(rows, key, k).value))
            else r == Find(rows, key, k')
  {
    if |rows| > 0 {
      var u := UpdateWhere(rows, key, k, f);
      assert u[1..] == UpdateWhere(rows[1..], key, k, f);
      FindAfterUpdate(rows[1..], key, k, f, k');
    }
  }

  /** Rewriting rows without changing their keys keeps keys unique. */
  lemma UpdateKeepsUniqueKeys<T(!new)>(rows: seq<T>, key: T -> string, k: string, f: T -> T)
    requires forall x :: key(f(x)) == key(x)
    requires UniqueKeys(rows, key)
    ensures UniqueKeys(UpdateWhere(rows, key, k, f), key)
  {
  }

  /** Appending a row under a fresh key makes it findable and leaves every other lookup alone. */
  lemma {:induction false} FindAfterAppend<T(!new)>(rows: seq<T>, key: T -> string, x: T, k: string)
    requires !HasKey(rows, key, key(x))
    ensures Find(rows + [x], key, k) == if k == key(x) then Some(x) else Find(rows, key, k)
    ensures UniqueKeys(rows, key) ==> UniqueKeys(rows + [x], key)
  {
    if |rows| > 0 {
      assert (rows + [x])[1..] == rows[1..] + [x];
      forall i | 0 <= i < |rows[1..]| ensures key(rows[1..][i]) != key(x) {
        assert rows[1..][i] == rows[i + 1];
      }
      FindAfterAppend(rows[1..], key, x, k);
    }
    if UniqueKeys(rows, key) {
      forall i, j | 0 <= i < j < |rows + [x]| ensures key((rows + [x])[i]) != key((rows + [x])[j]) {
        if j == |rows| {
          assert (rows + [x])[i] == rows[i];
        }
      }
    }
  }

  /** `DELETE ... WHERE key = k`: drops every row whose key is `k`, keeping the order of the rest. */
  function DeleteWhere<T(!new)>(rows: seq<T>, key: T -> string, k: string): (r: seq<T>)
    ensures |r| <= |rows|
    ensures !HasKey(r, key, k)
    ensures forall k' :: k' != k ==> Find(r, key, k') == Find(rows, key, k')
    ensures forall x :: x in r <==> x in rows && key(x) != k
    ensures UniqueKeys(rows, key) ==> UniqueKeys(r, key)
  {
    if |rows| == 0 then []
    else
      var tail := DeleteWhere(rows[1..], key, k);
      var r := if key(rows[0]) == k then tail else [rows[0]] + tail;
      assert UniqueKeys(rows, key) ==> UniqueKeys(r, key) by {
        if UniqueKeys(rows, key) && key(rows[0]) != k {
          assert UniqueKeys(rows[1..], key);
          forall j | 0 < j < |r| ensures key(r[0]) != key(r[j]) {
            assert r[j] in tail;
          }
        }
      }
      r
  }

  /** Deleting a key no row has leaves the table as it was. */
  lemma {:induction false} DeleteAbsentKey<T(!new)>(rows: seq<T>, key: T -> string, k: string)
    requires !HasKey(rows, key, k)
    ensures DeleteWhere(rows, key, k) == rows
  {
    if |rows| > 0 {
      forall i | 0 <= i < |rows[1..]| ensures key(rows[1..][i]) != k {
        assert rows[1..][i] == rows[i + 1];
      }
      DeleteAbsentKey(rows[1..], key, k);
      assert rows == [rows[0]] + rows[1..];
    }
  }

  /** `SELECT ... WHERE keep(row)`, in physical order. */
  function Where<T(!new)>(rows: seq<T>, keep: T -> bool): (r: seq<T>)
    ensures forall x :: x in r <==> x in rows && keep(x)
    ensures multiset(r) <= multiset(rows)
  {
    if |rows| == 0 then []
    else
      var tail := Where(rows[1..], keep);
      assert rows == [rows[0]] + rows[1..];
      if keep(rows[0]) then [rows[0]] + tail else tail
  }

  /** Ordered by `rank`, largest first (`ORDER BY rank DESC`). */
  predicate SortedDesc<T>(rows: seq<T>, rank: T -> int) {
    forall i, j :: 0 <= i < j < |rows| ==> rank(rows[i]) >= rank(rows[j])
  }

  /** Places `x` in front of the first row ranked strictly below it. */
  function InsertDesc<T(!new)>(x: T, rows: seq<T>, rank: T -> int): (r: seq<T>)
    requires SortedDesc(rows, rank)
    ensures SortedDesc(r, rank)
    ensures multiset(r) == multiset(rows) + multiset{x}
  {
    if |rows| == 0 || rank(x) >= rank(rows[0]) then [x] + rows
    else
      var tail := InsertDesc(x, rows[1..], rank);
      var r := [rows[0]] + tail;
      assert rows == [rows[0]] + rows[1..];
      assert SortedDesc(r, rank) by {
        forall j | 0 < j < |r| ensures rank(r[0]) >= rank(r[j]) {
          assert r[j] == tail[j - 1];
          assert tail[j - 1] in multiset(rows[1..]) + multiset{x};
          if tail[j - 1] != x {
            var m :| 0 <= m < |rows[1..]| && rows[1..][m] == tail[j - 1];
            assert rows[m + 1] == tail[j - 1];
          }
        }
      }
      r
  }

  /** `ORDER BY rank DESC`: a permutation of `rows`, largest rank first. */
  function SortDesc<T(!new)>(rows: seq<T>, rank: T -> int): (r: seq<T>)
    ensures SortedDesc(r, rank)
    ensures multiset(r) == multiset(rows)
    ensures |r| == |rows|
  {
    if |rows| == 0 then []
    else
      assert rows == [rows[0]] + rows[1..];
      InsertDesc(rows[0], SortDesc(rows[1..], rank), rank)
  }
}
