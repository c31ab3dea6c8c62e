/**
 * A Room table with an integer primary key, as a map from key to row: what `INSERT OR REPLACE`
 * does to it, and the order in which SQLite scans it.
 */
module Tables {
  import opened Base
  import opened Sorting

  /** Every row sits under its own primary key. */
  predicate Keyed<E(==,!new)>(t: map<int, E>, key: E -> int)
  {
    forall k :: k in t ==> key(t[k]) == k
  }

  function RowsAt<E(==,!new)>(t: map<int, E>, ks: seq<int>): (r: seq<E>)
    requires forall i :: 0 <= i < |ks| ==> ks[i] in t
    ensures |r| == |ks|
    ensures forall i :: 0 <= i < |ks| ==> r[i] == t[ks[i]]
  {
    seq(|ks|, i requires 0 <= i < |ks| => t[ks[i]])
  }

  /** A scan without ORDER BY: every row once, in ascending primary-key (rowid) order. */
  function Scan<E(==,!new)>(t: map<int, E>, key: E -> int): (r: seq<E>)
    requires Keyed(t, key)
    ensures |r| == |t|
    ensures forall e :: e in r <==> e in t.Values
    ensures forall i, j :: 0 <= i < j < |r| ==> key(r[i]) < key(r[j])
  {
    var ks := KeysAscending(t.Keys);
    RowsInKeyOrder(t, key, ks);
    RowsAt(t, ks)
  }

  /** Reading the rows at every key once, in ascending key order, gives every row in that order. */
  lemma RowsInKeyOrder<E(!new)>(t: map<int, E>, key: E -> int, ks: seq<int>)
    requires Keyed(t, key)
    requires |ks| == |t.Keys|
    requires forall k :: k in ks <==> k in t
    requires forall i, j :: 0 <= i < j < |ks| ==> ks[i] < ks[j]
    ensures forall i :: 0 <= i < |ks| ==> ks[i] in t
    ensures |RowsAt(t, ks)| == |t|
    ensures forall e :: e in RowsAt(t, ks) <==> e in t.Values
    ensures forall i, j :: 0 <= i < j < |ks| ==> key(RowsAt(t, ks)[i]) < key(RowsAt(t, ks)[j])
  {
    assert forall i :: 0 <= i < |ks| ==> ks[i] in ks;
    var r := RowsAt(t, ks);
    forall k | k in t ensures t[k] in r {
      var i :| 0 <= i < |ks| && ks[i] == k;
      assert r[i] == t[k];
    }
  }

  /** `INSERT OR REPLACE` of one row. */
  function Upsert<E(==,!new)>(t: map<int, E>, e: E, key: E -> int): (r: map<int, E>)
    requires Keyed(t, key)
    ensures Keyed(r, key)
    ensures key(e) in r && r[key(e)] == e
    ensures forall k :: k != key(e) ==> (k in r <==> k in t) && (k in t ==> r[k] == t[k])
  {
    t[key(e) := e]
  }

  /** Inserting a list is inserting its rows one after another. */
  function UpsertAll<E(==,!new)>(t: map<int, E>, es: seq<E>, key: E -> int): (r: map<int, E>)
    requires Keyed(t, key)
    ensures Keyed(r, key)
    decreases |es|
  {
    if es == [] then t else Upsert(UpsertAll(t, es[..|es| - 1], key), es[|es| - 1], key)
  }

  /** The last row of `es` with key `k`, if any. */
  function LastWithKey<E(==,!new)>(es: seq<E>, k: int, key: E -> int): (r: Option<E>)
    ensures r.None? <==> forall e :: e in es ==> key(e) != k
    ensures r.Some? ==> r.value in es && key(r.value) == k
    decreases |es|
  {
    if es == [] then None
    else if key(es[|es| - 1]) == k then Some(es[|es| - 1])
    else
      var r := LastWithKey(es[..|es| - 1], k, key);
      assert es == es[..|es| - 1] + [es[|es| - 1]];
      r
  }

  /** A row appended under another key leaves the last row of `k` as it was. */
  lemma LastWithKeyAppendOther<E(!new)>(es: seq<E>, x: E, k: int, key: E -> int)
    requires key(x) != k
    ensures LastWithKey(es + [x], k, key) == LastWithKey(es, k, key)
  {
    assert (es + [x])[..|es + [x]| - 1] == es;
  }

  /** A row appended under `k` is the last row of `k`. */
  lemma LastWithKeyAppendSame<E(!new)>(es: seq<E>, x: E, k: int, key: E -> int)
    requires key(x) == k
    ensures LastWithKey(es + [x], k, key) == Some(x)
  {
  }

  /**
   * After inserting a list, each key holds the last row inserted under it; keys the list does
   * not mention keep their rows.
   */
  lemma {:induction false} UpsertAllLastWins<E(!new)>(t: map<int, E>, es: seq<E>, key: E -> int, k: int)
    requires Keyed(t, key)
    ensures LastWithKey(es, k, key).Some? ==> k in UpsertAll(t, es, key) && UpsertAll(t, es, key)[k] == LastWithKey(es, k, key).value
    ensures LastWithKey(es, k, key).None? ==> (k in UpsertAll(t, es, key) <==> k in t) && (k in t ==> UpsertAll(t, es, key)[k] == t[k])
    decreases |es|
  {
    if es != [] {
      UpsertAllLastWins(t, es[..|es| - 1], key, k);
    }
  }

  /** The rows a list insert leaves: exactly the old keys and the list's keys. */
  lemma UpsertAllKeys<E(!new)>(t: map<int, E>, es: seq<E>, key: E -> int)
    requires Keyed(t, key)
    ensures forall k :: k in UpsertAll(t, es, key) <==> k in t || exists e :: e in es && key(e) == k
  {
    forall k ensures k in UpsertAll(t, es, key) <==> k in t || exists e :: e in es && key(e) == k {
      UpsertAllLastWins(t, es, key, k);
    }
  }

  /** A property every old row and every inserted row has, every row afterwards has. */
  lemma UpsertAllPreserves<E(!new)>(t: map<int, E>, es: seq<E>, key: E -> int, p: E -> bool)
    requires Keyed(t, key)
    requires forall k :: k in t ==> p(t[k])
    requires forall e :: e in es ==> p(e)
    ensures forall k :: k in UpsertAll(t, es, key) ==> p(UpsertAll(t, es, key)[k])
  {
    forall k | k in UpsertAll(t, es, key) ensures p(UpsertAll(t, es, key)[k]) {
      UpsertAllLastWins(t, es, key, k);
    }
  }

  /** Inserting two lists one after the other is inserting their concatenation. */
  lemma {:induction false} UpsertAllAppend<E(!new)>(t: map<int, E>, xs: seq<E>, ys: seq<E>, key: E -> int)
    requires Keyed(t, key)
    ensures UpsertAll(UpsertAll(t, xs, key), ys, key) == UpsertAll(t, xs + ys, key)
    decreases |ys|
  {
    if ys == [] {
      assert xs + ys == xs;
    } else {
      var n := |ys| - 1;
      UpsertAllAppend(t, xs, ys[..n], key);
      assert (xs + ys)[..|xs + ys| - 1] == xs + ys[..n];
    }
  }
}
