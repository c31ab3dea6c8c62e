/**
 * The sequence operations a SQL query performs on a table: a scan in primary-key order,
 * a WHERE filter and an ORDER BY sort.
 */
module Sorting {

  /** `le` compares every two values and chains: a total preorder, as an ORDER BY key is. */
  ghost predicate TotalPreorder<T(!new)>(le: (T, T) -> bool)
  {
    && (forall a, b :: le(a, b) || le(b, a))
    && (forall a, b, c :: le(a, b) && le(b, c) ==> le(a, c))
  }

  predicate SortedBy<T>(s: seq<T>, le: (T, T) -> bool)
  {
    forall i, j :: 0 <= i < j < |s| ==> le(s[i], s[j])
  }

  /** `m` is the smallest key of `ks`. */
  predicate IsLeast(m: int, ks: set<int>)
  {
    m in ks && forall k :: k in ks ==> m <= k
  }

  lemma {:induction false} HasLeast(ks: set<int>)
    requires ks != {}
    ensures exists m :: IsLeast(m, ks)
    decreases |ks|
  {
    if forall y :: y !in ks {
      assert false;
    }
    var x :| x in ks;
    var rest := ks - {x};
    if forall y :: y !in rest {
      forall k | k in ks ensures x <= k {
        assert k !in rest;
      }
      assert IsLeast(x, ks);
    } else {
      HasLeast(rest);
      var m :| IsLeast(m, rest);
      var least := if x < m then x else m;
      forall k | k in ks ensures least <= k {
        if k != x {
          assert k in rest;
        }
      }
      assert IsLeast(least, ks);
    }
  }

  /** The smallest key of a non-empty set. */
  function Least(ks: set<int>): (m: int)
    requires ks != {}
    ensures IsLeast(m, ks)
  {
    HasLeast(ks);
    assert forall a, b :: IsLeast(a, ks) && IsLeast(b, ks) ==> a == b;
    var m :| IsLeast(m, ks);
    m
  }

  /** The keys in ascending order: the order in which SQLite scans a table by its integer primary key. */
  function KeysAscending(ks: set<int>): (r: seq<int>)
    ensures |r| == |ks|
    ensures forall k :: k in r <==> k in ks
    ensures forall i, j :: 0 <= i < j < |r| ==> r[i] < r[j]
    decreases ks
  {
    if ks == {} then []
    else
      var m := Least(ks);
      var rest := KeysAscending(ks - {m});
      LeastThenRest(m, ks, rest);
      [m] + rest
  }

  /** The least key followed by the others in ascending order lists every key in ascending order. */
  lemma LeastThenRest(m: int, ks: set<int>, rest: seq<int>)
    requires IsLeast(m, ks)
    requires |rest| == |ks - {m}|
    requires forall k :: k in rest <==> k in ks - {m}
    requires forall i, j :: 0 <= i < j < |rest| ==> rest[i] < rest[j]
    ensures |[m] + rest| == |ks|
    ensures forall k :: k in [m] + rest <==> k in ks
    ensures forall i, j :: 0 <= i < j < |[m] + rest| ==> ([m] + rest)[i] < ([m] + rest)[j]
  {
    var r := [m] + rest;
    forall i, j | 0 <= i < j < |r| ensures r[i] < r[j] {
      if i == 0 {
        assert r[j] == rest[j - 1] && r[j] in ks - {m};
      } else {
        assert r[i] == rest[i - 1] && r[j] == rest[j - 1];
      }
    }
  }

  /** Inserts `x` after every element that does not follow it, so equal keys keep their arrival order. */
  function Insert<T(!new)>(x: T, s: seq<T>, le: (T, T) -> bool): (r: seq<T>)
    requires TotalPreorder(le) && SortedBy(s, le)
    ensures multiset(r) == multiset(s) + multiset{x}
    ensures SortedBy(r, le)
    decreases |s|
  {
    if s == [] || !le(s[0], x) then [x] + s
    else
      var rest := Insert(x, s[1..], le);
      KeepHead(x, s, le, rest);
      [s[0]] + rest
  }

  /**
   * When `x` does not go before the head of `s`, the head followed by `x` inserted into the
   * tail is sorted and holds `x` and the elements of `s`.
   */
  lemma KeepHead<T(!new)>(x: T, s: seq<T>, le: (T, T) -> bool, rest: seq<T>)
    requires TotalPreorder(le) && SortedBy(s, le) && s != [] && le(s[0], x)
    requires multiset(rest) == multiset(s[1..]) + multiset{x} && SortedBy(rest, le)
    ensures multiset([s[0]] + rest) == multiset(s) + multiset{x}
    ensures SortedBy([s[0]] + rest, le)
  {
    assert s == [s[0]] + s[1..];
    forall y | y in rest ensures le(s[0], y) {
      assert y in multiset(rest);
      if y != x {
        assert y in multiset(s[1..]);
        var j :| 0 <= j < |s[1..]| && s[1..][j] == y;
        assert s[j + 1] == y;
      }
    }
    var r := [s[0]] + rest;
    forall i, j | 0 <= i < j < |r| ensures le(r[i], r[j]) {
      if i == 0 {
        assert r[j] == rest[j - 1] && r[j] in rest;
      } else {
        assert r[i] == rest[i - 1] && r[j] == rest[j - 1];
      }
    }
  }

  /** A stable insertion sort: ORDER BY over rows arriving in scan order. */
  function SortBy<T(!new)>(s: seq<T>, le: (T, T) -> bool): (r: seq<T>)
    requires TotalPreorder(le)
    ensures multiset(r) == multiset(s)
    ensures SortedBy(r, le)
    decreases |s|
  {
    if s == [] then []
    else
      assert s == s[..|s| - 1] + [s[|s| - 1]];
      Insert(s[|s| - 1], SortBy(s[..|s| - 1], le), le)
  }

  /** WHERE: the elements that satisfy `p`, in their original order. */
  function Filter<T(!new)>(s: seq<T>, p: T -> bool): (r: seq<T>)
    ensures |r| <= |s|
    ensures forall x :: x in r <==> x in s && p(x)
    ensures multiset(r) <= multiset(s)
    decreases |s|
  {
    if s == [] then []
    else
      assert s == [s[0]] + s[1..];
      (if p(s[0]) then [s[0]] else []) + Filter(s[1..], p)
  }

  /** Filtering keeps the relative order, so a filtered sorted sequence is still sorted. */
  lemma {:induction false} FilterKeepsOrder<T(!new)>(s: seq<T>, p: T -> bool, le: (T, T) -> bool)
    requires SortedBy(s, le)
    ensures SortedBy(Filter(s, p), le)
    decreases |s|
  {
    if s != [] {
      FilterKeepsOrder(s[1..], p, le);
      var rest := Filter(s[1..], p);
      forall y | y in rest ensures le(s[0], y) {
        var j :| 0 <= j < |s[1..]| && s[1..][j] == y;
        assert s[j + 1] == y;
      }
    }
  }

  /** A filter that keeps everything is the identity. */
  lemma {:induction false} FilterAll<T(!new)>(s: seq<T>, p: T -> bool)
    requires forall x :: x in s ==> p(x)
    ensures Filter(s, p) == s
    decreases |s|
  {
    if s != [] {
      FilterAll(s[1..], p);
      assert s == [s[0]] + s[1..];
    }
  }

  /** No two elements of `s` share a key: a listing that holds each row once. */
  predicate UniqueKeys<T>(s: seq<T>, key: T -> int)
  {
    forall i, j :: 0 <= i < j < |s| ==> key(s[i]) != key(s[j])
  }

  /** Filtering a listing whose keys are unique keeps them unique. */
  lemma FilterKeepsUniqueKeys<T(!new)>(s: seq<T>, p: T -> bool, key: T -> int)
    requires UniqueKeys(s, key)
    ensures UniqueKeys(Filter(s, p), key)
  {
    FilterKeepsOrder(s, p, (a: T, b: T) => key(a) != key(b));
  }

  /** Inserting an element whose key `s` does not hold keeps the keys unique. */
  lemma {:induction false} InsertKeepsUniqueKeys<T(!new)>(x: T, s: seq<T>, le: (T, T) -> bool, key: T -> int)
    requires TotalPreorder(le) && SortedBy(s, le) && UniqueKeys(s, key)
    requires forall y :: y in s ==> key(y) != key(x)
    ensures UniqueKeys(Insert(x, s, le), key)
    decreases |s|
  {
    if s == [] || !le(s[0], x) {
      var r := [x] + s;
      forall i, j | 0 <= i < j < |r| ensures key(r[i]) != key(r[j]) {
        assert r[j] == s[j - 1];
        if i > 0 {
          assert r[i] == s[i - 1];
        }
      }
    } else {
      InsertKeepsUniqueKeys(x, s[1..], le, key);
      var rest := Insert(x, s[1..], le);
      forall y | y in rest ensures key(y) != key(s[0]) {
        assert y in multiset(rest);
        if y != x {
          assert y in multiset(s[1..]);
          var j :| 0 <= j < |s[1..]| && s[1..][j] == y;
          assert s[j + 1] == y;
        }
      }
      var r := [s[0]] + rest;
      forall i, j | 0 <= i < j < |r| ensures key(r[i]) != key(r[j]) {
        assert r[j] == rest[j - 1] && r[j] in rest;
        if i > 0 {
          assert r[i] == rest[i - 1];
        }
      }
    }
  }

  /** Sorting a listing whose keys are unique keeps them unique. */
  lemma {:induction false} SortByKeepsUniqueKeys<T(!new)>(s: seq<T>, le: (T, T) -> bool, key: T -> int)
    requires TotalPreorder(le) && UniqueKeys(s, key)
    ensures UniqueKeys(SortBy(s, le), key)
    decreases |s|
  {
    if s != [] {
      var n := |s| - 1;
      var init := s[..n];
      UniqueKeysSplit(s, key);
      SortByKeepsUniqueKeys(init, le, key);
      var sorted := SortBy(init, le);
      SameElements(init, sorted);
      InsertKeepsUniqueKeys(s[n], sorted, le, key);
    }
  }

  /** Without its last element a listing keeps unique keys, none of them the last one's. */
  lemma UniqueKeysSplit<T>(s: seq<T>, key: T -> int)
    requires s != [] && UniqueKeys(s, key)
    ensures UniqueKeys(s[..|s| - 1], key)
    ensures forall y :: y in s[..|s| - 1] ==> key(y) != key(s[|s| - 1])
  {
    var n := |s| - 1;
    forall y | y in s[..n] ensures key(y) != key(s[n]) {
      var j :| 0 <= j < n && s[..n][j] == y;
      assert s[j] == y;
    }
  }

  /**
   * `WHERE p ORDER BY le` over a listing with unique keys: exactly the elements that satisfy
   * `p`, sorted, each once.
   */
  lemma FilterThenSort<T(!new)>(s: seq<T>, p: T -> bool, le: (T, T) -> bool, key: T -> int)
    requires TotalPreorder(le) && UniqueKeys(s, key)
    ensures forall x :: x in SortBy(Filter(s, p), le) <==> x in s && p(x)
    ensures SortedBy(SortBy(Filter(s, p), le), le)
    ensures UniqueKeys(SortBy(Filter(s, p), le), key)
  {
    var f := Filter(s, p);
    FilterKeepsUniqueKeys(s, p, key);
    SortByKeepsUniqueKeys(f, le, key);
    SameElements(f, SortBy(f, le));
  }

  /** A prefix of `a` is a prefix of anything `a` begins. */
  lemma PrefixOfAppend<T>(a: seq<T>, b: seq<T>, p: seq<T>)
    requires |p| <= |a| && a[..|p|] == p
    ensures |p| <= |a + b| && (a + b)[..|p|] == p
  {
    assert (a + b)[..|p|] == a[..|p|];
  }

  /** Sequences that are permutations of each other hold the same elements. */
  lemma SameElements<T>(s: seq<T>, r: seq<T>)
    requires multiset(r) == multiset(s)
    ensures forall x :: x in r <==> x in s
  {
    forall x ensures x in r <==> x in s {
      assert x in r <==> x in multiset(r);
      assert x in s <==> x in multiset(s);
    }
  }
}
