/** Generic facts about a table held as a sequence of rows in rowid order, which is the order
    SQLite scans a table in when a query has no ORDER BY. */
module Tables {
  import opened Common

  /** Keys strictly increase along the table. */
  ghost predicate Increasing<T>(s: seq<T>, key: T -> int)
  {
    forall i, j :: 0 <= i < j < |s| ==> key(s[i]) < key(s[j])
  }

  /** No two rows share a key (a UNIQUE column). */
  ghost predicate Injective<T, K>(s: seq<T>, key: T -> K)
  {
    forall i, j :: 0 <= i < j < |s| ==> key(s[i]) != key(s[j])
  }

  /** No row occurs twice (a composite PRIMARY KEY over all columns). */
  predicate Distinct<T(==)>(s: seq<T>)
  {
    forall i, j :: 0 <= i < j < |s| ==> s[i] != s[j]
  }

  /** Increasing keys are unique keys. */
  lemma IncreasingInjective<T>(s: seq<T>, key: T -> int)
    requires Increasing(s, key)
    ensures Injective(s, key)
  {
  }

  /** The position of the first row satisfying `p`, as `.first()` finds it. */
  function Find<T>(s: seq<T>, p: T -> bool): (r: Option<nat>)
    ensures r.Some? ==> r.value < |s| && p(s[r.value])
    ensures r.Some? ==> forall j :: 0 <= j < r.value ==> !p(s[j])
    ensures r.None? ==> forall j :: 0 <= j < |s| ==> !p(s[j])
  {
    if s == [] then None
    else if p(s[0]) then Some(0)
    else match Find(s[1..], p)
      case None => None
      case Some(k) => Some(k + 1)
  }

  /** The first row satisfying `p`, or `None`. */
  function First<T(!new)>(s: seq<T>, p: T -> bool): (r: Option<T>)
    ensures r.Some? ==> r.value in s && p(r.value)
    ensures r.None? <==> forall x :: x in s ==> !p(x)
    ensures r.Some? ==> exists i :: 0 <= i < |s| && s[i] == r.value && forall j :: 0 <= j < i ==> !p(s[j])
  {
    match Find(s, p)
    case None => None
    case Some(i) => Some(s[i])
  }

  /** Under a unique key, the first row with that key is the only one. */
  lemma FirstUnique<T(!new), K>(s: seq<T>, key: T -> K, p: T -> bool, x: T)
    requires Injective(s, key)
    requires forall y :: p(y) ==> key(y) == key(x)
    requires x in s && p(x)
    ensures First(s, p) == Some(x)
  {
    var r := First(s, p);
    assert r.Some?;
    var i :| 0 <= i < |s| && s[i] == r.value && forall j :: 0 <= j < i ==> !p(s[j]);
    var k :| 0 <= k < |s| && s[k] == x;
    assert !(k < i);
    assert p(s[i]) && key(s[i]) == key(s[k]);
    assert !(i < k);
  }

  /** The rows satisfying `p`, in table order. */
  function Filter<T(!new)>(s: seq<T>, p: T -> bool): (r: seq<T>)
    ensures |r| <= |s|
    ensures forall x :: x in r <==> x in s && p(x)
  {
    if s == [] then []
    else (if p(s[0]) then [s[0]] else []) + Filter(s[1..], p)
  }

  lemma {:induction false} FilterAll<T(!new)>(s: seq<T>, p: T -> bool)
    requires forall x :: x in s ==> p(x)
    ensures Filter(s, p) == s
  {
    if s != [] {
      FilterAll(s[1..], p);
      assert s == [s[0]] + s[1..];
    }
  }

  lemma {:induction false} FilterIncreasing<T(!new)>(s: seq<T>, p: T -> bool, key: T -> int)
    requires Increasing(s, key)
    ensures Increasing(Filter(s, p), key)
  {
    if s != [] {
      var rest := Filter(s[1..], p);
      FilterIncreasing(s[1..], p, key);
      if p(s[0]) {
        var r := [s[0]] + rest;
        forall i, j | 0 <= i < j < |r| ensures key(r[i]) < key(r[j]) {
          if i == 0 {
            assert r[j] in s[1..];
          } else {
            assert r[i] == rest[i - 1] && r[j] == rest[j - 1];
          }
        }
      }
    }
  }

  lemma {:induction false} FilterInjective<T(!new), K>(s: seq<T>, p: T -> bool, key: T -> K)
    requires Injective(s, key)
    ensures Injective(Filter(s, p), key)
  {
    if s != [] {
      var rest := Filter(s[1..], p);
      FilterInjective(s[1..], p, key);
      if p(s[0]) {
        var r := [s[0]] + rest;
        forall i, j | 0 <= i < j < |r| ensures key(r[i]) != key(r[j]) {
          if i == 0 {
            assert r[j] in s[1..];
          } else {
            assert r[i] == rest[i - 1] && r[j] == rest[j - 1];
          }
        }
      }
    }
  }

  lemma {:induction false} FilterDistinct<T(!new)>(s: seq<T>, p: T -> bool)
    requires Distinct(s)
    ensures Distinct(Filter(s, p))
  {
    if s != [] {
      var rest := Filter(s[1..], p);
      FilterDistinct(s[1..], p);
      if p(s[0]) {
        var r := [s[0]] + rest;
        forall i, j | 0 <= i < j < |r| ensures r[i] != r[j] {
          if i == 0 {
            assert r[j] in s[1..];
          } else {
            assert r[i] == rest[i - 1] && r[j] == rest[j - 1];
          }
        }
      }
    }
  }

  /** SQLite's next rowid: one more than the largest key, 1 for an empty table. */
  function NextId<T(!new)>(s: seq<T>, key: T -> int): (n: int)
    ensures n >= 1
    ensures forall x :: x in s ==> key(x) < n
  {
    if s == [] then 1
    else
      var m := NextId(s[..|s| - 1], key);
      assert forall x :: x in s ==> x in s[..|s| - 1] || x == s[|s| - 1];
      if key(s[|s| - 1]) + 1 > m then key(s[|s| - 1]) + 1 else m
  }

  /** Appending a row with the next rowid keeps the keys increasing. */
  lemma AppendIncreasing<T(!new)>(s: seq<T>, key: T -> int, x: T)
    requires Increasing(s, key)
    requires key(x) == NextId(s, key)
    ensures Increasing(s + [x], key)
  {
    var t := s + [x];
    forall i, j | 0 <= i < j < |t| ensures key(t[i]) < key(t[j]) {
      if j == |s| { assert t[i] in s; }
    }
  }

  /** Appending a row whose key no row has keeps the key unique. */
  lemma AppendInjective<T(!new), K>(s: seq<T>, key: T -> K, x: T)
    requires Injective(s, key)
    requires forall y :: y in s ==> key(y) != key(x)
    ensures Injective(s + [x], key)
  {
    var t := s + [x];
    forall i, j | 0 <= i < j < |t| ensures key(t[i]) != key(t[j]) {
      if j == |s| { assert t[i] in s; }
    }
  }

  /** Filtering distributes over concatenation. */
  lemma {:induction false} FilterAppend<T(!new)>(a: seq<T>, b: seq<T>, p: T -> bool)
    ensures Filter(a + b, p) == Filter(a, p) + Filter(b, p)
  {
    if a != [] {
      FilterAppend(a[1..], b, p);
      assert (a + b)[1..] == a[1..] + b;
    } else {
      assert a + b == b;
    }
  }

  /** A table with no row satisfying `p` filters to nothing. */
  lemma {:induction false} FilterNone<T(!new)>(s: seq<T>, p: T -> bool)
    requires forall x :: x in s ==> !p(x)
    ensures Filter(s, p) == []
  {
    if s != [] {
      FilterNone(s[1..], p);
    }
  }

  /** Every row rewritten by `f`, in place (an UPDATE without WHERE, or one whose `f` leaves the
      other rows alone). */
  function MapRows<T, U>(s: seq<T>, f: T -> U): (r: seq<U>)
    ensures |r| == |s|
    ensures forall i :: 0 <= i < |s| ==> r[i] == f(s[i])
  {
    if s == [] then [] else [f(s[0])] + MapRows(s[1..], f)
  }

  /** Maps every row through a partial view; one row without a view makes the whole list fail, as
      a list comprehension does when one of its items raises. */
  function AllSome<T, U>(s: seq<T>, f: T -> Option<U>): (r: Option<seq<U>>)
    ensures r.Some? <==> forall i :: 0 <= i < |s| ==> f(s[i]).Some?
    ensures r.Some? ==> |r.value| == |s| && forall i :: 0 <= i < |s| ==> r.value[i] == f(s[i]).value
  {
    if s == [] then Some([])
    else
      match (f(s[0]), AllSome(s[1..], f))
      case (Some(v), Some(vs)) => Some([v] + vs)
      case _ => None
  }

  /** An update that keeps every key keeps the keys increasing. */
  lemma MapRowsIncreasing<T>(s: seq<T>, f: T -> T, key: T -> int)
    requires Increasing(s, key)
    requires forall x :: key(f(x)) == key(x)
    ensures Increasing(MapRows(s, f), key)
  {
  }

  /** An update that keeps every key keeps the key unique. */
  lemma MapRowsInjective<T, K>(s: seq<T>, f: T -> T, key: T -> K)
    requires Injective(s, key)
    requires forall x :: key(f(x)) == key(x)
    ensures Injective(MapRows(s, f), key)
  {
  }
}
