/**
 * Database tables as sequences of rows in insertion order. Filtering a table
 * (a queryset `.filter(...)`, or what a cascading delete leaves behind) keeps
 * the rows that satisfy a condition in their original order.
 */
module Tables {

  /** The rows of `s` that satisfy `keep`, in the order of `s`. */
  function Filter<T>(s: seq<T>, keep: T -> bool): (r: seq<T>)
    ensures |r| <= |s|
    ensures forall x | x in r :: x in s && keep(x)
    ensures forall x | x in s && keep(x) :: x in r
    ensures (forall x | x in s :: keep(x)) ==> r == s
    ensures r != [] <==> exists x | x in s :: keep(x)
  {
    if s == [] then []
    else (if keep(s[0]) then [s[0]] else []) + Filter(s[1..], keep)
  }

  /** Row keys (primary keys) strictly increase along the table. */
  ghost predicate Increasing<T>(s: seq<T>, key: T -> int) {
    forall i, j :: 0 <= i < j < |s| ==> key(s[i]) < key(s[j])
  }

  /** A table is in key order iff its tail is and its head's key is below every later key. */
  lemma IncreasingCons<T>(x: T, t: seq<T>, key: T -> int)
    ensures Increasing([x] + t, key) <==> Increasing(t, key) && forall y | y in t :: key(x) < key(y)
  {
    var r := [x] + t;
    if Increasing(r, key) {
      forall i, j | 0 <= i < j < |t| ensures key(t[i]) < key(t[j]) {
        assert t[i] == r[i + 1] && t[j] == r[j + 1];
      }
      forall y | y in t ensures key(x) < key(y) {
        var k :| 0 <= k < |t| && t[k] == y;
        assert r[0] == x && r[k + 1] == y;
        assert key(r[0]) < key(r[k + 1]);
      }
    }
    if Increasing(t, key) && forall y | y in t :: key(x) < key(y) {
      forall i, j | 0 <= i < j < |r| ensures key(r[i]) < key(r[j]) {
        assert r[j] == t[j - 1] && t[j - 1] in t;
        if i > 0 { assert r[i] == t[i - 1]; }
      }
    }
  }

  /** Filtering keeps the key order, so a filtered table is still in creation order. */
  lemma {:induction false} FilterKeepsIncreasing<T>(s: seq<T>, keep: T -> bool, key: T -> int)
    ensures Increasing(s, key) ==> Increasing(Filter(s, keep), key)
  {
    if s != [] && Increasing(s, key) {
      assert s == [s[0]] + s[1..];
      IncreasingCons(s[0], s[1..], key);
      FilterKeepsIncreasing(s[1..], keep, key);
      var rest := Filter(s[1..], keep);
      if keep(s[0]) {
        IncreasingCons(s[0], rest, key);
      } else {
        assert Filter(s, keep) == rest;
      }
    }
  }

  /** Appending a row whose key exceeds every key keeps the order. */
  lemma AppendKeepsIncreasing<T>(s: seq<T>, x: T, key: T -> int)
    requires Increasing(s, key)
    requires forall y | y in s :: key(y) < key(x)
    ensures Increasing(s + [x], key)
  {
    var r := s + [x];
    forall i, j | 0 <= i < j < |r| ensures key(r[i]) < key(r[j]) {
      if j == |s| {
        assert r[i] == s[i] && s[i] in s;
      } else {
        assert r[i] == s[i] && r[j] == s[j];
      }
    }
  }
}
