/** Making room in the in-memory tables keyed by device. */
module Eviction {
  import opened Common

  type Key = string

  predicate IsOldest(m: map<Key, real>, s: set<Key>, n: nat) {
    && s <= m.Keys
    && |s| == (if |m| < n then |m| else n)
    && forall k, j :: k in s && j in m.Keys - s ==> m[k] <= m[j]
  }

  method Earliest(m: map<Key, real>, keys: set<Key>) returns (k: Key)
    requires keys != {} && keys <= m.Keys
    ensures k in keys && forall j <- keys :: m[k] <= m[j]
  {
    k :| k in keys;
    var rest := keys - {k};
    while rest != {}
      invariant rest <= keys && k in keys - rest
      invariant forall j <- keys - rest :: m[k] <= m[j]
      decreases |rest|
    {
      var j :| j in rest;
      if m[j] < m[k] {
        k := j;
      }
      rest := rest - {j};
    }
  }

  /** The n keys with the least values; which of several equal ones is left open. */
  method Oldest(m: map<Key, real>, n: nat) returns (s: set<Key>)
    ensures IsOldest(m, s, n)
  {
    s := {};
    while |s| < n && s != m.Keys
      invariant s <= m.Keys && |s| <= n && |s| <= |m.Keys|
      invariant forall k, j :: k in s && j in m.Keys - s ==> m[k] <= m[j]
      decreases |m.Keys| - |s|
    {
      SmallerSubset(s, m.Keys);
      var k := Earliest(m, m.Keys - s);
      s := s + {k};
      SubsetSize(s, m.Keys);
    }
  }

  lemma SmallerSubset<T>(a: set<T>, b: set<T>)
    requires a <= b && a != b
    ensures |a| < |b|
  {
    SubsetSize(a, b);
    assert b - a != {};
  }

  lemma EarliestExists(m: map<Key, real>, keys: set<Key>) returns (k: Key)
    requires keys != {} && keys <= m.Keys
    ensures k in keys && forall j <- keys :: m[k] <= m[j]
  {
    k :| k in keys;
    if keys != {k} {
      assert keys - {k} != {};
      var j := EarliestExists(m, keys - {k});
      k := if m[j] < m[k] then j else k;
    }
  }

  lemma OldestExists(m: map<Key, real>, s: set<Key>, n: nat) returns (all: set<Key>)
    requires s <= m.Keys && |s| <= n <= |m| && forall k, j :: k in s && j in m.Keys - s ==> m[k] <= m[j]
    ensures s <= all && IsOldest(m, all, n)
    decreases n - |s|
  {
    all := s;
    if |s| < n {
      SubsetSize(s, m.Keys);
      var k := EarliestExists(m, m.Keys - s);
      all := OldestExists(m, s + {k}, n);
    }
  }

  /** Distinct names, told apart by their lengths. */
  function Name(i: nat): Key { seq(i, _ => 'x') }

  function Names(a: nat, b: nat): set<Key> { set n | a <= n < b :: Name(n) }

  lemma {:induction false} NamesCount(a: nat, b: nat)
    requires a <= b
    ensures |Names(a, b)| == b - a
    decreases b
  {
    if a == b {
      assert Names(a, b) == {};
    } else {
      NamesCount(a, b - 1);
      assert forall n | a <= n < b - 1 :: |Name(n)| != |Name(b - 1)|;
      assert Names(a, b) == Names(a, b - 1) + {Name(b - 1)} && Name(b - 1) !in Names(a, b - 1);
    }
  }
}
