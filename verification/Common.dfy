/** Small generic vocabulary: optional values, filtering and prefix facts on sequences. */
module Common {
  datatype Option<+T> = None | Some(value: T) {
    function GetOr(default: T): T {
      if Some? then value else default
    }
  }

  lemma SubsetSize<T>(a: set<T>, b: set<T>)
    requires a <= b
    ensures |a| <= |b| && |b - a| == |b| - |a|
  {
    assert b == a + (b - a);
  }

  /** The elements of s that satisfy p, in order (a SQL `where`). */
  function Filter<T>(s: seq<T>, p: T -> bool): (r: seq<T>)
  {
    if s == [] then [] else (if p(s[0]) then [s[0]] else []) + Filter(s[1..], p)
  }

  lemma {:induction false} FilterMembers<T>(s: seq<T>, p: T -> bool)
    ensures forall x <- Filter(s, p) :: p(x) && x in s
  {
    if s == [] {
    } else {
      FilterMembers(s[1..], p);
    }
  }

  lemma {:induction false} FilterFinds<T>(s: seq<T>, p: T -> bool, x: T)
    requires x in s && p(x)
    ensures x in Filter(s, p)
  {
    if s[0] == x {
    } else {
      FilterFinds(s[1..], p, x);
    }
  }

  lemma {:induction false} FilterConcat<T>(s: seq<T>, t: seq<T>, p: T -> bool)
    ensures Filter(s + t, p) == Filter(s, p) + Filter(t, p)
  {
    if s == [] {
      assert s + t == t;
    } else {
      assert (s + t)[1..] == s[1..] + t;
      FilterConcat(s[1..], t, p);
      var head := if p(s[0]) then [s[0]] else [];
      assert Filter(s + t, p) == head + Filter(s[1..] + t, p);
      assert Filter(s, p) == head + Filter(s[1..], p);
    }
  }

  lemma FilterAppend<T>(s: seq<T>, x: T, p: T -> bool)
    ensures Filter(s + [x], p) == if p(x) then Filter(s, p) + [x] else Filter(s, p)
  {
    FilterConcat(s, [x], p);
  }

  lemma {:induction false} FilterAll<T>(s: seq<T>, p: T -> bool)
    requires forall x <- s :: p(x)
    ensures Filter(s, p) == s
  {
    if s == [] {
    } else {
      FilterAll(s[1..], p);
    }
  }

  lemma {:induction false} FilterNone<T>(s: seq<T>, p: T -> bool)
    requires forall x <- s :: !p(x)
    ensures Filter(s, p) == []
  {
    if s == [] {
    } else {
      FilterNone(s[1..], p);
    }
  }

  /** Two filters may be applied in either order. */
  lemma {:induction false} FilterSwap<T>(s: seq<T>, p: T -> bool, q: T -> bool)
    ensures Filter(Filter(s, p), q) == Filter(Filter(s, q), p)
  {
    if s == [] {
    } else {
      FilterSwap(s[1..], p, q);
      FilterConcat(if p(s[0]) then [s[0]] else [], Filter(s[1..], p), q);
      FilterConcat(if q(s[0]) then [s[0]] else [], Filter(s[1..], q), p);
    }
  }

  /** Filtering by a narrower condition afterwards is filtering by it alone. */
  lemma {:induction false} FilterNarrow<T>(s: seq<T>, p: T -> bool, q: T -> bool)
    requires forall x <- s | q(x) :: p(x)
    ensures Filter(Filter(s, p), q) == Filter(s, q)
  {
    if s == [] {
    } else {
      FilterNarrow(s[1..], p, q);
      FilterConcat(if p(s[0]) then [s[0]] else [], Filter(s[1..], p), q);
    }
  }

  /** Conditions that agree on the elements select the same elements. */
  lemma {:induction false} FilterSame<T>(s: seq<T>, p: T -> bool, q: T -> bool)
    requires forall x <- s :: p(x) == q(x)
    ensures Filter(s, p) == Filter(s, q)
  {
    if s == [] {
    } else {
      FilterSame(s[1..], p, q);
    }
  }

  /** A narrower condition selects no more elements. */
  lemma {:induction false} FilterCount<T>(s: seq<T>, p: T -> bool, q: T -> bool)
    requires forall x <- s | p(x) :: q(x)
    ensures |Filter(s, p)| <= |Filter(s, q)|
  {
    if s == [] {
    } else {
      FilterCount(s[1..], p, q);
    }
  }

  lemma {:induction false} FilterNonEmpty<T>(s: seq<T>, p: T -> bool)
    ensures Filter(s, p) != [] <==> exists x <- s :: p(x)
  {
    if s == [] {
    } else {
      FilterNonEmpty(s[1..], p);
      assert s == [s[0]] + s[1..];
    }
  }

  function Sum<T>(s: seq<T>, f: T -> int): int {
    if s == [] then 0 else f(s[0]) + Sum(s[1..], f)
  }

  lemma SumOne<T>(x: T, f: T -> int)
    ensures Sum([x], f) == f(x)
  {
    assert [x][1..] == [];
  }

  lemma {:induction false} SumConcat<T>(s: seq<T>, t: seq<T>, f: T -> int)
    ensures Sum(s + t, f) == Sum(s, f) + Sum(t, f)
  {
    if s == [] {
      assert s + t == t;
    } else {
      assert (s + t)[1..] == s[1..] + t;
      SumConcat(s[1..], t, f);
    }
  }

  lemma SumFilterHead<T>(s: seq<T>, f: T -> int, p: T -> bool)
    requires s != []
    ensures Sum(Filter(s, p), f) == (if p(s[0]) then f(s[0]) else 0) + Sum(Filter(s[1..], p), f)
  {
    var rest := Filter(s[1..], p);
    if p(s[0]) {
      SumOne(s[0], f);
      SumConcat([s[0]], rest, f);
    } else {
      assert [] + rest == rest;
    }
  }

  /** Two conditions that divide the elements also divide their sum. */
  lemma {:induction false} SumSplit<T>(s: seq<T>, f: T -> int, p: T -> bool, q: T -> bool)
    requires forall x <- s :: p(x) != q(x)
    ensures Sum(s, f) == Sum(Filter(s, p), f) + Sum(Filter(s, q), f)
  {
    if s == [] {
    } else {
      SumSplit(s[1..], f, p, q);
      SumFilterHead(s, f, p);
      SumFilterHead(s, f, q);
    }
  }
}
