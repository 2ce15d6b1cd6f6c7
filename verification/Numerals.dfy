/** Decimal numerals: what a printer writes and what a reader makes of it. */
module Numerals {
  import opened Text

  function DigitOf(n: nat): (c: char)
    requires n < 10
    ensures IsDigit(c)
  {
    '0' + n as char
  }

  function ValueOf(c: char): (n: nat)
    requires IsDigit(c)
    ensures n < 10
  {
    (c - '0') as nat
  }

  function Value(s: string): nat
    requires AllDigits(s)
  {
    if s == [] then 0 else Value(s[..|s| - 1]) * 10 + ValueOf(s[|s| - 1])
  }

  /** The numeral without leading zeros. */
  function Numeral(n: nat): (s: string)
    ensures s != [] && AllDigits(s)
  {
    if n < 10 then [DigitOf(n)] else Numeral(n / 10) + [DigitOf(n % 10)]
  }

  /** The last digits of the numeral, with leading zeros. */
  function Padded(n: nat, width: nat): (s: string)
    ensures |s| == width && AllDigits(s)
  {
    if width == 0 then [] else Padded(n / 10, width - 1) + [DigitOf(n % 10)]
  }

  function Power10(k: nat): (p: nat)
    ensures p >= 1
  {
    if k == 0 then 1 else 10 * Power10(k - 1)
  }

  lemma {:induction false} NumeralRead(n: nat)
    ensures Value(Numeral(n)) == n
  {
    if n >= 10 {
      NumeralRead(n / 10);
    }
  }

  lemma {:induction false} PaddedRead(n: nat, width: nat)
    ensures Value(Padded(n, width)) == n % Power10(width)
  {
    if width == 0 {
    } else {
      PaddedRead(n / 10, width - 1);
      SplitLastDigit(n, Power10(width - 1));
    }
  }

  lemma SplitLastDigit(n: nat, p: nat)
    requires p > 0
    ensures n % (10 * p) == (n / 10 % p) * 10 + n % 10
  {
    var (q, r) := (n / 10, n % 10);
    var (a, b) := (q / p, q % p);
    assert n == 10 * q + r && q == p * a + b;
    assert n == (10 * p) * a + (10 * b + r) by { assert 10 * (p * a) == (10 * p) * a; }
    assert 10 * b + r < 10 * p;
    Remainder(n, 10 * p, a, 10 * b + r);
  }

  lemma Remainder(n: nat, d: nat, q: nat, r: nat)
    requires n == d * q + r && r < d
    ensures n % d == r && n / d == q
  {
    var (q', r') := (n / d, n % d);
    assert n == d * q' + r';
    NextMultiple(d, q, q');
    NextMultiple(d, q', q);
  }

  lemma {:induction false} Monotone(a: nat, b: nat, c: nat)
    requires a <= b
    ensures a * c <= b * c
  {
    if c == 0 {
    } else {
      Monotone(a, b, c - 1);
      assert a * c == a * (c - 1) + a && b * c == b * (c - 1) + b;
    }
  }

  lemma NextMultiple(d: nat, a: nat, b: nat)
    ensures a < b ==> d * b >= d * a + d
  {
    if a < b {
      Monotone(a + 1, b, d);
      assert (a + 1) * d == d * a + d;
    }
  }

  lemma ValueSnoc(s: string, init: string, last: char)
    requires AllDigits(init) && IsDigit(last) && s == init + [last]
    ensures AllDigits(s) && Value(s) == Value(init) * 10 + ValueOf(last)
  {
    assert s[..|s| - 1] == init;
  }

  lemma {:induction false} ValueConcat(s: string, t: string)
    requires AllDigits(s) && AllDigits(t)
    ensures AllDigits(s + t) && Value(s + t) == Value(s) * Power10(|t|) + Value(t)
  {
    if t == [] {
      assert s + t == s;
    } else {
      var (init, last) := (t[..|t| - 1], t[|t| - 1]);
      ValueConcat(s, init);
      ValueSnoc(s + t, s + init, last);
      Associative(Value(s), Power10(|init|));
    }
  }

  lemma Associative(a: nat, p: nat)
    ensures a * (10 * p) == (a * p) * 10
  {
  }

  /** How long a numeral is. */
  lemma {:induction false} NumeralLength(n: nat, k: nat)
    requires k > 0 && n < Power10(k)
    ensures |Numeral(n)| <= k
  {
    assert Power10(1) == 10;
    if n >= 10 {
      NumeralLength(n / 10, k - 1);
    }
  }

  // ----- Decimal fractions -----

  /** The number digits / 10 to the power of scale. */
  datatype Decimal = Decimal(digits: int, scale: nat)

  /** n / d for positive d, to the nearest integer and to the even one from the middle. */
  function HalfEven(n: nat, d: nat): nat
    requires d > 0
  {
    var (q, r) := (n / d, n % d);
    if 2 * r < d || (2 * r == d && q % 2 == 0) then q else q + 1
  }

  /** To the given number of places. */
  function Quantize(x: Decimal, places: nat): int {
    if x.scale <= places then x.digits * Power10(places - x.scale)
    else
      var d := Power10(x.scale - places);
      if x.digits >= 0 then HalfEven(x.digits, d) else -(HalfEven(-x.digits, d) as int)
  }

  /** h is within a half of n / d. */
  predicate Nearest(h: int, n: int, d: nat) { -(d as int) <= 2 * (h * d - n) <= d }

  /** The nearest, and from the middle the even one. */
  predicate NearestEven(h: int, n: int, d: nat)
    requires d > 0
  {
    Nearest(h, n, d) && (2 * (Magnitude(n) % d) == d ==> h % 2 == 0)
  }

  lemma HalfEvenNearest(n: nat, d: nat)
    requires d > 0
    ensures NearestEven(HalfEven(n, d), n, d)
  {
    var (q, r) := (n / d, n % d);
    assert n == d * q + r;
    assert (q + 1) * d == d * q + d && q * d == d * q;
  }

  lemma HalfEvenBound(n: nat, d: nat, bound: nat)
    requires d > 0 && n <= bound * d
    ensures HalfEven(n, d) <= bound
  {
    var (h, q, r) := (HalfEven(n, d), n / d, n % d);
    assert n == d * q + r;
    NextMultiple(d, bound, q);
    if q == bound {
      assert d * q == bound * d;
    }
  }

  lemma {:induction false} PowerSum(a: nat, b: nat)
    ensures Power10(a + b) == Power10(a) * Power10(b)
  {
    if a == 0 {
    } else {
      PowerSum(a - 1, b);
      Associative(Power10(b), Power10(a - 1));
    }
  }

  function Magnitude(x: int): nat { if x >= 0 then x else -x }

  lemma Finer(m: nat, bound: nat, a: nat, b: nat)
    requires m <= bound * Power10(a)
    ensures m * Power10(b) <= bound * Power10(a + b)
  {
    PowerSum(a, b);
    Monotone(m, bound * Power10(a), Power10(b));
    Regroup(bound, Power10(a), Power10(b));
  }

  lemma Regroup(a: nat, b: nat, c: nat)
    ensures a * b * c == a * (b * c)
  {
  }

  lemma Coarser(m: nat, bound: nat, a: nat, b: nat)
    requires m <= bound * Power10(a + b)
    ensures HalfEven(m, Power10(b)) <= bound * Power10(a)
  {
    PowerSum(a, b);
    Regroup(bound, Power10(a), Power10(b));
    HalfEvenBound(m, Power10(b), bound * Power10(a));
  }

  lemma QuantizeFiner(x: Decimal, places: nat)
    requires x.scale <= places
    ensures Magnitude(Quantize(x, places)) == Magnitude(x.digits) * Power10(places - x.scale)
  {
    var p := Power10(places - x.scale);
    assert (-x.digits) * p == -(x.digits * p);
    Monotone(0, Magnitude(x.digits), p);
  }

  lemma QuantizeCoarser(x: Decimal, places: nat)
    requires x.scale > places
    ensures Magnitude(Quantize(x, places)) == HalfEven(Magnitude(x.digits), Power10(x.scale - places))
  {
  }

  lemma NearestNegated(h: int, n: int, d: nat)
    requires d > 0 && NearestEven(h, n, d)
    ensures NearestEven(-h, -n, d)
  {
    assert -h * d == -(h * d);
  }

  /** Rounding keeps the sign: exact when there are places enough, else the nearest, from the middle the even one. */
  lemma QuantizeNearest(x: Decimal, places: nat)
    ensures x.scale <= places ==> Quantize(x, places) == x.digits * Power10(places - x.scale)
    ensures x.scale > places ==> NearestEven(Quantize(x, places), x.digits, Power10(x.scale - places))
  {
    if x.scale > places {
      var d := Power10(x.scale - places);
      HalfEvenNearest(Magnitude(x.digits), d);
      if x.digits < 0 {
        NearestNegated(HalfEven(-x.digits, d), -x.digits, d);
      }
    }
  }

  /** Rounding never leaves a whole range. */
  lemma QuantizeBound(x: Decimal, places: nat, bound: nat)
    requires Magnitude(x.digits) <= bound * Power10(x.scale)
    ensures Magnitude(Quantize(x, places)) <= bound * Power10(places)
  {
    if x.scale <= places {
      QuantizeFiner(x, places);
      Finer(Magnitude(x.digits), bound, x.scale, places - x.scale);
      assert Power10(x.scale + (places - x.scale)) == Power10(places);
    } else {
      QuantizeCoarser(x, places);
      assert Power10(places + (x.scale - places)) == Power10(x.scale);
      Coarser(Magnitude(x.digits), bound, places, x.scale - places);
    }
  }
}
