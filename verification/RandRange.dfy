/** rand_range() of include/te_defs.h, given the number which rand() has drawn. */
module RandRange {

  const INT_MIN := -0x8000_0000
  const INT_MAX := 0x7FFF_FFFF

  type int32 = x: int | INT_MIN <= x <= INT_MAX

  /** The condition under which the code computes in an integer type with the maximum `typeMax`. */
  predicate TypeSuits(typeMax: nat, randMax: nat) {
    typeMax / (INT_MAX - INT_MIN + 1) >= randMax
  }

  /** The product which is computed first. */
  function Scaled(min: int32, max: int32, draw: nat): int {
    (max - min + 1) * draw
  }

  /** The value for a number drawn from 0 to `randMax`. */
  function Value(min: int32, max: int32, draw: nat, randMax: nat): int
    requires draw <= randMax
  {
    if max < min then 0 - randMax else min + Scaled(min, max, draw) / (randMax + 1)
  }

  lemma ProductGrows(a: nat, b: nat, c: nat)
    requires a <= b
    ensures a * c <= b * c
  {
  }

  lemma ProductsGrow(a: nat, b: nat, c: nat, d: nat)
    requires a <= c && b <= d
    ensures a * b <= c * d
  {
    ProductGrows(a, c, b);
    ProductGrows(b, d, c);
    assert b * c == c * b && d * c == c * d;
  }

  lemma OrderedByProducts(a: nat, b: nat, d: nat)
    requires a * d < b * d + d
    ensures a <= b
  {
    ProductGrows(b + 1, if a > b then a else b + 1, d);
    assert (b + 1) * d == b * d + d;
  }

  /** The quotient is the only number with this property. */
  lemma Quotient(n: nat, d: nat, q: nat)
    requires d > 0
    ensures n / d == q <==> q * d <= n < q * d + d
  {
    var p := n / d;
    assert p * d <= n < p * d + d;
    if q * d <= n < q * d + d {
      OrderedByProducts(p, q, d);
      OrderedByProducts(q, p, d);
    }
  }

  /** For all bounds, no result of an operation overflows the type, and the value is within the
      bounds. RAND_MAX is positive. */
  lemma StaysInRange(min: int32, max: int32, draw: nat, randMax: nat, typeMax: nat)
    requires min <= max && draw <= randMax && 1 <= randMax && TypeSuits(typeMax, randMax)
    ensures 0 <= max - min < max - min + 1 <= typeMax && randMax + 1 <= typeMax
    ensures 0 <= Scaled(min, max, draw) <= typeMax
    ensures min <= Value(min, max, draw, randMax) <= max
  {
    var w, all := max - min + 1, INT_MAX - INT_MIN + 1;
    var q := typeMax / all;
    assert all * q <= typeMax by {
      Quotient(typeMax, all, q);
    }
    assert w <= typeMax by {
      ProductsGrow(w, 1, all, q);
    }
    assert randMax + 1 <= typeMax by {
      ProductsGrow(2, randMax, all, q);
    }
    assert 0 <= w * draw <= typeMax by {
      ProductsGrow(w, draw, all, q);
    }
    assert w * draw < (randMax + 1) * w by {
      ProductsGrow(w, draw, w, randMax);
    }
    BelowQuotient(w * draw, randMax + 1, w);
  }

  /** A 64-bit type is just large enough for the greatest RAND_MAX of 31 bits, a 32-bit one is not
      enough for the least one. */
  lemma CommonTypes()
    ensures TypeSuits(0x7FFF_FFFF_FFFF_FFFF, 0x7FFF_FFFF) && !TypeSuits(0x7FFF_FFFF, 0x7FFF)
  {
  }

  /** Bounds in the wrong order are shown by -RAND_MAX, which is no number from bounds above it. */
  lemma WrongBoundsAreShown(min: int32, max: int32, draw: nat, randMax: nat)
    requires draw <= randMax && min > 0 - randMax
    ensures Value(min, max, draw, randMax) == 0 - randMax <==> max < min
  {
    if min <= max {
      ProductGrows(0, max - min + 1, draw);
      Quotient(Scaled(min, max, draw), randMax + 1, Scaled(min, max, draw) / (randMax + 1));
    }
  }

  lemma BelowQuotient(n: nat, d: nat, q: nat)
    requires d > 0 && n < d * q
    ensures n / d < q
  {
    Quotient(n, d, n / d);
    if n / d >= q {
      ProductGrows(q, n / d, d);
    }
  }

  lemma QuotientGrows(a: nat, b: nat, d: nat)
    requires a <= b && d > 0
    ensures a / d <= b / d
  {
    Quotient(a, d, a / d);
    Quotient(b, d, b / d);
    OrderedByProducts(a / d, b / d, d);
  }

  lemma ScaledGrows(w: nat, d1: nat, d2: nat)
    requires d1 <= d2
    ensures w * d1 <= w * d2
  {
  }

  /** A greater number drawn never gives a smaller value. */
  lemma IsMonotone(min: int32, max: int32, d1: nat, d2: nat, randMax: nat)
    requires min <= max && d1 <= d2 <= randMax
    ensures Value(min, max, d1, randMax) <= Value(min, max, d2, randMax)
  {
    ScaledGrows(max - min + 1, d1, d2);
    QuotientGrows(Scaled(min, max, d1), Scaled(min, max, d2), randMax + 1);
  }

  /** The first number drawn which gives at least `min` + `k`, that is k * m / w rounded up. */
  function FirstDraw(k: nat, w: nat, m: nat): nat
    requires w > 0
  {
    (k * m + w - 1) / w
  }

  lemma FirstDrawDivides(k: nat, w: nat, m: nat, d: nat)
    requires w > 0
    ensures d >= FirstDraw(k, w, m) <==> k * m <= w * d
  {
    var a := FirstDraw(k, w, m);
    Quotient(k * m + w - 1, w, a);
    assert a * w == w * a;
    if d >= a {
      ProductGrows(a, d, w);
    } else {
      ProductGrows(d + 1, a, w);
      assert (d + 1) * w == d * w + w;
    }
  }

  /** The numbers which give one value follow one another. */
  lemma DrawsOfValue(min: int32, max: int32, k: nat, d: nat, randMax: nat)
    requires min <= max && d <= randMax
    ensures Value(min, max, d, randMax) == min + k <==>
            FirstDraw(k, max - min + 1, randMax + 1) <= d < FirstDraw(k + 1, max - min + 1, randMax + 1)
  {
    var w, m := max - min + 1, randMax + 1;
    Quotient(w * d, m, k);
    FirstDrawDivides(k, w, m, d);
    FirstDrawDivides(k + 1, w, m, d);
    assert (k + 1) * m == k * m + m;
  }

  /** They are as many as the numbers are times as many as the values, rounded down or up. */
  lemma DrawCount(k: nat, w: nat, m: nat)
    requires w > 0
    ensures var n := FirstDraw(k + 1, w, m) - FirstDraw(k, w, m); m / w <= n <= m / w + 1
    ensures m % w == 0 ==> FirstDraw(k + 1, w, m) - FirstDraw(k, w, m) == m / w
  {
    assert (k + 1) * m == k * m + m;
    QuotientOfSum(k * m + w - 1, m, w);
  }

  lemma QuotientOfSum(n: nat, m: nat, w: nat)
    requires w > 0
    ensures n / w + m / w <= (n + m) / w <= n / w + m / w + 1
    ensures m % w == 0 ==> (n + m) / w == n / w + m / w
  {
    var a, b, q := n / w, (n + m) / w, m / w;
    Quotient(n, w, a);
    Quotient(n + m, w, b);
    Quotient(m, w, q);
    assert (a + q) * w == a * w + q * w;
    assert (a + q + 1) * w == a * w + q * w + w;
    OrderedByProducts(a + q, b, w);
    OrderedByProducts(b, a + q + 1, w);
    if m % w == 0 {
      assert m == q * w;
      OrderedByProducts(b, a + q, w);
    }
  }

  /** The numbers drawn which give the value `min` + `k`. */
  ghost function Draws(min: int32, max: int32, k: nat, randMax: nat): set<nat> {
    set d: nat | d <= randMax && Value(min, max, d, randMax) == min + k
  }

  lemma {:induction false} IntervalSize(s: set<nat>, low: nat, high: nat)
    requires low <= high && forall d: nat :: d in s <==> low <= d < high
    ensures |s| == high - low
    decreases high - low
  {
    if low < high {
      IntervalSize(s - {high - 1}, low, high - 1);
      assert s == (s - {high - 1}) + {high - 1};
    } else {
      assert s == {};
    }
  }

  /** The number after the last one gives none of the values. */
  lemma DrawsEnd(k: nat, w: nat, m: nat)
    requires k < w
    ensures FirstDraw(k, w, m) <= FirstDraw(k + 1, w, m) <= m
  {
    DrawCount(k, w, m);
    ProductGrows(k + 1, w, m);
    FirstDrawDivides(k + 1, w, m, m);
  }

  /** All values are hit about equally often: by m / w numbers or by one more. */
  lemma HitsAreEven(min: int32, max: int32, k: nat, randMax: nat)
    requires min <= max && k <= max - min
    ensures var m, w := randMax + 1, max - min + 1;
            m / w <= |Draws(min, max, k, randMax)| <= m / w + 1
  {
    var w, m := max - min + 1, randMax + 1;
    var low, high := FirstDraw(k, w, m), FirstDraw(k + 1, w, m);
    DrawCount(k, w, m);
    DrawsEnd(k, w, m);
    forall d: nat
      ensures d in Draws(min, max, k, randMax) <==> low <= d < high
    {
      if d <= randMax {
        DrawsOfValue(min, max, k, d, randMax);
      }
    }
    IntervalSize(Draws(min, max, k, randMax), low, high);
  }

  /** Every value is reached if there are at least as many numbers as values. */
  lemma ReachesAll(min: int32, max: int32, v: int, randMax: nat)
    requires min <= v <= max && max - min <= randMax
    ensures exists d: nat :: d <= randMax && Value(min, max, d, randMax) == v
  {
    var draws := Draws(min, max, v - min, randMax);
    HitsAreEven(min, max, v - min, randMax);
    Quotient(randMax + 1, max - min + 1, 0);
    assert |draws| > 0;
    var d :| d in draws;
    assert d <= randMax && Value(min, max, d, randMax) == v;
  }
}
