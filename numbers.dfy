/**
  Python's numeric conversions and operators over exact reals and unbounded integers:
  `int(x)` truncates toward zero, `x // y` and `x % y` floor, for floats and ints alike.
*/
module Numbers {

  /** `int(x)` for a float: the integer part, rounded toward zero. */
  function Trunc(x: real): (r: int)
    ensures x >= 0.0 ==> 0 <= r && r as real <= x < r as real + 1.0
    ensures x < 0.0 ==> r <= 0 && r as real - 1.0 < x <= r as real
  {
    if x >= 0.0 then x.Floor else -((-x).Floor)
  }

  /** Truncation never reverses the order of its arguments. */
  lemma TruncMonotone(x: real, y: real)
    requires x <= y
    ensures Trunc(x) <= Trunc(y)
  {
    if x >= 0.0 || y < 0.0 {
      assert x.Floor <= y.Floor;
      assert (-y).Floor <= (-x).Floor;
    }
  }

  /** An integral float is unchanged by `int`. */
  lemma TruncOfInt(n: int)
    ensures Trunc(n as real) == n
  {
  }

  /** Float `x // y`: the floor of the exact quotient. */
  function FloorDiv(x: real, y: real): (q: int)
    requires y != 0.0
    ensures q as real <= x / y < q as real + 1.0
  {
    (x / y).Floor
  }

  /** Float `x % y`: what is left after `x // y` whole multiples of `y`. */
  function FloorMod(x: real, y: real): (r: real)
    requires y != 0.0
    ensures y > 0.0 ==> 0.0 <= r < y
    ensures x == FloorDiv(x, y) as real * y + r
  {
    var q := FloorDiv(x, y);
    FloorDivBounds(x, y);
    x - q as real * y
  }

  /** The multiples of a positive `y` around `x`. */
  lemma FloorDivBounds(x: real, y: real)
    requires y != 0.0
    ensures y > 0.0 ==> FloorDiv(x, y) as real * y <= x < FloorDiv(x, y) as real * y + y
  {
    if y > 0.0 {
      var q, d := FloorDiv(x, y), x / y;
      assert d * y == x;
      MulMonotone(q as real, d, y);
      MulStrict(d, q as real + 1.0, y);
      assert (q as real + 1.0) * y == q as real * y + y;
      assert q as real * y <= x;
      assert x < q as real * y + y;
    }
  }

  lemma MulMonotone(a: real, b: real, c: real)
    requires a <= b && c > 0.0
    ensures a * c <= b * c
  {
  }

  lemma MulStrict(a: real, b: real, c: real)
    requires a < b && c > 0.0
    ensures a * c < b * c
  {
  }

  lemma DivMonotone(a: real, b: real, c: real)
    requires a <= b && c > 0.0
    ensures a / c <= b / c
  {
    assert (b / c - a / c) * c == b - a;
  }

  /** Integer `a // b`, rounding toward minus infinity for either sign of `b`. */
  function IntFloorDiv(a: int, b: int): (q: int)
    requires b != 0
    ensures b > 0 ==> q * b <= a < q * b + b
    ensures b < 0 ==> q * b + b < a <= q * b
  {
    if b > 0 then a / b else (-a) / (-b)
  }

  /** Integer `a % b`: it takes the sign of `b`, as in Python. */
  function IntFloorMod(a: int, b: int): (r: int)
    requires b != 0
    ensures a == IntFloorDiv(a, b) * b + r
    ensures b > 0 ==> 0 <= r < b
    ensures b < 0 ==> b < r <= 0
  {
    a - IntFloorDiv(a, b) * b
  }
  /** `abs` on integers. */
  function Abs(x: int): (r: nat)
    ensures r == x || r == -x
  {
    if x < 0 then -x else x
  }

  /** `sum` of a list of floats. */
  function Sum(xs: seq<real>): real {
    if xs == [] then 0.0 else Sum(xs[..|xs| - 1]) + xs[|xs| - 1]
  }

  /** `min` of a non-empty list of floats. */
  function MinOf(xs: seq<real>): (m: real)
    requires xs != []
    ensures forall i :: 0 <= i < |xs| ==> m <= xs[i]
  {
    if |xs| == 1 then xs[0]
    else
      var rest := MinOf(xs[..|xs| - 1]);
      if xs[|xs| - 1] < rest then xs[|xs| - 1] else rest
  }

  /** `max` of a non-empty list of floats. */
  function MaxOf(xs: seq<real>): (m: real)
    requires xs != []
    ensures forall i :: 0 <= i < |xs| ==> xs[i] <= m
  {
    if |xs| == 1 then xs[0]
    else
      var rest := MaxOf(xs[..|xs| - 1]);
      if xs[|xs| - 1] > rest then xs[|xs| - 1] else rest
  }

  /** The least and greatest elements are elements. */
  lemma {:induction false} MinMaxAttained(xs: seq<real>)
    requires xs != []
    ensures MinOf(xs) in xs && MaxOf(xs) in xs
  {
    if |xs| > 1 {
      MinMaxAttained(xs[..|xs| - 1]);
    }
  }

  /** A sum lies between `n` times the least and `n` times the greatest element. */
  lemma SumBetween(xs: seq<real>)
    requires xs != []
    ensures |xs| as real * MinOf(xs) <= Sum(xs) <= |xs| as real * MaxOf(xs)
  {
    SumAboveMin(xs);
    SumBelowMax(xs);
  }

  lemma {:induction false} SumAboveMin(xs: seq<real>)
    requires xs != []
    ensures |xs| as real * MinOf(xs) <= Sum(xs)
  {
    if |xs| > 1 {
      var init, x := xs[..|xs| - 1], xs[|xs| - 1];
      SumAboveMin(init);
      assert Sum(xs) == Sum(init) + x;
      assert |xs| as real == |init| as real + 1.0;
      assert MinOf(xs) <= MinOf(init) && MinOf(xs) <= x;
      ExtendLower(|init| as real, MinOf(xs), MinOf(init), Sum(init), x);
    }
  }

  lemma {:induction false} SumBelowMax(xs: seq<real>)
    requires xs != []
    ensures Sum(xs) <= |xs| as real * MaxOf(xs)
  {
    if |xs| > 1 {
      var init, x := xs[..|xs| - 1], xs[|xs| - 1];
      SumBelowMax(init);
      assert Sum(xs) == Sum(init) + x;
      assert |xs| as real == |init| as real + 1.0;
      assert MaxOf(init) <= MaxOf(xs) && x <= MaxOf(xs);
      ExtendUpper(|init| as real, MaxOf(xs), MaxOf(init), Sum(init), x);
    }
  }

  lemma ExtendLower(n: real, a: real, b: real, s: real, x: real)
    requires n > 0.0 && n * b <= s && a <= b && a <= x
    ensures (n + 1.0) * a <= s + x
  {
    MulMonotone(a, b, n);
    assert (n + 1.0) * a == a * n + a;
  }

  lemma ExtendUpper(n: real, a: real, b: real, s: real, x: real)
    requires n > 0.0 && s <= n * b && b <= a && x <= a
    ensures s + x <= (n + 1.0) * a
  {
    MulMonotone(b, a, n);
    assert (n + 1.0) * a == a * n + a;
  }

  /** The mean of a non-empty list lies between its least and greatest elements. */
  lemma MeanBetween(xs: seq<real>)
    requires xs != []
    ensures MinOf(xs) <= Sum(xs) / |xs| as real <= MaxOf(xs)
  {
    var lo, s, hi := MinOf(xs), Sum(xs), MaxOf(xs);
    SumBetween(xs);
    DivBetween(lo, s, hi, |xs|);
  }

  /** Dividing by a positive count keeps a value between bounds scaled by that count. */
  lemma DivBetween(lo: real, s: real, hi: real, n: nat)
    requires n > 0 && n as real * lo <= s <= n as real * hi
    ensures lo <= s / n as real <= hi
  {
    var d := n as real;
    DivMonotone(d * lo, s, d);
    DivMonotone(s, d * hi, d);
    assert d * lo / d == lo;
    assert d * hi / d == hi;
  }

  lemma DivPositive(a: real, b: real)
    requires a > 0.0 && b > 0.0
    ensures a / b > 0.0
  {
  }

  /** A list of integers as floats, as Python's true division sees them. */
  function AsReals(xs: seq<int>): (r: seq<real>)
    ensures |r| == |xs| && forall i :: 0 <= i < |xs| ==> r[i] == xs[i] as real
  {
    if xs == [] then [] else AsReals(xs[..|xs| - 1]) + [xs[|xs| - 1] as real]
  }

  /** `sum` of a list of integers. */
  function IntSum(xs: seq<int>): int {
    if xs == [] then 0 else IntSum(xs[..|xs| - 1]) + xs[|xs| - 1]
  }

  /** `min` of a non-empty list of integers: the least of their float values, which is one
      of them. */
  function IntMin(xs: seq<int>): (m: int)
    requires xs != []
    ensures m as real == MinOf(AsReals(xs))
    ensures m in xs && forall i :: 0 <= i < |xs| ==> m <= xs[i]
  {
    var r := AsReals(xs);
    MinMaxAttained(r);
    MinOf(r).Floor
  }

  /** `max` of a non-empty list of integers: the greatest of their float values, which is one
      of them. */
  function IntMax(xs: seq<int>): (m: int)
    requires xs != []
    ensures m as real == MaxOf(AsReals(xs))
    ensures m in xs && forall i :: 0 <= i < |xs| ==> xs[i] <= m
  {
    var r := AsReals(xs);
    MinMaxAttained(r);
    MaxOf(r).Floor
  }

  /** Summing integers and then converting agrees with summing their float values. */
  lemma {:induction false} IntSumAsReal(xs: seq<int>)
    ensures IntSum(xs) as real == Sum(AsReals(xs))
  {
    if xs != [] {
      IntSumAsReal(xs[..|xs| - 1]);
      assert AsReals(xs)[..|xs| - 1] == AsReals(xs[..|xs| - 1]);
    }
  }

  /** The true-division mean of a non-empty list of integers lies between its least and
      greatest elements. */
  lemma IntMeanBetween(xs: seq<int>)
    requires xs != []
    ensures IntMin(xs) as real <= IntSum(xs) as real / |xs| as real <= IntMax(xs) as real
  {
    IntSumAsReal(xs);
    MeanBetween(AsReals(xs));
  }
}
