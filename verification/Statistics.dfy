/** The score interval of a proportion and the interpolated percentile, in exact reals. */
module Statistics {
  import opened LinearAlgebra

  function Min(x: real, y: real): real {
    if x <= y then x else y
  }

  datatype Interval = Interval(lower: real, upper: real)

  ghost predicate Inside(x: real, interval: Interval) {
    interval.lower <= x <= interval.upper
  }

  /** The variance under the square root of the margin. */
  function Spread(rate: real, z: real, n: real): real
    requires n > 0.0
  {
    rate * (1.0 - rate) / n + z * z / (4.0 * (n * n))
  }

  /** `wilson_interval`. */
  function WilsonInterval(successes: int, total: int, z: real, sqrt: real -> real): Interval {
    if total <= 0 then Interval(0.0, 1.0)
    else
      WilsonAround(successes as real / total as real, total as real, z, sqrt)
  }

  function WilsonAround(rate: real, n: real, z: real, sqrt: real -> real): Interval
    requires n > 0.0
  {
    Cut(1.0 + z * z / n, Centre(rate, z, n), z * sqrt(Spread(rate, z, n)))
  }

  function Centre(rate: real, z: real, n: real): real
    requires n > 0.0
  {
    rate + z * z / (2.0 * n)
  }

  /** The interval around a centre, both still to be divided by the denominator, cut to [0, 1]. */
  function Cut(d: real, centre: real, margin: real): Interval {
    if d == 0.0 then Interval(0.0, 1.0)
    else Interval(Max(0.0, centre / d - margin / d), Min(1.0, centre / d + margin / d))
  }

  /** The score test does not reject the proportion. */
  ghost predicate Plausible(successes: int, total: int, z: real, proportion: real)
    requires total > 0
  {
    var deviation := successes as real / total as real - proportion;
    deviation * deviation <= z * z * proportion * (1.0 - proportion) / total as real
  }

  /******* Real arithmetic *******/

  lemma ProductSign(x: real, y: real)
    ensures x >= 0.0 && y >= 0.0 ==> x * y >= 0.0
    ensures x > 0.0 && y > 0.0 ==> x * y > 0.0
  {
  }

  lemma Quotient(x: real, c: real)
    requires c > 0.0
    ensures c * (x / c) == x && (x >= 0.0 ==> x / c >= 0.0)
  {
  }

  lemma SquareLess(x: real, y: real)
    requires 0.0 <= x < y
    ensures x * x < y * y
  {
    assert y * (y - x) > 0.0 && x * (y - x) >= 0.0;
  }

  lemma SquareAtMost(u: real, m: real)
    requires m >= 0.0
    ensures u * u <= m * m <==> -m <= u <= m
  {
    if u > m {
      SquareLess(m, u);
    } else if u < -m {
      SquareLess(m, -u);
    } else {
      assert (m - u) * (m + u) >= 0.0;
    }
  }

  lemma ScaleOrder(d: real, x: real, y: real)
    requires d > 0.0
    ensures x <= y <==> d * x <= d * y
  {
    if x <= y {
      ProductSign(d, y - x);
    } else {
      ProductSign(d, x - y);
    }
  }

  /******* The interval as the solution of a quadratic inequality *******/

  lemma ScoreIdentity(rate: real, t: real, x: real)
    ensures var u := (1.0 + t) * x - (rate + t / 2.0);
      var gap := (rate - x) * (rate - x) - t * (x * (1.0 - x));
      (1.0 + t) * gap == u * u - (t * (rate * (1.0 - rate)) + t * t / 4.0)
  {
  }

  /** With `t` for the squared score over the sample size, the test is a quadratic inequality. */
  lemma ScoreQuadratic(rate: real, t: real, x: real, u: real)
    requires t >= 0.0 && u == (1.0 + t) * x - (rate + t / 2.0)
    ensures (rate - x) * (rate - x) <= t * (x * (1.0 - x)) <==> u * u <= t * (rate * (1.0 - rate)) + t * t / 4.0
  {
    var gap := (rate - x) * (rate - x) - t * (x * (1.0 - x));
    ScoreIdentity(rate, t, x);
    ScaleOrder(1.0 + t, gap, 0.0);
  }

  lemma CutScaled(d: real, centre: real, margin: real, x: real, u: real)
    requires d > 0.0 && 0.0 <= x <= 1.0 && u == d * x - centre
    ensures Inside(x, Cut(d, centre, margin)) <==> -margin <= u <= margin
  {
    Quotient(centre, d);
    Quotient(margin, d);
    BetweenScaled(d, centre / d, margin / d, x, centre, margin, u);
  }

  lemma BetweenScaled(d: real, c: real, m: real, x: real, centre: real, margin: real, u: real)
    requires d > 0.0 && d * c == centre && d * m == margin && u == d * x - centre
    ensures c - m <= x <= c + m <==> -margin <= u <= margin
  {
    assert d * (c - m) == centre - margin && d * (c + m) == centre + margin;
    ScaleOrder(d, c - m, x);
    ScaleOrder(d, x, c + m);
  }

  lemma CutIff(rate: real, t: real, d: real, centre: real, margin: real, x: real)
    requires t >= 0.0 && margin >= 0.0 && 0.0 <= x <= 1.0 && d == 1.0 + t && centre == rate + t / 2.0
    requires margin * margin == t * (rate * (1.0 - rate)) + t * t / 4.0
    ensures Inside(x, Cut(d, centre, margin)) <==> (rate - x) * (rate - x) <= t * (x * (1.0 - x))
  {
    var u := d * x - centre;
    ScoreQuadratic(rate, t, x, u);
    SquareAtMost(u, margin);
    CutScaled(d, centre, margin, x, u);
  }

  /******* From the formula of the source to the quadratic *******/

  /** The forms in which the squared score over the sample size occurs. */
  lemma ScoreForms(q: real, n: real, t: real, x: real)
    requires n > 0.0 && q >= 0.0 && t == q / n
    ensures t >= 0.0 && q / (2.0 * n) == t / 2.0 && q * (x / n) == t * x && q * x / n == t * x
  {
    Quotient(q, n);
    Quotient(q, 2.0 * n);
    SameFactor(2.0 * n, q / (2.0 * n), t / 2.0);
    Quotient(x, n);
    Quotient(q * x, n);
    assert n * (t * x) == q * x == q * (n * (x / n)) == n * (q * (x / n));
    SameFactor(n, t * x, q * (x / n));
    SameFactor(n, t * x, q * x / n);
  }

  lemma QuarterOver(q: real, n: real, t: real, c: real, s: real)
    requires n > 0.0 && q >= 0.0 && c > 0.0 && n * t == q && c * s == q && c * (t * t / 4.0) == (n * t) * (n * t)
    ensures s >= 0.0 && q * s == t * t / 4.0
  {
    ScaleOrder(c, 0.0, s);
    assert c * (q * s) == q * (c * s);
    SameFactor(c, q * s, t * t / 4.0);
  }

  lemma FourSquares(n: real, t: real)
    ensures 4.0 * (n * n) * (t * t / 4.0) == (n * t) * (n * t)
  {
  }

  lemma ProductPositive(x: real, y: real, c: real)
    requires x > 0.0 && y > 0.0 && c == x * y
    ensures c > 0.0
  {
  }

  lemma QuarterForm(q: real, n: real, t: real)
    requires n > 0.0 && q >= 0.0 && t == q / n
    ensures q / (4.0 * (n * n)) >= 0.0 && q * (q / (4.0 * (n * n))) == t * t / 4.0
  {
    var c := 4.0 * (n * n);
    ProductPositive(4.0 * n, n, c);
    Quotient(q, c);
    Quotient(q, n);
    FourSquares(n, t);
    QuarterOver(q, n, t, c, q / c);
  }

  lemma MarginOver(z: real, a: real, b: real, c: real, t: real, sqrt: real -> real)
    requires IsSqrt(sqrt) && z >= 0.0 && a >= 0.0 && b >= 0.0
    requires z * z * a == c && z * z * b == t * t / 4.0
    ensures var m := z * sqrt(a + b); m >= 0.0 && m * m == c + t * t / 4.0
  {
    var s := sqrt(a + b);
    assert s >= 0.0 && s * s == a + b;
    ProductSign(z, s);
    RootProduct(z, s, a, b);
  }

  lemma MarginSquare(rate: real, z: real, n: real, t: real, sqrt: real -> real)
    requires IsSqrt(sqrt) && n > 0.0 && 0.0 <= rate <= 1.0 && z >= 0.0 && t == z * z / n
    ensures var m := z * sqrt(Spread(rate, z, n));
      m >= 0.0 && m * m == t * (rate * (1.0 - rate)) + t * t / 4.0
  {
    ProductSign(z, z);
    ProductSign(rate, 1.0 - rate);
    Quotient(rate * (1.0 - rate), n);
    ScoreForms(z * z, n, t, rate * (1.0 - rate));
    QuarterForm(z * z, n, t);
    MarginOver(z, rate * (1.0 - rate) / n, z * z / (4.0 * (n * n)), t * (rate * (1.0 - rate)), t, sqrt);
  }

  lemma RootProduct(z: real, s: real, a: real, b: real)
    requires s * s == a + b
    ensures (z * s) * (z * s) == z * z * a + z * z * b
  {
    assert (z * s) * (z * s) == (z * z) * (s * s);
  }

  lemma CentreForm(rate: real, z: real, n: real, t: real)
    requires n > 0.0 && t == z * z / n
    ensures t >= 0.0 && Centre(rate, z, n) == rate + t / 2.0
  {
    SquareSign(z);
    ScoreForms(z * z, n, t, 0.0);
  }

  lemma SquareSign(z: real)
    ensures z * z >= 0.0
  {
  }

  lemma PlausibleForm(successes: int, total: int, z: real, x: real, n: real, rate: real, t: real)
    requires total > 0 && n == total as real && rate == successes as real / n && t == z * z / n && z >= 0.0
    ensures Plausible(successes, total, z, x) <==> (rate - x) * (rate - x) <= t * (x * (1.0 - x))
  {
    ProductSign(z, z);
    ScoreForms(z * z, n, t, x * (1.0 - x));
    assert z * z * x * (1.0 - x) == z * z * (x * (1.0 - x));
  }

  lemma RateBounds(successes: int, total: int)
    requires 0 <= successes <= total && total > 0
    ensures 0.0 <= successes as real / total as real <= 1.0
  {
  }

  lemma AroundIff(rate: real, n: real, z: real, t: real, sqrt: real -> real, x: real)
    requires IsSqrt(sqrt) && n > 0.0 && 0.0 <= rate <= 1.0 && z >= 0.0 && t == z * z / n && 0.0 <= x <= 1.0
    ensures Inside(x, WilsonAround(rate, n, z, sqrt)) <==> (rate - x) * (rate - x) <= t * (x * (1.0 - x))
  {
    CentreForm(rate, z, n, t);
    MarginSquare(rate, z, n, t, sqrt);
    CutIff(rate, t, 1.0 + t, Centre(rate, z, n), z * sqrt(Spread(rate, z, n)), x);
  }

  /** The interval is exactly the set of proportions in [0, 1] the score test does not reject. */
  lemma WilsonIsScoreTest(successes: int, total: int, z: real, sqrt: real -> real, proportion: real)
    requires IsSqrt(sqrt) && 0 <= successes <= total && total > 0 && z >= 0.0 && 0.0 <= proportion <= 1.0
    ensures Inside(proportion, WilsonInterval(successes, total, z, sqrt)) <==>
      Plausible(successes, total, z, proportion)
  {
    var n := total as real;
    var rate, t := successes as real / n, z * z / n;
    RateBounds(successes, total);
    AroundIff(rate, n, z, t, sqrt, proportion);
    PlausibleForm(successes, total, z, proportion, n, rate, t);
    assert WilsonInterval(successes, total, z, sqrt) == WilsonAround(rate, n, z, sqrt);
  }

  /** The bounds are ordered, lie in [0, 1] and enclose the observed rate. */
  lemma WilsonBounds(successes: int, total: int, z: real, sqrt: real -> real)
    requires IsSqrt(sqrt) && 0 <= successes <= total && total > 0 && z >= 0.0
    ensures var i := WilsonInterval(successes, total, z, sqrt);
      0.0 <= i.lower <= successes as real / total as real <= i.upper <= 1.0
  {
    RateBounds(successes, total);
    var n := total as real;
    var rate, t := successes as real / n, z * z / n;
    CentreForm(rate, z, n, t);
    PlausibleForm(successes, total, z, rate, n, rate, t);
    ProductSign(rate, 1.0 - rate);
    ProductSign(t, rate * (1.0 - rate));
    WilsonIsScoreTest(successes, total, z, sqrt, rate);
  }

  /** A larger score keeps every plausible proportion, so the intervals are nested. */
  lemma WilsonGrows(successes: int, total: int, z: real, wider: real, sqrt: real -> real, x: real)
    requires IsSqrt(sqrt) && 0 <= successes <= total && total > 0 && 0.0 <= z <= wider && 0.0 <= x <= 1.0
    requires Inside(x, WilsonInterval(successes, total, z, sqrt))
    ensures Inside(x, WilsonInterval(successes, total, wider, sqrt))
  {
    WilsonIsScoreTest(successes, total, z, sqrt, x);
    PlausibleGrows(successes, total, z, wider, x);
    WilsonIsScoreTest(successes, total, wider, sqrt, x);
  }

  lemma PlausibleGrows(successes: int, total: int, z: real, wider: real, x: real)
    requires total > 0 && 0.0 <= z <= wider && 0.0 <= x <= 1.0 && Plausible(successes, total, z, x)
    ensures Plausible(successes, total, wider, x)
  {
    var n := total as real;
    var rate, t, u := successes as real / n, z * z / n, wider * wider / n;
    PlausibleForm(successes, total, z, x, n, rate, t);
    PlausibleForm(successes, total, wider, x, n, rate, u);
    ScoreGrows(z, wider, n);
    ProductSign(x, 1.0 - x);
    ScaledMore(t, u, x * (1.0 - x));
  }

  lemma ScoreGrows(z: real, wider: real, n: real)
    requires 0.0 <= z <= wider && n > 0.0
    ensures z * z / n <= wider * wider / n
  {
    assert wider * (wider - z) >= 0.0 && z * (wider - z) >= 0.0;
    Quotient(z * z, n);
    Quotient(wider * wider, n);
    ScaleOrder(n, z * z / n, wider * wider / n);
  }

  lemma ScaledMore(t: real, u: real, y: real)
    requires t <= u && y >= 0.0
    ensures t * y <= u * y
  {
    ProductSign(u - t, y);
  }

  /******* Percentiles *******/

  ghost predicate Ordered(s: seq<real>) {
    forall i, j | 0 <= i <= j < |s| :: s[i] <= s[j]
  }

  function Insert(x: real, s: seq<real>): (r: seq<real>)
    ensures multiset(r) == multiset(s) + multiset{x}
  {
    if s == [] then [x]
    else if x <= s[0] then [x] + s
    else
      assert s == [s[0]] + s[1..];
      [s[0]] + Insert(x, s[1..])
  }

  lemma InsertElement(x: real, s: seq<real>, k: nat)
    requires k < |Insert(x, s)|
    ensures Insert(x, s)[k] == x || Insert(x, s)[k] in s
  {
    assert Insert(x, s)[k] in multiset(Insert(x, s));
  }

  lemma ConsOrdered(x: real, s: seq<real>)
    requires Ordered(s) && forall k | 0 <= k < |s| :: x <= s[k]
    ensures Ordered([x] + s)
  {
  }

  lemma {:induction false} InsertOrdered(x: real, s: seq<real>)
    requires Ordered(s)
    ensures Ordered(Insert(x, s))
  {
    if s != [] && x <= s[0] {
      ConsOrdered(x, s);
    } else if s != [] {
      var rest := Insert(x, s[1..]);
      InsertOrdered(x, s[1..]);
      forall k | 0 <= k < |rest| ensures s[0] <= rest[k] {
        InsertElement(x, s[1..], k);
      }
      ConsOrdered(s[0], rest);
    }
  }

  /** Python's `sorted`, up to the algorithm. */
  function Sorted(s: seq<real>): (r: seq<real>)
    ensures multiset(r) == multiset(s) && Ordered(r) && |r| == |s|
  {
    if s == [] then []
    else
      assert s == [s[0]] + s[1..];
      InsertOrdered(s[0], Sorted(s[1..]));
      var r := Insert(s[0], Sorted(s[1..]));
      assert |r| == |multiset(r)| == |multiset(s)| == |s|;
      r
  }

  /** The value at a position between two ranks. */
  function Interpolated(ordered: seq<real>, position: real): real
    requires 0.0 <= position <= (|ordered| - 1) as real
  {
    var lower := position.Floor;
    if lower as real == position then ordered[lower]
    else
      var fraction := position - lower as real;
      ordered[lower] * (1.0 - fraction) + ordered[lower + 1] * fraction
  }

  /** `percentile`. */
  function Percentile(values: seq<real>, quantile: real): real {
    var ordered := Sorted(values);
    if |ordered| == 0 then 0.0
    else if |ordered| == 1 then ordered[0]
    else Interpolated(ordered, Position(|ordered|, quantile))
  }

  function Position(count: nat, quantile: real): (p: real)
    requires count > 0
    ensures 0.0 <= p <= (count - 1) as real
  {
    ScaledMore(0.0, Clamped(quantile), (count - 1) as real);
    ScaledMore(Clamped(quantile), 1.0, (count - 1) as real);
    Clamped(quantile) * (count - 1) as real
  }

  function Clamped(quantile: real): real {
    Min(1.0, Max(0.0, quantile))
  }

  lemma Between(x: real, y: real, f: real)
    requires x <= y && 0.0 <= f <= 1.0
    ensures x <= x * (1.0 - f) + y * f <= y
  {
    ProductSign(y - x, f);
    ProductSign(y - x, 1.0 - f);
    assert x * (1.0 - f) + y * f == x + (y - x) * f == y - (y - x) * (1.0 - f);
  }

  lemma BetweenGrows(x: real, y: real, f: real, g: real)
    requires x <= y && f <= g
    ensures x * (1.0 - f) + y * f <= x * (1.0 - g) + y * g
  {
    ProductSign(y - x, g - f);
    assert (x * (1.0 - g) + y * g) - (x * (1.0 - f) + y * f) == (y - x) * (g - f);
  }

  /** An interpolated value lies between the two ranks around it. */
  lemma InterpolatedBetween(ordered: seq<real>, position: real)
    requires Ordered(ordered) && 0.0 <= position <= (|ordered| - 1) as real
    ensures var lower := position.Floor;
      ordered[lower] <= Interpolated(ordered, position)
      && (lower + 1 < |ordered| ==> Interpolated(ordered, position) <= ordered[lower + 1])
  {
    var lower := position.Floor;
    if lower as real != position {
      Between(ordered[lower], ordered[lower + 1], position - lower as real);
    }
  }

  lemma InterpolatedGrows(ordered: seq<real>, p: real, q: real)
    requires Ordered(ordered) && 0.0 <= p <= q <= (|ordered| - 1) as real
    ensures Interpolated(ordered, p) <= Interpolated(ordered, q)
  {
    InterpolatedBetween(ordered, p);
    InterpolatedBetween(ordered, q);
    if p.Floor == q.Floor && p.Floor as real != p {
      BetweenGrows(ordered[p.Floor], ordered[p.Floor + 1], p - p.Floor as real, q - p.Floor as real);
    }
  }

  lemma PositionGrows(count: nat, p: real, q: real)
    requires count > 0 && p <= q
    ensures Position(count, p) <= Position(count, q)
    ensures p <= 0.0 ==> Position(count, p) == 0.0
    ensures q >= 1.0 ==> Position(count, q) == (count - 1) as real
  {
    var m := (count - 1) as real;
    ScaledTo(Clamped(p), Clamped(q), m, Position(count, p), Position(count, q));
  }

  /** Two products of a non-negative number, by what they are. */
  lemma ScaledTo(x: real, y: real, m: real, a: real, b: real)
    requires x <= y && m >= 0.0 && a == x * m && b == y * m
    ensures a <= b && (x == 0.0 ==> a == 0.0) && (y == 1.0 ==> b == m)
  {
    ScaledMore(x, y, m);
  }

  /** A percentile grows with the quantile, and reaches the smallest and the largest value at the ends. */
  lemma PercentileMonotone(values: seq<real>, p: real, q: real)
    requires p <= q && values != []
    ensures Percentile(values, p) <= Percentile(values, q)
    ensures p <= 0.0 ==> Percentile(values, p) in values && forall v | v in values :: Percentile(values, p) <= v
    ensures q >= 1.0 ==> Percentile(values, q) in values && forall v | v in values :: v <= Percentile(values, q)
  {
    var ordered := Sorted(values);
    var n := |ordered|;
    SortedExtremes(values);
    if n > 1 {
      PositionGrows(n, p, q);
      InterpolatedGrows(ordered, Position(n, p), Position(n, q));
    }
  }

  lemma InterpolatedAt(ordered: seq<real>, k: nat, f: real, position: real, x: real, y: real, v: real)
    requires k + 1 < |ordered| && 0.0 <= f <= 1.0 && position == k as real + f
    requires ordered[k] == x && ordered[k + 1] == y && v == x + (y - x) * f
    ensures 0.0 <= position <= (|ordered| - 1) as real
    ensures Interpolated(ordered, position) == v
  {
    if f == 1.0 {
      assert position.Floor == k + 1;
    } else {
      assert position.Floor == k;
      Mixed(x, y, f, v);
    }
  }

  lemma Mixed(x: real, y: real, f: real, v: real)
    requires v == x + (y - x) * f
    ensures x * (1.0 - f) + y * f == v
  {
  }

  lemma PositionIs(count: nat, quantile: real, m: real, position: real)
    requires count > 1 && m == (count - 1) as real && 0.0 <= position <= m && quantile * m == position
    ensures Position(count, quantile) == position
  {
    QuotientBounds(position, m, quantile);
  }

  lemma QuotientBounds(position: real, m: real, quantile: real)
    requires m > 0.0 && 0.0 <= position <= m && quantile * m == position
    ensures 0.0 <= quantile <= 1.0
  {
    if quantile < 0.0 {
      ProductPositive(-quantile, m, -quantile * m);
    } else if quantile > 1.0 {
      ProductPositive(quantile - 1.0, m, (quantile - 1.0) * m);
    }
  }

  lemma PercentileAt(values: seq<real>, quantile: real, position: real, k: nat, f: real, x: real, y: real, v: real)
    requires k + 1 < |values| && Position(|values|, quantile) == position
    requires 0.0 <= f <= 1.0 && position == k as real + f
    requires Sorted(values)[k] == x && Sorted(values)[k + 1] == y && v == x + (y - x) * f
    ensures Percentile(values, quantile) == v
  {
    InterpolatedAt(Sorted(values), k, f, position, x, y, v);
  }

  /** Of n values the percentile at `(k + f) / (n - 1)` lies the fraction `f` of the way from `x`, the k-th value in
      order, to `y`, the next, so that the percentiles are the line through the values in order, evenly spaced. */
  lemma PercentileIs(values: seq<real>, quantile: real, m: real, position: real, k: nat, f: real, x: real, y: real,
                     v: real)
    requires k + 1 < |values| && m == (|values| - 1) as real && 0.0 <= f <= 1.0
    requires quantile * m == position == k as real + f
    requires Sorted(values)[k] == x && Sorted(values)[k + 1] == y && v == x + (y - x) * f
    ensures Percentile(values, quantile) == v
  {
    PositionIs(|values|, quantile, m, position);
    PercentileAt(values, quantile, position, k, f, x, y, v);
  }

  lemma SortedExtremes(values: seq<real>)
    requires values != []
    ensures var s := Sorted(values);
      s[0] in values && s[|s| - 1] in values && forall v | v in values :: s[0] <= v <= s[|s| - 1]
  {
    var s := Sorted(values);
    assert s[0] in multiset(s) && s[|s| - 1] in multiset(s);
    forall v | v in values ensures s[0] <= v <= s[|s| - 1] {
      assert v in multiset(values);
      var i :| 0 <= i < |s| && s[i] == v;
    }
  }
}
