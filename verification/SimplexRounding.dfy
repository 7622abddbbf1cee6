/** Rounding sampled weights to six decimals so that they still add up to one. */
module SimplexRounding {

  const MICRO := 1000000.0

  /** The nearest integer, ties to even. */
  function Nearest(y: real): int {
    var below := y.Floor;
    var fraction := y - below as real;
    if fraction < 0.5 || (fraction == 0.5 && below % 2 == 0) then below else below + 1
  }

  /** Python's `round(x, 6)`. */
  function RoundMicro(x: real): real {
    Step(Nearest(x * MICRO))
  }

  function Sum(v: seq<real>): real {
    if v == [] then 0.0 else Sum(v[..|v| - 1]) + v[|v| - 1]
  }

  function RoundedAll(v: seq<real>): (r: seq<real>)
    ensures |r| == |v| && forall i | 0 <= i < |v| :: r[i] == RoundMicro(v[i])
  {
    seq(|v|, i requires 0 <= i < |v| => RoundMicro(v[i]))
  }

  /** The proposed weights: all but the last are rounded, the last is what is left. */
  function Weights(exact: seq<real>): seq<real>
    requires exact != []
  {
    var first := RoundedAll(exact[..|exact| - 1]);
    first + [RoundMicro(1.0 - Sum(first))]
  }

  /** The numbers with six decimals. */
  function Step(k: int): real {
    k as real / MICRO
  }

  ghost predicate OnGrid(x: real) {
    exists k :: x == Step(k)
  }

  /** The integer at most half away, and the even one of two that are just half away. */
  lemma NearestIff(y: real, k: int)
    ensures k == Nearest(y) <==>
      -0.5 <= y - k as real <= 0.5 && (y - k as real == 0.5 || y - k as real == -0.5 ==> k % 2 == 0)
  {
    var below := y.Floor;
    var fraction := y - below as real;
    if -0.5 <= y - k as real <= 0.5 {
      assert k == below || k == below + 1;
    }
  }

  /** Rounding to six decimals gives the nearest number with six decimals, the even one of two. */
  lemma RoundMicroIff(x: real, r: real)
    ensures r == RoundMicro(x) <==>
      exists k :: r == Step(k) && -0.5 <= 1000000.0 * x - k as real <= 0.5
        && (1000000.0 * x - k as real == 0.5 || 1000000.0 * x - k as real == -0.5 ==> k % 2 == 0)
  {
    var nearest := Nearest(x * MICRO);
    NearestIff(x * MICRO, nearest);
    if r == RoundMicro(x) {
      assert r == Step(nearest);
    }
    forall k | r == Step(k) && -0.5 <= 1000000.0 * x - k as real <= 0.5
      && (1000000.0 * x - k as real == 0.5 || 1000000.0 * x - k as real == -0.5 ==> k % 2 == 0)
      ensures r == RoundMicro(x)
    {
      NearestIff(x * MICRO, k);
    }
  }

  lemma RoundingError(x: real)
    ensures -0.0000005 <= RoundMicro(x) - x <= 0.0000005 && OnGrid(RoundMicro(x))
  {
  }

  lemma GridIsKept(x: real)
    requires OnGrid(x)
    ensures RoundMicro(x) == x
  {
  }

  lemma {:induction false} SumOnGrid(v: seq<real>)
    requires forall i | 0 <= i < |v| :: OnGrid(v[i])
    ensures OnGrid(1.0 - Sum(v))
  {
    if v == [] {
      assert 1.0 == Step(1000000);
    } else {
      var last := |v| - 1;
      SumOnGrid(v[..last]);
      var a :| 1.0 - Sum(v[..last]) == Step(a);
      var b :| v[last] == Step(b);
      assert 1.0 - Sum(v) == Step(a - b);
    }
  }

  lemma SumAppend(v: seq<real>, x: real)
    ensures Sum(v + [x]) == Sum(v) + x
  {
  }

  lemma {:induction false} RoundedSum(v: seq<real>)
    ensures -0.0000005 * |v| as real <= Sum(RoundedAll(v)) - Sum(v) <= 0.0000005 * |v| as real
  {
    if v != [] {
      var last := |v| - 1;
      RoundedSum(v[..last]);
      RoundingError(v[last]);
      assert RoundedAll(v)[..last] == RoundedAll(v[..last]);
    }
  }

  /** The weights add up to exactly one and lie on the grid, and the last one is off by at most half a step
      for each of the others. */
  lemma WeightsSumToOne(exact: seq<real>)
    requires exact != [] && Sum(exact) == 1.0
    ensures var w := Weights(exact);
      && |w| == |exact| && Sum(w) == 1.0
      && (forall i | 0 <= i < |w| :: OnGrid(w[i]))
      && var n := |w| - 1;
         && (forall i | 0 <= i < n :: -0.0000005 <= w[i] - exact[i] <= 0.0000005)
         && -0.0000005 * n as real <= w[n] - exact[n] <= 0.0000005 * n as real
  {
    var n := |exact| - 1;
    var first := RoundedAll(exact[..n]);
    forall i | 0 <= i < n ensures OnGrid(first[i]) && -0.0000005 <= first[i] - exact[i] <= 0.0000005 {
      RoundingError(exact[i]);
    }
    SumOnGrid(first);
    GridIsKept(1.0 - Sum(first));
    SumAppend(first, 1.0 - Sum(first));
    RoundedSum(exact[..n]);
  }

  /******* When the last weight is negative *******/

  /** The rounded numbers in millionths, added up. */
  function Micros(v: seq<real>): int {
    if v == [] then 0 else Micros(v[..|v| - 1]) + Nearest(v[|v| - 1] * MICRO)
  }

  lemma {:induction false} RoundedSumIs(v: seq<real>)
    ensures Sum(RoundedAll(v)) == Step(Micros(v))
  {
    if v != [] {
      var last := |v| - 1;
      RoundedSumIs(v[..last]);
      assert RoundedAll(v)[..last] == RoundedAll(v[..last]);
    }
  }

  /** The last weight is negative exactly when the others were rounded to more than a million millionths. */
  lemma LastWeightIff(exact: seq<real>)
    requires exact != []
    ensures var n := |exact| - 1;
      && Weights(exact)[n] == Step(1000000 - Micros(exact[..n]))
      && (Weights(exact)[n] >= 0.0 <==> Micros(exact[..n]) <= 1000000)
  {
    var n := |exact| - 1;
    var k := 1000000 - Micros(exact[..n]);
    RoundedSumIs(exact[..n]);
    assert 1.0 - Sum(RoundedAll(exact[..n])) == Step(k);
    GridIsKept(Step(k));
  }

  /** A last weight of at least half a step for each of the others stays non-negative. */
  lemma LastWeightSafe(exact: seq<real>)
    requires exact != [] && Sum(exact) == 1.0
    requires exact[|exact| - 1] >= 0.0000005 * (|exact| - 1) as real
    ensures forall i | 0 <= i < |exact| && exact[i] >= 0.0 :: Weights(exact)[i] >= 0.0
  {
    WeightsSumToOne(exact);
    var n := |exact| - 1;
    forall i | 0 <= i < n && exact[i] >= 0.0 ensures Weights(exact)[i] >= 0.0 {
      NonNegativeStays(exact[i]);
    }
  }

  lemma NonNegativeStays(x: real)
    requires x >= 0.0
    ensures RoundMicro(x) >= 0.0
  {
    assert (x * MICRO).Floor >= 0;
  }

  lemma SumOfFour(a: real, b: real, c: real, d: real)
    ensures Sum([a, b, c, d]) == a + b + c + d
  {
    SumAppend([], a);
    SumAppend([a], b);
    SumAppend([a, b], c);
    SumAppend([a, b, c], d);
    assert [] + [a] == [a] && [a] + [b] == [a, b] && [a, b] + [c] == [a, b, c] && [a, b, c] + [d] == [a, b, c, d];
  }

  /** A sampled point of the simplex whose last weight is rounded below zero. */
  lemma LastWeightCanBeNegative() returns (exact: seq<real>)
    ensures |exact| == 5 && Sum(exact) == 1.0 && (forall i | 0 <= i < 5 :: exact[i] > 0.0)
    ensures Weights(exact)[4] == -0.000001
  {
    var a, b, c := 0.2500006, 0.2499976, 0.0000006;
    exact := [a, a, a, b] + [c];
    SumOfFour(a, a, a, b);
    SumAppend([a, a, a, b], c);
    assert (a * MICRO).Floor == 250000 && (b * MICRO).Floor == 249997;
    var r, t := Step(250001), Step(249998);
    assert RoundedAll(exact[..4]) == [r, r, r, t];
    SumOfFour(r, r, r, t);
    assert (-0.000001 * MICRO).Floor == -1;
  }
}
