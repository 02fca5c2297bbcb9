/** The convex risk aggregate of the coherence kernel, over exact reals. */
module RiskAggregate {

  function Clamp(x: real, lo: real, hi: real): real {
    if x < lo then lo else if x > hi then hi else x
  }

  function MaxReal(a: real, b: real): real {
    if a < b then b else a
  }

  datatype Phis = Phis(phi1: real, phi2: real, phi3: real, phi4: real, phi5: real) {
    predicate Within(lo: real, hi: real) {
      && lo <= phi1 <= hi && lo <= phi2 <= hi && lo <= phi3 <= hi && lo <= phi4 <= hi && lo <= phi5 <= hi
    }

    predicate AtMost(q: Phis) {
      phi1 <= q.phi1 && phi2 <= q.phi2 && phi3 <= q.phi3 && phi4 <= q.phi4 && phi5 <= q.phi5
    }

    function Worst(): real {
      MaxReal(phi1, MaxReal(phi2, MaxReal(phi3, MaxReal(phi4, phi5))))
    }
  }

  datatype Weights = Weights(w1: real, w2: real, w3: real, w4: real, w5: real, alpha: real) {
    function Sum(): real {
      w1 + w2 + w3 + w4 + w5
    }

    /** The configurations for which the aggregate is a convex combination. */
    predicate Convex() {
      && w1 >= 0.0 && w2 >= 0.0 && w3 >= 0.0 && w4 >= 0.0 && w5 >= 0.0
      && Sum() >= 0.000000001
      && 0.0 <= alpha <= 1.0
    }
  }

  const DEFAULT_WEIGHTS := Weights(1.5, 1.0, 2.0, 1.0, 0.5, 0.2)

  function Mul(x: real, y: real): real {
    x * y
  }

  function Weighted(w: Weights, p: Phis): real {
    Mul(w.w1, p.phi1) + Mul(w.w2, p.phi2) + Mul(w.w3, p.phi3) + Mul(w.w4, p.phi4) + Mul(w.w5, p.phi5)
  }

  function Average(w: Weights, p: Phis): real {
    Weighted(w, p) / MaxReal(w.Sum(), 0.000000001)
  }

  function Blend(alpha: real, average: real, worst: real): real {
    Mul(1.0 - alpha, average) + Mul(alpha, worst)
  }

  function Aggregate(w: Weights, p: Phis): real {
    Clamp(Blend(w.alpha, Average(w, p), p.Worst()), 0.0, 1.0)
  }

  /** Whatever the weights, the risk is in the unit interval: the blend itself where that is, and otherwise the nearer
    * end.
    */
  lemma AggregateInUnit(w: Weights, p: Phis)
    ensures 0.0 <= Aggregate(w, p) <= 1.0
    ensures var blend := Blend(w.alpha, Average(w, p), p.Worst());
            && (0.0 <= blend <= 1.0 ==> Aggregate(w, p) == blend)
            && (blend < 0.0 ==> Aggregate(w, p) == 0.0) && (blend > 1.0 ==> Aggregate(w, p) == 1.0)
  {
  }

  /** The risk lies between any common bounds of the five signals; the clamp never acts. */
  lemma AggregateWithin(w: Weights, p: Phis, lo: real, hi: real)
    requires w.Convex() && 0.0 <= lo <= hi <= 1.0 && p.Within(lo, hi)
    ensures lo <= Aggregate(w, p) <= hi
    ensures Aggregate(w, p) == Blend(w.alpha, Average(w, p), p.Worst())
  {
    var low, high := Phis(lo, lo, lo, lo, lo), Phis(hi, hi, hi, hi, hi);
    BlendMonotone(w, low, p);
    BlendMonotone(w, p, high);
    BlendOfConstant(w, lo);
    BlendOfConstant(w, hi);
  }

  /** Raising any signal never lowers the risk. */
  lemma AggregateMonotone(w: Weights, p: Phis, q: Phis)
    requires w.Convex() && p.AtMost(q)
    ensures Aggregate(w, p) <= Aggregate(w, q)
  {
    BlendMonotone(w, p, q);
  }

  /** The risk, from the signals, the weights and the largest signal `m`: the weighted signals count for the share
    * 1 - alpha of the weight, and `m` for the share alpha.
    */
  lemma AggregateIs(w: Weights, p: Phis, m: real)
    requires w.Convex() && p.Within(0.0, 1.0) && p.Within(0.0, m) && m in {p.phi1, p.phi2, p.phi3, p.phi4, p.phi5}
    ensures var sum := w.w1 + w.w2 + w.w3 + w.w4 + w.w5;
            Mul(Aggregate(w, p), sum) == Mul(1.0 - w.alpha, SumOfProducts(w, p)) + Mul(Mul(w.alpha, m), sum)
  {
    var average, sum := Average(w, p), w.Sum();
    assert Aggregate(w, p) == Blend(w.alpha, average, m) by {
      AggregateWithin(w, p, 0.0, 1.0);
      WorstIs(p, m);
    }
    assert Mul(average, sum) == SumOfProducts(w, p) by {
      Products(w, p);
      AverageTimes(Weighted(w, p), sum);
    }
    BlendTimes(w.alpha, average, m, sum, SumOfProducts(w, p));
  }

  /** Each signal with its own weight. */
  function SumOfProducts(w: Weights, p: Phis): real {
    Mul(p.phi5, w.w5) + Mul(p.phi4, w.w4) + Mul(p.phi3, w.w3) + Mul(p.phi2, w.w2) + Mul(p.phi1, w.w1)
  }

  lemma Products(w: Weights, p: Phis)
    ensures Weighted(w, p) == SumOfProducts(w, p)
  {
  }

  lemma WorstIs(p: Phis, m: real)
    requires p.Within(0.0, m) && m in {p.phi1, p.phi2, p.phi3, p.phi4, p.phi5}
    ensures p.Worst() == m
  {
  }

  lemma AverageTimes(x: real, s: real)
    requires s >= 0.000000001
    ensures Mul(x / MaxReal(s, 0.000000001), s) == x
  {
  }

  lemma BlendTimes(a: real, x: real, y: real, s: real, total: real)
    requires Mul(x, s) == total
    ensures Mul(Blend(a, x, y), s) == Mul(1.0 - a, total) + Mul(Mul(a, y), s)
  {
    assert (1.0 - a) * x * s == (1.0 - a) * (x * s);
    assert Blend(a, x, y) * s == (1.0 - a) * x * s + a * y * s;
  }

  lemma DefaultsConvex()
    ensures DEFAULT_WEIGHTS.Convex()
  {
  }

  lemma BlendMonotone(w: Weights, p: Phis, q: Phis)
    requires w.Convex() && p.AtMost(q)
    ensures Blend(w.alpha, Average(w, p), p.Worst()) <= Blend(w.alpha, Average(w, q), q.Worst())
  {
    AverageMonotone(w, p, q);
    MixMonotone(w.alpha, Average(w, p), p.Worst(), Average(w, q), q.Worst());
  }

  lemma MixMonotone(a: real, x: real, y: real, x': real, y': real)
    requires 0.0 <= a <= 1.0 && x <= x' && y <= y'
    ensures Blend(a, x, y) <= Blend(a, x', y')
  {
    Times(1.0 - a, x, x');
    Times(a, y, y');
  }

  lemma AverageMonotone(w: Weights, p: Phis, q: Phis)
    requires w.Convex() && p.AtMost(q)
    ensures Average(w, p) <= Average(w, q)
  {
    WeightedMonotone(w, p, q);
    Over(Weighted(w, p), Weighted(w, q), w.Sum());
  }

  lemma WeightedMonotone(w: Weights, p: Phis, q: Phis)
    requires w.Convex() && p.AtMost(q)
    ensures Weighted(w, p) <= Weighted(w, q)
  {
    Times(w.w1, p.phi1, q.phi1);
    Times(w.w2, p.phi2, q.phi2);
    Times(w.w3, p.phi3, q.phi3);
    Times(w.w4, p.phi4, q.phi4);
    Times(w.w5, p.phi5, q.phi5);
  }

  lemma BlendOfConstant(w: Weights, c: real)
    requires w.Convex()
    ensures Blend(w.alpha, Average(w, Phis(c, c, c, c, c)), Phis(c, c, c, c, c).Worst()) == c
  {
  }

  lemma Times(w: real, x: real, y: real)
    requires w >= 0.0 && x <= y
    ensures Mul(w, x) <= Mul(w, y)
  {
    assert w * y - w * x == w * (y - x);
  }

  lemma Over(x: real, y: real, s: real)
    requires s > 0.0 && x <= y
    ensures x / s <= y / s
  {
  }
}
