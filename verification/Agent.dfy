/** How one call of the agent feeds the drift of its prompt to the kernel. Providers, policies and
  * logging are not part of this model.
  */
module Agent {
  import opened EditDistance
  import opened RiskAggregate
  import K = CoherenceKernel

  /** The threshold a drift must reach to be reported as full. */
  function FullDrift(cfg: K.Config): (m: real)
    ensures m > 0.0
  {
    MaxReal(cfg.dmax, 0.000000001)
  }

  lemma RatioAtLeast(dist: nat, longer: nat, d: real, m: real)
    requires longer > 0 && d * longer as real == dist as real && m > 0.0
    ensures Clamp(d / m, 0.0, 1.0) == 1.0 <==> Mul(m, longer as real) <= dist as real
  {
    QuotientAtLeastOne(d, m);
    if d >= m {
      Scale(d - m, longer as real);
    } else {
      ScaleUp(m - d, longer as real);
    }
    assert Mul(m, longer as real) == m * longer as real;
  }

  lemma QuotientAtLeastOne(d: real, m: real)
    requires m > 0.0
    ensures d / m >= 1.0 <==> d >= m
  {
    assert (d / m) * m == d;
  }

  lemma Scale(x: real, y: real)
    requires x >= 0.0 && y >= 0.0
    ensures x * y >= 0.0
  {
  }

  lemma ScaleUp(x: real, y: real)
    requires x > 0.0 && y > 0.0
    ensures x * y > 0.0
  {
  }

  lemma QuotientZero(d: real, m: real)
    requires m > 0.0 && d >= 0.0
    ensures Clamp(d / m, 0.0, 1.0) == 0.0 <==> d == 0.0
  {
    assert (d / m) * m == d;
  }

  class SignalAgent {
    const kernel: K.Kernel
    const centroid: string

    constructor (kernel: K.Kernel, centroid: string)
      ensures this.kernel == kernel && this.centroid == centroid
    {
      this.kernel, this.centroid := kernel, centroid;
    }

    /** The head of `generate`: the drift signal is zero exactly for the session's own template, and full
      * exactly when the edit distance reaches the configured share of the longer text.
      */
    method NoteDrift(prompt: string, now: real)
      requires kernel.Valid()
      modifies kernel
      ensures kernel.Valid()
      ensures Describes(kernel.cfg, kernel.phi2, prompt, centroid)
      ensures kernel.history == old(kernel.history) && kernel.regime == old(kernel.regime)
    {
      var d := MeasureDrift(kernel.cfg, prompt, centroid);
      kernel.UpdateContextDrift(d);
      kernel.Tick(now);
    }
  }

  ghost predicate Describes(cfg: K.Config, signal: real, prompt: string, centroid: string) {
    && (signal == 0.0 <==> prompt == centroid)
    && (Longer(prompt, centroid) > 0 ==>
          (signal == 1.0 <==> Mul(FullDrift(cfg), Longer(prompt, centroid) as real) <= Dist(prompt, centroid) as real))
  }

  method MeasureDrift(cfg: K.Config, prompt: string, centroid: string) returns (d: real)
    ensures Describes(cfg, Clamp(d / FullDrift(cfg), 0.0, 1.0), prompt, centroid)
  {
    d := NormalisedDrift(prompt, centroid);
    QuotientZero(d, FullDrift(cfg));
    if Longer(prompt, centroid) > 0 {
      RatioAtLeast(Dist(prompt, centroid), Longer(prompt, centroid), d, FullDrift(cfg));
    }
  }
}
