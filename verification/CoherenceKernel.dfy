/** The coherence kernel: windowed counters, risk signals, escalation and the regime.
  * The clock and `exp` are parameters; arithmetic is over exact reals. Ghost fields keep the
  * full history that the kernel itself throws away.
  */
module CoherenceKernel {
  import opened WindowRing
  import opened RiskAggregate
  import H = Hysteresis

  datatype Config = Config(
    windowSeconds: int, tickSeconds: int, lambda1: real, vAlpha: real, dmax: real, rmax: real,
    k: real, tTarget: real, weights: Weights, epsilon: real, dphiTicks: nat, gain: real,
    thresholds: H.Thresholds)
  {
    /** What construction and snapshots need in order not to divide by zero. */
    predicate Usable() {
      tickSeconds > 0 && epsilon > 0.0
    }

    function Slots(): nat
      requires tickSeconds > 0
    {
      if windowSeconds / tickSeconds < 1 then 1 else windowSeconds / tickSeconds
    }

    function HistoryCap(): nat {
      if 20 < dphiTicks + 2 then dphiTicks + 2 else 20
    }
  }

  /** The slots together cover the window but for a part of a tick; a window shorter than a tick has one slot. */
  lemma SlotsCoverWindow(cfg: Config)
    requires cfg.tickSeconds > 0
    ensures cfg.windowSeconds >= cfg.tickSeconds ==>
              cfg.Slots() * cfg.tickSeconds <= cfg.windowSeconds < (cfg.Slots() + 1) * cfg.tickSeconds
    ensures cfg.windowSeconds < cfg.tickSeconds ==> cfg.Slots() == 1
  {
    var w, t := cfg.windowSeconds, cfg.tickSeconds;
    assert w == w / t * t + w % t;
    if w >= t {
      assert (w / t + 1) * t == w / t * t + t;
    }
  }

  /** What is assumed of `math.exp`. */
  ghost predicate ExpLike(exp: real -> real) {
    && exp(0.0) == 1.0
    && (forall x :: exp(x) > 0.0)
    && (forall x, y :: x < y ==> exp(x) < exp(y))
  }

  function Sigmoid(exp: real -> real, x: real): real
    requires exp(-x) > 0.0
  {
    1.0 / (1.0 + exp(-x))
  }

  /** The reported stability: the raw one, squashed into the unit interval. */
  function Report(cfg: Config, exp: real -> real, vRaw: real): (v: real)
    requires ExpLike(exp)
    ensures 0.0 <= v <= 1.0
  {
    assert exp(-Mul(cfg.vAlpha, vRaw - 1.0)) > 0.0;
    Sigmoid(exp, Mul(cfg.vAlpha, vRaw - 1.0))
  }

  datatype Sample = Sample(ts: real, risk: real)

  function Risks(h: seq<Sample>): seq<real> {
    seq(|h|, i requires 0 <= i < |h| => h[i].risk)
  }

  /** The last `n` entries of a history. */
  function Recent(h: seq<Sample>, n: nat): seq<Sample> {
    if |h| <= n then h else h[|h| - n..]
  }

  /** The rise of the risk over the last `n` samples, per second, never negative. */
  function Slope(h: seq<Sample>, n: nat): real {
    if |h| < n + 1 then 0.0
    else
      var first, last := h[|h| - (n + 1)], h[|h| - 1];
      var dt := MaxReal(0.000000001, last.ts - first.ts);
      MaxReal(0.0, (last.risk - first.risk) / dt)
  }

  /** Cutting the history back never changes the slope that is computed from it. */
  lemma TruncationKeepsSlope(h: seq<Sample>, n: nat, cap: nat)
    requires n + 2 <= cap
    ensures Slope(Recent(h, cap), n) == Slope(h, n)
  {
  }

  /** The slope times the time it took is the rise of the risk over the last `n` samples; there is none before there
    * are that many, and none when the risk fell. Times less than a nanosecond apart count as one.
    */
  lemma SlopeExactly(h: seq<Sample>, n: nat)
    ensures |h| <= n ==> Slope(h, n) == 0.0
    ensures |h| > n ==>
              var first, last := h[|h| - n - 1], h[|h| - 1];
              var dt := if last.ts - first.ts > 0.000000001 then last.ts - first.ts else 0.000000001;
              Mul(Slope(h, n), dt) == (if last.risk > first.risk then last.risk - first.risk else 0.0)
  {
    if |h| > n {
      var first, last := h[|h| - n - 1], h[|h| - 1];
      RiseOver(last.risk - first.risk, MaxReal(0.000000001, last.ts - first.ts));
    }
  }

  lemma RiseOver(rise: real, dt: real)
    requires dt > 0.0
    ensures Mul(MaxReal(0.0, rise / dt), dt) == (if rise > 0.0 then rise else 0.0)
  {
    assert rise / dt * dt == rise;
    if rise > 0.0 {
      assert rise / dt > 0.0;
    }
  }

  datatype Snapshot = Snapshot(
    ts: real, phis: Phis, risk: real, coherence: real,
    a: real, r: real, e: real, regime: H.Regime, vRaw: real, vReport: real)

  /** How many whole ticks fit between the last tick and now. */
  function ElapsedSteps(elapsed: real, tick: int): int
    requires tick > 0
  {
    (elapsed / tick as real).Floor
  }

  lemma StepsFit(elapsed: real, tick: int)
    requires tick > 0
    ensures var n := ElapsedSteps(elapsed, tick);
            (n * tick) as real <= elapsed < (n * tick) as real + tick as real
  {
    var n, t, q := ElapsedSteps(elapsed, tick), tick as real, elapsed / tick as real;
    Times(t, n as real, q);
    ScaleStrictly(t, q, n as real + 1.0);
  }

  lemma MoreTicks(n: int, more: int, tick: int)
    ensures ((n + more) * tick) as real == (n * tick) as real + (more * tick) as real
  {
    assert (n + more) * tick == n * tick + more * tick;
  }

  lemma ScaleStrictly(t: real, x: real, y: real)
    requires t > 0.0 && x < y
    ensures Mul(t, x) < Mul(t, y)
  {
    var d := y - x;
    assert t * d > 0.0;
    assert t * (x + d) == t * x + t * d;
  }

  class Kernel {
    const cfg: Config
    const exp: real -> real
    const slots: nat
    var idx: nat
    var tickTs: real
    var violations: seq<nat>
    var requests: seq<nat>
    var retries: seq<nat>
    var phi2: real
    var phi3: real
    var lastResetTs: real
    var regime: H.Regime
    var phiHist: seq<Sample>

    ghost const start: real
    ghost var step: int
    ghost var violationLog: seq<Tally>
    ghost var requestLog: seq<Tally>
    ghost var retryLog: seq<Tally>
    ghost var history: seq<Sample>

    ghost predicate WindowValid()
      reads this`idx, this`violations, this`requests, this`retries
      reads this`step, this`violationLog, this`requestLog, this`retryLog
    {
      && |violations| == |requests| == |retries| == slots
      && Mirrors(violations, idx, violationLog, step)
      && Mirrors(requests, idx, requestLog, step)
      && Mirrors(retries, idx, retryLog, step)
    }

    ghost predicate HistoryValid()
      reads this`phiHist, this`history, this`regime
    {
      && phiHist == Recent(history, cfg.HistoryCap())
      && regime == H.Run(cfg.thresholds, Risks(history))
    }

    ghost predicate Valid()
      reads this
    {
      && cfg.Usable()
      && ExpLike(exp)
      && slots == cfg.Slots()
      && tickTs == start + (step * cfg.tickSeconds) as real
      && 0.0 <= phi2 <= 1.0 && 0.0 <= phi3 <= 1.0
      && WindowValid()
      && HistoryValid()
    }

    constructor (cfg: Config, exp: real -> real, now: real)
      requires cfg.Usable() && ExpLike(exp)
      ensures Valid()
      ensures this.cfg == cfg && this.exp == exp && start == now && step == 0
      ensures violationLog == requestLog == retryLog == [] && history == []
      ensures regime == H.Stable && phi2 == phi3 == 0.0 && lastResetTs == now
    {
      this.cfg, this.exp := cfg, exp;
      slots, idx, tickTs := cfg.Slots(), 0, now;
      var zeros := seq(cfg.Slots(), _ => 0);
      violations, requests, retries := zeros, zeros, zeros;
      phi2, phi3, lastResetTs, regime, phiHist := 0.0, 0.0, now, H.Stable, [];
      start, step, history := now, 0, [];
      violationLog, requestLog, retryLog := [], [], [];
      new;
    }

    /** One pass of the loop in `tick`. */
    method AdvanceSlot()
      requires WindowValid()
      modifies this`idx, this`tickTs, this`violations, this`requests, this`retries, this`step
      ensures WindowValid()
      ensures step == old(step) + 1 && tickTs == old(tickTs) + cfg.tickSeconds as real
    {
      var next := (idx + 1) % slots;
      Advanced(violations, idx, violationLog, step, next);
      Advanced(requests, idx, requestLog, step, next);
      Advanced(retries, idx, retryLog, step, next);
      idx := next;
      violations := violations[idx := 0];
      requests := requests[idx := 0];
      retries := retries[idx := 0];
      tickTs := tickTs + cfg.tickSeconds as real;
      step := step + 1;
    }

    /** Advances the window by every whole tick that has passed, possibly past all of it. */
    method Tick(now: real)
      requires Valid()
      modifies this`idx, this`tickTs, this`violations, this`requests, this`retries, this`step
      ensures Valid()
      ensures now < old(tickTs) ==> step == old(step)
      ensures now >= old(tickTs) ==>
                && step == old(step) + ElapsedSteps(now - old(tickTs), cfg.tickSeconds)
                && 0.0 <= now - tickTs < cfg.tickSeconds as real
    {
      if now - tickTs < cfg.tickSeconds as real {
        NoWholeStep(now - tickTs, cfg.tickSeconds);
        return;
      }
      var steps := ElapsedSteps(now - tickTs, cfg.tickSeconds);
      WholeSteps(now - tickTs, cfg.tickSeconds);
      AdvanceSlots(steps);
      StepsFit(now - old(tickTs), cfg.tickSeconds);
    }

    /** The loop of `tick`. */
    method AdvanceSlots(steps: nat)
      requires Valid()
      modifies this`idx, this`tickTs, this`violations, this`requests, this`retries, this`step
      ensures Valid()
      ensures step == old(step) + steps && tickTs == old(tickTs) + (steps * cfg.tickSeconds) as real
    {
      for i := 0 to steps
        invariant Valid()
        invariant step == old(step) + i
      {
        MoreTicks(step, 1, cfg.tickSeconds);
        AdvanceSlot();
      }
      MoreTicks(old(step), steps, cfg.tickSeconds);
    }

    method RecordRequest(retryCount: int)
      requires Valid()
      modifies this`requests, this`retries, this`requestLog, this`retryLog
      ensures Valid()
      ensures requestLog == old(requestLog) + [Tally(step, 1)]
      ensures retryLog == old(retryLog) + [Tally(step, if retryCount < 0 then 0 else retryCount)]
    {
      var amount: nat := if retryCount < 0 then 0 else retryCount;
      Recorded(requests, idx, requestLog, step, 1);
      Recorded(retries, idx, retryLog, step, amount);
      requests := requests[idx := requests[idx] + 1];
      retries := retries[idx := retries[idx] + amount];
      requestLog := requestLog + [Tally(step, 1)];
      retryLog := retryLog + [Tally(step, amount)];
    }

    method RecordConstraintViolation(count: int)
      requires Valid()
      modifies this`violations, this`violationLog
      ensures Valid()
      ensures violationLog == old(violationLog) + [Tally(step, if count < 0 then 0 else count)]
    {
      var amount: nat := if count < 0 then 0 else count;
      Recorded(violations, idx, violationLog, step, amount);
      violations := violations[idx := violations[idx] + amount];
      violationLog := violationLog + [Tally(step, amount)];
    }

    method UpdateContextDrift(drift: real)
      requires Valid()
      modifies this`phi2
      ensures Valid()
      ensures phi2 == Clamp(drift / MaxReal(cfg.dmax, 0.000000001), 0.0, 1.0)
      ensures ShareSignal(phi2, drift, if cfg.dmax < 0.000000001 then 0.000000001 else cfg.dmax)
    {
      DriftShare(drift, MaxReal(cfg.dmax, 0.000000001));
      phi2 := Clamp(drift / MaxReal(cfg.dmax, 0.000000001), 0.0, 1.0);
    }

    method UpdateToolInstabilityRatio(open: real)
      requires Valid()
      modifies this`phi3
      ensures Valid()
      ensures phi3 == Clamp(open, 0.0, 1.0)
      ensures ShareSignal(phi3, open, 1.0)
    {
      phi3 := Clamp(open, 0.0, 1.0);
    }

    method RecordBreakerReset(now: real)
      requires Valid()
      modifies this`lastResetTs
      ensures Valid()
      ensures lastResetTs == now
    {
      lastResetTs := now;
    }

    /** The five signals, in terms of the full logs rather than of the rings. */
    ghost function SignalsFromLogs(now: real): Phis
      requires ExpLike(exp)
      reads this`step, this`violationLog, this`requestLog, this`retryLog, this`phi2, this`phi3, this`lastResetTs
    {
      Signals(cfg, exp,
              TotalBetween(violationLog, step - slots, step),
              TotalBetween(requestLog, step - slots, step),
              TotalBetween(retryLog, step - slots, step),
              phi2, phi3, now - lastResetTs)
    }

    /** The signals are those of the full logs: over the window of the last `slots` steps. */
    ghost predicate ExplainedByLogs(p: Phis, now: real)
      reads this`step, this`violationLog, this`requestLog, this`retryLog, this`phi2, this`phi3, this`lastResetTs
    {
      Explained(cfg, exp, p,
                TotalBetween(violationLog, step - slots, step),
                TotalBetween(requestLog, step - slots, step),
                TotalBetween(retryLog, step - slots, step),
                phi2, phi3, now - lastResetTs)
    }

    lemma SignalsFromLogsExplained(now: real)
      requires ExpLike(exp)
      ensures ExplainedByLogs(SignalsFromLogs(now), now)
    {
      SignalsExplained(cfg, exp,
                       TotalBetween(violationLog, step - slots, step),
                       TotalBetween(requestLog, step - slots, step),
                       TotalBetween(retryLog, step - slots, step),
                       phi2, phi3, now - lastResetTs);
    }

    method ComputePhi(now: real) returns (p: Phis)
      requires Valid()
      ensures p == SignalsFromLogs(now)
    {
      var v, req, ret := SumTo(violations, slots), SumTo(requests, slots), SumTo(retries, slots);
      RingSumIsWindowTotal(violations, idx, violationLog, step);
      RingSumIsWindowTotal(requests, idx, requestLog, step);
      RingSumIsWindowTotal(retries, idx, retryLog, step);
      p := Signals(cfg, exp, v, req, ret, phi2, phi3, now - lastResetTs);
    }

    /** Every signal is a risk in the unit interval, so the aggregate is one too. */
    lemma SignalsFromLogsInUnit(now: real)
      requires Valid() && cfg.lambda1 >= 0.0
      ensures SignalsFromLogs(now).Within(0.0, 1.0)
    {
      SignalsInUnit(cfg, exp,
                    TotalBetween(violationLog, step - slots, step),
                    TotalBetween(requestLog, step - slots, step),
                    TotalBetween(retryLog, step - slots, step),
                    phi2, phi3, now - lastResetTs);
    }

    /** Appends the sample, cuts the history back, and reads the slope off what is left. */
    method ComputeEscalation(now: real, risk: real) returns (a: real, r: real, e: real)
      requires phiHist == Recent(history, cfg.HistoryCap())
      requires 0.0 <= phi3 <= 1.0 && cfg.epsilon > 0.0
      modifies this`phiHist, this`history
      ensures phiHist == Recent(history, cfg.HistoryCap())
      ensures history == old(history) + [Sample(now, risk)]
      ensures a == Slope(history, cfg.dphiTicks) && r == 1.0 - phi3 && e == a / (r + cfg.epsilon)
    {
      history := history + [Sample(now, risk)];
      phiHist := phiHist + [Sample(now, risk)];
      if |phiHist| > cfg.HistoryCap() {
        phiHist := phiHist[|phiHist| - cfg.HistoryCap()..];
      }
      TruncationKeepsSlope(history, cfg.dphiTicks, cfg.HistoryCap());
      a := Slope(phiHist, cfg.dphiTicks);
      r := 1.0 - phi3;
      e := a / (r + cfg.epsilon);
    }

    /** The regime step that follows a new sample. */
    method UpdateRegime(risk: real, ghost before: seq<Sample>, ghost sample: Sample)
      requires phiHist == Recent(history, cfg.HistoryCap()) && history == before + [sample] && sample.risk == risk
      requires regime == H.Run(cfg.thresholds, Risks(before))
      modifies this`regime
      ensures HistoryValid()
      ensures regime == H.Next(cfg.thresholds, old(regime), risk)
    {
      RisksOfLonger(before, sample);
      regime := H.Next(cfg.thresholds, regime, risk);
    }

    method Stability(risk: real, e: real) returns (vRaw: real, vReport: real)
      requires ExpLike(exp)
      ensures vRaw == risk + Mul(cfg.gain, e)
      ensures vReport == Report(cfg, exp, vRaw) && 0.0 <= vReport <= 1.0
    {
      vRaw := risk + Mul(cfg.gain, e);
      vReport := Report(cfg, exp, vRaw);
    }

    /** The two steps of a snapshot that change the history and the regime. */
    method AbsorbRisk(now: real, risk: real) returns (a: real, r: real, e: real)
      requires HistoryValid() && 0.0 <= phi3 <= 1.0 && cfg.epsilon > 0.0
      modifies this`phiHist, this`history, this`regime
      ensures HistoryValid()
      ensures history == old(history) + [Sample(now, risk)] && regime == H.Next(cfg.thresholds, old(regime), risk)
      ensures a == Slope(history, cfg.dphiTicks) && r == 1.0 - phi3 && e == a / (r + cfg.epsilon)
    {
      a, r, e := ComputeEscalation(now, risk);
      UpdateRegime(risk, old(history), Sample(now, risk));
    }

    /** A snapshot of the current window. */
    method Assess(now: real) returns (s: Snapshot)
      requires Valid()
      modifies this`phiHist, this`history, this`regime
      ensures Valid()
      ensures s.ts == now && s.phis == SignalsFromLogs(now)
      ensures s.risk == Aggregate(cfg.weights, s.phis)
      ensures history == old(history) + [Sample(now, s.risk)]
      ensures regime == H.Next(cfg.thresholds, old(regime), s.risk) && s.regime == regime
      ensures s.coherence == 1.0 - s.risk && s.a == Slope(history, cfg.dphiTicks) && s.r == 1.0 - phi3
      ensures s.e == s.a / (s.r + cfg.epsilon) && s.vRaw == s.risk + Mul(cfg.gain, s.e)
      ensures s.vReport == Report(cfg, exp, s.vRaw) && 0.0 <= s.vReport <= 1.0
    {
      var p := ComputePhi(now);
      var risk := Aggregate(cfg.weights, p);
      var a, r, e := AbsorbRisk(now, risk);
      var vRaw, vReport := Stability(risk, e);
      s := Snapshot(now, p, risk, 1.0 - risk, a, r, e, regime, vRaw, vReport);
    }

    /** `snapshot`: the window is advanced first, and then assessed. */
    method TakeSnapshot(now: real) returns (s: Snapshot)
      requires Valid()
      modifies this`idx, this`tickTs, this`violations, this`requests, this`retries, this`step
      modifies this`phiHist, this`history, this`regime
      ensures Valid()
      ensures now >= old(tickTs) ==> 0.0 <= now - tickTs < cfg.tickSeconds as real
      ensures s.ts == now && s.phis == SignalsFromLogs(now) && ExplainedByLogs(s.phis, now)
      ensures s.risk == Aggregate(cfg.weights, s.phis)
      ensures history == old(history) + [Sample(now, s.risk)]
      ensures regime == H.Next(cfg.thresholds, old(regime), s.risk) && s.regime == regime
      ensures s.coherence == 1.0 - s.risk && s.a == Slope(history, cfg.dphiTicks) && s.r == 1.0 - phi3
      ensures s.e == s.a / (s.r + cfg.epsilon) && s.vRaw == s.risk + Mul(cfg.gain, s.e)
      ensures s.vReport == Report(cfg, exp, s.vRaw) && 0.0 <= s.vReport <= 1.0
    {
      Tick(now);
      s := Assess(now);
      SignalsFromLogsExplained(now);
    }

    /** What any kernel, after any calls, can say about its regime: it failed exactly when some snapshot
      * reached the failure threshold, and its changes of direction are paid for by the movement of the risk.
      */
    lemma RegimeOfAnyRun()
      requires HistoryValid()
      ensures regime == H.Failure <==> exists i :: 0 <= i < |history| && history[i].risk >= cfg.thresholds.failureEnter
      ensures var trail := H.TrailOf(cfg.thresholds, Risks(history));
              trail.regime == regime && trail.reversals as real * H.Gap(cfg.thresholds) <= H.Variation(Risks(history))
    {
      RunExplained(cfg.thresholds, history, H.Run(cfg.thresholds, Risks(history)));
    }

    /** The kernel keeps the whole history as long as it is short, and then the last 20 samples, or two more than
      * the slope looks back if that is more.
      */
    lemma HistoryKept()
      requires HistoryValid()
      ensures var cap := if cfg.dphiTicks > 18 then cfg.dphiTicks + 2 else 20;
              && |phiHist| == (if |history| < cap then |history| else cap)
              && phiHist == history[|history| - |phiHist|..]
    {
    }

    /** The other three regimes, by when they were entered and the bounds the risk has kept since. */
    lemma RegimeFromRisks()
      requires HistoryValid()
      ensures regime == H.Stable <==> H.StableAt(cfg.thresholds, Risks(history), |history|)
      ensures regime == H.Pressure <==> H.PressureAt(cfg.thresholds, Risks(history), |history|)
      ensures regime == H.Unstable <==> H.UnstableAt(cfg.thresholds, Risks(history), |history|)
    {
      H.RegimeExactly(cfg.thresholds, Risks(history));
    }
  }

  lemma RunExplained(t: H.Thresholds, h: seq<Sample>, regime: H.Regime)
    requires regime == H.Run(t, Risks(h))
    ensures regime == H.Failure <==> exists i :: 0 <= i < |h| && h[i].risk >= t.failureEnter
    ensures var trail := H.TrailOf(t, Risks(h));
            trail.regime == regime && trail.reversals as real * H.Gap(t) <= H.Variation(Risks(h))
  {
    H.FailureExactly(t, Risks(h));
    RisksAt(h, t.failureEnter);
    H.TrailFollowsRun(t, Risks(h));
    H.ReversalsBounded(t, Risks(h), H.Gap(t));
  }

  lemma RisksAt(h: seq<Sample>, limit: real)
    ensures (exists i :: 0 <= i < |Risks(h)| && Risks(h)[i] >= limit) <==>
        exists i :: 0 <= i < |h| && h[i].risk >= limit
  {
    if i :| 0 <= i < |h| && h[i].risk >= limit {
      assert Risks(h)[i] >= limit;
    }
  }

  lemma RisksOfLonger(h: seq<Sample>, s: Sample)
    ensures Risks(h + [s])[..|h|] == Risks(h) && Risks(h + [s])[|h|] == s.risk
  {
  }

  lemma NoWholeStep(elapsed: real, tick: int)
    requires tick > 0 && elapsed < tick as real
    ensures elapsed >= 0.0 ==> ElapsedSteps(elapsed, tick) == 0
  {
    StepsFit(elapsed, tick);
  }

  lemma WholeSteps(elapsed: real, tick: int)
    requires tick > 0 && elapsed >= tick as real
    ensures ElapsedSteps(elapsed, tick) >= 1
  {
    StepsFit(elapsed, tick);
  }

  /** `_compute_phi`, given the sums over the window. */
  function Signals(cfg: Config, exp: real -> real, v: nat, req: nat, ret: nat,
                   phi2: real, phi3: real, sinceReset: real): Phis
    requires ExpLike(exp)
  {
    var rate := if req > 0 then ret as real / req as real else 0.0;
    Phis(1.0 - exp(-Mul(cfg.lambda1, v as real)),
         phi2,
         phi3,
         Clamp(rate / MaxReal(cfg.rmax, 0.000000001), 0.0, 1.0),
         Sigmoid(exp, Mul(cfg.k, MaxReal(0.0, sinceReset) - cfg.tTarget)))
  }

  /** What each signal is, in terms of the counts in the window and the stored values. */
  ghost predicate Explained(cfg: Config, exp: real -> real, p: Phis, v: nat, req: nat, ret: nat,
                            phi2: real, phi3: real, sinceReset: real)
  {
    && p.phi1 == 1.0 - exp(-Mul(cfg.lambda1, v as real))
    && p.phi2 == phi2 && p.phi3 == phi3
    && RetriesExplained(p.phi4, req, ret, if cfg.rmax < 0.000000001 then 0.000000001 else cfg.rmax)
    && StalenessExplained(cfg, exp, p.phi5, if sinceReset < 0.0 then 0.0 else sinceReset)
  }

  /** The retry signal is zero exactly without requests or retries, and one exactly when there are at least `most`
    * retries per request; in between it is their share of that.
    */
  predicate RetriesExplained(phi4: real, req: nat, ret: nat, most: real) {
    var whole := Mul(most, req as real);
    && (phi4 == 0.0 <==> req == 0 || ret == 0)
    && (phi4 == 1.0 <==> req > 0 && ret as real >= whole)
    && (req > 0 && ret as real < whole ==> Mul(whole, phi4) == ret as real)
  }

  /** The staleness signal is one half exactly `tTarget` after the last reset, for a positive rate less before and
    * more after.
    */
  ghost predicate StalenessExplained(cfg: Config, exp: real -> real, phi5: real, elapsed: real) {
    && Mul(phi5, 1.0 + exp(-Mul(cfg.k, elapsed - cfg.tTarget))) == 1.0
    && (cfg.k > 0.0 ==> (phi5 >= 0.5 <==> elapsed >= cfg.tTarget) && (phi5 <= 0.5 <==> elapsed <= cfg.tTarget))
  }

  /** A signal is zero exactly for no amount, one exactly from the largest amount on, and its share in between. */
  predicate ShareSignal(signal: real, amount: real, most: real) {
    && (signal == 0.0 <==> amount <= 0.0) && (signal == 1.0 <==> amount >= most)
    && (0.0 < amount < most ==> Mul(most, signal) == amount)
  }

  lemma DriftShare(drift: real, most: real)
    requires most > 0.0
    ensures ShareSignal(Clamp(drift / most, 0.0, 1.0), drift, most)
  {
    var share := drift / most;
    assert most * share == drift;
    if drift >= 0.0 {
      ShareOf(share, most, drift);
    } else {
      assert share < 0.0;
    }
  }

  lemma ShareExplained(req: nat, ret: nat, most: real)
    requires most > 0.0
    ensures var rate := if req > 0 then ret as real / req as real else 0.0;
            RetriesExplained(Clamp(rate / most, 0.0, 1.0), req, ret, most)
  {
    if req > 0 {
      var r, q := ret as real, req as real;
      var share := (r / q) / most;
      QuotientTimes(r, q, most);
      ShareOf(share, Mul(most, q), r);
    }
  }

  lemma QuotientTimes(r: real, q: real, most: real)
    requires q > 0.0 && most > 0.0
    ensures Mul(most, q) > 0.0 && Mul(Mul(most, q), (r / q) / most) == r
  {
    var share := (r / q) / most;
    assert share * most == r / q;
    assert (r / q) * q == r;
    assert (most * q) * share == (share * most) * q;
  }

  lemma ShareOf(share: real, whole: real, part: real)
    requires whole > 0.0 && Mul(whole, share) == part && part >= 0.0
    ensures share >= 0.0 && (share == 0.0 <==> part == 0.0) && (share >= 1.0 <==> part >= whole)
  {
    assert Mul(whole, 0.0) == 0.0 && Mul(whole, 1.0) == whole;
    if share < 0.0 {
      ScaleStrictly(whole, share, 0.0);
    } else if share > 0.0 {
      ScaleStrictly(whole, 0.0, share);
    }
    if share < 1.0 {
      ScaleStrictly(whole, share, 1.0);
    } else if share > 1.0 {
      ScaleStrictly(whole, 1.0, share);
    }
  }

  lemma ExpAtZero(exp: real -> real, x: real)
    requires ExpLike(exp)
    ensures exp(-x) > 0.0 && (exp(-x) <= 1.0 <==> x >= 0.0) && (exp(-x) >= 1.0 <==> x <= 0.0)
  {
    assert x > 0.0 ==> exp(-x) < exp(0.0);
    assert x < 0.0 ==> exp(0.0) < exp(-x);
    assert x == 0.0 ==> exp(-x) == exp(0.0);
  }

  lemma Reciprocal(e: real)
    requires e > 0.0
    ensures var y := 1.0 / (1.0 + e);
            Mul(y, 1.0 + e) == 1.0 && (y >= 0.5 <==> e <= 1.0) && (y <= 0.5 <==> e >= 1.0)
  {
    var y := 1.0 / (1.0 + e);
    assert y * (1.0 + e) == 1.0;
    assert (y - 0.5) * (1.0 + e) == 0.5 * (1.0 - e);
    if y > 0.5 {
      assert (y - 0.5) * (1.0 + e) > 0.0;
    } else if y < 0.5 {
      assert (0.5 - y) * (1.0 + e) > 0.0;
    }
  }

  /** A sigmoid is one half at zero, more above and less below. */
  lemma SigmoidHalf(exp: real -> real, x: real)
    requires ExpLike(exp)
    ensures exp(-x) > 0.0 && Mul(Sigmoid(exp, x), 1.0 + exp(-x)) == 1.0
    ensures (Sigmoid(exp, x) >= 0.5 <==> x >= 0.0) && (Sigmoid(exp, x) <= 0.5 <==> x <= 0.0)
  {
    ExpAtZero(exp, x);
    Reciprocal(exp(-x));
  }

  /** The reported stability is one half exactly when the raw one is one, and it grows with the raw one. */
  lemma ReportExactly(cfg: Config, exp: real -> real, v: real, w: real)
    requires ExpLike(exp) && cfg.vAlpha > 0.0
    ensures (Report(cfg, exp, v) >= 0.5 <==> v >= 1.0) && (Report(cfg, exp, v) <= 0.5 <==> v <= 1.0)
    ensures v < w ==> Report(cfg, exp, v) < Report(cfg, exp, w)
  {
    SigmoidHalf(exp, Mul(cfg.vAlpha, v - 1.0));
    SignOfProduct(cfg.vAlpha, v - 1.0);
    if v < w {
      ScaleStrictly(cfg.vAlpha, v - 1.0, w - 1.0);
      SigmoidGrows(exp, Mul(cfg.vAlpha, v - 1.0), Mul(cfg.vAlpha, w - 1.0));
    }
  }

  lemma SigmoidGrows(exp: real -> real, x: real, y: real)
    requires ExpLike(exp) && x < y
    ensures exp(-x) > 0.0 && exp(-y) > 0.0 && Sigmoid(exp, x) < Sigmoid(exp, y)
  {
    SmallerReciprocal(1.0 + exp(-y), 1.0 + exp(-x));
  }

  lemma SmallerReciprocal(a: real, b: real)
    requires 0.0 < a < b
    ensures 1.0 / b < 1.0 / a
  {
    assert 1.0 / b * b == 1.0 && 1.0 / a * a == 1.0;
  }

  lemma SignOfProduct(k: real, d: real)
    requires k > 0.0
    ensures (Mul(k, d) >= 0.0 <==> d >= 0.0) && (Mul(k, d) <= 0.0 <==> d <= 0.0)
  {
    if d > 0.0 {
      assert k * d > 0.0;
    } else if d < 0.0 {
      assert k * (-d) > 0.0;
    }
  }

  lemma StalenessSigmoid(cfg: Config, exp: real -> real, elapsed: real)
    requires ExpLike(exp)
    ensures exp(-Mul(cfg.k, elapsed - cfg.tTarget)) > 0.0
    ensures StalenessExplained(cfg, exp, Sigmoid(exp, Mul(cfg.k, elapsed - cfg.tTarget)), elapsed)
  {
    SigmoidHalf(exp, Mul(cfg.k, elapsed - cfg.tTarget));
    if cfg.k > 0.0 {
      SignOfProduct(cfg.k, elapsed - cfg.tTarget);
    }
  }

  /** The formulas of `_compute_phi` mean just that. */
  lemma SignalsExplained(cfg: Config, exp: real -> real, v: nat, req: nat, ret: nat,
                         phi2: real, phi3: real, sinceReset: real)
    requires ExpLike(exp)
    ensures Explained(cfg, exp, Signals(cfg, exp, v, req, ret, phi2, phi3, sinceReset),
                      v, req, ret, phi2, phi3, sinceReset)
  {
    var most, elapsed := MaxReal(cfg.rmax, 0.000000001), MaxReal(0.0, sinceReset);
    ShareExplained(req, ret, most);
    StalenessSigmoid(cfg, exp, elapsed);
    var p := Signals(cfg, exp, v, req, ret, phi2, phi3, sinceReset);
    assert RetriesExplained(p.phi4, req, ret, most);
    assert StalenessExplained(cfg, exp, p.phi5, elapsed);
  }

  lemma SignalsInUnit(cfg: Config, exp: real -> real, v: nat, req: nat, ret: nat,
                      phi2: real, phi3: real, sinceReset: real)
    requires ExpLike(exp) && cfg.lambda1 >= 0.0 && 0.0 <= phi2 <= 1.0 && 0.0 <= phi3 <= 1.0
    ensures Signals(cfg, exp, v, req, ret, phi2, phi3, sinceReset).Within(0.0, 1.0)
  {
  }
}
