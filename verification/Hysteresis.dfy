/** The regime machine of the coherence kernel, as a function of the risk values it is fed.
  * A run is the sequence of `phi_risk` values of successive snapshots, starting in STABLE.
  */
module Hysteresis {

  datatype Regime = Stable | Pressure | Unstable | Failure

  /** The thresholds `_update_regime` reads; the other configured ones are never consulted. */
  datatype Thresholds = Thresholds(
    pressureEnter: real, pressureExitLow: real,
    unstableEnter: real, unstableExitLow: real,
    failureEnter: real)

  const DEFAULTS := Thresholds(0.20, 0.15, 0.50, 0.45, 0.80)

  function Next(t: Thresholds, r: Regime, phi: real): Regime {
    if r == Failure then Failure
    else if phi >= t.failureEnter then Failure
    else if r == Unstable then
      if phi < t.unstableExitLow then Pressure else Unstable
    else if r == Pressure then
      if phi >= t.unstableEnter then Unstable
      else if phi < t.pressureExitLow then Stable
      else Pressure
    else if phi >= t.pressureEnter then Pressure
    else Stable
  }

  function Run(t: Thresholds, phis: seq<real>): Regime {
    if phis == [] then Stable
    else Next(t, Run(t, phis[..|phis| - 1]), phis[|phis| - 1])
  }

  // ------------------------------------------------------------------ which regime, exactly

  /** FAILURE is entered when the risk first reaches its threshold, and never left. */
  lemma {:induction false} FailureExactly(t: Thresholds, phis: seq<real>)
    ensures Run(t, phis) == Failure <==> exists i :: 0 <= i < |phis| && phis[i] >= t.failureEnter
  {
    if phis != [] {
      FailureExactly(t, phis[..|phis| - 1]);
    }
  }

  /** After step `k` and before step `n`, the risk stays at or above `lo` and below `hi` and the failure threshold. */
  predicate Kept(t: Thresholds, phis: seq<real>, k: nat, n: nat, lo: real, hi: real)
    requires n <= |phis|
  {
    forall i :: k < i < n ==> lo <= phis[i] < hi && phis[i] < t.failureEnter
  }

  /** After step `k`, or from the start on for -1, and before step `n`, the risk stays below what enters PRESSURE. */
  predicate Quiet(t: Thresholds, phis: seq<real>, k: int, n: nat)
    requires -1 <= k && n <= |phis|
  {
    forall i :: k < i < n ==> phis[i] < t.pressureEnter && phis[i] < t.failureEnter
  }

  /** The value at `k` releases PRESSURE. */
  ghost predicate Released(t: Thresholds, phis: seq<real>, k: nat)
    requires k < |phis|
    decreases k, 1
  {
    && PressureAt(t, phis, k)
    && phis[k] < t.pressureExitLow && phis[k] < t.unstableEnter && phis[k] < t.failureEnter
  }

  /** The value at `k` reaches the entry threshold from STABLE, or falls below the exit of UNSTABLE. */
  ghost predicate EntersPressure(t: Thresholds, phis: seq<real>, k: nat)
    requires k < |phis|
    decreases k, 1
  {
    && phis[k] < t.failureEnter
    && ((StableAt(t, phis, k) && phis[k] >= t.pressureEnter)
        || (UnstableAt(t, phis, k) && phis[k] < t.unstableExitLow))
  }

  /** The value at `k` reaches the threshold of UNSTABLE from PRESSURE. */
  ghost predicate EntersUnstable(t: Thresholds, phis: seq<real>, k: nat)
    requires k < |phis|
    decreases k, 1
  {
    PressureAt(t, phis, k) && t.unstableEnter <= phis[k] < t.failureEnter
  }

  /** After `n` values the machine is STABLE: it never left that regime, or it was released from PRESSURE and the
    * risk has been quiet since.
    */
  ghost predicate StableAt(t: Thresholds, phis: seq<real>, n: nat)
    requires n <= |phis|
    decreases n, 0
  {
    || Quiet(t, phis, -1, n)
    || exists k: nat :: k < n && Released(t, phis, k) && Quiet(t, phis, k, n)
  }

  /** It is in PRESSURE: it entered, and the risk has stayed between the lower exit and the threshold of UNSTABLE. */
  ghost predicate PressureAt(t: Thresholds, phis: seq<real>, n: nat)
    requires n <= |phis|
    decreases n, 0
  {
    exists k: nat :: k < n && EntersPressure(t, phis, k) && Kept(t, phis, k, n, t.pressureExitLow, t.unstableEnter)
  }

  /** It is UNSTABLE: it entered, however high the risk, and the risk has stayed above the lower exit. */
  ghost predicate UnstableAt(t: Thresholds, phis: seq<real>, n: nat)
    requires n <= |phis|
    decreases n, 0
  {
    exists k: nat :: k < n && EntersUnstable(t, phis, k) && Kept(t, phis, k, n, t.unstableExitLow, t.failureEnter)
  }

  lemma StableStep(t: Thresholds, phis: seq<real>, n: nat)
    requires n < |phis|
    ensures StableAt(t, phis, n + 1) <==>
              || (StableAt(t, phis, n) && phis[n] < t.pressureEnter && phis[n] < t.failureEnter)
              || Released(t, phis, n)
  {
    forall k: nat | k < n
      ensures Quiet(t, phis, k, n + 1) <==>
                Quiet(t, phis, k, n) && phis[n] < t.pressureEnter && phis[n] < t.failureEnter
    {
    }
    assert Quiet(t, phis, n, n + 1);
  }

  lemma PressureStep(t: Thresholds, phis: seq<real>, n: nat)
    requires n < |phis|
    ensures PressureAt(t, phis, n + 1) <==>
              || (PressureAt(t, phis, n) && t.pressureExitLow <= phis[n] < t.unstableEnter && phis[n] < t.failureEnter)
              || EntersPressure(t, phis, n)
  {
    var lo, hi := t.pressureExitLow, t.unstableEnter;
    forall k: nat | k < n
      ensures Kept(t, phis, k, n + 1, lo, hi) <==>
                Kept(t, phis, k, n, lo, hi) && lo <= phis[n] < hi && phis[n] < t.failureEnter
    {
    }
    assert Kept(t, phis, n, n + 1, lo, hi);
  }

  lemma UnstableStep(t: Thresholds, phis: seq<real>, n: nat)
    requires n < |phis|
    ensures UnstableAt(t, phis, n + 1) <==>
              || (UnstableAt(t, phis, n) && t.unstableExitLow <= phis[n] < t.failureEnter)
              || EntersUnstable(t, phis, n)
  {
    var lo, hi := t.unstableExitLow, t.failureEnter;
    forall k: nat | k < n
      ensures Kept(t, phis, k, n + 1, lo, hi) <==> Kept(t, phis, k, n, lo, hi) && lo <= phis[n] < hi
    {
    }
    assert Kept(t, phis, n, n + 1, lo, hi);
  }

  lemma {:induction false} RegimeAt(t: Thresholds, phis: seq<real>, n: nat)
    requires n <= |phis|
    ensures Run(t, phis[..n]) == Stable <==> StableAt(t, phis, n)
    ensures Run(t, phis[..n]) == Pressure <==> PressureAt(t, phis, n)
    ensures Run(t, phis[..n]) == Unstable <==> UnstableAt(t, phis, n)
    decreases n
  {
    if n > 0 {
      RegimeAt(t, phis, n - 1);
      assert phis[..n][..n - 1] == phis[..n - 1];
      StableStep(t, phis, n - 1);
      PressureStep(t, phis, n - 1);
      UnstableStep(t, phis, n - 1);
    }
  }

  /** Thresholds and risk values alone say in which of the three regimes a run is; otherwise it is in FAILURE. */
  lemma RegimeExactly(t: Thresholds, phis: seq<real>)
    ensures Run(t, phis) == Stable <==> StableAt(t, phis, |phis|)
    ensures Run(t, phis) == Pressure <==> PressureAt(t, phis, |phis|)
    ensures Run(t, phis) == Unstable <==> UnstableAt(t, phis, |phis|)
  {
    assert phis[..|phis|] == phis;
    RegimeAt(t, phis, |phis|);
  }

  /** The first switch of a run: quiet values, and then one that reaches the entry threshold of PRESSURE. From
    * there, a value below all upper thresholds and the lower exit leads back to STABLE, and one that reaches the
    * next threshold leads to UNSTABLE.
    */
  lemma FirstSwitches(t: Thresholds, quiet: seq<real>, up: real, next: real)
    requires Quiet(t, quiet, -1, |quiet|) && t.pressureEnter <= up < t.failureEnter && next < t.failureEnter
    ensures Run(t, quiet) == Stable && Run(t, quiet + [up]) == Pressure
    ensures Run(t, quiet + [up] + [next]) ==
              if next >= t.unstableEnter then Unstable else if next < t.pressureExitLow then Stable else Pressure
  {
    var phis, n := quiet + [up] + [next], |quiet|;
    assert phis[..n] == quiet && phis[..n + 1] == quiet + [up] && phis[..n + 2] == phis;
    assert Quiet(t, phis, -1, n) by {
      assert forall i :: 0 <= i < n ==> phis[i] == quiet[i];
    }
    RegimeAt(t, phis, n);
    RegimeAt(t, phis, n + 1);
    RegimeAt(t, phis, n + 2);
    PressureStep(t, phis, n);
    StableStep(t, phis, n + 1);
    PressureStep(t, phis, n + 1);
    UnstableStep(t, phis, n + 1);
  }

  // ------------------------------------------------------------------ bounded chattering

  datatype Move = Still | Up | Down

  function Level(r: Regime): nat {
    match r case Stable => 0 case Pressure => 1 case Unstable => 2 case Failure => 3
  }

  function MoveOf(from: Regime, to: Regime): Move {
    if Level(from) < Level(to) then Up else if Level(to) < Level(from) then Down else Still
  }

  predicate Opposite(before: Move, now: Move) {
    (before == Up && now == Down) || (before == Down && now == Up)
  }

  /** What a run has done so far: its regime, the direction of its latest switch (`Still` before
    * the first), and how many switches went against the switch before them.
    */
  datatype Trail = Trail(regime: Regime, last: Move, reversals: nat)

  function Follow(t: Thresholds, trail: Trail, phi: real): Trail {
    var r := Next(t, trail.regime, phi);
    var m := MoveOf(trail.regime, r);
    Trail(r, if m == Still then trail.last else m, trail.reversals + if Opposite(trail.last, m) then 1 else 0)
  }

  function TrailOf(t: Thresholds, phis: seq<real>): Trail {
    if phis == [] then Trail(Stable, Still, 0)
    else Follow(t, TrailOf(t, phis[..|phis| - 1]), phis[|phis| - 1])
  }

  lemma {:induction false} TrailFollowsRun(t: Thresholds, phis: seq<real>)
    ensures TrailOf(t, phis).regime == Run(t, phis)
  {
    if phis != [] {
      TrailFollowsRun(t, phis[..|phis| - 1]);
    }
  }

  function Abs(x: real): real {
    if x < 0.0 then -x else x
  }

  function Positive(x: real): real {
    if x < 0.0 then 0.0 else x
  }

  /** The total variation of the risk over a run. */
  function Variation(phis: seq<real>): real {
    if |phis| <= 1 then 0.0
    else Variation(phis[..|phis| - 1]) + Abs(phis[|phis| - 1] - phis[|phis| - 2])
  }

  function MinReal(a: real, b: real): real {
    if a < b then a else b
  }

  /** The smaller of the two hysteresis gaps. */
  function Gap(t: Thresholds): real {
    MinReal(t.pressureEnter - t.pressureExitLow, t.unstableEnter - t.unstableExitLow)
  }

  /** Every direction reversal of the regime costs the risk signal at least the gap: for all thresholds,
    * whatever their order, and all runs, those that end in FAILURE included.
    */
  lemma ReversalsBounded(t: Thresholds, phis: seq<real>, gap: real)
    requires gap == Gap(t)
    ensures TrailOf(t, phis).reversals as real * gap <= Variation(phis)
  {
    OwedBounded(t, phis);
    ProductBounded(TrailOf(t, phis).reversals, gap, Variation(phis));
  }

  lemma ProductBounded(n: nat, g: real, v: real)
    requires Owed(n, g) <= v
    ensures n as real * g <= v
  {
    OwedIsProduct(n, g);
  }

  lemma OwedBounded(t: Thresholds, phis: seq<real>)
    ensures Owed(TrailOf(t, phis).reversals, Gap(t)) <= Variation(phis)
  {
    if phis != [] {
      ReversalsWithSlack(t, phis);
    }
  }

  /** `n` gaps, added up one at a time. */
  function Owed(n: nat, g: real): real {
    if n == 0 then 0.0 else Owed(n - 1, g) + g
  }

  lemma {:induction false} OwedIsProduct(n: nat, g: real)
    ensures Owed(n, g) == n as real * g
  {
    if n > 0 {
      OwedIsProduct(n - 1, g);
      assert n as real * g == (n - 1) as real * g + g;
    }
  }

  lemma TwiceMore(t: Thresholds, phis: seq<real>, x: real)
    ensures TrailOf(t, phis + [x] + [x]) == Follow(t, Follow(t, TrailOf(t, phis), x), x)
    ensures phis != [] ==> Variation(phis + [x] + [x]) == Variation(phis) + Abs(x - phis[|phis| - 1])
  {
    assert (phis + [x] + [x])[..|phis| + 1] == phis + [x];
    assert (phis + [x])[..|phis|] == phis;
  }

  /** The bound is the best possible. A run that has just entered PRESSURE reverses when the risk falls below the
    * exit, and again when it comes back: one reversal each, whether the value is held or not, at the price of
    * just the way between the entry threshold and the lower value, which may be as close to the exit as one likes.
    */
  lemma ReversalDown(t: Thresholds, phis: seq<real>, lo: real)
    requires lo < t.pressureExitLow <= t.pressureEnter < t.unstableEnter && t.pressureEnter < t.failureEnter
    requires phis != [] && phis[|phis| - 1] == t.pressureEnter
    requires TrailOf(t, phis).regime == Pressure && TrailOf(t, phis).last == Up
    ensures TrailOf(t, phis + [lo] + [lo]) == Trail(Stable, Down, TrailOf(t, phis).reversals + 1)
    ensures Variation(phis + [lo] + [lo]) == Variation(phis) + (t.pressureEnter - lo)
  {
    TwiceMore(t, phis, lo);
  }

  lemma ReversalUp(t: Thresholds, phis: seq<real>, lo: real)
    requires lo < t.pressureExitLow <= t.pressureEnter < t.unstableEnter && t.pressureEnter < t.failureEnter
    requires phis != [] && phis[|phis| - 1] == lo
    requires TrailOf(t, phis).regime == Stable && TrailOf(t, phis).last == Down
    ensures var x := t.pressureEnter;
            && TrailOf(t, phis + [x] + [x]) == Trail(Pressure, Up, TrailOf(t, phis).reversals + 1)
            && Variation(phis + [x] + [x]) == Variation(phis) + (x - lo)
  {
    TwiceMore(t, phis, t.pressureEnter);
  }

  lemma DefaultGap()
    ensures Gap(DEFAULTS) == 0.05
  {
  }

  /** How far the risk has come back since the threshold that caused the latest switch. */
  function Slack(t: Thresholds, r: Regime, last: Move, x: real): real {
    match last
    case Still => 0.0
    case Up =>
      if r == Pressure then Positive(t.pressureEnter - x)
      else if r == Unstable then Positive(t.unstableEnter - x)
      else 0.0
    case Down =>
      if r == Stable then Positive(x - t.pressureExitLow)
      else if r == Pressure then Positive(x - t.unstableExitLow)
      else 0.0
  }

  /** What a trail says about the thresholds: a level that a run ever entered lies below failure, so
    * a jump from a lower level straight to FAILURE pays for the level it skips.
    */
  predicate Consistent(t: Thresholds, trail: Trail) {
    && (trail.last == Up ==> trail.regime != Stable)
    && (trail.last == Down ==> trail.regime == Stable || trail.regime == Pressure)
    && (trail.regime == Pressure || trail.regime == Unstable ==> t.pressureEnter < t.failureEnter)
    && (trail.regime == Unstable ==> t.unstableEnter < t.failureEnter)
    && (trail.last == Down ==> t.pressureEnter < t.failureEnter)
    && (trail.last == Down && trail.regime == Pressure ==> t.unstableEnter < t.failureEnter)
  }

  /** The amortised form: every value pays for its own movement, and what it moved back from the last
    * switch is kept as slack until a reversal spends it.
    */
  lemma {:induction false} ReversalsWithSlack(t: Thresholds, phis: seq<real>)
    requires phis != []
    ensures var trail := TrailOf(t, phis);
            && Consistent(t, trail)
            && Owed(trail.reversals, Gap(t)) + Slack(t, trail.regime, trail.last, phis[|phis| - 1]) <= Variation(phis)
    decreases |phis|
  {
    if |phis| > 1 {
      ReversalsWithSlack(t, phis[..|phis| - 1]);
    }
  }
}
