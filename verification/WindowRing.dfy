/** The windowed counters of the coherence kernel: a ring of slots against the full log.
  * Each slot stands for one tick step; the log remembers every recording with its step.
  */
module WindowRing {

  datatype Tally = Tally(step: int, amount: nat)

  /** What the log records for one step. */
  function TotalAt(log: seq<Tally>, step: int): nat {
    if log == [] then 0
    else
      var e := log[|log| - 1];
      TotalAt(log[..|log| - 1], step) + (if e.step == step then e.amount else 0)
  }

  /** What the log records after step `lo`, up to and including step `hi`. */
  function TotalBetween(log: seq<Tally>, lo: int, hi: int): nat {
    if log == [] then 0
    else
      var e := log[|log| - 1];
      TotalBetween(log[..|log| - 1], lo, hi) + (if lo < e.step <= hi then e.amount else 0)
  }

  /** The sum of the first `n` slots. */
  function SumTo(ring: seq<nat>, n: nat): nat
    requires n <= |ring|
  {
    if n == 0 then 0 else SumTo(ring, n - 1) + ring[n - 1]
  }

  /** The step slot `j` stands for while `idx` is the slot of the current step. */
  function StepOf(j: int, idx: int, slots: nat, step: int): int {
    if j <= idx then step - (idx - j) else step - (idx - j) - slots
  }

  ghost predicate NoFuture(log: seq<Tally>, step: int) {
    forall i :: 0 <= i < |log| ==> log[i].step <= step
  }

  /** The ring holds the log's totals of the current step and of the |ring| - 1 before it. */
  ghost predicate Mirrors(ring: seq<nat>, idx: nat, log: seq<Tally>, step: int) {
    && idx < |ring|
    && NoFuture(log, step)
    && forall j :: 0 <= j < |ring| ==> ring[j] == TotalAt(log, StepOf(j, idx, |ring|, step))
  }

  lemma {:induction false} NothingYet(log: seq<Tally>, step: int)
    requires NoFuture(log, step)
    ensures forall s :: s > step ==> TotalAt(log, s) == 0
  {
    if log != [] {
      NothingYet(log[..|log| - 1], step);
    }
  }

  /** Moving to the next slot and zeroing it tracks the next step, whatever it overwrites. */
  lemma Advanced(ring: seq<nat>, idx: nat, log: seq<Tally>, step: int, next: nat)
    requires Mirrors(ring, idx, log, step)
    requires next == (idx + 1) % |ring|
    ensures Mirrors(ring[next := 0], next, log, step + 1)
  {
    NothingYet(log, step);
    assert next == if idx + 1 == |ring| then 0 else idx + 1;
    var ring' := ring[next := 0];
    forall j | 0 <= j < |ring|
      ensures ring'[j] == TotalAt(log, StepOf(j, next, |ring|, step + 1))
    {
      if j != next {
        assert StepOf(j, next, |ring|, step + 1) == StepOf(j, idx, |ring|, step);
      }
    }
  }

  lemma Recorded(ring: seq<nat>, idx: nat, log: seq<Tally>, step: int, amount: nat)
    requires Mirrors(ring, idx, log, step)
    ensures Mirrors(ring[idx := ring[idx] + amount], idx, log + [Tally(step, amount)], step)
  {
    var log' := log + [Tally(step, amount)];
    assert log'[..|log|] == log;
  }

  /** The headline: the sum over the ring is the total of the last |ring| steps of the log. */
  lemma RingSumIsWindowTotal(ring: seq<nat>, idx: nat, log: seq<Tally>, step: int)
    requires Mirrors(ring, idx, log, step)
    ensures SumTo(ring, |ring|) == TotalBetween(log, step - |ring|, step)
  {
    SumAfter(ring, idx, log, step, |ring|);
    Between(log, step - |ring|, step - idx - 1, step);
  }

  /** The sum up to the current slot, and then past it into the oldest steps. */
  lemma {:induction false} SumUpTo(ring: seq<nat>, idx: nat, log: seq<Tally>, step: int, n: nat)
    requires Mirrors(ring, idx, log, step) && n <= idx + 1
    ensures SumTo(ring, n) == TotalBetween(log, step - idx - 1, step - idx - 1 + n)
  {
    if n == 0 {
      BetweenNothing(log, step - idx - 1);
    } else {
      SumUpTo(ring, idx, log, step, n - 1);
      BetweenOneMore(log, step - idx - 1, step - idx - 1 + n - 1);
      assert StepOf(n - 1, idx, |ring|, step) == step - idx - 1 + n;
    }
  }

  lemma {:induction false} SumAfter(ring: seq<nat>, idx: nat, log: seq<Tally>, step: int, n: nat)
    requires Mirrors(ring, idx, log, step) && idx < n <= |ring|
    ensures SumTo(ring, n)
         == TotalBetween(log, step - idx - 1, step) + TotalBetween(log, step - |ring|, step - |ring| + n - idx - 1)
  {
    if n == idx + 1 {
      SumUpTo(ring, idx, log, step, n);
      BetweenNothing(log, step - |ring|);
    } else {
      SumAfter(ring, idx, log, step, n - 1);
      BetweenOneMore(log, step - |ring|, step - |ring| + n - idx - 2);
      assert StepOf(n - 1, idx, |ring|, step) == step - |ring| + n - idx - 1;
    }
  }

  lemma {:induction false} BetweenNothing(log: seq<Tally>, s: int)
    ensures TotalBetween(log, s, s) == 0
  {
    if log != [] {
      BetweenNothing(log[..|log| - 1], s);
    }
  }

  lemma {:induction false} BetweenOneMore(log: seq<Tally>, lo: int, hi: int)
    requires lo <= hi
    ensures TotalBetween(log, lo, hi + 1) == TotalBetween(log, lo, hi) + TotalAt(log, hi + 1)
  {
    if log != [] {
      BetweenOneMore(log[..|log| - 1], lo, hi);
    }
  }

  lemma {:induction false} Between(log: seq<Tally>, lo: int, mid: int, hi: int)
    requires lo <= mid <= hi
    ensures TotalBetween(log, lo, hi) == TotalBetween(log, lo, mid) + TotalBetween(log, mid, hi)
  {
    if log != [] {
      Between(log[..|log| - 1], lo, mid, hi);
    }
  }
}
