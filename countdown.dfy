/**
  The countdown loop of `main` (src/main.rs:184-213): `remaining` runs from the
  total down to 1; each tick first polls the interrupt flag, then shows its
  output. The flag, set asynchronously by the Ctrl-C handler, is an input here:
  `interrupts[k]` is what the poll on tick `k` (counting from 0) reads.
*/
module CountdownLoop {
  import opened Effects
  import opened Rendering

  /** How a run ends: exit code 0, 2 and 1 respectively. */
  datatype Outcome = Expired | Interrupted | ConfigError

  function ExitCode(o: Outcome): (code: int)
    ensures code == 0 <==> o == Expired
  {
    match o
    case Expired => 0
    case Interrupted => 2
    case ConfigError => 1
  }

  /** Each outcome has its own exit code. */
  lemma ExitCodeDistinct(a: Outcome, b: Outcome)
    ensures ExitCode(a) == ExitCode(b) ==> a == b
  {
  }

  /** The poll on tick `k` finds the flag set (ticks past the oracle read it clear). */
  predicate Observed(interrupts: seq<bool>, k: nat) {
    k < |interrupts| && interrupts[k]
  }

  predicate NoInterruptBefore(interrupts: seq<bool>, n: nat) {
    forall k :: 0 <= k < n ==> !Observed(interrupts, k)
  }

  /** The first `n` values of `remaining`: `total, total - 1, ..., total - n + 1`. */
  function RemainingValues(total: nat, n: nat): (r: seq<nat>)
    requires n <= total
    ensures |r| == n
    ensures forall i :: 0 <= i < n ==> r[i] == total - i
  {
    if n == 0 then [] else RemainingValues(total, n - 1) + [total - (n - 1)]
  }

  /**
    Runs the ticks. `visited` lists the values of `remaining` whose tick produced
    its output. The run is interrupted exactly when some tick's poll finds the
    flag; then it stops at the first such tick, before that tick's output, and
    ends with the interruption message instead of the final line.
  */
  method Countdown(d: Display, total: nat, interrupts: seq<bool>)
    returns (outcome: Outcome, visited: seq<nat>, effects: seq<Effect>)
    ensures |visited| <= total && visited == RemainingValues(total, |visited|)
    ensures outcome == Expired || outcome == Interrupted
    ensures outcome == Expired <==> NoInterruptBefore(interrupts, total)
    ensures NoInterruptBefore(interrupts, |visited|)
    ensures outcome == Expired ==>
      |visited| == total && effects == TicksOutput(d, total, total) + FinalOutput(d)
    ensures outcome == Interrupted ==>
      |visited| < total && Observed(interrupts, |visited|) &&
      effects == TicksOutput(d, total, |visited|) + Ep(d.quiet, InterruptedMessage)
    ensures forall e :: e in effects ==> IsTerminalOutput(e)
    ensures outcome == Interrupted ==> forall e :: e in effects ==> !e.FinishBar?
    ensures StyleOf(d) == Silent ==> effects == []
  {
    visited, effects := [], [];
    var remaining: nat := total;
    while remaining >= 1
      invariant remaining <= total
      invariant |visited| == total - remaining
      invariant visited == RemainingValues(total, |visited|)
      invariant NoInterruptBefore(interrupts, |visited|)
      invariant effects == TicksOutput(d, total, |visited|)
    {
      if Observed(interrupts, total - remaining) {
        assert !NoInterruptBefore(interrupts, total);
        effects := effects + Ep(d.quiet, InterruptedMessage);
        return Interrupted, visited, effects;
      }
      var tick := TickOutput(d, total, remaining);
      TicksOutputStep(d, total, |visited|);
      effects := effects + tick;
      visited := visited + [remaining];
      remaining := remaining - 1;
    }
    effects := effects + FinalOutput(d);
    outcome := Expired;
  }

  lemma TicksOutputStep(d: Display, total: nat, n: nat)
    requires n < total
    ensures TicksOutput(d, total, n + 1) == TicksOutput(d, total, n) + TickOutput(d, total, total - n)
  {
  }

  /**
    A completed countdown visits every value from `total` down to 1 exactly
    once, in strictly decreasing order.
  */
  lemma CountdownStrictlyDecreasing(total: nat, n: nat)
    requires n <= total
    ensures forall i, j :: 0 <= i < j < n ==> RemainingValues(total, n)[i] > RemainingValues(total, n)[j]
    ensures forall i :: 0 <= i < n ==> 1 <= RemainingValues(total, n)[i] <= total
  {
  }

  lemma {:induction false} CountdownVisitsEachOnce(total: nat, n: nat)
    requires n <= total
    ensures forall r :: multiset(RemainingValues(total, n))[r] == if total - n < r <= total then 1 else 0
    decreases n
  {
    if n > 0 {
      CountdownVisitsEachOnce(total, n - 1);
      var prev := RemainingValues(total, n - 1);
      var last: nat := total - (n - 1);
      assert RemainingValues(total, n) == prev + [last];
      assert multiset(RemainingValues(total, n)) == multiset(prev) + multiset{last};
    }
  }

}
