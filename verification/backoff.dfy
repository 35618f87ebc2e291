/**
 * Doubling-threshold waits: a loop that polls a clock, yields whenever the elapsed time passes
 * a threshold, and doubles the threshold with every yield (reset and start_cmd in src/sdmmc.rs).
 */
module Backoff {
  import opened Common
  import opened Division

  /** The threshold and the number of yields so far. */
  datatype Wait = Wait(threshold: nat, count: nat)

  function Begin(first: nat): Wait { Wait(first, 0) }

  /** One reading of the clock that is within the limit. */
  function Observe(w: Wait, elapsed: nat): Wait {
    if elapsed > w.threshold then Wait(w.threshold * 2, w.count + 1) else w
  }

  function ObserveAll(first: nat, readings: seq<nat>): Wait {
    if readings == [] then Begin(first)
    else Observe(ObserveAll(first, readings[..|readings| - 1]), readings[|readings| - 1])
  }

  /** A wait that began at the time `t0` and has read the clock again, at these times. */
  function Waited(w: Wait, t0: nat, times: seq<nat>): Wait {
    if times == [] then w
    else
      var t := times[|times| - 1];
      Observe(Waited(w, t0, times[..|times| - 1]), if t > t0 then t - t0 else 0)
  }

  lemma WaitedSnoc(w: Wait, t0: nat, times: seq<nat>, t: nat)
    ensures Waited(w, t0, times + [t]) == Observe(Waited(w, t0, times), if t > t0 then t - t0 else 0)
  {
    assert (times + [t])[..|times|] == times;
  }

  /** After k yields the threshold has doubled k times, and the one before was still within the limit. */
  predicate Sound(first: nat, limit: nat, w: Wait) {
    && w.threshold == first * Pow2(w.count)
    && (w.count > 0 ==> first * Pow2(w.count - 1) < limit)
  }

  lemma Pow2Doubles(k: nat)
    ensures Pow2(k + 1) == 2 * Pow2(k)
  {}

  lemma ObserveSound(first: nat, limit: nat, w: Wait, elapsed: nat)
    requires Sound(first, limit, w) && elapsed <= limit
    ensures Sound(first, limit, Observe(w, elapsed))
  {
    Pow2Doubles(w.count);
    assert first * Pow2(w.count + 1) == (first * Pow2(w.count)) * 2;
  }

  /** The general bound: k yields within the limit T from threshold d mean d * 2^(k-1) < T. */
  lemma {:induction false} BackoffBound(first: nat, limit: nat, readings: seq<nat>)
    requires forall i :: 0 <= i < |readings| ==> readings[i] <= limit
    ensures Sound(first, limit, ObserveAll(first, readings))
  {
    if readings == [] {
      assert first * Pow2(0) == first;
    } else {
      var n := |readings| - 1;
      BackoffBound(first, limit, readings[..n]);
      ObserveSound(first, limit, ObserveAll(first, readings[..n]), readings[n]);
    }
  }

  lemma {:induction false} Pow2Monotone(a: nat, b: nat)
    requires a <= b
    ensures Pow2(a) <= Pow2(b)
  {
    if a < b {
      Pow2Monotone(a, b - 1);
    }
  }

  /** A sound wait that starts at `first` and stays below first * 2^bound has at most `bound` yields. */
  lemma YieldsAtMost(first: nat, limit: nat, w: Wait, bound: nat)
    requires Sound(first, limit, w) && limit <= first * Pow2(bound)
    ensures w.count <= bound
  {
    if w.count > bound {
      Pow2Monotone(bound, w.count - 1);
      MulMonotone(Pow2(bound), Pow2(w.count - 1), first);
    }
  }

  /** The two limits of the driver, in microseconds: 1 s for a command, 5 s for a reset. */
  lemma DriverLimits(w: Wait)
    ensures Sound(100_000, 1_000_000, w) ==> w.count <= 4
    ensures Sound(100_000, 5_000_000, w) ==> w.count <= 6
  {
    assert Pow2(4) == 16 && Pow2(6) == 64 by { assert Pow2(2) == 4; }
    if Sound(100_000, 1_000_000, w) {
      YieldsAtMost(100_000, 1_000_000, w, 4);
    }
    if Sound(100_000, 5_000_000, w) {
      YieldsAtMost(100_000, 5_000_000, w, 6);
    }
  }
}
