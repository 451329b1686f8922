/** Exponential variates and the Poisson process built on them. The generator is
    not modelled: each draw of the unit exponential variate (ExpFloat64, a number
    in (0, max float64]) is passed in, in the order the generator would produce
    them. */
module Rand {

  /** An exponential variate with rate lambda from the unit variate e. */
  function Exponential(e: real, lambda: real): (r: real)
    requires lambda != 0.0
    ensures r * lambda == e
    ensures e > 0.0 && lambda > 0.0 ==> r > 0.0
  {
    e / lambda
  }

  /** The time of the n-th event of the process driven by draws: the sum of the
      first n inter-arrival times. */
  function Time(draws: seq<real>, lambda: real, n: nat): real
    requires lambda != 0.0 && n <= |draws|
  {
    if n == 0 then 0.0 else Time(draws, lambda, n - 1) + Exponential(draws[n - 1], lambda)
  }

  /** The draws are enough to carry the process to time T. */
  ghost predicate Reaches(draws: seq<real>, lambda: real, T: real)
    requires lambda != 0.0
  {
    exists n :: 0 <= n <= |draws| && Time(draws, lambda, n) >= T
  }

  /** With a positive rate and positive draws the event times strictly increase. */
  lemma {:induction false} TimeIncreasing(draws: seq<real>, lambda: real, i: nat, j: nat)
    requires lambda > 0.0 && i < j <= |draws|
    requires forall k :: 0 <= k < |draws| ==> draws[k] > 0.0
    ensures Time(draws, lambda, i) < Time(draws, lambda, j)
    decreases j
  {
    assert Exponential(draws[j - 1], lambda) > 0.0;
    if i < j - 1 {
      TimeIncreasing(draws, lambda, i, j - 1);
    }
  }

  /** The event times of a Poisson process with rate lambda up to and including the
      first one at or after T; the loop consumes one draw per event. */
  method PoissonProcess(lambda: real, T: real, draws: seq<real>) returns (process: seq<real>)
    requires lambda != 0.0 && Reaches(draws, lambda, T)
    ensures |process| <= |draws|
    ensures forall k :: 0 <= k < |process| ==> process[k] == Time(draws, lambda, k + 1)
    ensures Time(draws, lambda, |process|) >= T
    ensures forall k :: 0 <= k < |process| ==> Time(draws, lambda, k) < T
    ensures process == [] <==> T <= 0.0
    ensures process != [] ==> process[|process| - 1] >= T
    ensures forall k :: 0 <= k < |process| - 1 ==> process[k] < T
    ensures lambda > 0.0 && (forall k :: 0 <= k < |draws| ==> draws[k] > 0.0) ==>
      forall a, b :: 0 <= a < b < |process| ==> process[a] < process[b]
  {
    process := [];
    var t := 0.0;
    var i := 0;
    while t < T
      invariant i <= |draws| && |process| == i
      invariant t == Time(draws, lambda, i)
      invariant forall k :: 0 <= k < i ==> process[k] == Time(draws, lambda, k + 1)
      invariant forall k :: 0 <= k < i ==> Time(draws, lambda, k) < T
      decreases |draws| - i
    {
      assert i < |draws| by {
        var n :| 0 <= n <= |draws| && Time(draws, lambda, n) >= T;
        assert n > i;
      }
      var step := Exponential(draws[i], lambda);
      t := t + step;
      process := process + [t];
      i := i + 1;
    }
    if lambda > 0.0 && (forall k :: 0 <= k < |draws| ==> draws[k] > 0.0) {
      forall a, b | 0 <= a < b < |process|
        ensures process[a] < process[b]
      {
        TimeIncreasing(draws, lambda, a + 1, b + 1);
      }
    }
  }
}
