/** The M/M/c queue: Poisson arrivals, exponential service times and C servers,
    simulated event by event. The random generator is replaced by the stream of
    unit exponential draws it would produce. */
module Queue {
  import opened Rand

  /** The number of customers N in the system at time T. */
  datatype QueueState = QueueState(T: real, N: int)

  const Start := QueueState(0.0, 0)

  /** The customers being served: all of them, but no more than the C servers. */
  function InService(n: int, c: int): (k: int)
    ensures k <= n && k <= c
    ensures k == n || k == c
  {
    if n > c then c else n
  }

  /** The draws one step takes: one for the next arrival, one per busy server. */
  function DrawsNeeded(n: int, c: int): (d: nat)
    ensures d >= 1
    ensures n >= 0 && c >= 0 ==> d == 1 + InService(n, c)
    ensures n <= 0 || c <= 0 ==> d == 1
  {
    var k := InService(n, c);
    1 + (if k > 0 then k else 0)
  }

  /** The race between the pending arrival at t and the services drawn, in order,
      from the unit variates with rate mu: a service replaces the current candidate
      only when it is strictly earlier. */
  function FirstEvent(t: real, arrival: bool, draws: seq<real>, mu: real): (real, bool)
    requires mu != 0.0
    decreases |draws|
  {
    if draws == [] then
      (t, arrival)
    else if Exponential(draws[0], mu) < t then
      FirstEvent(Exponential(draws[0], mu), false, draws[1..], mu)
    else
      FirstEvent(t, arrival, draws[1..], mu)
  }

  /** The race ends with the smallest of all the times, and it stays an arrival
      exactly when no service time is strictly below the arrival time. */
  lemma {:induction false} FirstEventIsMin(t: real, arrival: bool, draws: seq<real>, mu: real)
    requires mu != 0.0
    ensures var r := FirstEvent(t, arrival, draws, mu);
      r.0 <= t
      && (forall i :: 0 <= i < |draws| ==> r.0 <= Exponential(draws[i], mu))
      && (r.0 == t || exists i :: 0 <= i < |draws| && r.0 == Exponential(draws[i], mu))
      && (r.1 <==> arrival && forall i :: 0 <= i < |draws| ==> !(Exponential(draws[i], mu) < t))
      && (!r.1 && arrival ==> r.0 < t)
    decreases |draws|
  {
    if draws != [] {
      var s := Exponential(draws[0], mu);
      var rest := draws[1..];
      assert forall i :: 1 <= i < |draws| ==> draws[i] == rest[i - 1];
      if s < t {
        FirstEventIsMin(s, false, rest, mu);
        var r := FirstEvent(s, false, rest, mu);
        if r.0 != s {
          var j :| 0 <= j < |rest| && r.0 == Exponential(rest[j], mu);
          assert r.0 == Exponential(draws[j + 1], mu);
        }
      } else {
        FirstEventIsMin(t, arrival, rest, mu);
        var r := FirstEvent(t, arrival, rest, mu);
        if r.0 != t {
          var j :| 0 <= j < |rest| && r.0 == Exponential(rest[j], mu);
          assert r.0 == Exponential(draws[j + 1], mu);
        }
      }
    }
  }

  /** The loop of Advance over the busy servers: each service draw replaces the
      pending event when it is strictly earlier. */
  method ServiceRace(arrivalTime: real, services: seq<real>, mu: real) returns (t: real, arrival: bool)
    requires mu != 0.0
    ensures (t, arrival) == FirstEvent(arrivalTime, true, services, mu)
  {
    t, arrival := arrivalTime, true;
    var i := 0;
    while i < |services|
      invariant 0 <= i <= |services|
      invariant FirstEvent(t, arrival, services[i..], mu) == FirstEvent(arrivalTime, true, services, mu)
    {
      assert services[i..][1..] == services[i + 1..];
      var s := Exponential(services[i], mu);
      if s < t {
        t := s;
        arrival := false;
      }
      i := i + 1;
    }
    assert services[i..] == [];
  }

  /** The state after one event from cur, with draws[0] the arrival draw and the
      next InService draws the service draws. */
  function Successor(cur: QueueState, draws: seq<real>, lambda: real, mu: real, c: int): (next: QueueState)
    requires lambda != 0.0 && mu != 0.0 && |draws| >= DrawsNeeded(cur.N, c)
  {
    var e := FirstEvent(Exponential(draws[0], lambda), true, draws[1..DrawsNeeded(cur.N, c)], mu);
    QueueState(cur.T + e.0, if e.1 then cur.N + 1 else cur.N - 1)
  }

  /** One event changes the count by exactly one, up on an arrival, which happens
      exactly when no service draw is strictly earlier than the arrival draw, and a
      departure needs a busy server, so the count never goes below zero. */
  lemma SuccessorCount(cur: QueueState, draws: seq<real>, lambda: real, mu: real, c: int)
    requires lambda != 0.0 && mu != 0.0 && |draws| >= DrawsNeeded(cur.N, c)
    ensures var next := Successor(cur, draws, lambda, mu, c);
      (next.N == cur.N + 1 <==>
         forall i :: 1 <= i < DrawsNeeded(cur.N, c) ==>
           !(Exponential(draws[i], mu) < Exponential(draws[0], lambda)))
      && (next.N == cur.N + 1 || next.N == cur.N - 1)
      && (next.N == cur.N - 1 ==> InService(cur.N, c) >= 1)
      && (cur.N >= 0 ==> next.N >= 0)
  {
    var d := DrawsNeeded(cur.N, c);
    var w := draws[1..d];
    FirstEventIsMin(Exponential(draws[0], lambda), true, w, mu);
    assert forall i :: 1 <= i < d ==> w[i - 1] == draws[i];
    assert forall i :: 0 <= i < |w| ==> w[i] == draws[i + 1];
  }

  /** The step is the earliest of the arrival time and the service times, and it
      is positive when the rates and the draws are. */
  lemma SuccessorTime(cur: QueueState, draws: seq<real>, lambda: real, mu: real, c: int)
    requires lambda != 0.0 && mu != 0.0 && |draws| >= DrawsNeeded(cur.N, c)
    ensures var step := Successor(cur, draws, lambda, mu, c).T - cur.T;
      step <= Exponential(draws[0], lambda)
      && (forall i :: 1 <= i < DrawsNeeded(cur.N, c) ==> step <= Exponential(draws[i], mu))
      && (step == Exponential(draws[0], lambda) ||
          exists i :: 1 <= i < DrawsNeeded(cur.N, c) && step == Exponential(draws[i], mu))
    ensures lambda > 0.0 && mu > 0.0 && (forall i :: 0 <= i < |draws| ==> draws[i] > 0.0) ==>
      Successor(cur, draws, lambda, mu, c).T > cur.T
  {
    var d := DrawsNeeded(cur.N, c);
    var w := draws[1..d];
    var e := FirstEvent(Exponential(draws[0], lambda), true, w, mu);
    FirstEventIsMin(Exponential(draws[0], lambda), true, w, mu);
    assert forall i :: 1 <= i < d ==> w[i - 1] == draws[i];
    if e.0 != Exponential(draws[0], lambda) {
      var j :| 0 <= j < |w| && e.0 == Exponential(w[j], mu);
      assert e.0 == Exponential(draws[j + 1], mu);
    }
    if lambda > 0.0 && mu > 0.0 && (forall i :: 0 <= i < |draws| ==> draws[i] > 0.0) {
      assert Exponential(draws[0], lambda) > 0.0;
      if e.0 != Exponential(draws[0], lambda) {
        var j :| 0 <= j < |w| && e.0 == Exponential(w[j], mu);
        assert Exponential(draws[j + 1], mu) > 0.0;
      }
    }
  }

  /** A queue whose times strictly increase and whose counts move by one, down only
      from a positive count. */
  ghost predicate Trajectory(states: seq<QueueState>, increasing: bool)
  {
    |states| >= 1 && states[0] == Start
    && (forall i :: 0 <= i < |states| ==> states[i].N >= 0)
    && (forall i :: 0 < i < |states| ==>
          states[i].N == states[i - 1].N + 1 || states[i].N == states[i - 1].N - 1)
    && (increasing ==> forall i :: 0 < i < |states| ==> states[i - 1].T < states[i].T)
  }

  /** Appending the Successor of the last state keeps a trajectory one, when the
      draws are positive. */
  lemma TrajectoryExtend(states: seq<QueueState>, draws: seq<real>, lambda: real, mu: real, c: int)
    requires lambda != 0.0 && mu != 0.0
    requires Trajectory(states, lambda > 0.0 && mu > 0.0)
    requires |draws| >= DrawsNeeded(states[|states| - 1].N, c)
    requires forall i :: 0 <= i < |draws| ==> draws[i] > 0.0
    ensures Trajectory(states + [Successor(states[|states| - 1], draws, lambda, mu, c)],
                       lambda > 0.0 && mu > 0.0)
  {
    SuccessorCount(states[|states| - 1], draws, lambda, mu, c);
    SuccessorTime(states[|states| - 1], draws, lambda, mu, c);
  }

  /** Strictly increasing times are in particular non-decreasing, over any span. */
  lemma {:induction false} TrajectoryOrdered(states: seq<QueueState>, i: nat, j: nat)
    requires Trajectory(states, true) && i <= j < |states|
    ensures states[i].T <= states[j].T
    decreases j - i
  {
    if i < j {
      TrajectoryOrdered(states, i + 1, j);
    }
  }

  /** The states and remaining draws after simulating from states until the last
      time reaches T, one Successor per event, or until the draws cannot pay for
      the next event. */
  function Run(states: seq<QueueState>, stream: seq<real>, T: real, lambda: real, mu: real, c: int)
    : (seq<QueueState>, seq<real>)
    requires lambda != 0.0 && mu != 0.0 && |states| >= 1
    decreases |stream|
  {
    var last := states[|states| - 1];
    var d := DrawsNeeded(last.N, c);
    if last.T < T && d <= |stream| then
      Run(states + [Successor(last, stream, lambda, mu, c)], stream[d..], T, lambda, mu, c)
    else
      (states, stream)
  }

  /** A run only appends states, keeps a trajectory a trajectory, changes nothing
      when the clock is already at or past T, and stops with the clock at or past T
      or with too few draws left for the next event. */
  lemma {:induction false} RunExtends(states: seq<QueueState>, stream: seq<real>, T: real,
                                      lambda: real, mu: real, c: int)
    requires lambda != 0.0 && mu != 0.0
    requires Trajectory(states, lambda > 0.0 && mu > 0.0)
    requires forall i :: 0 <= i < |stream| ==> stream[i] > 0.0
    ensures var (s2, rest) := Run(states, stream, T, lambda, mu, c);
      && |s2| >= |states| && s2[..|states|] == states
      && Trajectory(s2, lambda > 0.0 && mu > 0.0)
      && (states[|states| - 1].T >= T ==> s2 == states && rest == stream)
      && (s2[|s2| - 1].T >= T || DrawsNeeded(s2[|s2| - 1].N, c) > |rest|)
    decreases |stream|
  {
    var last := states[|states| - 1];
    var d := DrawsNeeded(last.N, c);
    if last.T < T && d <= |stream| {
      var next := states + [Successor(last, stream, lambda, mu, c)];
      TrajectoryExtend(states, stream, lambda, mu, c);
      RunExtends(next, stream[d..], T, lambda, mu, c);
      var s2 := Run(next, stream[d..], T, lambda, mu, c).0;
      assert s2[..|states|] == s2[..|next|][..|states|];
    }
  }

  class MMCQueue {
    const Arrival: real
    const Service: real
    const C: int
    /** The unit exponential draws the generator has still to produce. */
    var stream: seq<real>
    var states: seq<QueueState>

    ghost predicate Valid()
      reads this
    {
      Arrival != 0.0 && Service != 0.0
      && (forall i :: 0 <= i < |stream| ==> stream[i] > 0.0)
      && Trajectory(states, Arrival > 0.0 && Service > 0.0)
    }

    constructor (stream: seq<real>, arrival: real, service: real, c: int)
      requires arrival != 0.0 && service != 0.0
      requires forall i :: 0 <= i < |stream| ==> stream[i] > 0.0
      ensures Valid()
      ensures states == [Start]
      ensures this.stream == stream && Arrival == arrival && Service == service && C == c
    {
      this.stream := stream;
      Arrival := arrival;
      Service := service;
      C := c;
      states := [Start];
    }

    function Last(): QueueState
      requires |states| >= 1
      reads this
    {
      states[|states| - 1]
    }

    /** The draws the next call of Advance takes from the generator. */
    function Needed(): nat
      requires |states| >= 1
      reads this
    {
      DrawsNeeded(Last().N, C)
    }

    /** Simulates up to the next event, records the new state and returns it. */
    method Advance() returns (next: QueueState)
      requires Valid() && Needed() <= |stream|
      modifies this
      ensures Valid()
      ensures next == Successor(old(Last()), old(stream), Arrival, Service, C)
      ensures states == old(states) + [next]
      ensures stream == old(stream[Needed()..])
    {
      // The generator's draws, consumed one per exponential variate.
      var draws := stream;
      var cur := states[|states| - 1];
      // Busy servers: every customer present, up to the C servers.
      var inService := cur.N;
      if inService > C {
        inService := C;
      }
      var k := if inService > 0 then inService else 0;
      assert 1 + k == Needed();

      var t, arrival := ServiceRace(Exponential(draws[0], Arrival), draws[1..1 + k], Service);
      next := QueueState(cur.T + t, cur.N);
      if arrival {
        next := next.(N := next.N + 1);
      } else {
        next := next.(N := next.N - 1);
      }
      assert next == Successor(cur, draws, Arrival, Service, C);
      TrajectoryExtend(states, draws, Arrival, Service, C);
      var grown := states + [next];
      assert Trajectory(grown, Arrival > 0.0 && Service > 0.0);
      var rest := draws[1 + k..];
      assert forall i :: 0 <= i < |rest| ==> rest[i] == draws[1 + k + i];
      states := grown;
      stream := rest;
    }

    /** Simulates until the first event at or after time T. The generator of the
        model is finite, so the loop also ends when the stream cannot pay for the
        next step. */
    method Until(T: real)
      requires Valid()
      modifies this
      ensures Valid()
      ensures |states| >= |old(states)| && states[..|old(states)|] == old(states)
      ensures old(Last().T) >= T ==> states == old(states) && stream == old(stream)
      ensures Last().T >= T || Needed() > |stream|
      ensures forall i :: |old(states)| - 1 <= i < |states| - 1 ==> states[i].T < T
      ensures (states, stream) == Run(old(states), old(stream), T, Arrival, Service, C)
    {
      var t := 0.0;
      if |states| > 0 {
        t := states[|states| - 1].T;
      }
      while t < T && Needed() <= |stream|
        invariant Valid() && t == Last().T
        invariant |states| >= |old(states)| && states[..|old(states)|] == old(states)
        invariant |states| == |old(states)| ==> stream == old(stream)
        invariant forall i :: |old(states)| - 1 <= i < |states| - 1 ==> states[i].T < T
        invariant Run(states, stream, T, Arrival, Service, C) == Run(old(states), old(stream), T, Arrival, Service, C)
        decreases |stream|
      {
        var state := Advance();
        t := state.T;
      }
    }

    /** The states at the event times, from the start state on. */
    function States(): (r: seq<QueueState>)
      requires Valid()
      reads this
      ensures |r| >= 1 && r[0] == Start
      ensures forall i :: 0 < i < |r| ==> r[i].N == r[i - 1].N + 1 || r[i].N == r[i - 1].N - 1
      ensures forall i :: 0 <= i < |r| ==> r[i].N >= 0
      ensures Arrival > 0.0 && Service > 0.0 ==>
        forall i, j :: 0 <= i <= j < |r| ==> r[i].T <= r[j].T
    {
      assert Arrival > 0.0 && Service > 0.0 ==>
        forall i, j :: 0 <= i <= j < |states| ==> states[i].T <= states[j].T by {
        if Arrival > 0.0 && Service > 0.0 {
          forall i, j | 0 <= i <= j < |states|
            ensures states[i].T <= states[j].T
          {
            TrajectoryOrdered(states, i, j);
          }
        }
      }
      states
    }
  }
}
