# gosim sequential core, in Dafny

This project models the three bookkeeping pieces of the gosim stochastic-simulation
toolkit. Each has its own module:

- `BrownianMotion` (brownian.dfy) models the lazy Brownian path `Brownian`. The class
  holds a slice of `(t, v)` checkpoints. Its method `At(t)` puts the anchor `(0, 0)` into
  an empty path and binary-searches the checkpoints for a bracket `L, U`. It then does
  one of three things:
  - returns the stored anchor value (`L == U`);
  - extends the path past the last checkpoint by `z * sqrt(t - t_last)`;
  - draws from the Brownian bridge between `L` and `U`.
  Finally it appends the new checkpoint and re-sorts the slice with `sort.Sort` over
  `Len`, `Less` and `Swap`. `Query` is the specification function of one call.
  `Answered` and `Preserved` say what a call returns, which checkpoints it leaves, and
  which invariants it keeps:
  - sorted by time;
  - zero value at time 0;
  - finite values;
  - one value per time.
- `Queue` (queue.dfy) models the M/M/c queue `MMCQueue`:
  - `NewMMCQueue` is the constructor;
  - `Advance` runs the race between one arrival draw and `min(N, C)` service draws;
  - `Until` loops over `Advance`;
  - `States` returns the recorded states.
  `Successor` is the specification of one event. `Trajectory` is the invariant of the
  state list: it starts at `(0, 0)`, counts move by one and are never negative, and
  times increase.
- `Rand` (rand.dfy) models `Exponential` and `PoissonProcess`. `Time` is the running
  sum of the inter-arrival times.
- `Numbers` (numbers.dfy) models the float64 operations the path needs. Arithmetic is
  exact real arithmetic plus a quiet NaN, which Go produces for `0/0` and which then
  propagates.

The random generator is not modelled:
- Each normal draw of `At` is the parameter `z`.
- The unit exponential draws (`ExpFloat64`, positive) are a supplied sequence: a
  parameter of `PoissonProcess`, and the field `stream` of an `MMCQueue`, from which
  `Advance` consumes one arrival draw and then one draw per busy server, in the
  generator's order.
- `math.Sqrt` is the function `sqrt` a path is built with. It is only assumed to be
  nonnegative on nonnegative arguments and zero at zero (`IsSqrt`).

The model follows the code as written. One would expect the checkpoint times to be
pairwise distinct, a query of a known time to leave the path alone, and a query at
time 0 to answer 0 always; the code does not quite do that:

- Exact hit. The "already simulated" branch (brownian.go:70-72) fires only when the
  path holds just the anchor, because the search leaves `L < U` on any longer path.
  Re-querying a known time therefore goes through the bridge, whose variance is zero
  at its ends. It returns the stored value (`QueryKnownTime`) but appends a duplicate
  checkpoint. So checkpoint times are not pairwise distinct, and such a query does
  mutate the path.
- Third query. Re-querying the last checkpoint's time leaves two checkpoints at that
  time at the end of the path (`RequeryOfLastTime`). A third query there brackets
  itself with `s0 == s1`, and brownian.go:80-81 divides 0 by 0. The answer is NaN
  (`QueryDegenerate`; `RepeatedLastQuery` runs the three queries). The bridge lemmas
  therefore carry `s0 < s1` as a hypothesis.
- Zero at time 0. Every checkpoint at time 0 has value 0, and a query at time 0
  answers 0, on paths whose values are all finite (`Preserved`). Once a NaN is stored
  right after the anchor, a query at time 0 computes `0 * NaN` and answers NaN
  (`QueryAtZeroAfterNaN`).

## Model

| member | source | states |
|---|---|---|
| `Numbers.Add` | brownian.go:69 | A float sum is a number exactly when both operands are; adding zero changes nothing |
| `Numbers.Mul` | brownian.go:68 | A float product is a number exactly when both factors are; zero times a number is zero, one times x is x |
| `Numbers.Div` | brownian.go:80-81 | A quotient is a number exactly when the dividend is a number and the divisor a nonzero number (0/0 is NaN); 0/d is 0 and d/d is 1 |
| `Numbers.Sqrt` | brownian.go:67 | The square root of a number is a number, nonnegative, and zero at zero; of NaN it is NaN |
| `Rand.Exponential` | rand.go:8-10 | The variate times the rate gives back the unit draw; positive draws and rates give positive variates |
| `Rand.TimeIncreasing` | rand.go:18-22 | With a positive rate and positive draws the running event times strictly increase |
| `Rand.PoissonProcess` | rand.go:14-25 | Element k is the sum of the first k+1 steps and one draw is consumed per element; the result is empty iff T <= 0; otherwise its last element is >= T and all earlier ones are < T; positive steps give strictly increasing times |
| `Queue.InService` | structs.go:58-61 | The busy servers number min(N, C) |
| `Queue.DrawsNeeded` | structs.go:52-69 | One event takes the arrival draw plus one draw per busy server, min(N, C); just the arrival draw when N or C is not positive |
| `Queue.FirstEventIsMin` | structs.go:64-69 | The race ends at the minimum of the arrival and service times, which is one of them; it stays an arrival iff no service time is strictly below the arrival time |
| `Queue.ServiceRace` | structs.go:64-69 | The loop over the busy servers ends with the pending event of the race specification: the earliest time, an arrival iff no service draw is strictly earlier |
| `Queue.SuccessorCount` | structs.go:71-76 | N goes up by one on an arrival, which happens iff no service draw is strictly earlier, and down by one otherwise; a departure needs a busy server, so N stays >= 0 |
| `Queue.SuccessorTime` | structs.go:52-71 | The step is at most every draw's time and equal to one of them; positive draws make the new time later than the old |
| `Queue.TrajectoryExtend` | structs.go:71-78 | Appending the successor of the last state keeps the list a trajectory: start (0,0), counts >= 0 moving by one, increasing times |
| `Queue.TrajectoryOrdered` | structs.go:71 | Along a trajectory, state times are non-decreasing over any span |
| `Queue.MMCQueue.constructor` | structs.go:42-49 | A new queue holds exactly the state list [(0, 0)] and the given rates, server count and draws |
| `Queue.MMCQueue.Advance` | structs.go:51-80 | Appends exactly the successor state of the last one and returns it; earlier states are unchanged; exactly one arrival draw and min(N, C) service draws are consumed |
| `Queue.RunExtends` | structs.go:82-92 | Repeating events until the clock reaches T only appends states, keeps the trajectory invariant, changes nothing when the clock is already at or past T, and stops at or past T or when the draws cannot pay for the next event |
| `Queue.MMCQueue.Until` | structs.go:82-92 | The new states and remaining draws are exactly those of Run, one Successor per Advance; only appends states; a clock already at or past T changes nothing; on return the last time is >= T (or the draws are used up) and every state added before the last has time < T |
| `Queue.MMCQueue.States` | structs.go:107-109 | The recorded states start at (0, 0), counts move by one and stay >= 0, and times are non-decreasing |
| `BrownianMotion.SearchFrom` | brownian.go:55-63 | From a valid bracket the search keeps states[L].t <= t and (U last or states[U].t > t), narrowing to adjacent indices |
| `BrownianMotion.Bracket` | brownian.go:53-63 | The search from (0, len-1) ends with states[L].t <= t, U last or states[U].t > t, and U == L+1 on two or more checkpoints |
| `BrownianMotion.BinarySearch` | brownian.go:53-63 | The while loop returns the bracket of the search specification |
| `BrownianMotion.ExtendValue` | brownian.go:65-69 | The extension is a number iff the last value is; the increment has the sign of the draw; no elapsed time means no increment |
| `BrownianMotion.BridgeMean` | brownian.go:80 | The bridge mean is a number iff the bracket spans two different times and both values are numbers |
| `BrownianMotion.BridgeVariance` | brownian.go:81 | The bridge variance is a number iff s0 < s1; it is then nonnegative, and zero at t = s0 or t = s1 |
| `BrownianMotion.BridgeValue` | brownian.go:74-84 | The bridge draw is a number iff s0 < s1 and both values are numbers |
| `BrownianMotion.Query` | brownian.go:65-85 | A query answers a stored value iff the path is the single anchor and t is at its time; that answer is the anchor's value |
| `BrownianMotion.QueryExtends` | brownian.go:53-69 | A query past the last checkpoint extends from the last checkpoint |
| `BrownianMotion.BracketSpread` | brownian.go:53-78 | On a path not degenerate at t, a bridge bracket spans two different times |
| `BrownianMotion.BridgeMeanInterpolates` | brownian.go:80 | With s0 < s1 the mean is ((s1-t)v0 + (t-s0)v1)/(s1-s0) and lies between v0 and v1 |
| `BrownianMotion.BridgeAtEndpoints` | brownian.go:80-84 | At t = s0 or t = s1 the bridge returns that end's stored value, whatever the draw |
| `BrownianMotion.QueryAtZero` | brownian.go:45-84 | On a finite path whose time-0 checkpoints are 0, a query at time 0 answers 0 |
| `BrownianMotion.QueryAtZeroAfterNaN` | brownian.go:74-84 | With NaN stored in the first checkpoint after the anchor, a query at time 0 bridges the two and answers NaN |
| `BrownianMotion.QueryFinite` | brownian.go:65-84 | A finite path gives a finite answer unless it is degenerate at t |
| `BrownianMotion.QueryKnownTime` | brownian.go:70-84 | Querying a time already stored answers the stored value, unless the path is degenerate there |
| `BrownianMotion.QueryDegenerate` | brownian.go:74-81 | With the last two checkpoints both at t, the query divides 0 by 0 and answers NaN |
| `BrownianMotion.InsertKeepsWellformed` | brownian.go:87-89 | Inserting a checkpoint at t >= 0 in time order keeps the path sorted, starting at 0 and ending after 0 |
| `BrownianMotion.InsertPreserves` | brownian.go:87-89 | Inserting a checkpoint keeps zero-at-time-0, finiteness and one value per time when the new checkpoint agrees |
| `BrownianMotion.RequeryOfLastTime` | brownian.go:87-89 | Re-inserting the last checkpoint's time leaves two checkpoints at that time at the end |
| `BrownianMotion.StoredInsert` | brownian.go:70-72 | A stored answer leaves the path unchanged and keeps every invariant |
| `BrownianMotion.SimulatedAnswered` | brownian.go:87-92 | A simulated answer grows the path by exactly one checkpoint (t, answer), sorted, a permutation of the old path plus it |
| `BrownianMotion.SimulatedPreserved` | brownian.go:65-92 | A simulated answer keeps zero-at-time-0 (answering 0 at t = 0), finiteness, and one value per time |
| `BrownianMotion.Brownian.constructor` | brownian.go:17-19 | A new path has no checkpoints |
| `BrownianMotion.Brownian.Swap` | brownian.go:35-37 | Exchanges two checkpoints and nothing else |
| `BrownianMotion.Brownian.Sort` | brownian.go:31-33 | sort.Sort with the non-strict Less leaves the checkpoints sorted by time and a permutation of the old ones |
| `BrownianMotion.Brownian.At` | brownian.go:43-93 | An empty path is searched as the anchor (0, 0) alone, so the first call leaves exactly [(0, 0)] at t = 0 and [(0, 0), (t, answer)] otherwise; after any call the path is well formed; the answer and new checkpoints are those of Query (unchanged on a stored answer, otherwise the old path plus (t, answer), sorted); the path invariants are kept |
| `BrownianMotion.FirstQuery` | brownian.go:45-69 | The first query at t > 0 on a fresh path gives a number and leaves exactly [(0,0), (t, answer)] |
| `BrownianMotion.SecondQuery` | brownian.go:74-89 | Re-querying t gives the same value and leaves the path degenerate at t |
| `BrownianMotion.QueryTwice` | brownian.go:43-93 | Two queries of t > 0 on a fresh path give the same number and leave two checkpoints at t at the end |
| `BrownianMotion.RepeatedLastQuery` | brownian.go:43-93 | The third query of the same t > 0 answers NaN |

## Left out

- The random generator (`rand.Rand.NormFloat64`, `ExpFloat64`) is not modelled. Its
  draws are parameters or a supplied stream.
- `math.Sqrt` is an abstract function. It is assumed only to be nonnegative on
  nonnegative arguments and zero at zero.
- Float64 rounding, the infinities and the float formats are not modelled. Values are
  exact reals plus NaN. The division by zero that would give an infinity cannot arise
  in `At` for t >= 0.
- `BrownianMotion.Brownian.At` requires t >= 0. The source does not guard negative
  times: its search then assumes `states[0].t <= t` without it holding.
- `BrownianMotion.Brownian.Sort` models `sort.Sort` as the insertion sort Go runs on
  short slices. On longer slices Go uses another algorithm. Which of several
  checkpoints with the same time comes first may then differ; the sorted-permutation
  contract is the same.
- `Rand.Exponential` requires lambda != 0, because Go would return an infinity.
  `MMCQueue` requires nonzero arrival and service rates for the same reason.
- `Rand.PoissonProcess` requires that the supplied draws carry the time to T. The
  source loops until the generator gets there, which this model cannot bound.
- `Queue.MMCQueue.Until` also stops when the supplied stream cannot pay for the next
  `Advance`. Its "last time >= T" holds when the stream is long enough.
- `Queue.MMCQueue.States` states non-decreasing times only for positive rates. A
  negative rate gives negative steps.
- `QueueState.String` and `MMCQueue.String` (structs.go:28-30, 94-105) are
  `%.2f` formatting and are not modelled.
- `Brownian.Len` and `Brownian.Less` are modelled as a plain function and a plain
  predicate, the ordering `Sort` uses. They have no contract of their own.
- The Monte Carlo engine, control variates, results, the density, quadrature and
  CDF-inversion code, and the plotting driver are not part of this model. They are
  floating-point numerics over external libraries, and several of those files do not
  compile as written.
