/** The lazy Brownian path of brownian.go: a list of (time, value) checkpoints that
    is extended on demand. A query at time t binary-searches the list for a
    bracketing pair, then either returns a stored value, extends the path past its
    last checkpoint by an independent Gaussian increment, or draws the value from
    the Brownian bridge between the two bracketing checkpoints; the new checkpoint
    is appended and the list is sorted again.

    The normal draw of a query is the parameter z; the square root is the abstract
    function `sqrt` a path is built with. */
module BrownianMotion {
  import opened Numbers

  datatype Checkpoint = Checkpoint(t: real, v: Num)

  /** The anchor a path starts from: value 0 at time 0. */
  const Anchor := Checkpoint(0.0, Fin(0.0))

  /** What a query does: return a value already stored (and leave the path alone)
      or simulate a new one (which the path then stores). */
  datatype Answer = Stored(v: Num) | Simulated(v: Num)

  predicate SortedRange(s: seq<Checkpoint>, lo: int, hi: int)
  {
    forall a, b :: lo <= a < b < hi && 0 <= a && b < |s| ==> s[a].t <= s[b].t
  }

  predicate SortedByTime(s: seq<Checkpoint>)
  {
    SortedRange(s, 0, |s|)
  }

  /** The shape every path has once its anchor is in: sorted by time, starting at
      time 0, and ending after time 0 as soon as it holds two checkpoints. */
  predicate Wellformed(s: seq<Checkpoint>)
  {
    && |s| >= 1
    && SortedByTime(s)
    && s[0].t == 0.0
    && (|s| >= 2 ==> s[|s| - 1].t > 0.0)
  }

  /** Every checkpoint at time 0 has value 0. */
  predicate ZeroAnchored(s: seq<Checkpoint>)
  {
    forall i :: 0 <= i < |s| && s[i].t == 0.0 ==> s[i].v == Fin(0.0)
  }

  predicate AllFinite(s: seq<Checkpoint>)
  {
    forall i :: 0 <= i < |s| ==> s[i].v.Fin?
  }

  /** Checkpoints that share a time share their value. */
  predicate Consistent(s: seq<Checkpoint>)
  {
    forall i, j :: 0 <= i < |s| && 0 <= j < |s| && s[i].t == s[j].t ==> s[i].v == s[j].v
  }

  /** The last two checkpoints are both at time t: a query at t then brackets
      itself with two checkpoints at the same time, and the bridge divides 0 by 0. */
  predicate Degenerate(s: seq<Checkpoint>, t: real)
  {
    |s| >= 2 && s[|s| - 2].t == t && s[|s| - 1].t == t
  }

  /** The checkpoints a query searches: the anchor is put in first on an empty path. */
  function Anchored(s: seq<Checkpoint>): (r: seq<Checkpoint>)
    ensures s == [] ==> r == [Anchor]
    ensures s != [] ==> r == s
  {
    if s == [] then [Anchor] else s
  }

  /** The binary search from the bracket (L, U): on return the lower index is at or
      before t, the upper index is after t or the last one, and they are adjacent
      unless the search started from a single checkpoint. */
  function SearchFrom(s: seq<Checkpoint>, t: real, L: nat, U: nat): (r: (nat, nat))
    requires L <= U < |s|
    requires s[L].t <= t
    requires U == |s| - 1 || s[U].t > t
    ensures L <= r.0 <= r.1 <= U
    ensures s[r.0].t <= t
    ensures r.1 == |s| - 1 || s[r.1].t > t
    ensures L < U ==> r.1 == r.0 + 1
    decreases U - L
  {
    if L + 1 < U then
      var M := (L + U) / 2;
      if s[M].t <= t then SearchFrom(s, t, M, U) else SearchFrom(s, t, L, M)
    else
      (L, U)
  }

  function Bracket(s: seq<Checkpoint>, t: real): (r: (nat, nat))
    requires |s| >= 1 && s[0].t <= t
    ensures r.0 <= r.1 < |s|
    ensures s[r.0].t <= t
    ensures r.1 == |s| - 1 || s[r.1].t > t
    ensures |s| >= 2 ==> r.1 == r.0 + 1
    ensures |s| == 1 ==> r == (0, 0)
  {
    SearchFrom(s, t, 0, |s| - 1)
  }

  /** The binary search loop of a query. */
  method BinarySearch(s: seq<Checkpoint>, t: real) returns (L: nat, U: nat)
    requires |s| >= 1 && s[0].t <= t
    ensures (L, U) == Bracket(s, t)
    ensures L <= U < |s| && s[L].t <= t
    ensures U == |s| - 1 || s[U].t > t
    ensures |s| >= 2 ==> U == L + 1
  {
    L := 0;
    U := |s| - 1;
    while L + 1 < U
      invariant L <= U < |s|
      invariant s[L].t <= t
      invariant U == |s| - 1 || s[U].t > t
      invariant SearchFrom(s, t, L, U) == Bracket(s, t)
      decreases U - L
    {
      var M := (L + U) / 2;
      if s[M].t <= t {
        L := M;
      } else {
        U := M;
      }
    }
  }

  /** The value past the last checkpoint: the last value plus the draw scaled by
      the square root of the elapsed time. The increment has the sign of the draw,
      and no time elapsed means no increment. */
  function ExtendValue(last: Checkpoint, t: real, z: real, sqrt: real -> real): (v: Num)
    requires last.t <= t
    ensures v.Fin? <==> last.v.Fin?
    ensures IsSqrt(sqrt) && v.Fin? && z >= 0.0 ==> v.x >= last.v.x
    ensures IsSqrt(sqrt) && v.Fin? && z <= 0.0 ==> v.x <= last.v.x
    ensures IsSqrt(sqrt) && t == last.t ==> v == last.v
  {
    var stdDev := Sqrt(sqrt, Fin(t - last.t));
    assert IsSqrt(sqrt) && stdDev.Fin? ==> stdDev.x >= 0.0;
    assert IsSqrt(sqrt) && stdDev.Fin? && z >= 0.0 ==> z * stdDev.x >= 0.0 by {
      if IsSqrt(sqrt) && stdDev.Fin? && z >= 0.0 { NonnegProduct(z, stdDev.x); }
    }
    assert IsSqrt(sqrt) && stdDev.Fin? && z <= 0.0 ==> -z * stdDev.x >= 0.0 by {
      if IsSqrt(sqrt) && stdDev.Fin? && z <= 0.0 { NonnegProduct(-z, stdDev.x); }
    }
    Add(last.v, Mul(Fin(z), stdDev))
  }

  /** The Brownian-bridge mean: the values of the two checkpoints weighted by the
      distance of t from the other one. */
  function BridgeMean(lo: Checkpoint, hi: Checkpoint, t: real): (m: Num)
    requires lo.t <= t <= hi.t
    ensures m.Fin? <==> lo.t < hi.t && lo.v.Fin? && hi.v.Fin?
  {
    var w0 := Div(Fin(hi.t - t), Fin(hi.t - lo.t));
    var w1 := Div(Fin(t - lo.t), Fin(hi.t - lo.t));
    Add(Mul(w0, lo.v), Mul(w1, hi.v))
  }

  /** The Brownian-bridge variance (s1 - t)(t - s0)/(s1 - s0): a nonnegative number
      when the checkpoints are at different times, zero at either of them, and NaN
      when they are at the same time. */
  function BridgeVariance(lo: Checkpoint, hi: Checkpoint, t: real): (r: Num)
    requires lo.t <= t <= hi.t
    ensures r.Fin? <==> lo.t < hi.t
    ensures r.Fin? ==> r.x >= 0.0
    ensures lo.t < hi.t && (t == lo.t || t == hi.t) ==> r == Fin(0.0)
  {
    var num := (hi.t - t) * (t - lo.t);
    assert num >= 0.0 by { NonnegProduct(hi.t - t, t - lo.t); }
    var r := Div(Fin(num), Fin(hi.t - lo.t));
    assert r.Fin? ==> r.x >= 0.0 by {
      if r.Fin? { NonnegQuotient(num, hi.t - lo.t); }
    }
    r
  }

  /** The value drawn between two checkpoints: the bridge mean plus the draw scaled
      by the bridge standard deviation. */
  function BridgeValue(lo: Checkpoint, hi: Checkpoint, t: real, z: real, sqrt: real -> real): (v: Num)
    requires lo.t <= t <= hi.t
    ensures v.Fin? <==> lo.t < hi.t && lo.v.Fin? && hi.v.Fin?
  {
    var stdDev := Sqrt(sqrt, BridgeVariance(lo, hi, t));
    Add(BridgeMean(lo, hi, t), Mul(Fin(z), stdDev))
  }

  /** What a query at t makes of the checkpoints s: the specification of At. */
  function Query(s: seq<Checkpoint>, t: real, z: real, sqrt: real -> real): (a: Answer)
    requires |s| >= 1 && s[0].t <= t
    ensures a.Stored? <==> |s| == 1 && t <= s[0].t
    ensures a.Stored? ==> a.v == s[0].v
  {
    var b := Bracket(s, t);
    var L, U := b.0, b.1;
    if s[U].t < t then
      Simulated(ExtendValue(s[U], t, z, sqrt))
    else if L == U then
      Stored(s[L].v)
    else
      Simulated(BridgeValue(s[L], s[U], t, z, sqrt))
  }

  /** Every checkpoint of s2 is c or one of s, and all of them are in s2. */
  lemma InsertedMembers(s: seq<Checkpoint>, s2: seq<Checkpoint>, c: Checkpoint)
    requires multiset(s2) == multiset(s) + multiset{c}
    ensures |s2| == |s| + 1
    ensures forall k :: 0 <= k < |s2| ==> s2[k] == c || s2[k] in s
    ensures c in s2
    ensures forall k :: 0 <= k < |s| ==> s[k] in s2
  {
    assert |multiset(s2)| == |s2|;
    forall k | 0 <= k < |s2|
      ensures s2[k] == c || s2[k] in s
    {
      assert s2[k] in multiset(s2);
    }
    assert c in multiset(s2);
    forall k | 0 <= k < |s|
      ensures s[k] in s2
    {
      assert s[k] in multiset(s);
      assert s[k] in multiset(s2);
    }
  }

  /** Putting a checkpoint at a time t >= 0 into a path, in time order, keeps the
      path's shape; with only the anchor present the time must be after 0. */
  lemma InsertKeepsWellformed(s: seq<Checkpoint>, s2: seq<Checkpoint>, c: Checkpoint)
    requires Wellformed(s) && SortedByTime(s2)
    requires multiset(s2) == multiset(s) + multiset{c}
    requires c.t >= 0.0 && (|s| == 1 ==> c.t > 0.0)
    ensures Wellformed(s2)
  {
    InsertedMembers(s, s2, c);
    if s2[0] != c {
      var k :| 0 <= k < |s| && s[k] == s2[0];
      assert s[0].t <= s[k].t;
    }
    var k0 :| 0 <= k0 < |s2| && s2[k0] == s[0];
    assert s2[0].t <= s2[k0].t;
    var n := |s2| - 1;
    if |s| >= 2 {
      var k :| 0 <= k < |s2| && s2[k] == s[|s| - 1];
      assert s2[k].t <= s2[n].t;
    } else {
      var k :| 0 <= k < |s2| && s2[k] == c;
      assert s2[k].t <= s2[n].t;
    }
  }

  /** The invariants that a new checkpoint c carries over to the path it joins. */
  lemma InsertPreserves(s: seq<Checkpoint>, s2: seq<Checkpoint>, c: Checkpoint)
    requires multiset(s2) == multiset(s) + multiset{c}
    ensures ZeroAnchored(s) && (c.t == 0.0 ==> c.v == Fin(0.0)) ==> ZeroAnchored(s2)
    ensures AllFinite(s) && c.v.Fin? ==> AllFinite(s2)
    ensures Consistent(s) && (forall i :: 0 <= i < |s| && s[i].t == c.t ==> s[i].v == c.v) ==>
              Consistent(s2)
  {
    InsertedMembers(s, s2, c);
  }

  /** The three branches of a query, by the bracket the search finds. */
  lemma QueryByBracket(s: seq<Checkpoint>, t: real, z: real, sqrt: real -> real)
    requires |s| >= 1 && s[0].t <= t
    ensures var b := Bracket(s, t); var L, U := b.0, b.1;
      && (s[U].t < t ==> Query(s, t, z, sqrt) == Simulated(ExtendValue(s[U], t, z, sqrt)))
      && (s[U].t >= t && L == U ==> Query(s, t, z, sqrt) == Stored(s[L].v))
      && (s[U].t >= t && L != U ==> Query(s, t, z, sqrt) == Simulated(BridgeValue(s[L], s[U], t, z, sqrt)))
  {
  }

  /** With t past the last checkpoint the query extends the path from the last
      checkpoint, whatever the binary search passed over. */
  lemma QueryExtends(s: seq<Checkpoint>, t: real, z: real, sqrt: real -> real)
    requires Wellformed(s) && t > s[|s| - 1].t
    ensures Query(s, t, z, sqrt) == Simulated(ExtendValue(s[|s| - 1], t, z, sqrt))
  {
    var b := Bracket(s, t);
    assert s[b.1].t <= s[|s| - 1].t;
  }

  /** The bracket of a query at t >= 0 spans two different times unless the path
      is degenerate at t. */
  lemma BracketSpread(s: seq<Checkpoint>, t: real)
    requires Wellformed(s) && |s| >= 2 && t >= 0.0 && !Degenerate(s, t)
    requires s[Bracket(s, t).1].t >= t
    ensures s[Bracket(s, t).0].t < s[Bracket(s, t).1].t
  {
    var b := Bracket(s, t);
    assert s[b.0].t == s[b.1].t ==> b.1 == |s| - 1 && b.0 == |s| - 2;
  }

  /** The bridge mean is the time-weighted interpolation of the two values and
      lies between them. */
  lemma BridgeMeanInterpolates(lo: Checkpoint, hi: Checkpoint, t: real)
    requires lo.t < hi.t && lo.t <= t <= hi.t
    requires lo.v.Fin? && hi.v.Fin?
    ensures var m := BridgeMean(lo, hi, t);
      && m.Fin?
      && m.x == ((hi.t - t) * lo.v.x + (t - lo.t) * hi.v.x) / (hi.t - lo.t)
      && (lo.v.x <= hi.v.x ==> lo.v.x <= m.x <= hi.v.x)
      && (hi.v.x <= lo.v.x ==> hi.v.x <= m.x <= lo.v.x)
  {
    var p, q, d := hi.t - t, t - lo.t, hi.t - lo.t;
    assert BridgeMean(lo, hi, t) == Fin(p / d * lo.v.x + q / d * hi.v.x);
    WeightedSum(p, q, d, lo.v.x, hi.v.x);
  }

  /** At either end of a bridge the variance is zero, so the drawn value is the
      stored value of that end whatever the draw. */
  lemma BridgeAtEndpoints(lo: Checkpoint, hi: Checkpoint, z: real, sqrt: real -> real)
    requires lo.t < hi.t && lo.v.Fin? && hi.v.Fin? && IsSqrt(sqrt)
    ensures BridgeValue(lo, hi, lo.t, z, sqrt) == lo.v
    ensures BridgeValue(lo, hi, hi.t, z, sqrt) == hi.v
  {
    BridgeAtLow(lo, hi, lo.t, z, sqrt);
    BridgeAtHigh(lo, hi, hi.t, z, sqrt);
  }

  lemma BridgeAtLow(lo: Checkpoint, hi: Checkpoint, t: real, z: real, sqrt: real -> real)
    requires lo.t < hi.t && lo.v.Fin? && hi.v.Fin? && IsSqrt(sqrt) && t == lo.t
    ensures BridgeValue(lo, hi, t, z, sqrt) == lo.v
  {
    var d := Fin(hi.t - lo.t);
    assert Div(Fin(hi.t - t), d) == Fin(1.0);
    assert Div(Fin(t - lo.t), d) == Fin(0.0);
    assert BridgeMean(lo, hi, t) == lo.v;
    assert BridgeVariance(lo, hi, t) == Fin(0.0);
  }

  lemma BridgeAtHigh(lo: Checkpoint, hi: Checkpoint, t: real, z: real, sqrt: real -> real)
    requires lo.t < hi.t && lo.v.Fin? && hi.v.Fin? && IsSqrt(sqrt) && t == hi.t
    ensures BridgeValue(lo, hi, t, z, sqrt) == hi.v
  {
    var d := Fin(hi.t - lo.t);
    assert Div(Fin(hi.t - t), d) == Fin(0.0);
    assert Div(Fin(t - lo.t), d) == Fin(1.0);
    assert BridgeMean(lo, hi, t) == hi.v;
    assert BridgeVariance(lo, hi, t) == Fin(0.0);
  }

  /** A query at time 0 on a path whose time-0 checkpoints are 0 answers 0. */
  lemma QueryAtZero(s: seq<Checkpoint>, t: real, z: real, sqrt: real -> real)
    requires Wellformed(s) && ZeroAnchored(s) && AllFinite(s) && IsSqrt(sqrt)
    requires t == 0.0
    ensures Query(s, t, z, sqrt).v == Fin(0.0)
  {
    var b := Bracket(s, t);
    var L, U := b.0, b.1;
    assert s[0].t <= s[L].t;
    assert s[L].t == t && s[L].v == Fin(0.0);
    QueryByBracket(s, t, z, sqrt);
    if |s| >= 2 {
      assert s[U].t > t by {
        if U != |s| - 1 {
          assert s[U].t > t;
        }
      }
      BridgeAtEndpoints(s[L], s[U], z, sqrt);
      assert BridgeValue(s[L], s[U], t, z, sqrt) == Fin(0.0);
      assert Query(s, t, z, sqrt) == Simulated(BridgeValue(s[L], s[U], t, z, sqrt));
    } else {
      assert Query(s, t, z, sqrt) == Stored(s[L].v);
    }
  }

  /** Once the first checkpoint after the anchor holds NaN, a query at time 0
      bridges the anchor and that checkpoint and computes 0 * NaN: it answers NaN. */
  lemma QueryAtZeroAfterNaN(s: seq<Checkpoint>, z: real, sqrt: real -> real)
    requires Wellformed(s) && |s| >= 2 && s[1].t > 0.0 && s[1].v == NaN
    ensures Query(s, 0.0, z, sqrt) == Simulated(NaN)
  {
    var b := Bracket(s, 0.0);
    assert b.0 == 0;
    assert BridgeMean(s[0], s[1], 0.0) == NaN;
  }

  /** A finite path gives a finite answer unless it is degenerate at t. */
  lemma QueryFinite(s: seq<Checkpoint>, t: real, z: real, sqrt: real -> real)
    requires Wellformed(s) && AllFinite(s) && t >= 0.0 && !Degenerate(s, t)
    ensures Query(s, t, z, sqrt).v.Fin?
  {
    var b := Bracket(s, t);
    if s[b.1].t >= t && b.0 != b.1 {
      BracketSpread(s, t);
    }
  }

  /** Querying a time that is already a checkpoint's gives back that checkpoint's
      value, unless the path is degenerate at that time. */
  lemma QueryKnownTime(s: seq<Checkpoint>, t: real, z: real, sqrt: real -> real, i: nat)
    requires Wellformed(s) && AllFinite(s) && Consistent(s) && IsSqrt(sqrt)
    requires i < |s| && s[i].t == t && !Degenerate(s, t)
    ensures Query(s, t, z, sqrt).v == s[i].v
  {
    var b := Bracket(s, t);
    var L, U := b.0, b.1;
    assert s[0].t <= s[i].t;
    if |s| >= 2 {
      assert s[U].t >= t by {
        if U == |s| - 1 {
          assert s[i].t <= s[U].t;
        }
      }
      BracketSpread(s, t);
      if i <= L {
        assert s[i].t <= s[L].t;
      } else {
        assert s[U].t <= s[i].t;
      }
      BridgeAtEndpoints(s[L], s[U], z, sqrt);
    }
  }

  /** On a path that is degenerate at t the bridge divides 0 by 0: the answer is NaN. */
  lemma QueryDegenerate(s: seq<Checkpoint>, t: real, z: real, sqrt: real -> real)
    requires Wellformed(s) && Degenerate(s, t)
    ensures t > 0.0
    ensures Query(s, t, z, sqrt) == Simulated(NaN)
  {
    var b := Bracket(s, t);
    assert s[b.1].t <= s[|s| - 1].t;
  }

  /** After c joins s, no checkpoint is later than the later of c and the last of s. */
  lemma InsertedBound(s: seq<Checkpoint>, s2: seq<Checkpoint>, c: Checkpoint)
    requires Wellformed(s) && c.t >= s[|s| - 1].t
    requires multiset(s2) == multiset(s) + multiset{c}
    ensures forall k :: 0 <= k < |s2| ==> s2[k].t <= c.t
  {
    InsertedMembers(s, s2, c);
    forall k | 0 <= k < |s2|
      ensures s2[k].t <= c.t
    {
      if s2[k] != c {
        var j :| 0 <= j < |s| && s[j] == s2[k];
        assert s[j].t <= s[|s| - 1].t;
      }
    }
  }

  /** Of two checkpoints at time T, at least one is left once the last of s2 is
      set aside. */
  lemma SecondToLast(s: seq<Checkpoint>, s2: seq<Checkpoint>, c: Checkpoint)
    requires |s| >= 1 && |s2| >= 2
    requires multiset(s2) == multiset(s) + multiset{c}
    ensures exists k :: 0 <= k < |s2| - 1 && (s2[k] == c || s2[k] == s[|s| - 1])
  {
    var n := |s2| - 1;
    var front := s2[..n];
    assert s2 == front + [s2[n]];
    assert multiset(s2) == multiset(front) + multiset{s2[n]};
    if s2[n] == c {
      var y := s[|s| - 1];
      assert y in multiset(s);
      assert multiset(s2)[y] == multiset(front)[y] + multiset{c}[y];
      assert multiset(s2)[y] == multiset(s)[y] + multiset{c}[y];
      assert y in multiset(front);
      var k :| 0 <= k < |front| && front[k] == s[|s| - 1];
      assert s2[k] == s[|s| - 1];
    } else {
      assert multiset(front)[c] == multiset(s2)[c];
      assert c in multiset(front);
      var k :| 0 <= k < |front| && front[k] == c;
      assert s2[k] == c;
    }
  }

  /** Querying the last checkpoint's time again puts a second checkpoint at that
      time at the end of the path, which makes the path degenerate there. */
  lemma RequeryOfLastTime(s: seq<Checkpoint>, s2: seq<Checkpoint>, c: Checkpoint)
    requires Wellformed(s) && SortedByTime(s2)
    requires multiset(s2) == multiset(s) + multiset{c}
    requires c.t == s[|s| - 1].t
    ensures Degenerate(s2, c.t)
  {
    InsertedMembers(s, s2, c);
    InsertedBound(s, s2, c);
    var n := |s2| - 1;
    var kc :| 0 <= kc < |s2| && s2[kc] == c;
    assert s2[kc].t <= s2[n].t;
    SecondToLast(s, s2, c);
    var k :| 0 <= k < n && (s2[k] == c || s2[k] == s[|s| - 1]);
    assert s2[k].t <= s2[n - 1].t;
  }

  /** The outcome of a query at t on the checkpoints s, leaving the checkpoints
      s2 and answering r: r is the answer of Query; a stored answer leaves the
      checkpoints alone; a simulated one adds exactly the checkpoint (t, r), in
      time order. */
  ghost predicate Answered(s: seq<Checkpoint>, s2: seq<Checkpoint>, t: real, z: real, sqrt: real -> real, r: Num)
  {
    && |s| >= 1 && s[0].t <= t
    && var a := Query(s, t, z, sqrt);
    && r == a.v
    && (a.Stored? ==> s2 == s)
    && (a.Simulated? ==>
          && |s2| == |s| + 1
          && SortedByTime(s2)
          && multiset(s2) == multiset(s) + multiset{Checkpoint(t, r)})
  }

  /** What a query at t keeps: zero values at time 0 and finiteness on a finite
      path; and, on a finite path that is not degenerate at t, agreement of
      checkpoints at the same time, with a known time answered by its value. */
  ghost predicate Preserved(s: seq<Checkpoint>, s2: seq<Checkpoint>, t: real, r: Num)
  {
    && (AllFinite(s) && ZeroAnchored(s) ==> ZeroAnchored(s2) && (t == 0.0 ==> r == Fin(0.0)))
    && (AllFinite(s) && !Degenerate(s, t) ==> AllFinite(s2) && r.Fin?)
    && (AllFinite(s) && Consistent(s) && !Degenerate(s, t) ==>
          && Consistent(s2)
          && forall i :: 0 <= i < |s| && s[i].t == t ==> r == s[i].v)
  }

  /** A query that finds its answer stored keeps everything. */
  lemma StoredInsert(s: seq<Checkpoint>, t: real, z: real, sqrt: real -> real)
    requires Wellformed(s) && t >= 0.0
    requires Query(s, t, z, sqrt).Stored?
    ensures Answered(s, s, t, z, sqrt, s[0].v)
    ensures Preserved(s, s, t, s[0].v)
  {
  }

  /** A query that simulates its answer adds exactly that answer at time t. */
  lemma SimulatedAnswered(s: seq<Checkpoint>, s2: seq<Checkpoint>, t: real, z: real, sqrt: real -> real)
    requires Wellformed(s) && t >= 0.0
    requires Query(s, t, z, sqrt).Simulated?
    requires SortedByTime(s2)
    requires multiset(s2) == multiset(s) + multiset{Checkpoint(t, Query(s, t, z, sqrt).v)}
    ensures Answered(s, s2, t, z, sqrt, Query(s, t, z, sqrt).v)
  {
    InsertedMembers(s, s2, Checkpoint(t, Query(s, t, z, sqrt).v));
  }

  /** A query that simulates its answer keeps the invariants of Preserved. */
  lemma SimulatedPreserved(s: seq<Checkpoint>, s2: seq<Checkpoint>, t: real, z: real, sqrt: real -> real)
    requires Wellformed(s) && t >= 0.0 && IsSqrt(sqrt)
    requires Query(s, t, z, sqrt).Simulated?
    requires multiset(s2) == multiset(s) + multiset{Checkpoint(t, Query(s, t, z, sqrt).v)}
    ensures Preserved(s, s2, t, Query(s, t, z, sqrt).v)
  {
    var c := Checkpoint(t, Query(s, t, z, sqrt).v);
    if AllFinite(s) && ZeroAnchored(s) && t == 0.0 {
      QueryAtZero(s, t, z, sqrt);
    }
    if AllFinite(s) && !Degenerate(s, t) {
      QueryFinite(s, t, z, sqrt);
    }
    if AllFinite(s) && Consistent(s) && !Degenerate(s, t) {
      forall i | 0 <= i < |s| && s[i].t == t
        ensures c.v == s[i].v
      {
        QueryKnownTime(s, t, z, sqrt, i);
      }
    }
    InsertPreserves(s, s2, c);
  }

  /** The state of the insertion sort's inner loop: the checkpoint being moved down
      sits at j, and it is no later than the sorted run s[j+1..i+1] after it, which
      in turn is no earlier than the sorted run s[..j] before it. */
  ghost predicate Sifting(s: seq<Checkpoint>, j: int, i: int)
  {
    SortedRange(s, 0, j) && SortedRange(s, j + 1, i + 1)
    && (forall k :: j < k <= i && 0 <= j && k < |s| ==> s[j].t <= s[k].t)
    && (forall a, b :: 0 <= a < j < b <= i && b < |s| ==> s[a].t <= s[b].t)
  }

  lemma SiftStart(s: seq<Checkpoint>, i: int)
    requires 0 <= i < |s| && SortedRange(s, 0, i)
    ensures Sifting(s, i, i)
  {
  }

  lemma SiftStep(s: seq<Checkpoint>, j: int, i: int)
    requires 0 < j <= i < |s| && Sifting(s, j, i) && s[j].t <= s[j - 1].t
    ensures Sifting(s[j := s[j - 1]][j - 1 := s[j]], j - 1, i)
  {
  }

  lemma SiftDone(s: seq<Checkpoint>, j: int, i: int)
    requires 0 <= j <= i < |s| && Sifting(s, j, i)
    requires j == 0 || s[j - 1].t < s[j].t
    ensures SortedRange(s, 0, i + 1)
  {
  }

  class Brownian {
    /** The checkpoints, in time order once the first query has put the anchor in. */
    var states: seq<Checkpoint>
    /** The square-root function the path's standard deviations use. */
    const sqrt: real -> real

    ghost predicate Valid()
      reads this
    {
      IsSqrt(sqrt) && (states == [] || Wellformed(states))
    }

    constructor (sqrt: real -> real)
      requires IsSqrt(sqrt)
      ensures Valid() && states == [] && this.sqrt == sqrt
    {
      this.sqrt := sqrt;
      states := [];
    }

    function Len(): nat
      reads this
    {
      |states|
    }

    /** The order the sort uses; it is not strict, so two checkpoints at the same
        time compare as less in both directions. */
    predicate Less(i: nat, j: nat)
      requires i < |states| && j < |states|
      reads this
    {
      states[i].t <= states[j].t
    }

    method Swap(i: nat, j: nat)
      requires i < |states| && j < |states|
      modifies this
      ensures states == old(states)[i := old(states[j])][j := old(states[i])]
      ensures multiset(states) == multiset(old(states))
    {
      states := states[i := states[j]][j := states[i]];
    }

    /** sort.Sort over Len, Less and Swap, as the insertion sort it runs on short
        slices: on return the checkpoints are in time order and are a permutation
        of what they were. */
    method Sort()
      modifies this
      ensures |states| == |old(states)|
      ensures SortedByTime(states)
      ensures multiset(states) == multiset(old(states))
    {
      var n := Len();
      var i := 1;
      while i < n
        invariant n == |states| && 1 <= i
        invariant i <= n || n == 0
        invariant SortedRange(states, 0, i)
        invariant multiset(states) == multiset(old(states))
      {
        var j := i;
        SiftStart(states, i);
        while j > 0 && Less(j, j - 1)
          invariant 0 <= j <= i < n == |states|
          invariant multiset(states) == multiset(old(states))
          invariant Sifting(states, j, i)
        {
          SiftStep(states, j, i);
          Swap(j, j - 1);
          j := j - 1;
        }
        SiftDone(states, j, i);
        i := i + 1;
      }
    }

    /** The value of the path at time t >= 0, for the standard normal draw z. */
    method At(t: real, z: real) returns (r: Num)
      requires Valid() && t >= 0.0
      modifies this
      ensures Valid() && Wellformed(states)
      ensures Answered(Anchored(old(states)), states, t, z, sqrt, r)
      ensures Preserved(Anchored(old(states)), states, t, r)
      ensures old(states) == [] ==>
        states == if t == 0.0 then [Anchor] else [Anchor, Checkpoint(t, r)]
    {
      ghost var wasEmpty := states == [];
      // Make sure (0, 0) is among the checkpoints.
      if |states| == 0 {
        states := states + [Anchor];
      }
      ghost var s := states;
      assert s == Anchored(old(states));

      var L, U := BinarySearch(states, t);
      QueryByBracket(s, t, z, sqrt);
      var v: Num;
      if states[U].t < t {
        // The path has not reached t yet: extend it from the last checkpoint.
        v := ExtendValue(states[U], t, z, sqrt);
      } else if L == U {
        // The time was simulated before: return the stored value.
        StoredInsert(s, t, z, sqrt);
        return states[L].v;
      } else {
        // The Brownian bridge between the two bracketing checkpoints.
        v := BridgeValue(states[L], states[U], t, z, sqrt);
      }
      assert Query(s, t, z, sqrt) == Simulated(v);

      states := states + [Checkpoint(t, v)];
      Sort();
      r := v;
      assert multiset(s + [Checkpoint(t, v)]) == multiset(s) + multiset{Checkpoint(t, v)};
      var c := Checkpoint(t, v);
      InsertKeepsWellformed(s, states, c);
      SimulatedAnswered(s, states, t, z, sqrt);
      SimulatedPreserved(s, states, t, z, sqrt);
      if wasEmpty {
        TwoCheckpoints(states, c);
      }
    }
  }

  /** The anchor and one later checkpoint, in time order. */
  lemma TwoCheckpoints(s: seq<Checkpoint>, c: Checkpoint)
    requires multiset(s) == multiset([Anchor]) + multiset{c}
    requires c.t != 0.0 && |s| >= 1 && s[0].t == 0.0
    ensures s == [Anchor, c]
  {
    assert |s| == 2;
    assert s == [s[0], s[1]];
    assert multiset(s) == multiset{s[0], s[1]};
    assert s[0] in multiset(s) && s[1] in multiset(s);
  }

  /** The first query of a time t > 0 on a fresh path extends it to t. */
  lemma FirstQuery(s1: seq<Checkpoint>, t: real, z: real, sqrt: real -> real, r: Num)
    requires t > 0.0 && Wellformed(s1)
    requires Answered([Anchor], s1, t, z, sqrt, r)
    ensures r.Fin? && s1 == [Anchor, Checkpoint(t, r)]
  {
    var s0 := [Anchor];
    assert Bracket(s0, t) == (0, 0);
    assert Query(s0, t, z, sqrt) == Simulated(ExtendValue(Anchor, t, z, sqrt));
    TwoCheckpoints(s1, Checkpoint(t, r));
  }

  /** Querying t again bridges 0 and t, gets the stored value back and leaves two
      checkpoints at t. */
  lemma SecondQuery(s2: seq<Checkpoint>, t: real, v: Num, z: real, sqrt: real -> real, r: Num)
    requires t > 0.0 && v.Fin? && Wellformed(s2)
    requires Answered([Anchor, Checkpoint(t, v)], s2, t, z, sqrt, r)
    requires Preserved([Anchor, Checkpoint(t, v)], s2, t, r)
    ensures r == v && Degenerate(s2, t)
  {
    var s1 := [Anchor, Checkpoint(t, v)];
    assert !Degenerate(s1, t);
    assert AllFinite(s1) && Consistent(s1);
    assert s1[1].t == t;
    RequeryOfLastTime(s1, s2, Checkpoint(t, r));
  }

  /** Two queries of the same time t > 0 on a fresh path: the first extends the
      path to t, the second falls into the bridge between 0 and t and gets the same
      value back, storing a second checkpoint at t. */
  method QueryTwice(sqrt: real -> real, t: real, z1: real, z2: real)
    returns (b: Brownian, r1: Num, r2: Num)
    requires IsSqrt(sqrt) && t > 0.0
    ensures fresh(b) && b.Valid() && b.sqrt == sqrt && Wellformed(b.states)
    ensures r1.Fin? && r2 == r1 && Degenerate(b.states, t)
  {
    b := new Brownian(sqrt);
    r1 := b.At(t, z1);
    FirstQuery(b.states, t, z1, sqrt, r1);
    r2 := b.At(t, z2);
    SecondQuery(b.states, t, r1, z2, sqrt, r2);
  }

  /** The third query of the same time t > 0 on a fresh path finds two checkpoints
      at t, so the bridge divides 0 by 0 and answers NaN. */
  method RepeatedLastQuery(sqrt: real -> real, t: real, z1: real, z2: real, z3: real)
    returns (r1: Num, r2: Num, r3: Num)
    requires IsSqrt(sqrt) && t > 0.0
    ensures r1.Fin? && r2 == r1 && r3 == NaN
  {
    var b;
    b, r1, r2 := QueryTwice(sqrt, t, z1, z2);
    QueryDegenerate(b.states, t, z3, sqrt);
    r3 := b.At(t, z3);
  }
}
