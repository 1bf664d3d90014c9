/** The primal heuristics a solver plugs into the branch-and-bound: a sampler
    proposes values for the free variables of a node, the merge loop writes
    them around the node's fixed variables, and `evaluate_solution` scores the
    merged vector with the root matrix.  The custom simulated annealer is
    modelled with its random draws supplied by the caller, on every
    schedule whose loop ends. */
module Heuristics {
  import opened Wrappers
  import opened Sums
  import opened Matrices

  // ---------------------------------------------------------------------
  // The merge loop (free positions take the sampler's values in order)
  // ---------------------------------------------------------------------

  /** Number of free positions (xfixed[i] == 0) among the first n. */
  function FreeCount(xfixed: seq<int>, n: nat): (c: nat)
    requires n <= |xfixed|
    ensures c <= n
  {
    if n == 0 then 0 else FreeCount(xfixed, n - 1) + (if xfixed[n - 1] == 0 then 1 else 0)
  }

  lemma {:induction false} FreeCountMonotone(xfixed: seq<int>, m: nat, n: nat)
    requires m <= n <= |xfixed|
    ensures FreeCount(xfixed, m) <= FreeCount(xfixed, n)
    decreases n
  {
    if m < n {
      FreeCountMonotone(xfixed, m, n - 1);
    }
  }

  /** The value the merge loop writes at position i. */
  function PlacedAt(xfixed: seq<int>, solX: seq<int>, result: seq<int>, i: nat): int
    requires i < |xfixed| && i < |solX| && FreeCount(xfixed, i + 1) <= |result|
  {
    if xfixed[i] == 0 then result[FreeCount(xfixed, i)] else solX[i]
  }

  /** The first n entries written by the merge loop. */
  function Merged(xfixed: seq<int>, solX: seq<int>, result: seq<int>, n: nat): (y: seq<int>)
    requires n <= |xfixed| && n <= |solX| && FreeCount(xfixed, n) <= |result|
    ensures |y| == n
  {
    seq(n, i requires 0 <= i < n =>
      FreeCountMonotone(xfixed, i + 1, n);
      PlacedAt(xfixed, solX, result, i))
  }

  /** The entries of the first n positions of y that are free, in order. */
  function FreeEntries(xfixed: seq<int>, y: seq<int>, n: nat): (e: seq<int>)
    requires n <= |xfixed| && n <= |y|
    ensures |e| == FreeCount(xfixed, n)
  {
    if n == 0 then [] else FreeEntries(xfixed, y, n - 1) + (if xfixed[n - 1] == 0 then [y[n - 1]] else [])
  }

  /** Reading the free positions of the merged vector back gives the
      sampler's values, in order and without gaps. */
  lemma {:induction false} MergedFreeEntries(xfixed: seq<int>, solX: seq<int>, result: seq<int>, n: nat, m: nat)
    requires m <= n <= |xfixed| && n <= |solX| && FreeCount(xfixed, n) <= |result|
    ensures FreeCount(xfixed, m) <= |result|
    ensures FreeEntries(xfixed, Merged(xfixed, solX, result, n), m) == result[..FreeCount(xfixed, m)]
    decreases m
  {
    FreeCountMonotone(xfixed, m, n);
    if m > 0 {
      var k := m - 1;
      MergedFreeEntries(xfixed, solX, result, n, k);
      var c := FreeCount(xfixed, k);
      if xfixed[k] == 0 {
        assert result[..c + 1] == result[..c] + [result[c]];
      }
    }
  }

  /** A vector equals the merged one exactly when it agrees with solX at
      every fixed position and its free positions hold the sampler's
      values in order. */
  lemma {:induction false} MergedCharacterised(xfixed: seq<int>, solX: seq<int>, result: seq<int>, y: seq<int>)
    requires |y| <= |xfixed| && |y| <= |solX| && FreeCount(xfixed, |y|) <= |result|
    ensures y == Merged(xfixed, solX, result, |y|)
        <==> (forall i :: 0 <= i < |y| && xfixed[i] != 0 ==> y[i] == solX[i])
             && FreeEntries(xfixed, y, |y|) == result[..FreeCount(xfixed, |y|)]
  {
    var n := |y|;
    if y == Merged(xfixed, solX, result, n) {
      MergedFreeEntries(xfixed, solX, result, n, n);
    }
    if (forall i :: 0 <= i < n && xfixed[i] != 0 ==> y[i] == solX[i])
       && FreeEntries(xfixed, y, n) == result[..FreeCount(xfixed, n)] {
      FreeEntriesDetermine(xfixed, solX, result, y, n);
    }
  }

  /** If the first m free entries of y are the first sampler values, each
      free position below m holds its sampler value. */
  lemma {:induction false} FreeEntriesDetermine(xfixed: seq<int>, solX: seq<int>, result: seq<int>, y: seq<int>, m: nat)
    requires m <= |y| <= |xfixed| && |y| <= |solX| && FreeCount(xfixed, |y|) <= |result|
    requires FreeCount(xfixed, m) <= |result|
    requires forall i :: 0 <= i < |y| && xfixed[i] != 0 ==> y[i] == solX[i]
    requires FreeEntries(xfixed, y, m) == result[..FreeCount(xfixed, m)]
    ensures forall i :: 0 <= i < m ==> y[i] == Merged(xfixed, solX, result, |y|)[i]
    decreases m
  {
    if m > 0 {
      var k := m - 1;
      var c := FreeCount(xfixed, k);
      FreeCountMonotone(xfixed, k, m);
      var prefix := FreeEntries(xfixed, y, k);
      if xfixed[k] == 0 {
        assert prefix + [y[k]] == result[..c + 1];
        assert prefix == result[..c + 1][..c];
        assert y[k] == result[..c + 1][c];
      } else {
        assert prefix == result[..c];
      }
      FreeEntriesDetermine(xfixed, solX, result, y, k);
    }
  }

  /** When the free positions are no more than the sampler's values, values
      appended after them are never read (the trailing 0 the QUBO heuristics
      append). */
  lemma {:induction false} MergedIgnoresTail(xfixed: seq<int>, solX: seq<int>, result: seq<int>, tail: seq<int>, n: nat)
    requires n <= |xfixed| && n <= |solX| && FreeCount(xfixed, n) <= |result|
    ensures Merged(xfixed, solX, result + tail, n) == Merged(xfixed, solX, result, n)
  {
    forall i | 0 <= i < n
      ensures Merged(xfixed, solX, result + tail, n)[i] == Merged(xfixed, solX, result, n)[i]
    {
      FreeCountMonotone(xfixed, i + 1, n);
    }
  }

  /** Fixed positions take sol_X[i]; the j-th free position takes result[j];
      j ends as the number of free positions. */
  method Merge(x: array<int>, xfixed: seq<int>, solX: seq<int>, result: seq<int>) returns (j: nat)
    requires x.Length <= |xfixed| && x.Length <= |solX| && FreeCount(xfixed, x.Length) <= |result|
    modifies x
    ensures x[..] == Merged(xfixed, solX, result, x.Length)
    ensures j == FreeCount(xfixed, x.Length)
  {
    j := 0;
    for i := 0 to x.Length
      invariant j == FreeCount(xfixed, i)
      invariant forall k :: 0 <= k < i ==> x[k] == Merged(xfixed, solX, result, x.Length)[k]
    {
      FreeCountMonotone(xfixed, i + 1, x.Length);
      if xfixed[i] == 0 {
        x[i] := result[j];
        j := j + 1;
      } else {
        x[i] := solX[i];
      }
    }
  }

  // ---------------------------------------------------------------------
  // evaluate_solution
  // ---------------------------------------------------------------------

  /** Sum over i and j of L0[i][j] sol[i] sol[j], row by row. */
  method EvaluateSolution(l0: Matrix, sol: seq<int>) returns (v: real)
    requires |sol| <= |l0| && forall i :: 0 <= i < |sol| ==> |sol| <= |l0[i]|
    ensures v == QuadForm(l0, AsReals(sol))
  {
    var n := |sol|;
    ghost var terms := Terms(l0, AsReals(sol));
    v := 0.0;
    for i := 0 to n
      invariant v == Sum(i, Rows(n, terms))
    {
      ghost var before := v;
      for j := 0 to n
        invariant v == before + Sum(j, Row(terms, i))
      {
        v := v + l0[i][j] * sol[i] as real * sol[j] as real;
      }
    }
  }

  // ---------------------------------------------------------------------
  // custom_sa
  // ---------------------------------------------------------------------

  /** The keyword arguments of custom_sa; `None` for initial_temp means n. */
  datatype Schedule = Schedule(maxIter: Option<nat>, initialTemp: Option<real>, finalTemp: real, alpha: real)

  /** custom_sa's defaults, the ones the QUBO heuristic calls it with. */
  const Defaults := Schedule(None, None, 0.1, 0.999)

  /** The random draws of one iteration: the index np.random.randint(n)
      returns and whether the Metropolis test rand() < exp(-delta / T)
      passes. */
  datatype Draw = Draw(index: nat, accepted: bool)

  /** Every drawn index is below n, as np.random.randint(n) guarantees. */
  predicate Drawn(d: seq<Draw>, n: nat)
  {
    forall k :: 0 <= k < |d| ==> d[k].index < n
  }

  function Start(s: Schedule, n: nat): real
  {
    if s.initialTemp.None? then n as real else s.initialTemp.value
  }

  /** T after k updates T *= alpha. */
  function Temperature(s: Schedule, n: nat, k: nat): real
  {
    if k == 0 then Start(s, n) else Scale(Temperature(s, n, k - 1), s.alpha)
  }

  /** The loop ends: max_iter bounds it, or some temperature of the
      schedule is below final_temp.  Geometric cooling (0 < alpha < 1) to a
      positive final_temp is the usual way to get there, and is listed on
      its own so that a bound on the iteration count is at hand. */
  ghost predicate Stops(s: Schedule, n: nat)
  {
    || s.maxIter.Some?
    || (0.0 < s.alpha < 1.0 && s.finalTemp > 0.0)
    || exists k: nat :: Temperature(s, n, k) < s.finalTemp
  }

  /** Where Stops fails, max_iter is None and T never drops below
      final_temp, so the source's loop runs forever. */
  lemma {:induction false} NeverStops(s: Schedule, n: nat, k: nat)
    requires !Stops(s, n)
    ensures s.maxIter.None? && Temperature(s, n, k) >= s.finalTemp
  {
  }

  /** alpha = 0 cools to 0 in one iteration, and a starting temperature
      below final_temp runs no iteration at all. */
  lemma {:induction false} QuickStops(n: nat)
    ensures Stops(Schedule(None, Some(5.0), 0.1, 0.0), n) && Steps(Schedule(None, Some(5.0), 0.1, 0.0), n) == 1
    ensures Stops(Schedule(None, Some(0.05), 0.1, 2.0), n) && Steps(Schedule(None, Some(0.05), 0.1, 2.0), n) == 0
  {
    var s, c := Schedule(None, Some(5.0), 0.1, 0.0), Schedule(None, Some(0.05), 0.1, 2.0);
    assert Temperature(s, n, 1) == 0.0;
    assert Temperature(c, n, 0) == 0.05;
    StepsCharacterised(s, n);
    StepsCharacterised(c, n);
  }

  /** The iteration count after which max_iter breaks the loop: the check
      follows the increment, so max_iter = 0 still allows one iteration. */
  function IterationCap(m: nat): nat
  {
    if m == 0 then 1 else m
  }

  /** An iteration count from which on the geometric schedule is below
      final_temp. */
  function Cooling(s: Schedule, n: nat): nat
    requires 0.0 < s.alpha < 1.0 && s.finalTemp > 0.0
  {
    if Start(s, n) <= 0.0 then 0 else Ratio(s, n).Floor + 1
  }

  /** alpha T_0 / (final_temp (1 - alpha)). */
  function Ratio(s: Schedule, n: nat): real
    requires 0.0 < s.alpha < 1.0 && s.finalTemp > 0.0
  {
    (Start(s, n) * s.alpha) / (s.finalTemp * (1.0 - s.alpha))
  }

  /** Q[i, :] @ x over the first n columns. */
  function RowTimes(q: Matrix, i: nat, x: seq<int>, n: nat): real
    requires i < |q| && n <= |x| && n <= |q[i]|
  {
    if n == 0 then 0.0 else RowTimes(q, i, x, n - 1) + q[i][n - 1] * x[n - 1] as real
  }

  lemma {:induction false} RowTimesIsRowDot(q: Matrix, i: nat, x: seq<int>, n: nat)
    requires i < |q| && n <= |x| && n <= |q[i]|
    ensures RowTimes(q, i, x, n) == Sum(n, RowProducts(q, i, AsReals(x)))
  {
    if n > 0 {
      var m := n - 1;
      RowTimesIsRowDot(q, i, x, m);
      assert RowProducts(q, i, AsReals(x))(m) == q[i][m] * x[m] as real;
    }
  }

  /** x @ Q @ x, the sum over i of x[i] (Q[i, :] @ x) for i < n. */
  function EnergyRows(q: Matrix, x: seq<int>, n: nat): real
    requires Square(q) && |x| == |q| && n <= |x|
  {
    if n == 0 then 0.0 else EnergyRows(q, x, n - 1) + x[n - 1] as real * RowTimes(q, n - 1, x, |x|)
  }

  function Energy(q: Matrix, x: seq<int>): real
    requires Square(q) && |x| == |q|
  {
    EnergyRows(q, x, |x|)
  }

  lemma {:induction false} EnergyRowsIsSum(q: Matrix, x: seq<int>, n: nat)
    requires Square(q) && |x| == |q| && n <= |x|
    ensures EnergyRows(q, x, n) == Sum(n, Weighted(q, AsReals(x)))
  {
    if n > 0 {
      var m := n - 1;
      EnergyRowsIsSum(q, x, m);
      RowTimesIsRowDot(q, m, x, |x|);
      assert Weighted(q, AsReals(x))(m) == x[m] as real * RowDot(q, m, AsReals(x));
    }
  }

  /** The energy custom_sa computes is x^T Q x. */
  lemma {:induction false} EnergyIsQuadForm(q: Matrix, x: seq<int>)
    requires Square(q) && |x| == |q|
    ensures Energy(q, x) == QuadForm(q, AsReals(x))
  {
    EnergyRowsIsSum(q, x, |x|);
    QuadFormByRows(q, AsReals(x));
  }

  /** The energy change custom_sa computes for flipping bit i. */
  function Delta(q: Matrix, x: seq<int>, i: nat): real
    requires Square(q) && |x| == |q| && i < |x|
  {
    (1 - 2 * x[i]) as real * (q[i][i] + 2.0 * (RowTimes(q, i, x, |x|) - q[i][i] * x[i] as real))
  }

  /** For a symmetric matrix the computed change is the true change of
      x^T Q x. */
  lemma {:induction false} DeltaIsEnergyChange(q: Matrix, x: seq<int>, i: nat)
    requires Square(q) && |x| == |q| && Symmetric(q) && IsBinary(x) && i < |x|
    ensures QuadForm(q, AsReals(x[i := 1 - x[i]])) == QuadForm(q, AsReals(x)) + Delta(q, x, i)
  {
    QuadFormFlip(q, x, i);
    RowTimesIsRowDot(q, i, x, |x|);
  }

  /** Whether iteration k flips its drawn bit: the change is negative or the
      Metropolis test passes. */
  predicate Flipped(q: Matrix, x0: seq<int>, d: seq<Draw>, k: nat)
    requires Square(q) && |x0| == |q| > 0 && k < |d| && Drawn(d, |q|)
    decreases k, 1
  {
    Delta(q, State(q, x0, d, k), d[k].index) < 0.0 || d[k].accepted
  }

  /** The vector after k iterations of the annealing loop. */
  function State(q: Matrix, x0: seq<int>, d: seq<Draw>, k: nat): (x: seq<int>)
    requires Square(q) && |x0| == |q| > 0 && k <= |d| && Drawn(d, |q|)
    ensures |x| == |q|
    decreases k, 0
  {
    if k == 0 then x0
    else
      var m := k - 1;
      var x := State(q, x0, d, m);
      var i := d[m].index;
      if Flipped(q, x0, d, m) then x[i := 1 - x[i]] else x
  }

  /** The running energy after k iterations: x @ Q @ x of the start plus
      the change of every flip. */
  function Running(q: Matrix, x0: seq<int>, d: seq<Draw>, k: nat): real
    requires Square(q) && |x0| == |q| > 0 && k <= |d| && Drawn(d, |q|)
  {
    if k == 0 then Energy(q, x0)
    else
      var m := k - 1;
      Running(q, x0, d, m) + if Flipped(q, x0, d, m) then Delta(q, State(q, x0, d, m), d[m].index) else 0.0
  }

  /** Every visited vector is a 0/1 vector. */
  lemma {:induction false} StateBinary(q: Matrix, x0: seq<int>, d: seq<Draw>, k: nat)
    requires Square(q) && |x0| == |q| > 0 && IsBinary(x0) && k <= |d| && Drawn(d, |q|)
    ensures IsBinary(State(q, x0, d, k))
  {
    if k > 0 {
      StateBinary(q, x0, d, k - 1);
    }
  }

  /** For a symmetric matrix the running energy is x^T Q x of the current
      vector after every iteration. */
  lemma {:induction false} RunningIsEnergy(q: Matrix, x0: seq<int>, d: seq<Draw>, k: nat)
    requires Square(q) && |x0| == |q| > 0 && IsBinary(x0) && Symmetric(q) && k <= |d| && Drawn(d, |q|)
    ensures Running(q, x0, d, k) == QuadForm(q, AsReals(State(q, x0, d, k)))
  {
    if k > 0 {
      var m := k - 1;
      RunningIsEnergy(q, x0, d, m);
      StateBinary(q, x0, d, m);
      DeltaIsEnergyChange(q, State(q, x0, d, m), d[m].index);
    } else {
      EnergyIsQuadForm(q, x0);
    }
  }

  lemma {:induction false} TemperatureNonPositive(s: Schedule, n: nat, k: nat)
    requires 0.0 < s.alpha && Start(s, n) <= 0.0
    ensures Temperature(s, n, k) <= 0.0
  {
    if k > 0 {
      TemperatureNonPositive(s, n, k - 1);
    }
  }

  /** Bernoulli's inequality for the schedule: T_k (alpha + k (1 - alpha))
      <= alpha T_0, and 0 <= T_k <= T_0. */
  lemma {:induction false} TemperatureBound(s: Schedule, n: nat, k: nat)
    requires 0.0 < s.alpha < 1.0 && Start(s, n) >= 0.0
    ensures 0.0 <= Temperature(s, n, k) <= Start(s, n)
    ensures Scale(Temperature(s, n, k), s.alpha + k as real * (1.0 - s.alpha)) <= Scale(s.alpha, Start(s, n))
  {
    if k > 0 {
      var m := k - 1;
      TemperatureBound(s, n, m);
      BernoulliStep(s.alpha, Temperature(s, n, m), Start(s, n), m as real);
    }
  }

  lemma {:induction false} BernoulliStep(a: real, t: real, t0: real, c: real)
    requires 0.0 < a < 1.0 && 0.0 <= t <= t0 && c >= 0.0
    requires Scale(t, a + c * (1.0 - a)) <= Scale(a, t0)
    ensures 0.0 <= t * a <= t0
    ensures Scale(t * a, a + (c + 1.0) * (1.0 - a)) <= Scale(a, t0)
  {
    var b := 1.0 - a;
    var u := t * (a + c * b);
    assert (t0 - t) * b >= 0.0 by {
      Nonnegative(t0 - t, b);
    }
    assert t * (a + (c + 1.0) * b) == u + t * b;
    assert t * (a + (c + 1.0) * b) <= t0;
    assert t * a <= t0 * a by {
      Nonnegative(t0 - t, a);
    }
    assert t * a * (a + (c + 1.0) * b) == a * (t * (a + (c + 1.0) * b));
    Monotone(a, t * (a + (c + 1.0) * b), t0);
  }

  lemma {:induction false} Nonnegative(u: real, v: real)
    requires u >= 0.0 && v >= 0.0
    ensures u * v >= 0.0
  {
  }

  lemma {:induction false} Monotone(a: real, u: real, v: real)
    requires a > 0.0 && u <= v
    ensures a * u <= a * v
  {
    Nonnegative(a, v - u);
  }

  lemma {:induction false} BelowFinal(t: real, a: real, c: real, t0: real, f: real)
    requires t >= 0.0 && a > 0.0 && c > 0.0
    requires Scale(t, a + c) <= Scale(a, t0) && Scale(a, t0) < Scale(f, c)
    ensures t < f
  {
    assert t * (a + c) == t * c + t * a;
    Nonnegative(t, a);
    assert (t - f) * c < 0.0;
    if t >= f {
      Nonnegative(t - f, c);
    }
  }

  /** The Floor-based count lies above the ratio it is computed from. */
  lemma {:induction false} AboveRatio(s: Schedule, n: nat, k: nat)
    requires Start(s, n) > 0.0 && 0.0 < s.alpha < 1.0 && s.finalTemp > 0.0 && k >= Cooling(s, n)
    ensures Scale(s.alpha, Start(s, n)) < Scale(s.finalTemp, k as real * (1.0 - s.alpha))
  {
    var t0, a, f := Start(s, n), s.alpha, s.finalTemp;
    var g := f * (1.0 - a);
    Positive(f, 1.0 - a);
    var r := Ratio(s, n);
    assert k >= r.Floor + 1;
    assert k as real > r;
    AboveQuotient(a, t0, g, r, k as real, f, 1.0 - a);
  }

  /** kr > a t0 / g with g = f b > 0 gives a t0 < f (kr b). */
  lemma {:induction false} AboveQuotient(a: real, t0: real, g: real, r: real, kr: real, f: real, b: real)
    requires g > 0.0 && r == (t0 * a) / g && kr > r && g == f * b
    ensures Scale(a, t0) < Scale(f, kr * b)
  {
    assert r * g == t0 * a;
    Positive(kr - r, g);
    assert f * (kr * b) == kr * g;
  }

  lemma {:induction false} Positive(u: real, v: real)
    requires u > 0.0 && v > 0.0
    ensures u * v > 0.0
  {
  }

  /** With 0 < alpha < 1 and final_temp > 0 the temperature is below
      final_temp from iteration Cooling(s, n) on, so the loop ends. */
  lemma {:induction false} CoolingEnds(s: Schedule, n: nat, k: nat)
    requires 0.0 < s.alpha < 1.0 && s.finalTemp > 0.0 && k >= Cooling(s, n)
    ensures Temperature(s, n, k) < s.finalTemp
  {
    if Start(s, n) <= 0.0 {
      TemperatureNonPositive(s, n, k);
    } else {
      TemperatureBound(s, n, k);
      AboveRatio(s, n, k);
      Positive(k as real, 1.0 - s.alpha);
      BelowFinal(Temperature(s, n, k), s.alpha, k as real * (1.0 - s.alpha), Start(s, n), s.finalTemp);
    }
  }

  /** An iteration count the loop cannot pass. */
  ghost function Limit(s: Schedule, n: nat): (r: nat)
    requires Stops(s, n)
    ensures s.maxIter.None? ==> Temperature(s, n, r) < s.finalTemp
  {
    if s.maxIter.Some? then IterationCap(s.maxIter.value)
    else if 0.0 < s.alpha < 1.0 && s.finalTemp > 0.0 then
      assert Temperature(s, n, Cooling(s, n)) < s.finalTemp by {
        CoolingEnds(s, n, Cooling(s, n));
      }
      Cooling(s, n)
    else
      var k: nat :| Temperature(s, n, k) < s.finalTemp;
      k
  }

  /** The number of iterations the loop runs when it has run k: it stops at
      the first iteration whose temperature is below final_temp, or when
      max_iter is reached. */
  ghost function StepsFrom(s: Schedule, n: nat, k: nat): (r: nat)
    requires Stops(s, n) && k <= Limit(s, n)
    ensures k <= r <= Limit(s, n)
    decreases Limit(s, n) - k
  {
    if k == Limit(s, n) || Temperature(s, n, k) < s.finalTemp then k else StepsFrom(s, n, k + 1)
  }

  /** One more iteration runs when the loop has not stopped. */
  lemma {:induction false} StepsFromNext(s: Schedule, n: nat, k: nat, next: nat)
    requires Stops(s, n) && k < Limit(s, n) && next == k + 1 && Temperature(s, n, k) >= s.finalTemp
    ensures StepsFrom(s, n, k) == StepsFrom(s, n, next)
  {
  }

  /** The number of iterations custom_sa runs on an n-variable problem. */
  ghost function Steps(s: Schedule, n: nat): nat
    requires Stops(s, n)
  {
    StepsFrom(s, n, 0)
  }

  lemma {:induction false} StepsFromHot(s: Schedule, n: nat, k: nat)
    requires Stops(s, n) && k <= Limit(s, n)
    requires forall j :: 0 <= j < k ==> Temperature(s, n, j) >= s.finalTemp
    ensures forall j :: 0 <= j < StepsFrom(s, n, k) ==> Temperature(s, n, j) >= s.finalTemp
    ensures StepsFrom(s, n, k) == Limit(s, n) || Temperature(s, n, StepsFrom(s, n, k)) < s.finalTemp
    decreases Limit(s, n) - k
  {
    if !(k == Limit(s, n) || Temperature(s, n, k) < s.finalTemp) {
      StepsFromHot(s, n, k + 1);
    }
  }

  /** The loop runs while the temperature is at least final_temp, and it
      stops because it no longer is, or because max_iter is reached; without
      max_iter it stops within Cooling(s, n) iterations. */
  lemma {:induction false} StepsCharacterised(s: Schedule, n: nat)
    requires Stops(s, n)
    ensures forall k :: 0 <= k < Steps(s, n) ==> Temperature(s, n, k) >= s.finalTemp
    ensures Temperature(s, n, Steps(s, n)) < s.finalTemp || (s.maxIter.Some? && Steps(s, n) == IterationCap(s.maxIter.value))
    ensures s.maxIter.Some? ==> Steps(s, n) <= IterationCap(s.maxIter.value)
    ensures s.maxIter.None? && 0.0 < s.alpha < 1.0 && s.finalTemp > 0.0 ==> Steps(s, n) <= Cooling(s, n)
  {
    StepsFromHot(s, n, 0);
  }

  /** The iteration whose state custom_sa returns after k iterations: the
      first one whose running energy is below every earlier best. */
  function BestIndex(q: Matrix, x0: seq<int>, d: seq<Draw>, k: nat): (b: nat)
    requires Square(q) && |x0| == |q| > 0 && k <= |d| && Drawn(d, |q|)
    ensures b <= k
  {
    if k == 0 then 0
    else
      var m := k - 1;
      var b := BestIndex(q, x0, d, m);
      if Running(q, x0, d, k) < Running(q, x0, d, b) then k else b
  }

  /** The returned state has the least running energy of all states
      visited, and every earlier state has a larger one. */
  lemma {:induction false} BestIndexMinimal(q: Matrix, x0: seq<int>, d: seq<Draw>, k: nat)
    requires Square(q) && |x0| == |q| > 0 && k <= |d| && Drawn(d, |q|)
    ensures forall j :: 0 <= j <= k ==> Running(q, x0, d, BestIndex(q, x0, d, k)) <= Running(q, x0, d, j)
    ensures forall j :: 0 <= j < BestIndex(q, x0, d, k) ==> Running(q, x0, d, BestIndex(q, x0, d, k)) < Running(q, x0, d, j)
  {
    if k > 0 {
      BestIndexMinimal(q, x0, d, k - 1);
    }
  }

  /** best_energy never increases from one iteration to the next and never
      exceeds the current energy. */
  lemma {:induction false} BestNonIncreasing(q: Matrix, x0: seq<int>, d: seq<Draw>, k: nat, next: nat)
    requires Square(q) && |x0| == |q| > 0 && k < |d| && Drawn(d, |q|) && next == k + 1
    ensures Running(q, x0, d, BestIndex(q, x0, d, next)) <= Running(q, x0, d, BestIndex(q, x0, d, k))
    ensures Running(q, x0, d, BestIndex(q, x0, d, k)) <= Running(q, x0, d, k)
  {
    BestIndexMinimal(q, x0, d, next);
    BestIndexMinimal(q, x0, d, k);
  }

  /** For a symmetric matrix the returned vector minimises x^T Q x over the
      visited vectors. */
  lemma {:induction false} BestMinimisesEnergy(q: Matrix, x0: seq<int>, d: seq<Draw>, k: nat, j: nat)
    requires Square(q) && |x0| == |q| > 0 && k <= |d| && Drawn(d, |q|) && IsBinary(x0) && Symmetric(q) && j <= k
    ensures QuadForm(q, AsReals(State(q, x0, d, BestIndex(q, x0, d, k)))) <= QuadForm(q, AsReals(State(q, x0, d, j)))
  {
    var b := BestIndex(q, x0, d, k);
    BestIndexMinimal(q, x0, d, k);
    RunningIsEnergy(q, x0, d, b);
    RunningIsEnergy(q, x0, d, j);
  }

  /** One iteration of the annealing loop, as the loop body performs it. */
  lemma {:induction false} Advance(q: Matrix, x0: seq<int>, d: seq<Draw>, k: nat, next: nat)
    requires Square(q) && |x0| == |q| > 0 && k < |d| && Drawn(d, |q|) && next == k + 1
    ensures Flipped(q, x0, d, k) == (Delta(q, State(q, x0, d, k), d[k].index) < 0.0 || d[k].accepted)
    ensures State(q, x0, d, next)
         == if Flipped(q, x0, d, k) then State(q, x0, d, k)[d[k].index := 1 - State(q, x0, d, k)[d[k].index]]
            else State(q, x0, d, k)
    ensures Running(q, x0, d, next)
         == Running(q, x0, d, k) + if Flipped(q, x0, d, k) then Delta(q, State(q, x0, d, k), d[k].index) else 0.0
    ensures BestIndex(q, x0, d, next)
         == if Running(q, x0, d, next) < Running(q, x0, d, BestIndex(q, x0, d, k)) then next else BestIndex(q, x0, d, k)
  {
  }

  /** The vector custom_sa returns: the best state of the Steps(s, n)
      iterations, or the empty vector when Q is empty. */
  ghost function Annealed(q: Matrix, x0: seq<int>, d: seq<Draw>, s: Schedule): (x: seq<int>)
    requires Square(q) && |x0| == |q| && Stops(s, |q|)
    requires |q| > 0 ==> Steps(s, |q|) <= |d| && Drawn(d, |q|)
    ensures |x| == |q|
  {
    if |q| == 0 then [] else State(q, x0, d, BestIndex(q, x0, d, Steps(s, |q|)))
  }

  /** For a symmetric Q the returned vector is a 0/1 vector, its x^T Q x is
      at most that of every vector the loop visits, and the loop ran while
      the temperature was at least final_temp. */
  lemma {:induction false} AnnealedBest(q: Matrix, x0: seq<int>, d: seq<Draw>, s: Schedule, j: nat)
    requires Square(q) && |x0| == |q| > 0 && IsBinary(x0) && Symmetric(q) && Stops(s, |q|)
    requires Steps(s, |q|) <= |d| && Drawn(d, |q|) && j <= Steps(s, |q|)
    ensures IsBinary(Annealed(q, x0, d, s))
    ensures QuadForm(q, AsReals(Annealed(q, x0, d, s))) <= QuadForm(q, AsReals(State(q, x0, d, j)))
  {
    var k := Steps(s, |q|);
    BestMinimisesEnergy(q, x0, d, k, j);
    StateBinary(q, x0, d, BestIndex(q, x0, d, k));
  }

  /** One pass of the annealing loop's body on the draw d[k]: flip the drawn
      bit when the change is negative or the Metropolis test passes, and
      keep the new vector when its energy is below the best so far. */
  method Iterate(q: Matrix, x0: seq<int>, d: seq<Draw>, k: nat, x: seq<int>, energy: real,
                 best: seq<int>, bestEnergy: real, ghost at: nat)
    returns (x': seq<int>, energy': real, best': seq<int>, bestEnergy': real, ghost at': nat)
    requires Square(q) && |x0| == |q| > 0 && k < |d| && Drawn(d, |q|)
    requires State(q, x0, d, k) == x && Running(q, x0, d, k) == energy
    requires at == BestIndex(q, x0, d, k) && State(q, x0, d, at) == best && Running(q, x0, d, at) == bestEnergy
    ensures State(q, x0, d, k + 1) == x' && Running(q, x0, d, k + 1) == energy'
    ensures at' == BestIndex(q, x0, d, k + 1) && State(q, x0, d, at') == best' && Running(q, x0, d, at') == bestEnergy'
  {
    var i := d[k].index;
    var delta := Delta(q, x, i);
    ghost var next := k + 1;
    Advance(q, x0, d, k, next);
    x', energy', best', bestEnergy', at' := x, energy, best, bestEnergy, at;
    if delta < 0.0 || d[k].accepted {
      x' := x[i := 1 - x[i]];
      energy' := energy + delta;
      if energy' < bestEnergy {
        bestEnergy' := energy';
        best' := x';
        at' := next;
      }
    }
  }

  /** custom_sa with the random initial vector x0 and the random draws d,
      which must cover every iteration the schedule allows.  An empty Q
      with a starting temperature of at least final_temp makes
      np.random.randint(0) raise. */
  method CustomSA(q: Matrix, x0: seq<int>, d: seq<Draw>, s: Schedule) returns (r: Result<seq<int>>)
    requires Square(q) && |x0| == |q| && IsBinary(x0) && Stops(s, |q|)
    requires |q| > 0 ==> Steps(s, |q|) <= |d| && Drawn(d, |q|)
    ensures r.Failure? <==> |q| == 0 && Start(s, 0) >= s.finalTemp
    ensures r.Success? ==> r.value == Annealed(q, x0, d, s)
  {
    var n := |q|;
    var t := Start(s, n);
    if n == 0 {
      if t >= s.finalTemp {
        return Failure("ValueError");
      }
      return Success([]);
    }
    var x := x0;
    var energy := Energy(q, x0);
    var best, bestEnergy := x, energy;
    ghost var limit := Limit(s, n);
    ghost var at := 0;
    var iteration: nat := 0;
    while t >= s.finalTemp
      invariant iteration <= limit
      invariant s.maxIter.Some? ==> iteration < IterationCap(s.maxIter.value)
      invariant t == Temperature(s, n, iteration)
      invariant StepsFrom(s, n, iteration) == Steps(s, n)
      invariant State(q, x0, d, iteration) == x && Running(q, x0, d, iteration) == energy
      invariant at == BestIndex(q, x0, d, iteration)
      invariant State(q, x0, d, at) == best && Running(q, x0, d, at) == bestEnergy
      decreases limit - iteration
    {
      StepsFromNext(s, n, iteration, iteration + 1);
      x, energy, best, bestEnergy, at := Iterate(q, x0, d, iteration, x, energy, best, bestEnergy, at);
      t := Scale(t, s.alpha);
      iteration := iteration + 1;
      if s.maxIter.Some? && iteration >= s.maxIter.value {
        assert StepsFrom(s, n, iteration) == iteration;
        break;
      }
    }
    assert StepsFrom(s, n, iteration) == iteration;
    return Success(best);
  }

  // ---------------------------------------------------------------------
  // The heuristics: sample, merge, evaluate
  // ---------------------------------------------------------------------

  /** -m, the matrix the samplers minimise over (they minimise, the
      solver maximises). */
  function Negate(m: Matrix): (r: Matrix)
    ensures |r| == |m| && forall i :: 0 <= i < |m| ==> |r[i]| == |m[i]|
    ensures forall i, j :: 0 <= i < |m| && 0 <= j < |m[i]| ==> r[i][j] == -m[i][j]
  {
    seq(|m|, i requires 0 <= i < |m| => seq(|m[i]|, j requires 0 <= j < |m[i]| => -m[i][j]))
  }

  /** Minimising x^T (-m) x is maximising x^T m x. */
  lemma {:induction false} NegateQuadForm(m: Matrix, x: seq<real>)
    ensures QuadForm(Negate(m), x) == -QuadForm(m, x)
  {
    var f, h := Terms(m, x), Terms(Negate(m), x);
    forall i, j | 0 <= i < |x| && 0 <= j < |x|
      ensures h(i, j) == -1.0 * f(i, j) + 0.0 * f(i, j)
    {
      assert Entry(Negate(m), i, j) == -Entry(m, i, j);
    }
    DoubleSumLinear(|x|, |x|, -1.0, 0.0, f, f, h);
  }

  /** `m[:-1, :-1]`, which is empty for an empty m. */
  function Trimmed(m: Matrix): (t: Matrix)
    requires Square(m)
    ensures Square(t) && |t| == if |m| == 0 then 0 else |m| - 1
    ensures forall i, j :: 0 <= i < |t| && 0 <= j < |t| ==> t[i][j] == m[i][j]
  {
    if |m| == 0 then [] else Leading(m)
  }

  /** Appending 0 for the last variable makes the dropped row and column
      irrelevant: the value of y + [0] for m is the value of y for
      m[:-1, :-1]. */
  lemma {:induction false} PaddedQuadForm(m: Matrix, y: seq<int>)
    requires Square(m) && |m| == |y| + 1
    ensures QuadForm(m, AsReals(y + [0])) == QuadForm(Trimmed(m), AsReals(y))
  {
    var n := |y|;
    var f, g := Terms(m, AsReals(y + [0])), Terms(Trimmed(m), AsReals(y));
    forall i | 0 <= i <= n
      ensures f(i, n) == 0.0 && f(n, i) == 0.0
    {
      assert Coord(AsReals(y + [0]), n) == 0.0;
    }
    DoubleSumDropLast(n, f);
    forall i, j | 0 <= i < n && 0 <= j < n
      ensures f(i, j) == g(i, j)
    {
      assert (y + [0])[i] == y[i] && (y + [0])[j] == y[j];
    }
    DoubleSumExt(n, n, f, g);
  }

  /** The sampler heuristic for Max-Cut: the sampler's answer for -L fills
      the free positions of x, the fixed ones keep sol_X, and the result is
      scored with L0.  `sampler` stands for the first sample the external
      sampler returns. */
  method SamplerHeuristic(l0: Matrix, l: Matrix, xfixed: seq<int>, solX: seq<int>, x: array<int>,
                          sampler: Matrix -> seq<int>) returns (v: real)
    requires x.Length <= |xfixed| && x.Length <= |solX| && FreeCount(xfixed, x.Length) <= |sampler(Negate(l))|
    requires x.Length <= |l0| && forall i :: 0 <= i < x.Length ==> x.Length <= |l0[i]|
    modifies x
    ensures x[..] == Merged(xfixed, solX, sampler(Negate(l)), x.Length)
    ensures v == QuadForm(l0, AsReals(x[..]))
  {
    var result := sampler(Negate(l));
    var _ := Merge(x, xfixed, solX, result);
    v := EvaluateSolution(l0, x[..]);
  }

  /** The tabu-search heuristic for QUBO: the sampler works on
      -L[:-1, :-1], and a 0 is appended for the dropped last variable
      before the merge. */
  method TabuHeuristic(l0: Matrix, l: Matrix, xfixed: seq<int>, solX: seq<int>, x: array<int>,
                       sampler: Matrix -> seq<int>) returns (v: real)
    requires Square(l)
    requires x.Length <= |xfixed| && x.Length <= |solX|
    requires FreeCount(xfixed, x.Length) <= |sampler(Negate(Trimmed(l)))| + 1
    requires x.Length <= |l0| && forall i :: 0 <= i < x.Length ==> x.Length <= |l0[i]|
    modifies x
    ensures x[..] == Merged(xfixed, solX, sampler(Negate(Trimmed(l))) + [0], x.Length)
    ensures v == QuadForm(l0, AsReals(x[..]))
  {
    var sample := sampler(Negate(Trimmed(l))) + [0];
    var _ := Merge(x, xfixed, solX, sample);
    v := EvaluateSolution(l0, x[..]);
  }

  /** The custom-annealing heuristic for QUBO: custom_sa with its default
      schedule on -L[:-1, :-1], from the random start x0 with the random
      draws d, then a 0 appended, the merge and the evaluation. */
  method CustomSAHeuristic(l0: Matrix, l: Matrix, xfixed: seq<int>, solX: seq<int>, x: array<int>,
                           x0: seq<int>, d: seq<Draw>) returns (v: real)
    requires Square(l) && IsBinary(x0) && |x0| == |Trimmed(l)|
    requires |Trimmed(l)| > 0 ==> Steps(Defaults, |Trimmed(l)|) <= |d| && Drawn(d, |Trimmed(l)|)
    requires x.Length <= |xfixed| && x.Length <= |solX| && FreeCount(xfixed, x.Length) <= |Trimmed(l)| + 1
    requires x.Length <= |l0| && forall i :: 0 <= i < x.Length ==> x.Length <= |l0[i]|
    modifies x
    ensures x[..] == Merged(xfixed, solX, Annealed(Negate(Trimmed(l)), x0, d, Defaults) + [0], x.Length)
    ensures v == QuadForm(l0, AsReals(x[..]))
  {
    var q := Negate(Trimmed(l));
    var r := CustomSA(q, x0, d, Defaults);
    assert r.Success?;
    var sample := r.value + [0];
    var _ := Merge(x, xfixed, solX, sample);
    v := EvaluateSolution(l0, x[..]);
  }
}
