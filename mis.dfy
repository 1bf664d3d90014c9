/** `MaxIndependentSet`: sample the triangular QUBO with mu = k = 0 and a
    lambda that is `initital_lambda` on the first iteration (when given) and a
    uniform draw from [lambda_min, lambda_max] otherwise, keep the report of
    largest cardinality, and fall back on an independent-set heuristic when
    the best sample still induces edges. */
module Independence {
  import opened Wrappers
  import opened Matrices
  import opened Qubo
  import opened Graphs
  import opened Tracking
  import opened Sampling
  import opened Controller

  /** With mu = k = 0 the QUBO energy of a 0/1 vector is the number of edges
      inside the chosen set minus lambda times its size. */
  lemma {:induction false} IndependenceObjective(a: Matrix, l: real, x: seq<int>)
    requires Square(a) && |x| == |a| && IsBinary(x)
    ensures QuadForm(TriU(a, l, 0.0, 0.0), AsReals(x)) == InnerEdges(a, AsReals(x)) - l * Cardinality(x) as real
  {
    TriUObjective(a, l, 0.0, 0.0, x);
  }

  /** The graph `compute` ends with, given the best sample's subgraph and the
      heuristic's set for it. */
  function Final(sub: Graph<int>, chosen: set<int>): Graph<int>
  {
    if EdgeCount(sub) == 0 then sub else Induced(sub, chosen)
  }

  /** The final graph has no edges, provided the heuristic's set is
      independent whenever the heuristic is used. */
  lemma {:induction false} FinalEdgeless(sub: Graph<int>, chosen: set<int>)
    requires WellFormed(sub)
    requires EdgeCount(sub) != 0 ==> Independent(sub, chosen)
    ensures Final(sub, chosen).edges == {}
  {
    NoEdges(sub);
    if EdgeCount(sub) != 0 {
      IndependentInduced(sub, chosen);
    }
  }

  /** The bounds `MaxIndependentSet.__init__` accepts. */
  predicate Bounded(lambdaMin: real, lambdaMax: real)
  {
    0.0 <= lambdaMin <= lambdaMax <= 1.0
  }

  class MaxIndependentSet {
    const g: Graph<int>
    const n: nat
    const a: Matrix
    const sampler: Sampler
    const initialLambda: Option<real>
    const lambdaMin: real
    const lambdaMax: real
    const maxIterations: int
    /** `np.random.uniform(low=lambda_min, high=lambda_max)` at iteration i. */
    const draw: nat -> real
    /** `nx.algorithms.approximation.maximum_independent_set`. */
    const heuristic: Graph<int> -> set<int>

    /** `lambdai`: unset (None) until the first iteration. */
    var lambda: Option<real>
    var iterations: nat
    var computed: Option<int>
    var best: Option<Response>
    var heuristicUsed: bool
    ghost var observed: seq<Response>

    /** The relabelled graph and its adjacency matrix, and the random source
        drawing from the accepted bracket: facts about constants only. */
    ghost predicate Ready()
    {
      && Labelled(g, n)
      && a == Adjacency(g, n)
      && Bounded(lambdaMin, lambdaMax)
      && (forall i :: lambdaMin <= draw(i) <= lambdaMax)
    }

    /** One report per iteration so far, and the record is the
        largest-cardinality report. */
    ghost predicate Valid()
      reads this`iterations, this`observed, this`lambda, this`best, this`computed
    {
      && iterations == |observed|
      && (lambda.None? <==> iterations == 0)
      && best == TrackMaxAll(observed)
      && (best.Some? ==> best.value.cardinality == Cardinality(best.value.x))
      && computed == (if observed == [] then None else Some(observed[|observed| - 1].cardinality))
    }

    /** The lambda of iteration i. */
    function Drawn(i: nat): real
      reads this
    {
      if initialLambda.Some? && i == 0 then initialLambda.value else draw(i)
    }

    constructor (g0: Graph<int>, sampler: Sampler, initialLambda: Option<real>, lambdaMin: real, lambdaMax: real,
                 maxIterations: int, draw: nat -> real, heuristic: Graph<int> -> set<int>)
      requires WellFormed(g0) && Bounded(lambdaMin, lambdaMax)
      requires forall i :: lambdaMin <= draw(i) <= lambdaMax
      ensures Ready() && Valid() && observed == [] && !heuristicUsed
      ensures g == Convert(g0) && n == |g0.nodes| && this.sampler == sampler
      ensures this.initialLambda == initialLambda && this.lambdaMin == lambdaMin && this.lambdaMax == lambdaMax
      ensures this.maxIterations == maxIterations && this.draw == draw && this.heuristic == heuristic
    {
      ConvertLabelled(g0);
      g := Convert(g0);
      n := |g0.nodes|;
      a := Adjacency(Convert(g0), |g0.nodes|);
      this.sampler := sampler;
      this.initialLambda := initialLambda;
      this.lambdaMin := lambdaMin;
      this.lambdaMax := lambdaMax;
      this.maxIterations := maxIterations;
      this.draw := draw;
      this.heuristic := heuristic;
      lambda := None;
      iterations := 0;
      computed := None;
      best := None;
      heuristicUsed := false;
      observed := [];
    }

    /** `MaxIndependentSet(...)`: raises `ValueError` unless
        0 <= lambda_min <= lambda_max <= 1, before anything is sampled. */
    static method New(g0: Graph<int>, sampler: Sampler, initialLambda: Option<real>, lambdaMin: real, lambdaMax: real,
                      maxIterations: int, draw: nat -> real, heuristic: Graph<int> -> set<int>)
      returns (r: Result<MaxIndependentSet>)
      requires WellFormed(g0)
      requires lambdaMin <= lambdaMax ==> forall i :: lambdaMin <= draw(i) <= lambdaMax
      ensures r.Failure? <==> lambdaMin < 0.0 || lambdaMax > 1.0 || lambdaMin > lambdaMax
      ensures r.Failure? ==> r.error == "ValueError"
      ensures r.Success? ==> fresh(r.value) && r.value.Ready() && r.value.Valid() && r.value.observed == [] && r.value.sampler == sampler
      ensures r.Success? ==> r.value.initialLambda == initialLambda && r.value.maxIterations == maxIterations
    {
      if lambdaMin < 0.0 || lambdaMax > 1.0 || lambdaMin > lambdaMax {
        return Failure("ValueError");
      }
      var m := new MaxIndependentSet(g0, sampler, initialLambda, lambdaMin, lambdaMax, maxIterations, draw, heuristic);
      return Success(m);
    }

    /** Every lambda after the first given one lies in the bracket. */
    lemma {:induction false} DrawnInBracket(i: nat)
      requires Ready() && (initialLambda.None? || i > 0)
      ensures lambdaMin <= Drawn(i) <= lambdaMax
    {
    }

    /** `update_lambda_mu()`: while the budget lasts, set lambda to the
        iteration's value and count the iteration; afterwards answer False
        and change nothing. */
    method UpdateLambda() returns (go: bool)
      modifies this
      ensures go <==> old(iterations) < maxIterations
      ensures go ==> iterations == old(iterations) + 1 && lambda == Some(Drawn(old(iterations)))
      ensures !go ==> iterations == old(iterations) && lambda == old(lambda)
      ensures computed == old(computed) && best == old(best) && observed == old(observed)
      ensures heuristicUsed == old(heuristicUsed)
    {
      if iterations < maxIterations {
        if initialLambda.Some? && iterations == 0 {
          lambda := initialLambda;
        } else {
          lambda := Some(draw(iterations));
        }
        iterations := iterations + 1;
        return true;
      }
      return false;
    }

    /** The loop body of `compute`: sample the QUBO for the current lambda
        with mu = k = 0 and keep the report if there is no record yet or its
        cardinality is strictly larger. */
    method Sample()
      requires Square(a) && lambda.Some?
      requires best == TrackMaxAll(observed)
      requires best.Some? ==> best.value.cardinality == Cardinality(best.value.x)
      modifies this, sampler
      ensures observed == old(observed) + [Respond(TriU(a, old(lambda).value, 0.0, 0.0),
                                                   sampler.sample(TriU(a, old(lambda).value, 0.0, 0.0), old(sampler.numReads), old(sampler.calls)))]
      ensures best == TrackMaxAll(observed)
      ensures best.Some? ==> best.value.cardinality == Cardinality(best.value.x)
      ensures computed == Some(observed[|observed| - 1].cardinality)
      ensures lambda == old(lambda) && iterations == old(iterations) && heuristicUsed == old(heuristicUsed)
      ensures sampler.numReads == old(sampler.numReads) && sampler.calls == old(sampler.calls) + 1
    {
      ghost var before := observed;
      var r := sampler.Compute(TriU(a, lambda.value, 0.0, 0.0));
      computed := Some(r.cardinality);
      if best.None? || best.value.cardinality < r.cardinality {
        best := Some(r);
      }
      observed := observed + [r];
      assert observed[..|observed| - 1] == before;
    }

    /** One round of the `compute` loop: `update_lambda_mu()` and, when it
        answers True, one sample. */
    method Step() returns (go: bool)
      requires Square(a) && Valid()
      modifies this, sampler
      ensures Valid() && heuristicUsed == old(heuristicUsed)
      ensures go <==> old(iterations) < maxIterations
      ensures !go ==> observed == old(observed) && iterations == old(iterations)
      ensures go ==> |observed| == |old(observed)| + 1 && observed[..|old(observed)|] == old(observed)
      ensures sampler.numReads == old(sampler.numReads)
      ensures sampler.calls == old(sampler.calls) + if go then 1 else 0
    {
      go := UpdateLambda();
      if go {
        Sample();
      }
    }

    /** `MaxIndependentSet.compute()`. The loop makes one sampler call per
        remaining iteration. Without any iteration `lambdai` was never set
        and building the result fails (`AttributeError`); otherwise the
        result is the subgraph the largest-cardinality sample induces or,
        when that still has edges, the subgraph the heuristic's set induces
        in it. If the heuristic returns an independent set, the final graph
        has no edges. */
    method Compute() returns (r: Result<Outcome>)
      requires Ready() && Valid()
      modifies this, sampler
      ensures Valid()
      ensures |old(observed)| <= |observed| && observed[..|old(observed)|] == old(observed)
      ensures |observed| == |old(observed)| + Tuning.Max0(maxIterations - old(iterations))
      ensures sampler.numReads == old(sampler.numReads)
      ensures sampler.calls - old(sampler.calls) == |observed| - |old(observed)|
      ensures r.Failure? <==> observed == []
      ensures r.Failure? ==> r.error == "AttributeError"
      ensures r.Success? ==> best.Some? && r.value.response == best.value
      ensures r.Success? ==>
        var sub := Induced(g, Selected(best.value.x));
        && heuristicUsed == (old(heuristicUsed) || EdgeCount(sub) != 0)
        && r.value.g == Final(sub, heuristic(sub))
      ensures r.Success? ==>
        var sub := Induced(g, Selected(best.value.x));
        (EdgeCount(sub) != 0 ==> Independent(sub, heuristic(sub))) ==> r.value.g.edges == {}
    {
      ghost var start := |observed|;
      ghost var startIterations := iterations;
      while true
        invariant Ready() && Valid() && heuristicUsed == old(heuristicUsed)
        invariant start <= |observed| && observed[..start] == old(observed)
        invariant |observed| - start == iterations - startIterations
        invariant iterations == startIterations || iterations <= maxIterations
        invariant sampler.numReads == old(sampler.numReads)
        invariant sampler.calls - old(sampler.calls) == |observed| - start
        decreases Tuning.Max0(maxIterations - iterations)
      {
        ghost var before := observed;
        var go := Step();
        if !go {
          break;
        }
        assert observed[..start] == before[..start];
      }
      if best.None? {
        TrackMaxAllMaximal(observed);
        return Failure("AttributeError");
      }
      TrackMaxAllMaximal(observed);
      r := Finish();
    }

    /** The end of `compute()` once there is a record: the induced subgraph
        of the record's sample, handed to the heuristic when it has edges. */
    method Finish() returns (r: Result<Outcome>)
      requires WellFormed(g) && Valid() && best.Some?
      modifies this
      ensures Valid() && observed == old(observed) && best == old(best)
      ensures r.Success? && r.value.response == best.value
      ensures
        var sub := Induced(g, Selected(best.value.x));
        && heuristicUsed == (old(heuristicUsed) || EdgeCount(sub) != 0)
        && r.value.g == Final(sub, heuristic(sub))
      ensures
        var sub := Induced(g, Selected(best.value.x));
        (EdgeCount(sub) != 0 ==> Independent(sub, heuristic(sub))) ==> r.value.g.edges == {}
    {
      var sub := Induced(g, Selected(best.value.x));
      InducedWellFormed(g, Selected(best.value.x));
      if EdgeCount(sub) != 0 ==> Independent(sub, heuristic(sub)) {
        FinalEdgeless(sub, heuristic(sub));
      }
      if EdgeCount(sub) != 0 {
        heuristicUsed := true;
      }
      return Success(Outcome(best.value, Final(sub, heuristic(sub))));
    }
  }
}
