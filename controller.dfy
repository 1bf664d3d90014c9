/** `Algorithm` and its four k-sparsest-subgraph subclasses
    (`AugumentedLagrangian`, `Linear`, `ProposedAlgorithm`,
    `QuadraticPenalty`): a solver object that alternates `update_lambda_mu`
    with one sampler call on the triangular QUBO, keeps the best report of
    cardinality at least k, and finally returns the induced subgraph of the
    best sample (for `Linear`, trimmed by `greedy` when k was missed). */
module Controller {
  import opened Wrappers
  import opened Matrices
  import opened Qubo
  import opened Graphs
  import opened Greedy
  import opened Tracking
  import opened Tuning
  import opened Sampling

  /** What `compute` returns: the sampler report kept and the subgraph. */
  datatype Outcome = Outcome(response: Response, g: Graph<int>)

  class Algorithm {
    /** `self.g`, the input relabelled to 0..n-1, and its node count. */
    const g: Graph<int>
    const n: nat
    /** `self.qubo.A`, the adjacency matrix. */
    const a: Matrix
    const k: int
    const policy: Policy
    const sampler: Sampler

    /** `lambdai` and `mui`. */
    var lambda: real
    var mu: real
    /** The policy's iteration counter and, for the proposed algorithm,
        `mu_number_of_iterations` and the bisection bracket. */
    var iterations: int
    var muIterations: int
    var lambdaMin: real
    var lambdaMax: real
    /** `computed_cardinality`: None before the first sample. */
    var computed: Option<int>
    /** `best_sampler_response` (with `best_computed_cardinality` and
        `best_computed_cardinality_x`): None until a sample reaches k. */
    var best: Option<Response>
    var greedyUsed: bool
    /** Every report the sampler has made to this solver, in order. */
    ghost var observed: seq<Response>

    /** The tuning state as the policies see it. */
    function State(): Knobs
      reads this, sampler
    {
      Knobs(lambda, mu, iterations, muIterations, lambdaMin, lambdaMax, sampler.numReads)
    }

    /** The QUBO of the next sampler call. */
    function Qubo(): (q: Matrix)
      requires Square(a)
      reads this
      ensures IsSquare(q, |a|)
    {
      TriU(a, lambda, mu, k as real)
    }

    /** The report the next sampler call will make. */
    function Next(): Response
      requires Square(a)
      reads this, sampler
    {
      Respond(Qubo(), sampler.sample(Qubo(), sampler.numReads, sampler.calls))
    }

    /** The relabelled graph and its adjacency matrix: facts about constants
        only. */
    ghost predicate Ready()
    {
      Labelled(g, n) && a == Adjacency(g, n)
    }

    /** The record and the last cardinality follow from the reports seen so
        far; the record reaches k and its cardinality counts the ones of its
        sample. */
    ghost predicate Valid()
      reads this
    {
      && best == TrackAll(observed, k)
      && (best.Some? ==> best.value.cardinality == Cardinality(best.value.x) && best.value.cardinality >= k)
      && computed == (if observed == [] then None else Some(observed[|observed| - 1].cardinality))
    }

    /** `Algorithm.__init__` followed by the subclass constructor, given its
        validated `setup` (`Tuning.*Setup`): the graph is relabelled to
        0..n-1 and nothing has been sampled yet. */
    constructor (g0: Graph<int>, k: int, setup: Setup, sampler: Sampler)
      requires WellFormed(g0)
      ensures Ready() && Valid()
      ensures g == Convert(g0) && n == |g0.nodes| && this.k == k && policy == setup.policy
      ensures this.sampler == sampler
      ensures State() == setup.knobs.(numReads := sampler.numReads)
      ensures computed.None? && best.None? && !greedyUsed && observed == []
    {
      ConvertLabelled(g0);
      g := Convert(g0);
      n := |g0.nodes|;
      a := Adjacency(Convert(g0), |g0.nodes|);
      this.k := k;
      policy := setup.policy;
      this.sampler := sampler;
      lambda := setup.knobs.lambda;
      mu := setup.knobs.mu;
      iterations := setup.knobs.iterations;
      muIterations := setup.knobs.muIterations;
      lambdaMin := setup.knobs.lambdaMin;
      lambdaMax := setup.knobs.lambdaMax;
      computed := None;
      best := None;
      greedyUsed := false;
      observed := [];
    }

    /** `update_lambda_mu(obs)` of the solver's policy: the answer and the new
        tuning state are the ones `Tuning.Advance` prescribes; the record and
        the sampler's call count stay. */
    method UpdateLambdaMu(obs: Option<int>) returns (go: bool)
      modifies this, sampler
      ensures Update(go, State()) == Advance(policy, old(State()), k, obs)
      ensures computed == old(computed) && best == old(best) && observed == old(observed)
      ensures greedyUsed == old(greedyUsed) && sampler.calls == old(sampler.calls)
    {
      match policy
      case AugmentedLagrangian(step, maxIterations) =>
        if obs.None? {
          iterations := iterations + 1;
          return true;
        }
        if iterations < maxIterations {
          lambda := lambda + mu * (k - obs.value) as real;
          mu := mu * step;
          iterations := iterations + 1;
          return true;
        }
        return false;
      case Linear(lambdaStep, lambdaMaxIterations) =>
        if obs.None? {
          iterations := iterations + 1;
          return true;
        }
        if iterations < lambdaMaxIterations {
          lambda := lambda + lambdaStep * (k - obs.value) as real;
          iterations := iterations + 1;
          return true;
        }
        return false;
      case QuadraticPenalty(step, muMaxIterations) =>
        if obs.None? {
          iterations := iterations + 1;
          return true;
        }
        if iterations < muMaxIterations {
          mu := mu + step;
          iterations := iterations + 1;
          return true;
        }
        return false;
      case Proposed(lambdaMaxIterations, muStep, muMaxIterations, muNumReads) =>
        go := ProposedUpdate(obs, lambdaMaxIterations, muStep, muMaxIterations, muNumReads);
    }

    /** `ProposedAlgorithm.update_lambda_mu`: bisection on lambda while its
        budget lasts, then mu steps with the sampler switched to
        `mu_num_reads`. */
    method ProposedUpdate(obs: Option<int>, lambdaMaxIterations: int, muStep: real, muMaxIterations: int, muNumReads: int)
      returns (go: bool)
      requires policy == Proposed(lambdaMaxIterations, muStep, muMaxIterations, muNumReads)
      modifies this, sampler
      ensures Update(go, State()) == Advance(policy, old(State()), k, obs)
      ensures computed == old(computed) && best == old(best) && observed == old(observed)
      ensures greedyUsed == old(greedyUsed) && sampler.calls == old(sampler.calls)
    {
      if iterations < lambdaMaxIterations {
        if obs.None? {
          iterations := iterations + 1;
          return true;
        }
        var c := obs.value;
        if c > k {
          lambdaMax := lambda;
        }
        if c < k {
          lambdaMin := lambda;
        }
        if c != k {
          lambda := (lambdaMin + lambdaMax) / 2.0;
        }
        iterations := iterations + 1;
        return true;
      } else if muIterations < muMaxIterations {
        sampler.SetNumReads(muNumReads);
        mu := mu + muStep;
        muIterations := muIterations + 1;
        return true;
      } else {
        return false;
      }
    }

    /** The two `if`s after a sampler call: record its cardinality and keep
        the report when it is the first to reach k or beats the record while
        still reaching k. */
    method Record(r: Response)
      requires best.Some? ==> best.value.cardinality == Cardinality(best.value.x) && best.value.cardinality >= k
      requires r.cardinality == Cardinality(r.x)
      modifies this
      ensures best.Some? ==> best.value.cardinality == Cardinality(best.value.x) && best.value.cardinality >= k
      ensures best == Track(old(best), r, k) && computed == Some(r.cardinality)
      ensures State() == old(State()) && greedyUsed == old(greedyUsed) && observed == old(observed)
    {
      computed := Some(r.cardinality);
      if best.None? && r.cardinality >= k {
        best := Some(r);
      }
      if r.cardinality >= k && r.cardinality < best.value.cardinality {
        best := Some(r);
      }
    }

    /** One pass of the `compute` loop body: sample the current QUBO and
        record the report. */
    method Sample()
      requires Square(a) && Valid()
      modifies this, sampler
      ensures Valid()
      ensures observed == old(observed) + [old(Next())]
      ensures State() == old(State()) && greedyUsed == old(greedyUsed)
      ensures sampler.calls == old(sampler.calls) + 1
    {
      ghost var before := observed;
      var r := sampler.Compute(Qubo());
      Record(r);
      observed := observed + [r];
      assert observed[..|observed| - 1] == before;
    }

    /** One round of the `compute` loop once the last cardinality is not k:
        `update_lambda_mu(computed_cardinality)` and, when it answers True,
        one sample. A round that samples spends one unit of the budget; a
        round that does not changes nothing and leaves a spent budget. */
    method Step() returns (go: bool)
      requires Square(a) && Valid()
      modifies this, sampler
      ensures Valid() && greedyUsed == old(greedyUsed)
      ensures !go ==> observed == old(observed) && computed == old(computed) && State() == old(State())
      ensures !go ==> !Advance(policy, State(), k, computed).go
      ensures go ==> |observed| == |old(observed)| + 1 && observed[..|old(observed)|] == old(observed)
      ensures go ==> Remaining(policy, State(), computed) == old(Remaining(policy, State(), computed)) - 1
      ensures sampler.calls == old(sampler.calls) + if go then 1 else 0
    {
      ghost var s := State();
      ghost var last := computed;
      go := UpdateLambdaMu(computed);
      AdvanceSpendsBudget(policy, s, k, last, Next().cardinality);
      if go {
        Sample();
      }
    }

    /** The `while` loop of `Algorithm.compute`: it runs while the last
        cardinality is not k and `update_lambda_mu` answers True. It makes at
        most the policy's remaining budget of sampler calls, and it stops at
        the first report of cardinality k or when the budget is spent. */
    method Iterate()
      requires Square(a) && Valid()
      modifies this, sampler
      ensures Valid() && greedyUsed == old(greedyUsed)
      ensures |old(observed)| <= |observed| && observed[..|old(observed)|] == old(observed)
      ensures |observed| - |old(observed)| <= Remaining(policy, old(State()), old(computed))
      ensures sampler.calls - old(sampler.calls) == |observed| - |old(observed)|
      ensures computed == Some(k) || !Advance(policy, State(), k, computed).go
      ensures forall i :: |old(observed)| <= i < |observed| - 1 ==> observed[i].cardinality != k
    {
      ghost var start := observed;
      ghost var budget := Remaining(policy, State(), computed);
      while computed != Some(k)
        invariant Valid() && greedyUsed == old(greedyUsed)
        invariant |start| <= |observed| && observed[..|start|] == start
        invariant |observed| - |start| + Remaining(policy, State(), computed) == budget
        invariant sampler.calls - old(sampler.calls) == |observed| - |start|
        invariant forall i :: |start| <= i < |observed| - 1 ==> observed[i].cardinality != k
        decreases Remaining(policy, State(), computed)
      {
        ghost var before := observed;
        var go := Step();
        if !go {
          break;
        }
        assert observed[..|start|] == before[..|start|];
        assert forall i :: |start| <= i < |observed| - 1 ==> observed[i] == before[i];
      }
    }

    /** The `Linear.compute` fallback when the record missed k:
        `greedy(G, k)` on the subgraph the record's sample induces. It fails
        exactly when `greedy` does; on a 0/1 sample over the nodes it leaves
        exactly k nodes. */
    method Fallback() returns (r: Result<Outcome>)
      requires Ready() && Valid() && best.Some?
      modifies this
      ensures Valid() && greedyUsed
      ensures best == old(best) && observed == old(observed) && State() == old(State())
      ensures r.Failure? <==> k <= 0 || |Induced(g, Selected(best.value.x)).nodes| == 0
      ensures r.Success? ==> r.value.response == best.value
      ensures r.Success? ==>
        r.value.g == Trim(Induced(g, Selected(best.value.x)), Rounds(|Induced(g, Selected(best.value.x)).nodes|, k))
      ensures r.Success? && IsBinary(best.value.x) && |best.value.x| == n ==> |r.value.g.nodes| == k
    {
      greedyUsed := true;
      var x := best.value.x;
      var sub := Induced(g, Selected(x));
      InducedWellFormed(g, Selected(x));
      var t := Greedy.Greedy(sub, k);
      if t.Failure? {
        return Failure(t.error);
      }
      if IsBinary(x) && |x| == n {
        SelectedSize(g, n, x);
      }
      return Success(Outcome(best.value, t.value.g));
    }

    /** `compute()` of the four solvers. It fails with `DidNotConverge` when no
        report reached k and, except for `Linear`, when the record is not
        exactly k; `Linear` then runs `greedy(G, k)` on the record's induced
        subgraph (and fails only when `greedy` does). Otherwise the outcome is
        the record with the subgraph its sample induces. Whenever it succeeds
        on a 0/1 sample over the nodes, the subgraph has exactly k nodes. */
    method Compute() returns (r: Result<Outcome>)
      requires Ready() && Valid()
      modifies this, sampler
      ensures Valid()
      ensures |old(observed)| <= |observed| && observed[..|old(observed)|] == old(observed)
      ensures |observed| - |old(observed)| <= Remaining(policy, old(State()), old(computed))
      ensures sampler.calls - old(sampler.calls) == |observed| - |old(observed)|
      ensures computed == Some(k) || !Advance(policy, State(), k, computed).go
      ensures best.None? ==> r == Failure("DidNotConverge")
      ensures r.Success? ==> best.Some? && r.value.response == best.value
      ensures !policy.Linear? ==> (r.Success? <==> best.Some? && best.value.cardinality == k)
      ensures !policy.Linear? && r.Failure? ==> r.error == "DidNotConverge"
      ensures best.Some? && best.value.cardinality == k ==>
        greedyUsed == old(greedyUsed) && r == Success(Outcome(best.value, Induced(g, Selected(best.value.x))))
      ensures policy.Linear? && best.Some? && best.value.cardinality != k ==>
        && greedyUsed
        && (r.Failure? <==> k <= 0 || |Induced(g, Selected(best.value.x)).nodes| == 0)
        && (r.Success? ==> r.value.g == Trim(Induced(g, Selected(best.value.x)), Rounds(|Induced(g, Selected(best.value.x)).nodes|, k)))
      ensures r.Success? && IsBinary(r.value.response.x) && |r.value.response.x| == n ==> |r.value.g.nodes| == k
    {
      Iterate();
      if best.None? {
        return Failure("DidNotConverge");
      }
      if best.value.cardinality == k {
        var x := best.value.x;
        if IsBinary(x) && |x| == n {
          SelectedSize(g, n, x);
        }
        return Success(Outcome(best.value, Induced(g, Selected(x))));
      }
      if !policy.Linear? {
        return Failure("DidNotConverge");
      }
      r := Fallback();
    }
  }
}
