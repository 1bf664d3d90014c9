/** The penalty-parameter policies of the k-sparsest-subgraph solvers: the
    construction-time validation of `AugumentedLagrangian`, `Linear`,
    `ProposedAlgorithm` and `QuadraticPenalty`, and their `update_lambda_mu`
    rules as a pure step function on the tuning state. */
module Tuning {
  import opened Wrappers

  /** Which solver, with the parameters its constructor stores. */
  datatype Policy =
    | AugmentedLagrangian(step: real, maxIterations: int)
    | Linear(lambdaStep: real, lambdaMaxIterations: int)
    | Proposed(lambdaMaxIterations: int, muStep: real, muMaxIterations: int, muNumReads: int)
    | QuadraticPenalty(step: real, muMaxIterations: int)

  /** The tuned state: `lambdai`, `mui`, the policy's own iteration counter
      (`number_of_iterations`, `lambda_number_of_iterations` or, for the
      quadratic penalty, `mu_number_of_iterations`), the mu-phase counter of
      the proposed algorithm, its bisection bracket, and the sampler's read
      count. */
  datatype Knobs = Knobs(lambda: real, mu: real, iterations: int, muIterations: int,
                         lambdaMin: real, lambdaMax: real, numReads: int)

  /** What `update_lambda_mu` returns, with the state it leaves. */
  datatype Update = Update(go: bool, knobs: Knobs)

  /** A solver ready to run: its policy and its initial state. */
  datatype Setup = Setup(policy: Policy, knobs: Knobs)

  function Max0(x: int): nat
  {
    if x > 0 then x else 0
  }

  /** `AugumentedLagrangian.__init__`: raises `ValueError` for initial_mu <= 0. */
  function AugmentedLagrangianSetup(initialLambda: real, initialMu: real, step: real, maxIterations: int, numReads: int): (r: Result<Setup>)
    ensures r.Failure? <==> initialMu <= 0.0
    ensures r.Failure? ==> r.error == "ValueError"
    ensures r.Success? ==> r.value.policy == AugmentedLagrangian(step, maxIterations)
    ensures r.Success? ==> r.value.knobs == Knobs(initialLambda, initialMu, 0, 0, 0.0, 0.0, numReads)
  {
    if initialMu <= 0.0 then Failure("ValueError")
    else Success(Setup(AugmentedLagrangian(step, maxIterations), Knobs(initialLambda, initialMu, 0, 0, 0.0, 0.0, numReads)))
  }

  /** `Linear.__init__`: accepts every input; mu keeps the base class's 0. */
  function LinearSetup(initialLambda: real, lambdaMaxIterations: int, lambdaStep: real, numReads: int): (r: Setup)
    ensures r.policy == Linear(lambdaStep, lambdaMaxIterations)
    ensures r.knobs == Knobs(initialLambda, 0.0, 0, 0, 0.0, 0.0, numReads)
  {
    Setup(Linear(lambdaStep, lambdaMaxIterations), Knobs(initialLambda, 0.0, 0, 0, 0.0, 0.0, numReads))
  }

  /** `ProposedAlgorithm.__init__`: raises `ValueError` when the bracket is
      empty, initial_lambda_min > initial_lambda_max (the message of the
      source states the condition the other way round). */
  function ProposedSetup(initialLambda: real, lambdaMin: real, lambdaMax: real, lambdaMaxIterations: int,
                         muStep: real, muMaxIterations: int, muNumReads: int, numReads: int): (r: Result<Setup>)
    ensures r.Failure? <==> lambdaMin > lambdaMax
    ensures r.Failure? ==> r.error == "ValueError"
    ensures r.Success? ==> r.value.policy == Proposed(lambdaMaxIterations, muStep, muMaxIterations, muNumReads)
    ensures r.Success? ==> r.value.knobs == Knobs(initialLambda, 0.0, 0, 0, lambdaMin, lambdaMax, numReads)
  {
    if lambdaMin > lambdaMax then Failure("ValueError")
    else Success(Setup(Proposed(lambdaMaxIterations, muStep, muMaxIterations, muNumReads),
                       Knobs(initialLambda, 0.0, 0, 0, lambdaMin, lambdaMax, numReads)))
  }

  /** `QuadraticPenalty.__init__`: accepts every input; lambda is 0. */
  function QuadraticPenaltySetup(initialMu: real, step: real, muMaxIterations: int, numReads: int): (r: Setup)
    ensures r.policy == QuadraticPenalty(step, muMaxIterations)
    ensures r.knobs == Knobs(0.0, initialMu, 0, 0, 0.0, 0.0, numReads)
  {
    Setup(QuadraticPenalty(step, muMaxIterations), Knobs(0.0, initialMu, 0, 0, 0.0, 0.0, numReads))
  }

  /** `update_lambda_mu(obs)` of each policy, obs being the cardinality of
      the previous sample (None before the first one). */
  function Advance(p: Policy, s: Knobs, k: int, obs: Option<int>): Update
  {
    match p
    case AugmentedLagrangian(step, maxIterations) =>
      if obs.None? then Update(true, s.(iterations := s.iterations + 1))
      else if s.iterations < maxIterations then
        Update(true, s.(lambda := s.lambda + s.mu * (k - obs.value) as real, mu := s.mu * step,
                        iterations := s.iterations + 1))
      else Update(false, s)
    case Linear(lambdaStep, lambdaMaxIterations) =>
      if obs.None? then Update(true, s.(iterations := s.iterations + 1))
      else if s.iterations < lambdaMaxIterations then
        Update(true, s.(lambda := s.lambda + lambdaStep * (k - obs.value) as real, iterations := s.iterations + 1))
      else Update(false, s)
    case QuadraticPenalty(step, muMaxIterations) =>
      if obs.None? then Update(true, s.(iterations := s.iterations + 1))
      else if s.iterations < muMaxIterations then
        Update(true, s.(mu := s.mu + step, iterations := s.iterations + 1))
      else Update(false, s)
    case Proposed(lambdaMaxIterations, muStep, muMaxIterations, muNumReads) =>
      if s.iterations < lambdaMaxIterations then
        if obs.None? then Update(true, s.(iterations := s.iterations + 1))
        else Update(true, Bisect(s, k, obs.value).(iterations := s.iterations + 1))
      else if s.muIterations < muMaxIterations then
        Update(true, s.(numReads := muNumReads, mu := s.mu + muStep, muIterations := s.muIterations + 1))
      else Update(false, s)
  }

  /** The bisection step of the proposed algorithm: too many nodes move the
      upper end of the bracket to lambda, too few the lower end, and a miss
      puts lambda at the midpoint of the new bracket. */
  function Bisect(s: Knobs, k: int, c: int): Knobs
  {
    var hi := if c > k then s.lambda else s.lambdaMax;
    var lo := if c < k then s.lambda else s.lambdaMin;
    s.(lambdaMax := hi, lambdaMin := lo, lambda := if c != k then (lo + hi) / 2.0 else s.lambda)
  }

  /** How many more times `update_lambda_mu` can return True. */
  function Remaining(p: Policy, s: Knobs, obs: Option<int>): nat
  {
    match p
    case AugmentedLagrangian(_, maxIterations) => Counted(maxIterations, s.iterations, obs)
    case Linear(_, lambdaMaxIterations) => Counted(lambdaMaxIterations, s.iterations, obs)
    case QuadraticPenalty(_, muMaxIterations) => Counted(muMaxIterations, s.iterations, obs)
    case Proposed(lambdaMaxIterations, _, muMaxIterations, _) =>
      Max0(lambdaMaxIterations - s.iterations) + Max0(muMaxIterations - s.muIterations)
  }

  /** A counter that the first call bumps unconditionally and later calls
      bump while it is below its maximum. */
  function Counted(maxIterations: int, iterations: int, obs: Option<int>): nat
  {
    if obs.None? then 1 + Max0(maxIterations - (iterations + 1)) else Max0(maxIterations - iterations)
  }

  /** A False answer changes nothing, and it comes exactly when the budget is
      spent; a True answer spends one unit of the budget, whatever the next
      sample turns out to be. */
  lemma {:induction false} AdvanceSpendsBudget(p: Policy, s: Knobs, k: int, obs: Option<int>, next: int)
    ensures !Advance(p, s, k, obs).go ==> Advance(p, s, k, obs).knobs == s
    ensures !Advance(p, s, k, obs).go <==> Remaining(p, s, obs) == 0
    ensures Advance(p, s, k, obs).go ==> Remaining(p, Advance(p, s, k, obs).knobs, Some(next)) == Remaining(p, s, obs) - 1
  {
    match p
    case AugmentedLagrangian(_, _) =>
    case Linear(_, _) =>
    case QuadraticPenalty(_, _) =>
    case Proposed(_, _, _, _) =>
      if s.iterations < p.lambdaMaxIterations && obs.Some? {
        assert Advance(p, s, k, obs).knobs.muIterations == s.muIterations;
      }
  }

  /** From a fresh solver, `update_lambda_mu` answers True at most
      max(1, max_iterations) times for the three single-counter policies and
      max(0, lambda_max_iterations) + max(0, mu_max_iterations) times for the
      proposed algorithm. */
  lemma {:induction false} InitialBudget(p: Policy, s: Knobs)
    requires s.iterations == 0 && s.muIterations == 0
    ensures Remaining(p, s, None) == match p
      case AugmentedLagrangian(_, m) => if m > 1 then m else 1
      case Linear(_, m) => if m > 1 then m else 1
      case QuadraticPenalty(_, m) => if m > 1 then m else 1
      case Proposed(l, _, m, _) => Max0(l) + Max0(m)
  {
  }

  /** The first call, before any sample, only bumps the counter (for the
      proposed algorithm: while the lambda budget lasts). */
  lemma {:induction false} FirstCallOnlyCounts(p: Policy, s: Knobs, k: int)
    requires !p.Proposed? || s.iterations < p.lambdaMaxIterations
    ensures Advance(p, s, k, None) == Update(true, s.(iterations := s.iterations + 1))
  {
  }

  /** The linear and augmented Lagrangian updates move lambda toward the
      target: up when the sample had fewer than k nodes, down when it had
      more, provided the step (the current mu) is positive. */
  lemma {:induction false} LambdaMovesTowardTarget(p: Policy, s: Knobs, k: int, c: int)
    requires p.Linear? || p.AugmentedLagrangian?
    requires p.Linear? ==> p.lambdaStep > 0.0
    requires p.AugmentedLagrangian? ==> s.mu > 0.0
    requires Advance(p, s, k, Some(c)).go
    ensures c < k ==> Advance(p, s, k, Some(c)).knobs.lambda > s.lambda
    ensures c > k ==> Advance(p, s, k, Some(c)).knobs.lambda < s.lambda
    ensures c == k ==> Advance(p, s, k, Some(c)).knobs.lambda == s.lambda
  {
    var d := (k - c) as real;
    if p.Linear? {
      assert Advance(p, s, k, Some(c)).knobs.lambda == s.lambda + p.lambdaStep * d;
      if c < k { assert p.lambdaStep * d > 0.0; }
      if c > k { assert p.lambdaStep * d < 0.0; }
    } else {
      assert Advance(p, s, k, Some(c)).knobs.lambda == s.lambda + s.mu * d;
      if c < k { assert s.mu * d > 0.0; }
      if c > k { assert s.mu * d < 0.0; }
    }
  }

  /** The augmented Lagrangian multiplies mu by its step, so a positive mu
      stays positive under a positive step. */
  lemma {:induction false} MuStaysPositive(p: Policy, s: Knobs, k: int, obs: Option<int>)
    requires p.AugmentedLagrangian? && s.mu > 0.0 && p.step > 0.0
    ensures Advance(p, s, k, obs).knobs.mu > 0.0
  {
    if obs.Some? && s.iterations < p.maxIterations {
      assert Advance(p, s, k, obs).knobs.mu == s.mu * p.step;
    }
  }

  /** The quadratic penalty never touches lambda, and the linear and proposed
      policies never touch mu while lambda is tuned. */
  lemma {:induction false} UntouchedParameters(p: Policy, s: Knobs, k: int, obs: Option<int>)
    ensures p.QuadraticPenalty? ==> Advance(p, s, k, obs).knobs.lambda == s.lambda
    ensures p.Linear? ==> Advance(p, s, k, obs).knobs.mu == s.mu
    ensures p.Proposed? && s.iterations < p.lambdaMaxIterations ==> Advance(p, s, k, obs).knobs.mu == s.mu
    ensures p.Proposed? && s.iterations >= p.lambdaMaxIterations ==>
      Advance(p, s, k, obs).knobs.lambda == s.lambda && Advance(p, s, k, obs).knobs.lambdaMin == s.lambdaMin
      && Advance(p, s, k, obs).knobs.lambdaMax == s.lambdaMax
  {
  }

  /** After the lambda budget the proposed algorithm raises mu by its step and
      switches the sampler to mu_num_reads, until the mu budget is spent. */
  lemma {:induction false} ProposedMuPhase(p: Policy, s: Knobs, k: int, obs: Option<int>)
    requires p.Proposed? && s.iterations >= p.lambdaMaxIterations && s.muIterations < p.muMaxIterations
    ensures Advance(p, s, k, obs).go
    ensures Advance(p, s, k, obs).knobs.mu == s.mu + p.muStep
    ensures Advance(p, s, k, obs).knobs.numReads == p.muNumReads
    ensures Advance(p, s, k, obs).knobs.muIterations == s.muIterations + 1
  {
  }

  /** lambda lies in the bracket [lambdaMin, lambdaMax]. */
  predicate Bracketed(s: Knobs)
  {
    s.lambdaMin <= s.lambda <= s.lambdaMax
  }

  /** A bisection step keeps lambda in the bracket and never widens it; too
      many nodes never raise lambda and too few never lower it. */
  lemma {:induction false} BisectNarrows(s: Knobs, k: int, c: int)
    requires Bracketed(s)
    ensures Bracketed(Bisect(s, k, c))
    ensures s.lambdaMin <= Bisect(s, k, c).lambdaMin && Bisect(s, k, c).lambdaMax <= s.lambdaMax
    ensures c > k ==> Bisect(s, k, c).lambda <= s.lambda && Bisect(s, k, c).lambdaMax == s.lambda
    ensures c < k ==> Bisect(s, k, c).lambda >= s.lambda && Bisect(s, k, c).lambdaMin == s.lambda
    ensures c == k ==> Bisect(s, k, c) == s
  {
  }

  /** Once lambda is the midpoint of the bracket, each miss halves the
      bracket and keeps lambda at its midpoint. */
  lemma {:induction false} BisectHalves(s: Knobs, k: int, c: int)
    requires s.lambda == (s.lambdaMin + s.lambdaMax) / 2.0 && c != k
    ensures Bisect(s, k, c).lambdaMax - Bisect(s, k, c).lambdaMin == (s.lambdaMax - s.lambdaMin) / 2.0
    ensures Bisect(s, k, c).lambda == (Bisect(s, k, c).lambdaMin + Bisect(s, k, c).lambdaMax) / 2.0
  {
  }

  /** The state every run of the proposed algorithm keeps: lambda stays in the
      bracket, which never leaves the initial one. */
  lemma {:induction false} ProposedKeepsBracket(p: Policy, s: Knobs, k: int, obs: Option<int>)
    requires p.Proposed? && Bracketed(s)
    ensures Bracketed(Advance(p, s, k, obs).knobs)
    ensures s.lambdaMin <= Advance(p, s, k, obs).knobs.lambdaMin
    ensures Advance(p, s, k, obs).knobs.lambdaMax <= s.lambdaMax
  {
    if s.iterations < p.lambdaMaxIterations && obs.Some? {
      BisectNarrows(s, k, obs.value);
    }
  }
}
