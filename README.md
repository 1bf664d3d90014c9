# BiqBinParallel core, modelled in Dafny

BiqBinParallel solves max-cut and QUBO (quadratic unconstrained binary
optimisation) problems by branch and bound, with Python drivers and
heuristics on top of a C bounding routine. This project models the
following parts of it and proves properties of them.

- **The k-sparsest-subgraph and maximum-independent-set algorithms** of
  `algorithms.py`:
  - the QUBO matrices `QuboTriU` and `QuboSym`;
  - the sampler wrapper;
  - the shared `Algorithm.compute` loop with its record keeping;
  - the four multiplier-update policies (augmented Lagrangian, linear
    Lagrangian, the proposed bisection method, quadratic penalty), each
    with its constructor checks and its `compute` result;
  - `MaxIndependentSet`;
  - `greedy`;
  - `relabel_subgraph_nodes`.
- **The QUBO / max-cut conversions** of `qubo_helper_functions.py` and
  `biqbin_base.py`:
  - QUBO to a max-cut adjacency matrix;
  - adjacency to the Laplacian-like matrix the branch and bound uses;
  - a max-cut solution back to a QUBO solution, and the report `run`
    builds from it.
- **The operators of `operators.c`**:
  - `diag` and `Diag`;
  - the cutting-plane operator `op_B` over triangle, pentagonal and
    heptagonal inequalities;
  - its adjoint `op_Bt`.

  These work on n x n matrices stored flat, with entry (a, b) at
  `a + b*n`.
- **The node heuristics**:
  - the merge loop and `evaluate_solution` of `biqbin_heuristic.py`;
  - `custom_sa` and the two QUBO heuristics of
    `biqbin_heuristic_tabu_sampler.py`.

Modules, one file each:

| module | contents |
|---|---|
| `Sums` | finite sums and double sums over reals and their algebra |
| `Matrices` | matrices as `seq<seq<real>>`, `QuadForm` (x^T Q x), 0/1 vectors |
| `Qubo` | `QuboTriU` and `QuboSym` |
| `Graphs` | graphs as a node sequence (networkx insertion order) and an edge set |
| `Greedy` | `greedy` on graphs |
| `Sampling` | `Sampler` |
| `Tracking` | the record updates |
| `Tuning` | the four policies' setup and `update_lambda_mu` as pure functions |
| `Controller` | `Algorithm` as a class |
| `Independence` | `MaxIndependentSet` as a class |
| `MaxCut` | the conversions |
| `Operators` | `operators.c` |
| `Heuristics` | the heuristics |
| `Wrappers` | `Option` and `Result` |

Exceptions are `Failure` values that carry the Python exception's name.

The loops stay loops:

- `diag`, `Diag`, `op_B` and `op_Bt` are methods over arrays.
- The heuristics' merge loop, `evaluate_solution` and `custom_sa` are
  methods.
- `greedy`'s removal loop is a method.
- `Algorithm.compute` and `MaxIndependentSet.compute` are methods of their
  classes.

Each loop is proved against a specification function:

- the adjoint identity for `op_Bt`;
- that `custom_sa` returns the lowest-energy state it visited;
- that the merged vector is the fixed entries plus the sampler's
  entries, in order.

Three things the code does that differ from what its comments suggest:

- **Types outside the documented range.** For a pentagonal type outside
  1-3, `op_B` treats the cut as type 3 (its `default` branch,
  `operators.c:98`). `op_Bt` has no `default` there and adds nothing. The
  heptagonal loops behave the same way. So `op_Bt` is the adjoint of `op_B`
  only on the documented types (`biqbin.h:86, 94, 103`).
  `Operators.UndocumentedKind` states the mismatch, and `Operators.BtAdjoint`
  assumes the documented types.
- **The wrong error message.** The `ValueError` message of the proposed
  method says `lambda_min must be greater than lambda_max`. The check that
  raises it (`algorithms.py:703`) fires when `lambda_min > lambda_max`.
- **The average degree.** `greedy`'s docstring promises the average
  degree, which is 2E/N. The code computes `E/N/2` (`algorithms.py:1037`),
  a quarter of that. `Greedy.Greedy` returns the value as written.

## Model

| member | source | states |
|---|---|---|
| Qubo.TriU | algorithms.py:227-229 | strictly upper entries are adjacency plus mu, lower entries 0, diagonal -l + mu/2 - mu k |
| Qubo.Sym | algorithms.py:275-276 | the symmetrised matrix is symmetric |
| Qubo.SymSameObjective | algorithms.py:275-276 | symmetrising does not change x^T Q x |
| Qubo.TriUEdgesAndPenalty | algorithms.py:227-229 | x^T Q x splits into the edges inside x plus the mu/lambda penalty terms |
| Qubo.PenaltyOfBinary | algorithms.py:229 | on a 0/1 vector the penalty part is a closed form in its cardinality |
| Qubo.TriUObjective | algorithms.py:227-229 | on a 0/1 vector the objective is inner edges plus the cardinality penalty |
| Qubo.SymObjective | algorithms.py:264-278 | the same objective for `QuboSym` |
| Sampling.Respond | algorithms.py:319-327 | a response carries the sample, its energy x^T Q x and its cardinality |
| Sampling.RespondObjective | algorithms.py:319-327 | the response value is inner edges plus penalty; cardinality is within 0..n |
| Sampling.Sampler.constructor | algorithms.py:303-307 | stores the sampler and num_reads |
| Sampling.Sampler.Compute | algorithms.py:308-327 | answers the response to the sampler's sample for Q and num_reads; num_reads unchanged |
| Sampling.Sampler.SetNumReads | algorithms.py:329-335 | sets num_reads and nothing else |
| Tracking.Track | algorithms.py:407-415 | a response replaces the record if and only if it reaches k and is below the record (or there is none) |
| Tracking.TrackAllExists | algorithms.py:407-418 | no record after a run if and only if no response reached k (the DidNotConverge case) |
| Tracking.TrackAllMinimal | algorithms.py:407-415 | the record reaches k and is the smallest cardinality among responses that reach k |
| Tracking.TrackAllEarliest | algorithms.py:407-415 | the record is the first response with that smallest cardinality |
| Tracking.TrackAllImproves | algorithms.py:407-415 | the record's cardinality never increases as responses arrive |
| Tracking.TrackMax | algorithms.py:957-960 | after one response there is always a record |
| Tracking.TrackMaxAllMaximal | algorithms.py:957-960 | a record exists if and only if there was a response, and it has the largest cardinality |
| Tracking.TrackMaxAllEarliest | algorithms.py:957-960 | the record is the first response of the largest cardinality (strict comparison) |
| Tuning.AugmentedLagrangianSetup | algorithms.py:487-500 | ValueError exactly when initial_mu <= 0; otherwise the initial multipliers and counters |
| Tuning.LinearSetup | algorithms.py:594-605 | the linear policy's initial state |
| Tuning.ProposedSetup | algorithms.py:697-717 | ValueError exactly when lambda_min > lambda_max; otherwise the initial bracket and counters |
| Tuning.QuadraticPenaltySetup | algorithms.py:814-821 | lambda 0, the initial mu and counters |
| Tuning.AdvanceSpendsBudget | algorithms.py:513-524 | update_lambda_mu answers False exactly when the iteration budget is spent, then changes nothing; each True spends one unit |
| Tuning.Advance | algorithms.py:512-524 | `update_lambda_mu(k)` of all four policies; the other bodies are algorithms.py:618-625, 733-755 and 852-859. A specification function: its properties are the Tuning lemmas named below |
| Tuning.Remaining | algorithms.py:512-524 | how many more times `update_lambda_mu` can answer True; `Tuning.AdvanceSpendsBudget` and `Tuning.InitialBudget` state what it means |
| Tuning.InitialBudget | algorithms.py:513-524 | the total budget of each policy: max_iterations (at least one call), or both phases for the proposed method |
| Tuning.FirstCallOnlyCounts | algorithms.py:513-516 | the first call (no cardinality yet) only advances the counter and answers True |
| Tuning.LambdaMovesTowardTarget | algorithms.py:618-625 | lambda rises when the cardinality is below k, falls when above, stays on k |
| Tuning.MuStaysPositive | algorithms.py:518-523 | with a positive step, the augmented Lagrangian's mu stays positive |
| Tuning.UntouchedParameters | algorithms.py:849-859 | each policy leaves the multiplier it does not tune alone |
| Tuning.ProposedMuPhase | algorithms.py:748-755 | after the lambda phase, mu grows by mu_step and num_reads switches to mu_num_reads |
| Tuning.BisectNarrows | algorithms.py:737-742 | a bisection step keeps a bracket inside the old one, on the side the cardinality points to |
| Tuning.BisectHalves | algorithms.py:737-742 | a bisection step from the midpoint halves the bracket and lands on its new midpoint |
| Tuning.Bisect | algorithms.py:737-742 | the proposed method's bracket update; `Tuning.BisectNarrows`, `Tuning.BisectHalves` and `Tuning.ProposedKeepsBracket` state its properties |
| Tuning.ProposedKeepsBracket | algorithms.py:732-746 | the proposed update keeps lambda_min <= lambda <= lambda_max and never widens the bracket |
| Controller.Algorithm.Qubo | algorithms.py:401 | the QUBO of the current lambda, mu and k is n x n |
| Controller.Algorithm.constructor | algorithms.py:370-392 | the relabelled graph, no cardinality yet, no record, greedy unused |
| Controller.Algorithm.UpdateLambdaMu | algorithms.py:503-524 | the policy update on the object's fields, nothing else changes |
| Controller.Algorithm.ProposedUpdate | algorithms.py:719-755 | the proposed method's update on the fields, including the sampler's num_reads |
| Controller.Algorithm.Record | algorithms.py:403-415 | the last cardinality and the record update |
| Controller.Algorithm.Sample | algorithms.py:401-415 | one QUBO, one sampler call, one response recorded |
| Controller.Algorithm.Step | algorithms.py:400-403 | a round that samples spends one unit of budget and makes exactly one sampler call; one that does not changes nothing |
| Controller.Algorithm.Iterate | algorithms.py:400-415 | the loop makes one sampler call per observed sample, at most the budget's, and stops at cardinality k or a spent budget |
| Controller.Algorithm.Fallback | algorithms.py:636-645 | the linear policy's greedy fallback on the record's induced subgraph; k nodes on success |
| Controller.Algorithm.Compute | algorithms.py:394-422 | DidNotConverge without a record, or when a non-linear policy misses k; otherwise the record and its induced subgraph (or greedy's); one sampler call per observed sample, at most the remaining budget |
| Greedy.Heaviest | algorithms.py:1031-1032 | the first node of the degree sequence sorted as (degree, node) descending is a node |
| Greedy.HeaviestIsHeaviest | algorithms.py:1031-1032 | that node has the largest (degree, node) pair, and it is unique |
| Greedy.HighestIsMax | algorithms.py:1031 | the sort's first element is at least every other |
| Greedy.MaximumDegree | algorithms.py:1035-1036 | dmax is the maximum degree |
| Greedy.Trim | algorithms.py:1030-1033 | m rounds remove m distinct nodes |
| Greedy.TrimWellFormed | algorithms.py:1030-1033 | the trimmed graph is still simple and undirected |
| Greedy.TrimInduced | algorithms.py:1027-1033 | the trimmed graph is an induced subgraph of the input |
| Greedy.RemoveNode | algorithms.py:1031-1033 | one loop round removes the heaviest node |
| Greedy.RemoveHeaviest | algorithms.py:1030-1033 | the loop leaves the graph trimmed by that many rounds |
| Greedy.Rounds | algorithms.py:1030 | the number of rounds `for i in range(n - k)` runs, 0 when k >= n |
| Greedy.Greedy | algorithms.py:1027-1039 | fails on k <= 0 or an empty graph; otherwise min(n, k) nodes, their maximum degree and E/N/2 as written (a quarter of the average degree the docstring promises) |
| Graphs.Relabel | algorithms.py:1051-1063 | KeyError exactly when a node is unmapped; otherwise the nodes are the distinct images and the edges the images of the edges, and a map that is one-to-one on the nodes maps them position by position |
| Graphs.RelabelMerges | algorithms.py:1063 | two adjacent nodes sent to one label merge into one node with a self-loop |
| Graphs.RelabelRoundTrip | algorithms.py:1051-1063 | relabelling with a map and then its inverse gives back the graph |
| Graphs.RelabelWellFormed | algorithms.py:1051-1063 | relabelling by an injective map keeps a graph simple and undirected |
| Graphs.Dedup | algorithms.py:1063 | the node order `relabel_nodes` produces when images collide: no repetitions and exactly the same elements, and the identity on a sequence without repetitions (`Graphs.DedupDistinct`) |
| Graphs.DedupDistinct | algorithms.py:1063 | without colliding images the node order is kept as it is |
| Graphs.Mapped | algorithms.py:1052 | the image of the node sequence under the mapping, position by position |
| Graphs.ConvertLabelled | algorithms.py:383 | convert_node_labels_to_integers labels nodes 0..n-1 in order |
| Graphs.Convert | algorithms.py:383 | `convert_node_labels_to_integers`; `Graphs.ConvertLabelled` and `Graphs.ConvertRoundTrip` state its properties |
| Graphs.ConvertRoundTrip | algorithms.py:381-383 | the stored original labels turn the converted graph back into the input |
| Graphs.Induced | algorithms.py:420 | the induced subgraph keeps exactly the chosen nodes and the edges between them |
| Graphs.Selected | algorithms.py:420 | argwhere(x == 1) is exactly the positions holding 1 |
| Graphs.SelectedSize | algorithms.py:420 | the induced subgraph of a 0/1 sample has as many nodes as its cardinality |
| Graphs.InducedWellFormed | algorithms.py:420 | an induced subgraph is simple and undirected |
| Graphs.Remove | algorithms.py:1033 | remove_node drops the node and its edges |
| Graphs.RemoveWellFormed | algorithms.py:1033 | removal keeps the graph simple and drops one node |
| Graphs.Adjacency | algorithms.py:211 | entry (i, j) is 1 exactly on edges |
| Graphs.AdjacencySymmetric | algorithms.py:211 | the adjacency matrix is symmetric with a zero diagonal |
| Graphs.IndependentInduced | algorithms.py:968-969 | the graph induced by an independent set has no edges |
| Graphs.NoEdges | algorithms.py:966 | number_of_edges() == 0 exactly when there are no edges |
| Independence.IndependenceObjective | algorithms.py:948 | with mu = k = 0 the objective is inner edges minus lambda times the cardinality |
| Independence.Final | algorithms.py:962-973 | the graph `compute` ends with: the record's subgraph, or the heuristic's set induced in it when that has edges; `Independence.FinalEdgeless` states when it is edgeless |
| Independence.FinalEdgeless | algorithms.py:966-973 | the final graph has no edges when the heuristic returns an independent set |
| Independence.MaxIndependentSet.constructor | algorithms.py:907-920 | the relabelled graph, the bracket, no lambda and no record |
| Independence.MaxIndependentSet.New | algorithms.py:910-911 | ValueError exactly unless 0 <= lambda_min <= lambda_max <= 1 |
| Independence.MaxIndependentSet.DrawnInBracket | algorithms.py:938-941 | every random lambda lies in the bracket |
| Independence.MaxIndependentSet.UpdateLambda | algorithms.py:937-944 | True exactly while iterations remain; the first lambda is the given one, later ones are drawn |
| Independence.MaxIndependentSet.Sample | algorithms.py:948-960 | one QUBO with mu = k = 0, one response, the strictly-larger record; one sampler call, num_reads kept |
| Independence.MaxIndependentSet.Step | algorithms.py:947-960 | a round samples exactly while iterations remain, with one sampler call when it does and none otherwise; num_reads kept |
| Independence.MaxIndependentSet.Compute | algorithms.py:946-980 | exactly max_iterations samples; AttributeError when there are none; otherwise the record and the final graph; one sampler call per observed sample, num_reads kept |
| Independence.MaxIndependentSet.Finish | algorithms.py:962-973 | the induced subgraph, sent to the heuristic exactly when it has edges |
| MaxCut.ToMaxCut | qubo_helper_functions.py:6-14 | an (n+1) x (n+1) matrix built from the QUBO's symmetric part; what it means is stated by `MaxCut.ToMaxCutShape` (symmetric, zero diagonal, the row-sum border) and `MaxCut.CutOfQubo` (the cut value is -x^T Q x) |
| MaxCut.ToMaxCutShape | biqbin_base.py:75-82 | symmetric, zero diagonal, minus row sums on the border, off-diagonal symmetric part inside |
| MaxCut.CutOfQubo | qubo_helper_functions.py:6-14 | the cut of x's side (node 0 on the other side) is minus x^T Q x |
| MaxCut.CutComplement | qubo_helper_functions.py:48 | swapping the two sides of a cut keeps its value |
| MaxCut.ToLaplacian | qubo_helper_functions.py:17-41 | fails on an empty matrix, at the first write into the last column (`L[:-1, -1] = sum_row`); otherwise an n x n matrix with the computed entries; what they mean is stated by `MaxCut.LaplacianBlock` (Diag(Ae) - A), `MaxCut.LaplacianBorder` (row sums and their total), `MaxCut.LaplacianSymmetric` and `MaxCut.LaplacianCut` (x^T L x is the cut) |
| MaxCut.LaplacianBlock | qubo_helper_functions.py:24-30 | the leading block is Diag(Adj e) - Adj |
| MaxCut.LaplacianBorder | qubo_helper_functions.py:33-39 | the last row and column hold the block's row sums, the corner their total |
| MaxCut.LaplacianSymmetric | qubo_helper_functions.py:33-39 | a symmetric adjacency gives a symmetric matrix |
| MaxCut.LaplacianCut | qubo_helper_functions.py:30 | the leading block's x^T L x is the cut of x with the last node on the other side |
| MaxCut.ToQuboSolution | qubo_helper_functions.py:44-51 | IndexError exactly when n == 0 (`x_mc_sol[0]`) or a listed node is out of range; otherwise n-1 entries |
| MaxCut.QuboSolutionSides | qubo_helper_functions.py:45-51 | entry i is 1 exactly when node i+1 is on the other side from node 0 |
| MaxCut.QuboSolutionComplement | qubo_helper_functions.py:47-48 | listing either side of the cut gives the same QUBO solution |
| MaxCut.QuboValueOfCut | biqbin_base.py:97-102 | the converted solution's x^T Q x is minus the cut's value |
| MaxCut.OnesPositions | biqbin_base.py:103 | nonzero(y) + 1 lists the 1-based positions of the ones, ascending |
| MaxCut.SolutionForQubo | biqbin_base.py:84-104 | IndexError exactly when a node is out of range; otherwise a QUBO vector of n entries |
| MaxCut.MatVecDot | biqbin_base.py:123 | Q.dot(x).dot(x) is x^T Q x |
| MaxCut.RunReport | biqbin_base.py:114-127 | a non-master rank reports nothing; the master reports the max-cut result, the QUBO vector, its ones and the QUBO value, equal to minus the cut |
| MaxCut.Run | biqbin_base.py:114-127 | `run()` after the solver has produced its result; `MaxCut.RunReport` states its outcome |
| Operators.AtInjective | operators.c:28-33 | distinct (row, column) pairs occupy distinct flat positions |
| Operators.DiagonalRoundTrip | operators.c:14-36 | diag(Diag(y)) == y, and Diag(diag(X)) == X for a diagonal X |
| Operators.ExtractDiagonal | operators.c:14-19 | y[..n] is the diagonal of X; the rest of y unchanged |
| Operators.MakeDiagonal | operators.c:26-36 | X becomes the diagonal matrix of y |
| Operators.PairsInOrder | operators.c:66-128 | each sum runs once over every pair of the cut's vertices, in lexicographic order |
| Operators.SignsFromSignature | operators.c:92-128 | the sign of each pair in op_B is the product of the vertices' signs in the type's vector e (H = ee^T) |
| Operators.SignsNegated | operators.c:140-480 | op_Bt adds each pair's entry with the sign opposite to op_B's |
| Operators.BSign | operators.c:64-128 | the sign table of op_B's switch; `Operators.SignsFromSignature` and `Operators.UndocumentedKind` state what it is |
| Operators.BtSign | operators.c:156-478 | the sign table of op_Bt's switch; `Operators.SignsNegated` ties it to op_B's |
| Operators.UndocumentedKind | operators.c:98 | an undocumented type counts as the last documented one in op_B, while op_Bt adds nothing |
| Operators.Rows | operators.c:55-131 | triangles first, then pentagonal, then heptagonal rows, at offsets NIneq and NIneq + NPentIneq |
| Operators.OpB | operators.c:51-131 | y[r] decreases by row r's form of X; entries past the rows unchanged |
| Operators.SubtractForms | operators.c:57-131 | one loop of op_B on its rows |
| Operators.Form | operators.c:57-131 | row r of B(X): the family's factor times the signed pair sum, as `Operators.OpB` subtracts it |
| Operators.OpBt | operators.c:140-480 | X becomes the result of applying every row's update in order |
| Operators.ApplyRows | operators.c:147-478 | one loop of op_Bt on its rows |
| Operators.Stage | operators.c:147-478 | X after the rows before r, as `Operators.ApplyRows` and `Operators.BtAdjoint` use it |
| Operators.ApplyRow | operators.c:154-190 | one row's updates at the pair positions and their mirrors |
| Operators.SpreadInPlace | operators.c:159-164 | the signed temp added at each listed position |
| Operators.RowKeepsSymmetry | operators.c:159-164 | one row's update keeps X symmetric |
| Operators.BtKeepsSymmetry | operators.c:140-480 | op_Bt keeps a symmetric X symmetric |
| Operators.RowAdjoint | operators.c:39-44 | for one documented row, <Y, X - Bt_r(t)> == <Y, X> - t B_r(Y) on symmetric Y |
| Operators.BtAdjoint | operators.c:140-480 | <Y, X - Bt(t)> == <Y, X> - sum_r t_r B_r(Y): op_Bt is the adjoint of op_B |
| Heuristics.Merge | biqbin_heuristic.py:43-49 | x becomes the merged vector; j ends at the number of free entries |
| Heuristics.MergedCharacterised | biqbin_heuristic.py:43-49 | a vector is the merge exactly when fixed entries come from sol_X and free ones are the sampler's first entries in order |
| Heuristics.MergedFreeEntries | biqbin_heuristic.py:44-47 | the free entries of every merged prefix are a prefix of the sampler's result |
| Heuristics.FreeEntriesDetermine | biqbin_heuristic.py:43-47 | the free and fixed entries determine the merge |
| Heuristics.EvaluateSolution | biqbin_heuristic.py:53-67 | the double loop computes x^T L0 x |
| Heuristics.SamplerHeuristic | biqbin_heuristic.py:21-51 | x becomes the merge of the sampler's answer for -L; returns x^T L0 x |
| Heuristics.RowTimesIsRowDot | biqbin_heuristic_tabu_sampler.py:40 | Q[i, :] @ x is the row dot product |
| Heuristics.EnergyIsQuadForm | biqbin_heuristic_tabu_sampler.py:28 | x @ Q @ x is x^T Q x |
| Heuristics.Energy | biqbin_heuristic_tabu_sampler.py:28 | `x @ Q @ x` row by row; `Heuristics.EnergyIsQuadForm` says it is x^T Q x |
| Heuristics.Delta | biqbin_heuristic_tabu_sampler.py:39-40 | the computed energy change; `Heuristics.DeltaIsEnergyChange` says it is exact on symmetric Q |
| Heuristics.DeltaIsEnergyChange | biqbin_heuristic_tabu_sampler.py:39-40 | on symmetric Q, delta is exactly the energy change of flipping bit i |
| Heuristics.StateBinary | biqbin_heuristic_tabu_sampler.py:42-45 | every visited state is 0/1 |
| Heuristics.RunningIsEnergy | biqbin_heuristic_tabu_sampler.py:42-45 | the running energy stays equal to the current state's x^T Q x |
| Heuristics.State | biqbin_heuristic_tabu_sampler.py:36-45 | the vector after k iterations; `Heuristics.StateBinary` keeps it 0/1 |
| Heuristics.Running | biqbin_heuristic_tabu_sampler.py:42-45 | `energy` after k iterations; `Heuristics.RunningIsEnergy` ties it to State |
| Heuristics.BestIndexMinimal | biqbin_heuristic_tabu_sampler.py:47-49 | the record has the lowest running energy so far, and is the first to reach it |
| Heuristics.BestIndex | biqbin_heuristic_tabu_sampler.py:47-49 | the iteration whose vector `best_solution` holds; `Heuristics.BestIndexMinimal` says it is the first with the lowest running energy |
| Heuristics.BestNonIncreasing | biqbin_heuristic_tabu_sampler.py:30-31 | best_energy never increases and is never above the current energy |
| Heuristics.BestMinimisesEnergy | biqbin_heuristic_tabu_sampler.py:47-49 | the record's x^T Q x is at most every visited state's |
| Heuristics.TemperatureBound | biqbin_heuristic_tabu_sampler.py:51 | T stays within [0, T0] and shrinks geometrically |
| Heuristics.CoolingEnds | biqbin_heuristic_tabu_sampler.py:36 | after the cooling count, T is below final_temp |
| Heuristics.StepsCharacterised | biqbin_heuristic_tabu_sampler.py:36-55 | the loop runs while T >= final_temp, up to max_iter (at least one iteration) |
| Heuristics.StepsFromHot | biqbin_heuristic_tabu_sampler.py:36-55 | the iteration count from a hot prefix stops at the first cold T or the cap |
| Heuristics.NeverStops | biqbin_heuristic_tabu_sampler.py:36 | a schedule outside `Heuristics.Stops` has no max_iter and never drops below final_temp, so the loop never ends |
| Heuristics.QuickStops | biqbin_heuristic_tabu_sampler.py:36-55 | alpha = 0 ends after one iteration, and a start below final_temp runs none |
| Heuristics.Iterate | biqbin_heuristic_tabu_sampler.py:37-49 | one loop body keeps state, energy and record equal to their specification |
| Heuristics.CustomSA | biqbin_heuristic_tabu_sampler.py:18-57 | fails exactly on an empty Q that is hot enough to draw; otherwise the annealed record |
| Heuristics.Annealed | biqbin_heuristic_tabu_sampler.py:57 | the returned solution has n entries |
| Heuristics.AnnealedBest | biqbin_heuristic_tabu_sampler.py:47-57 | the returned solution is 0/1 with energy at most that of every visited state |
| Heuristics.NegateQuadForm | biqbin_heuristic_tabu_sampler.py:77 | x^T (-Q) x == -(x^T Q x) |
| Heuristics.Trimmed | biqbin_heuristic_tabu_sampler.py:77 | L[:-1, :-1] is the leading (n-1) x (n-1) block |
| Heuristics.PaddedQuadForm | biqbin_heuristic_tabu_sampler.py:89 | appending a 0 keeps x^T L x equal to the trimmed block's value |
| Heuristics.MergedIgnoresTail | biqbin_heuristic_tabu_sampler.py:91-97 | entries past the free count do not affect the merge |
| Heuristics.CustomSAHeuristic | biqbin_heuristic_tabu_sampler.py:62-106 | x becomes the merge of custom_sa's result on -L[:-1, :-1] plus a final 0; returns x^T L0 x |
| Heuristics.TabuHeuristic | biqbin_heuristic_tabu_sampler.py:110-156 | x becomes the merge of the tabu sampler's result on -L[:-1, :-1] plus a final 0; returns x^T L0 x |

## Left out

- Floating point: every `float` and numpy array is an exact real.
  Rounding, `inf` and `nan` are not modelled.
- Randomness is a parameter:
  - `custom_sa`'s initial vector is `x0`;
  - each iteration's `randint(n)` and Metropolis test are one `Draw` in a
    sequence;
  - `MaxIndependentSet`'s `np.random.uniform` is a function of the
    iteration number.
- External samplers and heuristics are functions given to the model:
  - the D-Wave samplers behind `Sampler.compute` are a function of Q,
    num_reads and the call index;
  - the heuristics' `sample_qubo(...).first.sample` is a function of the
    matrix;
  - networkx's `maximum_independent_set` is a function of the graph.

  What these libraries guarantee is not modelled. Where a result depends
  on it (the independent set, the sample's length), the contract takes it
  as a hypothesis.
- MPI, the `solver` extension module that the Python classes call
  (`run`, `default_heuristic`, `get_rank`), file I/O, JSON, logging,
  `print_debug` and printing are not part of this model.
  - `rank` is a parameter of `MaxCut.Run`.
  - The DEBUG-only comparison with `default_heuristic` and the
    `heuristic_counter` increments are left out.
  - `heuristic_counter` is never initialised in the classes shown.
  - `evaluate_solution` is defined only on `MaxCutSimulatedAnnealing`, so
    the QUBO heuristics would raise `AttributeError` there. The model
    evaluates x^T L0 x as that method does.
- Results carry only what later code uses. These are not modelled:
  - `summary`, `__str__` and `did_not_converge_message`;
  - `additional_info`;
  - the sampler's response sets.
- `MaxIndependentSet.compute` with zero iterations reaches `str(self)`
  before `lambdai` exists, and the model returns `AttributeError`. The
  graph computation on that path is not modelled.
- Operators.OpB: indexes outside the matrix read 0.0. The C code reads
  out of bounds (undefined behaviour) there.
- Operators.OpBt: requires every cut's vertices to lie in 0..n-1. The C
  code would write out of bounds otherwise.
- Operators.BtAdjoint: stated for cuts of the documented types only.
  `Operators.UndocumentedKind` covers the other types.
- Heuristics.CustomSA: requires the draws to cover every iteration the
  schedule runs, and every drawn index to be below n. It also requires
  the loop to end (`Heuristics.Stops`): `max_iter` is given, or some
  temperature of the schedule is below final_temp. This includes
  geometric cooling with 0 < alpha < 1 to a positive final_temp,
  alpha = 0, and a start below final_temp. On every other schedule the
  source loops forever (`Heuristics.NeverStops`).
- Heuristics.SamplerHeuristic, Heuristics.TabuHeuristic and
  Heuristics.CustomSAHeuristic require the sample to have at least as
  many entries as there are free variables. The source raises
  `IndexError` otherwise.
- Graphs.Adjacency: graphs are simple and unweighted. `nx.adjacency_matrix` reads
  the edge attribute `weight` (algorithms.py:211, 262), and a self-loop
  would put an entry on the diagonal and count twice in a degree; neither
  is modelled. `Graphs.WellFormed` excludes self-loops, so
  `Graphs.Adjacency` is stated for simple graphs only.
- Controller.Algorithm.constructor and
  Independence.MaxIndependentSet.constructor take graphs whose node labels
  are integers. The relabelling they use (`Graphs.Convert`,
  `Graphs.Relabel`) is generic in the label type.
- Greedy.RemoveHeaviest: requires at most n rounds. `Greedy.Greedy`
  handles k < 0, where the source's own loop would pick from an empty
  graph, as a failure up front, together with k = 0 and the empty graph.
  With k = 0 the source fails at the final `degree_sequence[0]`, and
  with the empty graph it fails at the same place.
- Independence.MaxIndependentSet.constructor: requires the bounds that
  `MaxIndependentSet.New` checks. `New` is the entry point that raises
  `ValueError`.
