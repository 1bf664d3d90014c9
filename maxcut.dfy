/** The translation between a QUBO, min x^T Q x over 0/1 vectors x, and the
    max-cut problem the branch-and-bound solver works on: the weighted graph
    of `qubo_to_maxcut` (also `QUBOSolver._qubo2maxcut`), the Laplacian-like
    matrix of `maxcut_to_L`, and the mapping of a cut, given as its list of
    vertices, back to a QUBO vector and its value (`QUBOSolver.run`). */
module MaxCut {
  import opened Wrappers
  import opened Sums
  import opened Matrices

  // ---------------------------------------------------------------------
  // Cuts

  /** 1 when vertex i is on the marked side of the cut, 0 otherwise. */
  function Indicator(side: seq<bool>, i: int): real
  {
    if 0 <= i < |side| && side[i] then 1.0 else 0.0
  }

  function CutTerms(w: Matrix, side: seq<bool>): (int, int) -> real
  {
    (i, j) => Entry(w, i, j) * Indicator(side, i) * (1.0 - Indicator(side, j))
  }

  /** The weight of the cut: w_ij summed over i on the marked side and j off
      it, so each edge of a symmetric w is counted once. */
  function Cut(w: Matrix, side: seq<bool>): real
  {
    DoubleSum(|side|, |side|, CutTerms(w, side))
  }

  function Complement(side: seq<bool>): (c: seq<bool>)
    ensures |c| == |side| && forall i :: 0 <= i < |side| ==> c[i] == !side[i]
  {
    seq(|side|, i requires 0 <= i < |side| => !side[i])
  }

  /** A cut and its complement have the same weight in a symmetric graph. */
  lemma {:induction false} CutComplement(w: Matrix, side: seq<bool>)
    requires Square(w) && Symmetric(w) && |side| == |w|
    ensures Cut(w, Complement(side)) == Cut(w, side)
  {
    var n, c := |side|, Complement(side);
    SumSwap(n, n, CutTerms(w, side));
    forall i, j | 0 <= i < n && 0 <= j < n
      ensures CutTerms(w, c)(i, j) == Flip(CutTerms(w, side))(i, j)
    {
      var a, b, e := Indicator(side, i), Indicator(side, j), w[i][j];
      assert Indicator(c, i) == 1.0 - a && Indicator(c, j) == 1.0 - b;
      assert CutTerms(w, c)(i, j) == e * (1.0 - a) * (1.0 - (1.0 - b));
      assert Flip(CutTerms(w, side))(i, j) == e * b * (1.0 - a);
    }
    DoubleSumExt(n, n, CutTerms(w, c), Flip(CutTerms(w, side)));
  }

  // ---------------------------------------------------------------------
  // QUBO -> max-cut graph

  /** Entry (i, j) of the max-cut matrix of a QUBO whose symmetric part is s. */
  function MaxCutEntry(s: Matrix, i: int, j: int): real
  {
    if i == 0 && j == 0 then 0.0
    else if i == 0 then -RowSum(s, j - 1, |s|)
    else if j == 0 then -RowSum(s, i - 1, |s|)
    else if i == j then 0.0
    else Entry(s, i - 1, j - 1)
  }

  /** `qubo_to_maxcut(q)`, and `QUBOSolver._qubo2maxcut(q)`, which is the same
      expression: with s = 1/2 (q^T + q), the (n + 1) x (n + 1) matrix
      [[0, -s e], [-(s e)^T, s with its diagonal set to 0]], the row sums s e
      taken before the diagonal is cleared. */
  function ToMaxCut(q: Matrix): (w: Matrix)
    requires Square(q)
    ensures IsSquare(w, |q| + 1)
    ensures forall i, j :: 0 <= i <= |q| && 0 <= j <= |q| ==> w[i][j] == MaxCutEntry(SymPart(q), i, j)
  {
    var n, s := |q|, SymPart(q);
    seq(n + 1, i requires 0 <= i < n + 1 =>
      seq(n + 1, j requires 0 <= j < n + 1 => MaxCutEntry(s, i, j)))
  }

  /** The max-cut matrix is symmetric with a zero diagonal; its border holds
      the negated row sums of 1/2 (q + q^T), diagonal included, and its inner
      block the off-diagonal entries of 1/2 (q + q^T). */
  lemma {:induction false} ToMaxCutShape(q: Matrix)
    requires Square(q)
    ensures Symmetric(ToMaxCut(q))
    ensures forall i :: 0 <= i <= |q| ==> ToMaxCut(q)[i][i] == 0.0
    ensures forall j :: 0 <= j < |q| ==>
      ToMaxCut(q)[0][j + 1] == ToMaxCut(q)[j + 1][0] == -Sum(|q|, RowEntries(SymPart(q), j))
    ensures forall i, j :: 0 <= i < |q| && 0 <= j < |q| && i != j ==>
      ToMaxCut(q)[i + 1][j + 1] == 0.5 * (q[i][j] + q[j][i])
  {
    var w, s := ToMaxCut(q), SymPart(q);
    forall i, j | 0 <= i <= |q| && 0 <= j <= |q|
      ensures w[i][j] == w[j][i]
    {
      if i > 0 && j > 0 && i != j {
        assert s[i - 1][j - 1] == s[j - 1][i - 1];
      }
    }
  }

  /** The cut with vertex 0 unmarked and vertex i + 1 marked exactly when
      x_i = 1. */
  function SideOf(x: seq<int>): (side: seq<bool>)
    ensures |side| == |x| + 1 && !side[0]
    ensures forall i :: 0 <= i < |x| ==> side[i + 1] == (x[i] == 1)
  {
    [false] + seq(|x|, i requires 0 <= i < |x| => x[i] == 1)
  }

  /** One term of row p + 1 of the cut, for a 0/1 value x_p: the zeroed
      diagonal entry contributes what x_p (1 - x_p) s_pp does, nothing. */
  lemma {:induction false} CutRowTerm(e: real, xp: real, xj: real, same: bool)
    requires xp == 0.0 || xp == 1.0
    requires same ==> xj == xp
    ensures (if same then 0.0 else e) * xp * (1.0 - xj) == xp * e + -xp * (e * xj)
  {
    if same {
      assert xp * (1.0 - xp) == 0.0;
    }
  }

  /** Row p + 1 of the cut of a side vector that leaves vertex 0 unmarked and
      marks vertex j + 1 with the 0/1 value X_j, in a graph whose row p + 1 is
      that of the max-cut matrix of s: it contributes -X_p (s X)_p. */
  lemma {:induction false} CutRowOf(w: Matrix, s: Matrix, z: seq<bool>, X: seq<real>, p: nat)
    requires |z| == |X| + 1 && p < |X| && !z[0]
    requires forall j :: 0 <= j < |X| ==> Indicator(z, j + 1) == X[j] && (X[j] == 0.0 || X[j] == 1.0)
    requires Entry(w, p + 1, 0) == -RowSum(s, p, |X|)
    requires forall j :: 0 <= j < |X| ==> Entry(w, p + 1, j + 1) == if j == p then 0.0 else Entry(s, p, j)
    ensures Rows(|z|, CutTerms(w, z))(p + 1) == -(X[p] * RowDot(s, p, X))
  {
    var n := |X|;
    var row := Row(CutTerms(w, z), p + 1);
    var xp := X[p];
    SumFirst(n, row);
    assert row(0) == Entry(w, p + 1, 0) * Indicator(z, p + 1) * (1.0 - Indicator(z, 0));
    forall j | 0 <= j < n
      ensures Shift(row)(j) == xp * RowEntries(s, p)(j) + -xp * RowProducts(s, p, X)(j)
    {
      assert Shift(row)(j) == Entry(w, p + 1, j + 1) * xp * (1.0 - X[j]);
      CutRowTerm(Entry(s, p, j), xp, X[j], j == p);
    }
    SumLinear(n, xp, -xp, RowEntries(s, p), RowProducts(s, p, X), Shift(row));
  }

  /** Row i + 1 of the cut of `SideOf(x)` contributes -x_i (s x)_i. */
  lemma {:induction false} CutRow(q: Matrix, x: seq<int>, p: nat)
    requires Square(q) && |x| == |q| && IsBinary(x) && p < |q|
    ensures Rows(|q| + 1, CutTerms(ToMaxCut(q), SideOf(x)))(p + 1)
         == -Weighted(SymPart(q), AsReals(x))(p)
  {
    var w, z, s, X := ToMaxCut(q), SideOf(x), SymPart(q), AsReals(x);
    forall j | 0 <= j < |X|
      ensures Indicator(z, j + 1) == X[j] && (X[j] == 0.0 || X[j] == 1.0)
    {
    }
    assert Entry(w, p + 1, 0) == MaxCutEntry(s, p + 1, 0);
    forall j | 0 <= j < |X|
      ensures Entry(w, p + 1, j + 1) == if j == p then 0.0 else Entry(s, p, j)
    {
      assert Entry(w, p + 1, j + 1) == MaxCutEntry(s, p + 1, j + 1);
    }
    CutRowOf(w, s, z, X, p);
  }

  /** A cut leaving vertex 0 unmarked, whose row p + 1 contributes -W(p),
      weighs minus the sum of the W(p). */
  lemma {:induction false} CutFromRows(w: Matrix, z: seq<bool>, n: nat, W: int -> real)
    requires |z| == n + 1 && !z[0]
    requires forall p :: 0 <= p < n ==> Rows(n + 1, CutTerms(w, z))(p + 1) == -W(p)
    ensures Cut(w, z) == -Sum(n, W)
  {
    var T := CutTerms(w, z);
    SumFirst(n, Rows(n + 1, T));
    SumZero(n + 1, Row(T, 0));
    SumScale(n, -1.0, W, Shift(Rows(n + 1, T)));
  }

  /** The reduction is exact: the cut of the max-cut graph that x describes
      weighs -x^T q x, so a maximum cut gives a minimum of the QUBO. */
  lemma {:induction false} CutOfQubo(q: Matrix, x: seq<int>)
    requires Square(q) && |x| == |q| && IsBinary(x)
    ensures Cut(ToMaxCut(q), SideOf(x)) == -QuadForm(q, AsReals(x))
  {
    var n, w, z, s, X := |q|, ToMaxCut(q), SideOf(x), SymPart(q), AsReals(x);
    assert |X| == n && |z| == n + 1;
    forall p | 0 <= p < n
      ensures Rows(n + 1, CutTerms(w, z))(p + 1) == -Weighted(s, X)(p)
    {
      CutRow(q, x, p);
    }
    CutFromRows(w, z, n, Weighted(s, X));
    QuadFormByRows(s, X);
    QuadFormSymPart(q, X);
  }

  // ---------------------------------------------------------------------
  // Max-cut graph -> Laplacian-like matrix

  /** Entry (i, j) of Diag(Adj e) - Adj, Adj e the full row sums. */
  function LaplacianEntry(adj: Matrix, i: int, j: int): real
  {
    (if i == j then RowSum(adj, i, |adj|) else 0.0) - Entry(adj, i, j)
  }

  function BlockRow(adj: Matrix, i: int): int -> real
  {
    j => LaplacianEntry(adj, i, j)
  }

  /** `sum_row`: the row sums of the leading (N - 1) x (N - 1) block. */
  function BorderSums(adj: Matrix, m: nat): int -> real
  {
    i => Sum(m, BlockRow(adj, i))
  }

  /** Entry (i, j) of `maxcut_to_L(Adj)` for an N x N Adj, m = N - 1. */
  function LaplacianAt(adj: Matrix, m: nat, i: int, j: int): real
  {
    if i < m && j < m then LaplacianEntry(adj, i, j)
    else if i < m then BorderSums(adj, m)(i)
    else if j < m then BorderSums(adj, m)(j)
    else Sum(m, BorderSums(adj, m))
  }

  /** `maxcut_to_L(Adj)`: the leading (N - 1) x (N - 1) block is
      Diag(Adj e) - Adj, the last row and column hold the row sums of that
      block and the corner their total. An empty matrix fails with
      `IndexError` at `L[:-1, -1]`. */
  function ToLaplacian(adj: Matrix): (r: Result<Matrix>)
    requires Square(adj)
    ensures r.Failure? <==> |adj| == 0
    ensures r.Success? ==> IsSquare(r.value, |adj|)
    ensures r.Success? ==> forall i, j :: 0 <= i < |adj| && 0 <= j < |adj| ==>
      r.value[i][j] == LaplacianAt(adj, |adj| - 1, i, j)
  {
    if |adj| == 0 then Failure("IndexError")
    else
      var n := |adj|;
      Success(seq(n, i requires 0 <= i < n =>
        seq(n, j requires 0 <= j < n => LaplacianAt(adj, n - 1, i, j))))
  }

  /** The leading block is Diag(Adj e) - Adj on the first N - 1 vertices,
      with Adj e summed over all N columns. */
  lemma {:induction false} LaplacianBlock(adj: Matrix)
    requires Square(adj) && |adj| > 0
    ensures forall i, j :: 0 <= i < |adj| - 1 && 0 <= j < |adj| - 1 ==>
      ToLaplacian(adj).value[i][j]
        == (if i == j then Sum(|adj|, RowEntries(adj, i)) else 0.0) - adj[i][j]
  {
  }

  /** The last column and the last row, corner excepted, are the row sums of
      the leading block of L itself, and the corner is their total. */
  lemma {:induction false} LaplacianBorder(adj: Matrix)
    requires Square(adj) && |adj| > 0
    ensures forall i :: 0 <= i < |adj| - 1 ==>
      ToLaplacian(adj).value[i][|adj| - 1] == ToLaplacian(adj).value[|adj| - 1][i]
        == Sum(|adj| - 1, RowEntries(ToLaplacian(adj).value, i))
    ensures ToLaplacian(adj).value[|adj| - 1][|adj| - 1]
         == Sum(|adj| - 1, RowEntries(ToLaplacian(adj).value, |adj| - 1))
  {
    var L, m := ToLaplacian(adj).value, |adj| - 1;
    forall i | 0 <= i < m
      ensures Sum(m, RowEntries(L, i)) == BorderSums(adj, m)(i)
    {
      SumExt(m, RowEntries(L, i), BlockRow(adj, i));
    }
    SumExt(m, RowEntries(L, m), BorderSums(adj, m));
  }

  /** L is symmetric whenever Adj is. */
  lemma {:induction false} LaplacianSymmetric(adj: Matrix)
    requires Square(adj) && Symmetric(adj) && |adj| > 0
    ensures Symmetric(ToLaplacian(adj).value)
  {
    var L, m := ToLaplacian(adj).value, |adj| - 1;
    forall i, j | 0 <= i <= m && 0 <= j <= m
      ensures L[i][j] == L[j][i]
    {
      if i < m && j < m {
        assert L[i][j] == LaplacianEntry(adj, i, j);
        assert L[j][i] == LaplacianEntry(adj, j, i);
      }
    }
  }

  /** The cut that marks vertex i < N - 1 when x_i = 1 and leaves the last
      vertex unmarked. */
  function SideBefore(x: seq<int>): (side: seq<bool>)
    ensures |side| == |x| + 1 && !side[|x|]
    ensures forall i :: 0 <= i < |x| ==> side[i] == (x[i] == 1)
  {
    seq(|x|, i requires 0 <= i < |x| => x[i] == 1) + [false]
  }

  /** Row i of the leading block's quadratic form: x_i (Adj e)_i - x_i (Adj x)_i. */
  lemma {:induction false} BlockWeighted(adj: Matrix, x: seq<int>, i: nat)
    requires Square(adj) && |adj| == |x| + 1 && IsBinary(x) && i < |x|
    ensures Weighted(Leading(ToLaplacian(adj).value), AsReals(x))(i)
         == AsReals(x)[i] * RowSum(adj, i, |adj|) - AsReals(x)[i] * RowDot(adj, i, AsReals(x))
  {
    var m, B, X := |x|, Leading(ToLaplacian(adj).value), AsReals(x);
    var deg, xi := RowSum(adj, i, |adj|), X[i];
    var D := (j: int) => if j == i then deg * xi else 0.0;
    forall j | 0 <= j < m
      ensures RowProducts(B, i, X)(j) == D(j) - RowProducts(adj, i, X)(j)
    {
      var e, xj := Entry(adj, i, j), X[j];
      assert Entry(B, i, j) == LaplacianAt(adj, m, i, j) == (if i == j then deg else 0.0) - e;
      if j == i {
        assert RowProducts(B, i, X)(j) == (deg - e) * xi;
      } else {
        assert RowProducts(B, i, X)(j) == (0.0 - e) * xj;
      }
    }
    SumSub(m, D, RowProducts(adj, i, X), RowProducts(B, i, X));
    SumSingle(m, i, D);
    assert |X| == m;
    var ra := RowDot(adj, i, X);
    assert RowDot(B, i, X) == deg * xi - ra;
    assert Weighted(B, X)(i) == xi * (deg * xi - ra);
    BinaryScale(xi, deg, ra);
  }

  lemma {:induction false} BinaryScale(xi: real, a: real, b: real)
    requires xi == 0.0 || xi == 1.0
    ensures xi * (a * xi - b) == xi * a - xi * b
  {
  }

  /** Row i of the cut of `SideBefore(x)`: x_i (Adj e)_i - x_i (Adj x)_i. */
  lemma {:induction false} SideBeforeRow(adj: Matrix, x: seq<int>, i: nat)
    requires Square(adj) && |adj| == |x| + 1 && IsBinary(x) && i < |x|
    ensures Rows(|adj|, CutTerms(adj, SideBefore(x)))(i)
         == AsReals(x)[i] * RowSum(adj, i, |adj|) - AsReals(x)[i] * RowDot(adj, i, AsReals(x))
  {
    var n, m, z, X := |adj|, |x|, SideBefore(x), AsReals(x);
    var Z := X + [0.0];
    var xi := X[i];
    assert Indicator(z, i) == xi;
    forall j | 0 <= j < n
      ensures Row(CutTerms(adj, z), i)(j) == xi * RowEntries(adj, i)(j) + -xi * RowProducts(adj, i, Z)(j)
    {
      assert Indicator(z, j) == Coord(Z, j);
    }
    SumLinear(n, xi, -xi, RowEntries(adj, i), RowProducts(adj, i, Z), Row(CutTerms(adj, z), i));
    SumExt(m, RowProducts(adj, i, Z), RowProducts(adj, i, X));
  }

  /** The leading block of L measures cuts: for a 0/1 vector x on the first
      N - 1 vertices, x^T L[:-1, :-1] x is the weight of the cut that puts
      the vertices with x_i = 1 on one side and the last vertex on the other. */
  lemma {:induction false} LaplacianCut(adj: Matrix, x: seq<int>)
    requires Square(adj) && |adj| == |x| + 1 && IsBinary(x)
    ensures QuadForm(Leading(ToLaplacian(adj).value), AsReals(x)) == Cut(adj, SideBefore(x))
  {
    var n, m, z, X := |adj|, |x|, SideBefore(x), AsReals(x);
    var B, T := Leading(ToLaplacian(adj).value), CutTerms(adj, z);
    SumZero(n, Row(T, m));
    forall i | 0 <= i < m
      ensures Rows(n, T)(i) == Weighted(B, X)(i)
    {
      SideBeforeRow(adj, x, i);
      BlockWeighted(adj, x, i);
    }
    SumExt(m, Rows(n, T), Weighted(B, X));
    QuadFormByRows(B, X);
  }

  // ---------------------------------------------------------------------
  // Max-cut solution -> QUBO solution

  /** numpy's reading of the index i into an axis of length n: a negative
      index counts from the end. */
  function Wrap(i: int, n: nat): int
  {
    if i < 0 then i + n else i
  }

  /** Every listed vertex v names an index v - 1 that numpy accepts for an
      axis of length n; otherwise `x_mc_sol[_x_mc] = -1` raises `IndexError`. */
  predicate Indexable(solution: seq<int>, n: nat)
  {
    forall t :: 0 <= t < |solution| ==> -(n as int) <= solution[t] - 1 < n
  }

  /** The positions `x_mc_sol[_x_mc] = -1` writes. */
  function Listed(solution: seq<int>, n: nat): seq<int>
  {
    seq(|solution|, t requires 0 <= t < |solution| => Wrap(solution[t] - 1, n))
  }

  /** The cut the solver's vertex list describes: a vertex is marked when the
      list names it. */
  function Marked(solution: seq<int>, n: nat): (side: seq<bool>)
    ensures |side| == n
  {
    seq(n, v requires 0 <= v < n => v in Listed(solution, n))
  }

  /** `x_mc_sol`: -1 at the listed positions, 1 elsewhere. */
  function Signs(solution: seq<int>, n: nat): (x: seq<int>)
    ensures |x| == n
  {
    seq(n, v requires 0 <= v < n => if v in Listed(solution, n) then -1 else 1)
  }

  /** `maxcut_solution_to_qubo_solution(_x, n_mc)`: mark the listed vertices
      with -1, multiply by -x_mc_sol[0] so that vertex 1 reads -1, and return
      1/2 (x_mc_sol + 1) without its first entry. An index out of range, or
      n_mc = 0 at `x_mc_sol[0]`, raises `IndexError`. */
  function ToQuboSolution(solution: seq<int>, n: nat): (r: Result<seq<int>>)
    ensures r.Failure? <==> n == 0 || !Indexable(solution, n)
    ensures r.Success? ==> |r.value| == n - 1
  {
    if !Indexable(solution, n) || n == 0 then Failure("IndexError")
    else
      var x := Signs(solution, n);
      var normal := seq(n, v requires 0 <= v < n => x[v] * -x[0]);
      Success(seq(n - 1, i requires 0 <= i < n - 1 => (normal[i + 1] + 1) / 2))
  }

  /** The QUBO vector is 0/1, and y_i = 1 exactly when vertex i + 2 (1-based)
      is on the other side of the cut from vertex 1. */
  lemma {:induction false} QuboSolutionSides(solution: seq<int>, n: nat)
    requires n > 0 && Indexable(solution, n)
    ensures IsBinary(ToQuboSolution(solution, n).value)
    ensures forall i :: 0 <= i < n - 1 ==>
      (ToQuboSolution(solution, n).value[i] == 1 <==> Marked(solution, n)[i + 1] != Marked(solution, n)[0])
  {
    var y, x, z := ToQuboSolution(solution, n).value, Signs(solution, n), Marked(solution, n);
    forall i | 0 <= i < n - 1
      ensures (y[i] == 0 || y[i] == 1) && (y[i] == 1 <==> z[i + 1] != z[0])
    {
      assert y[i] == (x[i + 1] * -x[0] + 1) / 2;
    }
  }

  /** Listing the complementary vertex set gives the same QUBO vector: the
      normalisation by -x_mc_sol[0] forgets which side was listed. */
  lemma {:induction false} QuboSolutionComplement(solution: seq<int>, other: seq<int>, n: nat)
    requires n > 0 && Indexable(solution, n) && Indexable(other, n)
    requires Marked(other, n) == Complement(Marked(solution, n))
    ensures ToQuboSolution(other, n) == ToQuboSolution(solution, n)
  {
    var y, y' := ToQuboSolution(solution, n).value, ToQuboSolution(other, n).value;
    QuboSolutionSides(solution, n);
    QuboSolutionSides(other, n);
    forall i | 0 <= i < n - 1
      ensures y'[i] == y[i]
    {
      assert Marked(other, n)[i + 1] == !Marked(solution, n)[i + 1];
      assert Marked(other, n)[0] == !Marked(solution, n)[0];
    }
    assert y' == y;
  }

  /** The QUBO vector read off a cut of `ToMaxCut(q)` has value minus the
      weight of that cut, whichever side the list names. */
  lemma {:induction false} QuboValueOfCut(q: Matrix, solution: seq<int>)
    requires Square(q) && Indexable(solution, |q| + 1)
    ensures QuadForm(q, AsReals(ToQuboSolution(solution, |q| + 1).value))
         == -Cut(ToMaxCut(q), Marked(solution, |q| + 1))
  {
    var n := |q| + 1;
    var y, z := ToQuboSolution(solution, n).value, Marked(solution, n);
    assert |y| == |q| && |z| == n;
    QuboSolutionSides(solution, n);
    CutOfQubo(q, y);
    var side := SideOf(y);
    if z[0] {
      var c := Complement(z);
      forall i | 0 <= i < n
        ensures c[i] == side[i]
      {
        if i > 0 {
          assert side[i] == (y[i - 1] == 1);
        }
      }
      assert c == side;
      ToMaxCutShape(q);
      CutComplement(ToMaxCut(q), z);
    } else {
      forall i | 0 <= i < n
        ensures z[i] == side[i]
      {
        if i > 0 {
          assert side[i] == (y[i - 1] == 1);
        }
      }
      assert z == side;
    }
  }

  /** `np.nonzero(y)[0] + 1`: the 1-based positions of the nonzero entries,
      in ascending order. */
  function Ones(y: seq<int>): seq<int>
  {
    if |y| == 0 then []
    else Ones(y[..|y| - 1]) + (if y[|y| - 1] != 0 then [|y|] else [])
  }

  /** `Ones(y)` lists exactly the positions p with y[p - 1] != 0, each once
      and in ascending order; for a 0/1 vector there are `sum(y)` of them. */
  lemma {:induction false} OnesPositions(y: seq<int>)
    ensures forall a, b :: 0 <= a < b < |Ones(y)| ==> Ones(y)[a] < Ones(y)[b]
    ensures forall p :: p in Ones(y) <==> 1 <= p <= |y| && y[p - 1] != 0
    ensures IsBinary(y) ==> |Ones(y)| == Cardinality(y)
  {
    if |y| > 0 {
      var init := y[..|y| - 1];
      OnesPositions(init);
      forall p | p in Ones(init)
        ensures p < |y|
      {
      }
      forall p
        ensures p in Ones(y) <==> 1 <= p <= |y| && y[p - 1] != 0
      {
        if 1 <= p < |y| {
          assert y[p - 1] == init[p - 1];
        }
      }
      forall a, b | 0 <= a < b < |Ones(y)|
        ensures Ones(y)[a] < Ones(y)[b]
      {
        if b >= |Ones(init)| {
          assert Ones(y)[a] in Ones(init);
        }
      }
      if IsBinary(y) {
        assert IsBinary(init);
      }
    }
  }

  // ---------------------------------------------------------------------
  // biqbin_base: the QUBO solver's post-processing

  /** The two values `_maxcut_solution2qubo_solution` returns. */
  datatype QuboSolution = QuboSolution(solution: seq<int>, x: seq<int>)

  /** `QUBOSolver._maxcut_solution2qubo_solution`: the same mapping with
      n_mc = n + 1 for the n x n QUBO, plus the 1-based positions of the ones. */
  function SolutionForQubo(q: Matrix, solution: seq<int>): (r: Result<QuboSolution>)
    requires Square(q)
    ensures r.Failure? <==> !Indexable(solution, |q| + 1)
    ensures r.Success? ==> |r.value.x| == |q|
  {
    match ToQuboSolution(solution, |q| + 1)
    case Failure(e) => Failure(e)
    case Success(y) => Success(QuboSolution(Ones(y), y))
  }

  /** q y: the vector of row products. */
  function MatVec(q: Matrix, y: seq<real>): (v: seq<real>)
    ensures |v| == |q|
  {
    seq(|q|, i requires 0 <= i < |q| => RowDot(q, i, y))
  }

  /** `q.dot(y).dot(y)` is y^T q y. */
  lemma {:induction false} MatVecDot(q: Matrix, y: seq<real>)
    requires Square(q) && |y| == |q|
    ensures Dot(MatVec(q, y), y) == QuadForm(q, y)
  {
    var v := MatVec(q, y);
    SumExt(|y|, i => if 0 <= i < |v| then v[i] * y[i] else 0.0, Weighted(q, y));
    QuadFormByRows(q, y);
  }

  /** The result of the foreign branch-and-bound run, as far as it is used:
      the cut as a list of 1-based vertices and its weight. */
  datatype MaxCutResult = MaxCutResult(solution: seq<int>, maxValue: real)

  datatype QuboReport = QuboReport(solution: seq<int>, x: seq<int>, minValue: real)

  datatype Report = Report(maxcut: MaxCutResult, qubo: QuboReport)

  /** The post-processing of `QUBOSolver.run` on the result of the solver:
      on rank 0 the max-cut result together with the QUBO solution, its 0/1
      vector and `min_value = q.dot(y).dot(y)`; `None` on any other rank. */
  function Run(rank: int, q: Matrix, result: MaxCutResult): (r: Result<Option<Report>>)
    requires Square(q)
  {
    if rank != 0 then Success(None)
    else
      match SolutionForQubo(q, result.solution)
      case Failure(e) => Failure(e)
      case Success(s) =>
        var y := AsReals(s.x);
        Success(Some(Report(result, QuboReport(s.solution, s.x, Dot(MatVec(q, y), y)))))
  }

  /** What `run` reports: nothing off rank 0; on rank 0 an `IndexError` for a
      vertex list numpy cannot index with, and otherwise the max-cut result
      unchanged, an n-entry 0/1 vector whose ones are listed in ascending
      order, and `min_value` = y^T q y, which is minus the weight of the
      solver's cut in the max-cut graph. */
  lemma {:induction false} RunReport(rank: int, q: Matrix, result: MaxCutResult)
    requires Square(q)
    ensures rank != 0 ==> Run(rank, q, result) == Success(None)
    ensures rank == 0 && !Indexable(result.solution, |q| + 1) ==> Run(rank, q, result) == Failure("IndexError")
    ensures rank == 0 && Indexable(result.solution, |q| + 1) ==>
      && Run(rank, q, result).Success? && Run(rank, q, result).value.Some?
      && var rep := Run(rank, q, result).value.value;
      && rep.maxcut == result
      && |rep.qubo.x| == |q| && IsBinary(rep.qubo.x)
      && (forall p :: p in rep.qubo.solution <==> 1 <= p <= |q| && rep.qubo.x[p - 1] == 1)
      && (forall a, b :: 0 <= a < b < |rep.qubo.solution| ==> rep.qubo.solution[a] < rep.qubo.solution[b])
      && rep.qubo.minValue == QuadForm(q, AsReals(rep.qubo.x))
      && rep.qubo.minValue == -Cut(ToMaxCut(q), Marked(result.solution, |q| + 1))
  {
    if rank == 0 && Indexable(result.solution, |q| + 1) {
      var y := ToQuboSolution(result.solution, |q| + 1).value;
      QuboSolutionSides(result.solution, |q| + 1);
      OnesPositions(y);
      MatVecDot(q, AsReals(y));
      QuboValueOfCut(q, result.solution);
    }
  }
}
