/** Dense real matrices as sequences of rows, 0/1 vectors, and the quadratic
    form x^T Q x that every QUBO objective in the model is evaluated with. */
module Matrices {
  import opened Sums

  type Matrix = seq<seq<real>>

  predicate IsSquare(m: Matrix, n: nat)
  {
    |m| == n && forall i :: 0 <= i < n ==> |m[i]| == n
  }

  predicate Square(m: Matrix)
  {
    IsSquare(m, |m|)
  }

  predicate Symmetric(m: Matrix)
    requires Square(m)
  {
    forall i, j :: 0 <= i < |m| && 0 <= j < |m| ==> m[i][j] == m[j][i]
  }

  function Transpose(m: Matrix): (t: Matrix)
    requires Square(m)
    ensures IsSquare(t, |m|)
    ensures forall i, j :: 0 <= i < |m| && 0 <= j < |m| ==> t[i][j] == m[j][i]
  {
    seq(|m|, i requires 0 <= i < |m| => seq(|m|, j requires 0 <= j < |m| => m[j][i]))
  }

  /** 1/2 (m + m^T), the symmetric part of m. */
  function SymPart(m: Matrix): (s: Matrix)
    requires Square(m)
    ensures IsSquare(s, |m|) && Symmetric(s)
    ensures forall i, j :: 0 <= i < |m| && 0 <= j < |m| ==> s[i][j] == 0.5 * (m[i][j] + m[j][i])
  {
    seq(|m|, i requires 0 <= i < |m| => seq(|m|, j requires 0 <= j < |m| => 0.5 * (m[i][j] + m[j][i])))
  }

  /** Entry (i, j), or 0 outside the matrix (keeps the summands total). */
  function Entry(m: Matrix, i: int, j: int): real
  {
    if 0 <= i < |m| && 0 <= j < |m[i]| then m[i][j] else 0.0
  }

  function Coord(x: seq<real>, i: int): real
  {
    if 0 <= i < |x| then x[i] else 0.0
  }

  predicate IsBinary(x: seq<int>)
  {
    forall i :: 0 <= i < |x| ==> x[i] == 0 || x[i] == 1
  }

  function AsReals(x: seq<int>): (r: seq<real>)
    ensures |r| == |x| && forall i :: 0 <= i < |x| ==> r[i] == x[i] as real
  {
    seq(|x|, i requires 0 <= i < |x| => x[i] as real)
  }

  /** Number of ones, `sum(x)` of a 0/1 vector. */
  function Cardinality(x: seq<int>): int
  {
    if |x| == 0 then 0 else Cardinality(x[..|x| - 1]) + x[|x| - 1]
  }

  function Coords(x: seq<real>): int -> real
  {
    i => Coord(x, i)
  }

  /** The terms x_i x_j. */
  function Outer(x: seq<real>): (int, int) -> real
  {
    ProductOf(Coords(x), Coords(x))
  }

  function Term(q: Matrix, x: seq<real>, i: int, j: int): real
  {
    Entry(q, i, j) * Coord(x, i) * Coord(x, j)
  }

  function Terms(q: Matrix, x: seq<real>): (int, int) -> real
  {
    (i, j) => Term(q, x, i, j)
  }

  /** x^T q x, summed row by row and, inside a row, column by column. */
  function QuadForm(q: Matrix, x: seq<real>): real
  {
    DoubleSum(|x|, |x|, Terms(q, x))
  }

  /** The terms q_ij x_j of row i. */
  function RowProducts(q: Matrix, i: int, x: seq<real>): int -> real
  {
    j => Entry(q, i, j) * Coord(x, j)
  }

  /** The terms q_ij x_i of column j; their sum is (x^T q)_j. */
  function ColProducts(q: Matrix, j: int, x: seq<real>): int -> real
  {
    i => Entry(q, i, j) * Coord(x, i)
  }

  /** (q x)_i */
  function RowDot(q: Matrix, i: int, x: seq<real>): real
  {
    Sum(|x|, RowProducts(q, i, x))
  }

  /** The terms x_i (q x)_i. */
  function Weighted(q: Matrix, x: seq<real>): int -> real
  {
    i => Coord(x, i) * RowDot(q, i, x)
  }

  /** Sum of row i over its first n entries. */
  function RowSum(m: Matrix, i: int, n: nat): real
  {
    Sum(n, RowEntries(m, i))
  }

  /** `m[:-1, :-1]`: m without its last row and column. */
  function Leading(m: Matrix): (t: Matrix)
    requires Square(m) && |m| > 0
    ensures IsSquare(t, |m| - 1)
    ensures forall i, j :: 0 <= i < |m| - 1 && 0 <= j < |m| - 1 ==> t[i][j] == m[i][j]
  {
    seq(|m| - 1, i requires 0 <= i < |m| - 1 => m[i][..|m| - 1])
  }

  /** The entries m_ij of row i, as a term in j. */
  function RowEntries(m: Matrix, i: int): int -> real
  {
    j => Entry(m, i, j)
  }

  lemma {:induction false} CardinalityBounds(x: seq<int>)
    requires IsBinary(x)
    ensures 0 <= Cardinality(x) <= |x|
  {
    if |x| > 0 {
      CardinalityBounds(x[..|x| - 1]);
    }
  }

  /** Transposing does not change the quadratic form. */
  lemma {:induction false} QuadFormTranspose(q: Matrix, x: seq<real>)
    requires Square(q) && |x| == |q|
    ensures QuadForm(Transpose(q), x) == QuadForm(q, x)
  {
    var n := |x|;
    DoubleSumExt(n, n, Terms(Transpose(q), x), Flip(Terms(q, x)));
    SumSwap(n, n, Terms(q, x));
  }

  /** The symmetric part has the same quadratic form. */
  lemma {:induction false} QuadFormSymPart(q: Matrix, x: seq<real>)
    requires Square(q) && |x| == |q|
    ensures QuadForm(SymPart(q), x) == QuadForm(q, x)
  {
    var n := |x|;
    DoubleSumLinear(n, n, 0.5, 0.5, Terms(q, x), Terms(Transpose(q), x), Terms(SymPart(q), x));
    QuadFormTranspose(q, x);
  }

  /** x^T q x as the sum of x_i (q x)_i. */
  lemma {:induction false} QuadFormByRows(q: Matrix, x: seq<real>)
    ensures QuadForm(q, x) == Sum(|x|, Weighted(q, x))
  {
    var n := |x|;
    forall i | 0 <= i < n
      ensures Rows(n, Terms(q, x))(i) == Weighted(q, x)(i)
    {
      SumScale(n, Coord(x, i), RowProducts(q, i, x), Row(Terms(q, x), i));
    }
    SumExt(n, Rows(n, Terms(q, x)), Weighted(q, x));
  }

  /** For a symmetric matrix, row and column products agree. */
  lemma {:induction false} RowDotSymmetric(q: Matrix, i: int, x: seq<real>)
    requires Square(q) && |x| == |q| && Symmetric(q) && 0 <= i < |q|
    ensures Sum(|x|, ColProducts(q, i, x)) == RowDot(q, i, x)
  {
    SumExt(|x|, ColProducts(q, i, x), RowProducts(q, i, x));
  }

  /** Adding d to coordinate p of x adds d q_rp to (q x)_r. */
  lemma {:induction false} RowDotPointAdd(q: Matrix, r: int, x: seq<real>, p: nat, d: real)
    requires p < |x|
    ensures RowDot(q, r, x[p := x[p] + d]) == RowDot(q, r, x) + d * Entry(q, r, p)
  {
    SumPointChange(|x|, p, RowProducts(q, r, x), RowProducts(q, r, x[p := x[p] + d]));
  }

  /** x_i (q x)_i + d q_ip x_i: the terms of x^T q x once d is added to x_p,
      away from i = p. */
  function ShiftedWeights(q: Matrix, x: seq<real>, p: nat, d: real): int -> real
  {
    i => Weighted(q, x)(i) + d * ColProducts(q, p, x)(i)
  }

  lemma {:induction false} WeightedPointAdd(q: Matrix, x: seq<real>, p: nat, d: real, i: int)
    requires p < |x| && 0 <= i < |x| && i != p
    ensures Weighted(q, x[p := x[p] + d])(i) == ShiftedWeights(q, x, p, d)(i)
  {
    RowDotPointAdd(q, i, x, p, d);
    var xi, ri, e := x[i], RowDot(q, i, x), Entry(q, i, p);
    assert Weighted(q, x[p := x[p] + d])(i) == xi * (ri + d * e);
    assert Weighted(q, x)(i) == xi * ri;
    assert ColProducts(q, p, x)(i) == e * xi;
    assert ShiftedWeights(q, x, p, d)(i) == Weighted(q, x)(i) + d * ColProducts(q, p, x)(i);
  }

  lemma {:induction false} WeightedPointAddAt(q: Matrix, x: seq<real>, p: nat, d: real)
    requires Square(q) && |x| == |q| && p < |x|
    ensures Weighted(q, x[p := x[p] + d])(p) - ShiftedWeights(q, x, p, d)(p)
         == d * RowDot(q, p, x) + d * d * q[p][p]
  {
    RowDotPointAdd(q, p, x, p, d);
    var a, c, xp := RowDot(q, p, x), q[p][p], x[p];
    assert Weighted(q, x[p := x[p] + d])(p) == (xp + d) * (a + d * c);
    assert Weighted(q, x)(p) == xp * a;
    assert ColProducts(q, p, x)(p) == c * xp;
    assert ShiftedWeights(q, x, p, d)(p) == Weighted(q, x)(p) + d * ColProducts(q, p, x)(p);
  }

  /** The shifted terms add d (x^T q)_p to the sum. */
  lemma {:induction false} ShiftedSum(q: Matrix, x: seq<real>, p: nat, d: real)
    ensures Sum(|x|, ShiftedWeights(q, x, p, d)) == Sum(|x|, Weighted(q, x)) + d * Sum(|x|, ColProducts(q, p, x))
  {
    ShiftedWeightsAt(q, x, p, d);
    SumAddScaled(|x|, d, Weighted(q, x), ColProducts(q, p, x), ShiftedWeights(q, x, p, d));
  }

  lemma {:induction false} ShiftedWeightsAt(q: Matrix, x: seq<real>, p: nat, d: real)
    ensures forall i :: 0 <= i < |x| ==>
      ShiftedWeights(q, x, p, d)(i) == Weighted(q, x)(i) + d * ColProducts(q, p, x)(i)
  {
  }

  /** The terms of the new vector agree with the shifted ones except at p. */
  lemma {:induction false} ShiftedSumAt(q: Matrix, x: seq<real>, p: nat, d: real)
    requires Square(q) && |x| == |q| && p < |x|
    ensures Sum(|x|, Weighted(q, x[p := x[p] + d]))
         == Sum(|x|, ShiftedWeights(q, x, p, d)) + (d * RowDot(q, p, x) + d * d * q[p][p])
  {
    var n, y := |x|, x[p := x[p] + d];
    forall i | 0 <= i < n && i != p
      ensures ShiftedWeights(q, x, p, d)(i) == Weighted(q, y)(i)
    {
      WeightedPointAdd(q, x, p, d, i);
    }
    SumPointChange(n, p, ShiftedWeights(q, x, p, d), Weighted(q, y));
    WeightedPointAddAt(q, x, p, d);
  }

  /** Adding d to coordinate p of x changes x^T q x by
      d (q x)_p + d (x^T q)_p + d^2 q_pp. */
  lemma {:induction false} QuadFormPointAdd(q: Matrix, x: seq<real>, p: nat, d: real)
    requires Square(q) && |x| == |q| && p < |x|
    ensures QuadForm(q, x[p := x[p] + d])
         == QuadForm(q, x) + d * RowDot(q, p, x) + d * Sum(|x|, ColProducts(q, p, x)) + d * d * q[p][p]
  {
    ShiftedSum(q, x, p, d);
    ShiftedSumAt(q, x, p, d);
    QuadFormByRows(q, x);
    QuadFormByRows(q, x[p := x[p] + d]);
  }

  /** Flipping bit p of a 0/1 vector changes x^T q x, for symmetric q, by
      (1 - 2 x_p) (q_pp + 2 ((q x)_p - q_pp x_p)). */
  lemma {:induction false} QuadFormFlip(q: Matrix, x: seq<int>, p: nat)
    requires Square(q) && |x| == |q| && Symmetric(q) && IsBinary(x) && p < |x|
    ensures IsBinary(x[p := 1 - x[p]])
    ensures QuadForm(q, AsReals(x[p := 1 - x[p]]))
         == QuadForm(q, AsReals(x))
            + (1 - 2 * x[p]) as real * (q[p][p] + 2.0 * (RowDot(q, p, AsReals(x)) - q[p][p] * x[p] as real))
  {
    var xr := AsReals(x);
    var d := (1 - 2 * x[p]) as real;
    assert AsReals(x[p := 1 - x[p]]) == xr[p := xr[p] + d];
    QuadFormPointAdd(q, xr, p, d);
    RowDotSymmetric(q, p, xr);
    assert d * d == 1.0;
  }

  /** The sum of the entries of a 0/1 vector is its number of ones. */
  lemma {:induction false} SumOfBinary(x: seq<int>)
    ensures Sum(|x|, Coords(AsReals(x))) == Cardinality(x) as real
  {
    if |x| > 0 {
      var n, p := |x|, x[..|x| - 1];
      SumOfBinary(p);
      SumExt(n - 1, Coords(AsReals(x)), Coords(AsReals(p)));
    }
  }

  /** For a 0/1 vector, the sum of the squares x_i x_i is the number of ones. */
  lemma {:induction false} SquaresOfBinary(x: seq<int>)
    requires IsBinary(x)
    ensures Sum(|x|, Diagonal(Outer(AsReals(x)))) == Cardinality(x) as real
  {
    var xr := AsReals(x);
    forall i | 0 <= i < |x|
      ensures Diagonal(Outer(xr))(i) == Coords(xr)(i)
    {
      assert Diagonal(Outer(xr))(i) == xr[i] * xr[i];
    }
    SumExt(|x|, Diagonal(Outer(xr)), Coords(xr));
    SumOfBinary(x);
  }

  /** The terms x_i x_j are symmetric in i and j. */
  lemma {:induction false} OuterUpperFlip(x: seq<real>)
    ensures DoubleSum(|x|, |x|, LowerPart(Outer(x))) == DoubleSum(|x|, |x|, UpperPart(Outer(x)))
  {
    var n := |x|;
    DoubleSumLower(n, Outer(x));
    forall i, j | 0 <= i < n && 0 <= j < n
      ensures UpperPart(Flip(Outer(x)))(i, j) == UpperPart(Outer(x))(i, j)
    {
      assert Flip(Outer(x))(i, j) == Coord(x, j) * Coord(x, i);
    }
    DoubleSumExt(n, n, UpperPart(Flip(Outer(x))), UpperPart(Outer(x)));
  }

  /** For a 0/1 vector, the sum of all x_i x_j is twice the sum over i < j
      plus the number of ones. */
  lemma {:induction false} OuterSplit(x: seq<int>)
    requires IsBinary(x)
    ensures DoubleSum(|x|, |x|, Outer(AsReals(x)))
         == 2.0 * DoubleSum(|x|, |x|, UpperPart(Outer(AsReals(x)))) + Cardinality(x) as real
  {
    var n, xr := |x|, AsReals(x);
    DoubleSumTriangles(n, Outer(xr));
    OuterUpperFlip(xr);
    DoubleSumDiagonal(n, Outer(xr));
    SquaresOfBinary(x);
  }

  /** The sum of all x_i x_j is the square of the number of ones. */
  lemma {:induction false} OuterTotal(x: seq<int>)
    requires IsBinary(x)
    ensures DoubleSum(|x|, |x|, Outer(AsReals(x))) == Cardinality(x) as real * Cardinality(x) as real
  {
    var n, xr := |x|, AsReals(x);
    DoubleSumProduct(n, n, Coords(xr), Coords(xr));
    SumOfBinary(x);
    SquareOfEqual(Sum(n, Coords(xr)), Cardinality(x) as real);
  }

  lemma {:induction false} SquareOfEqual(t: real, s: real)
    requires t == s
    ensures t * t == s * s
  {
  }

  /** For a 0/1 vector with s ones, the sum of x_i x_j over i < j is s (s - 1) / 2. */
  lemma {:induction false} UpperPairs(x: seq<int>)
    requires IsBinary(x)
    ensures var s := Cardinality(x) as real;
      DoubleSum(|x|, |x|, UpperPart(Outer(AsReals(x)))) == (s * s - s) / 2.0
  {
    OuterSplit(x);
    OuterTotal(x);
  }

  /** The pair and diagonal sums of a 0/1 vector with s ones. */
  lemma {:induction false} BinaryPairCounts(x: seq<int>)
    requires IsBinary(x)
    ensures var s := Cardinality(x) as real;
      && DoubleSum(|x|, |x|, UpperPart(Outer(AsReals(x)))) == (s * s - s) / 2.0
      && DoubleSum(|x|, |x|, DiagPart(Outer(AsReals(x)))) == s
  {
    UpperPairs(x);
    DoubleSumDiagonal(|x|, Outer(AsReals(x)));
    SquaresOfBinary(x);
  }
}
