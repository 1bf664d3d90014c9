/** The QUBO matrices of the k-sparsest-subgraph penalty method, built from an
    adjacency matrix A and the penalty parameters (lambda, mu, k):
    `QuboTriU.update` (upper triangular) and `QuboSym.update` (symmetric). */
module Qubo {
  import opened Sums
  import opened Matrices

  /** The diagonal entry -lambda + mu/2 - mu k. */
  function Linear(l: real, mu: real, k: real): real
  {
    -l + mu / 2.0 - mu * k
  }

  /** `QuboTriU.update`: A + mu strictly above the diagonal, 0 below it, and the
      linear coefficient on the diagonal. */
  function TriU(a: Matrix, l: real, mu: real, k: real): (q: Matrix)
    requires Square(a)
    ensures IsSquare(q, |a|)
    ensures forall i, j :: 0 <= i < j < |a| ==> q[i][j] == a[i][j] + mu && q[j][i] == 0.0
    ensures forall i :: 0 <= i < |a| ==> q[i][i] == Linear(l, mu, k)
  {
    seq(|a|, i requires 0 <= i < |a| =>
      seq(|a|, j requires 0 <= j < |a| =>
        if i < j then a[i][j] + mu else if i == j then Linear(l, mu, k) else 0.0))
  }

  /** `QuboSym.update`: the symmetric part 1/2 (Q + Q^T) of the triangular QUBO. */
  function Sym(a: Matrix, l: real, mu: real, k: real): (q: Matrix)
    requires Square(a)
    ensures IsSquare(q, |a|) && Symmetric(q)
  {
    SymPart(TriU(a, l, mu, k))
  }

  /** Sum over i < j of a_ij x_i x_j: for a 0/1 adjacency matrix, the number of
      edges inside the node set that x selects. */
  function InnerEdges(a: Matrix, x: seq<real>): real
  {
    DoubleSum(|x|, |x|, UpperPart(Terms(a, x)))
  }

  /** Both forms have the same objective value on every vector. */
  lemma {:induction false} SymSameObjective(a: Matrix, l: real, mu: real, k: real, x: seq<real>)
    requires Square(a) && |x| == |a|
    ensures QuadForm(Sym(a, l, mu, k), x) == QuadForm(TriU(a, l, mu, k), x)
  {
    QuadFormSymPart(TriU(a, l, mu, k), x);
  }

  /** mu x_i x_j above the diagonal and c x_i x_i on it. */
  function PenaltyTerms(mu: real, c: real, x: seq<real>): (int, int) -> real
  {
    (i, j) => mu * UpperPart(Outer(x))(i, j) + c * DiagPart(Outer(x))(i, j)
  }

  lemma {:induction false} TriUTerm(a: Matrix, l: real, mu: real, k: real, x: seq<real>, i: int, j: int)
    requires Square(a) && |x| == |a| && 0 <= i < |x| && 0 <= j < |x|
    ensures Terms(TriU(a, l, mu, k), x)(i, j)
         == 1.0 * UpperPart(Terms(a, x))(i, j) + 1.0 * PenaltyTerms(mu, Linear(l, mu, k), x)(i, j)
  {
    var q, c, rest := TriU(a, l, mu, k), Linear(l, mu, k), PenaltyTerms(mu, Linear(l, mu, k), x);
    var xi, xj := x[i], x[j];
    assert Outer(x)(i, j) == xi * xj;
    if i < j {
      assert Terms(q, x)(i, j) == (a[i][j] + mu) * xi * xj;
      assert UpperPart(Terms(a, x))(i, j) == a[i][j] * xi * xj;
      assert UpperPart(Outer(x))(i, j) == Outer(x)(i, j) && DiagPart(Outer(x))(i, j) == 0.0;
      assert rest(i, j) == mu * (xi * xj) + c * 0.0;
    } else if i == j {
      assert Terms(q, x)(i, j) == c * xi * xj;
      assert UpperPart(Terms(a, x))(i, j) == 0.0;
      assert UpperPart(Outer(x))(i, j) == 0.0 && DiagPart(Outer(x))(i, j) == Outer(x)(i, j);
      assert rest(i, j) == mu * 0.0 + c * (xi * xj);
    } else {
      assert Terms(q, x)(i, j) == 0.0 * xi * xj;
      assert UpperPart(Terms(a, x))(i, j) == 0.0;
      assert UpperPart(Outer(x))(i, j) == 0.0 && DiagPart(Outer(x))(i, j) == 0.0;
      assert rest(i, j) == mu * 0.0 + c * 0.0;
    }
  }

  lemma {:induction false} TriUTerms(a: Matrix, l: real, mu: real, k: real, x: seq<real>)
    requires Square(a) && |x| == |a|
    ensures forall i, j :: 0 <= i < |x| && 0 <= j < |x| ==>
      Terms(TriU(a, l, mu, k), x)(i, j)
      == 1.0 * UpperPart(Terms(a, x))(i, j) + 1.0 * PenaltyTerms(mu, Linear(l, mu, k), x)(i, j)
  {
    forall i, j | 0 <= i < |x| && 0 <= j < |x|
      ensures Terms(TriU(a, l, mu, k), x)(i, j)
           == 1.0 * UpperPart(Terms(a, x))(i, j) + 1.0 * PenaltyTerms(mu, Linear(l, mu, k), x)(i, j)
    {
      TriUTerm(a, l, mu, k, x, i, j);
    }
  }

  /** The triangular QUBO is the edge part plus the penalty part. */
  lemma {:induction false} TriUEdgesAndPenalty(a: Matrix, l: real, mu: real, k: real, x: seq<real>)
    requires Square(a) && |x| == |a|
    ensures QuadForm(TriU(a, l, mu, k), x)
         == InnerEdges(a, x) + DoubleSum(|x|, |x|, PenaltyTerms(mu, Linear(l, mu, k), x))
  {
    var n, q, c := |x|, TriU(a, l, mu, k), Linear(l, mu, k);
    TriUTerms(a, l, mu, k, x);
    DoubleSumLinear(n, n, 1.0, 1.0, UpperPart(Terms(a, x)), PenaltyTerms(mu, c, x), Terms(q, x));
  }

  /** The penalty part is mu times the number of pairs plus c times the number
      of chosen nodes, given those two counts. */
  lemma {:induction false} PenaltyAtCounts(x: seq<real>, mu: real, c: real, pairs: real, size: real)
    requires DoubleSum(|x|, |x|, UpperPart(Outer(x))) == pairs
    requires DoubleSum(|x|, |x|, DiagPart(Outer(x))) == size
    ensures DoubleSum(|x|, |x|, PenaltyTerms(mu, c, x)) == mu * pairs + c * size
  {
    DoubleSumLinear(|x|, |x|, mu, c, UpperPart(Outer(x)), DiagPart(Outer(x)), PenaltyTerms(mu, c, x));
  }

  /** The k-sparsest-subgraph penalty of a node set of size s:
        -lambda s + mu/2 (s - k)^2 - mu k^2 / 2. */
  function Penalty(l: real, mu: real, k: real, s: real): real
  {
    -l * s + mu / 2.0 * (s - k) * (s - k) - mu * k * k / 2.0
  }

  lemma {:induction false} PenaltyAlgebra(l: real, mu: real, k: real, c: real, total: real, pairs: real, s: real)
    requires total == mu * pairs + c * s
    requires pairs == (s * s - s) / 2.0 && c == -l + mu / 2.0 - mu * k
    ensures total == Penalty(l, mu, k, s)
  {
  }

  /** On a 0/1 vector with s ones the penalty terms add up to the penalty of s. */
  lemma {:induction false} PenaltyOfBinary(l: real, mu: real, k: real, c: real, x: seq<int>)
    requires IsBinary(x) && c == -l + mu / 2.0 - mu * k
    ensures DoubleSum(|x|, |x|, PenaltyTerms(mu, c, AsReals(x))) == Penalty(l, mu, k, Cardinality(x) as real)
  {
    var xr, s := AsReals(x), Cardinality(x) as real;
    var pairs := (s * s - s) / 2.0;
    BinaryPairCounts(x);
    PenaltyAtCounts(xr, mu, c, pairs, s);
    PenaltyAlgebra(l, mu, k, c, DoubleSum(|x|, |x|, PenaltyTerms(mu, c, xr)), pairs, s);
  }

  /** On a 0/1 vector x with s ones the triangular QUBO is the penalised
      objective of the k-sparsest-subgraph problem: x^T Q x is the number of
      edges inside x plus the penalty of s. */
  lemma {:induction false} TriUObjective(a: Matrix, l: real, mu: real, k: real, x: seq<int>)
    requires Square(a) && |x| == |a| && IsBinary(x)
    ensures QuadForm(TriU(a, l, mu, k), AsReals(x))
         == InnerEdges(a, AsReals(x)) + Penalty(l, mu, k, Cardinality(x) as real)
  {
    TriUEdgesAndPenalty(a, l, mu, k, AsReals(x));
    PenaltyOfBinary(l, mu, k, Linear(l, mu, k), x);
  }

  /** The same objective for the symmetric form. */
  lemma {:induction false} SymObjective(a: Matrix, l: real, mu: real, k: real, x: seq<int>)
    requires Square(a) && |x| == |a| && IsBinary(x)
    ensures QuadForm(Sym(a, l, mu, k), AsReals(x))
         == InnerEdges(a, AsReals(x)) + Penalty(l, mu, k, Cardinality(x) as real)
  {
    SymSameObjective(a, l, mu, k, AsReals(x));
    TriUObjective(a, l, mu, k, x);
  }
}
