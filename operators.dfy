/** The linear operators of the bounding routine, on n x n matrices stored
    flat with entry (a, b) at `X[a + b * n]`: `diag` and `Diag`, and the
    cutting-plane operator B of the triangle, pentagonal and heptagonal
    inequalities (`op_B`) with its adjoint (`op_Bt`). The cut lists, globals
    in the source, are parameters. */
module Operators {
  import opened Wrappers
  import opened Sums

  // ---------------------------------------------------------------------
  // Flat storage

  /** The position a + b n of entry (a, b) of an n x n matrix, as n added b
      times to a (AtIsProduct). */
  function At(a: int, b: int, n: int): int
    decreases if b < 0 then 0 else b
  {
    if b <= 0 then a else At(a, b - 1, n) + n
  }

  lemma {:induction false} AtIsProduct(a: int, b: nat, n: int)
    ensures At(a, b, n) == a + b * n
  {
    if b > 0 {
      AtIsProduct(a, b - 1, n);
    }
  }

  /** The length n n of an n x n matrix, as a position (SquareIsProduct). */
  function Square(n: int): int
  {
    At(0, n, n)
  }

  lemma {:induction false} SquareIsProduct(n: nat)
    ensures Square(n) == n * n
  {
    AtIsProduct(0, n, n);
  }

  lemma {:induction false} AtOffset(a: int, b: nat, n: int)
    ensures At(a, b, n) == a + At(0, b, n)
  {
    if b > 0 {
      AtOffset(a, b - 1, n);
    }
  }

  lemma {:induction false} AtMono(b: nat, c: nat, n: int)
    requires b <= c && 0 <= n
    ensures At(0, b, n) <= At(0, c, n)
  {
    if b < c {
      AtMono(b, c - 1, n);
    }
  }

  /** Column b occupies positions [b n, b n + n) of [0, n n). */
  lemma {:induction false} AtBounds(a: int, b: nat, n: int)
    requires 0 <= a < n && b < n
    ensures 0 <= At(0, b, n) <= At(a, b, n) < At(0, b + 1, n) <= Square(n)
  {
    AtMono(0, b, n);
    AtOffset(a, b, n);
    AtMono(b + 1, n, n);
  }

  /** Every entry of an n x n matrix has a position in [0, n n). */
  lemma {:induction false} AtInRange(n: nat)
    ensures forall a: int, b: nat :: 0 <= a < n && b < n ==> 0 <= At(a, b, n) < Square(n)
  {
    forall a: int, b: nat | 0 <= a < n && b < n
      ensures 0 <= At(a, b, n) < Square(n)
    {
      AtBounds(a, b, n);
    }
  }

  /** Distinct entries have distinct positions. */
  lemma {:induction false} AtInjective(a: int, b: nat, c: int, d: nat, n: int)
    requires 0 <= a < n && b < n && 0 <= c < n && d < n
    requires At(a, b, n) == At(c, d, n)
    ensures a == c && b == d
  {
    AtBounds(a, b, n);
    AtBounds(c, d, n);
    if b < d {
      AtMono(b + 1, d, n);
    } else if d < b {
      AtMono(d + 1, b, n);
    }
    AtOffset(a, b, n);
    AtOffset(c, d, n);
  }

  /** The n x n matrix a flat array of n n entries stores, row i holding the
      entries X[j + i n]. */
  function Unflatten(xs: seq<real>, n: nat): (m: seq<seq<real>>)
    requires |xs| == Square(n)
    ensures |m| == n && forall i :: 0 <= i < n ==> |m[i]| == n
    ensures forall i, j :: 0 <= i < n && 0 <= j < n ==>
      0 <= At(j, i, n) < |xs| && m[i][j] == xs[At(j, i, n)]
  {
    AtInRange(n);
    seq(n, i requires 0 <= i < n =>
      seq(n, j requires 0 <= j < n => xs[At(j, i, n)]))
  }

  /** The diagonal of an n x n matrix. */
  function DiagonalOf(m: seq<seq<real>>, n: nat): (d: seq<real>)
    requires |m| == n && forall i :: 0 <= i < n ==> |m[i]| == n
    ensures |d| == n && forall i :: 0 <= i < n ==> d[i] == m[i][i]
  {
    seq(n, i requires 0 <= i < n => m[i][i])
  }

  /** The n x n matrix with d on its diagonal and zeros elsewhere. */
  function DiagonalMatrix(d: seq<real>): (m: seq<seq<real>>)
    ensures |m| == |d| && forall i :: 0 <= i < |d| ==> |m[i]| == |d|
    ensures forall i, j :: 0 <= i < |d| && 0 <= j < |d| ==> m[i][j] == if i == j then d[i] else 0.0
  {
    seq(|d|, i requires 0 <= i < |d| =>
      seq(|d|, j requires 0 <= j < |d| => if i == j then d[i] else 0.0))
  }

  /** `diag` after `Diag` returns the vector, and `Diag` of the diagonal of a
      diagonal matrix is that matrix. */
  lemma {:induction false} DiagonalRoundTrip(d: seq<real>, m: seq<seq<real>>)
    requires |m| == |d| && forall i :: 0 <= i < |d| ==> |m[i]| == |d|
    ensures DiagonalOf(DiagonalMatrix(d), |d|) == d
    ensures (forall i, j :: 0 <= i < |d| && 0 <= j < |d| && i != j ==> m[i][j] == 0.0)
        ==> DiagonalMatrix(DiagonalOf(m, |d|)) == m
  {
    var n := |d|;
    assert DiagonalOf(DiagonalMatrix(d), n) == d;
    if forall i, j :: 0 <= i < n && 0 <= j < n && i != j ==> m[i][j] == 0.0 {
      var r := DiagonalMatrix(DiagonalOf(m, n));
      forall i | 0 <= i < n
        ensures r[i] == m[i]
      {
        assert forall j :: 0 <= j < n ==> r[i][j] == m[i][j];
      }
    }
  }

  /** `diag(X, y, n)`: y[i] := X[i + i n] for every i < n. */
  method ExtractDiagonal(X: array<real>, y: array<real>, n: nat)
    requires X.Length == Square(n) && y.Length >= n && X != y
    modifies y
    ensures y[..n] == DiagonalOf(Unflatten(X[..], n), n)
    ensures y[n..] == old(y[n..])
  {
    AtInRange(n);
    for i := 0 to n
      invariant forall k :: 0 <= k < i ==> y[k] == X[At(k, k, n)]
      invariant y[n..] == old(y[n..])
    {
      y[i] := X[At(i, i, n)];
    }
    assert forall k :: 0 <= k < n ==> y[..n][k] == Unflatten(X[..], n)[k][k];
  }

  /** `Diag(X, y, n)`: X[i + i n] := y[i] and every other entry X[j + i n]
      := 0, so X holds Diag(y). */
  method MakeDiagonal(X: array<real>, y: array<real>, n: nat)
    requires X.Length == Square(n) && y.Length >= n && X != y
    modifies X
    ensures Unflatten(X[..], n) == DiagonalMatrix(y[..n])
  {
    AtInRange(n);
    for i := 0 to n
      invariant forall i', j :: 0 <= i' < i && 0 <= j < n ==>
        X[At(j, i', n)] == if i' == j then y[i'] else 0.0
    {
      for j := 0 to n
        invariant forall i', j' :: 0 <= i' < i && 0 <= j' < n ==>
          X[At(j', i', n)] == if i' == j' then y[i'] else 0.0
        invariant forall j' :: 0 <= j' < j ==> X[At(j', i, n)] == if i == j' then y[i] else 0.0
      {
        Written(X[..], n, i, j);
        if i == j {
          X[At(i, i, n)] := y[i];
        } else {
          X[At(j, i, n)] := 0.0;
        }
      }
    }
    var m, d := Unflatten(X[..], n), DiagonalMatrix(y[..n]);
    forall i | 0 <= i < n
      ensures m[i] == d[i]
    {
      assert forall j :: 0 <= j < n ==> m[i][j] == d[i][j];
    }
  }

  /** Writing entry (j, i) leaves the entries written before it in place:
      the columns before i and the entries of column i above j. */
  lemma {:induction false} Written(xs: seq<real>, n: nat, i: nat, j: int)
    requires 0 <= i < n && 0 <= j < n && |xs| == Square(n)
    ensures 0 <= At(j, i, n) < |xs|
    ensures forall i', j' :: 0 <= i' < n && 0 <= j' < n && (i' != i || j' != j) ==> At(j', i', n) != At(j, i, n)
  {
    AtBounds(j, i, n);
    forall i', j' | 0 <= i' < n && 0 <= j' < n && At(j', i', n) == At(j, i, n)
      ensures i' == i && j' == j
    {
      AtInjective(j', i', j, i, n);
    }
  }

  // ---------------------------------------------------------------------
  // Cutting planes

  /** A triangle inequality on vertices i, j, k; `kind` is documented as 1-4. */
  datatype TriangleInequality = TriangleInequality(i: int, j: int, k: int, kind: int)

  /** A pentagonal inequality on five vertices; `kind` is documented as 1-3. */
  datatype PentagonalInequality = PentagonalInequality(kind: int, permutation: seq<int>)

  /** A heptagonal inequality on seven vertices; `kind` is documented as 1-4. */
  datatype HeptagonalInequality = HeptagonalInequality(kind: int, permutation: seq<int>)

  /** The three cut lists; row r of B(X) and of tt belongs to the triangles
      first, then to the pentagonal, then to the heptagonal inequalities. */
  datatype CutLists = CutLists(
    triangles: seq<TriangleInequality>,
    pentagonal: seq<PentagonalInequality>,
    heptagonal: seq<HeptagonalInequality>)

  datatype Family = Triangles | Pentagons | Heptagons

  /** One row of B: the family, the vertices in order and the kind. */
  datatype Cut = Cut(family: Family, vertices: seq<int>, kind: int)

  function Size(f: Family): nat
  {
    match f
    case Triangles => 3
    case Pentagons => 5
    case Heptagons => 7
  }

  /** The number of documented kinds of a family. */
  function Kinds(f: Family): nat
  {
    match f
    case Triangles => 4
    case Pentagons => 3
    case Heptagons => 4
  }

  predicate Documented(f: Family, kind: int)
  {
    1 <= kind <= Kinds(f)
  }


  /** The number of vertex pairs of a cut. */
  function PairCount(f: Family): nat
  {
    match f
    case Triangles => 3
    case Pentagons => 10
    case Heptagons => 21
  }

  /** Pair p of the cut's vertex pairs (a, b), a < b, in lexicographic order:
      the order in which the source's unrolled lines list the entries
      X[v_a + v_b N]. */
  function Pair(f: Family, p: nat): (nat, nat)
  {
    match f
    case Triangles =>
      if p < 2 then (0, p + 1) else (1, 2)
    case Pentagons =>
      if p < 4 then (0, p + 1)
      else if p < 7 then (1, p - 2)
      else if p < 9 then (2, p - 4)
      else (3, 4)
    case Heptagons =>
      if p < 6 then (0, p + 1)
      else if p < 11 then (1, p - 4)
      else if p < 15 then (2, p - 8)
      else if p < 18 then (3, p - 11)
      else if p < 20 then (4, p - 13)
      else (5, 6)
  }

  /** The pairs are the Size (Size - 1) / 2 pairs a < b < Size, each once, in
      strictly increasing lexicographic order. */
  lemma {:induction false} PairsInOrder(f: Family)
    ensures 2 * PairCount(f) == Size(f) * (Size(f) - 1)
    ensures forall p: nat :: p < PairCount(f) ==> Pair(f, p).0 < Pair(f, p).1 < Size(f)
    ensures forall p: nat :: p + 1 < PairCount(f) ==>
      var (a, b), (c, d) := Pair(f, p), Pair(f, p + 1);
      a < c || (a == c && b < d)
  {
  }

  /** The sign of one term: `+` or `-` in `op_B`, `+=` or `-=` in `op_Bt`. */
  datatype Op = Plus | Minus

  function Flip(o: Op): Op
  {
    if o == Plus then Minus else Plus
  }

  /** The sign of the product of two signs. */
  function Product(a: Op, b: Op): Op
  {
    if a == b then Plus else Minus
  }

  function Signed(o: Op, v: real): real
  {
    if o == Plus then v else -v
  }

  /** B's factor in front of the signed pair sum: 1, 1/2 and 1/3. */
  function Scaled(f: Family, v: real): real
  {
    match f
    case Triangles => v
    case Pentagons => 0.5 * v
    case Heptagons => 1.0 / 3.0 * v
  }

  /** `temp` of `op_Bt`: half of B's factor times tt[r], the other half going
      to the mirrored entry. */
  function Shared(f: Family, t: real): real
  {
    match f
    case Triangles => 0.5 * t
    case Pentagons => 0.25 * t
    case Heptagons => 1.0 / 6.0 * t
  }

  /** The sign of pair p in the case of `op_B`'s switch for the kind; a kind
      matching no case takes the `default` branch, written for the family's
      last kind. */
  function BSign(f: Family, kind: int, p: nat): Op
  {
    match f
    case Triangles =>
      if kind == 1 then Minus
      else if kind == 2 then (if p == 0 then Minus else Plus)
      else if kind == 3 then (if p == 1 then Minus else Plus)
      else (if p == 2 then Minus else Plus)
    case Pentagons =>
      if kind == 1 then Minus
      else if kind == 2 then (if p < 4 then Plus else Minus)
      else (if 1 <= p < 7 then Plus else Minus)
    case Heptagons =>
      if kind == 1 then Minus
      else if kind == 2 then (if p < 6 then Plus else Minus)
      else if kind == 3 then (if 1 <= p < 11 then Plus else Minus)
      else (if 2 <= p < 6 || 7 <= p < 15 then Plus else Minus)
  }

  /** `op_Bt`'s switch has a case for the kind: the triangle switch has a
      `default` branch, the pentagonal and heptagonal ones have none, so an
      undocumented kind of theirs changes nothing. */
  predicate Adjoined(f: Family, kind: int)
  {
    f == Triangles || Documented(f, kind)
  }

  /** The sign of the updates of pair p, to X[v_a + v_b N] and to
      X[v_b + v_a N], in the case of `op_Bt`'s switch for an adjoined kind. */
  function BtSign(f: Family, kind: int, p: nat): Op
  {
    match f
    case Triangles =>
      if kind == 1 then Plus
      else if kind == 2 then (if p == 0 then Plus else Minus)
      else if kind == 3 then (if p == 1 then Plus else Minus)
      else (if p == 2 then Plus else Minus)
    case Pentagons =>
      if kind == 1 then Plus
      else if kind == 2 then (if p < 4 then Minus else Plus)
      else (if 1 <= p < 7 then Minus else Plus)
    case Heptagons =>
      if kind == 1 then Plus
      else if kind == 2 then (if p < 6 then Minus else Plus)
      else if kind == 3 then (if 1 <= p < 11 then Minus else Plus)
      else (if 2 <= p < 6 || 7 <= p < 15 then Minus else Plus)
  }

  /** Entry v of the vector e of a documented kind, the inequality being
      <H, X(cut, cut)> >= 1 for H = e e^T with its diagonal dropped: all ones
      for kind 1, and for a pentagonal or heptagonal kind k the first k - 1
      entries negated. */
  function Signature(f: Family, kind: int, v: nat): Op
  {
    match f
    case Triangles =>
      if kind == 1 then Plus
      else if kind == 2 then (if v == 2 then Minus else Plus)
      else if kind == 3 then (if v == 1 then Minus else Plus)
      else (if v == 0 then Minus else Plus)
    case _ =>
      if v < kind - 1 then Minus else Plus
  }

  /** The sign of pair (a, b) in `op_B` is -e_a e_b. */
  predicate FromSignature(f: Family, kind: int)
  {
    forall p: nat :: p < PairCount(f) ==>
      BSign(f, kind, p) == Flip(Product(Signature(f, kind, Pair(f, p).0), Signature(f, kind, Pair(f, p).1)))
  }

  /** The sign of pair p in `op_Bt` is the opposite of its sign in `op_B`. */
  predicate Negated(f: Family, kind: int)
  {
    forall p: nat :: p < PairCount(f) ==> BtSign(f, kind, p) == Flip(BSign(f, kind, p))
  }

  /** Every documented kind of every family: `op_B`'s switch is -H = -e e^T
      off the diagonal. */
  lemma {:induction false} SignsFromSignature(f: Family, kind: int)
    requires Documented(f, kind)
    ensures FromSignature(f, kind)
  {
    match f
    case Triangles =>
    case Pentagons =>
    case Heptagons =>
      if kind == 1 {
      } else if kind == 2 {
      } else if kind == 3 {
      } else {
      }
  }

  /** Every kind `op_Bt` has a case for: its switch negates `op_B`'s, the
      triangle `default` branches included. */
  lemma {:induction false} SignsNegated(f: Family, kind: int)
    requires Adjoined(f, kind)
    ensures Negated(f, kind)
  {
  }

  /** A pentagonal or heptagonal cut of undocumented kind: `op_Bt` skips it,
      while `op_B` evaluates it as its last kind. */
  lemma {:induction false} UndocumentedKind(f: Family, kind: int, p: nat)
    requires f != Triangles && !Documented(f, kind)
    ensures !Adjoined(f, kind)
    ensures BSign(f, kind, p) == BSign(f, Kinds(f), p)
  {
  }

  /** The rows of the first n triangles. */
  function TriangleRows(ts: seq<TriangleInequality>, n: nat): (rows: seq<Cut>)
    requires n <= |ts|
    ensures |rows| == n
    ensures forall r :: 0 <= r < n ==> rows[r] == Cut(Triangles, [ts[r].i, ts[r].j, ts[r].k], ts[r].kind)
  {
    if n == 0 then []
    else
      var t := ts[n - 1];
      TriangleRows(ts, n - 1) + [Cut(Triangles, [t.i, t.j, t.k], t.kind)]
  }

  /** The rows of the first n pentagonal inequalities. */
  function PentagonRows(ps: seq<PentagonalInequality>, n: nat): (rows: seq<Cut>)
    requires n <= |ps|
    ensures |rows| == n
    ensures forall r :: 0 <= r < n ==> rows[r] == Cut(Pentagons, ps[r].permutation, ps[r].kind)
  {
    if n == 0 then [] else PentagonRows(ps, n - 1) + [Cut(Pentagons, ps[n - 1].permutation, ps[n - 1].kind)]
  }

  /** The rows of the first n heptagonal inequalities. */
  function HeptagonRows(hs: seq<HeptagonalInequality>, n: nat): (rows: seq<Cut>)
    requires n <= |hs|
    ensures |rows| == n
    ensures forall r :: 0 <= r < n ==> rows[r] == Cut(Heptagons, hs[r].permutation, hs[r].kind)
  {
    if n == 0 then [] else HeptagonRows(hs, n - 1) + [Cut(Heptagons, hs[n - 1].permutation, hs[n - 1].kind)]
  }

  /** The rows of B, in the order of y and tt. */
  function Rows(cuts: CutLists): (rows: seq<Cut>)
    ensures |rows| == |cuts.triangles| + |cuts.pentagonal| + |cuts.heptagonal|
    ensures forall r :: 0 <= r < |cuts.triangles| ==>
      var t := cuts.triangles[r]; rows[r] == Cut(Triangles, [t.i, t.j, t.k], t.kind)
    ensures forall r :: 0 <= r < |cuts.pentagonal| ==>
      var c := cuts.pentagonal[r]; rows[|cuts.triangles| + r] == Cut(Pentagons, c.permutation, c.kind)
    ensures forall r :: 0 <= r < |cuts.heptagonal| ==>
      var c := cuts.heptagonal[r];
      rows[|cuts.triangles| + |cuts.pentagonal| + r] == Cut(Heptagons, c.permutation, c.kind)
  {
    TriangleRows(cuts.triangles, |cuts.triangles|)
      + PentagonRows(cuts.pentagonal, |cuts.pentagonal|)
      + HeptagonRows(cuts.heptagonal, |cuts.heptagonal|)
  }

  /** The cut has its family's number of vertices, all of them in [0, N). */
  predicate Placed(c: Cut, N: nat)
  {
    |c.vertices| == Size(c.family) && forall v :: 0 <= v < |c.vertices| ==> 0 <= c.vertices[v] < N
  }

  predicate AllPlaced(rows: seq<Cut>, N: nat)
  {
    forall r :: 0 <= r < |rows| ==> Placed(rows[r], N)
  }

  function Value(xs: seq<real>, p: int): real
  {
    if 0 <= p < |xs| then xs[p] else 0.0
  }

  function Vertex(c: Cut, a: int): int
  {
    if 0 <= a < |c.vertices| then c.vertices[a] else 0
  }

  /** The position v_a + v_b N of pair p = (a, b), or with `mirrored` the
      position v_b + v_a N. */
  function PairPosition(c: Cut, N: nat, p: nat, mirrored: bool): int
  {
    var u, v := Vertex(c, Pair(c.family, p).0), Vertex(c, Pair(c.family, p).1);
    if mirrored then At(v, u, N) else At(u, v, N)
  }

  /** Pair p of a placed cut sits at (u, v) and its mirror at (v, u), for two
      vertices u, v < N, both inside the N x N matrix. */
  lemma {:induction false} PositionInRange(c: Cut, N: nat, p: nat)
    requires Placed(c, N) && p < PairCount(c.family)
    ensures var u, v := Vertex(c, Pair(c.family, p).0), Vertex(c, Pair(c.family, p).1);
      && 0 <= u < N && 0 <= v < N
      && PairPosition(c, N, p, false) == At(u, v, N) && PairPosition(c, N, p, true) == At(v, u, N)
      && 0 <= At(u, v, N) < Square(N) && 0 <= At(v, u, N) < Square(N)
  {
    PairsInOrder(c.family);
    var u, v := Vertex(c, Pair(c.family, p).0), Vertex(c, Pair(c.family, p).1);
    AtBounds(u, v, N);
    AtBounds(v, u, N);
  }

  /** The sum over the first n pairs of X at their positions, each with its
      sign in `op_B`. */
  function PairSum(xs: seq<real>, N: nat, c: Cut, n: nat): real
  {
    if n == 0 then 0.0
    else PairSum(xs, N, c, n - 1) + Signed(BSign(c.family, c.kind, n - 1), Value(xs, PairPosition(c, N, n - 1, false)))
  }

  /** The linear form of row c of B: the family's factor times the signed sum
      of the entries X[v_a + v_b N] over the cut's pairs. */
  function Form(xs: seq<real>, N: nat, c: Cut): real
  {
    Scaled(c.family, PairSum(xs, N, c, PairCount(c.family)))
  }

  /** `op_B(P, y, X)`: y[r] -= B(X)[r] for every row r; X and the rest of y are
      untouched. */
  method OpB(cuts: CutLists, N: nat, y: array<real>, X: array<real>)
    requires X.Length == Square(N) && y.Length >= |Rows(cuts)| && y != X
    modifies y
    ensures forall r :: 0 <= r < |Rows(cuts)| ==> y[r] == old(y[r]) - Form(X[..], N, Rows(cuts)[r])
    ensures y[|Rows(cuts)|..] == old(y[|Rows(cuts)|..])
  {
    var rows, xs := Rows(cuts), X[..];
    var nt, np, nh := |cuts.triangles|, |cuts.pentagonal|, |cuts.heptagonal|;
    SubtractForms(y, xs, N, rows, 0, nt);
    SubtractForms(y, xs, N, rows, nt, np);
    SubtractForms(y, xs, N, rows, nt + np, nh);
  }

  /** One loop of `op_B`: y[offset + ineq] -= B(X)[offset + ineq] for
      ineq < count. */
  method SubtractForms(y: array<real>, xs: seq<real>, N: nat, rows: seq<Cut>, offset: nat, count: nat)
    requires offset + count <= |rows| <= y.Length
    modifies y
    ensures forall r :: offset <= r < offset + count ==> y[r] == old(y[r]) - Form(xs, N, rows[r])
    ensures forall r :: 0 <= r < y.Length && !(offset <= r < offset + count) ==> y[r] == old(y[r])
  {
    for ineq := 0 to count
      invariant forall r :: offset <= r < offset + ineq ==> y[r] == old(y[r]) - Form(xs, N, rows[r])
      invariant forall r :: 0 <= r < y.Length && !(offset <= r < offset + ineq) ==> y[r] == old(y[r])
    {
      y[offset + ineq] := y[offset + ineq] - Form(xs, N, rows[offset + ineq]);
    }
  }

  // ---------------------------------------------------------------------
  // op_Bt

  /** The positions of the cut's pairs in pair order: v_a + v_b N, or with
      `mirrored` v_b + v_a N. */
  function Positions(c: Cut, N: nat, mirrored: bool): (ps: seq<int>)
    ensures |ps| == PairCount(c.family)
    ensures forall p :: 0 <= p < |ps| ==> ps[p] == PairPosition(c, N, p, mirrored)
  {
    seq(PairCount(c.family), p => if 0 <= p then PairPosition(c, N, p, mirrored) else 0)
  }

  /** The signs of `op_Bt`'s updates in pair order. */
  function BtSigns(f: Family, kind: int): (os: seq<Op>)
    ensures |os| == PairCount(f)
    ensures forall p :: 0 <= p < |os| ==> os[p] == BtSign(f, kind, p)
  {
    seq(PairCount(f), p => if 0 <= p then BtSign(f, kind, p) else Plus)
  }

  /** Every position of a placed cut lies inside X. */
  lemma {:induction false} PositionsInRange(c: Cut, N: nat, mirrored: bool)
    requires Placed(c, N)
    ensures forall p :: 0 <= p < |Positions(c, N, mirrored)| ==> 0 <= Positions(c, N, mirrored)[p] < Square(N)
  {
    var ps := Positions(c, N, mirrored);
    forall p | 0 <= p < |ps|
      ensures 0 <= ps[p] < Square(N)
    {
      PositionInRange(c, N, p);
    }
  }

  /** X[p] += amount, for a position p of X. */
  function Add(xs: seq<real>, p: int, amount: real): (ys: seq<real>)
    ensures |ys| == |xs|
  {
    if 0 <= p < |xs| then xs[p := xs[p] + amount] else xs
  }

  /** X after the first n updates X[ps[i]] += temp with sign os[i]. */
  function Spread(xs: seq<real>, ps: seq<int>, os: seq<Op>, temp: real, n: nat): (ys: seq<real>)
    requires n <= |ps| && n <= |os|
    ensures |ys| == |xs|
  {
    if n == 0 then xs else Add(Spread(xs, ps, os, temp, n - 1), ps[n - 1], Signed(os[n - 1], temp))
  }

  /** X after `op_Bt`'s updates for row c with multiplier t: temp =
      Shared(f, t) added with each pair's sign, first at every X[v_a + v_b N]
      and then at every X[v_b + v_a N]. */
  function RowApplied(xs: seq<real>, c: Cut, N: nat, t: real): (ys: seq<real>)
    ensures |ys| == |xs|
  {
    if Adjoined(c.family, c.kind) then
      var temp, os, k := Shared(c.family, t), BtSigns(c.family, c.kind), PairCount(c.family);
      Spread(Spread(xs, Positions(c, N, false), os, temp, k), Positions(c, N, true), os, temp, k)
    else xs
  }

  /** X after the rows before r. */
  function Stage(x0: seq<real>, rows: seq<Cut>, N: nat, tt: seq<real>, r: nat): (ys: seq<real>)
    requires r <= |rows| && r <= |tt|
    ensures |ys| == |x0|
  {
    if r == 0 then x0 else RowApplied(Stage(x0, rows, N, tt, r - 1), rows[r - 1], N, tt[r - 1])
  }

  /** `op_Bt(P, X, tt)`: X := X - Bt(tt), the rows' updates applied in the
      order of the three loops. */
  method OpBt(cuts: CutLists, N: nat, X: array<real>, tt: array<real>)
    requires X.Length == Square(N) && tt.Length >= |Rows(cuts)| && X != tt
    requires AllPlaced(Rows(cuts), N)
    modifies X
    ensures X[..] == Stage(old(X[..]), Rows(cuts), N, tt[..], |Rows(cuts)|)
  {
    var rows, ts := Rows(cuts), tt[..];
    ghost var x0 := X[..];
    var triangles := |cuts.triangles|;
    var pentagons := triangles + |cuts.pentagonal|;
    var heptagons := |rows|;
    ApplyRows(X, N, rows, ts, 0, triangles, x0);
    ApplyRows(X, N, rows, ts, triangles, pentagons, x0);
    ApplyRows(X, N, rows, ts, pentagons, heptagons, x0);
  }

  /** One loop of `op_Bt`: the rows from .. to - 1. */
  method ApplyRows(X: array<real>, N: nat, rows: seq<Cut>, ts: seq<real>, from: nat, to: nat, ghost x0: seq<real>)
    requires X.Length == Square(N) && from <= to <= |rows| <= |ts| && AllPlaced(rows, N)
    requires X[..] == Stage(x0, rows, N, ts, from)
    modifies X
    ensures X[..] == Stage(x0, rows, N, ts, to)
  {
    for r := from to to
      invariant X[..] == Stage(x0, rows, N, ts, r)
    {
      ApplyRow(X, N, rows[r], ts[r]);
    }
  }

  /** `op_Bt` for one row: temp := Shared(f, tt[r]), then the switch's
      updates. */
  method ApplyRow(X: array<real>, N: nat, c: Cut, t: real)
    requires X.Length == Square(N) && Placed(c, N)
    modifies X
    ensures X[..] == RowApplied(old(X[..]), c, N, t)
  {
    var temp := Shared(c.family, t);
    if Adjoined(c.family, c.kind) {
      var os := BtSigns(c.family, c.kind);
      PositionsInRange(c, N, false);
      PositionsInRange(c, N, true);
      SpreadInPlace(X, Positions(c, N, false), os, temp);
      SpreadInPlace(X, Positions(c, N, true), os, temp);
    }
  }

  /** X[ps[i]] += temp with sign os[i] for every i in order: the upper or the
      lower half of a case of `op_Bt`'s switch. */
  method SpreadInPlace(X: array<real>, ps: seq<int>, os: seq<Op>, temp: real)
    requires |ps| == |os| && forall i :: 0 <= i < |ps| ==> 0 <= ps[i] < X.Length
    modifies X
    ensures X[..] == Spread(old(X[..]), ps, os, temp, |ps|)
  {
    ghost var x0 := X[..];
    for i := 0 to |ps|
      invariant X[..] == Spread(x0, ps, os, temp, i)
    {
      var q := ps[i];
      if os[i] == Plus {
        X[q] := X[q] + temp;
      } else {
        X[q] := X[q] - temp;
      }
    }
  }

  // ---------------------------------------------------------------------
  // Symmetry

  /** X is symmetric as an N x N matrix. */
  predicate SymmetricFlat(xs: seq<real>, N: nat)
  {
    forall a, b :: 0 <= a < N && 0 <= b < N ==> Value(xs, At(a, b, N)) == Value(xs, At(b, a, N))
  }

  /** What the first n updates add at position q. */
  function Added(ps: seq<int>, os: seq<Op>, temp: real, n: nat, q: int): real
    requires n <= |ps| && n <= |os|
  {
    if n == 0 then 0.0
    else Added(ps, os, temp, n - 1, q) + if ps[n - 1] == q then Signed(os[n - 1], temp) else 0.0
  }

  /** Each entry ends as its old value plus what the updates add there. */
  lemma {:induction false} SpreadValue(xs: seq<real>, ps: seq<int>, os: seq<Op>, temp: real, n: nat, q: int)
    requires n <= |ps| && n <= |os| && 0 <= q < |xs|
    ensures Spread(xs, ps, os, temp, n)[q] == xs[q] + Added(ps, os, temp, n, q)
  {
    if n > 0 {
      SpreadValue(xs, ps, os, temp, n - 1, q);
    }
  }

  /** The upper half adds at (a, b) what the lower half adds at (b, a). */
  lemma {:induction false} AddedMirror(c: Cut, N: nat, temp: real, n: nat, a: int, b: int)
    requires Placed(c, N) && n <= PairCount(c.family) && 0 <= a < N && 0 <= b < N
    ensures var os := BtSigns(c.family, c.kind);
      Added(Positions(c, N, false), os, temp, n, At(a, b, N)) == Added(Positions(c, N, true), os, temp, n, At(b, a, N))
  {
    if n > 0 {
      AddedMirror(c, N, temp, n - 1, a, b);
      PositionInRange(c, N, n - 1);
      var u, v := Vertex(c, Pair(c.family, n - 1).0), Vertex(c, Pair(c.family, n - 1).1);
      if At(u, v, N) == At(a, b, N) {
        AtInjective(u, v, a, b, N);
      }
      if At(v, u, N) == At(b, a, N) {
        AtInjective(v, u, b, a, N);
      }
    }
  }

  /** One row of `op_Bt` keeps a symmetric X symmetric. */
  lemma {:induction false} RowKeepsSymmetry(xs: seq<real>, c: Cut, N: nat, t: real)
    requires |xs| == Square(N) && SymmetricFlat(xs, N) && Placed(c, N)
    ensures SymmetricFlat(RowApplied(xs, c, N, t), N)
  {
    if Adjoined(c.family, c.kind) {
      var temp, os, k := Shared(c.family, t), BtSigns(c.family, c.kind), PairCount(c.family);
      var upper, lower := Positions(c, N, false), Positions(c, N, true);
      var h := Spread(xs, upper, os, temp, k);
      var ys := Spread(h, lower, os, temp, k);
      AtInRange(N);
      forall a, b | 0 <= a < N && 0 <= b < N
        ensures Value(ys, At(a, b, N)) == Value(ys, At(b, a, N))
      {
        var ab, ba := At(a, b, N), At(b, a, N);
        SpreadValue(xs, upper, os, temp, k, ab);
        SpreadValue(xs, upper, os, temp, k, ba);
        SpreadValue(h, lower, os, temp, k, ab);
        SpreadValue(h, lower, os, temp, k, ba);
        AddedMirror(c, N, temp, k, a, b);
        AddedMirror(c, N, temp, k, b, a);
      }
    }
  }

  /** `op_Bt` keeps a symmetric X symmetric. */
  lemma {:induction false} BtKeepsSymmetry(x0: seq<real>, rows: seq<Cut>, N: nat, tt: seq<real>, r: nat)
    requires |x0| == Square(N) && SymmetricFlat(x0, N)
    requires r <= |rows| && r <= |tt| && AllPlaced(rows, N)
    ensures SymmetricFlat(Stage(x0, rows, N, tt, r), N)
  {
    if r > 0 {
      BtKeepsSymmetry(x0, rows, N, tt, r - 1);
      RowKeepsSymmetry(Stage(x0, rows, N, tt, r - 1), rows[r - 1], N, tt[r - 1]);
    }
  }

  // ---------------------------------------------------------------------
  // Adjointness

  /** The Frobenius inner product of the first n entries of two flattened
      matrices. */
  function Inner(xs: seq<real>, x: seq<real>, n: nat): real
    requires n <= |xs| && n <= |x|
  {
    if n == 0 then 0.0 else Inner(xs, x, n - 1) + xs[n - 1] * x[n - 1]
  }

  /** The sum of X at the first n positions, each with its sign. */
  function SignedValues(xs: seq<real>, ps: seq<int>, os: seq<Op>, n: nat): real
    requires n <= |ps| && n <= |os|
  {
    if n == 0 then 0.0 else SignedValues(xs, ps, os, n - 1) + Signed(os[n - 1], Value(xs, ps[n - 1]))
  }

  /** X[p] += amount changes <xs, X> over the first n entries by amount xs[p]
      if p < n. */
  lemma {:induction false} AddDot(xs: seq<real>, x: seq<real>, p: int, amount: real, n: nat)
    requires |xs| == |x| && n <= |x|
    ensures Inner(xs, Add(x, p, amount), n) == Inner(xs, x, n) + if 0 <= p < n then Scale(Value(xs, p), amount) else 0.0
  {
    if n > 0 {
      AddDot(xs, x, p, amount, n - 1);
      if p == n - 1 {
        assert xs[p] * (x[p] + amount) == xs[p] * x[p] + xs[p] * amount;
      }
    }
  }

  /** X[p] += amount changes <xs, X> by amount xs[p]. */
  lemma {:induction false} AddInner(xs: seq<real>, x: seq<real>, p: int, amount: real)
    requires |xs| == |x|
    ensures Inner(xs, Add(x, p, amount), |xs|) == Inner(xs, x, |xs|) + Scale(Value(xs, p), amount)
  {
    AddDot(xs, x, p, amount, |xs|);
  }

  /** The updates change <xs, X> by temp times their signed sum over xs. */
  lemma {:induction false} SpreadDot(xs: seq<real>, x: seq<real>, ps: seq<int>, os: seq<Op>, temp: real, n: nat)
    requires |xs| == |x| && n <= |ps| && n <= |os|
    ensures Inner(xs, Spread(x, ps, os, temp, n), |xs|) == Inner(xs, x, |xs|) + Scale(temp, SignedValues(xs, ps, os, n))
  {
    if n > 0 {
      var m := n - 1;
      var a := Spread(x, ps, os, temp, m);
      SpreadDot(xs, x, ps, os, temp, m);
      AddInner(xs, a, ps[m], Signed(os[m], temp));
      SpreadStep(Inner(xs, Spread(x, ps, os, temp, n), |xs|), Inner(xs, a, |xs|), Inner(xs, x, |xs|),
        Value(xs, ps[m]), os[m], temp, SignedValues(xs, ps, os, m), SignedValues(xs, ps, os, n));
    }
  }

  lemma {:induction false} SpreadStep(d2: real, d1: real, d0: real, v: real, o: Op, temp: real, s: real, t: real)
    requires d2 == d1 + Scale(v, Signed(o, temp)) && d1 == d0 + Scale(temp, s) && t == s + Signed(o, v)
    ensures d2 == d0 + Scale(temp, t)
  {
    if o == Plus {
      assert v * temp == temp * v;
    } else {
      assert v * -temp == temp * -v;
    }
  }

  /** On a symmetric X, `op_Bt`'s signed sums over either half are minus
      `op_B`'s. */
  lemma {:induction false} FlippedSum(xs: seq<real>, N: nat, c: Cut, n: nat)
    requires SymmetricFlat(xs, N) && Placed(c, N) && n <= PairCount(c.family) && Negated(c.family, c.kind)
    ensures var os := BtSigns(c.family, c.kind);
      && SignedValues(xs, Positions(c, N, false), os, n) == -PairSum(xs, N, c, n)
      && SignedValues(xs, Positions(c, N, true), os, n) == -PairSum(xs, N, c, n)
  {
    if n > 0 {
      FlippedSum(xs, N, c, n - 1);
      PositionInRange(c, N, n - 1);
      var u, v := Vertex(c, Pair(c.family, n - 1).0), Vertex(c, Pair(c.family, n - 1).1);
      assert Value(xs, At(u, v, N)) == Value(xs, At(v, u, N));
    }
  }

  /** For symmetric X and a documented kind, a row of `op_Bt` changes
      <X, .> by -t times the row's B form. */
  lemma {:induction false} RowAdjoint(xs: seq<real>, x: seq<real>, c: Cut, N: nat, t: real)
    requires |xs| == Square(N) && |x| == Square(N) && SymmetricFlat(xs, N)
    requires Placed(c, N) && Documented(c.family, c.kind)
    ensures Inner(xs, RowApplied(x, c, N, t), |xs|) == Inner(xs, x, |xs|) - Scale(t, Form(xs, N, c))
  {
    SignsNegated(c.family, c.kind);
    var temp, os, k := Shared(c.family, t), BtSigns(c.family, c.kind), PairCount(c.family);
    var upper, lower := Positions(c, N, false), Positions(c, N, true);
    var h := Spread(x, upper, os, temp, k);
    SpreadDot(xs, x, upper, os, temp, k);
    SpreadDot(xs, h, lower, os, temp, k);
    FlippedSum(xs, N, c, k);
    RowAdjointAlgebra(c.family, t, temp, Inner(xs, x, |xs|), Inner(xs, h, |xs|), Inner(xs, RowApplied(x, c, N, t), |xs|),
      SignedValues(xs, upper, os, k), SignedValues(xs, lower, os, k), PairSum(xs, N, c, k), Form(xs, N, c));
  }

  lemma {:induction false} RowAdjointAlgebra(f: Family, t: real, temp: real, d0: real, d1: real, d2: real,
                                             upper: real, lower: real, sum: real, form: real)
    requires d1 == d0 + Scale(temp, upper) && d2 == d1 + Scale(temp, lower) && upper == -sum && lower == -sum
    requires temp == Shared(f, t) && form == Scaled(f, sum)
    ensures d2 == d0 - Scale(t, form)
  {
  }

  predicate AllDocumented(rows: seq<Cut>)
  {
    forall r :: 0 <= r < |rows| ==> Documented(rows[r].family, rows[r].kind)
  }

  /** <tt, B(X)> over the first r rows. */
  function Weighted(xs: seq<real>, N: nat, rows: seq<Cut>, tt: seq<real>, r: nat): real
    requires r <= |rows| && r <= |tt|
  {
    if r == 0 then 0.0 else Weighted(xs, N, rows, tt, r - 1) + Scale(tt[r - 1], Form(xs, N, rows[r - 1]))
  }

  /** `op_Bt` is the adjoint of `op_B` on symmetric matrices: for symmetric X
      and documented kinds, the change `op_Bt` with tt makes to <X, X0> is
      -<tt, B(X)>, which is <tt, y' - y> for the y' that `op_B` makes. */
  lemma {:induction false} BtAdjoint(xs: seq<real>, x0: seq<real>, N: nat, rows: seq<Cut>, tt: seq<real>, r: nat)
    requires |xs| == Square(N) && |x0| == Square(N) && SymmetricFlat(xs, N)
    requires r <= |rows| && r <= |tt| && AllPlaced(rows, N) && AllDocumented(rows)
    ensures Inner(xs, Stage(x0, rows, N, tt, r), |xs|) == Inner(xs, x0, |xs|) - Weighted(xs, N, rows, tt, r)
  {
    if r > 0 {
      var m := r - 1;
      var before, c, t := Stage(x0, rows, N, tt, m), rows[m], tt[m];
      BtAdjoint(xs, x0, N, rows, tt, m);
      assert Placed(c, N) && Documented(c.family, c.kind);
      RowAdjoint(xs, before, c, N, t);
      AdjointStep(Inner(xs, x0, |xs|), Inner(xs, before, |xs|), Inner(xs, Stage(x0, rows, N, tt, r), |xs|),
        Weighted(xs, N, rows, tt, m), Weighted(xs, N, rows, tt, r), Scale(t, Form(xs, N, c)));
    }
  }

  lemma {:induction false} AdjointStep(d0: real, d1: real, d2: real, w1: real, w2: real, step: real)
    requires d1 == d0 - w1 && d2 == d1 - step && w2 == w1 + step
    ensures d2 == d0 - w2
  {
  }
}
