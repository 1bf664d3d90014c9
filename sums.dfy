/** Finite sums over an index range, the arithmetic every matrix and vector
    expression of the model is stated with. `Sum(n, f)` is f(0) + ... + f(n-1),
    accumulated from the left, the order in which the source's loops add. */
module Sums {

  function Sum(n: nat, f: int -> real): real
    decreases n
  {
    if n == 0 then 0.0 else Sum(n - 1, f) + f(n - 1)
  }

  /** Sums depend only on the terms inside the range. */
  lemma {:induction false} SumExt(n: nat, f: int -> real, g: int -> real)
    requires forall i :: 0 <= i < n ==> f(i) == g(i)
    ensures Sum(n, f) == Sum(n, g)
  {
    if n > 0 {
      SumExt(n - 1, f, g);
    }
  }

  lemma {:induction false} SumZero(n: nat, f: int -> real)
    requires forall i :: 0 <= i < n ==> f(i) == 0.0
    ensures Sum(n, f) == 0.0
  {
    if n > 0 {
      SumZero(n - 1, f);
    }
  }

  /** Termwise addition. */
  lemma {:induction false} SumAdd(n: nat, f: int -> real, g: int -> real, h: int -> real)
    requires forall i :: 0 <= i < n ==> h(i) == f(i) + g(i)
    ensures Sum(n, h) == Sum(n, f) + Sum(n, g)
  {
    if n > 0 {
      SumAdd(n - 1, f, g, h);
    }
  }

  /** Termwise subtraction. */
  lemma {:induction false} SumSub(n: nat, f: int -> real, g: int -> real, h: int -> real)
    requires forall i :: 0 <= i < n ==> h(i) == f(i) - g(i)
    ensures Sum(n, h) == Sum(n, f) - Sum(n, g)
  {
    if n > 0 {
      SumSub(n - 1, f, g, h);
    }
  }

  /** A constant factor moves out of the sum. */
  lemma {:induction false} SumScale(n: nat, c: real, f: int -> real, g: int -> real)
    requires forall i :: 0 <= i < n ==> g(i) == c * f(i)
    ensures Sum(n, g) == c * Sum(n, f)
  {
    if n > 0 {
      SumScale(n - 1, c, f, g);
    }
  }

  /** Changing one term changes the sum by the difference of that term. */
  lemma {:induction false} SumPointChange(n: nat, p: nat, f: int -> real, g: int -> real)
    requires p < n
    requires forall i :: 0 <= i < n && i != p ==> f(i) == g(i)
    ensures Sum(n, g) == Sum(n, f) + (g(p) - f(p))
  {
    if p < n - 1 {
      SumPointChange(n - 1, p, f, g);
    } else {
      SumExt(n - 1, f, g);
    }
  }

  /** A sum whose terms vanish except at p is that term. */
  lemma {:induction false} SumSingle(n: nat, p: nat, f: int -> real)
    requires p < n
    requires forall i :: 0 <= i < n && i != p ==> f(i) == 0.0
    ensures Sum(n, f) == f(p)
  {
    var z := (i: int) => 0.0;
    SumZero(n, z);
    SumPointChange(n, p, z, f);
  }

  /** Splitting the range [0, n + m) at n. */
  lemma {:induction false} SumSplit(n: nat, m: nat, f: int -> real, g: int -> real)
    requires forall i :: 0 <= i < m ==> g(i) == f(n + i)
    ensures Sum(n + m, f) == Sum(n, f) + Sum(m, g)
  {
    if m > 0 {
      SumSplit(n, m - 1, f, g);
    }
  }

  /** The term f(i + 1): the range shifted by one. */
  function Shift(f: int -> real): int -> real
  {
    i => f(i + 1)
  }

  /** Splitting off the first term. */
  lemma {:induction false} SumFirst(n: nat, f: int -> real)
    ensures Sum(n + 1, f) == f(0) + Sum(n, Shift(f))
  {
    SumSplit(1, n, f, Shift(f));
    assert Sum(1, f) == Sum(0, f) + f(0);
  }

  /** a f + b g, termwise. */
  lemma {:induction false} SumLinear(n: nat, a: real, b: real, f: int -> real, g: int -> real, h: int -> real)
    requires forall i :: 0 <= i < n ==> h(i) == a * f(i) + b * g(i)
    ensures Sum(n, h) == a * Sum(n, f) + b * Sum(n, g)
  {
    if n > 0 {
      var m := n - 1;
      SumLinear(m, a, b, f, g, h);
      var sf, sg := Sum(m, f), Sum(m, g);
      assert Sum(n, f) == sf + f(m) && Sum(n, g) == sg + g(m);
      assert a * (sf + f(m)) + b * (sg + g(m)) == (a * sf + b * sg) + (a * f(m) + b * g(m));
    }
  }

  /** f + b g, termwise. */
  lemma {:induction false} SumAddScaled(n: nat, b: real, f: int -> real, g: int -> real, h: int -> real)
    requires forall i :: 0 <= i < n ==> h(i) == f(i) + b * g(i)
    ensures Sum(n, h) == Sum(n, f) + b * Sum(n, g)
  {
    if n > 0 {
      SumAddScaled(n - 1, b, f, g, h);
    }
  }

  /** Row i of a two-argument term, as a one-argument term. */
  function Row(f: (int, int) -> real, i: int): int -> real
  {
    j => f(i, j)
  }

  /** The row sums over the first m columns. */
  function Rows(m: nat, f: (int, int) -> real): int -> real
  {
    i => Sum(m, Row(f, i))
  }

  function Flip(f: (int, int) -> real): (int, int) -> real
  {
    (i, j) => f(j, i)
  }

  /** Sum over i < n of the sum over j < m of f(i, j). */
  function DoubleSum(n: nat, m: nat, f: (int, int) -> real): real
  {
    Sum(n, Rows(m, f))
  }

  lemma {:induction false} DoubleSumExt(n: nat, m: nat, f: (int, int) -> real, g: (int, int) -> real)
    requires forall i, j :: 0 <= i < n && 0 <= j < m ==> f(i, j) == g(i, j)
    ensures DoubleSum(n, m, f) == DoubleSum(n, m, g)
  {
    forall i | 0 <= i < n
      ensures Rows(m, f)(i) == Rows(m, g)(i)
    {
      SumExt(m, Row(f, i), Row(g, i));
    }
    SumExt(n, Rows(m, f), Rows(m, g));
  }

  lemma {:induction false} DoubleSumLinear(n: nat, m: nat, a: real, b: real, f: (int, int) -> real, g: (int, int) -> real, h: (int, int) -> real)
    requires forall i, j :: 0 <= i < n && 0 <= j < m ==> h(i, j) == a * f(i, j) + b * g(i, j)
    ensures DoubleSum(n, m, h) == a * DoubleSum(n, m, f) + b * DoubleSum(n, m, g)
  {
    forall i | 0 <= i < n
      ensures Rows(m, h)(i) == a * Rows(m, f)(i) + b * Rows(m, g)(i)
    {
      SumLinear(m, a, b, Row(f, i), Row(g, i), Row(h, i));
    }
    SumLinear(n, a, b, Rows(m, f), Rows(m, g), Rows(m, h));
  }

  /** Exchanging the order of a double sum. */
  /** Terms that vanish on the last row and column add nothing. */
  lemma {:induction false} DoubleSumDropLast(n: nat, f: (int, int) -> real)
    requires forall i :: 0 <= i <= n ==> f(i, n) == 0.0 && f(n, i) == 0.0
    ensures DoubleSum(n + 1, n + 1, f) == DoubleSum(n, n, f)
  {
    forall i | 0 <= i < n
      ensures Rows(n + 1, f)(i) == Rows(n, f)(i)
    {
      assert Row(f, i)(n) == f(i, n);
    }
    SumExt(n, Rows(n + 1, f), Rows(n, f));
    SumZero(n + 1, Row(f, n));
  }

  lemma {:induction false} SumSwap(n: nat, m: nat, f: (int, int) -> real)
    ensures DoubleSum(n, m, f) == DoubleSum(m, n, Flip(f))
  {
    if n == 0 {
      SumZero(m, Rows(n, Flip(f)));
    } else {
      SumSwap(n - 1, m, f);
      forall j | 0 <= j < m
        ensures Rows(n, Flip(f))(j) == Rows(n - 1, Flip(f))(j) + Row(f, n - 1)(j)
      {
      }
      SumAdd(m, Rows(n - 1, Flip(f)), Row(f, n - 1), Rows(n, Flip(f)));
    }
  }

  /** The strictly upper, strictly lower and diagonal parts of a double-indexed term. */
  function UpperPart(f: (int, int) -> real): (int, int) -> real
  {
    (i, j) => if i < j then f(i, j) else 0.0
  }

  function LowerPart(f: (int, int) -> real): (int, int) -> real
  {
    (i, j) => if i > j then f(i, j) else 0.0
  }

  function DiagPart(f: (int, int) -> real): (int, int) -> real
  {
    (i, j) => if i == j then f(i, j) else 0.0
  }

  function Diagonal(f: (int, int) -> real): int -> real
  {
    i => f(i, i)
  }

  function ProductOf(f: int -> real, g: int -> real): (int, int) -> real
  {
    (i, j) => f(i) * g(j)
  }

  /** A square double sum is its upper, lower and diagonal parts together. */
  lemma {:induction false} DoubleSumTriangles(n: nat, f: (int, int) -> real)
    ensures DoubleSum(n, n, f)
         == DoubleSum(n, n, UpperPart(f)) + DoubleSum(n, n, LowerPart(f)) + DoubleSum(n, n, DiagPart(f))
  {
    var ul := (i, j) => UpperPart(f)(i, j) + LowerPart(f)(i, j);
    DoubleSumLinear(n, n, 1.0, 1.0, UpperPart(f), LowerPart(f), ul);
    DoubleSumLinear(n, n, 1.0, 1.0, ul, DiagPart(f), f);
  }

  /** The lower part is the upper part of the transposed term. */
  lemma {:induction false} DoubleSumLower(n: nat, f: (int, int) -> real)
    ensures DoubleSum(n, n, LowerPart(f)) == DoubleSum(n, n, UpperPart(Flip(f)))
  {
    SumSwap(n, n, LowerPart(f));
    DoubleSumExt(n, n, Flip(LowerPart(f)), UpperPart(Flip(f)));
  }

  /** Only the diagonal of the diagonal part contributes. */
  lemma {:induction false} DoubleSumDiagonal(n: nat, f: (int, int) -> real)
    ensures DoubleSum(n, n, DiagPart(f)) == Sum(n, Diagonal(f))
  {
    forall i | 0 <= i < n
      ensures Rows(n, DiagPart(f))(i) == Diagonal(f)(i)
    {
      SumSingle(n, i, Row(DiagPart(f), i));
    }
    SumExt(n, Rows(n, DiagPart(f)), Diagonal(f));
  }

  /** A double sum of products is the product of the sums. */
  lemma {:induction false} DoubleSumProduct(n: nat, m: nat, f: int -> real, g: int -> real)
    ensures DoubleSum(n, m, ProductOf(f, g)) == Sum(n, f) * Sum(m, g)
  {
    forall i | 0 <= i < n
      ensures Rows(m, ProductOf(f, g))(i) == Sum(m, g) * f(i)
    {
      SumScale(m, f(i), g, Row(ProductOf(f, g), i));
    }
    SumScale(n, Sum(m, g), f, Rows(m, ProductOf(f, g)));
  }

  /** Dot product of two vectors of equal length. */
  function Dot(u: seq<real>, v: seq<real>): real
    requires |u| == |v|
  {
    Sum(|u|, i => if 0 <= i < |u| then u[i] * v[i] else 0.0)
  }

  /** Adding `a` to entry p of v adds a * u[p] to the dot product. */
  lemma {:induction false} DotPointAdd(u: seq<real>, v: seq<real>, p: nat, a: real)
    requires |u| == |v| && p < |v|
    ensures Dot(u, v[p := v[p] + a]) == Dot(u, v) + a * u[p]
  {
    var w := v[p := v[p] + a];
    SumPointChange(|u|, p, i => if 0 <= i < |u| then u[i] * v[i] else 0.0,
                           i => if 0 <= i < |u| then u[i] * w[i] else 0.0);
  }

  /** The dot product of a concatenation splits. */
  lemma {:induction false} DotAppend(u1: seq<real>, u2: seq<real>, v1: seq<real>, v2: seq<real>)
    requires |u1| == |v1| && |u2| == |v2|
    ensures Dot(u1 + u2, v1 + v2) == Dot(u1, v1) + Dot(u2, v2)
  {
    var u, v := u1 + u2, v1 + v2;
    SumExt(|u1|, i => if 0 <= i < |u| then u[i] * v[i] else 0.0, i => if 0 <= i < |u1| then u1[i] * v1[i] else 0.0);
    SumSplit(|u1|, |u2|, i => if 0 <= i < |u| then u[i] * v[i] else 0.0, i => if 0 <= i < |u2| then u2[i] * v2[i] else 0.0);
  }

  /** k v, named so that contracts can state a product of two terms. */
  function Scale(k: real, v: real): real
  {
    k * v
  }
}
