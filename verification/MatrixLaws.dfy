/** What the matrix product is, without reference to how it is summed: it is linear in each argument, the
    unit matrix is its unit, and it multiplies the entries of matrices with a single one. */
module MatrixLaws {
  import opened MatrixBlocks

  function Unit(): Matrix {
    (i: int, j: int) => if i == j then 1.0 else 0.0
  }

  function Plus(a: Matrix, b: Matrix): Matrix {
    (i: int, j: int) => a(i, j) + b(i, j)
  }

  function Scaled(v: real, a: Matrix): Matrix {
    (i: int, j: int) => v * a(i, j)
  }

  /** `v` at (x, y) and zero elsewhere. */
  function Single(x: int, y: int, v: real): Matrix {
    (i: int, j: int) => if i == x && j == y then v else 0.0
  }

  /** A sum with one term that is not zero. */
  lemma SumOfOne(lo: int, hi: int, x: int, f: int -> real)
    requires lo <= x < hi && forall y :: lo <= y < hi && y != x ==> f(y) == 0.0
    ensures Sum(lo, hi, f) == f(x)
  {
    SumSplits(lo, x, hi, f);
    SumSplits(x, x + 1, hi, f);
    SumOfZeros(lo, x, f);
    SumOfZeros(x + 1, hi, f);
    assert Sum(x, x + 1, f) == Sum(x, x, f) + f(x);
  }

  lemma {:induction false} SumScales(lo: int, hi: int, v: real, f: int -> real, g: int -> real)
    requires forall x :: lo <= x < hi ==> g(x) == v * f(x)
    ensures Sum(lo, hi, g) == v * Sum(lo, hi, f)
    decreases hi - lo
  {
    if lo < hi {
      SumScales(lo, hi - 1, v, f, g);
    }
  }

  lemma SumOfSums(lo: int, hi: int, f: int -> real, g: int -> real, both: int -> real)
    requires forall x :: lo <= x < hi ==> both(x) == f(x) + g(x)
    ensures Sum(lo, hi, both) == Sum(lo, hi, f) + Sum(lo, hi, g)
  {
    SumAdds(lo, hi, f, g);
    SumsAgree(lo, hi, both, (x: int) => f(x) + g(x));
  }

  /** The unit matrix is the unit of the product on both sides, on the cells in range. */
  lemma UnitIsUnit(a: Matrix, n: nat, i: int, j: int)
    ensures 0 <= j < n ==> Product(a, Unit(), n)(i, j) == a(i, j)
    ensures 0 <= i < n ==> Product(Unit(), a, n)(i, j) == a(i, j)
  {
    if 0 <= j < n {
      SumOfOne(0, n, j, Terms(a, Unit(), i, j));
    }
    if 0 <= i < n {
      SumOfOne(0, n, i, Terms(Unit(), a, i, j));
    }
  }

  /** The product is additive in each argument. */
  lemma ProductIsAdditive(a: Matrix, b: Matrix, c: Matrix, n: nat, i: int, j: int)
    ensures Product(Plus(a, b), c, n)(i, j) == Product(a, c, n)(i, j) + Product(b, c, n)(i, j)
    ensures Product(c, Plus(a, b), n)(i, j) == Product(c, a, n)(i, j) + Product(c, b, n)(i, j)
  {
    SumOfSums(0, n, Terms(a, c, i, j), Terms(b, c, i, j), Terms(Plus(a, b), c, i, j));
    SumOfSums(0, n, Terms(c, a, i, j), Terms(c, b, i, j), Terms(c, Plus(a, b), i, j));
  }

  /** A factor can be taken out of either argument. */
  lemma ProductIsHomogeneous(a: Matrix, b: Matrix, v: real, n: nat, i: int, j: int)
    ensures Product(Scaled(v, a), b, n)(i, j) == v * Product(a, b, n)(i, j)
    ensures Product(a, Scaled(v, b), n)(i, j) == v * Product(a, b, n)(i, j)
  {
    SumScales(0, n, v, Terms(a, b, i, j), Terms(Scaled(v, a), b, i, j));
    SumScales(0, n, v, Terms(a, b, i, j), Terms(a, Scaled(v, b), i, j));
  }

  /** An entry at (x, y) times an entry at (z, w): their product at (x, w) if y and z are the same inner
      index, and zero otherwise. */
  lemma ProductOfSingles(x: int, y: int, v: real, z: int, w: int, u: real, n: nat, i: int, j: int)
    requires 0 <= y < n
    ensures Product(Single(x, y, v), Single(z, w, u), n)(i, j)
         == if y == z && i == x && j == w then v * u else 0.0
  {
    SumOfOne(0, n, y, Terms(Single(x, y, v), Single(z, w, u), i, j));
  }
}
