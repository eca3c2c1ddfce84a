/** Matrices, sums, blocks and tilings, in exact arithmetic. */
module MatrixBlocks {
  import opened Commons

  /** A matrix: what it holds at (row, column).  Only indices in range matter. */
  type Matrix = (int, int) -> real

  // ---------- sums ----------

  /** f(lo) + ... + f(hi - 1) */
  function Sum(lo: int, hi: int, f: int -> real): real
    decreases hi - lo
  {
    if hi <= lo then 0.0 else Sum(lo, hi - 1, f) + f(hi - 1)
  }

  lemma {:induction false} SumSplits(lo: int, mid: int, hi: int, f: int -> real)
    requires lo <= mid <= hi
    ensures Sum(lo, hi, f) == Sum(lo, mid, f) + Sum(mid, hi, f)
    decreases hi - mid
  {
    if mid < hi {
      SumSplits(lo, mid, hi - 1, f);
    }
  }

  lemma {:induction false} SumsAgree(lo: int, hi: int, f: int -> real, g: int -> real)
    requires forall x :: lo <= x < hi ==> f(x) == g(x)
    ensures Sum(lo, hi, f) == Sum(lo, hi, g)
    decreases hi - lo
  {
    if lo < hi {
      SumsAgree(lo, hi - 1, f, g);
    }
  }

  lemma {:induction false} SumOfZeros(lo: int, hi: int, f: int -> real)
    requires forall x :: lo <= x < hi ==> f(x) == 0.0
    ensures Sum(lo, hi, f) == 0.0
    decreases hi - lo
  {
    if lo < hi {
      SumOfZeros(lo, hi - 1, f);
    }
  }

  lemma {:induction false} SumAdds(lo: int, hi: int, f: int -> real, g: int -> real)
    ensures Sum(lo, hi, (x: int) => f(x) + g(x)) == Sum(lo, hi, f) + Sum(lo, hi, g)
    decreases hi - lo
  {
    if lo < hi {
      SumAdds(lo, hi - 1, f, g);
    }
  }

  /** The terms of cell (i, j) of a product. */
  function Terms(a: Matrix, b: Matrix, i: int, j: int): int -> real {
    (x: int) => a(i, x) * b(x, j)
  }

  function Product(a: Matrix, b: Matrix, inner: int): Matrix {
    (i: int, j: int) => Sum(0, inner, Terms(a, b, i, j))
  }

  function Transpose(a: Matrix): Matrix {
    (i: int, j: int) => a(j, i)
  }

  // ---------- blocks ----------

  /** FFMatrixBlock: the block's place in the grid, its shape, its row-major data and, for some
      inputs, a bias row. */
  datatype Block = Block(row: int, col: int, rows: nat, cols: nat, data: seq<real>, bias: Option<seq<real>>)

  /** FFMatrixMeta: only the indices take part in comparison. */
  type Key = (int, int)

  function KeyOf(b: Block): Key {
    (b.row, b.col)
  }

  /** Row-major addressing is one-to-one on cells. */
  lemma FlatIndex(r: int, c: int, rows: nat, cols: nat)
    requires 0 <= r < rows && 0 <= c < cols
    ensures 0 <= r * cols + c < rows * cols
    ensures (r * cols + c) / cols == r && (r * cols + c) % cols == c
  {
    MulMonotonic(0, r, cols);
    MulMonotonic(r + 1, rows, cols);
    var t := r * cols + c;
    var q, m := t / cols, t % cols;
    assert t == q * cols + m && 0 <= m < cols;
    if q < r {
      MulMonotonic(q + 1, r, cols);
    } else if q > r {
      MulMonotonic(r + 1, q, cols);
    }
  }

  lemma CellOfIndex(t: int, rows: nat, cols: nat)
    requires 0 <= t < rows * cols
    ensures cols > 0 && 0 <= t / cols < rows && 0 <= t % cols < cols && t == (t / cols) * cols + t % cols
  {
    if cols > 0 && rows <= t / cols {
      MulMonotonic(rows, t / cols, cols);
    }
  }

  /** The value of a cell of a block. */
  function At(b: Block, r: int, c: int): real {
    var t := r * b.cols + c;
    if 0 <= t < |b.data| then b.data[t] else 0.0
  }

  /** The bias a block adds to column `c` of a product it takes part in. */
  function BiasAt(b: Block, c: int): real {
    if b.bias.Some? && 0 <= c < |b.bias.value| then b.bias.value[c] else 0.0
  }

  // ---------- tilings ----------

  /** Where the blocks of one dimension begin and end. */
  predicate Cuts(cuts: seq<int>) {
    && |cuts| >= 1 && cuts[0] == 0
    && forall i :: 0 <= i < |cuts| - 1 ==> cuts[i] <= cuts[i + 1]
  }

  function Total(cuts: seq<int>): int
    requires |cuts| >= 1
  {
    cuts[|cuts| - 1]
  }

  /** No two blocks have the same key. */
  ghost predicate KeysDiffer(bs: seq<Block>) {
    forall i, j :: 0 <= i < j < |bs| ==> KeyOf(bs[i]) != KeyOf(bs[j])
  }

  ghost predicate BlockOf(b: Block, m: Matrix, rowCuts: seq<int>, colCuts: seq<int>) {
    && 0 <= b.row < |rowCuts| - 1 && 0 <= b.col < |colCuts| - 1
    && b.rows == rowCuts[b.row + 1] - rowCuts[b.row]
    && b.cols == colCuts[b.col + 1] - colCuts[b.col]
    && |b.data| == b.rows * b.cols
    && forall r, c :: 0 <= r < b.rows && 0 <= c < b.cols ==>
         At(b, r, c) == m(rowCuts[b.row] + r, colCuts[b.col] + c)
  }

  ghost predicate HasKey(bs: seq<Block>, k: Key) {
    exists b :: b in bs && KeyOf(b) == k
  }

  /** `bs`, in any order, are the blocks of `m` cut at `rowCuts` and `colCuts`. */
  ghost predicate IsTiling(bs: seq<Block>, m: Matrix, rowCuts: seq<int>, colCuts: seq<int>) {
    && Cuts(rowCuts) && Cuts(colCuts)
    && (forall b :: b in bs ==> BlockOf(b, m, rowCuts, colCuts))
    && KeysDiffer(bs)
    && (forall i, j :: 0 <= i < |rowCuts| - 1 && 0 <= j < |colCuts| - 1 ==> HasKey(bs, (i, j)))
  }

  /** The blocks one by one determine the matrix: every cell lies in exactly one block. */
  lemma {:induction false} CutContaining(cuts: seq<int>, x: int) returns (i: int)
    requires Cuts(cuts) && 0 <= x < Total(cuts)
    ensures 0 <= i < |cuts| - 1 && cuts[i] <= x < cuts[i + 1]
    decreases |cuts|
  {
    var n := |cuts| - 1;
    if n >= 1 && cuts[n - 1] <= x {
      i := n - 1;
    } else {
      assert n >= 1;
      i := CutContaining(cuts[..n], x);
    }
  }

  lemma {:induction false} CutsAscend(cuts: seq<int>, i: int, j: int)
    requires Cuts(cuts) && 0 <= i <= j < |cuts|
    ensures 0 <= cuts[i] <= cuts[j] <= Total(cuts)
    decreases |cuts| - i
  {
    if i > 0 {
      CutsFromZero(cuts, i);
    }
    CutsStep(cuts, i, j);
    CutsStep(cuts, j, |cuts| - 1);
  }

  lemma {:induction false} CutsFromZero(cuts: seq<int>, i: int)
    requires Cuts(cuts) && 0 <= i < |cuts|
    ensures 0 <= cuts[i]
  {
    if i > 0 {
      CutsFromZero(cuts, i - 1);
    }
  }

  lemma {:induction false} CutsStep(cuts: seq<int>, i: int, j: int)
    requires Cuts(cuts) && 0 <= i <= j < |cuts|
    ensures cuts[i] <= cuts[j]
    decreases j - i
  {
    if i < j {
      CutsStep(cuts, i, j - 1);
    }
  }
}
