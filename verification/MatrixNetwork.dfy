/** FFTransposeMult, FFReluBiasSum and the first two stages of inference_compute: two hidden layers
    run block by block compute the dense network. */
module MatrixNetwork {
  import opened Commons
  import opened MatrixBlocks
  import opened MatrixAggregation
  import opened MatrixJoin

  // ---------- the order in which blocks are stored ----------

  lemma {:induction false} KeysDifferCountsOnce(bs: seq<Block>, x: Block)
    requires KeysDiffer(bs)
    ensures multiset(bs)[x] <= 1
  {
    if bs != [] {
      var rest, last := bs[..|bs| - 1], bs[|bs| - 1];
      assert bs == rest + [last];
      KeysDifferCountsOnce(rest, x);
      assert x == last ==> x !in rest && x !in multiset(rest);
    }
  }

  lemma TwoPlacesCountTwice(bs: seq<Block>, i: int, j: int)
    requires 0 <= i < j < |bs|
    ensures bs[i] == bs[j] ==> multiset(bs)[bs[i]] >= 2
  {
    assert bs == bs[..j] + bs[j..];
    assert bs[i] in bs[..j] && bs[j] in bs[j..];
    assert multiset(bs) == multiset(bs[..j]) + multiset(bs[j..]);
    assert multiset(bs[..j])[bs[i]] >= 1 && multiset(bs[j..])[bs[j]] >= 1;
  }

  lemma KeysDifferPermutes(a: seq<Block>, b: seq<Block>)
    requires multiset(a) == multiset(b) && KeysDiffer(a)
    ensures KeysDiffer(b)
  {
    forall i, j | 0 <= i < j < |b| ensures KeyOf(b[i]) != KeyOf(b[j]) {
      TwoPlacesCountTwice(b, i, j);
      KeysDifferCountsOnce(a, b[i]);
      assert b[i] in multiset(b) && b[j] in multiset(b);
      var x :| 0 <= x < |a| && a[x] == b[i];
      var y :| 0 <= y < |a| && a[y] == b[j];
    }
  }

  /** A stored set of blocks may be scanned in any order. */
  lemma TilingPermutes(a: seq<Block>, b: seq<Block>, m: Matrix, rowCuts: seq<int>, colCuts: seq<int>)
    requires multiset(a) == multiset(b) && IsTiling(a, m, rowCuts, colCuts)
    ensures IsTiling(b, m, rowCuts, colCuts)
  {
    SameRecords(a, b);
    KeysDifferPermutes(a, b);
    forall i, j | 0 <= i < |rowCuts| - 1 && 0 <= j < |colCuts| - 1 ensures HasKey(b, (i, j)) {
      assert HasKey(a, (i, j));
    }
  }

  // ---------- FFTransposeMult ----------

  /** Cell (r, c) of the product of one block with the transpose of another. */
  function ProductCellTransposed(a: Block, b: Block, r: int, c: int): real {
    Sum(0, a.cols, Terms(Cells(a), Transpose(Cells(b)), r, c))
  }

  /** FFTransposeMult::getProjection on blocks that fit. */
  function MultiplyTransposed(a: Block, b: Block): Block {
    Block(a.row, b.row, a.rows, b.rows,
          if b.rows == 0 then []
          else seq(a.rows * b.rows, t requires 0 <= t => ProductCellTransposed(a, b, t / b.rows, t % b.rows)),
          None)
  }

  lemma OneTermTransposed(a: Block, b: Block, r: nat, c: nat)
    requires a.cols == b.cols == 1 && |a.data| == a.rows && |b.data| == b.rows && r < a.rows && c < b.rows
    ensures ProductCellTransposed(a, b, r, c) == a.data[r] * b.data[c]
  {
    var f := Terms(Cells(a), Transpose(Cells(b)), r, c);
    assert Sum(0, 1, f) == Sum(0, 0, f) + f(0);
  }

  lemma ColumnTimesColumnCell(a: Block, b: Block, r: nat, c: nat)
    requires a.cols == b.cols == 1 && |a.data| == a.rows && |b.data| == b.rows && r < a.rows && c < b.rows
    ensures DataAt(MultiplyTransposed(a, b).data, b.rows, r, c) == a.data[r] * b.data[c]
  {
    OneTermTransposed(a, b, r, c);
    FlatIndex(r, c, a.rows, b.rows);
  }

  lemma ColumnTimesColumn(a: Block, b: Block)
    requires a.cols == b.cols == 1 && |a.data| == a.rows && |b.data| == b.rows
    ensures IsColumnTimesRow(MultiplyTransposed(a, b).data, a.data, b.data, None)
  {
    forall r, c | 0 <= r < |a.data| && 0 <= c < |b.data|
      ensures DataAt(MultiplyTransposed(a, b).data, |b.data|, r, c) == a.data[r] * b.data[c]
    {
      ColumnTimesColumnCell(a, b, r, c);
    }
  }

  method ProjectTransposed(in1: Block, in2: Block) returns (out: Result<Block>)
    ensures out == if in1.cols != in2.cols then BlockMismatch else Ok(MultiplyTransposed(in1, in2))
    ensures in1.cols == in2.cols == 1 && |in1.data| == in1.rows && |in2.data| == in2.rows ==>
              out.Ok? && IsColumnTimesRow(out.value.data, in1.data, in2.data, None)
  {
    var I, J := in1.rows, in2.rows;
    if in1.cols != in2.cols {
      return BlockMismatch;
    }
    var outData := new real[I * J](t requires 0 <= t < I * J =>
      if J == 0 then 0.0 else ProductCellTransposed(in1, in2, t / J, t % J));
    out := Ok(Block(in1.row, in2.row, I, J, outData[..], None));
    assert outData[..] == MultiplyTransposed(in1, in2).data by {
      if I * J > 0 {
        CellOfIndex(0, I, J);
      }
    }
    if in1.cols == in2.cols == 1 && |in1.data| == in1.rows && |in2.data| == in2.rows {
      ColumnTimesColumn(in1, in2);
    }
  }

  function TransposeBlock(b: Block): Block {
    Block(b.col, b.row, b.cols, b.rows,
          if b.rows == 0 then []
          else seq(b.cols * b.rows, t requires 0 <= t => At(b, t % b.rows, t / b.rows)),
          None)
  }

  lemma TransposeCell(b: Block, r: int, c: int)
    requires 0 <= r < b.rows && 0 <= c < b.cols
    ensures At(TransposeBlock(b), c, r) == At(b, r, c)
  {
    FlatIndex(c, r, b.cols, b.rows);
  }

  lemma MultiplyTransposedIs(a: Block, b: Block)
    requires a.cols == b.cols
    ensures MultiplyTransposed(a, b) == Multiply(a, TransposeBlock(b))
  {
    var u, v := MultiplyTransposed(a, b).data, Multiply(a, TransposeBlock(b)).data;
    forall t | 0 <= t < |u| ensures u[t] == v[t] {
      CellOfIndex(t, a.rows, b.rows);
      var r, c := t / b.rows, t % b.rows;
      var f, g := Terms(Cells(a), Transpose(Cells(b)), r, c), Terms(Cells(a), Cells(TransposeBlock(b)), r, c);
      forall x | 0 <= x < a.cols ensures f(x) == g(x) {
        TransposeCell(b, c, x);
      }
      SumsAgree(0, a.cols, f, g);
    }
    assert u == v;
  }

  function TransposeAll(bs: seq<Block>): (ts: seq<Block>)
    ensures |ts| == |bs| && forall i :: 0 <= i < |bs| ==> ts[i] == TransposeBlock(bs[i])
  {
    if bs == [] then [] else TransposeAll(bs[..|bs| - 1]) + [TransposeBlock(bs[|bs| - 1])]
  }

  function JoinRowTransposed(a: Block, bs: seq<Block>): seq<Block> {
    if bs == [] then []
    else
      var b := bs[|bs| - 1];
      JoinRowTransposed(a, bs[..|bs| - 1]) + if a.col == b.col then [MultiplyTransposed(a, b)] else []
  }

  function JoinTransposed(lefts: seq<Block>, bs: seq<Block>): seq<Block> {
    if lefts == [] then []
    else JoinTransposed(lefts[..|lefts| - 1], bs) + JoinRowTransposed(lefts[|lefts| - 1], bs)
  }

  ghost predicate ConformsTransposed(lefts: seq<Block>, bs: seq<Block>) {
    forall a, b :: a in lefts && b in bs && a.col == b.col ==> a.cols == b.cols
  }

  lemma {:induction false} JoinRowTransposedIs(a: Block, bs: seq<Block>)
    requires forall b :: b in bs && a.col == b.col ==> a.cols == b.cols
    ensures JoinRowTransposed(a, bs) == JoinRow(a, TransposeAll(bs))
  {
    if bs != [] {
      var n := |bs| - 1;
      assert TransposeAll(bs)[..n] == TransposeAll(bs[..n]);
      JoinRowTransposedIs(a, bs[..n]);
      if a.col == bs[n].col {
        MultiplyTransposedIs(a, bs[n]);
      }
    }
  }

  lemma {:induction false} JoinTransposedIs(lefts: seq<Block>, bs: seq<Block>)
    requires ConformsTransposed(lefts, bs)
    ensures JoinTransposed(lefts, bs) == Join(lefts, TransposeAll(bs))
  {
    if lefts != [] {
      JoinTransposedIs(lefts[..|lefts| - 1], bs);
      JoinRowTransposedIs(lefts[|lefts| - 1], bs);
    }
  }

  lemma TransposedBlockOf(b: Block, m: Matrix, rowCuts: seq<int>, colCuts: seq<int>)
    requires BlockOf(b, m, rowCuts, colCuts)
    ensures BlockOf(TransposeBlock(b), Transpose(m), colCuts, rowCuts)
  {
    forall r, c | 0 <= r < b.cols && 0 <= c < b.rows
      ensures At(TransposeBlock(b), r, c) == Transpose(m)(colCuts[b.col] + r, rowCuts[b.row] + c)
    {
      TransposedBlockCell(b, m, rowCuts, colCuts, r, c);
    }
  }

  lemma TransposedBlockCell(b: Block, m: Matrix, rowCuts: seq<int>, colCuts: seq<int>, r: int, c: int)
    requires BlockOf(b, m, rowCuts, colCuts) && 0 <= r < b.cols && 0 <= c < b.rows
    ensures At(TransposeBlock(b), r, c) == Transpose(m)(colCuts[b.col] + r, rowCuts[b.row] + c)
  {
    TransposeCell(b, c, r);
  }

  lemma TransposedBlocks(bs: seq<Block>, m: Matrix, rowCuts: seq<int>, colCuts: seq<int>)
    requires forall b :: b in bs ==> BlockOf(b, m, rowCuts, colCuts)
    ensures forall t :: t in TransposeAll(bs) ==> BlockOf(t, Transpose(m), colCuts, rowCuts)
  {
    var ts := TransposeAll(bs);
    forall t | t in ts ensures BlockOf(t, Transpose(m), colCuts, rowCuts) {
      var i :| 0 <= i < |ts| && ts[i] == t;
      TransposedBlockOf(bs[i], m, rowCuts, colCuts);
    }
  }

  lemma TransposedKey(bs: seq<Block>, i: int, j: int)
    requires HasKey(bs, (j, i))
    ensures HasKey(TransposeAll(bs), (i, j))
  {
    var b :| b in bs && KeyOf(b) == (j, i);
    var n :| 0 <= n < |bs| && bs[n] == b;
    assert TransposeAll(bs)[n] in TransposeAll(bs);
  }

  lemma TransposedTiling(bs: seq<Block>, m: Matrix, rowCuts: seq<int>, colCuts: seq<int>)
    requires IsTiling(bs, m, rowCuts, colCuts)
    ensures IsTiling(TransposeAll(bs), Transpose(m), colCuts, rowCuts)
    ensures BiasesAre(TransposeAll(bs), NoBias())
  {
    TransposedBlocks(bs, m, rowCuts, colCuts);
    forall i, j | 0 <= i < |colCuts| - 1 && 0 <= j < |rowCuts| - 1 ensures HasKey(TransposeAll(bs), (i, j)) {
      TransposedKey(bs, i, j);
    }
    NoBiasAnywhere(TransposeAll(bs));
  }

  /** FFTransposeMult and FFAggMatrix multiply by the transpose: blocks of A and B give the blocks of
      A times the transpose of B. */
  lemma TransposeJoinAggregateIsProduct(lefts: seq<Block>, rights: seq<Block>, a: Matrix, b: Matrix,
                                        rowCuts: seq<int>, inner: seq<int>, colCuts: seq<int>,
                                        joined: seq<Block>, out: seq<Block>)
    requires IsTiling(lefts, a, rowCuts, inner) && IsTiling(rights, b, colCuts, inner) && |inner| >= 2
    requires multiset(joined) == multiset(JoinTransposed(lefts, rights))
    ensures ConformsTransposed(lefts, rights) && Uniform(joined)
    ensures HoldsTable(out, Aggregate(joined)) ==>
              IsTiling(out, Product(a, Transpose(b), Total(inner)), rowCuts, colCuts)
  {
    TransposedTiling(rights, b, colCuts, inner);
    JoinTransposedIs(lefts, rights);
    JoinAggregateIsProduct(lefts, TransposeAll(rights), Problem(a, Transpose(b), rowCuts, inner, colCuts), joined, out);
  }

  // ---------- FFReluBiasSum, dropout rate 0 ----------

  function Relu(x: real): real {
    if x > 0.0 then x else 0.0
  }

  /** FFReluBiasSum::getProjection on blocks that fit. */
  function ReluBlock(a: Block, b: Block): Block {
    Block(a.row, a.col, a.rows, a.cols,
          if a.cols == 0 then []
          else seq(a.rows * a.cols, t requires 0 <= t => Relu(CellAt(a, t) + CellAt(b, t / a.cols))),
          None)
  }

  method ReluRow(outData: array<real>, in1Data: seq<real>, bias: real, i: nat, J: nat)
    requires i * J + J <= outData.Length == |in1Data|
    modifies outData
    ensures forall t :: i * J <= t < i * J + J ==> outData[t] == Relu(in1Data[t] + bias)
    ensures forall t :: 0 <= t < i * J || i * J + J <= t < outData.Length ==> outData[t] == old(outData[t])
  {
    var base := i * J;
    for j := 0 to J
      invariant forall t :: base <= t < base + j ==> outData[t] == Relu(in1Data[t] + bias)
      invariant forall t :: 0 <= t < base || base + j <= t < outData.Length ==> outData[t] == old(outData[t])
    {
      var pos := base + j;
      outData[pos] := Relu(in1Data[pos] + bias);
    }
  }

  ghost predicate ReluBefore(now: seq<real>, a: seq<real>, b: seq<real>, J: nat, done: int) {
    && |now| == |a|
    && forall t :: 0 <= t < done && t < |a| && J > 0 && 0 <= t / J < |b| ==> now[t] == Relu(a[t] + b[t / J])
  }

  lemma ReluRowStep(next: seq<real>, now: seq<real>, a: seq<real>, b: seq<real>, i: nat, I: nat, J: nat)
    requires i < I == |b| && |a| == I * J == |next| && i * J + J <= |a|
    requires ReluBefore(now, a, b, J, i * J)
    requires forall t :: i * J <= t < i * J + J ==> next[t] == Relu(a[t] + b[i])
    requires forall t :: 0 <= t < i * J || i * J + J <= t < |next| ==> next[t] == now[t]
    ensures ReluBefore(next, a, b, J, (i + 1) * J)
  {
    assert (i + 1) * J == i * J + J;
    forall t | i * J <= t < i * J + J && J > 0 ensures t / J == i {
      FlatIndex(i, t - i * J, I, J);
    }
  }

  /** Every cell of `data` is the biased cell of `a` where that is not negative, and 0 elsewhere; `bias` has
      one number for every row. */
  ghost predicate IsActivated(data: seq<real>, a: seq<real>, bias: seq<real>, cols: nat) {
    && |data| == |a|
    && forall t :: 0 <= t < |a| ==>
         && cols > 0 && t / cols < |bias|
         && var x, y := a[t] + bias[t / cols], data[t];
            y >= 0.0 && (x >= 0.0 ==> y == x) && (x < 0.0 ==> y == 0.0)
  }

  lemma ReluBlockIsActivated(a: Block, b: Block)
    requires |a.data| == a.rows * a.cols && |b.data| == a.rows
    ensures IsActivated(ReluBlock(a, b).data, a.data, b.data, a.cols)
  {
    forall t | 0 <= t < |a.data| ensures a.cols > 0 && 0 <= t / a.cols < |b.data| {
      CellOfIndex(t, a.rows, a.cols);
    }
  }

  /** FFReluBiasSum::getProjection: bias and ReLU cell by cell; the program stops if the second block
      is not a column of the same height. */
  method ProjectRelu(in1: Block, in2: Block) returns (out: Result<Block>)
    requires |in1.data| == in1.rows * in1.cols && |in2.data| == in2.rows * in2.cols
    ensures out == if in1.rows != in2.rows || in2.cols != 1 then BlockMismatch else Ok(ReluBlock(in1, in2))
    ensures out.Ok? ==> IsActivated(out.value.data, in1.data, in2.data, in1.cols)
  {
    var I, J := in1.rows, in1.cols;
    if in1.rows != in2.rows || in2.cols != 1 {
      return BlockMismatch;
    }
    var outData := new real[I * J];
    for i := 0 to I
      invariant ReluBefore(outData[..], in1.data, in2.data, J, i * J)
    {
      MulMonotonic(i + 1, I, J);
      ghost var now := outData[..];
      ReluRow(outData, in1.data, in2.data[i], i, J);
      ReluRowStep(outData[..], now, in1.data, in2.data, i, I, J);
    }
    forall t | 0 <= t < I * J ensures J > 0 && outData[t] == ReluBlock(in1, in2).data[t] {
      CellOfIndex(t, I, J);
    }
    out := Ok(Block(in1.row, in1.col, I, J, outData[..], None));
    assert outData[..] == ReluBlock(in1, in2).data;
    ReluBlockIsActivated(in1, in2);
  }

  function ReluMatrix(m: Matrix, bias: Matrix): Matrix {
    (i: int, j: int) => Relu(m(i, j) + bias(i, 0))
  }

  /** Every cell of an activated layer: never negative, the biased cell where that is not negative, and 0
      elsewhere. */
  lemma ReluMatrixCells(m: Matrix, bias: Matrix, i: int, j: int)
    ensures var x, y := m(i, j) + bias(i, 0), ReluMatrix(m, bias)(i, j);
            y >= 0.0 && (x >= 0.0 ==> y == x) && (x < 0.0 ==> y == 0.0)
  {
  }

  const ONE_COLUMN: seq<int> := [0, 1]

  function ReluJoinRow(a: Block, biases: seq<Block>): seq<Block> {
    if biases == [] then []
    else
      var b := biases[|biases| - 1];
      ReluJoinRow(a, biases[..|biases| - 1]) + if a.row == b.row then [ReluBlock(a, b)] else []
  }

  function ReluJoin(blocks: seq<Block>, biases: seq<Block>): seq<Block> {
    if blocks == [] then []
    else ReluJoin(blocks[..|blocks| - 1], biases) + ReluJoinRow(blocks[|blocks| - 1], biases)
  }

  /** Each block meets exactly the bias block of its block row. */
  lemma {:induction false} ReluJoinRowIs(a: Block, biases: seq<Block>)
    requires KeysDiffer(biases) && forall b :: b in biases ==> b.col == 0
    ensures forall b :: b in biases && b.row == a.row ==> ReluJoinRow(a, biases) == [ReluBlock(a, b)]
    ensures !HasKey(biases, (a.row, 0)) ==> ReluJoinRow(a, biases) == []
  {
    if biases != [] {
      var rest, last := biases[..|biases| - 1], biases[|biases| - 1];
      assert biases == rest + [last];
      LastDiffers(biases);
      ReluJoinRowIs(a, rest);
      if last.row == a.row {
        assert KeyOf(last) == (a.row, 0);
        assert !HasKey(rest, (a.row, 0));
      }
    }
  }

  ghost predicate ReluOf(x: Block, a: Block, biases: seq<Block>) {
    exists b :: b in biases && b.row == a.row && x == ReluBlock(a, b)
  }

  lemma {:induction false} ReluJoinIs(blocks: seq<Block>, biases: seq<Block>)
    requires KeysDiffer(biases) && forall b :: b in biases ==> b.col == 0
    requires forall a :: a in blocks ==> HasKey(biases, (a.row, 0))
    ensures |ReluJoin(blocks, biases)| == |blocks|
    ensures forall i :: 0 <= i < |blocks| ==> ReluOf(ReluJoin(blocks, biases)[i], blocks[i], biases)
  {
    if blocks != [] {
      var rest, a := blocks[..|blocks| - 1], blocks[|blocks| - 1];
      assert blocks == rest + [a];
      ReluJoinIs(rest, biases);
      assert HasKey(biases, (a.row, 0));
      var b :| b in biases && KeyOf(b) == (a.row, 0);
      ReluJoinRowIs(a, biases);
    }
  }

  lemma ReluCell(a: Block, b: Block, r: int, c: int)
    requires 0 <= r < a.rows && 0 <= c < a.cols && b.cols == 1
    ensures At(ReluBlock(a, b), r, c) == Relu(At(a, r, c) + At(b, r, 0))
  {
    FlatIndex(r, c, a.rows, a.cols);
  }

  lemma ReluBlockOf(a: Block, b: Block, m: Matrix, bias: Matrix, rowCuts: seq<int>, colCuts: seq<int>)
    requires BlockOf(a, m, rowCuts, colCuts) && BlockOf(b, bias, rowCuts, ONE_COLUMN) && a.row == b.row
    ensures BlockOf(ReluBlock(a, b), ReluMatrix(m, bias), rowCuts, colCuts)
  {
    var x := ReluBlock(a, b);
    assert KeyOf(x) == KeyOf(a) && x.rows == a.rows && x.cols == a.cols && |x.data| == |a.data|;
    forall r, c | 0 <= r < a.rows && 0 <= c < a.cols
      ensures At(ReluBlock(a, b), r, c) == ReluMatrix(m, bias)(rowCuts[a.row] + r, colCuts[a.col] + c)
    {
      ReluBlockCell(a, b, m, bias, rowCuts, colCuts, r, c);
    }
  }

  lemma ReluBlockCell(a: Block, b: Block, m: Matrix, bias: Matrix, rowCuts: seq<int>, colCuts: seq<int>, r: int, c: int)
    requires BlockOf(a, m, rowCuts, colCuts) && BlockOf(b, bias, rowCuts, ONE_COLUMN) && a.row == b.row
    requires 0 <= r < a.rows && 0 <= c < a.cols
    ensures At(ReluBlock(a, b), r, c) == ReluMatrix(m, bias)(rowCuts[a.row] + r, colCuts[a.col] + c)
  {
    ReluCell(a, b, r, c);
    assert At(b, r, 0) == bias(rowCuts[b.row] + r, ONE_COLUMN[b.col] + 0);
  }

  /** Blocks with the keys of a tiling, each a block of `m1`, tile `m1`. */
  lemma SameKeysTile(blocks: seq<Block>, ys: seq<Block>, m: Matrix, m1: Matrix, rowCuts: seq<int>, colCuts: seq<int>)
    requires IsTiling(blocks, m, rowCuts, colCuts) && |ys| == |blocks|
    requires forall i :: 0 <= i < |ys| ==> KeyOf(ys[i]) == KeyOf(blocks[i]) && BlockOf(ys[i], m1, rowCuts, colCuts)
    ensures IsTiling(ys, m1, rowCuts, colCuts)
  {
    forall i, j | 0 <= i < |rowCuts| - 1 && 0 <= j < |colCuts| - 1 ensures HasKey(ys, (i, j)) {
      assert HasKey(blocks, (i, j));
      var n :| 0 <= n < |blocks| && KeyOf(blocks[n]) == (i, j);
      assert ys[n] in ys;
    }
  }

  lemma ReluOfBlock(x: Block, a: Block, biases: seq<Block>, m: Matrix, bias: Matrix, rowCuts: seq<int>,
                    colCuts: seq<int>)
    requires BlockOf(a, m, rowCuts, colCuts) && ReluOf(x, a, biases)
    requires forall b :: b in biases ==> BlockOf(b, bias, rowCuts, ONE_COLUMN)
    ensures KeyOf(x) == KeyOf(a) && x.bias == None && BlockOf(x, ReluMatrix(m, bias), rowCuts, colCuts)
  {
    var b :| b in biases && b.row == a.row && x == ReluBlock(a, b);
    ReluBlockOf(a, b, m, bias, rowCuts, colCuts);
  }

  lemma NoBiasAnywhere(ys: seq<Block>)
    requires forall y :: y in ys ==> y.bias == None
    ensures BiasesAre(ys, NoBias())
  {
  }

  /** The bias join applies bias and ReLU to the whole matrix, block by block. */
  lemma ReluJoinTiles(blocks: seq<Block>, biases: seq<Block>, m: Matrix, bias: Matrix, rowCuts: seq<int>,
                      colCuts: seq<int>)
    requires IsTiling(blocks, m, rowCuts, colCuts) && IsTiling(biases, bias, rowCuts, ONE_COLUMN)
    ensures IsTiling(ReluJoin(blocks, biases), ReluMatrix(m, bias), rowCuts, colCuts)
    ensures BiasesAre(ReluJoin(blocks, biases), NoBias())
  {
    var ys := ReluJoin(blocks, biases);
    assert forall a :: a in blocks ==> HasKey(biases, (a.row, 0));
    ReluJoinIs(blocks, biases);
    forall i | 0 <= i < |ys|
      ensures KeyOf(ys[i]) == KeyOf(blocks[i]) && ys[i].bias == None
      ensures BlockOf(ys[i], ReluMatrix(m, bias), rowCuts, colCuts)
    {
      assert blocks[i] in blocks;
      ReluOfBlock(ys[i], blocks[i], biases, m, bias, rowCuts, colCuts);
    }
    SameKeysTile(blocks, ys, m, ReluMatrix(m, bias), rowCuts, colCuts);
    NoBiasAnywhere(ys);
  }
}
