/** Two hidden layers of inference_compute on zero-padded blocks equal the dense network. */
module DenseNetwork {
  import opened MatrixBlocks
  import opened MatrixAggregation
  import opened MatrixJoin
  import opened MatrixNetwork

  /** What one stage produces: the joined pairs, the aggregated records and the blocks written, each in
      whatever order the system happens to produce them. */
  datatype StageRun = StageRun(joined: seq<Block>, aggregated: seq<Block>, written: seq<Block>)

  /** Join, then aggregation, then bias and ReLU. */
  ghost predicate RunsStage(pairs: seq<Block>, biases: seq<Block>, run: StageRun) {
    && multiset(run.joined) == multiset(pairs)
    && Uniform(run.joined) && HoldsTable(run.aggregated, Aggregate(run.joined))
    && multiset(run.written) == multiset(ReluJoin(run.aggregated, biases))
  }

  lemma WrittenTiles(blocks: seq<Block>, biases: seq<Block>, written: seq<Block>, m: Matrix, bias: Matrix,
                     rowCuts: seq<int>, colCuts: seq<int>)
    requires IsTiling(blocks, m, rowCuts, colCuts) && IsTiling(biases, bias, rowCuts, ONE_COLUMN)
    requires multiset(written) == multiset(ReluJoin(blocks, biases))
    ensures IsTiling(written, ReluMatrix(m, bias), rowCuts, colCuts)
    ensures BiasesAre(written, NoBias())
  {
    ReluJoinTiles(blocks, biases, m, bias, rowCuts, colCuts);
    TilingPermutes(ReluJoin(blocks, biases), written, ReluMatrix(m, bias), rowCuts, colCuts);
    SameRecords(ReluJoin(blocks, biases), written);
  }

  /** Stage 1: weights times the transposed inputs. */
  lemma FirstStage(w: seq<Block>, x: seq<Block>, b: seq<Block>, run: StageRun, mw: Matrix, mx: Matrix, mb: Matrix,
                   hidden: seq<int>, features: seq<int>, batch: seq<int>)
    requires IsTiling(w, mw, hidden, features) && IsTiling(x, mx, batch, features) && IsTiling(b, mb, hidden,
                                                                                               ONE_COLUMN)
    requires |features| >= 2 && RunsStage(JoinTransposed(w, x), b, run)
    ensures IsTiling(run.written, ReluMatrix(Product(mw, Transpose(mx), Total(features)), mb), hidden, batch)
    ensures BiasesAre(run.written, NoBias())
  {
    TransposeJoinAggregateIsProduct(w, x, mw, mx, hidden, features, batch, run.joined, run.aggregated);
    WrittenTiles(run.aggregated, b, run.written, Product(mw, Transpose(mx), Total(features)), mb, hidden, batch);
  }

  /** Stage 2: weights times the previous layer. */
  lemma SecondStage(w: seq<Block>, y: seq<Block>, b: seq<Block>, run: StageRun, mw: Matrix, my: Matrix, mb: Matrix,
                    outputs: seq<int>, hidden: seq<int>, batch: seq<int>)
    requires IsTiling(w, mw, outputs, hidden) && IsTiling(y, my, hidden, batch) && IsTiling(b, mb, outputs, ONE_COLUMN)
    requires |hidden| >= 2 && BiasesAre(y, NoBias()) && RunsStage(Join(w, y), b, run)
    ensures IsTiling(run.written, ReluMatrix(Product(mw, my, Total(hidden)), mb), outputs, batch)
  {
    JoinAggregateIsProduct(w, y, Problem(mw, my, outputs, hidden, batch), run.joined, run.aggregated);
    WrittenTiles(run.aggregated, b, run.written, Product(mw, my, Total(hidden)), mb, outputs, batch);
  }

  // ---------- padding ----------

  function Pad(m: Matrix, rows: int, cols: int): Matrix {
    (i: int, j: int) => if i < rows && j < cols then m(i, j) else 0.0
  }

  /** One layer on zero-padded weights, inputs and bias: the layer itself on the true rows, zero on the
      padded ones. */
  lemma PaddedFirstLayer(w: Matrix, x: Matrix, b: Matrix, H: nat, F: nat, N: nat, paddedF: int, h: int, n: int)
    requires F <= paddedF && 0 <= n < N && 0 <= h
    ensures ReluMatrix(Product(Pad(w, H, F), Transpose(Pad(x, N, F)), paddedF), Pad(b, H, 1))(h, n) ==
            if h < H then ReluMatrix(Product(w, Transpose(x), F), b)(h, n) else 0.0
  {
    var padded, plain := Terms(Pad(w, H, F), Transpose(Pad(x, N, F)), h, n), Terms(w, Transpose(x), h, n);
    var product := Product(Pad(w, H, F), Transpose(Pad(x, N, F)), paddedF);
    assert product(h, n) == Sum(0, paddedF, padded);
    SumSplits(0, F, paddedF, padded);
    SumOfZeros(F, paddedF, padded);
    if h < H {
      SumsAgree(0, F, padded, plain);
    } else {
      SumOfZeros(0, F, padded);
      assert Sum(0, paddedF, padded) == 0.0 && Pad(b, H, 1)(h, 0) == 0.0;
    }
  }

  /** The next layer on a hidden layer whose padded rows are zero: whatever its weights hold beyond the
      true columns, they add nothing. */
  lemma PaddedNextLayer(w: Matrix, w': Matrix, y: Matrix, y': Matrix, b: Matrix, b': Matrix,
                        H: nat, paddedH: int, o: int, n: int)
    requires H <= paddedH
    requires forall h :: 0 <= h < H ==> w'(o, h) == w(o, h) && y'(h, n) == y(h, n)
    requires forall h :: H <= h < paddedH ==> y'(h, n) == 0.0
    requires b'(o, 0) == b(o, 0)
    ensures ReluMatrix(Product(w', y', paddedH), b')(o, n) == ReluMatrix(Product(w, y, H), b)(o, n)
  {
    var padded, plain := Terms(w', y', o, n), Terms(w, y, o, n);
    SumSplits(0, H, paddedH, padded);
    SumOfZeros(H, paddedH, padded);
    SumsAgree(0, H, padded, plain);
  }

  /** The network in ordinary matrix algebra. */
  function FirstLayer(w1: Matrix, b1: Matrix, x: Matrix, F: int): Matrix {
    ReluMatrix(Product(w1, Transpose(x), F), b1)
  }

  function Dense(w1: Matrix, b1: Matrix, w2: Matrix, b2: Matrix, x: Matrix, F: int, H: int): Matrix {
    ReluMatrix(Product(w2, FirstLayer(w1, b1, x, F), H), b2)
  }

  /** The dense network on zero-padded inputs, with `f` padded features and `g` padded hidden units. */
  lemma PaddedNetwork(w1: Matrix, b1: Matrix, w2: Matrix, b2: Matrix, x: Matrix, w2Padded: Matrix, b2Padded: Matrix,
                      F: nat, H: nat, N: nat, O: nat, f: int, g: int)
    requires F <= f && H <= g
    requires forall o, h :: 0 <= o < O && 0 <= h < H ==> w2Padded(o, h) == w2(o, h)
    requires forall o :: 0 <= o < O ==> b2Padded(o, 0) == b2(o, 0)
    ensures var y1 := ReluMatrix(Product(Pad(w1, H, F), Transpose(Pad(x, N, F)), f), Pad(b1, H, 1));
            var y2 := ReluMatrix(Product(w2Padded, y1, g), b2Padded);
            && (forall h, n :: 0 <= h && 0 <= n < N ==>
                  y1(h, n) == if h < H then FirstLayer(w1, b1, x, F)(h, n) else 0.0)
            && (forall o, n :: 0 <= o < O && 0 <= n < N ==> y2(o, n) == Dense(w1, b1, w2, b2, x, F, H)(o, n))
  {
    var y1 := ReluMatrix(Product(Pad(w1, H, F), Transpose(Pad(x, N, F)), f), Pad(b1, H, 1));
    var y2 := ReluMatrix(Product(w2Padded, y1, g), b2Padded);
    forall h, n | 0 <= h && 0 <= n < N
      ensures y1(h, n) == if h < H then FirstLayer(w1, b1, x, F)(h, n) else 0.0
    {
      PaddedFirstLayer(w1, x, b1, H, F, N, f, h, n);
    }
    forall o, n | 0 <= o < O && 0 <= n < N ensures y2(o, n) == Dense(w1, b1, w2, b2, x, F, H)(o, n) {
      PaddedNextLayer(w2, w2Padded, FirstLayer(w1, b1, x, F), y1, b2, b2Padded, H, g, o, n);
    }
  }

  /** Two hidden layers run block by block, over any tilings of the zero-padded first weights, inputs
      and bias and in any order of processing, compute the dense network on the true cells; the second
      layer's weights and bias need to be right only where they are not padding.  The padded rows of
      the first layer's output are zero. */
  lemma BlockedNetworkIsDense(w1: Matrix, b1: Matrix, w2: Matrix, b2: Matrix, x: Matrix,
                              w2Padded: Matrix, b2Padded: Matrix,
                              F: nat, H: nat, N: nat, O: nat,
                              features: seq<int>, hidden: seq<int>, outputs: seq<int>, batch: seq<int>,
                              w1Blocks: seq<Block>, xBlocks: seq<Block>, b1Blocks: seq<Block>,
                              w2Blocks: seq<Block>, b2Blocks: seq<Block>, run1: StageRun, run2: StageRun)
    requires IsTiling(w1Blocks, Pad(w1, H, F), hidden, features)
    requires IsTiling(xBlocks, Pad(x, N, F), batch, features)
    requires IsTiling(b1Blocks, Pad(b1, H, 1), hidden, ONE_COLUMN)
    requires IsTiling(w2Blocks, w2Padded, outputs, hidden)
    requires IsTiling(b2Blocks, b2Padded, outputs, ONE_COLUMN)
    requires forall o, h :: 0 <= o < O && 0 <= h < H ==> w2Padded(o, h) == w2(o, h)
    requires forall o :: 0 <= o < O ==> b2Padded(o, 0) == b2(o, 0)
    requires |features| >= 2 && |hidden| >= 2 && F <= Total(features) && H <= Total(hidden)
    requires RunsStage(JoinTransposed(w1Blocks, xBlocks), b1Blocks, run1)
    requires RunsStage(Join(w2Blocks, run1.written), b2Blocks, run2)
    ensures exists y1, y2 :: && IsTiling(run1.written, y1, hidden, batch)
                             && IsTiling(run2.written, y2, outputs, batch)
                             && (forall h, n :: 0 <= h && 0 <= n < N ==>
                                   y1(h, n) == if h < H then FirstLayer(w1, b1, x, F)(h, n) else 0.0)
                             && (forall o, n :: 0 <= o < O && 0 <= n < N ==>
                                   y2(o, n) == Dense(w1, b1, w2, b2, x, F, H)(o, n))
  {
    var y1 := ReluMatrix(Product(Pad(w1, H, F), Transpose(Pad(x, N, F)), Total(features)), Pad(b1, H, 1));
    var y2 := ReluMatrix(Product(w2Padded, y1, Total(hidden)), b2Padded);
    FirstStage(w1Blocks, xBlocks, b1Blocks, run1, Pad(w1, H, F), Pad(x, N, F), Pad(b1, H, 1), hidden, features, batch);
    SecondStage(w2Blocks, run1.written, b2Blocks, run2, w2Padded, y1, b2Padded, outputs, hidden, batch);
    PaddedNetwork(w1, b1, w2, b2, x, w2Padded, b2Padded, F, H, N, O, Total(features), Total(hidden));
  }
}
