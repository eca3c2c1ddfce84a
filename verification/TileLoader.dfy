/** loadMatrixGeneric: cutting a matrix into blocks, zero-padded or ragged at the edges, and what becomes of
    them when space runs out. */
module TileLoader {
  import opened Commons
  import opened MatrixBlocks
  import DenseNetwork

  /** Where block `i` of a dimension begins. */
  function Cut(total: nat, block: nat, dontPad: bool, i: nat): int {
    if dontPad then Min(i * block, total) else i * block
  }

  function CutsFor(total: nat, block: nat, dontPad: bool): (cuts: seq<int>)
    requires block > 0
    ensures |cuts| == NumBlocks(total, block) + 1
  {
    seq(NumBlocks(total, block) + 1, i requires 0 <= i => Cut(total, block, dontPad, i))
  }

  function ActualBlock(total: nat, block: nat, dontPad: bool, i: nat): int {
    if dontPad then Min(block, total - i * block) else block
  }

  /** Ceil-divided blocks partition the dimension: each has the height the loader gives it, which is the
      block height except for the last if it is not padded, and the last ends at the total (unpadded) or at
      or after it (padded). */
  lemma CutsPartition(total: nat, block: nat, dontPad: bool)
    requires block > 0
    ensures var cuts := CutsFor(total, block, dontPad);
            && Cuts(cuts)
            && (forall i: nat :: i < NumBlocks(total, block) ==>
                  cuts[i + 1] - cuts[i] == ActualBlock(total, block, dontPad, i) > 0)
            && (forall i: nat :: i < NumBlocks(total, block) && (!dontPad || i + 1 < NumBlocks(total, block)) ==>
                  cuts[i + 1] - cuts[i] == block)
            && (if dontPad then Total(cuts) == total else Total(cuts) >= total)
  {
    var cuts := CutsFor(total, block, dontPad);
    forall i: nat | i < NumBlocks(total, block)
      ensures cuts[i + 1] - cuts[i] == ActualBlock(total, block, dontPad, i) > 0
      ensures !dontPad || i + 1 < NumBlocks(total, block) ==> cuts[i + 1] - cuts[i] == block
    {
      BlockBegins(total, block, i);
      if i + 1 < NumBlocks(total, block) {
        BlockBegins(total, block, i + 1);
      }
      assert (i + 1) * block == i * block + block;
    }
    var n := NumBlocks(total, block);
    if n > 0 {
      BlockBegins(total, block, n - 1);
    }
  }

  // ---------- the loops ----------

  datatype LoadResult = Loaded(blocks: seq<Block>) | ShouldNotBeHere

  /** The cells before `done` are filled; `cell` gives them by row and column of the block. */
  ghost predicate FilledBefore(now: seq<real>, cell: Matrix, rows: nat, cols: nat, done: int) {
    |now| == rows * cols && forall t :: 0 <= t < done && t < |now| && cols > 0 ==> now[t] == cell(t / cols, t % cols)
  }

  lemma FilledRow(next: seq<real>, now: seq<real>, cell: Matrix, ii: nat, rows: nat, cols: nat)
    requires ii < rows && FilledBefore(now, cell, rows, cols, ii * cols) && |next| == |now| && ii * cols + cols <= |now|
    requires forall jj :: 0 <= jj < cols ==> next[ii * cols + jj] == cell(ii, jj)
    requires forall t :: 0 <= t < ii * cols ==> next[t] == now[t]
    ensures FilledBefore(next, cell, rows, cols, (ii + 1) * cols)
  {
    var base := ii * cols;
    assert (ii + 1) * cols == base + cols;
    forall t | base <= t < base + cols ensures next[t] == cell(t / cols, t % cols) {
      FlatIndex(ii, t - base, rows, cols);
      assert next[base + (t - base)] == cell(ii, t - base);
    }
  }

  /** What the loop stores at (ii, jj) of block (i, j): a drawn value, or zero beyond the totals.
      `draw` gives the values drawn, by the cell of the whole matrix they are for. */
  function LoadedCell(draw: Matrix, totalX: nat, totalY: nat, i: nat, j: nat, actualX: nat, actualY: nat,
                      startX: int, startY: int): Matrix
  {
    (ii: int, jj: int) =>
      if i * actualX + ii >= totalX || j * actualY + jj >= totalY then 0.0 else draw(startX + ii, startY + jj)
  }

  /** One row of a block; false if the loop reaches its "Shouldnt be here" exit. */
  method FillRow(data: array<real>, cell: Matrix, ii: nat, actualY: nat,
                 curX: nat, firstY: nat, totalX: nat, totalY: nat, dontPadX: bool, dontPadY: bool) returns (ok: bool)
    requires ii * actualY + actualY <= data.Length
    modifies data
    ensures ok <==> !(actualY > 0 && ((dontPadX && curX >= totalX) || (dontPadY && firstY + actualY - 1 >= totalY)))
    ensures ok ==> forall jj :: 0 <= jj < actualY ==> data[ii * actualY + jj] == cell(ii, jj)
    ensures forall t :: 0 <= t < ii * actualY ==> data[t] == old(data[t])
  {
    var base := ii * actualY;
    var jj := 0;
    while jj < actualY
      invariant 0 <= jj <= actualY
      invariant forall k :: 0 <= k < jj ==> data[base + k] == cell(ii, k)
      invariant forall t :: 0 <= t < base ==> data[t] == old(data[t])
      invariant jj > 0 ==> !((dontPadX && curX >= totalX) || (dontPadY && firstY + jj - 1 >= totalY))
    {
      var curY := firstY + jj;
      if (dontPadX && curX >= totalX) || (dontPadY && curY >= totalY) {
        return false;
      }
      data[base + jj] := cell(ii, jj);
      jj := jj + 1;
    }
    return true;
  }

  method FillBlock(draw: Matrix, totalX: nat, totalY: nat, i: nat, j: nat, actualX: nat, actualY: nat,
                   startX: int, startY: int, dontPadX: bool, dontPadY: bool) returns (ok: bool, data: seq<real>)
    requires dontPadX ==> i * actualX + actualX <= totalX
    requires dontPadY ==> j * actualY + actualY <= totalY
    ensures ok
    ensures FilledBefore(data, LoadedCell(draw, totalX, totalY, i, j, actualX, actualY, startX, startY),
                         actualX, actualY, actualX * actualY)
  {
    ghost var cell := LoadedCell(draw, totalX, totalY, i, j, actualX, actualY, startX, startY);
    var raw := new real[actualX * actualY];
    var ii := 0;
    ok := true;
    while ii < actualX && ok
      invariant 0 <= ii <= actualX && ok
      invariant FilledBefore(raw[..], cell, actualX, actualY, ii * actualY)
    {
      MulMonotonic(ii + 1, actualX, actualY);
      ghost var now := raw[..];
      ok := FillRow(raw, LoadedCell(draw, totalX, totalY, i, j, actualX, actualY, startX, startY), ii, actualY,
                    i * actualX + ii, j * actualY, totalX, totalY, dontPadX, dontPadY);
      FilledRow(raw[..], now, cell, ii, actualX, actualY);
      ii := ii + 1;
    }
    data := raw[..];
  }

  /** The dimensions and flags of a load. */
  datatype Shape = Shape(totalX: nat, totalY: nat, blockX: nat, blockY: nat, dontPadX: bool, dontPadY: bool) {
    ghost predicate IsBlock(b: Block, m: Matrix)
      requires blockX > 0 && blockY > 0
    {
      BlockOf(b, m, CutsFor(totalX, blockX, dontPadX), CutsFor(totalY, blockY, dontPadY))
    }

    ghost predicate Tiles(blocks: seq<Block>, m: Matrix)
      requires blockX > 0 && blockY > 0
    {
      IsTiling(blocks, m, CutsFor(totalX, blockX, dontPadX), CutsFor(totalY, blockY, dontPadY))
    }

    function Padded(draw: Matrix): Matrix {
      DenseNetwork.Pad(draw, totalX, totalY)
    }

    /** (x, y) is a cell of some block. */
    ghost predicate Covers(x: int, y: int)
      requires blockX > 0 && blockY > 0
    {
      && 0 <= x < Total(CutsFor(totalX, blockX, dontPadX))
      && 0 <= y < Total(CutsFor(totalY, blockY, dontPadY))
    }

    predicate HasBlock(i: int, j: int)
      requires blockX > 0 && blockY > 0
    {
      0 <= i < NumBlocks(totalX, blockX) && 0 <= j < NumBlocks(totalY, blockY)
    }
  }

  /** Where space runs out: whether the first attempts to make and to store block (i, j) fail.  `held`
      is what the memory of a block just made holds, by the cell of the whole matrix. */
  datatype Memory = Memory(makeFails: (int, int) -> bool, storeFails: (int, int) -> bool, held: Matrix)

  /** A block whose storing failed is made again, but the row counter still stands at its end, so that it
      is stored as it was made. */
  function LoadedMatrix(sh: Shape, draw: Matrix, mem: Memory): Matrix
    requires sh.blockX > 0 && sh.blockY > 0
  {
    (x: int, y: int) =>
      if mem.storeFails(x / sh.blockX, y / sh.blockY) then mem.held(x, y) else sh.Padded(draw)(x, y)
  }

  lemma ActualFits(total: nat, block: nat, dontPad: bool, i: nat)
    requires block > 0 && i < NumBlocks(total, block)
    ensures var actual := ActualBlock(total, block, dontPad, i);
            && 0 < actual
            && Cut(total, block, dontPad, i) == i * block
            && (dontPad ==> i * actual + actual <= total && i * block + actual <= total)
            && (!dontPad ==> actual == block)
  {
    BlockBegins(total, block, i);
    if dontPad {
      var actual := ActualBlock(total, block, dontPad, i);
      MulCommutes(i, actual);
      MulCommutes(i, block);
      MulMonotonic(actual, block, i);
    }
  }

  lemma MulCommutes(x: int, y: int)
    ensures x * y == y * x
  {
  }

  /** A block of the right shape is a block of `m` if its cells are those of `m` from its corner on. */
  lemma BlockByCells(sh: Shape, b: Block, m: Matrix)
    requires sh.blockX > 0 && sh.blockY > 0 && sh.HasBlock(b.row, b.col)
    requires b.rows == ActualBlock(sh.totalX, sh.blockX, sh.dontPadX, b.row)
    requires b.cols == ActualBlock(sh.totalY, sh.blockY, sh.dontPadY, b.col)
    requires |b.data| == b.rows * b.cols
    requires forall r, c :: 0 <= r < b.rows && 0 <= c < b.cols ==>
               At(b, r, c) == m(b.row * sh.blockX + r, b.col * sh.blockY + c)
    ensures sh.IsBlock(b, m)
  {
    CutsPartition(sh.totalX, sh.blockX, sh.dontPadX);
    CutsPartition(sh.totalY, sh.blockY, sh.dontPadY);
    ActualFits(sh.totalX, sh.blockX, sh.dontPadX, b.row);
    ActualFits(sh.totalY, sh.blockY, sh.dontPadY, b.col);
  }

  /** A filled block holds its part of the padded matrix. */
  lemma FilledIsBlock(sh: Shape, draw: Matrix, i: nat, j: nat, data: seq<real>)
    requires sh.blockX > 0 && sh.blockY > 0
    requires i < NumBlocks(sh.totalX, sh.blockX) && j < NumBlocks(sh.totalY, sh.blockY)
    requires var actualX := ActualBlock(sh.totalX, sh.blockX, sh.dontPadX, i);
             var actualY := ActualBlock(sh.totalY, sh.blockY, sh.dontPadY, j);
             && actualX > 0 && actualY > 0
             && FilledBefore(data, LoadedCell(draw, sh.totalX, sh.totalY, i, j, actualX, actualY,
                                              i * sh.blockX, j * sh.blockY), actualX, actualY, actualX * actualY)
    ensures var actualX := ActualBlock(sh.totalX, sh.blockX, sh.dontPadX, i);
            var actualY := ActualBlock(sh.totalY, sh.blockY, sh.dontPadY, j);
            sh.IsBlock(Block(i, j, actualX, actualY, data, None), sh.Padded(draw))
  {
    var actualX := ActualBlock(sh.totalX, sh.blockX, sh.dontPadX, i);
    var actualY := ActualBlock(sh.totalY, sh.blockY, sh.dontPadY, j);
    var b := Block(i, j, actualX, actualY, data, None);
    forall r, c | 0 <= r < actualX && 0 <= c < actualY
      ensures At(b, r, c) == sh.Padded(draw)(i * sh.blockX + r, j * sh.blockY + c)
    {
      FilledCell(sh, draw, i, j, b, r, c);
    }
    BlockByCells(sh, b, sh.Padded(draw));
  }

  lemma FilledCell(sh: Shape, draw: Matrix, i: nat, j: nat, b: Block, r: nat, c: nat)
    requires sh.blockX > 0 && sh.blockY > 0
    requires i < NumBlocks(sh.totalX, sh.blockX) && j < NumBlocks(sh.totalY, sh.blockY)
    requires b.rows == ActualBlock(sh.totalX, sh.blockX, sh.dontPadX, i)
    requires b.cols == ActualBlock(sh.totalY, sh.blockY, sh.dontPadY, j)
    requires r < b.rows && c < b.cols
    requires FilledBefore(b.data, LoadedCell(draw, sh.totalX, sh.totalY, i, j, b.rows, b.cols,
                                             i * sh.blockX, j * sh.blockY), b.rows, b.cols, b.rows * b.cols)
    ensures At(b, r, c) == sh.Padded(draw)(i * sh.blockX + r, j * sh.blockY + c)
  {
    var cell := LoadedCell(draw, sh.totalX, sh.totalY, i, j, b.rows, b.cols, i * sh.blockX, j * sh.blockY);
    FlatIndex(r, c, b.rows, b.cols);
    assert At(b, r, c) == cell(r, c);
    NoFalsePadding(sh.totalX, sh.blockX, sh.dontPadX, i, r);
    NoFalsePadding(sh.totalY, sh.blockY, sh.dontPadY, j, c);
  }

  /** The loop's own coordinate exceeds the total exactly when the true coordinate does, although in a
      ragged block it multiplies by the ragged height. */
  lemma NoFalsePadding(total: nat, block: nat, dontPad: bool, i: nat, ii: nat)
    requires block > 0 && i < NumBlocks(total, block) && ii < ActualBlock(total, block, dontPad, i)
    ensures i * ActualBlock(total, block, dontPad, i) + ii >= total <==> i * block + ii >= total
  {
    ActualFits(total, block, dontPad, i);
  }

  // ---------- running out of space ----------

  lemma CellIsInBlock(total: nat, block: nat, dontPad: bool, i: nat, r: nat)
    requires block > 0 && i < NumBlocks(total, block) && r < ActualBlock(total, block, dontPad, i)
    ensures (i * block + r) / block == i
  {
    FlatIndex(i, r, i + 1, block);
  }

  /** A block filled and stored at once is a block of what is loaded. */
  lemma StoredIsBlock(sh: Shape, draw: Matrix, mem: Memory, b: Block)
    requires sh.blockX > 0 && sh.blockY > 0
    requires sh.IsBlock(b, sh.Padded(draw)) && !mem.storeFails(b.row, b.col)
    ensures sh.IsBlock(b, LoadedMatrix(sh, draw, mem))
  {
    CutsPartition(sh.totalX, sh.blockX, sh.dontPadX);
    CutsPartition(sh.totalY, sh.blockY, sh.dontPadY);
    ActualFits(sh.totalX, sh.blockX, sh.dontPadX, b.row);
    ActualFits(sh.totalY, sh.blockY, sh.dontPadY, b.col);
    forall r, c | 0 <= r < b.rows && 0 <= c < b.cols
      ensures At(b, r, c) == LoadedMatrix(sh, draw, mem)(b.row * sh.blockX + r, b.col * sh.blockY + c)
    {
      CellIsInBlock(sh.totalX, sh.blockX, sh.dontPadX, b.row, r);
      CellIsInBlock(sh.totalY, sh.blockY, sh.dontPadY, b.col, c);
    }
  }

  /** The data of a block that was made and not filled. */
  function Unfilled(mem: Memory, rows: nat, cols: nat, startX: int, startY: int): seq<real> {
    if cols == 0 then []
    else seq(rows * cols, t requires 0 <= t => mem.held(startX + t / cols, startY + t % cols))
  }

  /** The cells of `b` are what memory held for the cells of the matrix from its corner on. */
  ghost predicate HoldsMemory(b: Block, mem: Memory, startX: int, startY: int) {
    && |b.data| == b.rows * b.cols
    && forall r, c :: 0 <= r < b.rows && 0 <= c < b.cols ==> At(b, r, c) == mem.held(startX + r, startY + c)
  }

  lemma UnfilledHolds(mem: Memory, b: Block, startX: int, startY: int)
    requires b.cols > 0 && b.data == Unfilled(mem, b.rows, b.cols, startX, startY)
    ensures HoldsMemory(b, mem, startX, startY)
  {
    forall r, c | 0 <= r < b.rows && 0 <= c < b.cols ensures At(b, r, c) == mem.held(startX + r, startY + c) {
      FlatIndex(r, c, b.rows, b.cols);
    }
  }

  /** All of a block whose storing failed is what its memory held. */
  lemma LoadedAsHeld(sh: Shape, draw: Matrix, mem: Memory, i: nat, j: nat, r: nat, c: nat)
    requires sh.blockX > 0 && sh.blockY > 0 && sh.HasBlock(i, j) && mem.storeFails(i, j)
    requires r < ActualBlock(sh.totalX, sh.blockX, sh.dontPadX, i)
    requires c < ActualBlock(sh.totalY, sh.blockY, sh.dontPadY, j)
    ensures LoadedMatrix(sh, draw, mem)(i * sh.blockX + r, j * sh.blockY + c)
         == mem.held(i * sh.blockX + r, j * sh.blockY + c)
  {
    CellIsInBlock(sh.totalX, sh.blockX, sh.dontPadX, i, r);
    CellIsInBlock(sh.totalY, sh.blockY, sh.dontPadY, j, c);
  }

  lemma HeldIsBlock(sh: Shape, draw: Matrix, mem: Memory, b: Block)
    requires sh.blockX > 0 && sh.blockY > 0 && sh.HasBlock(b.row, b.col) && mem.storeFails(b.row, b.col)
    requires b.rows == ActualBlock(sh.totalX, sh.blockX, sh.dontPadX, b.row)
    requires b.cols == ActualBlock(sh.totalY, sh.blockY, sh.dontPadY, b.col)
    requires HoldsMemory(b, mem, b.row * sh.blockX, b.col * sh.blockY)
    ensures sh.IsBlock(b, LoadedMatrix(sh, draw, mem))
  {
    forall r, c | 0 <= r < b.rows && 0 <= c < b.cols
      ensures At(b, r, c) == LoadedMatrix(sh, draw, mem)(b.row * sh.blockX + r, b.col * sh.blockY + c)
    {
      LoadedAsHeld(sh, draw, mem, b.row, b.col, r, c);
    }
    BlockByCells(sh, b, LoadedMatrix(sh, draw, mem));
  }

  /** What is loaded is the padded matrix exactly when the memory of every block whose storing failed
      happened to hold its part of it. */
  lemma LoadedIsPadded(sh: Shape, draw: Matrix, mem: Memory, blocks: seq<Block>)
    requires sh.blockX > 0 && sh.blockY > 0 && sh.Tiles(blocks, LoadedMatrix(sh, draw, mem))
    ensures sh.Tiles(blocks, sh.Padded(draw)) <==> HeldIsPadded(sh, draw, mem)
  {
    if HeldIsPadded(sh, draw, mem) {
      forall b | b in blocks ensures sh.IsBlock(b, sh.Padded(draw)) {
        AgreeingBlock(sh, draw, mem, b);
      }
    }
    if sh.Tiles(blocks, sh.Padded(draw)) {
      forall x, y | sh.Covers(x, y) && mem.storeFails(x / sh.blockX, y / sh.blockY)
        ensures mem.held(x, y) == sh.Padded(draw)(x, y)
      {
        TilingsAgree(sh, blocks, LoadedMatrix(sh, draw, mem), sh.Padded(draw), x, y);
      }
    }
  }

  ghost predicate HeldIsPadded(sh: Shape, draw: Matrix, mem: Memory)
    requires sh.blockX > 0 && sh.blockY > 0
  {
    forall x, y :: sh.Covers(x, y) && mem.storeFails(x / sh.blockX, y / sh.blockY) ==>
      mem.held(x, y) == sh.Padded(draw)(x, y)
  }

  lemma AgreeingBlock(sh: Shape, draw: Matrix, mem: Memory, b: Block)
    requires sh.blockX > 0 && sh.blockY > 0 && HeldIsPadded(sh, draw, mem)
    requires sh.IsBlock(b, LoadedMatrix(sh, draw, mem))
    ensures sh.IsBlock(b, sh.Padded(draw))
  {
    var rowCuts, colCuts := CutsFor(sh.totalX, sh.blockX, sh.dontPadX), CutsFor(sh.totalY, sh.blockY, sh.dontPadY);
    CutsPartition(sh.totalX, sh.blockX, sh.dontPadX);
    CutsPartition(sh.totalY, sh.blockY, sh.dontPadY);
    CutsAscend(rowCuts, b.row, b.row + 1);
    CutsAscend(colCuts, b.col, b.col + 1);
    forall r, c | 0 <= r < b.rows && 0 <= c < b.cols
      ensures At(b, r, c) == sh.Padded(draw)(rowCuts[b.row] + r, colCuts[b.col] + c)
    {
      assert sh.Covers(rowCuts[b.row] + r, colCuts[b.col] + c);
    }
  }

  /** The same blocks tile two matrices only if these agree on the cells covered. */
  lemma TilingsAgree(sh: Shape, blocks: seq<Block>, m: Matrix, m1: Matrix, x: int, y: int)
    requires sh.blockX > 0 && sh.blockY > 0 && sh.Tiles(blocks, m) && sh.Tiles(blocks, m1) && sh.Covers(x, y)
    ensures m(x, y) == m1(x, y)
  {
    var rowCuts, colCuts := CutsFor(sh.totalX, sh.blockX, sh.dontPadX), CutsFor(sh.totalY, sh.blockY, sh.dontPadY);
    var i := CutContaining(rowCuts, x);
    var j := CutContaining(colCuts, y);
    assert HasKey(blocks, (i, j));
    var b :| b in blocks && KeyOf(b) == (i, j);
    var r, c := x - rowCuts[i], y - colCuts[j];
    assert At(b, r, c) == m(rowCuts[i] + r, colCuts[j] + c) && At(b, r, c) == m1(rowCuts[i] + r, colCuts[j] + c);
  }

  lemma FirstCellIsTrue(sh: Shape, i: int, j: int)
    requires sh.blockX > 0 && sh.blockY > 0 && sh.HasBlock(i, j)
    ensures i * sh.blockX < sh.totalX && (i * sh.blockX) / sh.blockX == i
    ensures j * sh.blockY < sh.totalY && (j * sh.blockY) / sh.blockY == j
    ensures sh.Covers(i * sh.blockX, j * sh.blockY)
  {
    FirstOfBlock(sh.totalX, sh.blockX, sh.dontPadX, i);
    FirstOfBlock(sh.totalY, sh.blockY, sh.dontPadY, j);
  }

  lemma FirstOfBlock(total: nat, block: nat, dontPad: bool, i: nat)
    requires block > 0 && i < NumBlocks(total, block)
    ensures 0 <= i * block < total && (i * block) / block == i
    ensures i * block < Total(CutsFor(total, block, dontPad))
  {
    BlockBegins(total, block, i);
    BlockContaining(i * block, block, i);
    CutsPartition(total, block, dontPad);
  }

  lemma TrueCellHasBlock(total: nat, block: nat, x: nat)
    requires block > 0 && x < total
    ensures 0 <= x / block < NumBlocks(total, block)
  {
    var i := x / block;
    BlockContaining(x, block, i);
    BlocksReach(total, block);
    if NumBlocks(total, block) <= i {
      MulMonotonic(NumBlocks(total, block), i, block);
    }
  }

  /** Values drawn are never zero, so over zeroed memory the load is right exactly when no block failed to
      be stored. */
  lemma RightIffNothingFailedToStore(sh: Shape, draw: Matrix, mem: Memory, blocks: seq<Block>)
    requires sh.blockX > 0 && sh.blockY > 0 && sh.Tiles(blocks, LoadedMatrix(sh, draw, mem))
    requires forall x, y :: draw(x, y) != 0.0 && mem.held(x, y) == 0.0
    ensures sh.Tiles(blocks, sh.Padded(draw)) <==> forall i, j :: sh.HasBlock(i, j) ==> !mem.storeFails(i, j)
  {
    LoadedIsPadded(sh, draw, mem, blocks);
    if HeldIsPadded(sh, draw, mem) {
      forall i, j | sh.HasBlock(i, j) ensures !mem.storeFails(i, j) {
        FirstCellIsTrue(sh, i, j);
        assert mem.held(i * sh.blockX, j * sh.blockY) != sh.Padded(draw)(i * sh.blockX, j * sh.blockY);
      }
    } else {
      var x, y :| && sh.Covers(x, y) && mem.storeFails(x / sh.blockX, y / sh.blockY)
                  && mem.held(x, y) != sh.Padded(draw)(x, y);
      assert x < sh.totalX && y < sh.totalY;
      TrueCellHasBlock(sh.totalX, sh.blockX, x);
      TrueCellHasBlock(sh.totalY, sh.blockY, y);
    }
  }

  ghost predicate Before(b: Block, i: int, j: int) {
    b.row < i || (b.row == i && b.col < j)
  }

  /** What the store holds when the loops stand at block (i, j). */
  ghost predicate StoreAt(sh: Shape, m: Matrix, store: seq<Block>, i: int, j: int)
    requires sh.blockX > 0 && sh.blockY > 0
  {
    && (forall n :: 0 <= n < |store| ==> sh.IsBlock(store[n], m) && Before(store[n], i, j) && store[n].bias == None)
    && KeysDiffer(store)
    && (forall r, c ::
          (0 <= r < NumBlocks(sh.totalX, sh.blockX) && 0 <= c < NumBlocks(sh.totalY, sh.blockY)
           && (r < i || (r == i && c < j)))
          ==> HasKey(store, (r, c)))
  }

  lemma StoreGrows(sh: Shape, m: Matrix, store: seq<Block>, b: Block)
    requires sh.blockX > 0 && sh.blockY > 0
    requires StoreAt(sh, m, store, b.row, b.col) && sh.IsBlock(b, m) && b.bias == None
    ensures StoreAt(sh, m, store + [b], b.row, b.col + 1)
  {
    var next := store + [b];
    forall r, c | 0 <= r < NumBlocks(sh.totalX, sh.blockX) && 0 <= c < NumBlocks(sh.totalY, sh.blockY)
                  && (r < b.row || (r == b.row && c < b.col + 1)) ensures HasKey(next, (r, c)) {
      if (r, c) == KeyOf(b) {
        assert next[|store|] == b;
      } else {
        assert HasKey(store, (r, c));
        var x :| x in store && KeyOf(x) == (r, c);
        assert x in next;
      }
    }
  }

  lemma NextRow(sh: Shape, m: Matrix, store: seq<Block>, i: int)
    requires sh.blockX > 0 && sh.blockY > 0 && StoreAt(sh, m, store, i, NumBlocks(sh.totalY, sh.blockY))
    ensures StoreAt(sh, m, store, i + 1, 0)
  {
  }

  lemma StoreTiles(sh: Shape, m: Matrix, store: seq<Block>)
    requires sh.blockX > 0 && sh.blockY > 0 && StoreAt(sh, m, store, NumBlocks(sh.totalX, sh.blockX), 0)
    ensures sh.Tiles(store, m)
  {
    CutsPartition(sh.totalX, sh.blockX, sh.dontPadX);
    CutsPartition(sh.totalY, sh.blockY, sh.dontPadY);
  }

  /** Block (i, j): filled, or made anew and not filled if storing it fails. */
  method BlockData(sh: Shape, draw: Matrix, mem: Memory, i: nat, j: nat, actualX: nat, actualY: nat)
    returns (ok: bool, data: seq<real>)
    requires sh.blockX > 0 && sh.blockY > 0 && sh.HasBlock(i, j)
    requires actualX == ActualBlock(sh.totalX, sh.blockX, sh.dontPadX, i)
    requires actualY == ActualBlock(sh.totalY, sh.blockY, sh.dontPadY, j)
    ensures ok && sh.IsBlock(Block(i, j, actualX, actualY, data, None), LoadedMatrix(sh, draw, mem))
  {
    ActualFits(sh.totalX, sh.blockX, sh.dontPadX, i);
    ActualFits(sh.totalY, sh.blockY, sh.dontPadY, j);
    ok, data := FillBlock(draw, sh.totalX, sh.totalY, i, j, actualX, actualY, i * sh.blockX, j * sh.blockY,
                          sh.dontPadX, sh.dontPadY);
    if mem.storeFails(i, j) {
      data := Unfilled(mem, actualX, actualY, i * sh.blockX, j * sh.blockY);
      UnfilledHolds(mem, Block(i, j, actualX, actualY, data, None), i * sh.blockX, j * sh.blockY);
      HeldIsBlock(sh, draw, mem, Block(i, j, actualX, actualY, data, None));
    } else {
      FilledIsBlock(sh, draw, i, j, data);
      StoredIsBlock(sh, draw, mem, Block(i, j, actualX, actualY, data, None));
    }
  }

  /** loadMatrixGeneric: wherever space runs out, the blocks sent tile the matrix loaded, each once, and the
      exit in the loop is never taken. */
  method LoadMatrixGeneric(sh: Shape, draw: Matrix, mem: Memory) returns (out: LoadResult)
    ensures sh.totalX == 0 || sh.totalY == 0 || sh.blockX == 0 || sh.blockY == 0 ==> out == Loaded([])
    ensures sh.totalX > 0 && sh.totalY > 0 && sh.blockX > 0 && sh.blockY > 0 ==>
              out.Loaded? && sh.Tiles(out.blocks, LoadedMatrix(sh, draw, mem))
  {
    if sh.totalX == 0 || sh.totalY == 0 || sh.blockX == 0 || sh.blockY == 0 {
      return Loaded([]);
    }
    ghost var m := LoadedMatrix(sh, draw, mem);
    var sent: seq<Block>, store: seq<Block> := [], [];
    var numXBlocks, numYBlocks := NumBlocks(sh.totalX, sh.blockX), NumBlocks(sh.totalY, sh.blockY);
    var i, exited := 0, false;
    while i < numXBlocks && !exited
      invariant 0 <= i <= numXBlocks && !exited && StoreAt(sh, m, sent + store, i, 0)
    {
      var actualX := ActualBlock(sh.totalX, sh.blockX, sh.dontPadX, i);
      ActualFits(sh.totalX, sh.blockX, sh.dontPadX, i);
      var j := 0;
      while j < numYBlocks && !exited
        invariant 0 <= j <= numYBlocks && !exited && StoreAt(sh, m, sent + store, i, j)
      {
        var actualY := ActualBlock(sh.totalY, sh.blockY, sh.dontPadY, j);
        ActualFits(sh.totalY, sh.blockY, sh.dontPadY, j);
        var ok, data := BlockData(sh, draw, mem, i, j, actualX, actualY);
        exited := exited || !ok;
        var myData := Block(i, j, actualX, actualY, data, None);
        StoreGrows(sh, m, sent + store, myData);
        assert sent + store + [myData] == sent + (store + [myData]);
        if mem.makeFails(i, j) || mem.storeFails(i, j) {
          sent, store := sent + store, [];
        }
        store := store + [myData];
        j := j + 1;
      }
      NextRow(sh, m, sent + store, i);
      i := i + 1;
    }
    StoreTiles(sh, m, sent + store);
    return if exited then ShouldNotBeHere else Loaded(sent + store);
  }
}
