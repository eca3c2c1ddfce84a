/** FFInputLayerJoin and FFTransposeMult followed by FFAggMatrix: a join on block indices and a sum
    per key are matrix multiplication. */
module MatrixJoin {
  import opened Commons
  import opened MatrixBlocks
  import opened MatrixAggregation

  // ---------- the projections ----------

  function Cells(b: Block): Matrix {
    (r: int, c: int) => At(b, r, c)
  }

  /** Cell (r, c) of the product of two blocks. */
  function ProductCell(a: Block, b: Block, r: int, c: int): real {
    Product(Cells(a), Cells(b), a.cols)(r, c)
  }

  /** FFInputLayerJoin::getProjection on blocks that fit: their product, plus the bias of the second
      in every row. */
  function Multiply(a: Block, b: Block): Block {
    Block(a.row, b.col, a.rows, b.cols,
          if b.cols == 0 then []
          else seq(a.rows * b.cols, t requires 0 <= t =>
                     ProductCell(a, b, t / b.cols, t % b.cols) + BiasAt(b, t % b.cols)),
          None)
  }

  lemma MultiplyCell(a: Block, b: Block, r: int, c: int)
    requires 0 <= r < a.rows && 0 <= c < b.cols
    ensures |Multiply(a, b).data| == a.rows * b.cols && 0 <= r * b.cols + c < a.rows * b.cols
    ensures At(Multiply(a, b), r, c) == ProductCell(a, b, r, c) + BiasAt(b, c)
  {
    FlatIndex(r, c, a.rows, b.cols);
  }

  datatype Result<+T> = Ok(value: T) | BlockMismatch

  /** The loop over one row of the product. */
  method AddBiasToRow(outData: array<real>, base: nat, J: nat, bias: seq<real>)
    requires base + J <= outData.Length && |bias| >= J
    modifies outData
    ensures outData[..] == WithRow(old(outData[..]), base, J, bias)
  {
    for c := 0 to J
      invariant forall k :: 0 <= k < c ==> outData[base + k] == old(outData[base + k]) + bias[k]
      invariant forall t :: 0 <= t < base || base + c <= t < outData.Length ==> outData[t] == old(outData[t])
    {
      outData[base + c] := outData[base + c] + bias[c];
    }
    ghost var was := old(outData[..]);
    assert outData[..base] == was[..base] && outData[base + J..] == was[base + J..];
    assert outData[base..base + J] == AddData(was[base..base + J], bias);
    assert outData[..] == outData[..base] + outData[base..base + J] + outData[base + J..];
  }

  /** The bias added to the row that begins at `base`. */
  function WithRow(was: seq<real>, base: nat, J: nat, bias: seq<real>): (now: seq<real>)
    requires base + J <= |was| && |bias| >= J
    ensures |now| == |was|
  {
    was[..base] + AddData(was[base..base + J], bias) + was[base + J..]
  }

  /** The bias added to the first `rows` rows. */
  function WithBias(was: seq<real>, J: nat, bias: seq<real>, rows: nat): (now: seq<real>)
    requires rows * J <= |was| && |bias| >= J
    ensures |now| == |was|
  {
    if rows == 0 then was
    else
      assert rows * J == (rows - 1) * J + J && 0 <= (rows - 1) * J;
      WithRow(WithBias(was, J, bias, rows - 1), (rows - 1) * J, J, bias)
  }

  /** Rows that are done have the bias, the others do not. */
  lemma {:induction false} WithBiasAt(was: seq<real>, J: nat, bias: seq<real>, rows: nat, t: nat)
    requires rows * J <= |was| && |bias| >= J && t < |was| && J > 0
    ensures WithBias(was, J, bias, rows)[t] == was[t] + if t / J < rows then bias[t % J] else 0.0
  {
    if rows > 0 {
      var base := (rows - 1) * J;
      assert rows * J == base + J && 0 <= base;
      WithBiasAt(was, J, bias, rows - 1, t);
      BlockContaining(t, J, rows - 1);
      if t / J == rows - 1 {
        FlatIndex(rows - 1, t - base, rows, J);
      }
      WithRowAt(WithBias(was, J, bias, rows - 1), base, J, bias, t);
    }
  }

  lemma WithRowAt(was: seq<real>, base: nat, J: nat, bias: seq<real>, t: nat)
    requires base + J <= |was| && |bias| >= J && t < |was|
    ensures WithRow(was, base, J, bias)[t] == if base <= t < base + J then was[t] + bias[t - base] else was[t]
  {
  }

  method AddBias(outData: array<real>, I: nat, J: nat, bias: seq<real>)
    requires outData.Length == I * J && |bias| >= J
    modifies outData
    ensures outData[..] == WithBias(old(outData[..]), J, bias, I)
  {
    ghost var was := outData[..];
    for r := 0 to I
      invariant r * J <= I * J && outData[..] == WithBias(was, J, bias, r)
    {
      MulMonotonic(r + 1, I, J);
      assert (r + 1) * J == r * J + J;
      AddBiasToRow(outData, r * J, J, bias);
    }
  }

  /** The number at row `r` and column `c` of row-major data. */
  function DataAt(data: seq<real>, cols: nat, r: int, c: int): real {
    if 0 <= r * cols + c < |data| then data[r * cols + c] else 0.0
  }

  /** `data` is a column times a row: every cell is the product of two numbers, plus the bias of its column. */
  ghost predicate IsColumnTimesRow(data: seq<real>, column: seq<real>, row: seq<real>, bias: Option<seq<real>>) {
    && |data| == |column| * |row|
    && forall r, c :: 0 <= r < |column| && 0 <= c < |row| ==>
         DataAt(data, |row|, r, c) == column[r] * row[c] + if bias.Some? && c < |bias.value| then bias.value[c] else 0.0
  }

  /** With a single inner index a cell of the product is a product of two numbers. */
  lemma OneTerm(a: Block, b: Block, r: nat, c: nat)
    requires a.cols == b.rows == 1 && |a.data| == a.rows && |b.data| == b.cols && r < a.rows && c < b.cols
    ensures ProductCell(a, b, r, c) == a.data[r] * b.data[c]
  {
    var f := Terms(Cells(a), Cells(b), r, c);
    assert Sum(0, 1, f) == Sum(0, 0, f) + f(0);
  }

  lemma ColumnTimesRowCell(a: Block, b: Block, r: nat, c: nat)
    requires a.cols == b.rows == 1 && |a.data| == a.rows && |b.data| == b.cols && r < a.rows && c < b.cols
    ensures DataAt(Multiply(a, b).data, b.cols, r, c)
         == a.data[r] * b.data[c] + if b.bias.Some? && c < |b.bias.value| then b.bias.value[c] else 0.0
  {
    OneTerm(a, b, r, c);
    MultiplyCell(a, b, r, c);
  }

  lemma ColumnTimesRow(a: Block, b: Block)
    requires a.cols == b.rows == 1 && |a.data| == a.rows && |b.data| == b.cols
    ensures IsColumnTimesRow(Multiply(a, b).data, a.data, b.data, b.bias)
  {
    forall r, c | 0 <= r < |a.data| && 0 <= c < |b.data|
      ensures DataAt(Multiply(a, b).data, |b.data|, r, c)
           == a.data[r] * b.data[c] + if b.bias.Some? && c < |b.bias.value| then b.bias.value[c] else 0.0
    {
      ColumnTimesRowCell(a, b, r, c);
    }
  }

  /** FFInputLayerJoin::getProjection: the program stops if the inner dimensions differ.  The product
      itself is Eigen's. */
  method Project(in1: Block, in2: Block) returns (out: Result<Block>)
    requires in2.bias.Some? ==> |in2.bias.value| >= in2.cols
    ensures out == if in1.cols != in2.rows then BlockMismatch else Ok(Multiply(in1, in2))
    ensures in1.cols == in2.rows == 1 && |in1.data| == in1.rows && |in2.data| == in2.cols ==>
              out.Ok? && IsColumnTimesRow(out.value.data, in1.data, in2.data, in2.bias)
  {
    var I, J := in1.rows, in2.cols;
    if in1.cols != in2.rows {
      return BlockMismatch;
    }
    var outData := new real[I * J](t requires 0 <= t < I * J =>
      if J == 0 then 0.0 else ProductCell(in1, in2, t / J, t % J));
    ghost var product := outData[..];
    if in2.bias.Some? {
      AddBias(outData, I, J, in2.bias.value);
    }
    forall t | 0 <= t < I * J ensures J > 0 && outData[t] == Multiply(in1, in2).data[t] {
      CellOfIndex(t, I, J);
      assert product[t] == ProductCell(in1, in2, t / J, t % J);
      if in2.bias.Some? {
        WithBiasAt(product, J, in2.bias.value, I, t);
      }
    }
    out := Ok(Block(in1.row, in2.col, I, J, outData[..], None));
    assert outData[..] == Multiply(in1, in2).data;
    if in1.cols == in2.rows == 1 && |in1.data| == in1.rows && |in2.data| == in2.cols {
      ColumnTimesRow(in1, in2);
    }
  }

  // ---------- the join ----------

  /** The products of one left block with every right block its getSelection matches. */
  function JoinRow(a: Block, bs: seq<Block>): seq<Block> {
    if bs == [] then []
    else
      var b := bs[|bs| - 1];
      JoinRow(a, bs[..|bs| - 1]) + if a.col == b.row then [Multiply(a, b)] else []
  }

  function Join(lefts: seq<Block>, bs: seq<Block>): seq<Block> {
    if lefts == [] then []
    else Join(lefts[..|lefts| - 1], bs) + JoinRow(lefts[|lefts| - 1], bs)
  }

  /** No matching pair makes the program stop. */
  ghost predicate Conforms(lefts: seq<Block>, bs: seq<Block>) {
    forall a, b :: a in lefts && b in bs && a.col == b.row ==> a.cols == b.rows
  }

  function CellAt(b: Block, t: int): real {
    if 0 <= t < |b.data| then b.data[t] else 0.0
  }

  lemma LastDiffers(bs: seq<Block>)
    requires KeysDiffer(bs) && bs != []
    ensures var rest := bs[..|bs| - 1];
            KeysDiffer(rest) && forall x :: x in rest ==> KeyOf(x) != KeyOf(bs[|bs| - 1])
  {
  }

  /** At most one right block contributes to a key. */
  lemma {:induction false} JoinRowSum(a: Block, bs: seq<Block>, k: Key, t: int)
    requires KeysDiffer(bs)
    ensures forall b :: b in bs && KeyOf(b) == (a.col, k.1) ==>
              KeySum(JoinRow(a, bs), k, t) == if a.row == k.0 then CellAt(Multiply(a, b), t) else 0.0
    ensures !HasKey(bs, (a.col, k.1)) ==> KeySum(JoinRow(a, bs), k, t) == 0.0
  {
    if bs != [] {
      var n := |bs| - 1;
      var rest, last := bs[..n], bs[n];
      assert bs == rest + [last];
      LastDiffers(bs);
      JoinRowSum(a, rest, k, t);
      if a.col == last.row {
        KeySumConcat(JoinRow(a, rest), [Multiply(a, last)], k, t);
        assert [Multiply(a, last)][..0] == [];
      } else {
        assert JoinRow(a, rest) + [] == JoinRow(a, rest);
      }
    }
  }

  /** The sum, over the left blocks of block row `i` left of block column `n`, of `f` of their column. */
  ghost function RowSum(lefts: seq<Block>, i: int, f: int -> real, n: int): real {
    if lefts == [] then 0.0
    else
      var a := lefts[|lefts| - 1];
      RowSum(lefts[..|lefts| - 1], i, f, n) + if a.row == i && 0 <= a.col < n then f(a.col) else 0.0
  }

  lemma {:induction false} RowSumGrows(lefts: seq<Block>, i: int, f: int -> real, n: nat)
    requires KeysDiffer(lefts)
    ensures RowSum(lefts, i, f, n + 1) == RowSum(lefts, i, f, n) + if HasKey(lefts, (i, n)) then f(n) else 0.0
  {
    if lefts != [] {
      var rest, last := lefts[..|lefts| - 1], lefts[|lefts| - 1];
      assert lefts == rest + [last];
      LastDiffers(lefts);
      RowSumGrows(rest, i, f, n);
      assert HasKey(lefts, (i, n)) <==> HasKey(rest, (i, n)) || KeyOf(last) == (i, n);
      if KeyOf(last) == (i, n) {
        assert !HasKey(rest, (i, n));
      }
    }
  }

  /** Summing over the blocks of a row, in any order, is summing over the block columns. */
  lemma {:induction false} RowSumIsSum(lefts: seq<Block>, i: int, f: int -> real, n: nat)
    requires KeysDiffer(lefts) && forall j :: 0 <= j < n ==> HasKey(lefts, (i, j))
    ensures RowSum(lefts, i, f, n) == Sum(0, n, f)
  {
    if n == 0 {
      RowSumOfNothing(lefts, i, f);
    } else {
      RowSumIsSum(lefts, i, f, n - 1);
      RowSumGrows(lefts, i, f, n - 1);
    }
  }

  lemma {:induction false} RowSumOfNothing(lefts: seq<Block>, i: int, f: int -> real)
    ensures RowSum(lefts, i, f, 0) == 0.0
  {
    if lefts != [] {
      RowSumOfNothing(lefts[..|lefts| - 1], i, f);
    }
  }

  // ---------- one cell ----------

  /** Two matrices to multiply and where they are cut: rows of the left, the shared inner dimension,
      columns of the right. */
  datatype Problem = Problem(left: Matrix, right: Matrix, rowCuts: seq<int>, inner: seq<int>, colCuts: seq<int>) {
    ghost predicate Tiled(lefts: seq<Block>, rights: seq<Block>) {
      IsTiling(lefts, left, rowCuts, inner) && IsTiling(rights, right, inner, colCuts)
    }

    function Result(): Matrix
      requires |inner| >= 1
    {
      Product(left, right, Total(inner))
    }

    /** (r, c) is a cell of block (i, j) of the result. */
    predicate HasCell(i: int, j: int, r: int, c: int) {
      && 0 <= i < |rowCuts| - 1 && 0 <= r < rowCuts[i + 1] - rowCuts[i]
      && 0 <= j < |colCuts| - 1 && 0 <= c < colCuts[j + 1] - colCuts[j]
    }

    /** Its place in the block's data. */
    function Place(i: int, j: int, r: int, c: int): int
      requires HasCell(i, j, r, c)
    {
      r * (colCuts[j + 1] - colCuts[j]) + c
    }

    /** What each inner block contributes to the cell. */
    function Shares(bias: (int, int, int) -> real, i: int, j: int, r: int, c: int): int -> real
      requires HasCell(i, j, r, c)
    {
      (k: int) => if 0 <= k < |inner| - 1 then
                    Sum(inner[k], inner[k + 1], Terms(left, right, rowCuts[i] + r, colCuts[j] + c)) + bias(k, j, c)
                  else 0.0
    }
  }

  ghost predicate BiasesAre(bs: seq<Block>, bias: (int, int, int) -> real) {
    forall b, c :: b in bs ==> BiasAt(b, c) == bias(b.row, b.col, c)
  }

  lemma {:induction false} SumShifts(n: nat, lo: int, f: int -> real, g: int -> real)
    requires forall x :: 0 <= x < n ==> f(x) == g(lo + x)
    ensures Sum(0, n, f) == Sum(lo, lo + n, g)
  {
    if n > 0 {
      SumShifts(n - 1, lo, f, g);
    }
  }

  lemma ProductCellIs(a: Block, b: Block, pr: Problem, r: int, c: int)
    requires BlockOf(a, pr.left, pr.rowCuts, pr.inner) && BlockOf(b, pr.right, pr.inner, pr.colCuts) && a.col == b.row
    requires 0 <= r < a.rows && 0 <= c < b.cols
    ensures ProductCell(a, b, r, c) ==
            Sum(pr.inner[a.col], pr.inner[a.col + 1],
                Terms(pr.left, pr.right, pr.rowCuts[a.row] + r, pr.colCuts[b.col] + c))
  {
    var f := Terms(Cells(a), Cells(b), r, c);
    var g := Terms(pr.left, pr.right, pr.rowCuts[a.row] + r, pr.colCuts[b.col] + c);
    forall z | 0 <= z < a.cols ensures f(z) == g(pr.inner[a.col] + z) {
      assert At(a, r, z) == pr.left(pr.rowCuts[a.row] + r, pr.inner[a.col] + z);
      assert At(b, z, c) == pr.right(pr.inner[b.row] + z, pr.colCuts[b.col] + c);
    }
    SumShifts(a.cols, pr.inner[a.col], f, g);
  }

  /** A matching pair contributes the share of its inner block. */
  lemma PairShare(a: Block, b: Block, pr: Problem, bias: (int, int, int) -> real, r: int, c: int)
    requires BlockOf(a, pr.left, pr.rowCuts, pr.inner) && BlockOf(b, pr.right, pr.inner, pr.colCuts) && a.col == b.row
    requires BiasAt(b, c) == bias(b.row, b.col, c) && pr.HasCell(a.row, b.col, r, c)
    ensures CellAt(Multiply(a, b), pr.Place(a.row, b.col, r, c)) == pr.Shares(bias, a.row, b.col, r, c)(a.col)
  {
    ProductCellIs(a, b, pr, r, c);
    MultiplyCell(a, b, r, c);
  }

  /** One left block contributes the share of its inner block to the cells of its block row. */
  lemma RowShare(a: Block, rights: seq<Block>, pr: Problem, bias: (int, int, int) -> real, i: int, j: int, r: int,
                 c: int)
    requires BlockOf(a, pr.left, pr.rowCuts, pr.inner)
    requires IsTiling(rights, pr.right, pr.inner, pr.colCuts) && BiasesAre(rights, bias)
    requires pr.HasCell(i, j, r, c)
    ensures KeySum(JoinRow(a, rights), (i, j), pr.Place(i, j, r, c)) ==
            if a.row == i then pr.Shares(bias, i, j, r, c)(a.col) else 0.0
  {
    JoinRowSum(a, rights, (i, j), pr.Place(i, j, r, c));
    assert HasKey(rights, (a.col, j));
    var b :| b in rights && KeyOf(b) == (a.col, j);
    if a.row == i {
      PairShare(a, b, pr, bias, r, c);
    }
  }

  /** A cell of a group of the join, left blocks in any order. */
  lemma {:induction false} JoinSum(lefts: seq<Block>, rights: seq<Block>, pr: Problem, bias: (int, int, int) -> real,
                                   i: int, j: int, r: int, c: int)
    requires forall a :: a in lefts ==> BlockOf(a, pr.left, pr.rowCuts, pr.inner)
    requires IsTiling(rights, pr.right, pr.inner, pr.colCuts) && BiasesAre(rights, bias)
    requires pr.HasCell(i, j, r, c)
    ensures KeySum(Join(lefts, rights), (i, j), pr.Place(i, j, r, c)) ==
            RowSum(lefts, i, pr.Shares(bias, i, j, r, c), |pr.inner| - 1)
  {
    if lefts != [] {
      var rest, a := lefts[..|lefts| - 1], lefts[|lefts| - 1];
      assert lefts == rest + [a];
      JoinSum(rest, rights, pr, bias, i, j, r, c);
      KeySumConcat(Join(rest, rights), JoinRow(a, rights), (i, j), pr.Place(i, j, r, c));
      RowShare(a, rights, pr, bias, i, j, r, c);
    }
  }

  function BiasTerms(bias: (int, int, int) -> real, j: int, c: int): int -> real {
    (k: int) => bias(k, j, c)
  }

  /** The inner blocks' shares add up to the whole inner product, plus the bias once per inner block. */
  lemma {:induction false} SharesAddUp(pr: Problem, bias: (int, int, int) -> real, i: int, j: int, r: int, c: int,
                                       n: nat)
    requires Cuts(pr.inner) && n < |pr.inner| && pr.HasCell(i, j, r, c)
    ensures Sum(0, n, pr.Shares(bias, i, j, r, c)) ==
            Sum(0, pr.inner[n], Terms(pr.left, pr.right, pr.rowCuts[i] + r, pr.colCuts[j] + c))
            + Sum(0, n, BiasTerms(bias, j, c))
  {
    if n > 0 {
      SharesAddUp(pr, bias, i, j, r, c, n - 1);
      CutsAscend(pr.inner, n - 1, n);
      SumSplits(0, pr.inner[n - 1], pr.inner[n], Terms(pr.left, pr.right, pr.rowCuts[i] + r, pr.colCuts[j] + c));
    }
  }

  /** Cell (r, c) of group (i, j) of the join of two tilings: the cell of the matrix product, plus the
      bias of every right block of block column j. */
  lemma JoinedCell(lefts: seq<Block>, rights: seq<Block>, pr: Problem, bias: (int, int, int) -> real,
                   i: int, j: int, r: int, c: int)
    requires pr.Tiled(lefts, rights) && BiasesAre(rights, bias) && pr.HasCell(i, j, r, c)
    ensures KeySum(Join(lefts, rights), (i, j), pr.Place(i, j, r, c)) ==
            pr.Result()(pr.rowCuts[i] + r, pr.colCuts[j] + c) + Sum(0, |pr.inner| - 1, BiasTerms(bias, j, c))
  {
    JoinSum(lefts, rights, pr, bias, i, j, r, c);
    SharesOfRow(lefts, rights, pr, bias, i, j, r, c);
  }

  lemma SharesOfRow(lefts: seq<Block>, rights: seq<Block>, pr: Problem, bias: (int, int, int) -> real,
                    i: int, j: int, r: int, c: int)
    requires pr.Tiled(lefts, rights) && pr.HasCell(i, j, r, c)
    ensures RowSum(lefts, i, pr.Shares(bias, i, j, r, c), |pr.inner| - 1) ==
            pr.Result()(pr.rowCuts[i] + r, pr.colCuts[j] + c) + Sum(0, |pr.inner| - 1, BiasTerms(bias, j, c))
  {
    RowSumIsSum(lefts, i, pr.Shares(bias, i, j, r, c), |pr.inner| - 1);
    SharesAddUp(pr, bias, i, j, r, c, |pr.inner| - 1);
  }

  // ---------- the whole query ----------

  lemma {:induction false} JoinRowMembers(a: Block, rights: seq<Block>, x: Block)
    ensures x in JoinRow(a, rights) <==> exists b :: b in rights && a.col == b.row && x == Multiply(a, b)
  {
    if rights != [] {
      var rest, b := rights[..|rights| - 1], rights[|rights| - 1];
      assert rights == rest + [b];
      JoinRowMembers(a, rest, x);
    }
  }

  lemma {:induction false} JoinMembers(lefts: seq<Block>, rights: seq<Block>, x: Block)
    ensures x in Join(lefts, rights) <==>
              exists a, b :: a in lefts && b in rights && a.col == b.row && x == Multiply(a, b)
  {
    if lefts != [] {
      var rest, a := lefts[..|lefts| - 1], lefts[|lefts| - 1];
      assert lefts == rest + [a];
      JoinMembers(rest, rights, x);
      JoinRowMembers(a, rights, x);
    }
  }

  /** `out`, in any order, are the records of the aggregation's result. */
  ghost predicate HoldsTable(out: seq<Block>, m: Table) {
    && KeysDiffer(out)
    && (forall b :: b in out ==> KeyOf(b) in m && b.data == m[KeyOf(b)].data && b.bias == None
                                 && b.rows == m[KeyOf(b)].rows && b.cols == m[KeyOf(b)].cols)
    && (forall k :: k in m ==> HasKey(out, k))
  }

  ghost predicate ShapedFor(x: Block, pr: Problem) {
    && 0 <= x.row < |pr.rowCuts| - 1 && x.rows == pr.rowCuts[x.row + 1] - pr.rowCuts[x.row]
    && 0 <= x.col < |pr.colCuts| - 1 && x.cols == pr.colCuts[x.col + 1] - pr.colCuts[x.col]
    && |x.data| == x.rows * x.cols
  }

  lemma PairShape(a: Block, b: Block, pr: Problem)
    requires BlockOf(a, pr.left, pr.rowCuts, pr.inner) && BlockOf(b, pr.right, pr.inner, pr.colCuts)
    ensures ShapedFor(Multiply(a, b), pr)
  {
  }

  lemma JoinShapes(lefts: seq<Block>, rights: seq<Block>, pr: Problem, x: Block)
    requires pr.Tiled(lefts, rights) && x in Join(lefts, rights)
    ensures ShapedFor(x, pr)
  {
    JoinMembers(lefts, rights, x);
    var a, b :| a in lefts && b in rights && a.col == b.row && x == Multiply(a, b);
    PairShape(a, b, pr);
  }

  lemma JoinIsUniform(lefts: seq<Block>, rights: seq<Block>, pr: Problem)
    requires pr.Tiled(lefts, rights)
    ensures Uniform(Join(lefts, rights)) && Conforms(lefts, rights)
    ensures forall x :: x in Join(lefts, rights) ==> ShapedFor(x, pr)
  {
    forall x | x in Join(lefts, rights) ensures ShapedFor(x, pr) {
      JoinShapes(lefts, rights, pr, x);
    }
    ShapedIsUniform(Join(lefts, rights), pr);
  }

  lemma ShapedIsUniform(bs: seq<Block>, pr: Problem)
    requires forall x :: x in bs ==> ShapedFor(x, pr)
    ensures Uniform(bs)
  {
  }

  lemma JoinHasEveryKey(lefts: seq<Block>, rights: seq<Block>, pr: Problem, i: int, j: int)
    requires pr.Tiled(lefts, rights) && |pr.inner| >= 2
    requires 0 <= i < |pr.rowCuts| - 1 && 0 <= j < |pr.colCuts| - 1
    ensures HasKey(Join(lefts, rights), (i, j))
  {
    assert HasKey(lefts, (i, 0)) && HasKey(rights, (0, j));
    var a :| a in lefts && KeyOf(a) == (i, 0);
    var b :| b in rights && KeyOf(b) == (0, j);
    JoinMembers(lefts, rights, Multiply(a, b));
    assert KeyOf(Multiply(a, b)) == (i, j);
  }

  function NoBias(): (int, int, int) -> real {
    (k: int, j: int, c: int) => 0.0
  }

  lemma SummedCell(joined: seq<Block>, lefts: seq<Block>, rights: seq<Block>, pr: Problem, i: int, j: int, r: int,
                   c: int)
    requires pr.Tiled(lefts, rights) && BiasesAre(rights, NoBias()) && pr.HasCell(i, j, r, c)
    requires multiset(joined) == multiset(Join(lefts, rights))
    ensures KeySum(joined, (i, j), pr.Place(i, j, r, c)) == pr.Result()(pr.rowCuts[i] + r, pr.colCuts[j] + c)
  {
    KeySumPermutes(joined, Join(lefts, rights), (i, j), pr.Place(i, j, r, c));
    JoinedCell(lefts, rights, pr, NoBias(), i, j, r, c);
    SumOfZeros(0, |pr.inner| - 1, BiasTerms(NoBias(), j, c));
  }

  lemma TableBlockShape(joined: seq<Block>, m: Table, out: seq<Block>, x: Block, pr: Problem)
    requires IsTableOf(m, joined) && HoldsTable(out, m) && x in out
    requires forall p :: p in joined ==> ShapedFor(p, pr)
    ensures ShapedFor(x, pr)
    ensures forall t :: 0 <= t < |x.data| ==> x.data[t] == KeySum(joined, KeyOf(x), t)
  {
    var p :| p in joined && KeyOf(p) == KeyOf(x);
  }

  lemma OutputCell(joined: seq<Block>, x: Block, pr: Problem, r: int, c: int)
    requires ShapedFor(x, pr) && 0 <= r < x.rows && 0 <= c < x.cols
    requires forall t :: 0 <= t < |x.data| ==> x.data[t] == KeySum(joined, KeyOf(x), t)
    ensures pr.HasCell(x.row, x.col, r, c)
    ensures At(x, r, c) == KeySum(joined, KeyOf(x), pr.Place(x.row, x.col, r, c))
  {
    FlatIndex(r, c, x.rows, x.cols);
  }

  /** A record of the aggregated join is a block of the matrix product. */
  lemma OutputBlock(joined: seq<Block>, x: Block, lefts: seq<Block>, rights: seq<Block>, pr: Problem)
    requires pr.Tiled(lefts, rights) && BiasesAre(rights, NoBias())
    requires multiset(joined) == multiset(Join(lefts, rights)) && ShapedFor(x, pr)
    requires forall t :: 0 <= t < |x.data| ==> x.data[t] == KeySum(joined, KeyOf(x), t)
    ensures BlockOf(x, pr.Result(), pr.rowCuts, pr.colCuts)
  {
    forall r, c | 0 <= r < x.rows && 0 <= c < x.cols
      ensures At(x, r, c) == pr.Result()(pr.rowCuts[x.row] + r, pr.colCuts[x.col] + c)
    {
      OutputCell(joined, x, pr, r, c);
      SummedCell(joined, lefts, rights, pr, x.row, x.col, r, c);
    }
  }

  /** Join and aggregation are matrix multiplication: whatever the order of the input blocks, of the
      joined pairs and of the output records, the output blocks are those of the product. */
  lemma JoinAggregateIsProduct(lefts: seq<Block>, rights: seq<Block>, pr: Problem, joined: seq<Block>, out: seq<Block>)
    requires pr.Tiled(lefts, rights) && |pr.inner| >= 2 && BiasesAre(rights, NoBias())
    requires multiset(joined) == multiset(Join(lefts, rights))
    ensures Conforms(lefts, rights) && Uniform(joined)
    ensures HoldsTable(out, Aggregate(joined)) ==> IsTiling(out, pr.Result(), pr.rowCuts, pr.colCuts)
  {
    JoinIsUniform(lefts, rights, pr);
    SameRecords(joined, Join(lefts, rights));
    if HoldsTable(out, Aggregate(joined)) {
      AggregateIsTable(joined);
      forall x | x in out ensures BlockOf(x, pr.Result(), pr.rowCuts, pr.colCuts) {
        TableBlockShape(joined, Aggregate(joined), out, x, pr);
        OutputBlock(joined, x, lefts, rights, pr);
      }
      forall i, j | 0 <= i < |pr.rowCuts| - 1 && 0 <= j < |pr.colCuts| - 1 ensures HasKey(out, (i, j)) {
        JoinHasEveryKey(lefts, rights, pr, i, j);
        var p :| p in Join(lefts, rights) && KeyOf(p) == (i, j);
        assert p in joined;
      }
    }
  }
}
