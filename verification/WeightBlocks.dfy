/** blocker.py: padding weights, cutting them into blocks, and putting models back together. */
module WeightBlocks {
  import opened Commons

  type Grid = seq<seq<real>>

  predicate Rect(g: Grid, rows: nat, cols: nat) {
    |g| == rows && forall r :: 0 <= r < rows ==> |g[r]| == cols
  }

  /** A layer's weights as the model holds them. */
  datatype Weight = Vector(values: seq<real>) | Table(cells: Grid, width: nat) | Other(rank: nat)

  datatype Shape = OneD(n: nat) | TwoD(rows: nat, cols: nat) {
    /** The sides of the layer once a vector has become a column. */
    function Height(): nat {
      if OneD? then n else rows
    }

    function Width(): nat {
      if OneD? then 1 else cols
    }
  }

  /** Weights pad_arr_2d accepts: it asserts two dimensions and takes the maximum, which an empty
      array does not have. */
  predicate Blockable(w: Weight) {
    match w
    case Vector(values) => |values| > 0
    case Table(cells, width) => |cells| > 0 && width > 0 && Rect(cells, |cells|, width)
    case Other(_) => false
  }

  function ShapeOf(w: Weight): (s: Shape)
    requires Blockable(w)
    ensures s.Height() > 0 && s.Width() > 0
  {
    if w.Vector? then OneD(|w.values|) else TwoD(|w.cells|, w.width)
  }

  /** A vector becomes a column. */
  function AsGrid(w: Weight): (g: Grid)
    requires Blockable(w)
    ensures Rect(g, ShapeOf(w).Height(), ShapeOf(w).Width())
  {
    if w.Vector? then seq(|w.values|, r requires 0 <= r < |w.values| => [w.values[r]]) else w.cells
  }

  // ---------- operations on one layer ----------

  /** How many blocks a layer has down and across. */
  type Counts = (nat, nat)

  function CountsOf(s: Shape, dx: nat, dy: nat): Counts
    requires dx > 0 && dy > 0
  {
    (NumBlocks(s.Height(), dx), NumBlocks(s.Width(), dy))
  }

  /** pad_arr_2d: zeros below and to the right. */
  function PadArr2d(g: Grid, s: Shape, dx: nat, dy: nat): (p: Grid)
    requires dx > 0 && dy > 0 && Rect(g, s.Height(), s.Width())
    ensures Rect(p, CountsOf(s, dx, dy).0 * dx, CountsOf(s, dx, dy).1 * dy)
  {
    seq(CountsOf(s, dx, dy).0 * dx, r requires 0 <= r =>
      seq(CountsOf(s, dx, dy).1 * dy, c requires 0 <= c =>
        if r < s.Height() && c < s.Width() then g[r][c] else 0.0))
  }

  predicate Covers(g: Grid, s: Shape) {
    |g| >= s.Height() && forall r :: 0 <= r < |g| ==> |g[r]| >= s.Width()
  }

  /** The original extent of a padded layer. */
  function Crop(g: Grid, s: Shape): Weight
    requires Covers(g, s)
  {
    if s.OneD?
    then Vector(seq(s.n, r requires 0 <= r < s.Height() && Covers(g, s) => g[r][0]))
    else Table(seq(s.rows, r requires 0 <= r < s.Height() && Covers(g, s) => g[r][..s.Width()]), s.cols)
  }

  /** Row `from + r` of the slice, and so on: numpy's g[top : top + rows, left : left + cols]. */
  function Slice(g: Grid, top: nat, left: nat, rows: nat, cols: nat): (b: Grid)
    requires top + rows <= |g| && forall r :: 0 <= r < |g| ==> left + cols <= |g[r]|
    ensures Rect(b, rows, cols)
  {
    seq(rows, r requires 0 <= r < rows => g[top + r][left..left + cols])
  }

  predicate Inside(r: int, c: int, top: nat, left: nat, rows: nat, cols: nat) {
    top <= r < top + rows && left <= c < left + cols
  }

  /** Assigning a block to a slice. */
  function Overwrite(g: Grid, top: nat, left: nat, b: Grid, rows: nat, cols: nat): (o: Grid)
    requires Rect(b, rows, cols)
    ensures |o| == |g| && forall r :: 0 <= r < |g| ==> |o[r]| == |g[r]|
  {
    seq(|g|, r requires 0 <= r < |g| =>
      seq(|g[r]|, c requires 0 <= c < |g[r]| =>
        if Inside(r, c, top, left, rows, cols) then b[r - top][c - left] else g[r][c]))
  }

  lemma GridsEqual(g: Grid, h: Grid, rows: nat, cols: nat)
    requires Rect(g, rows, cols) && Rect(h, rows, cols)
    requires forall r, c :: 0 <= r < rows && 0 <= c < cols ==> g[r][c] == h[r][c]
    ensures g == h
  {
    forall r | 0 <= r < rows ensures g[r] == h[r] {
    }
  }

  /** Cropping after padding gives the layer back, for vectors and tables. */
  lemma CropUndoesPad(w: Weight, dx: nat, dy: nat)
    requires Blockable(w) && dx > 0 && dy > 0
    ensures var s := ShapeOf(w);
            var (nx, ny) := CountsOf(s, dx, dy);
            && Covers(PadArr2d(AsGrid(w), s, dx, dy), s)
            && Crop(PadArr2d(AsGrid(w), s, dx, dy), s) == w
  {
    var s := ShapeOf(w);
    BlocksReach(s.Height(), dx);
    BlocksReach(s.Width(), dy);
    var p := PadArr2d(AsGrid(w), s, dx, dy);
    if w.Vector? {
      assert Crop(p, s).values == w.values;
    } else {
      var cropped := Crop(p, s).cells;
      forall r, c | 0 <= r < s.rows && 0 <= c < s.cols ensures cropped[r][c] == w.cells[r][c] {
        assert p[r][c] == w.cells[r][c];
      }
      GridsEqual(cropped, w.cells, s.rows, s.cols);
    }
  }

  // ---------- blocks of a padded layer ----------

  /** A block's place in a model: its layer and its indices down and across. */
  datatype Coord = Coord(w: nat, x: nat, y: nat)

  predicate HasBlock(counts: seq<Counts>, c: Coord) {
    c.w < |counts| && c.x < counts[c.w].0 && c.y < counts[c.w].1
  }

  predicate Padded(g: Grid, n: Counts, dx: nat, dy: nat) {
    Rect(g, n.0 * dx, n.1 * dy)
  }

  lemma BlockInside(i: nat, n: nat, b: nat)
    requires i < n
    ensures i * b + b <= n * b
  {
    MulMonotonic(i + 1, n, b);
    assert (i + 1) * b == i * b + b;
  }

  /** retrieve_block */
  function BlockAt(g: Grid, n: Counts, x: nat, y: nat, dx: nat, dy: nat): (b: Grid)
    requires Padded(g, n, dx, dy) && x < n.0 && y < n.1
    ensures Rect(b, dx, dy)
  {
    BlockInside(x, n.0, dx);
    BlockInside(y, n.1, dy);
    Slice(g, x * dx, y * dy, dx, dy)
  }

  function SetBlock(g: Grid, n: Counts, x: nat, y: nat, dx: nat, dy: nat, b: Grid): (o: Grid)
    requires Padded(g, n, dx, dy) && x < n.0 && y < n.1 && Rect(b, dx, dy)
    ensures Padded(o, n, dx, dy)
  {
    Overwrite(g, x * dx, y * dy, b, dx, dy)
  }

  /** What is inside a slice is at the same place in the whole. */
  lemma SliceShows(g: Grid, top: nat, left: nat, rows: nat, cols: nat, r: nat, c: nat)
    requires top + rows <= |g| && forall k :: 0 <= k < |g| ==> left + cols <= |g[k]|
    requires Inside(r, c, top, left, rows, cols)
    ensures Slice(g, top, left, rows, cols)[r - top][c - left] == g[r][c]
  {
  }

  /** Two slices are apart when one ends before the other begins. */
  predicate Apart(top: nat, left: nat, top': nat, left': nat, rows: nat, cols: nat) {
    top + rows <= top' || top' + rows <= top || left + cols <= left' || left' + cols <= left
  }

  lemma OverwriteThenSlice(g: Grid, top: nat, left: nat, b: Grid, rows: nat, cols: nat, top': nat, left': nat)
    requires top + rows <= |g| && forall k :: 0 <= k < |g| ==> left + cols <= |g[k]|
    requires top' + rows <= |g| && forall k :: 0 <= k < |g| ==> left' + cols <= |g[k]|
    requires Rect(b, rows, cols)
    ensures (top', left') == (top, left) ==> Slice(Overwrite(g, top, left, b, rows, cols), top', left', rows, cols) == b
    ensures Apart(top, left, top', left', rows, cols) ==>
              Slice(Overwrite(g, top, left, b, rows, cols), top', left', rows, cols) == Slice(g, top', left', rows,
                                                                                              cols)
  {
    var o := Overwrite(g, top, left, b, rows, cols);
    var got := Slice(o, top', left', rows, cols);
    forall i, j | 0 <= i < rows && 0 <= j < cols ensures got[i][j] == o[top' + i][left' + j] {
    }
    if (top', left') == (top, left) {
      GridsEqual(got, b, rows, cols);
    }
    if Apart(top, left, top', left', rows, cols) {
      GridsEqual(got, Slice(g, top', left', rows, cols), rows, cols);
    }
  }

  lemma OverwriteWithSlice(g: Grid, top: nat, left: nat, rows: nat, cols: nat)
    requires top + rows <= |g| && forall k :: 0 <= k < |g| ==> left + cols <= |g[k]|
    ensures Overwrite(g, top, left, Slice(g, top, left, rows, cols), rows, cols) == g
  {
    var o := Overwrite(g, top, left, Slice(g, top, left, rows, cols), rows, cols);
    forall r | 0 <= r < |g| ensures o[r] == g[r] {
    }
  }

  /** A position in a dimension cut into `n` blocks is in one of them only. */
  lemma OneBlock(r: nat, d: nat, n: nat)
    requires d > 0 && r < n * d
    ensures r / d < n && (r / d) * d <= r < (r / d) * d + d && r % d == r - (r / d) * d
    ensures forall x: nat :: x * d <= r < x * d + d <==> x == r / d
  {
    if r / d >= n {
      MulMonotonic(n, r / d, d);
    }
    forall x: nat ensures x * d <= r < x * d + d <==> x == r / d {
      BlockContaining(r, d, x);
      assert (x + 1) * d == x * d + d;
    }
  }

  /** The blocks partition the padded layer: a cell is inside exactly the block its indices divide to,
      and the block holds it there. */
  lemma CellInOneBlock(g: Grid, n: Counts, dx: nat, dy: nat, r: nat, c: nat)
    requires dx > 0 && dy > 0 && Padded(g, n, dx, dy) && r < n.0 * dx && c < n.1 * dy
    ensures r / dx < n.0 && c / dy < n.1
    ensures BlockAt(g, n, r / dx, c / dy, dx, dy)[r % dx][c % dy] == g[r][c]
    ensures forall x: nat, y: nat :: Inside(r, c, x * dx, y * dy, dx, dy) <==> x == r / dx && y == c / dy
  {
    OneBlock(r, dx, n.0);
    OneBlock(c, dy, n.1);
    CellHeld(g, n, dx, dy, r, c);
  }

  lemma BlockOfPosition(r: nat, d: nat, n: nat)
    requires d > 0 && r < n * d
    ensures r / d < n && r % d < d && (r / d) * d + r % d == r
  {
    OneBlock(r, d, n);
  }

  lemma CellHeld(g: Grid, n: Counts, dx: nat, dy: nat, r: nat, c: nat)
    requires dx > 0 && dy > 0 && Padded(g, n, dx, dy) && r < n.0 * dx && c < n.1 * dy
    ensures r / dx < n.0 && c / dy < n.1
    ensures BlockAt(g, n, r / dx, c / dy, dx, dy)[r % dx][c % dy] == g[r][c]
  {
    BlockOfPosition(r, dx, n.0);
    BlockOfPosition(c, dy, n.1);
    BlockInside(r / dx, n.0, dx);
    BlockInside(c / dy, n.1, dy);
    SliceShows(g, (r / dx) * dx, (c / dy) * dy, dx, dy, r, c);
  }

  lemma BlocksApart(x: nat, x': nat, d: nat)
    requires x != x'
    ensures x * d + d <= x' * d || x' * d + d <= x * d
  {
    if x < x' {
      BlockInside(x, x', d);
    } else {
      BlockInside(x', x, d);
    }
  }

  /** Overwriting a block changes that block alone, and to what was written. */
  lemma SetBlockThenGet(g: Grid, n: Counts, dx: nat, dy: nat, x: nat, y: nat, b: Grid, x': nat, y': nat)
    requires dx > 0 && dy > 0 && Padded(g, n, dx, dy) && Rect(b, dx, dy)
    requires x < n.0 && y < n.1 && x' < n.0 && y' < n.1
    ensures BlockAt(SetBlock(g, n, x, y, dx, dy, b), n, x', y', dx, dy)
         == if (x', y') == (x, y) then b else BlockAt(g, n, x', y', dx, dy)
  {
    BlockInside(x, n.0, dx);
    BlockInside(y, n.1, dy);
    BlockInside(x', n.0, dx);
    BlockInside(y', n.1, dy);
    OverwriteThenSlice(g, x * dx, y * dy, b, dx, dy, x' * dx, y' * dy);
    if x != x' {
      BlocksApart(x, x', dx);
    } else if y != y' {
      BlocksApart(y, y', dy);
    }
  }

  /** Writing back the block that is there changes nothing. */
  lemma SetSameBlock(g: Grid, n: Counts, dx: nat, dy: nat, x: nat, y: nat)
    requires dx > 0 && dy > 0 && Padded(g, n, dx, dy) && x < n.0 && y < n.1
    ensures SetBlock(g, n, x, y, dx, dy, BlockAt(g, n, x, y, dx, dy)) == g
  {
    BlockInside(x, n.0, dx);
    BlockInside(y, n.1, dy);
    OverwriteWithSlice(g, x * dx, y * dy, dx, dy);
  }

  /** A padded layer is determined by its blocks. */
  lemma BlocksDetermineLayer(g: Grid, h: Grid, n: Counts, dx: nat, dy: nat)
    requires dx > 0 && dy > 0 && Padded(g, n, dx, dy) && Padded(h, n, dx, dy)
    requires forall x: nat, y: nat :: x < n.0 && y < n.1 ==> BlockAt(g, n, x, y, dx, dy) == BlockAt(h, n, x, y, dx, dy)
    ensures g == h
  {
    var rows, cols := n.0 * dx, n.1 * dy;
    forall r: nat, c: nat | r < rows && c < cols ensures g[r][c] == h[r][c] {
      CellFromBlocks(g, h, n, dx, dy, r, c);
    }
    GridsEqual(g, h, rows, cols);
  }

  lemma CellFromBlocks(g: Grid, h: Grid, n: Counts, dx: nat, dy: nat, r: nat, c: nat)
    requires dx > 0 && dy > 0 && Padded(g, n, dx, dy) && Padded(h, n, dx, dy) && r < n.0 * dx && c < n.1 * dy
    requires forall x: nat, y: nat :: x < n.0 && y < n.1 ==> BlockAt(g, n, x, y, dx, dy) == BlockAt(h, n, x, y, dx, dy)
    ensures g[r][c] == h[r][c]
  {
    CellHeld(g, n, dx, dy, r, c);
    CellHeld(h, n, dx, dy, r, c);
    assert BlockAt(g, n, r / dx, c / dy, dx, dy) == BlockAt(h, n, r / dx, c / dy, dx, dy);
  }

  function CellOf(w: Weight, r: nat, c: nat): real
    requires Blockable(w) && r < ShapeOf(w).Height() && c < ShapeOf(w).Width()
  {
    AsGrid(w)[r][c]
  }

  /** Overwriting one block and cropping changes exactly that block's cells inside the original shape. */
  lemma CropAfterSetBlock(g: Grid, s: Shape, n: Counts, dx: nat, dy: nat, x: nat, y: nat, b: Grid, r: nat, c: nat)
    requires dx > 0 && dy > 0 && s.Height() > 0 && s.Width() > 0
    requires n == CountsOf(s, dx, dy) && Padded(g, n, dx, dy) && x < n.0 && y < n.1
    requires Rect(b, dx, dy) && r < s.Height() && c < s.Width()
    ensures Covers(g, s) && Covers(SetBlock(g, n, x, y, dx, dy, b), s)
    ensures var before, after := Crop(g, s), Crop(SetBlock(g, n, x, y, dx, dy, b), s);
            && Blockable(before) && Blockable(after) && ShapeOf(before) == ShapeOf(after) == s
            && CellOf(after, r, c) == if r / dx == x && c / dy == y then b[r % dx][c % dy] else CellOf(before, r, c)
  {
    BlocksReach(s.Height(), dx);
    BlocksReach(s.Width(), dy);
    CropShows(g, s, r, c);
    CropShows(SetBlock(g, n, x, y, dx, dy, b), s, r, c);
    SetBlockCell(g, n, dx, dy, x, y, b, r, c);
  }

  lemma SetBlockCell(g: Grid, n: Counts, dx: nat, dy: nat, x: nat, y: nat, b: Grid, r: nat, c: nat)
    requires dx > 0 && dy > 0 && Padded(g, n, dx, dy) && x < n.0 && y < n.1
    requires Rect(b, dx, dy) && r < n.0 * dx && c < n.1 * dy
    ensures SetBlock(g, n, x, y, dx, dy, b)[r][c] == if r / dx == x && c / dy == y then b[r % dx][c % dy] else g[r][c]
  {
    OneBlock(r, dx, n.0);
    OneBlock(c, dy, n.1);
    assert Inside(r, c, x * dx, y * dy, dx, dy) <==> r / dx == x && c / dy == y;
  }

  lemma CropShows(g: Grid, s: Shape, r: nat, c: nat)
    requires s.Height() > 0 && s.Width() > 0
    requires Covers(g, s) && r < s.Height() && c < s.Width()
    ensures Blockable(Crop(g, s)) && ShapeOf(Crop(g, s)) == s && CellOf(Crop(g, s), r, c) == g[r][c]
  {
  }

  // ---------- whole models ----------

  /** Model storage: the padded layers, the shapes they had and their block counts. */
  datatype Storage = Storage(weights: seq<Grid>, shapes: seq<Shape>, counts: seq<Counts>, dx: nat, dy: nat) {
    predicate Valid() {
      && dx > 0 && dy > 0 && |weights| == |shapes| == |counts|
      && forall i :: 0 <= i < |weights| ==>
           && shapes[i].Height() > 0 && shapes[i].Width() > 0
           && counts[i] == CountsOf(shapes[i], dx, dy) && Padded(weights[i], counts[i], dx, dy)
    }

    predicate Has(c: Coord) {
      HasBlock(counts, c)
    }

    /** The block at a coordinate. */
    function Get(c: Coord): (b: Grid)
      requires Valid() && Has(c)
      ensures Rect(b, dx, dy)
    {
      BlockAt(weights[c.w], counts[c.w], c.x, c.y, dx, dy)
    }

    function Set(c: Coord, b: Grid): (s: Storage)
      requires Valid() && Has(c) && Rect(b, dx, dy)
      ensures s.Valid() && s.shapes == shapes && s.counts == counts && s.dx == dx && s.dy == dy
    {
      this.(weights := weights[c.w := SetBlock(weights[c.w], counts[c.w], c.x, c.y, dx, dy, b)])
    }
  }

  lemma SetThenGet(s: Storage, c: Coord, b: Grid, d: Coord)
    requires s.Valid() && s.Has(c) && s.Has(d) && Rect(b, s.dx, s.dy)
    ensures s.Set(c, b).Get(d) == if c == d then b else s.Get(d)
  {
    if c.w == d.w {
      SetBlockThenGet(s.weights[c.w], s.counts[c.w], s.dx, s.dy, c.x, c.y, b, d.x, d.y);
    }
  }

  lemma SetSame(s: Storage, c: Coord)
    requires s.Valid() && s.Has(c)
    ensures s.Set(c, s.Get(c)) == s
  {
    SetSameBlock(s.weights[c.w], s.counts[c.w], s.dx, s.dy, c.x, c.y);
  }

  lemma BlocksDetermineStorage(s: Storage, t: Storage)
    requires s.Valid() && t.Valid() && s.shapes == t.shapes && s.counts == t.counts && s.dx == t.dx && s.dy == t.dy
    requires forall c :: s.Has(c) ==> s.Get(c) == t.Get(c)
    ensures s == t
  {
    forall i | 0 <= i < |s.weights| ensures s.weights[i] == t.weights[i] {
      forall x: nat, y: nat | x < s.counts[i].0 && y < s.counts[i].1
        ensures BlockAt(s.weights[i], s.counts[i], x, y, s.dx, s.dy) == BlockAt(t.weights[i], s.counts[i], x, y,
                                                                                s.dx, s.dy)
      {
        assert s.Has(Coord(i, x, y));
        assert s.Get(Coord(i, x, y)) == t.Get(Coord(i, x, y));
      }
      BlocksDetermineLayer(s.weights[i], t.weights[i], s.counts[i], s.dx, s.dy);
    }
  }

  lemma CropsFit(s: Storage, i: nat)
    requires s.Valid() && i < |s.weights|
    ensures Covers(s.weights[i], s.shapes[i])
  {
    BlocksReach(s.shapes[i].Height(), s.dx);
    BlocksReach(s.shapes[i].Width(), s.dy);
  }

  /** Where a cell of the original shape is held. */
  function HolderOf(s: Storage, w: nat, r: nat, c: nat): Coord
    requires s.dx > 0 && s.dy > 0
  {
    Coord(w, r / s.dx, c / s.dy)
  }

  lemma CellThroughBlock(s: Storage, w: nat, r: nat, c: nat)
    requires s.Valid() && w < |s.weights| && r < s.shapes[w].Height() && c < s.shapes[w].Width()
    ensures var h := HolderOf(s, w, r, c);
            && s.Has(h) && r % s.dx < s.dx && c % s.dy < s.dy
            && h.x * s.dx + r % s.dx == r && h.y * s.dy + c % s.dy == c
            && r < |s.weights[w]| && c < |s.weights[w][r]| && s.weights[w][r][c] == s.Get(h)[r % s.dx][c % s.dy]
  {
    BlocksReach(s.shapes[w].Height(), s.dx);
    BlocksReach(s.shapes[w].Width(), s.dy);
    BlockOfPosition(r, s.dx, s.counts[w].0);
    BlockOfPosition(c, s.dy, s.counts[w].1);
    CellHeld(s.weights[w], s.counts[w], s.dx, s.dy, r, c);
  }

  /** What reconstruct_weight_2d returns. */
  function Reconstruction(s: Storage): (ws: seq<Weight>)
    requires s.Valid()
    ensures |ws| == |s.weights|
  {
    seq(|s.weights|, i requires 0 <= i < |s.weights| => (CropsFit(s, i); Crop(s.weights[i], s.shapes[i])))
  }

  /** What block_model_2d stores. */
  function Blocked(ws: seq<Weight>, dx: nat, dy: nat): (s: Storage)
    requires dx > 0 && dy > 0 && forall i :: 0 <= i < |ws| ==> Blockable(ws[i])
    ensures s.Valid() && |s.weights| == |ws|
  {
    Storage(seq(|ws|, i requires 0 <= i < |ws| => PadArr2d(AsGrid(ws[i]), ShapeOf(ws[i]), dx, dy)),
            seq(|ws|, i requires 0 <= i < |ws| => ShapeOf(ws[i])),
            seq(|ws|, i requires 0 <= i < |ws| => CountsOf(ShapeOf(ws[i]), dx, dy)), dx, dy)
  }

  /** What a weight holds at (r, c), a vector being a column, and zero outside it. */
  function WeightAt(w: Weight, r: nat, c: nat): real {
    match w
    case Vector(values) => if r < |values| && c == 0 then values[r] else 0.0
    case Table(cells, width) => if r < |cells| && c < width && c < |cells[r]| then cells[r][c] else 0.0
    case Other(_) => 0.0
  }

  lemma PaddedCell(w: Weight, dx: nat, dy: nat, r: nat, c: nat)
    requires dx > 0 && dy > 0 && Blockable(w)
    requires r < CountsOf(ShapeOf(w), dx, dy).0 * dx && c < CountsOf(ShapeOf(w), dx, dy).1 * dy
    ensures PadArr2d(AsGrid(w), ShapeOf(w), dx, dy)[r][c] == WeightAt(w, r, c)
  {
  }

  /** Every cell of every block is the weight at its place in the layer, or zero where the block reaches
      beyond the layer. */
  lemma BlocksHoldWeights(ws: seq<Weight>, dx: nat, dy: nat, c: Coord, i: nat, j: nat)
    requires dx > 0 && dy > 0 && (forall k :: 0 <= k < |ws| ==> Blockable(ws[k]))
    requires Blocked(ws, dx, dy).Has(c) && i < dx && j < dy
    ensures Blocked(ws, dx, dy).Get(c)[i][j] == WeightAt(ws[c.w], c.x * dx + i, c.y * dy + j)
  {
    var n := CountsOf(ShapeOf(ws[c.w]), dx, dy);
    BlockInside(c.x, n.0, dx);
    BlockInside(c.y, n.1, dy);
    PaddedCell(ws[c.w], dx, dy, c.x * dx + i, c.y * dy + j);
  }

  /** Blocking a model and reconstructing it changes nothing. */
  lemma ReconstructUndoesBlock(ws: seq<Weight>, dx: nat, dy: nat)
    requires dx > 0 && dy > 0 && forall i :: 0 <= i < |ws| ==> Blockable(ws[i])
    ensures Reconstruction(Blocked(ws, dx, dy)) == ws
  {
    forall i | 0 <= i < |ws| ensures Reconstruction(Blocked(ws, dx, dy))[i] == ws[i] {
      CropUndoesPad(ws[i], dx, dy);
    }
  }

  /** The dictionary block_model_2d returns; the deduplicator overwrites blocks of its layers in place. */
  class ModelStorage {
    var weights: seq<Grid>
    const shapes: seq<Shape>
    const counts: seq<Counts>
    const dx: nat
    const dy: nat

    function State(): Storage
      reads this
    {
      Storage(weights, shapes, counts, dx, dy)
    }

    constructor (s: Storage)
      ensures State() == s
    {
      weights, shapes, counts, dx, dy := s.weights, s.shapes, s.counts, s.dx, s.dy;
    }

    method SetBlock(c: Coord, b: Grid)
      requires State().Valid() && State().Has(c) && Rect(b, dx, dy)
      modifies this
      ensures State() == old(State()).Set(c, b)
    {
      weights := weights[c.w := Overwrite(weights[c.w], c.x * dx, c.y * dy, b, dx, dy)];
    }

    method Reconstruct() returns (ws: seq<Weight>)
      requires State().Valid()
      ensures ws == Reconstruction(State())
    {
      ws := [];
      var idx := 0;
      while idx < |weights|
        invariant 0 <= idx <= |weights| && ws == Reconstruction(State())[..idx]
      {
        CropsFit(State(), idx);
        ws := ws + [Crop(weights[idx], shapes[idx])];
        idx := idx + 1;
      }
    }
  }

  /** A weight without entries, or of another rank than one or two (a ragged table is no array at all). */
  ghost predicate Refused(w: Weight) {
    match w
    case Vector(values) => values == []
    case Table(cells, width) => cells == [] || width == 0 || exists r :: 0 <= r < |cells| && |cells[r]| != width
    case Other(_) => true
  }

  /** block_model_2d; null stands for the exception a weight of another rank, or an empty one, raises. */
  method BlockModel2d(ws: seq<Weight>, dx: nat, dy: nat) returns (ms: ModelStorage?)
    requires dx > 0 && dy > 0
    ensures ms == null <==> exists i :: 0 <= i < |ws| && Refused(ws[i])
    ensures ms != null ==>
              fresh(ms) && (forall i :: 0 <= i < |ws| ==> Blockable(ws[i])) && ms.State() == Blocked(ws, dx, dy)
  {
    var weights: seq<Grid> := [];
    var shapes: seq<Shape> := [];
    var counts: seq<Counts> := [];
    var idx := 0;
    while idx < |ws|
      invariant 0 <= idx <= |ws| && forall i :: 0 <= i < idx ==> Blockable(ws[i]) && !Refused(ws[i])
      invariant Storage(weights, shapes, counts, dx, dy) == Blocked(ws[..idx], dx, dy)
    {
      if !Blockable(ws[idx]) {
        return null;
      }
      var s := ShapeOf(ws[idx]);
      weights := weights + [PadArr2d(AsGrid(ws[idx]), s, dx, dy)];
      shapes := shapes + [s];
      counts := counts + [CountsOf(s, dx, dy)];
      idx := idx + 1;
    }
    assert ws[..idx] == ws;
    ms := new ModelStorage(Storage(weights, shapes, counts, dx, dy));
  }
}
