/** deduplicate_model as a function of its inputs (without fine-tuning). */
module DedupModel {
  import opened Commons
  import opened WeightBlocks
  import BlockOrder
  import opened BlockIndex

  // ---------- similarity ----------

  /** The scripts' test for a block that reaches into the padding.  With one-by-one blocks it would read
      the second side of a vector's shape. */
  predicate IsPadded(s: Shape, c: Coord, dx: nat, dy: nat)
    requires s.TwoD? || dx * dy > 1
  {
    s.OneD? || (c.x + 1) * dx > s.Height() || (c.y + 1) * dy > s.Width()
  }

  /** How many rows and columns of the blocks are compared. */
  function ComparedRows(s: Shape, c: Coord, dx: nat, dy: nat): int
    requires s.TwoD? || dx * dy > 1
  {
    if IsPadded(s, c, dx, dy) then Min((c.x + 1) * dx, s.Height()) - c.x * dx else dx
  }

  function ComparedCols(s: Shape, c: Coord, dx: nat, dy: nat): int
    requires s.TwoD? || dx * dy > 1
  {
    if s.OneD? then 1 - c.y * dy
    else if IsPadded(s, c, dx, dy) then Min((c.y + 1) * dy, s.Width()) - c.y * dy
    else dy
  }

  /** The cells compared are the block's cells inside the original shape. */
  lemma ComparesTrueCells(s: Shape, c: Coord, dx: nat, dy: nat)
    requires dx > 0 && dy > 0 && (s.TwoD? || dx * dy > 1)
    requires c.x < CountsOf(s, dx, dy).0 && c.y < CountsOf(s, dx, dy).1
    ensures ComparedRows(s, c, dx, dy) == Min(dx, s.Height() - c.x * dx) > 0
    ensures ComparedCols(s, c, dx, dy) == Min(dy, s.Width() - c.y * dy) > 0
  {
    if s.OneD? {
      BlockBegins(1, dy, c.y);
    }
    ClippedBlock(s.Height(), dx, c.x);
    ClippedBlock(s.Width(), dy, c.y);
  }

  lemma ClippedBlock(total: nat, d: nat, i: nat)
    requires d > 0 && i < NumBlocks(total, d)
    ensures Min((i + 1) * d, total) - i * d == Min(d, total - i * d) > 0
    ensures (i + 1) * d > total <==> total - i * d < d
  {
    BlockBegins(total, d, i);
    assert (i + 1) * d == i * d + d;
  }

  /** A block counts as padded when it is a vector's or some of its cells lie outside the original shape. */
  lemma PaddedMeans(s: Shape, c: Coord, dx: nat, dy: nat)
    requires dx > 0 && dy > 0 && (s.TwoD? || dx * dy > 1)
    ensures IsPadded(s, c, dx, dy) <==>
              s.OneD? || exists i, j :: Inside(i, j, c.x * dx, c.y * dy, dx, dy) && CellBeyond(s, i, j)
  {
    assert (c.x + 1) * dx == c.x * dx + dx && (c.y + 1) * dy == c.y * dy + dy;
    var i, j := c.x * dx + dx - 1, c.y * dy + dy - 1;
    assert Inside(i, j, c.x * dx, c.y * dy, dx, dy);
    assert s.TwoD? && IsPadded(s, c, dx, dy) ==> CellBeyond(s, i, j);
  }

  predicate CellBeyond(s: Shape, r: int, c: int) {
    r >= s.Height() || c >= s.Width()
  }

  predicate Close(a: real, b: real, fp: real) {
    -fp <= a - b <= fp
  }

  function CloseInRow(a: seq<real>, b: seq<real>, n: nat, fp: real): (k: nat)
    requires n <= |a| && n <= |b|
    ensures k <= n
  {
    if n == 0 then 0 else CloseInRow(a, b, n - 1, fp) + (if Close(a[n - 1], b[n - 1], fp) then 1 else 0)
  }

  /** How many cells of the upper left part of two blocks differ by at most `fp`. */
  function CloseCells(a: Grid, b: Grid, rows: nat, cols: nat, fp: real): (k: nat)
    requires rows <= |a| && rows <= |b| && forall r :: 0 <= r < rows ==> cols <= |a[r]| && cols <= |b[r]|
    ensures k <= rows * cols
  {
    if rows == 0 then 0
    else
      assert rows * cols == (rows - 1) * cols + cols;
      CloseCells(a, b, rows - 1, cols, fp) + CloseInRow(a[rows - 1], b[rows - 1], cols, fp)
  }

  /** Block sizes the similarity test can handle. */
  predicate Comparable(s: Storage) {
    s.Valid() && forall i :: 0 <= i < |s.shapes| ==> s.shapes[i].TwoD? || s.dx * s.dy > 1
  }

  /** The share of compared cells in which two blocks are close. */
  function Similarity(s: Storage, c: Coord, a: Grid, b: Grid, fp: real): real
    requires Comparable(s) && s.Has(c) && Rect(a, s.dx, s.dy) && Rect(b, s.dx, s.dy)
  {
    ComparesTrueCells(s.shapes[c.w], c, s.dx, s.dy);
    var rows, cols := ComparedRows(s.shapes[c.w], c, s.dx, s.dy), ComparedCols(s.shapes[c.w], c, s.dx, s.dy);
    assert rows * cols > 0 by { MulMonotonic(1, rows, cols); }
    CloseCells(a, b, rows, cols, fp) as real / (rows * cols) as real
  }

  /** The places in the upper left part of two blocks that differ by at most `fp`. */
  ghost function ClosePlaces(a: Grid, b: Grid, rows: nat, cols: nat, fp: real): set<(nat, nat)>
    requires rows <= |a| && rows <= |b| && forall r :: 0 <= r < rows ==> cols <= |a[r]| && cols <= |b[r]|
  {
    set r: nat, c: nat | r < rows && c < cols && -fp <= a[r][c] - b[r][c] <= fp :: (r, c)
  }

  ghost function ClosePlacesInRow(a: seq<real>, b: seq<real>, n: nat, fp: real, r: nat): set<(nat, nat)>
    requires n <= |a| && n <= |b|
  {
    set c: nat | c < n && -fp <= a[c] - b[c] <= fp :: (r, c)
  }

  lemma {:induction false} RowCountsPlaces(a: seq<real>, b: seq<real>, n: nat, fp: real, r: nat)
    requires n <= |a| && n <= |b|
    ensures CloseInRow(a, b, n, fp) == |ClosePlacesInRow(a, b, n, fp, r)|
  {
    if n > 0 {
      RowCountsPlaces(a, b, n - 1, fp, r);
      var all, rest := ClosePlacesInRow(a, b, n, fp, r), ClosePlacesInRow(a, b, n - 1, fp, r);
      if -fp <= a[n - 1] - b[n - 1] <= fp {
        assert all == rest + {(r, n - 1)};
      } else {
        assert all == rest;
      }
    } else {
      assert ClosePlacesInRow(a, b, n, fp, r) == {};
    }
  }

  lemma PlacesByRow(a: Grid, b: Grid, rows: nat, cols: nat, fp: real)
    requires 0 < rows <= |a| && rows <= |b| && forall r :: 0 <= r < rows ==> cols <= |a[r]| && cols <= |b[r]|
    ensures |ClosePlaces(a, b, rows, cols, fp)|
         == |ClosePlaces(a, b, rows - 1, cols, fp)| + |ClosePlacesInRow(a[rows - 1], b[rows - 1], cols, fp, rows - 1)|
  {
    var rest, row := ClosePlaces(a, b, rows - 1, cols, fp),
                     ClosePlacesInRow(a[rows - 1], b[rows - 1], cols, fp, rows - 1);
    assert ClosePlaces(a, b, rows, cols, fp) == rest + row;
    assert rest !! row;
  }

  lemma {:induction false} CountsPlaces(a: Grid, b: Grid, rows: nat, cols: nat, fp: real)
    requires rows <= |a| && rows <= |b| && forall r :: 0 <= r < rows ==> cols <= |a[r]| && cols <= |b[r]|
    ensures CloseCells(a, b, rows, cols, fp) == |ClosePlaces(a, b, rows, cols, fp)|
  {
    if rows == 0 {
      assert ClosePlaces(a, b, rows, cols, fp) == {};
    } else {
      CountsPlaces(a, b, rows - 1, cols, fp);
      RowCountsPlaces(a[rows - 1], b[rows - 1], cols, fp, rows - 1);
      PlacesByRow(a, b, rows, cols, fp);
    }
  }

  lemma ShareIsOne(k: nat, n: nat)
    requires n > 0
    ensures k as real / n as real == 1.0 <==> k == n
  {
    assert k as real == (k as real / n as real) * n as real;
  }

  lemma {:induction false} FullRow(a: seq<real>, b: seq<real>, n: nat, fp: real)
    requires n <= |a| && n <= |b|
    ensures CloseInRow(a, b, n, fp) == n <==> forall c :: 0 <= c < n ==> -fp <= a[c] - b[c] <= fp
  {
    if n > 0 {
      FullRow(a, b, n - 1, fp);
    }
  }

  lemma {:induction false} FullCount(a: Grid, b: Grid, rows: nat, cols: nat, fp: real)
    requires rows <= |a| && rows <= |b| && forall r :: 0 <= r < rows ==> cols <= |a[r]| && cols <= |b[r]|
    ensures CloseCells(a, b, rows, cols, fp) == rows * cols <==>
              forall r, c :: 0 <= r < rows && 0 <= c < cols ==> -fp <= a[r][c] - b[r][c] <= fp
  {
    if rows > 0 {
      FullCount(a, b, rows - 1, cols, fp);
      FullRow(a[rows - 1], b[rows - 1], cols, fp);
      assert rows * cols == (rows - 1) * cols + cols;
    }
  }

  lemma SimilarityIs(s: Storage, c: Coord, a: Grid, b: Grid, fp: real, rows: int, cols: int)
    requires Comparable(s) && s.Has(c) && Rect(a, s.dx, s.dy) && Rect(b, s.dx, s.dy)
    requires rows == Min(s.dx, s.shapes[c.w].Height() - c.x * s.dx)
    requires cols == Min(s.dy, s.shapes[c.w].Width() - c.y * s.dy)
    ensures 0 < rows <= s.dx && 0 < cols <= s.dy && rows * cols > 0
    ensures Similarity(s, c, a, b, fp) == CloseCells(a, b, rows, cols, fp) as real / (rows * cols) as real
  {
    ComparesTrueCells(s.shapes[c.w], c, s.dx, s.dy);
    MulMonotonic(1, rows, cols);
  }

  /** For every tolerance, the similarity of two blocks is the share of their cells inside the original
      shape that differ by at most the tolerance. */
  lemma SimilarityIsShare(s: Storage, c: Coord, a: Grid, b: Grid, fp: real, rows: int, cols: int)
    requires Comparable(s) && s.Has(c) && Rect(a, s.dx, s.dy) && Rect(b, s.dx, s.dy)
    requires rows == Min(s.dx, s.shapes[c.w].Height() - c.x * s.dx)
    requires cols == Min(s.dy, s.shapes[c.w].Width() - c.y * s.dy)
    ensures 0 < rows <= s.dx && 0 < cols <= s.dy && rows * cols > 0
    ensures Similarity(s, c, a, b, fp) == |ClosePlaces(a, b, rows, cols, fp)| as real / (rows * cols) as real
  {
    SimilarityIs(s, c, a, b, fp, rows, cols);
    CountsPlaces(a, b, rows, cols, fp);
  }

  /** It is 1 exactly when all of them do. */
  lemma SimilarityIsFull(s: Storage, c: Coord, a: Grid, b: Grid, fp: real, rows: int, cols: int)
    requires Comparable(s) && s.Has(c) && Rect(a, s.dx, s.dy) && Rect(b, s.dx, s.dy)
    requires rows == Min(s.dx, s.shapes[c.w].Height() - c.x * s.dx)
    requires cols == Min(s.dy, s.shapes[c.w].Width() - c.y * s.dy)
    ensures 0 < rows <= s.dx && 0 < cols <= s.dy
    ensures Similarity(s, c, a, b, fp) == 1.0 <==>
              forall i, j :: 0 <= i < rows && 0 <= j < cols ==> -fp <= a[i][j] - b[i][j] <= fp
  {
    SimilarityIs(s, c, a, b, fp, rows, cols);
    FullCount(a, b, rows, cols, fp);
    ShareIsOne(CloseCells(a, b, rows, cols, fp), rows * cols);
  }

  // ---------- the search for a similar block ----------

  /** Candidate blocks, and whether the block counts as updated (always, for a new model). */
  datatype Query = Query(candidates: seq<nat>, updated: bool)

  /** What deduplicate_model is given besides the storage and the index: the blocks in order of
      magnitude, the candidate search, the model's accuracy and the thresholds.  The accuracy may depend
      on how many evaluations came before. */
  datatype Job = Job(order: seq<Coord>, magnitude: Coord -> real, query: (seq<Grid>, Coord, Grid) -> Query,
                     evaluate: (nat, seq<Weight>) -> real, fp: real, sim: real, stopAccDrop: real, evalStep: nat)

  datatype Match = Match(sim: real, b2: Option<nat>)

  /** The index holds blocks of this storage's size, and the search finds only such blocks. */
  ghost predicate Ready(job: Job, s: Storage, blocks: seq<Grid>) {
    && Comparable(s) && job.evalStep > 0 && BlockOrder.AllInside(job.order, s.counts)
    && AllFit(blocks, s.dx, s.dy)
    && (forall c, b :: InRange(job.query(blocks, c, b).candidates, |blocks|))
  }

  predicate InRange(candidates: seq<nat>, n: nat) {
    forall k :: 0 <= k < |candidates| ==> candidates[k] < n
  }

  function SimilarityTo(job: Job, s: Storage, blocks: seq<Grid>, c: Coord, b2: nat): real
    requires Ready(job, s, blocks) && s.Has(c) && b2 < |blocks|
  {
    Similarity(s, c, s.Get(c), blocks[b2], job.fp)
  }

  /** The search loop: the best candidate so far. */
  function BestMatch(job: Job, s: Storage, blocks: seq<Grid>, c: Coord, candidates: seq<nat>): (m: Match)
    requires Ready(job, s, blocks) && s.Has(c) && InRange(candidates, |blocks|)
    ensures m.b2.Some? ==> m.b2.value < |blocks|
  {
    if candidates == [] then Match(0.0, None)
    else
      var m := BestMatch(job, s, blocks, c, candidates[..|candidates| - 1]);
      var b2 := candidates[|candidates| - 1];
      var sim := SimilarityTo(job, s, blocks, c, b2);
      if sim > m.sim && sim >= job.sim then Match(sim, Some(b2)) else m
  }

  /** The search takes the first of the most similar candidates that are similar at all and reach the
      threshold, and none exactly when there is no such candidate. */
  lemma {:induction false} BestMatchIsMostSimilar(job: Job, s: Storage, blocks: seq<Grid>, c: Coord,
                                                  candidates: seq<nat>)
    requires Ready(job, s, blocks) && s.Has(c) && InRange(candidates, |blocks|)
    ensures var m := BestMatch(job, s, blocks, c, candidates);
            match m.b2
            case None =>
              m.sim == 0.0 &&
              forall i :: 0 <= i < |candidates| ==>
                SimilarityTo(job, s, blocks, c, candidates[i]) <= 0.0
                || SimilarityTo(job, s, blocks, c, candidates[i]) < job.sim
            case Some(b2) =>
              && m.sim > 0.0 && m.sim >= job.sim && m.sim == SimilarityTo(job, s, blocks, c, b2)
              && (forall i :: 0 <= i < |candidates| ==> SimilarityTo(job, s, blocks, c, candidates[i]) <= m.sim)
              && exists i :: && 0 <= i < |candidates| && candidates[i] == b2
                             && forall j :: 0 <= j < i ==> SimilarityTo(job, s, blocks, c, candidates[j]) < m.sim
  {
    if candidates != [] {
      var n := |candidates| - 1;
      BestMatchIsMostSimilar(job, s, blocks, c, candidates[..n]);
      assert candidates == candidates[..n] + [candidates[n]];
      var m, before := BestMatch(job, s, blocks, c, candidates), BestMatch(job, s, blocks, c, candidates[..n]);
      if m != before {
        assert candidates[n] == m.b2.value;
      }
    }
  }

  datatype Found = Found(best: Match, updated: bool)

  /** What is found for a block of a layer; layers of a single block are left alone. */
  function Search(job: Job, s: Storage, blocks: seq<Grid>, c: Coord): (f: Found)
    requires Ready(job, s, blocks) && s.Has(c)
    ensures f.best.b2.Some? ==> f.best.b2.value < |blocks|
  {
    if s.counts[c.w].0 * s.counts[c.w].1 > 1 then
      var q := job.query(blocks, c, s.Get(c));
      Found(BestMatch(job, s, blocks, c, q.candidates), q.updated)
    else Found(Match(0.0, None), true)
  }

  /** Something is found for a block exactly when its layer has several blocks and some candidate is
      similar and reaches the threshold. */
  lemma SearchFinds(job: Job, s: Storage, blocks: seq<Grid>, c: Coord)
    requires Ready(job, s, blocks) && s.Has(c)
    ensures var candidates := job.query(blocks, c, s.Get(c)).candidates;
            Search(job, s, blocks, c).best.b2.Some? <==>
              && (s.counts[c.w].0 > 1 || s.counts[c.w].1 > 1)
              && exists i :: && 0 <= i < |candidates| && SimilarityTo(job, s, blocks, c, candidates[i]) > 0.0
                             && SimilarityTo(job, s, blocks, c, candidates[i]) >= job.sim
  {
    var candidates := job.query(blocks, c, s.Get(c)).candidates;
    var (nx, ny) := s.counts[c.w];
    SeveralBlocks(nx, ny);
    BestMatchIsMostSimilar(job, s, blocks, c, candidates);
  }

  lemma SeveralBlocks(nx: nat, ny: nat)
    requires nx > 0 && ny > 0
    ensures nx * ny > 1 <==> nx > 1 || ny > 1
  {
    if nx > 1 {
      MulMonotonic(2, nx, ny);
    }
  }

  // ---------- the sweep over the blocks ----------

  /** The variables of the main loop. */
  datatype Sweep = Sweep(storage: Storage, model: seq<Weight>, cols: Columns, step: nat, lastEval: nat, evals: nat)

  /** The last accuracy recorded. */
  function Latest(cols: Columns, original: real): real {
    if |cols.acc| > 0 && cols.acc[|cols.acc| - 1].Some? then cols.acc[|cols.acc| - 1].value else original
  }

  predicate SameShape(s: Storage, t: Storage) {
    s.shapes == t.shapes && s.counts == t.counts && s.dx == t.dx && s.dy == t.dy && |s.weights| == |t.weights|
  }

  /** One turn of the main loop. */
  function Visit(job: Job, blocks: seq<Grid>, original: real, st: Sweep, c: Coord): (next: Sweep)
    requires Ready(job, st.storage, blocks) && st.storage.Has(c)
    ensures Ready(job, next.storage, blocks) && SameShape(next.storage, st.storage)
  {
    var s := st.storage;
    var f := Search(job, s, blocks, c);
    var has := f.best.b2.Some?;
    var storage := if has then s.Set(c, blocks[f.best.b2.value]) else s;
    var model := if has then Reconstruction(storage) else st.model;
    var step := if has && f.updated then st.step + 1 else st.step;
    var evaluated := has && step % job.evalStep == 0;
    var acc := if evaluated then job.evaluate(st.evals, model) else Latest(st.cols, original);
    var row := Row(c, f.best.b2, Some(f.best.sim), Some(acc), has, Some(IsPadded(s.shapes[c.w], c, s.dx, s.dy)),
                   Some(job.magnitude(c)));
    Sweep(storage, model, st.cols.Append(row), if evaluated then step + 1 else step,
          if evaluated then |st.cols.b1| + 1 else st.lastEval, if evaluated then st.evals + 1 else st.evals)
  }

  predicate Dropped(job: Job, original: real, acc: real) {
    original - acc > job.stopAccDrop
  }

  /** The main loop from block number `n` on: it stops early when the accuracy has dropped too far. */
  function SweepFrom(job: Job, blocks: seq<Grid>, original: real, st: Sweep, n: nat): (last: Sweep)
    requires Ready(job, st.storage, blocks) && n <= |job.order|
    ensures Ready(job, last.storage, blocks) && SameShape(last.storage, st.storage)
    decreases |job.order| - n
  {
    if n == |job.order| then st
    else
      assert job.order[n] in job.order;
      var next := Visit(job, blocks, original, st, job.order[n]);
      if Dropped(job, original, Latest(next.cols, original)) then next
      else SweepFrom(job, blocks, original, next, n + 1)
  }

  lemma SweepStep(job: Job, blocks: seq<Grid>, original: real, st: Sweep, n: nat)
    requires Ready(job, st.storage, blocks) && n < |job.order|
    ensures st.storage.Has(job.order[n])
    ensures var next := Visit(job, blocks, original, st, job.order[n]);
            SweepFrom(job, blocks, original, st, n)
            == if Dropped(job, original, Latest(next.cols, original)) then next
               else SweepFrom(job, blocks, original, next, n + 1)
  {
    assert job.order[n] in job.order;
  }

  function StartSweep(s: Storage, model: seq<Weight>): Sweep {
    Sweep(s, model, NO_ROWS, 1, 0, 1)
  }

  // ---------- the end ----------

  /** Blank rows for the blocks of `coords` that have none. */
  function FillIn(t: Columns, coords: seq<Coord>): Columns {
    if coords == [] then t
    else FillOne(FillIn(t, coords[..|coords| - 1]), coords[|coords| - 1])
  }

  function FillOne(t: Columns, c: Coord): Columns {
    if c in t.b1 then t else t.Append(BlankRow(c))
  }

  /** After the final evaluation: cut back to the last evaluation, or record the final accuracy; None
      stands for the exception raised when there is no row to record it in. */
  function Settle(job: Job, original: real, st: Sweep): Option<Columns> {
    var acc := job.evaluate(st.evals, st.model);
    if Dropped(job, original, acc) then Some(st.cols.Truncate(st.lastEval))
    else if st.cols.acc == [] then None
    else Some(st.cols.(acc := st.cols.acc[|st.cols.acc| - 1 := Some(acc)]))
  }

  function Finish(job: Job, original: real, st: Sweep): Option<Columns> {
    match Settle(job, original, st)
    case None => None
    case Some(t) => Some(FillIn(t, BlockOrder.AllCoords(st.storage.counts)))
  }

  /** The whole run. */
  function LastSweep(job: Job, s: Storage, model: seq<Weight>, blocks: seq<Grid>): (last: Sweep)
    requires Ready(job, s, blocks)
    ensures Ready(job, last.storage, blocks) && SameShape(last.storage, s)
  {
    SweepFrom(job, blocks, job.evaluate(0, model), StartSweep(s, model), 0)
  }

  function DedupTable(job: Job, s: Storage, model: seq<Weight>, blocks: seq<Grid>): Option<Columns>
    requires Ready(job, s, blocks)
  {
    Finish(job, job.evaluate(0, model), LastSweep(job, s, model, blocks))
  }
}
