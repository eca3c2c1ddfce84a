/** deduplicate_model as the loops that compute it, overwriting blocks of the model storage. */
module Deduplicator {
  import opened Commons
  import opened WeightBlocks
  import opened BlockOrder
  import opened BlockIndex
  import opened Indexing
  import opened DedupModel
  import DedupTheorems

  /** The Keras model: its weights.  Its accuracy is a parameter. */
  class KerasModel {
    var weights: seq<Weight>

    constructor (weights: seq<Weight>)
      ensures this.weights == weights
    {
      this.weights := weights;
    }
  }

  method FindMostSimilar(job: Job, s: Storage, blocks: seq<Grid>, c: Coord, candidates: seq<nat>) returns (m: Match)
    requires Ready(job, s, blocks) && s.Has(c) && InRange(candidates, |blocks|)
    ensures m == BestMatch(job, s, blocks, c, candidates)
  {
    var maxSim: real, maxIndex: Option<nat> := 0.0, None;
    var b1 := s.Get(c);
    var i := 0;
    while i < |candidates|
      invariant 0 <= i <= |candidates|
      invariant Match(maxSim, maxIndex) == BestMatch(job, s, blocks, c, candidates[..i])
    {
      assert candidates[..i + 1][..i] == candidates[..i];
      var blockSim := Similarity(s, c, b1, blocks[candidates[i]], job.fp);
      if blockSim > maxSim && blockSim >= job.sim {
        maxSim := blockSim;
        maxIndex := Some(candidates[i]);
      }
      i := i + 1;
    }
    assert candidates[..i] == candidates;
    return Match(maxSim, maxIndex);
  }

  /** One turn of the main loop. */
  method DeduplicateBlock(job: Job, ms: ModelStorage, blocks: seq<Grid>, model: KerasModel, original: real, c: Coord,
                          cols0: Columns, step0: nat, lastEval0: nat, evals0: nat)
    returns (cols: Columns, step: nat, lastEval: nat, evals: nat)
    requires Ready(job, ms.State(), blocks) && ms.State().Has(c)
    modifies ms, model
    ensures Sweep(ms.State(), model.weights, cols, step, lastEval, evals)
         == Visit(job, blocks, original, Sweep(old(ms.State()), old(model.weights), cols0, step0, lastEval0, evals0), c)
  {
    cols, step, lastEval, evals := cols0, step0, lastEval0, evals0;
    ghost var s := ms.State();
    var best, updated := Match(0.0, None), true;
    if ms.counts[c.w].0 * ms.counts[c.w].1 > 1 {
      var q := job.query(blocks, c, ms.State().Get(c));
      updated := q.updated;
      best := FindMostSimilar(job, ms.State(), blocks, c, q.candidates);
    }
    assert Found(best, updated) == Search(job, s, blocks, c);
    if best.b2.Some? {
      ms.SetBlock(c, blocks[best.b2.value]);
      var restored := ms.Reconstruct();
      model.weights := restored;
      if updated {
        step := step + 1;
      }
    }
    var acc;
    if step % job.evalStep == 0 && best.b2.Some? {
      acc := job.evaluate(evals, model.weights);
      evals := evals + 1;
      lastEval := |cols.b1| + 1;
      step := step + 1;
    } else {
      acc := Latest(cols, original);
    }
    cols := cols.Append(Row(c, best.b2, Some(best.sim), Some(acc), best.b2.Some?,
                            Some(IsPadded(ms.shapes[c.w], c, ms.dx, ms.dy)), Some(job.magnitude(c))));
  }

  lemma FillStep(t: Columns, coords: seq<Coord>, c: Coord)
    ensures FillIn(t, coords + [c]) == FillOne(FillIn(t, coords), c)
  {
    assert (coords + [c])[..|coords|] == coords;
  }

  method FillRow(from: Columns, counts: seq<Counts>, w: nat, x: nat, t0: Columns) returns (t: Columns)
    requires w < |counts| && x < counts[w].0 && t0 == FillIn(from, Upto(counts, w, x, 0))
    ensures t == FillIn(from, Upto(counts, w, x + 1, 0))
  {
    t := t0;
    var y := 0;
    while y < counts[w].1
      invariant 0 <= y <= counts[w].1 && t == FillIn(from, Upto(counts, w, x, y))
    {
      FillStep(from, Upto(counts, w, x, y), Coord(w, x, y));
      if Coord(w, x, y) !in t.b1 {
        t := t.Append(BlankRow(Coord(w, x, y)));
      }
      y := y + 1;
    }
  }

  /** Blank rows for the blocks without one. */
  method FillRemaining(from: Columns, counts: seq<Counts>) returns (t: Columns)
    ensures t == FillIn(from, AllCoords(counts))
  {
    t := from;
    var w := 0;
    while w < |counts|
      invariant 0 <= w <= |counts| && t == FillIn(from, Upto(counts, w, 0, 0))
    {
      var x := 0;
      while x < counts[w].0
        invariant 0 <= x <= counts[w].0 && t == FillIn(from, Upto(counts, w, x, 0))
      {
        t := FillRow(from, counts, w, x, t);
        x := x + 1;
      }
      w := w + 1;
    }
  }

  /** The main loop. */
  method DeduplicateBlocks(job: Job, ms: ModelStorage, blocks: seq<Grid>, model: KerasModel)
    returns (cols: Columns, lastEval: nat, evals: nat, ghost st: Sweep)
    requires Ready(job, ms.State(), blocks)
    modifies ms, model
    ensures st == LastSweep(job, old(ms.State()), old(model.weights), blocks)
    ensures st == Sweep(ms.State(), model.weights, cols, st.step, lastEval, evals)
  {
    ghost var s0, last := ms.State(), LastSweep(job, ms.State(), model.weights, blocks);
    var original := job.evaluate(0, model.weights);
    var step, n, stopped := 1, 0, false;
    cols, lastEval, evals := NO_ROWS, 0, 1;
    while n < |job.order| && !stopped
      invariant 0 <= n <= |job.order|
      invariant Ready(job, ms.State(), blocks) && SameShape(ms.State(), s0)
      invariant last == if stopped then Sweep(ms.State(), model.weights, cols, step, lastEval, evals)
                        else SweepFrom(job, blocks, original, Sweep(ms.State(), model.weights, cols, step, lastEval,
                                                                    evals), n)
    {
      SweepStep(job, blocks, original, Sweep(ms.State(), model.weights, cols, step, lastEval, evals), n);
      cols, step, lastEval, evals := DeduplicateBlock(job, ms, blocks, model, original, job.order[n],
                                                      cols, step, lastEval, evals);
      stopped := original - Latest(cols, original) > job.stopAccDrop;
      n := n + 1;
    }
    st := Sweep(ms.State(), model.weights, cols, step, lastEval, evals);
  }

  /** deduplicate_model; None stands for the exception raised when there is no row to write the final
      accuracy to. */
  method DeduplicateModel(job: Job, ms: ModelStorage, indexer: Indexer,
                          model: KerasModel) returns (out: Option<Columns>)
    requires Ready(job, ms.State(), indexer.listBlocks)
    modifies ms, model
    ensures Ready(job, old(ms.State()), indexer.listBlocks)
    ensures out == DedupTable(job, old(ms.State()), old(model.weights), indexer.listBlocks)
    ensures ms.State() == LastSweep(job, old(ms.State()), old(model.weights), indexer.listBlocks).storage
    ensures model.weights == LastSweep(job, old(ms.State()), old(model.weights), indexer.listBlocks).model
  {
    var original := job.evaluate(0, model.weights);
    var cols, lastEval, evals, st := DeduplicateBlocks(job, ms, indexer.listBlocks, model);
    var acc := job.evaluate(evals, model.weights);
    if original - acc > job.stopAccDrop {
      cols := cols.Truncate(lastEval);
    } else {
      if cols.acc == [] {
        return None;
      }
      cols := cols.(acc := cols.acc[|cols.acc| - 1 := Some(acc)]);
    }
    assert Settle(job, original, st) == Some(cols);
    cols := FillRemaining(cols, ms.counts);
    return Some(cols);
  }

  /** What the scripts do for each further model: deduplicate it, predict the indices of its blocks, and
      only then add the remaining blocks to the index.  The prediction is right. */
  method AddModel(job: Job, ms: ModelStorage, indexer: Indexer, model: KerasModel)
    returns (out: Option<(Mapping, nat)>)
    requires indexer.Valid() && indexer.dx == ms.dx && indexer.dy == ms.dy
    requires Ready(job, ms.State(), indexer.listBlocks) && ListsEachOnce(job.order, ms.counts)
    modifies ms, model, indexer
    ensures indexer.Valid() && ms.State().Valid()
    ensures old(indexer.listBlocks) <= indexer.listBlocks && AllFit(indexer.listBlocks, ms.dx, ms.dy)
    ensures out.Some? ==> out.value.1 == indexer.numTotal && Resolves(out.value.0, ms.State(), indexer.listBlocks)
    ensures out.None? ==> indexer.listBlocks == old(indexer.listBlocks)
  {
    ghost var s0, m0, blocks := ms.State(), model.weights, indexer.listBlocks;
    var table := DeduplicateModel(job, ms, indexer, model);
    if table.None? {
      return None;
    }
    DedupTheorems.TableMatchesStorage(job, s0, m0, blocks);
    var mapping, _, total := GenerateDetectorOutput(table.value, ms.counts, indexer.numTotal);
    indexer.UpdateIndex(ms, table.value);
    PredictedIdsAreCreatedIds(table.value, ms.State(), blocks);
    RemainingFit(ms.State(), Duplicates(table.value, |table.value.b1|), AllCoords(ms.counts));
    return Some((mapping, total));
  }
}
