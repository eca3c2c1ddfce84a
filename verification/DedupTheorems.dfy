/** What a run of deduplicate_model leaves behind: the table, the storage and the index built from them. */
module DedupTheorems {
  import opened Commons
  import opened WeightBlocks
  import opened BlockOrder
  import opened BlockIndex
  import opened DedupModel

  // ---------- what every turn of the loop keeps ----------

  /** The search looks only at the block itself. */
  lemma {:induction false} BestMatchSees(job: Job, s: Storage, t: Storage, blocks: seq<Grid>, c: Coord,
                                         candidates: seq<nat>)
    requires Ready(job, s, blocks) && Ready(job, t, blocks) && SameShape(s, t) && s.Has(c) && s.Get(c) == t.Get(c)
    requires InRange(candidates, |blocks|)
    ensures BestMatch(job, s, blocks, c, candidates) == BestMatch(job, t, blocks, c, candidates)
  {
    if candidates != [] {
      BestMatchSees(job, s, t, blocks, c, candidates[..|candidates| - 1]);
    }
  }

  /** The block a coordinate ends with: the match found for its first contents, once it was visited. */
  function FinalBlock(job: Job, s0: Storage, blocks: seq<Grid>, c: Coord, visited: bool): (b: Grid)
    requires Ready(job, s0, blocks) && s0.Has(c)
  {
    var found := Search(job, s0, blocks, c).best.b2;
    if visited && found.Some? then blocks[found.value] else s0.Get(c)
  }

  /** After `n` turns from storage `s0`. */
  ghost predicate StoredUpTo(job: Job, s0: Storage, blocks: seq<Grid>, st: Sweep, n: nat)
    requires Ready(job, s0, blocks) && n <= |job.order|
  {
    && Ready(job, st.storage, blocks) && SameShape(st.storage, s0)
    && forall c :: s0.Has(c) ==> st.storage.Get(c) == FinalBlock(job, s0, blocks, c, c in job.order[..n])
  }

  ghost predicate RecordedUpTo(job: Job, s0: Storage, blocks: seq<Grid>, st: Sweep, n: nat)
    requires Ready(job, s0, blocks) && n <= |job.order|
  {
    && st.cols.Even() && st.cols.b1 == job.order[..n] && st.lastEval <= n
    && forall k :: 0 <= k < n ==> s0.Has(job.order[k]) && RowSays(job, s0, blocks, st.cols, k)
  }

  /** Row `k` holds what was found for block number `k` of the order, whether that block reaches into the
      padding, and its magnitude. */
  predicate RowSays(job: Job, s0: Storage, blocks: seq<Grid>, t: Columns, k: nat)
    requires Ready(job, s0, blocks) && t.Even() && k < |t.b1| && k < |job.order| && s0.Has(job.order[k])
  {
    var c, m := job.order[k], Search(job, s0, blocks, job.order[k]).best;
    && t.b2[k] == m.b2 && t.sim[k] == Some(m.sim) && (t.dedup[k] <==> m.b2.Some?)
    && t.padded[k] == Some(IsPadded(s0.shapes[c.w], c, s0.dx, s0.dy)) && t.magnitude[k] == Some(job.magnitude(c))
  }

  lemma VisitStores(job: Job, s0: Storage, blocks: seq<Grid>, original: real, st: Sweep, n: nat)
    requires Ready(job, s0, blocks) && Unique(job.order) && n < |job.order| && s0.Has(job.order[n])
    requires StoredUpTo(job, s0, blocks, st, n)
    ensures Search(job, st.storage, blocks, job.order[n]) == Search(job, s0, blocks, job.order[n])
    ensures StoredUpTo(job, s0, blocks, Visit(job, blocks, original, st, job.order[n]), n + 1)
  {
    var s, x := st.storage, job.order[n];
    assert job.order[..n + 1] == job.order[..n] + [x] && x !in job.order[..n];
    if s.counts[x.w].0 * s.counts[x.w].1 > 1 {
      BestMatchSees(job, s, s0, blocks, x, job.query(blocks, x, s0.Get(x)).candidates);
    }
    var found := Search(job, s0, blocks, x).best.b2;
    var next := Visit(job, blocks, original, st, x).storage;
    forall c | s0.Has(c) ensures next.Get(c) == FinalBlock(job, s0, blocks, c, c in job.order[..n + 1]) {
      if found.Some? {
        SetThenGet(s, x, blocks[found.value], c);
      }
    }
  }

  lemma VisitRecords(job: Job, s0: Storage, blocks: seq<Grid>, original: real, st: Sweep, n: nat)
    requires Ready(job, s0, blocks) && n < |job.order| && s0.Has(job.order[n])
    requires RecordedUpTo(job, s0, blocks, st, n) && Ready(job, st.storage, blocks) && SameShape(st.storage, s0)
    requires Search(job, st.storage, blocks, job.order[n]) == Search(job, s0, blocks, job.order[n])
    ensures RecordedUpTo(job, s0, blocks, Visit(job, blocks, original, st, job.order[n]), n + 1)
  {
    assert job.order[..n + 1] == job.order[..n] + [job.order[n]];
    var before, after := st.cols, Visit(job, blocks, original, st, job.order[n]).cols;
    forall k | 0 <= k < n + 1
      ensures s0.Has(job.order[k]) && RowSays(job, s0, blocks, after, k)
    {
      if k < n {
        assert RowSays(job, s0, blocks, before, k);
      }
    }
  }

  lemma {:induction false} SweepKeeps(job: Job, s0: Storage, blocks: seq<Grid>, original: real, st: Sweep, n: nat)
    returns (visited: nat)
    requires Ready(job, s0, blocks) && Unique(job.order) && n <= |job.order|
    requires StoredUpTo(job, s0, blocks, st, n) && RecordedUpTo(job, s0, blocks, st, n)
    ensures n <= visited <= |job.order| && (n < |job.order| ==> n < visited)
    ensures StoredUpTo(job, s0, blocks, SweepFrom(job, blocks, original, st, n), visited)
    ensures RecordedUpTo(job, s0, blocks, SweepFrom(job, blocks, original, st, n), visited)
    decreases |job.order| - n
  {
    visited := n;
    if n < |job.order| {
      assert job.order[n] in job.order;
      VisitStores(job, s0, blocks, original, st, n);
      VisitRecords(job, s0, blocks, original, st, n);
      var next := Visit(job, blocks, original, st, job.order[n]);
      if Dropped(job, original, Latest(next.cols, original)) {
        visited := n + 1;
      } else {
        visited := SweepKeeps(job, s0, blocks, original, next, n + 1);
      }
    }
  }

  /** The run as a whole: the first `visited` blocks were visited and recorded, and each block of the
      storage is the match found for it or unchanged. */
  lemma SweepResult(job: Job, s0: Storage, model: seq<Weight>, blocks: seq<Grid>) returns (visited: nat)
    requires Ready(job, s0, blocks) && Unique(job.order)
    ensures visited <= |job.order| && (|job.order| > 0 ==> visited > 0)
    ensures StoredUpTo(job, s0, blocks, LastSweep(job, s0, model, blocks), visited)
    ensures RecordedUpTo(job, s0, blocks, LastSweep(job, s0, model, blocks), visited)
  {
    visited := SweepKeeps(job, s0, blocks, job.evaluate(0, model), StartSweep(s0, model), 0);
  }

  // ---------- the table ----------

  /** `u` is `t` with blank rows added. */
  ghost predicate OnlyBlanksAdded(t: Columns, u: Columns) {
    && t.Even() && u.Even() && |t.b1| <= |u.b1|
    && u.b1[..|t.b1|] == t.b1 && u.b2[..|t.b1|] == t.b2 && u.sim[..|t.b1|] == t.sim && u.acc[..|t.b1|] == t.acc
    && u.dedup[..|t.b1|] == t.dedup && u.padded[..|t.b1|] == t.padded && u.magnitude[..|t.b1|] == t.magnitude
    && forall k :: |t.b1| <= k < |u.b1| ==> IsBlank(u, k)
  }

  /** A row that holds nothing but its block. */
  predicate IsBlank(u: Columns, k: nat)
    requires u.Even() && k < |u.b1|
  {
    && !u.dedup[k] && u.b2[k] == None && u.sim[k] == None && u.acc[k] == None && u.padded[k] == None
    && u.magnitude[k] == None
  }

  lemma BlankAdded(t: Columns, u: Columns, c: Coord)
    requires OnlyBlanksAdded(t, u)
    ensures OnlyBlanksAdded(t, FillOne(u, c))
  {
    var v := FillOne(u, c);
    if c !in u.b1 {
      var n := |t.b1|;
      assert v.b1[..n] == u.b1[..n] && v.b2[..n] == u.b2[..n] && v.sim[..n] == u.sim[..n];
      assert v.acc[..n] == u.acc[..n] && v.dedup[..n] == u.dedup[..n];
      assert v.padded[..n] == u.padded[..n] && v.magnitude[..n] == u.magnitude[..n];
      assert forall k :: n <= k < |u.b1| ==> IsBlank(u, k) && IsBlank(v, k);
    }
  }

  lemma {:induction false} FillInAddsBlanks(t: Columns, coords: seq<Coord>)
    requires t.Even()
    ensures OnlyBlanksAdded(t, FillIn(t, coords))
  {
    if coords == [] {
      assert t.b1[..|t.b1|] == t.b1 && t.b2[..|t.b1|] == t.b2 && t.sim[..|t.b1|] == t.sim;
      assert t.acc[..|t.b1|] == t.acc && t.dedup[..|t.b1|] == t.dedup;
      assert t.padded[..|t.b1|] == t.padded && t.magnitude[..|t.b1|] == t.magnitude;
    } else {
      FillInAddsBlanks(t, coords[..|coords| - 1]);
      BlankAdded(t, FillIn(t, coords[..|coords| - 1]), coords[|coords| - 1]);
    }
  }

  lemma {:induction false} FillInListsAll(t: Columns, coords: seq<Coord>)
    requires Unique(t.b1)
    ensures Unique(FillIn(t, coords).b1) && forall c :: c in FillIn(t, coords).b1 <==> c in t.b1 || c in coords
  {
    if coords != [] {
      var front, last := coords[..|coords| - 1], coords[|coords| - 1];
      FillInListsAll(t, front);
      assert coords == front + [last];
      var u := FillIn(t, front);
      if last !in u.b1 {
        UniqueAppend(u.b1, last);
      }
    }
  }

  /** Filling in keeps the rows there are, adds blank ones, and leaves no block without a row. */
  lemma FillInCompletes(t: Columns, coords: seq<Coord>)
    requires t.Even() && Unique(t.b1)
    ensures OnlyBlanksAdded(t, FillIn(t, coords)) && Unique(FillIn(t, coords).b1)
    ensures forall c :: c in FillIn(t, coords).b1 <==> c in t.b1 || c in coords
  {
    FillInAddsBlanks(t, coords);
    FillInListsAll(t, coords);
  }

  lemma PrefixUnique<T>(s: seq<T>, n: nat)
    requires Unique(s) && n <= |s|
    ensures Unique(s[..n])
  {
  }

  /** Settling keeps a prefix of the rows. */
  lemma SettleKeepsRows(job: Job, s0: Storage, blocks: seq<Grid>, original: real, st: Sweep,
                        visited: nat) returns (kept: nat)
    requires Ready(job, s0, blocks) && visited <= |job.order| && RecordedUpTo(job, s0, blocks, st, visited)
    requires Settle(job, original, st).Some?
    ensures var t := Settle(job, original, st).value;
            && kept <= visited && t.Even() && t.b1 == job.order[..kept]
            && forall k :: 0 <= k < kept ==> s0.Has(job.order[k]) && RowSays(job, s0, blocks, t, k)
    ensures kept == if original - job.evaluate(st.evals, st.model) > job.stopAccDrop then st.lastEval else visited
  {
    var t := Settle(job, original, st).value;
    kept := if Dropped(job, original, job.evaluate(st.evals, st.model)) then st.lastEval else visited;
    forall k | 0 <= k < kept
      ensures s0.Has(job.order[k]) && RowSays(job, s0, blocks, t, k)
    {
      assert RowSays(job, s0, blocks, st.cols, k);
    }
  }

  /** What the table says about the run. */
  ghost predicate TableOf(job: Job, s0: Storage, blocks: seq<Grid>, t: Columns, kept: nat)
    requires Ready(job, s0, blocks) && kept <= |job.order|
  {
    && t.Even() && kept <= |t.b1| && t.b1[..kept] == job.order[..kept]
    && (forall k :: 0 <= k < kept ==> s0.Has(job.order[k]) && RowSays(job, s0, blocks, t, k))
    && (forall k :: kept <= k < |t.b1| ==> IsBlank(t, k))
  }

  /** Through early stop, cutting back and filling in, the table ends with one row for every block and
      columns of equal length; its kept rows are the first blocks in order of magnitude with what was
      found for them, and the rest are blank.  Without a block there is nothing to record. */
  lemma TableIsPermutation(job: Job, s0: Storage, model: seq<Weight>, blocks: seq<Grid>)
    requires Ready(job, s0, blocks) && ListsEachOnce(job.order, s0.counts)
    ensures DedupTable(job, s0, model, blocks).None? <==>
              job.order == [] && job.evaluate(0, model) - job.evaluate(1, model) <= job.stopAccDrop
    ensures DedupTable(job, s0, model, blocks).Some? ==>
              var t := DedupTable(job, s0, model, blocks).value;
              && t.Even() && ListsEachOnce(t.b1, s0.counts)
              && exists kept: nat :: kept <= |job.order| && TableOf(job, s0, blocks, t, kept)
  {
    var visited := SweepResult(job, s0, model, blocks);
    var st := LastSweep(job, s0, model, blocks);
    var original := job.evaluate(0, model);
    if Settle(job, original, st).Some? {
      var kept := SettleKeepsRows(job, s0, blocks, original, st, visited);
      TableFilled(job, s0, blocks, Settle(job, original, st).value, kept);
    }
  }

  /** Filling in a table of the first `kept` blocks of an order: every block gets its row, and the rows
      there were stay as they were. */
  lemma FilledTable(order: seq<Coord>, counts: seq<Counts>, t: Columns, kept: nat)
    requires ListsEachOnce(order, counts) && kept <= |order| && t.Even() && t.b1 == order[..kept]
    ensures var u := FillIn(t, AllCoords(counts));
            && u.Even() && ListsEachOnce(u.b1, counts) && kept <= |u.b1| && u.b1[..kept] == order[..kept]
            && (forall k :: 0 <= k < kept ==>
                  && u.b2[k] == t.b2[k] && u.sim[k] == t.sim[k] && u.acc[k] == t.acc[k] && u.dedup[k] == t.dedup[k]
                  && u.padded[k] == t.padded[k] && u.magnitude[k] == t.magnitude[k])
            && (forall k :: kept <= k < |u.b1| ==> IsBlank(u, k))
  {
    PrefixUnique(order, kept);
    FillInCompletes(t, AllCoords(counts));
    AllCoordsListsEachOnce(counts);
    var u := FillIn(t, AllCoords(counts));
    forall c ensures c in u.b1 <==> HasBlock(counts, c) {
      if c in t.b1 {
        assert c in order;
      }
    }
    forall k | 0 <= k < kept
      ensures u.b2[k] == t.b2[k] && u.sim[k] == t.sim[k] && u.acc[k] == t.acc[k] && u.dedup[k] == t.dedup[k]
      ensures u.padded[k] == t.padded[k] && u.magnitude[k] == t.magnitude[k]
    {
      assert u.b2[..kept][k] == u.b2[k] && u.sim[..kept][k] == u.sim[k];
      assert u.acc[..kept][k] == u.acc[k] && u.dedup[..kept][k] == u.dedup[k];
      assert u.padded[..kept][k] == u.padded[k] && u.magnitude[..kept][k] == u.magnitude[k];
    }
  }

  lemma TableFilled(job: Job, s0: Storage, blocks: seq<Grid>, settled: Columns, kept: nat)
    requires Ready(job, s0, blocks) && ListsEachOnce(job.order, s0.counts)
    requires kept <= |job.order| && TableOf(job, s0, blocks, settled, kept) && |settled.b1| == kept
    ensures var t := FillIn(settled, AllCoords(s0.counts));
            ListsEachOnce(t.b1, s0.counts) && TableOf(job, s0, blocks, t, kept)
  {
    assert settled.b1 == job.order[..kept];
    FilledTable(job.order, s0.counts, settled, kept);
    var t := FillIn(settled, AllCoords(s0.counts));
    forall k | 0 <= k < kept ensures RowSays(job, s0, blocks, t, k) {
      assert RowSays(job, s0, blocks, settled, k);
    }
  }

  /** The table and the storage agree: a row marked deduplicated names an indexed block equal to the block
      the storage holds there, even where rows were cut off after blocks had been overwritten. */
  lemma TableMatchesStorage(job: Job, s0: Storage, model: seq<Weight>, blocks: seq<Grid>)
    requires Ready(job, s0, blocks) && ListsEachOnce(job.order, s0.counts)
    requires DedupTable(job, s0, model, blocks).Some?
    ensures Deduplicates(DedupTable(job, s0, model, blocks).value, LastSweep(job, s0, model, blocks).storage, blocks)
  {
    var visited := SweepResult(job, s0, model, blocks);
    var st := LastSweep(job, s0, model, blocks);
    var original := job.evaluate(0, model);
    var kept := SettleKeepsRows(job, s0, blocks, original, st, visited);
    TableFilled(job, s0, blocks, Settle(job, original, st).value, kept);
    var t := DedupTable(job, s0, model, blocks).value;
    assert TableOf(job, s0, blocks, t, kept);
    forall k | 0 <= k < |t.b1| && t.dedup[k]
      ensures t.b2[k].Some? && t.b2[k].value < |blocks| && blocks[t.b2[k].value] == st.storage.Get(t.b1[k])
    {
      RowPoints(job, s0, blocks, st, t, visited, kept, k);
    }
  }

  lemma RowPoints(job: Job, s0: Storage, blocks: seq<Grid>, st: Sweep, t: Columns, visited: nat, kept: nat, k: nat)
    requires Ready(job, s0, blocks) && kept <= visited <= |job.order|
    requires StoredUpTo(job, s0, blocks, st, visited) && TableOf(job, s0, blocks, t, kept)
    requires k < |t.b1| && t.dedup[k]
    ensures t.b2[k].Some? && t.b2[k].value < |blocks|
    ensures st.storage.Has(t.b1[k]) && blocks[t.b2[k].value] == st.storage.Get(t.b1[k])
  {
    assert k >= kept ==> IsBlank(t, k);
    assert t.b1[k] == t.b1[..kept][k] == job.order[k] == job.order[..visited][k];
    assert RowSays(job, s0, blocks, t, k);
    assert job.order[k] in job.order[..visited];
    assert st.storage.Get(job.order[k]) == FinalBlock(job, s0, blocks, job.order[k], true);
  }

  // ---------- a chain of models ----------

  /** One model of a chain: its deduplication and what it starts from. */
  datatype Stage = Stage(job: Job, storage: Storage, model: seq<Weight>)

  /** What a stage needs of itself: blocks of the chain's size, at least one, and a search that finds
      only indices of the list it is given. */
  ghost predicate StageOk(g: Stage, dx: nat, dy: nat) {
    && Comparable(g.storage) && g.storage.dx == dx && g.storage.dy == dy
    && g.job.evalStep > 0 && g.job.order != [] && ListsEachOnce(g.job.order, g.storage.counts)
    && forall blocks, c, b :: InRange(g.job.query(blocks, c, b).candidates, |blocks|)
  }

  ghost predicate StageReady(g: Stage, blocks: seq<Grid>) {
    && Ready(g.job, g.storage, blocks) && ListsEachOnce(g.job.order, g.storage.counts)
    && DedupTable(g.job, g.storage, g.model, blocks).Some?
  }

  /** On an index of the right block size the stage runs to its end. */
  lemma StageRuns(g: Stage, blocks: seq<Grid>, dx: nat, dy: nat)
    requires StageOk(g, dx, dy) && AllFit(blocks, dx, dy)
    ensures StageReady(g, blocks)
  {
    assert Ready(g.job, g.storage, blocks);
    TableIsPermutation(g.job, g.storage, g.model, blocks);
  }

  function StageTable(g: Stage, blocks: seq<Grid>): Columns
    requires StageReady(g, blocks)
  {
    DedupTable(g.job, g.storage, g.model, blocks).value
  }

  function StageStorage(g: Stage, blocks: seq<Grid>): (s: Storage)
    requires StageReady(g, blocks)
    ensures Comparable(s) && SameShape(s, g.storage)
  {
    LastSweep(g.job, g.storage, g.model, blocks).storage
  }

  lemma StageDeduplicates(g: Stage, blocks: seq<Grid>)
    requires StageReady(g, blocks)
    ensures Deduplicates(StageTable(g, blocks), StageStorage(g, blocks), blocks)
    ensures AllInside(AllCoords(g.storage.counts), g.storage.counts)
  {
    TableMatchesStorage(g.job, g.storage, g.model, blocks);
    AllCoordsListsEachOnce(g.storage.counts);
  }

  /** The detector's output for a stage, before the index is updated. */
  function StageNumbering(g: Stage, blocks: seq<Grid>): Numbering
    requires StageReady(g, blocks)
  {
    StageDeduplicates(g, blocks);
    NumberingOf(StageTable(g, blocks), |blocks|, g.storage.counts, AllCoords(g.storage.counts))
  }

  function StageBlocks(g: Stage, blocks: seq<Grid>): seq<Grid>
    requires StageReady(g, blocks)
  {
    StageDeduplicates(g, blocks);
    GrownBlocks(StageTable(g, blocks), StageStorage(g, blocks), blocks, AllCoords(g.storage.counts))
  }

  lemma StagePredicts(g: Stage, blocks: seq<Grid>)
    requires StageReady(g, blocks)
    ensures blocks <= StageBlocks(g, blocks) && StageNumbering(g, blocks).next == |StageBlocks(g, blocks)|
    ensures Resolves(StageNumbering(g, blocks).mapping, StageStorage(g, blocks), StageBlocks(g, blocks))
  {
    StageDeduplicates(g, blocks);
    PredictedIdsAreCreatedIds(StageTable(g, blocks), StageStorage(g, blocks), blocks);
  }

  lemma StageFits(g: Stage, blocks: seq<Grid>)
    requires StageReady(g, blocks)
    ensures AllFit(StageBlocks(g, blocks), g.storage.dx, g.storage.dy)
  {
    StageDeduplicates(g, blocks);
    var t := StageTable(g, blocks);
    RemainingFit(StageStorage(g, blocks), Duplicates(t, |t.b1|), AllCoords(g.storage.counts));
  }

  /** `lists[i]` is the index when stage `i` begins. */
  ghost predicate IsChain(stages: seq<Stage>, lists: seq<seq<Grid>>) {
    && |lists| == |stages| + 1
    && forall i :: 0 <= i < |stages| && StageReady(stages[i], lists[i]) ==>
         lists[i + 1] == StageBlocks(stages[i], lists[i])
  }

  ghost predicate ChainOk(stages: seq<Stage>, lists: seq<seq<Grid>>, dx: nat, dy: nat) {
    && IsChain(stages, lists) && AllFit(lists[0], dx, dy)
    && forall i :: 0 <= i < |stages| ==> StageOk(stages[i], dx, dy)
  }

  /** Every stage of a chain runs to its end. */
  lemma {:induction false} ChainRuns(stages: seq<Stage>, lists: seq<seq<Grid>>, dx: nat, dy: nat, n: nat)
    requires ChainOk(stages, lists, dx, dy) && n <= |stages|
    ensures AllFit(lists[n], dx, dy) && (n < |stages| ==> StageReady(stages[n], lists[n]))
  {
    if n > 0 {
      ChainRuns(stages, lists, dx, dy, n - 1);
      StageFits(stages[n - 1], lists[n - 1]);
    }
    if n < |stages| {
      StageRuns(stages[n], lists[n], dx, dy);
    }
  }

  lemma {:induction false} ListsOnlyGrow(stages: seq<Stage>, lists: seq<seq<Grid>>, dx: nat, dy: nat, i: nat, j: nat)
    requires ChainOk(stages, lists, dx, dy) && i <= j < |lists|
    ensures lists[i] <= lists[j]
    decreases j - i
  {
    if i < j {
      ListsOnlyGrow(stages, lists, dx, dy, i, j - 1);
      ChainRuns(stages, lists, dx, dy, j - 1);
      StagePredicts(stages[j - 1], lists[j - 1]);
    }
  }

  /** Over a whole chain of models, from any index: every stage runs, the mapping it predicts leads to its
      own blocks in the index as it stands after it and after every later stage, and the count it
      predicts is the size the index then has. */
  lemma ChainResolves(stages: seq<Stage>, lists: seq<seq<Grid>>, dx: nat, dy: nat, i: nat, j: nat)
    requires ChainOk(stages, lists, dx, dy) && i < j < |lists|
    ensures StageReady(stages[i], lists[i])
    ensures StageNumbering(stages[i], lists[i]).next == |lists[i + 1]|
    ensures Resolves(StageNumbering(stages[i], lists[i]).mapping, StageStorage(stages[i], lists[i]), lists[j])
  {
    ChainRuns(stages, lists, dx, dy, i);
    StagePredicts(stages[i], lists[i]);
    ListsOnlyGrow(stages, lists, dx, dy, i + 1, j);
    ResolvesStays(StageNumbering(stages[i], lists[i]).mapping, StageStorage(stages[i], lists[i]), lists[i + 1],
                  lists[j]);
  }

  /** A model put together from the shared blocks is the model deduplication left. */
  lemma ServedModelIsStored(m: Mapping, s: Storage, blocks: seq<Grid>, served: Storage)
    requires s.Valid() && Resolves(m, s, blocks) && served.Valid() && SameShape(served, s)
    requires forall c :: served.Has(c) ==> LeadsTo(m, c, served.Get(c), blocks)
    ensures served == s && Reconstruction(served) == Reconstruction(s)
  {
    forall c | s.Has(c) ensures s.Get(c) == served.Get(c) {
      assert LeadsTo(m, c, s.Get(c), blocks) && LeadsTo(m, c, served.Get(c), blocks);
    }
    BlocksDetermineStorage(s, served);
  }

  /** The model always holds what its storage holds. */
  lemma {:induction false} ModelFollowsStorage(job: Job, blocks: seq<Grid>, original: real, st: Sweep, n: nat)
    requires Ready(job, st.storage, blocks) && n <= |job.order| && st.model == Reconstruction(st.storage)
    ensures var last := SweepFrom(job, blocks, original, st, n); last.model == Reconstruction(last.storage)
    decreases |job.order| - n
  {
    if n < |job.order| {
      assert job.order[n] in job.order;
      var next := Visit(job, blocks, original, st, job.order[n]);
      if !Dropped(job, original, Latest(next.cols, original)) {
        ModelFollowsStorage(job, blocks, original, next, n + 1);
      }
    }
  }

  // ---------- a lossless setting ----------

  lemma FullShare(k: nat, n: nat)
    requires k <= n && n > 0 && k as real / n as real >= 1.0
    ensures k == n
  {
    assert k as real == (k as real / n as real) * n as real;
  }

  /** With tolerance 0 and threshold 1, a match equals the block in every cell of the original shape. */
  lemma ExactMatchAgrees(job: Job, s: Storage, blocks: seq<Grid>, c: Coord, b2: nat, i: nat, j: nat)
    requires Ready(job, s, blocks) && s.Has(c) && b2 < |blocks|
    requires job.fp <= 0.0 && SimilarityTo(job, s, blocks, c, b2) >= 1.0
    requires i < s.dx && j < s.dy
    requires c.x * s.dx + i < s.shapes[c.w].Height() && c.y * s.dy + j < s.shapes[c.w].Width()
    ensures blocks[b2][i][j] == s.Get(c)[i][j]
  {
    var shape := s.shapes[c.w];
    ComparesTrueCells(shape, c, s.dx, s.dy);
    var rows, cols := ComparedRows(shape, c, s.dx, s.dy), ComparedCols(shape, c, s.dx, s.dy);
    MulMonotonic(1, rows, cols);
    FullShare(CloseCells(s.Get(c), blocks[b2], rows, cols, job.fp), rows * cols);
    FullCount(s.Get(c), blocks[b2], rows, cols, job.fp);
    assert -job.fp <= s.Get(c)[i][j] - blocks[b2][i][j] <= job.fp;
  }

  lemma FinalBlockAgrees(job: Job, s: Storage, blocks: seq<Grid>, c: Coord, visited: bool, i: nat, j: nat)
    requires Ready(job, s, blocks) && s.Has(c) && job.fp <= 0.0 && job.sim >= 1.0
    requires i < s.dx && j < s.dy
    requires c.x * s.dx + i < s.shapes[c.w].Height() && c.y * s.dy + j < s.shapes[c.w].Width()
    ensures FinalBlock(job, s, blocks, c, visited)[i][j] == s.Get(c)[i][j]
  {
    var found := Search(job, s, blocks, c).best;
    if visited && found.b2.Some? {
      BestMatchIsMostSimilar(job, s, blocks, c, job.query(blocks, c, s.Get(c)).candidates);
      ExactMatchAgrees(job, s, blocks, c, found.b2.value, i, j);
    }
  }

  predicate SameCell(s: Storage, t: Storage, w: nat, r: nat, c: nat) {
    && w < |s.weights| && w < |t.weights|
    && r < |s.weights[w]| && c < |s.weights[w][r]| && r < |t.weights[w]| && c < |t.weights[w][r]|
    && s.weights[w][r][c] == t.weights[w][r][c]
  }

  lemma SameCellsSameLayer(s: Storage, t: Storage, w: nat)
    requires s.Valid() && t.Valid() && SameShape(s, t) && w < |s.weights|
    requires forall r: nat, c: nat :: r < s.shapes[w].Height() && c < s.shapes[w].Width() ==> SameCell(s, t, w, r, c)
    ensures Reconstruction(s)[w] == Reconstruction(t)[w]
  {
    CropsFit(s, w);
    CropsFit(t, w);
    var shape := s.shapes[w];
    if shape.TwoD? {
      var a, b := Crop(s.weights[w], shape).cells, Crop(t.weights[w], shape).cells;
      forall r: nat, c: nat | r < shape.rows && c < shape.cols ensures a[r][c] == b[r][c] {
        assert SameCell(s, t, w, r, c);
      }
      GridsEqual(a, b, shape.rows, shape.cols);
    } else {
      var a, b := Crop(s.weights[w], shape).values, Crop(t.weights[w], shape).values;
      forall r: nat | r < shape.n ensures a[r] == b[r] {
        assert SameCell(s, t, w, r, 0);
      }
      assert a == b;
    }
  }

  /** With tolerance 0 and threshold 1, deduplication changes no weight of the model, whatever the
      candidates, the accuracies and the padding of the indexed blocks. */
  lemma ZeroToleranceIsLossless(job: Job, s0: Storage, model: seq<Weight>, blocks: seq<Grid>)
    requires Ready(job, s0, blocks) && ListsEachOnce(job.order, s0.counts) && job.fp <= 0.0 && job.sim >= 1.0
    ensures Reconstruction(LastSweep(job, s0, model, blocks).storage) == Reconstruction(s0)
    ensures model == Reconstruction(s0) ==> LastSweep(job, s0, model, blocks).model == model
  {
    if model == Reconstruction(s0) {
      ModelFollowsStorage(job, blocks, job.evaluate(0, model), StartSweep(s0, model), 0);
    }
    var visited := SweepResult(job, s0, model, blocks);
    var st := LastSweep(job, s0, model, blocks);
    forall w | 0 <= w < |s0.weights| ensures Reconstruction(st.storage)[w] == Reconstruction(s0)[w] {
      forall r: nat, c: nat | r < s0.shapes[w].Height() && c < s0.shapes[w].Width()
        ensures SameCell(st.storage, s0, w, r, c)
      {
        CellKept(job, s0, blocks, st, visited, w, r, c);
      }
      SameCellsSameLayer(st.storage, s0, w);
    }
  }

  lemma CellKept(job: Job, s0: Storage, blocks: seq<Grid>, st: Sweep, visited: nat, w: nat, r: nat, c: nat)
    requires Ready(job, s0, blocks) && job.fp <= 0.0 && job.sim >= 1.0 && visited <= |job.order|
    requires StoredUpTo(job, s0, blocks, st, visited) && w < |s0.weights|
    requires r < s0.shapes[w].Height() && c < s0.shapes[w].Width()
    ensures SameCell(st.storage, s0, w, r, c)
  {
    CellThroughBlock(s0, w, r, c);
    CellThroughBlock(st.storage, w, r, c);
    var x := HolderOf(s0, w, r, c);
    FinalBlockAgrees(job, s0, blocks, x, x in job.order[..visited], r % s0.dx, c % s0.dy);
    assert st.storage.Get(x) == FinalBlock(job, s0, blocks, x, x in job.order[..visited]);
  }
}
