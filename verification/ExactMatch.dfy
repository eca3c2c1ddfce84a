/** mistique_exact_match: deduplication by the hash of a block's bytes. */
module ExactMatch {
  import opened Commons
  import opened WeightBlocks
  import opened BlockOrder
  import opened BlockIndex
  import DedupModel
  import DedupTheorems
  import Deduplicator
  import opened Indexing

  type HashTable = map<int, nat>

  /** The table after the first `n` blocks: a later block takes over the entry of its hash. */
  function HashTableOf(hash: Grid -> int, blocks: seq<Grid>, n: nat): HashTable
    requires n <= |blocks|
  {
    if n == 0 then map[] else HashTableOf(hash, blocks, n - 1)[hash(blocks[n - 1]) := n - 1]
  }

  /** An entry is the last block with that hash. */
  lemma {:induction false} EntryIsLast(hash: Grid -> int, blocks: seq<Grid>, n: nat, h: int)
    requires n <= |blocks|
    ensures h in HashTableOf(hash, blocks, n) <==> exists k :: 0 <= k < n && hash(blocks[k]) == h
    ensures h in HashTableOf(hash, blocks, n) ==>
              var last := HashTableOf(hash, blocks, n)[h];
              last < n && hash(blocks[last]) == h && forall k :: last < k < n ==> hash(blocks[k]) != h
  {
    if n > 0 {
      EntryIsLast(hash, blocks, n - 1, h);
    }
  }

  /** The indexed block an exact search finds: the last one with the block's hash, if it is equal. */
  function Hit(hash: Grid -> int, s: Storage, blocks: seq<Grid>, c: Coord): (hit: Option<nat>)
    requires s.Valid() && s.Has(c)
    ensures hit.Some? ==> hit.value < |blocks| && blocks[hit.value] == s.Get(c)
  {
    var b1 := s.Get(c);
    EntryIsLast(hash, blocks, |blocks|, hash(b1));
    var table := HashTableOf(hash, blocks, |blocks|);
    if s.counts[c.w].0 * s.counts[c.w].1 > 1 && hash(b1) in table && blocks[table[hash(b1)]] == b1
    then Some(table[hash(b1)]) else None
  }

  /** The search finds a block exactly when the layer has several blocks and the last indexed block with
      the same hash is equal. */
  lemma HitIff(hash: Grid -> int, s: Storage, blocks: seq<Grid>, c: Coord)
    requires s.Valid() && s.Has(c)
    ensures Hit(hash, s, blocks, c).Some? <==>
              && s.counts[c.w].0 * s.counts[c.w].1 > 1
              && exists k :: && 0 <= k < |blocks| && blocks[k] == s.Get(c)
                             && forall l :: k < l < |blocks| ==> hash(blocks[l]) != hash(s.Get(c))
  {
    EntryIsLast(hash, blocks, |blocks|, hash(s.Get(c)));
  }

  /** No indexed block shares the hash of `b` without being equal to it. */
  ghost predicate NoCollision(hash: Grid -> int, blocks: seq<Grid>, b: Grid) {
    forall k :: 0 <= k < |blocks| && hash(blocks[k]) == hash(b) ==> blocks[k] == b
  }

  /** Without collisions every block of a layer with several blocks is found if it is in the index. */
  lemma NoCollisionFindsAll(hash: Grid -> int, s: Storage, blocks: seq<Grid>, c: Coord)
    requires s.Valid() && s.Has(c) && NoCollision(hash, blocks, s.Get(c))
    ensures Hit(hash, s, blocks, c).Some? <==> s.counts[c.w].0 * s.counts[c.w].1 > 1 && s.Get(c) in blocks
  {
    EntryIsLast(hash, blocks, |blocks|, hash(s.Get(c)));
  }

  /** A collision can hide an indexed block. */
  lemma CollisionHides()
    ensures var s := Storage([[[1.0], [2.0]]], [TwoD(2, 1)], [(2, 1)], 1, 1);
            var blocks := [[[1.0]], [[3.0]]];
            var hash := (_: Grid) => 0;
            && s.Valid() && s.Has(Coord(0, 0, 0))
            && s.Get(Coord(0, 0, 0)) in blocks && Hit(hash, s, blocks, Coord(0, 0, 0)) == None
  {
    var s := Storage([[[1.0], [2.0]]], [TwoD(2, 1)], [(2, 1)], 1, 1);
    var blocks: seq<Grid> := [[[1.0]], [[3.0]]];
    var hash := (_: Grid) => 0;
    assert s.counts[0] == CountsOf(s.shapes[0], 1, 1);
    GridsEqual(s.Get(Coord(0, 0, 0)), blocks[0], 1, 1);
    EntryIsLast(hash, blocks, 2, 0);
    assert blocks[1] != blocks[0] by {
      assert blocks[1][0][0] == 3.0 && blocks[0][0][0] == 1.0;
    }
  }

  method BuildHashTable(hash: Grid -> int, blocks: seq<Grid>) returns (table: HashTable)
    ensures table == HashTableOf(hash, blocks, |blocks|)
  {
    table := map[];
    var i := 0;
    while i < |blocks|
      invariant 0 <= i <= |blocks| && table == HashTableOf(hash, blocks, i)
    {
      table := table[hash(blocks[i]) := i];
      i := i + 1;
    }
  }

  /** What the first `n` rows say: the hit of each block, similarity 1 or 0, the original accuracy.  This
      table has no padding or magnitude column. */
  ghost predicate ExactRows(hash: Grid -> int, s: Storage, blocks: seq<Grid>, order: seq<Coord>, t: Columns, n: nat,
                            original: real)
    requires s.Valid() && n <= |order|
  {
    && t.Even() && t.b1 == order[..n]
    && forall k :: 0 <= k < n ==>
         s.Has(order[k]) && ExactRow(Hit(hash, s, blocks, order[k]), t, k, original)
  }

  predicate ExactRow(hit: Option<nat>, t: Columns, k: nat, original: real)
    requires t.Even() && k < |t.b1|
  {
    && t.acc[k] == Some(original) && t.b2[k] == hit && t.dedup[k] == hit.Some?
    && t.sim[k] == Some(if hit.Some? then 1.0 else 0.0)
  }

  /** One block: the storage and the model are written to, with what they hold already. */
  method MatchBlock(hash: Grid -> int, table: HashTable, blocks: seq<Grid>, ms: ModelStorage,
                    model: Deduplicator.KerasModel, c: Coord)
    returns (hit: Option<nat>)
    requires ms.State().Valid() && ms.State().Has(c) && table == HashTableOf(hash, blocks, |blocks|)
    requires model.weights == Reconstruction(ms.State())
    modifies ms, model
    ensures ms.State() == old(ms.State()) && model.weights == old(model.weights)
    ensures hit == Hit(hash, ms.State(), blocks, c)
  {
    hit := None;
    ghost var s := ms.State();
    if ms.counts[c.w].0 * ms.counts[c.w].1 > 1 {
      var b1 := ms.State().Get(c);
      EntryIsLast(hash, blocks, |blocks|, hash(b1));
      if hash(b1) in table && b1 == blocks[table[hash(b1)]] {
        hit := Some(table[hash(b1)]);
      }
    }
    if hit.Some? {
      SetSame(s, c);
      ms.SetBlock(c, blocks[hit.value]);
      var restored := ms.Reconstruct();
      model.weights := restored;
    }
  }

  /** How many blocks are visited: all, unless the threshold is negative. */
  function Visited(stopAccDrop: real, n: nat): nat {
    if stopAccDrop >= 0.0 then n else Min(1, n)
  }

  lemma RowsGrow(hash: Grid -> int, s: Storage, blocks: seq<Grid>, order: seq<Coord>, t: Columns, n: nat,
                 original: real)
    requires s.Valid() && n < |order| && s.Has(order[n]) && ExactRows(hash, s, blocks, order, t, n, original)
    ensures var hit := Hit(hash, s, blocks, order[n]);
            var row := Row(order[n], hit, Some(if hit.Some? then 1.0 else 0.0), Some(original), hit.Some?, None, None);
            ExactRows(hash, s, blocks, order, t.Append(row), n + 1, original)
            && DedupModel.Latest(t, original) == original
  {
    assert order[..n + 1] == order[..n] + [order[n]];
    var hit := Hit(hash, s, blocks, order[n]);
    var row := Row(order[n], hit, Some(if hit.Some? then 1.0 else 0.0), Some(original), hit.Some?, None, None);
    forall k | 0 <= k < n + 1
      ensures s.Has(order[k]) && ExactRow(Hit(hash, s, blocks, order[k]), t.Append(row), k, original)
    {
      if k < n {
        assert ExactRow(Hit(hash, s, blocks, order[k]), t, k, original);
      }
    }
    if n > 0 {
      assert ExactRow(Hit(hash, s, blocks, order[n - 1]), t, n - 1, original);
    }
  }

  /** The main loop: it meets the original accuracy all along. */
  method MatchBlocks(hash: Grid -> int, evaluate: seq<Weight> -> real, order: seq<Coord>, stopAccDrop: real,
                     evalStep: nat, ms: ModelStorage, blocks: seq<Grid>, model: Deduplicator.KerasModel)
    returns (t: Columns)
    requires ms.State().Valid() && AllInside(order, ms.counts) && evalStep > 0
    requires model.weights == Reconstruction(ms.State())
    modifies ms, model
    ensures ms.State() == old(ms.State()) && model.weights == old(model.weights)
    ensures ExactRows(hash, ms.State(), blocks, order, t, Visited(stopAccDrop, |order|), evaluate(model.weights))
  {
    ghost var s, m := ms.State(), model.weights;
    var original := evaluate(model.weights);
    var step, n, stopped := 1, 0, false;
    var table := BuildHashTable(hash, blocks);
    t := NO_ROWS;
    while n < |order| && !stopped
      invariant 0 <= n <= |order| && ms.State() == s && model.weights == m
      invariant ExactRows(hash, s, blocks, order, t, n, original)
      invariant stopped <==> n > 0 && stopAccDrop < 0.0
      invariant stopped ==> n == 1
    {
      assert order[n] in order;
      RowsGrow(hash, s, blocks, order, t, n, original);
      var hit := MatchBlock(hash, table, blocks, ms, model, order[n]);
      if hit.Some? {
        step := step + 1;
      }
      var acc := if step % evalStep == 0 then evaluate(model.weights) else DedupModel.Latest(t, original);
      t := t.Append(Row(order[n], hit, Some(if hit.Some? then 1.0 else 0.0), Some(acc), hit.Some?, None, None));
      stopped := original - acc > stopAccDrop;
      n := n + 1;
    }
  }

  /** mistique_exact_match on a model and its own storage, with the accuracy a function of the weights.
      No weight changes, whatever the collisions; the run stops early only for a negative threshold; and
      the table has one row for every block, the visited ones with the hit found in the index. */
  method MistiqueExactMatch(hash: Grid -> int, evaluate: seq<Weight> -> real, order: seq<Coord>, stopAccDrop: real,
                            evalStep: nat, ms: ModelStorage, indexer: Indexer, model: Deduplicator.KerasModel)
    returns (t: Columns)
    requires ms.State().Valid() && ListsEachOnce(order, ms.counts) && evalStep > 0
    requires model.weights == Reconstruction(ms.State())
    modifies ms, model
    ensures ms.State() == old(ms.State()) && model.weights == old(model.weights)
    ensures t.Even() && ListsEachOnce(t.b1, ms.counts)
    ensures var n := if stopAccDrop >= 0.0 then |order| else Min(1, |order|);
            && n <= |t.b1| && t.b1[..n] == order[..n]
            && (forall k :: 0 <= k < n ==>
                  ms.State().Has(order[k]) &&
                  ExactRow(Hit(hash, ms.State(), indexer.listBlocks, order[k]), t, k, evaluate(model.weights)))
            && (forall k :: n <= k < |t.b1| ==> DedupTheorems.IsBlank(t, k))
  {
    t := MatchBlocks(hash, evaluate, order, stopAccDrop, evalStep, ms, indexer.listBlocks, model);
    FinishRows(hash, ms.State(), indexer.listBlocks, order, t, Visited(stopAccDrop, |order|), evaluate(model.weights));
    t := Deduplicator.FillRemaining(t, ms.counts);
  }

  lemma FinishRows(hash: Grid -> int, s: Storage, blocks: seq<Grid>, order: seq<Coord>, t: Columns, n: nat,
                   original: real)
    requires s.Valid() && ListsEachOnce(order, s.counts) && n <= |order|
    requires ExactRows(hash, s, blocks, order, t, n, original)
    ensures var u := DedupModel.FillIn(t, AllCoords(s.counts));
            && u.Even() && ListsEachOnce(u.b1, s.counts) && n <= |u.b1| && u.b1[..n] == order[..n]
            && (forall k :: 0 <= k < n ==>
                  s.Has(order[k]) && ExactRow(Hit(hash, s, blocks, order[k]), u, k, original))
            && (forall k :: n <= k < |u.b1| ==> DedupTheorems.IsBlank(u, k))
  {
    DedupTheorems.FilledTable(order, s.counts, t, n);
    var u := DedupModel.FillIn(t, AllCoords(s.counts));
    forall k | 0 <= k < n ensures s.Has(order[k]) && ExactRow(Hit(hash, s, blocks, order[k]), u, k, original) {
      assert ExactRow(Hit(hash, s, blocks, order[k]), t, k, original);
    }
  }
}
