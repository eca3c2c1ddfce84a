/** The Indexer object, and generate_detector_output as the loops that compute it. */
module Indexing {
  import opened Commons
  import opened WeightBlocks
  import opened BlockOrder
  import opened BlockIndex

  /** Where each block of a first model is put; the block identifiers are the coordinates themselves. */
  type Finder = map<Coord, nat>

  function FinderOf(base: nat, coords: seq<Coord>): Finder {
    if coords == [] then map[]
    else FinderOf(base, coords[..|coords| - 1])[coords[|coords| - 1] := base + |coords| - 1]
  }

  lemma {:induction false} FinderFinds(s: Storage, blocks: seq<Grid>, coords: seq<Coord>, c: Coord)
    requires s.Valid() && AllInside(coords, s.counts) && Unique(coords) && c in coords
    ensures var grown := blocks + Remaining(s, [], coords);
            var finder := FinderOf(|blocks|, coords);
            && |grown| == |blocks| + |coords|
            && c in finder && finder[c] < |grown| && grown[finder[c]] == s.Get(c)
  {
    var front, last := coords[..|coords| - 1], coords[|coords| - 1];
    assert coords == front + [last];
    if c in front {
      FinderFinds(s, blocks, front, c);
    } else {
      RemainingAll(s, front);
    }
  }

  lemma {:induction false} RemainingAll(s: Storage, coords: seq<Coord>)
    requires s.Valid() && AllInside(coords, s.counts)
    ensures |Remaining(s, [], coords)| == |coords|
  {
    if coords != [] {
      RemainingAll(s, coords[..|coords| - 1]);
    }
  }

  /** build_index: the finder returned leads from every coordinate to that block of the list. */
  lemma BuiltIndexResolves(s: Storage, blocks: seq<Grid>, c: Coord)
    requires s.Valid() && s.Has(c)
    ensures AllInside(AllCoords(s.counts), s.counts)
    ensures var grown := blocks + Remaining(s, [], AllCoords(s.counts));
            var finder := FinderOf(|blocks|, AllCoords(s.counts));
            c in finder && finder[c] < |grown| && grown[finder[c]] == s.Get(c)
  {
    AllCoordsListsEachOnce(s.counts);
    FinderFinds(s, blocks, AllCoords(s.counts), c);
  }

  class Indexer {
    const dx: nat
    const dy: nat
    var listBlocks: seq<Grid>
    var numTotal: nat
    var modelNames: set<string>

    ghost predicate Valid()
      reads this
    {
      numTotal == |listBlocks|
    }

    constructor (dx: nat, dy: nat)
      ensures this.dx == dx && this.dy == dy && Valid() && listBlocks == [] && modelNames == {}
    {
      this.dx, this.dy := dx, dy;
      listBlocks, numTotal, modelNames := [], 0, {};
    }

    /** The list after `coords` are walked, starting from `blocks`. */
    ghost predicate Walked(s: Storage, blocks: seq<Grid>, skip: seq<Coord>, coords: seq<Coord>)
      requires s.Valid()
      reads this
    {
      AllInside(coords, s.counts) && Valid() && listBlocks == blocks + Remaining(s, skip, coords)
    }

    /** The innermost loop of build_index: one row of blocks. */
    method BuildRow(ms: ModelStorage, ghost blocks: seq<Grid>, w: nat, x: nat, start: Finder) returns (found: Finder)
      requires ms.State().Valid() && ms.dx == dx && ms.dy == dy && w < |ms.counts| && x < ms.counts[w].0
      requires Walked(ms.State(), blocks, [], Upto(ms.counts, w, x, 0))
      requires start == FinderOf(|blocks|, Upto(ms.counts, w, x, 0))
      modifies this`listBlocks, this`numTotal
      ensures Walked(ms.State(), blocks, [], Upto(ms.counts, w, x + 1, 0))
      ensures found == FinderOf(|blocks|, Upto(ms.counts, w, x + 1, 0))
    {
      ghost var s := ms.State();
      found := start;
      var y := 0;
      while y < ms.counts[w].1
        invariant 0 <= y <= ms.counts[w].1 && ms.State() == s
        invariant Walked(s, blocks, [], Upto(s.counts, w, x, y))
        invariant found == FinderOf(|blocks|, Upto(s.counts, w, x, y))
      {
        ghost var done, c := Upto(s.counts, w, x, y), Coord(w, x, y);
        BuildStep(s, blocks, done, c);
        listBlocks := listBlocks + [BlockAt(ms.weights[w], ms.counts[w], x, y, dx, dy)];
        found := found[Coord(w, x, y) := numTotal];
        numTotal := numTotal + 1;
        y := y + 1;
        assert Upto(s.counts, w, x, y) == done + [c];
      }
    }

    /** None stands for the ValueError raised for a name already indexed. */
    method BuildIndex(ms: ModelStorage, name: string) returns (finder: Option<Finder>)
      requires Valid() && ms.State().Valid() && ms.dx == dx && ms.dy == dy
      modifies this
      ensures Valid() && AllInside(AllCoords(ms.counts), ms.counts)
      ensures finder.None? <==> name in old(modelNames)
      ensures finder.None? ==> listBlocks == old(listBlocks) && modelNames == old(modelNames)
      ensures finder.Some? ==>
                && modelNames == old(modelNames) + {name}
                && listBlocks == old(listBlocks) + Remaining(ms.State(), [], AllCoords(ms.counts))
                && finder.value == FinderOf(old(numTotal), AllCoords(ms.counts))
    {
      AllCoordsListsEachOnce(ms.counts);
      if name in modelNames {
        return None;
      }
      modelNames := modelNames + {name};
      ghost var names, s, blocks := modelNames, ms.State(), listBlocks;
      var found: Finder := map[];
      var w := 0;
      while w < |ms.counts|
        invariant 0 <= w <= |ms.counts| && ms.State() == s && modelNames == names
        invariant Walked(s, blocks, [], Upto(s.counts, w, 0, 0))
        invariant found == FinderOf(|blocks|, Upto(s.counts, w, 0, 0))
      {
        var x := 0;
        while x < ms.counts[w].0
          invariant 0 <= x <= ms.counts[w].0 && ms.State() == s && modelNames == names
          invariant Walked(s, blocks, [], Upto(s.counts, w, x, 0))
          invariant found == FinderOf(|blocks|, Upto(s.counts, w, x, 0))
        {
          found := BuildRow(ms, blocks, w, x, found);
          x := x + 1;
        }
        w := w + 1;
      }
      finder := Some(found);
    }

    /** The innermost loop of update_index. */
    method UpdateRow(ms: ModelStorage, ghost blocks: seq<Grid>, skip: seq<Coord>, w: nat, x: nat)
      requires ms.State().Valid() && ms.dx == dx && ms.dy == dy && w < |ms.counts| && x < ms.counts[w].0
      requires Walked(ms.State(), blocks, skip, Upto(ms.counts, w, x, 0))
      modifies this`listBlocks, this`numTotal
      ensures Walked(ms.State(), blocks, skip, Upto(ms.counts, w, x + 1, 0))
    {
      ghost var s := ms.State();
      var y := 0;
      while y < ms.counts[w].1
        invariant 0 <= y <= ms.counts[w].1 && ms.State() == s
        invariant Walked(s, blocks, skip, Upto(s.counts, w, x, y))
      {
        if Coord(w, x, y) !in skip {
          listBlocks := listBlocks + [BlockAt(ms.weights[w], ms.counts[w], x, y, dx, dy)];
          numTotal := numTotal + 1;
        }
        RemainingStep(s, blocks, skip, Upto(s.counts, w, x, y), Coord(w, x, y));
        y := y + 1;
      }
    }

    /** update_index. */
    method UpdateIndex(ms: ModelStorage, t: Columns)
      requires Valid() && ms.State().Valid() && ms.dx == dx && ms.dy == dy && t.Even()
      modifies this`listBlocks, this`numTotal
      ensures Valid() && AllInside(AllCoords(ms.counts), ms.counts)
      ensures listBlocks == GrownBlocks(t, ms.State(), old(listBlocks), AllCoords(ms.counts))
    {
      AllCoordsListsEachOnce(ms.counts);
      var skip := Duplicates(t, |t.b1|);
      ghost var s, blocks := ms.State(), listBlocks;
      var w := 0;
      while w < |ms.counts|
        invariant 0 <= w <= |ms.counts| && ms.State() == s
        invariant Walked(s, blocks, skip, Upto(s.counts, w, 0, 0))
      {
        var x := 0;
        while x < ms.counts[w].0
          invariant 0 <= x <= ms.counts[w].0 && ms.State() == s
          invariant Walked(s, blocks, skip, Upto(s.counts, w, x, 0))
        {
          UpdateRow(ms, blocks, skip, w, x);
          x := x + 1;
        }
        w := w + 1;
      }
    }
  }

  lemma FinderStep(base: nat, coords: seq<Coord>, c: Coord)
    ensures FinderOf(base, coords + [c]) == FinderOf(base, coords)[c := base + |coords|]
  {
    assert (coords + [c])[..|coords|] == coords;
  }

  lemma BuildStep(s: Storage, blocks: seq<Grid>, coords: seq<Coord>, c: Coord)
    requires s.Valid() && AllInside(coords, s.counts) && s.Has(c)
    ensures AllInside(coords + [c], s.counts) && |Remaining(s, [], coords)| == |coords|
    ensures blocks + Remaining(s, [], coords + [c]) == (blocks + Remaining(s, [], coords)) + [s.Get(c)]
    ensures FinderOf(|blocks|, coords + [c]) == FinderOf(|blocks|, coords)[c := |blocks| + |coords|]
  {
    RemainingAll(s, coords);
    FinderStep(|blocks|, coords, c);
    RemainingStep(s, blocks, [], coords, c);
  }

  lemma RemainingStep(s: Storage, blocks: seq<Grid>, skip: seq<Coord>, coords: seq<Coord>, c: Coord)
    requires s.Valid() && AllInside(coords + [c], s.counts) && AllInside(coords, s.counts) && s.Has(c)
    ensures blocks + Remaining(s, skip, coords + [c])
         == (blocks + Remaining(s, skip, coords)) + (if c in skip then [] else [s.Get(c)])
  {
    assert (coords + [c])[..|coords|] == coords;
  }

  // ---------- generate_detector_output ----------

  /** All indices a mapping uses. */
  function IdsUsed(m: Mapping, n: nat): set<nat>
    requires n <= |m|
  {
    if n == 0 then {} else IdsUsed(m, n - 1) + m[n - 1].Values
  }

  /** Some coordinate leads to `id`. */
  ghost predicate IsUsed(m: Mapping, n: nat, id: nat)
    requires n <= |m|
  {
    exists w, x, y :: 0 <= w < n && (x, y) in m[w] && m[w][(x, y)] == id
  }

  lemma {:induction false} IdsUsedAre(m: Mapping, n: nat, id: nat)
    requires n <= |m|
    ensures id in IdsUsed(m, n) <==> IsUsed(m, n, id)
  {
    if n > 0 {
      IdsUsedAre(m, n - 1, id);
      if id in m[n - 1].Values {
        var place :| place in m[n - 1] && m[n - 1][place] == id;
        assert (place.0, place.1) == place;
      }
    }
  }

  /** The number of different indices the coordinates lead to. */
  ghost predicate IsDistinctCount(m: Mapping, n: nat) {
    exists ids: set<nat> :: n == |ids| && forall id :: id in ids <==> IsUsed(m, |m|, id)
  }

  lemma NumberStepIs(from: Numbering, counts: seq<Counts>, coords: seq<Coord>, c: Coord)
    requires |from.mapping| == |counts| && AllInside(coords, counts) && HasBlock(counts, c)
    ensures AllInside(coords + [c], counts)
    ensures Number(from, counts, coords + [c]) == NumberOne(Number(from, counts, coords), c)
  {
    assert (coords + [c])[..|coords|] == coords;
  }

  method MapDuplicates(t: Columns, counts: seq<Counts>, numTotal: nat) returns (mapping: Mapping)
    requires RowsPoint(t, numTotal) && RowsInside(t, counts)
    ensures mapping == FromRows(t, numTotal, counts, |t.b1|)
  {
    mapping := seq(|counts|, _ => map[]);
    var row := 0;
    while row < |t.b1|
      invariant 0 <= row <= |t.b1| && mapping == FromRows(t, numTotal, counts, row)
    {
      assert t.b1[row] in t.b1;
      if t.dedup[row] {
        mapping := Assign(mapping, t.b1[row], t.b2[row].value);
      }
      row := row + 1;
    }
  }

  /** The innermost loop: one row of blocks. */
  method NumberRow(from: Mapping, counts: seq<Counts>, numTotal: nat, w: nat, i: nat, start: Mapping, startNew: nat)
    returns (mapping: Mapping, numNew: nat)
    requires |from| == |counts| && LoopsAt(counts, w, i, 0) && w < |counts| && i < counts[w].0
    requires AllInside(Upto(counts, w, i, 0), counts)
    requires Numbering(start, numTotal + startNew) == Number(Numbering(from, numTotal), counts, Upto(counts, w, i, 0))
    ensures AllInside(Upto(counts, w, i + 1, 0), counts)
    ensures Numbering(mapping, numTotal + numNew)
         == Number(Numbering(from, numTotal), counts, Upto(counts, w, i + 1, 0))
  {
    mapping, numNew := start, startNew;
    var j := 0;
    while j < counts[w].1
      invariant 0 <= j <= counts[w].1 && AllInside(Upto(counts, w, i, j), counts)
      invariant Numbering(mapping, numTotal + numNew)
             == Number(Numbering(from, numTotal), counts, Upto(counts, w, i, j))
    {
      NumberStepIs(Numbering(from, numTotal), counts, Upto(counts, w, i, j), Coord(w, i, j));
      if (i, j) !in mapping[w] {
        mapping := Assign(mapping, Coord(w, i, j), numTotal + numNew);
        numNew := numNew + 1;
      }
      j := j + 1;
    }
  }

  method NumberTheRest(from: Mapping, counts: seq<Counts>, numTotal: nat) returns (mapping: Mapping, numNew: nat)
    requires |from| == |counts| && AllInside(AllCoords(counts), counts)
    ensures Numbering(mapping, numTotal + numNew) == Number(Numbering(from, numTotal), counts, AllCoords(counts))
  {
    mapping, numNew := from, 0;
    var w := 0;
    while w < |counts|
      invariant 0 <= w <= |counts| && AllInside(Upto(counts, w, 0, 0), counts)
      invariant Numbering(mapping, numTotal + numNew) == Number(Numbering(from, numTotal), counts, Upto(counts, w, 0,
                                                                                                        0))
    {
      var i := 0;
      while i < counts[w].0
        invariant 0 <= i <= counts[w].0 && AllInside(Upto(counts, w, i, 0), counts)
        invariant Numbering(mapping, numTotal + numNew) == Number(Numbering(from, numTotal), counts, Upto(counts, w,
                                                                                                          i, 0))
      {
        mapping, numNew := NumberRow(from, counts, numTotal, w, i, mapping, numNew);
        i := i + 1;
      }
      w := w + 1;
    }
  }

  method CountDistinct(mapping: Mapping) returns (n: nat)
    ensures IsDistinctCount(mapping, n)
  {
    var distinct: set<nat> := {};
    var k := 0;
    while k < |mapping|
      invariant 0 <= k <= |mapping| && distinct == IdsUsed(mapping, k)
    {
      distinct := distinct + mapping[k].Values;
      k := k + 1;
    }
    forall id ensures id in distinct <==> IsUsed(mapping, |mapping|, id) {
      IdsUsedAre(mapping, |mapping|, id);
    }
    n := |distinct|;
  }

  /** Given the table, a model's block counts and the number of indexed blocks: the mapping of every block
      to its index, the number of distinct indices, and the number of blocks once the model is added. */
  method GenerateDetectorOutput(t: Columns, counts: seq<Counts>, numTotal: nat)
    returns (mapping: Mapping, numDistinct: nat, newTotal: nat)
    requires RowsPoint(t, numTotal) && RowsInside(t, counts)
    ensures AllInside(AllCoords(counts), counts)
    ensures Numbering(mapping, newTotal) == NumberingOf(t, numTotal, counts, AllCoords(counts))
    ensures IsDistinctCount(mapping, numDistinct)
  {
    AllCoordsListsEachOnce(counts);
    mapping := MapDuplicates(t, counts, numTotal);
    var numNew;
    mapping, numNew := NumberTheRest(mapping, counts, numTotal);
    newTotal := numTotal + numNew;
    numDistinct := CountDistinct(mapping);
  }
}
