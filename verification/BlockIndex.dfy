/** indexer.py and generate_detector_output: the list of shared blocks, and the ids predicted for it. */
module BlockIndex {
  import opened Commons
  import opened WeightBlocks
  import opened BlockOrder

  /** The result lists of a deduplication, kept side by side until they become a table; None is the empty
      string the scripts store.  Timings are not modelled. */
  datatype Columns = Columns(b1: seq<Coord>, b2: seq<Option<nat>>, sim: seq<Option<real>>, acc: seq<Option<real>>,
                             dedup: seq<bool>, padded: seq<Option<bool>>, magnitude: seq<Option<real>>)
  {
    predicate Even() {
      |b1| == |b2| == |sim| == |acc| == |dedup| == |padded| == |magnitude|
    }

    function Append(row: Row): Columns {
      Columns(b1 + [row.b1], b2 + [row.b2], sim + [row.sim], acc + [row.acc], dedup + [row.dedup],
              padded + [row.padded], magnitude + [row.magnitude])
    }

    /** Python's column[:n] for every column. */
    function Truncate(n: nat): Columns {
      Columns(b1[..Min(n, |b1|)], b2[..Min(n, |b2|)], sim[..Min(n, |sim|)], acc[..Min(n, |acc|)],
              dedup[..Min(n, |dedup|)], padded[..Min(n, |padded|)], magnitude[..Min(n, |magnitude|)])
    }
  }

  const NO_ROWS := Columns([], [], [], [], [], [], [])

  datatype Row = Row(b1: Coord, b2: Option<nat>, sim: Option<real>, acc: Option<real>, dedup: bool,
                     padded: Option<bool>, magnitude: Option<real>)

  /** A row for a block that was not deduplicated. */
  function BlankRow(c: Coord): Row {
    Row(c, None, None, None, false, None, None)
  }

  /** A deduplicated row names an indexed block. */
  predicate RowsPoint(t: Columns, numBlocks: nat) {
    t.Even() && forall k :: 0 <= k < |t.b1| && t.dedup[k] ==> t.b2[k].Some? && t.b2[k].value < numBlocks
  }

  // ---------- update_index ----------

  /** The coordinates of the rows marked deduplicated. */
  function Duplicates(t: Columns, n: nat): seq<Coord>
    requires t.Even() && n <= |t.b1|
  {
    if n == 0 then []
    else Duplicates(t, n - 1) + (if t.dedup[n - 1] then [t.b1[n - 1]] else [])
  }

  /** The blocks appended for `coords`, in order: those that are not duplicates. */
  function Remaining(s: Storage, skip: seq<Coord>, coords: seq<Coord>): seq<Grid>
    requires s.Valid() && AllInside(coords, s.counts)
  {
    if coords == [] then []
    else
      var last := coords[|coords| - 1];
      assert last in coords;
      Remaining(s, skip, coords[..|coords| - 1]) + (if last in skip then [] else [s.Get(last)])
  }

  /** Every block has the index's block size. */
  predicate AllFit(blocks: seq<Grid>, dx: nat, dy: nat) {
    forall k :: 0 <= k < |blocks| ==> Rect(blocks[k], dx, dy)
  }

  lemma {:induction false} RemainingFit(s: Storage, skip: seq<Coord>, coords: seq<Coord>)
    requires s.Valid() && AllInside(coords, s.counts)
    ensures AllFit(Remaining(s, skip, coords), s.dx, s.dy)
  {
    if coords != [] {
      RemainingFit(s, skip, coords[..|coords| - 1]);
    }
  }

  // ---------- generate_detector_output ----------

  /** For each tensor, the index of the block at (x, y). */
  type Mapping = seq<map<(nat, nat), nat>>

  predicate Maps(m: Mapping, c: Coord) {
    c.w < |m| && (c.x, c.y) in m[c.w]
  }

  function Assign(m: Mapping, c: Coord, id: nat): Mapping
    requires c.w < |m|
  {
    var layer: map<(nat, nat), nat> := m[c.w][(c.x, c.y) := id];
    m[c.w := layer]
  }

  predicate RowsInside(t: Columns, counts: seq<Counts>) {
    t.Even() && AllInside(t.b1, counts)
  }

  /** The mapping after the first `n` rows. */
  function FromRows(t: Columns, numBlocks: nat, counts: seq<Counts>, n: nat): (m: Mapping)
    requires RowsPoint(t, numBlocks) && RowsInside(t, counts) && n <= |t.b1|
    ensures |m| == |counts|
  {
    if n == 0 then seq(|counts|, _ => map[])
    else
      var m := FromRows(t, numBlocks, counts, n - 1);
      assert t.b1[n - 1] in t.b1;
      if t.dedup[n - 1] then Assign(m, t.b1[n - 1], t.b2[n - 1].value) else m
  }

  datatype Numbering = Numbering(mapping: Mapping, next: nat)

  /** Every block of `coords` that has no index yet gets the next one. */
  function Number(from: Numbering, counts: seq<Counts>, coords: seq<Coord>): (r: Numbering)
    requires |from.mapping| == |counts| && AllInside(coords, counts)
    ensures |r.mapping| == |counts|
  {
    if coords == [] then from
    else
      var last := coords[|coords| - 1];
      assert last in coords;
      NumberOne(Number(from, counts, coords[..|coords| - 1]), last)
  }

  function NumberOne(r: Numbering, c: Coord): Numbering
    requires c.w < |r.mapping|
  {
    if Maps(r.mapping, c) then r else Numbering(Assign(r.mapping, c, r.next), r.next + 1)
  }

  /** The numbering once `coords` have been walked. */
  function NumberingOf(t: Columns, numBlocks: nat, counts: seq<Counts>, coords: seq<Coord>): (r: Numbering)
    requires RowsPoint(t, numBlocks) && RowsInside(t, counts) && AllInside(coords, counts)
    ensures |r.mapping| == |counts|
  {
    Number(Numbering(FromRows(t, numBlocks, counts, |t.b1|), numBlocks), counts, coords)
  }

  /** The list of blocks once `coords` have been walked. */
  function GrownBlocks(t: Columns, s: Storage, blocks: seq<Grid>, coords: seq<Coord>): seq<Grid>
    requires s.Valid() && t.Even() && AllInside(coords, s.counts)
  {
    blocks + Remaining(s, Duplicates(t, |t.b1|), coords)
  }

  // ---------- the prediction is right ----------

  /** `m` leads from `c` to block `b` of the list. */
  predicate LeadsTo(m: Mapping, c: Coord, b: Grid, blocks: seq<Grid>) {
    Maps(m, c) && m[c.w][(c.x, c.y)] < |blocks| && blocks[m[c.w][(c.x, c.y)]] == b
  }

  /** `m` leads from every coordinate to that block of `s`. */
  ghost predicate Resolves(m: Mapping, s: Storage, blocks: seq<Grid>)
    requires s.Valid()
  {
    forall c :: s.Has(c) ==> LeadsTo(m, c, s.Get(c), blocks)
  }

  /** The table lists every block once, and its deduplicated rows name equal indexed blocks. */
  ghost predicate Deduplicates(t: Columns, s: Storage, blocks: seq<Grid>)
    requires s.Valid()
  {
    && RowsPoint(t, |blocks|) && RowsInside(t, s.counts) && ListsEachOnce(t.b1, s.counts)
    && forall k :: 0 <= k < |t.b1| && t.dedup[k] ==> blocks[t.b2[k].value] == s.Get(t.b1[k])
  }

  /** One of the first `n` rows is a deduplicated one for `c`. */
  ghost predicate IsDuplicate(t: Columns, n: nat, c: Coord)
    requires t.Even() && n <= |t.b1|
  {
    exists k :: 0 <= k < n && t.b1[k] == c && t.dedup[k]
  }

  lemma {:induction false} DuplicatesAre(t: Columns, n: nat, c: Coord)
    requires t.Even() && n <= |t.b1|
    ensures c in Duplicates(t, n) <==> IsDuplicate(t, n, c)
  {
    if n > 0 {
      DuplicatesAre(t, n - 1, c);
    }
  }

  /** The mapping made from the rows holds exactly the duplicates, each at an equal indexed block. */
  lemma {:induction false} RowsMapDuplicates(t: Columns, s: Storage, blocks: seq<Grid>, n: nat, c: Coord)
    requires s.Valid() && Deduplicates(t, s, blocks) && n <= |t.b1|
    ensures Maps(FromRows(t, |blocks|, s.counts, n), c) <==> IsDuplicate(t, n, c)
    ensures IsDuplicate(t, n, c) ==> s.Has(c) && LeadsTo(FromRows(t, |blocks|, s.counts, n), c, s.Get(c), blocks)
  {
    if n > 0 {
      RowsMapDuplicates(t, s, blocks, n - 1, c);
      assert t.b1[n - 1] in t.b1;
    }
  }

  /** While the same blocks are walked, the next index is the length the list will have, and the blocks
      numbered so far are found in it. */
  lemma {:induction false} NumberingPredicts(t: Columns, s: Storage, blocks: seq<Grid>, coords: seq<Coord>, c: Coord)
    requires s.Valid() && Deduplicates(t, s, blocks)
    requires Unique(coords) && AllInside(coords, s.counts)
    ensures var r := NumberingOf(t, |blocks|, s.counts, coords);
            var grown := GrownBlocks(t, s, blocks, coords);
            && r.next == |grown|
            && (Maps(r.mapping, c) <==> c in coords || IsDuplicate(t, |t.b1|, c))
            && (Maps(r.mapping, c) ==> s.Has(c) && LeadsTo(r.mapping, c, s.Get(c), grown))
  {
    if coords == [] {
      RowsMapDuplicates(t, s, blocks, |t.b1|, c);
    } else {
      var front, last := coords[..|coords| - 1], coords[|coords| - 1];
      NumberingPredicts(t, s, blocks, front, c);
      NumberingPredicts(t, s, blocks, front, last);
      DuplicatesAre(t, |t.b1|, last);
      assert coords == front + [last] && last !in front && last in coords;
      NumberStep(NumberingOf(t, |blocks|, s.counts, front), last, c);
    }
  }

  lemma NumberStep(r: Numbering, last: Coord, c: Coord)
    requires last.w < |r.mapping|
    ensures var n := NumberOne(r, last);
            && (Maps(n.mapping, c) <==> Maps(r.mapping, c) || c == last)
            && (Maps(r.mapping, c) ==> n.mapping[c.w][(c.x, c.y)] == r.mapping[c.w][(c.x, c.y)])
            && (!Maps(r.mapping, last) ==> n.mapping[last.w][(last.x, last.y)] == r.next && n.next == r.next + 1)
            && (Maps(r.mapping, last) ==> n == r)
  {
  }

  /** generate_detector_output predicts, before update_index runs, where update_index will put every
      block: each coordinate leads to that block in the grown list, and the count returned is the grown
      list's length. */
  lemma PredictedIdsAreCreatedIds(t: Columns, s: Storage, blocks: seq<Grid>)
    requires s.Valid() && Deduplicates(t, s, blocks)
    ensures AllInside(AllCoords(s.counts), s.counts)
    ensures var r := NumberingOf(t, |blocks|, s.counts, AllCoords(s.counts));
            var grown := GrownBlocks(t, s, blocks, AllCoords(s.counts));
            && r.next == |grown| && blocks <= grown && Resolves(r.mapping, s, grown)
  {
    AllCoordsListsEachOnce(s.counts);
    var r := NumberingOf(t, |blocks|, s.counts, AllCoords(s.counts));
    var grown := GrownBlocks(t, s, blocks, AllCoords(s.counts));
    forall c ensures r.next == |grown| && (s.Has(c) ==> LeadsTo(r.mapping, c, s.Get(c), grown)) {
      NumberingPredicts(t, s, blocks, AllCoords(s.counts), c);
    }
    assert r.next == |grown| by {
      NumberingPredicts(t, s, blocks, AllCoords(s.counts), Coord(0, 0, 0));
    }
  }

  /** Appending blocks leaves earlier mappings right. */
  lemma ResolvesStays(m: Mapping, s: Storage, blocks: seq<Grid>, grown: seq<Grid>)
    requires s.Valid() && Resolves(m, s, blocks) && blocks <= grown
    ensures Resolves(m, s, grown)
  {
    forall c | s.Has(c) ensures LeadsTo(m, c, s.Get(c), grown) {
      assert LeadsTo(m, c, s.Get(c), blocks);
    }
  }
}
