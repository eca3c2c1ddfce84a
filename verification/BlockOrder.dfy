/** The row-major order in which the indexing scripts walk over all blocks of a model. */
module BlockOrder {
  import opened WeightBlocks

  /** Where three nested loops over layers, rows and columns of blocks can stand. */
  predicate LoopsAt(counts: seq<Counts>, w: nat, x: nat, y: nat) {
    if w < |counts| then x <= counts[w].0 && y <= counts[w].1 && (y > 0 ==> x < counts[w].0)
    else w == |counts| && x == 0 && y == 0
  }

  /** The blocks visited before the loops stand at (w, x, y). */
  function Upto(counts: seq<Counts>, w: nat, x: nat, y: nat): seq<Coord>
    requires LoopsAt(counts, w, x, y)
    decreases w, x, y
  {
    if y > 0 then Upto(counts, w, x, y - 1) + [Coord(w, x, y - 1)]
    else if x > 0 then Upto(counts, w, x - 1, counts[w].1)
    else if w > 0 then Upto(counts, w - 1, counts[w - 1].0, 0)
    else []
  }

  function AllCoords(counts: seq<Counts>): seq<Coord> {
    Upto(counts, |counts|, 0, 0)
  }

  predicate AllInside(coords: seq<Coord>, counts: seq<Counts>) {
    forall c :: c in coords ==> HasBlock(counts, c)
  }

  predicate Unique<T(==)>(s: seq<T>) {
    forall i, j :: 0 <= i < j < |s| ==> s[i] != s[j]
  }

  /** `s` lists every block of the model exactly once. */
  ghost predicate ListsEachOnce(s: seq<Coord>, counts: seq<Counts>) {
    Unique(s) && forall c :: c in s <==> HasBlock(counts, c)
  }

  lemma UniqueAppend<T>(s: seq<T>, x: T)
    requires Unique(s) && x !in s
    ensures Unique(s + [x])
  {
  }

  predicate EarlierThan(c: Coord, w: nat, x: nat, y: nat) {
    c.w < w || (c.w == w && (c.x < x || (c.x == x && c.y < y)))
  }

  /** The loops have visited, once each, exactly the blocks that come before. */
  lemma {:induction false} UptoListsEarlier(counts: seq<Counts>, w: nat, x: nat, y: nat)
    requires LoopsAt(counts, w, x, y)
    ensures Unique(Upto(counts, w, x, y)) && AllInside(Upto(counts, w, x, y), counts)
    ensures forall c :: c in Upto(counts, w, x, y) <==> HasBlock(counts, c) && EarlierThan(c, w, x, y)
    decreases w, x, y
  {
    if y > 0 {
      UptoListsEarlier(counts, w, x, y - 1);
      UniqueAppend(Upto(counts, w, x, y - 1), Coord(w, x, y - 1));
    } else if x > 0 {
      UptoListsEarlier(counts, w, x - 1, counts[w].1);
    } else if w > 0 {
      UptoListsEarlier(counts, w - 1, counts[w - 1].0, 0);
    }
  }

  /** Layer by layer, and row by row within a layer. */
  ghost predicate RowMajor(s: seq<Coord>) {
    forall i, j :: 0 <= i < j < |s| ==> EarlierThan(s[i], s[j].w, s[j].x, s[j].y)
  }

  lemma {:induction false} UptoIsRowMajor(counts: seq<Counts>, w: nat, x: nat, y: nat)
    requires LoopsAt(counts, w, x, y)
    ensures RowMajor(Upto(counts, w, x, y))
    decreases w, x, y
  {
    if y > 0 {
      UptoIsRowMajor(counts, w, x, y - 1);
      UptoListsEarlier(counts, w, x, y - 1);
      var front := Upto(counts, w, x, y - 1);
      assert forall i :: 0 <= i < |front| ==> front[i] in front;
    } else if x > 0 {
      UptoIsRowMajor(counts, w, x - 1, counts[w].1);
    } else if w > 0 {
      UptoIsRowMajor(counts, w - 1, counts[w - 1].0, 0);
    }
  }

  /** The nested loops visit every block of the model exactly once, in row-major order. */
  lemma AllCoordsListsEachOnce(counts: seq<Counts>)
    ensures ListsEachOnce(AllCoords(counts), counts) && AllInside(AllCoords(counts), counts)
    ensures RowMajor(AllCoords(counts))
  {
    UptoListsEarlier(counts, |counts|, 0, 0);
    UptoIsRowMajor(counts, |counts|, 0, 0);
  }
}
