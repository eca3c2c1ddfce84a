/** loadMatrixGenericFromFile (csv): the lines of a file as row blocks, over several partitions. */
module PartitionedLoader {
  import opened Commons

  /** A parsed line. */
  type Line = string

  /** A block: its index within its partition and its rows, some perhaps not written yet. */
  datatype RowBlock = RowBlock(index: nat, rows: seq<Option<Line>>)

  /** One sendData: the partition's set and the blocks sent. */
  datatype Batch = Batch(partition: nat, blocks: seq<RowBlock>)

  // ---------- what should arrive ----------

  /** Rows block number `k` of a partition of `size` lines is allocated with. */
  function HeightOf(size: nat, blockX: nat, k: nat): nat
    requires blockX > 0
  {
    if k + 1 == NumBlocks(size, blockX) && size % blockX != 0 then size % blockX else blockX
  }

  /** The first line of block number `k`: k * blockX. */
  function Start(k: nat, blockX: nat): nat {
    if k == 0 then 0 else Start(k - 1, blockX) + blockX
  }

  lemma {:induction false} StartIs(k: nat, blockX: nat)
    ensures Start(k, blockX) == k * blockX
  {
    if k > 0 {
      StartIs(k - 1, blockX);
    }
  }

  /** Block number `k` once the lines from its start on are in it, as far as `lines` reach. */
  function BlockFor(lines: seq<Line>, size: nat, blockX: nat, k: nat): RowBlock
    requires blockX > 0
  {
    RowBlock(k, RowsFrom(lines, Start(k, blockX), HeightOf(size, blockX, k)))
  }

  function RowsFrom(lines: seq<Line>, start: nat, height: nat): seq<Option<Line>> {
    seq(height, r requires 0 <= r => if start + r < |lines| then Some(lines[start + r]) else None)
  }

  /** The first `n` blocks. */
  function FirstBlocks(lines: seq<Line>, size: nat, blockX: nat, n: nat): seq<RowBlock>
    requires blockX > 0
  {
    if n == 0 then [] else FirstBlocks(lines, size, blockX, n - 1) + [BlockFor(lines, size, blockX, n - 1)]
  }

  /** The blocks of a partition of `size` lines when `lines` are left in the file. */
  function PartitionBlocks(lines: seq<Line>, size: nat, blockX: nat): seq<RowBlock>
    requires blockX > 0
  {
    FirstBlocks(lines[..Min(size, |lines|)], size, blockX, NumBlocks(Min(size, |lines|), blockX))
  }

  /** The blocks sent to a partition's set, in order. */
  function SentTo(sent: seq<Batch>, partition: nat): seq<RowBlock> {
    if sent == [] then []
    else
      SentTo(sent[..|sent| - 1], partition)
      + if sent[|sent| - 1].partition == partition then sent[|sent| - 1].blocks else []
  }

  lemma SentToAppend(sent: seq<Batch>, b: Batch, partition: nat)
    ensures SentTo(sent + [b], partition) == SentTo(sent, partition) + if b.partition == partition then b.blocks else []
  {
    assert (sent + [b])[..|sent|] == sent;
  }

  // ---------- conservation of rows ----------

  /** The rows written, in order. */
  function Written(rows: seq<Option<Line>>): seq<Line> {
    if rows == [] then []
    else Written(rows[..|rows| - 1]) + match rows[|rows| - 1] { case Some(l) => [l] case None => [] }
  }

  function RowsOf(blocks: seq<RowBlock>): seq<Line> {
    if blocks == [] then []
    else RowsOf(blocks[..|blocks| - 1]) + Written(blocks[|blocks| - 1].rows)
  }

  lemma {:induction false} WrittenRows(lines: seq<Line>, start: nat, height: nat)
    requires start <= |lines|
    ensures Written(RowsFrom(lines, start, height)) == lines[start..][..Min(height, |lines| - start)]
  {
    if height > 0 {
      WrittenRows(lines, start, height - 1);
      assert RowsFrom(lines, start, height)[..height - 1] == RowsFrom(lines, start, height - 1);
    }
  }

  /** A block other than the last of its partition is full height; the last reaches the partition's end. */
  lemma BlockSpans(size: nat, blockX: nat, k: nat)
    requires blockX > 0 && k < NumBlocks(size, blockX)
    ensures Start(k, blockX) < size && 0 < HeightOf(size, blockX, k) <= blockX
    ensures k + 1 < NumBlocks(size, blockX) ==> HeightOf(size, blockX, k) == blockX && Start(k + 1, blockX) < size
    ensures k + 1 == NumBlocks(size, blockX) ==> Start(k, blockX) + HeightOf(size, blockX, k) == size
  {
    BlockBegins(size, blockX, k);
    StartIs(k, blockX);
    StartIs(k + 1, blockX);
    if k + 1 < NumBlocks(size, blockX) {
      BlockBegins(size, blockX, k + 1);
    } else {
      LastBlock(size, blockX, k);
    }
  }

  lemma LastBlock(size: nat, blockX: nat, k: nat)
    requires blockX > 0 && k * blockX < size <= k * blockX + blockX
    ensures k * blockX + (if size % blockX != 0 then size % blockX else blockX) == size
  {
    assert (k + 1) * blockX == k * blockX + blockX;
    if size < k * blockX + blockX {
      BlockContaining(size, blockX, k);
    } else {
      BlockContaining(size, blockX, k + 1);
      assert (k + 2) * blockX == (k + 1) * blockX + blockX;
    }
  }

  lemma FewerLinesFewerBlocks(n: nat, size: nat, blockX: nat)
    requires blockX > 0 && n <= size
    ensures NumBlocks(n, blockX) <= NumBlocks(size, blockX)
  {
    if NumBlocks(n, blockX) > NumBlocks(size, blockX) {
      BlockBegins(n, blockX, NumBlocks(n, blockX) - 1);
      BlocksReach(size, blockX);
      MulMonotonic(NumBlocks(size, blockX), NumBlocks(n, blockX) - 1, blockX);
    }
  }

  /** Where block number `k` ends among `n` lines. */
  lemma BlockEnds(n: nat, size: nat, blockX: nat, k: nat)
    requires blockX > 0 && n <= size && k < NumBlocks(n, blockX)
    ensures k < NumBlocks(size, blockX) && Start(k, blockX) < n
    ensures Min(Start(k, blockX) + HeightOf(size, blockX, k), n) == Min(Start(k + 1, blockX), n)
  {
    FewerLinesFewerBlocks(n, size, blockX);
    BlockBegins(n, blockX, k);
    StartIs(k, blockX);
    BlockSpans(size, blockX, k);
  }

  lemma {:induction false} FirstBlocksHoldLines(lines: seq<Line>, size: nat, blockX: nat, n: nat)
    requires blockX > 0 && |lines| <= size && n <= NumBlocks(|lines|, blockX)
    ensures RowsOf(FirstBlocks(lines, size, blockX, n)) == lines[..Min(Start(n, blockX), |lines|)]
  {
    if n > 0 {
      FirstBlocksHoldLines(lines, size, blockX, n - 1);
      NextBlockHoldsLines(lines, size, blockX, n - 1);
    }
  }

  lemma NextBlockHoldsLines(lines: seq<Line>, size: nat, blockX: nat, k: nat)
    requires blockX > 0 && |lines| <= size && k < NumBlocks(|lines|, blockX)
    requires RowsOf(FirstBlocks(lines, size, blockX, k)) == lines[..Min(Start(k, blockX), |lines|)]
    ensures RowsOf(FirstBlocks(lines, size, blockX, k + 1)) == lines[..Min(Start(k + 1, blockX), |lines|)]
  {
    BlockEnds(|lines|, size, blockX, k);
    OneMoreBlock(lines, size, blockX, k);
  }

  lemma OneMoreBlock(lines: seq<Line>, size: nat, blockX: nat, n: nat)
    requires blockX > 0 && Start(n, blockX) < |lines|
    requires RowsOf(FirstBlocks(lines, size, blockX, n)) == lines[..Start(n, blockX)]
    ensures RowsOf(FirstBlocks(lines, size, blockX, n + 1))
         == lines[..Min(Start(n, blockX) + HeightOf(size, blockX, n), |lines|)]
  {
    WrittenRows(lines, Start(n, blockX), HeightOf(size, blockX, n));
    RowsOfAppend(FirstBlocks(lines, size, blockX, n), BlockFor(lines, size, blockX, n));
    PrefixAndMore(lines, Start(n, blockX), Min(HeightOf(size, blockX, n), |lines| - Start(n, blockX)));
  }

  lemma RowsOfAppend(blocks: seq<RowBlock>, b: RowBlock)
    ensures RowsOf(blocks + [b]) == RowsOf(blocks) + Written(b.rows)
  {
    assert (blocks + [b])[..|blocks|] == blocks;
  }

  /** A partition's blocks hold its lines, each once and in order. */
  lemma PartitionHoldsItsLines(lines: seq<Line>, size: nat, blockX: nat)
    requires blockX > 0
    ensures RowsOf(PartitionBlocks(lines, size, blockX)) == lines[..Min(size, |lines|)]
  {
    var mine := lines[..Min(size, |lines|)];
    FirstBlocksHoldLines(mine, size, blockX, NumBlocks(|mine|, blockX));
    BlocksReach(|mine|, blockX);
    StartIs(NumBlocks(|mine|, blockX), blockX);
  }

  function Heights(blocks: seq<RowBlock>): nat {
    if blocks == [] then 0 else Heights(blocks[..|blocks| - 1]) + |blocks[|blocks| - 1].rows|
  }

  lemma {:induction false} FirstBlocksAre(lines: seq<Line>, size: nat, blockX: nat, n: nat)
    requires blockX > 0
    ensures |FirstBlocks(lines, size, blockX, n)| == n
    ensures forall k :: 0 <= k < n ==> FirstBlocks(lines, size, blockX, n)[k] == BlockFor(lines, size, blockX, k)
  {
    if n > 0 {
      FirstBlocksAre(lines, size, blockX, n - 1);
    }
  }

  lemma {:induction false} HeightsBefore(lines: seq<Line>, size: nat, blockX: nat, n: nat)
    requires blockX > 0 && n <= NumBlocks(size, blockX)
    ensures Heights(FirstBlocks(lines, size, blockX, n)) == Min(Start(n, blockX), size)
  {
    if n > 0 {
      HeightsBefore(lines, size, blockX, n - 1);
      BlockSpans(size, blockX, n - 1);
    }
  }

  /** With enough lines, every block of a partition has full height but for a final remainder, is filled,
      carries its number, and the heights add up to the partition's size. */
  lemma PartitionShape(lines: seq<Line>, size: nat, blockX: nat)
    requires blockX > 0 && |lines| >= size
    ensures var blocks := PartitionBlocks(lines, size, blockX);
            && |blocks| == NumBlocks(size, blockX) && Heights(blocks) == size
            && forall k :: 0 <= k < |blocks| ==>
                 && blocks[k].index == k && None !in blocks[k].rows
                 && (k + 1 < |blocks| ==> |blocks[k].rows| == blockX) && 0 < |blocks[k].rows| <= blockX
  {
    var mine := lines[..size];
    FirstBlocksAre(mine, size, blockX, NumBlocks(size, blockX));
    HeightsBefore(mine, size, blockX, NumBlocks(size, blockX));
    BlocksReach(size, blockX);
    StartIs(NumBlocks(size, blockX), blockX);
    forall k: nat | k < NumBlocks(size, blockX)
      ensures None !in BlockFor(mine, size, blockX, k).rows && 0 < |BlockFor(mine, size, blockX, k).rows| <= blockX
      ensures k + 1 < NumBlocks(size, blockX) ==> |BlockFor(mine, size, blockX, k).rows| == blockX
    {
      BlockSpans(size, blockX, k);
    }
  }

  // ---------- the partitions ----------

  function PartitionSize(totalX: nat, n: nat, i: nat): int
    requires n > 0
  {
    if n == 1 then totalX
    else if i + 1 == n then totalX - (totalX / n) * (n - 1)
    else totalX / n
  }

  /** The lines the partitions before `i` are meant to take. */
  function LinesBefore(totalX: nat, n: nat, i: nat): int
    requires n > 0 && i <= n
  {
    if i == 0 then 0 else LinesBefore(totalX, n, i - 1) + PartitionSize(totalX, n, i - 1)
  }

  lemma {:induction false} SizesAddUp(totalX: nat, n: nat, i: nat)
    requires n > 0 && i <= n
    ensures i < n ==> LinesBefore(totalX, n, i) == i * (totalX / n) && PartitionSize(totalX, n, i) >= 0
    ensures LinesBefore(totalX, n, n) == totalX
    decreases n - i
  {
    if i < n {
      UniformBefore(totalX, n, i);
      var each := totalX / n;
      MulMonotonic(n - 1, n, each);
      assert each * (n - 1) == (n - 1) * each && each * n <= totalX;
    }
    UniformBefore(totalX, n, n - 1);
    assert (totalX / n) * (n - 1) == (n - 1) * (totalX / n);
  }

  lemma {:induction false} UniformBefore(totalX: nat, n: nat, i: nat)
    requires n > 0 && i < n
    ensures LinesBefore(totalX, n, i) == i * (totalX / n)
  {
    if i > 0 {
      UniformBefore(totalX, n, i - 1);
      assert i * (totalX / n) == (i - 1) * (totalX / n) + totalX / n;
    }
  }

  // ---------- the loops ----------

  /** How many blocks `n` lines make when the last may be partial. */
  lemma CountBlocks(n: nat, blockX: nat, x: nat)
    requires blockX > 0 && Start(x, blockX) <= n
    ensures n == Start(x, blockX) ==> NumBlocks(n, blockX) == x
    ensures Start(x, blockX) < n <= Start(x, blockX) + blockX ==> NumBlocks(n, blockX) == x + 1
  {
    StartIs(x, blockX);
    assert (x + 1) * blockX == x * blockX + blockX && (x + 2) * blockX == (x + 1) * blockX + blockX;
    if n == x * blockX {
      BlockContaining(n + blockX - 1, blockX, x);
    } else if n <= x * blockX + blockX {
      BlockContaining(n + blockX - 1, blockX, x + 1);
    }
  }

  /** Where the loop over a partition's lines stands: `x` blocks pushed, `row` rows of the current block
      written, out of the partition's lines `mine`, `done` of them read. */
  ghost predicate LoopAt(mine: seq<Line>, size: nat, blockX: nat, x: nat, row: nat, done: nat, height: nat,
                         current: Option<RowBlock>)
    requires blockX > 0
  {
    && |mine| <= size && done <= |mine| && x <= NumBlocks(size, blockX)
    && (row == 0 <==> current == None)
    && (x == NumBlocks(size, blockX) ==> done == size && row == 0)
    && (x < NumBlocks(size, blockX) ==> done == Start(x, blockX) + row)
    && (row > 0 ==> row < height == HeightOf(size, blockX, x)
                    && current == Some(RowBlock(x, RowsFrom(mine[..done], Start(x, blockX), height))))
  }

  function EmptyRows(height: nat): seq<Option<Line>> {
    seq(height, _ => None)
  }

  lemma NothingRead(mine: seq<Line>, start: nat, height: nat)
    requires start <= |mine|
    ensures RowsFrom(mine[..start], start, height) == EmptyRows(height)
  {
  }

  /** Writing the line just read into its row. */
  lemma RowWritten(mine: seq<Line>, start: nat, row: nat, height: nat)
    requires start + row < |mine| && row < height
    ensures RowsFrom(mine[..start + row + 1], start, height)
         == RowsFrom(mine[..start + row], start, height)[row := Some(mine[start + row])]
    ensures row + 1 == height ==> RowsFrom(mine[..start + row + 1], start, height) == RowsFrom(mine, start, height)
  {
  }

  /** A full block is the block expected, and leaves the loop ready for the next. */
  lemma BlockFull(mine: seq<Line>, size: nat, blockX: nat, x: nat, done: nat)
    requires blockX > 0 && |mine| <= size && done <= |mine| && x < NumBlocks(size, blockX)
    requires done == Start(x, blockX) + HeightOf(size, blockX, x)
    ensures LoopAt(mine, size, blockX, x + 1, 0, done, HeightOf(size, blockX, x), None)
  {
    BlockSpans(size, blockX, x);
  }

  /** One line into row `row` of the block under way, or of a fresh one. */
  lemma LineTaken(mine: seq<Line>, size: nat, blockX: nat, x: nat, row: nat, done: nat, height: nat,
                  current: Option<RowBlock>, block: RowBlock)
    requires blockX > 0 && LoopAt(mine, size, blockX, x, row, done, height, current)
    requires done < |mine|
    requires block == if row > 0 then current.value else RowBlock(x, EmptyRows(HeightOf(size, blockX, x)))
    ensures x < NumBlocks(size, blockX) && row < |block.rows| == HeightOf(size, blockX, x)
    ensures var taken := block.(rows := block.rows[row := Some(mine[done])]);
            && (row + 1 < |block.rows| ==>
                  LoopAt(mine, size, blockX, x, row + 1, done + 1, |block.rows|, Some(taken)))
            && (row + 1 == |block.rows| ==>
                  && LoopAt(mine, size, blockX, x + 1, 0, done + 1, |block.rows|, None)
                  && taken == BlockFor(mine, size, blockX, x))
  {
    BlockSpans(size, blockX, x);
    var start, h := Start(x, blockX), HeightOf(size, blockX, x);
    if row == 0 {
      NothingRead(mine, start, h);
    }
    RowWritten(mine, start, row, h);
    if row + 1 == h {
      BlockFull(mine, size, blockX, x, done + 1);
    }
  }

  /** What is pushed when the loop ends: every line of the partition is in a block. */
  lemma LoopDone(mine: seq<Line>, size: nat, blockX: nat, x: nat, row: nat, height: nat, current: Option<RowBlock>)
    requires blockX > 0 && LoopAt(mine, size, blockX, x, row, |mine|, height, current)
    ensures row == 0 ==> NumBlocks(|mine|, blockX) == x
    ensures row > 0 ==> NumBlocks(|mine|, blockX) == x + 1 && current == Some(BlockFor(mine, size, blockX, x))
  {
    if x < NumBlocks(size, blockX) {
      BlockSpans(size, blockX, x);
      CountBlocks(|mine|, blockX, x);
      assert mine[..|mine|] == mine;
    }
  }

  /** While blocks are missing and the file has lines, so has the partition. */
  lemma LinesRemain(mine: seq<Line>, size: nat, blockX: nat, x: nat, row: nat, done: nat, height: nat,
                    current: Option<RowBlock>)
    requires blockX > 0 && LoopAt(mine, size, blockX, x, row, done, height, current) && x < NumBlocks(size, blockX)
    ensures done < size
  {
    BlockSpans(size, blockX, x);
  }

  /** The blocks of a set once the first `x` of this partition have been added. */
  function With(base: seq<RowBlock>, mine: seq<Line>, size: nat, blockX: nat, x: nat): seq<RowBlock>
    requires blockX > 0
  {
    base + FirstBlocks(mine, size, blockX, x)
  }

  lemma WithNext(base: seq<RowBlock>, mine: seq<Line>, size: nat, blockX: nat, x: nat)
    requires blockX > 0
    ensures With(base, mine, size, blockX, x + 1) == With(base, mine, size, blockX, x) + [BlockFor(mine, size,
                                                                                                   blockX, x)]
  {
  }

  class Loader {
    /** The file, and how much of it has been read. */
    const lines: seq<Line>
    var pos: nat
    /** Which allocations run out of space; a retry in a fresh allocation block does not. */
    const noSpace: nat -> bool
    var attempts: nat
    var sent: seq<Batch>

    constructor (lines: seq<Line>, noSpace: nat -> bool)
      ensures this.lines == lines && this.noSpace == noSpace && pos == 0 && sent == []
    {
      this.lines, this.noSpace := lines, noSpace;
      pos, attempts, sent := 0, 0, [];
    }

    /** The blocks of a partition sent or waiting in `store`. */
    ghost function Arrived(partition: nat, store: seq<RowBlock>): seq<RowBlock>
      reads this`sent
    {
      SentTo(sent, partition) + store
    }

    method OutOfSpace() returns (full: bool)
      modifies this`attempts
    {
      full := noSpace(attempts);
      attempts := attempts + 1;
    }

    method SendData(partition: nat, blocks: seq<RowBlock>)
      modifies this`sent
      ensures SentTo(sent, partition) == old(SentTo(sent, partition)) + blocks
      ensures forall p :: p != partition ==> SentTo(sent, p) == old(SentTo(sent, p))
    {
      forall p ensures SentTo(sent + [Batch(partition, blocks)], p)
                    == SentTo(sent, p) + if p == partition then blocks else [] {
        SentToAppend(sent, Batch(partition, blocks), p);
      }
      sent := sent + [Batch(partition, blocks)];
    }

    /** allocateMyData: a block of empty rows; if there is no space the store is sent first. */
    method AllocateMyData(store0: seq<RowBlock>, partition: nat, x: nat, numXBlocks: nat, blockX: nat, size: nat)
      returns (store: seq<RowBlock>, myData: RowBlock)
      requires blockX > 0 && numXBlocks == NumBlocks(size, blockX)
      modifies this`attempts, this`sent
      ensures myData == RowBlock(x, EmptyRows(HeightOf(size, blockX, x)))
      ensures Arrived(partition, store) == old(Arrived(partition, store0))
      ensures forall p :: p != partition ==> SentTo(sent, p) == old(SentTo(sent, p))
    {
      var remainder := size % blockX;
      var curBlockRows := if x == numXBlocks - 1 && remainder != 0 then remainder else blockX;
      store := store0;
      var full := OutOfSpace();
      if full {
        SendData(partition, store);
        store := [];
      }
      myData := RowBlock(x, EmptyRows(curBlockRows));
    }

    /** pushBackMyDataToStoreMatrix. */
    method PushBackMyData(store0: seq<RowBlock>, myData: RowBlock, partition: nat) returns (store: seq<RowBlock>)
      modifies this`attempts, this`sent
      ensures Arrived(partition, store) == old(Arrived(partition, store0)) + [myData]
      ensures forall p :: p != partition ==> SentTo(sent, p) == old(SentTo(sent, p))
    {
      store := store0;
      var full := OutOfSpace();
      if full {
        SendData(partition, store);
        store := [];
      }
      store := store + [myData];
    }

    /** The counters of the loop over a partition's lines. */
    method TakeLine(line: Line, store0: seq<RowBlock>, current: Option<RowBlock>, x: nat, row: nat, height: nat,
                    partition: nat, size: nat, blockX: nat, numXBlocks: nat, ghost mine: seq<Line>, ghost done: nat)
      returns (store: seq<RowBlock>, myData: Option<RowBlock>, xBlockCounter: nat, xBlockRowCounter: nat,
               curBlockRows: nat)
      requires blockX > 0 && numXBlocks == NumBlocks(size, blockX)
      requires LoopAt(mine, size, blockX, x, row, done, height, current)
      requires done < |mine| && line == mine[done]
      modifies this`attempts, this`sent
      ensures LoopAt(mine, size, blockX, xBlockCounter, xBlockRowCounter, done + 1, curBlockRows, myData)
      ensures xBlockCounter == x || xBlockCounter == x + 1
      ensures Arrived(partition, store)
           == old(Arrived(partition, store0)) + if xBlockCounter > x then [BlockFor(mine, size, blockX, x)] else []
      ensures forall p :: p != partition ==> SentTo(sent, p) == old(SentTo(sent, p))
    {
      store, xBlockCounter, xBlockRowCounter, curBlockRows := store0, x, row, height;
      var block;
      if current.None? {
        store, block := AllocateMyData(store, partition, x, numXBlocks, blockX, size);
        curBlockRows := |block.rows|;
      } else {
        block := current.value;
      }
      LineTaken(mine, size, blockX, x, row, done, height, current, block);
      block := block.(rows := block.rows[xBlockRowCounter := Some(line)]);
      myData := Some(block);
      xBlockRowCounter := xBlockRowCounter + 1;
      if xBlockRowCounter == curBlockRows {
        xBlockRowCounter := 0;
        store := PushBackMyData(store, block, partition);
        xBlockCounter := xBlockCounter + 1;
        myData := None;
      }
    }

    /** The file has ended: a block under way is pushed as it is. */
    method PushUnfinished(store0: seq<RowBlock>, myData: Option<RowBlock>, partition: nat, size: nat, blockX: nat,
                          ghost base: seq<RowBlock>, ghost mine: seq<Line>, ghost x: nat, ghost row: nat,
                          ghost height: nat)
      returns (store: seq<RowBlock>)
      requires blockX > 0 && LoopAt(mine, size, blockX, x, row, |mine|, height, myData)
      requires Arrived(partition, store0) == With(base, mine, size, blockX, x)
      modifies this`attempts, this`sent
      ensures Arrived(partition, store) == With(base, mine, size, blockX, NumBlocks(|mine|, blockX))
      ensures forall p :: p != partition ==> SentTo(sent, p) == old(SentTo(sent, p))
    {
      LoopDone(mine, size, blockX, x, row, height, myData);
      store := store0;
      if myData.Some? {
        WithNext(base, mine, size, blockX, x);
        store := PushBackMyData(store, myData.value, partition);
      }
    }

    /** The loop over one partition's lines. */
    method ReadPartition(partition: nat, size: nat, blockX: nat, ghost mine: seq<Line>) returns (store: seq<RowBlock>)
      requires blockX > 0 && pos <= |lines| && mine == lines[pos..pos + Min(size, |lines| - pos)]
      modifies this`attempts, this`sent, this`pos
      ensures pos == old(pos) + |mine|
      ensures Arrived(partition, store)
           == With(old(SentTo(sent, partition)), mine, size, blockX, NumBlocks(|mine|, blockX))
      ensures forall p :: p != partition ==> SentTo(sent, p) == old(SentTo(sent, p))
    {
      ghost var pos0, base := pos, SentTo(sent, partition);
      var numXBlocks := NumBlocks(size, blockX);
      store := [];
      var myData: Option<RowBlock> := None;
      var xBlockCounter: nat, xBlockRowCounter: nat, curBlockRows: nat := 0, 0, blockX;
      while true
        invariant pos0 <= pos <= pos0 + |mine|
        invariant LoopAt(mine, size, blockX, xBlockCounter, xBlockRowCounter, pos - pos0, curBlockRows, myData)
        invariant Arrived(partition, store) == With(base, mine, size, blockX, xBlockCounter)
        invariant forall p :: p != partition ==> SentTo(sent, p) == old(SentTo(sent, p))
        decreases |lines| - pos
      {
        if xBlockCounter >= numXBlocks {
          LoopDone(mine, size, blockX, xBlockCounter, xBlockRowCounter, curBlockRows, myData);
          break;
        }
        WithNext(base, mine, size, blockX, xBlockCounter);
        if pos == |lines| {
          store := PushUnfinished(store, myData, partition, size, blockX, base, mine, xBlockCounter, xBlockRowCounter,
                                  curBlockRows);
          break;
        }
        LinesRemain(mine, size, blockX, xBlockCounter, xBlockRowCounter, pos - pos0, curBlockRows, myData);
        pos := pos + 1;
        store, myData, xBlockCounter, xBlockRowCounter, curBlockRows :=
          TakeLine(lines[pos - 1], store, myData, xBlockCounter, xBlockRowCounter, curBlockRows,
                   partition, size, blockX, numXBlocks, mine, pos - 1 - pos0);
      }
    }

    method LoadPartition(partition: nat, size: nat, blockX: nat)
      requires blockX > 0 && pos <= |lines|
      modifies this`attempts, this`sent, this`pos
      ensures pos == old(pos) + Min(size, |lines| - old(pos))
      ensures SentTo(sent, partition) == old(SentTo(sent, partition)) + PartitionBlocks(lines[old(pos)..], size, blockX)
      ensures forall p :: p != partition ==> SentTo(sent, p) == old(SentTo(sent, p))
    {
      ghost var mine := lines[pos..pos + Min(size, |lines| - pos)];
      assert mine == lines[pos..][..Min(size, |lines| - pos)];
      var store := ReadPartition(partition, size, blockX, mine);
      if |store| > 0 {
        SendData(partition, store);
      }
    }

    /** loadMatrixGenericFromFile on a csv file: however the space runs out, the rows received are the
        first `totalX` lines, each once and in order. */
    method LoadMatrixGenericFromFile(totalX: nat, blockX: nat, numPartitions: nat)
      requires numPartitions > 0 && blockX > 0 && pos == 0 && sent == []
      modifies this`attempts, this`sent, this`pos
      ensures forall i: nat :: i < numPartitions ==> SentTo(sent, i) == Expected(lines, totalX, blockX,
                                                                                 numPartitions, i)
      ensures forall i: nat :: i >= numPartitions ==> SentTo(sent, i) == []
      ensures pos == Min(totalX, |lines|)
      ensures RowsReceived(sent, numPartitions) == lines[..Min(totalX, |lines|)]
    {
      var partitionSize, remainderPartitionSize;
      if numPartitions == 1 {
        partitionSize, remainderPartitionSize := totalX, totalX;
      } else {
        partitionSize := totalX / numPartitions;
        remainderPartitionSize := totalX - partitionSize * (numPartitions - 1);
      }
      var i := 0;
      while i < numPartitions
        invariant 0 <= i <= numPartitions
        invariant pos == Min(LinesBefore(totalX, numPartitions, i), |lines|)
        invariant forall k: nat :: k < i ==> SentTo(sent, k) == Expected(lines, totalX, blockX, numPartitions, k)
        invariant forall k: nat :: i <= k ==> SentTo(sent, k) == []
      {
        SizesAddUp(totalX, numPartitions, i);
        var size := if i == numPartitions - 1 then remainderPartitionSize else partitionSize;
        assert size == PartitionSize(totalX, numPartitions, i);
        LoadPartition(i, size, blockX);
        i := i + 1;
      }
      SizesAddUp(totalX, numPartitions, numPartitions);
      ReceivedAsExpected(sent, lines, totalX, blockX, numPartitions, numPartitions);
      RowsAreConserved(lines, totalX, blockX, numPartitions);
    }
  }

  /** The rows the first `n` sets have received, in partition and dispatch order. */
  function RowsReceived(sent: seq<Batch>, n: nat): seq<Line> {
    if n == 0 then [] else RowsReceived(sent, n - 1) + RowsOf(SentTo(sent, n - 1))
  }

  lemma {:induction false} ReceivedAsExpected(sent: seq<Batch>, lines: seq<Line>, totalX: nat, blockX: nat, n: nat,
                                              i: nat)
    requires blockX > 0 && i <= n
    requires forall k: nat :: k < n ==> SentTo(sent, k) == Expected(lines, totalX, blockX, n, k)
    ensures RowsReceived(sent, i) == RowsBefore(lines, totalX, blockX, n, i)
  {
    if i > 0 {
      var last: nat := i - 1;
      ReceivedAsExpected(sent, lines, totalX, blockX, n, last);
      assert RowsReceived(sent, i) == RowsReceived(sent, last) + RowsOf(SentTo(sent, last));
    }
  }

  /** What partition `i` should receive. */
  function Expected(lines: seq<Line>, totalX: nat, blockX: nat, n: nat, i: nat): seq<RowBlock>
    requires blockX > 0 && i < n
  {
    SizesAddUp(totalX, n, i);
    PartitionBlocks(lines[Min(LinesBefore(totalX, n, i), |lines|)..], PartitionSize(totalX, n, i), blockX)
  }

  /** The rows of the first `n` partitions, in partition order. */
  function RowsBefore(lines: seq<Line>, totalX: nat, blockX: nat, n: nat, i: nat): seq<Line>
    requires blockX > 0 && i <= n
  {
    if i == 0 then [] else RowsBefore(lines, totalX, blockX, n, i - 1) + RowsOf(Expected(lines, totalX, blockX, n,
                                                                                         i - 1))
  }

  lemma {:induction false} PartitionsHoldPrefix(lines: seq<Line>, totalX: nat, blockX: nat, n: nat, i: nat)
    requires blockX > 0 && n > 0 && i <= n
    ensures 0 <= LinesBefore(totalX, n, i)
    ensures RowsBefore(lines, totalX, blockX, n, i) == lines[..Min(LinesBefore(totalX, n, i), |lines|)]
  {
    if i > 0 {
      PartitionsHoldPrefix(lines, totalX, blockX, n, i - 1);
      SizesAddUp(totalX, n, i - 1);
      PrefixGrows(lines, Min(LinesBefore(totalX, n, i - 1), |lines|), PartitionSize(totalX, n, i - 1), blockX);
    }
  }

  lemma PrefixGrows(lines: seq<Line>, from: nat, size: nat, blockX: nat)
    requires blockX > 0 && from <= |lines|
    ensures lines[..from] + RowsOf(PartitionBlocks(lines[from..], size, blockX)) == lines[..Min(from + size, |lines|)]
  {
    PartitionHoldsItsLines(lines[from..], size, blockX);
    PrefixAndMore(lines, from, Min(size, |lines| - from));
  }

  lemma PrefixAndMore<T>(s: seq<T>, from: nat, n: nat)
    requires from + n <= |s|
    ensures s[..from] + s[from..][..n] == s[..from + n]
  {
  }

  /** The blocks the partitions should receive together hold exactly the first `totalX` lines (all of them
      when the file is shorter), each once and in order. */
  lemma RowsAreConserved(lines: seq<Line>, totalX: nat, blockX: nat, n: nat)
    requires blockX > 0 && n > 0
    ensures RowsBefore(lines, totalX, blockX, n, n) == lines[..Min(totalX, |lines|)]
  {
    SizesAddUp(totalX, n, n);
    PartitionsHoldPrefix(lines, totalX, blockX, n, n);
  }

  /** With enough lines, every partition gets its share in blocks of full height but for a remainder. */
  lemma PartitionsAreShaped(lines: seq<Line>, totalX: nat, blockX: nat, n: nat, i: nat)
    requires blockX > 0 && i < n && |lines| >= totalX
    ensures PartitionSize(totalX, n, i) >= 0
    ensures var blocks, size := Expected(lines, totalX, blockX, n, i), PartitionSize(totalX, n, i);
            && |blocks| == NumBlocks(size, blockX) && Heights(blocks) == size
            && forall k :: 0 <= k < |blocks| ==>
                 && blocks[k].index == k && None !in blocks[k].rows
                 && (k + 1 < |blocks| ==> |blocks[k].rows| == blockX) && 0 < |blocks[k].rows| <= blockX
  {
    SizesAddUp(totalX, n, i);
    LinesSuffice(totalX, n, i);
    PartitionShape(lines[Min(LinesBefore(totalX, n, i), |lines|)..], PartitionSize(totalX, n, i), blockX);
  }

  lemma {:induction false} LinesSuffice(totalX: nat, n: nat, i: nat)
    requires i < n
    ensures 0 <= LinesBefore(totalX, n, i) <= LinesBefore(totalX, n, i) + PartitionSize(totalX, n, i) <= totalX
    decreases n - i
  {
    SizesAddUp(totalX, n, i);
    if i + 1 < n {
      LinesSuffice(totalX, n, i + 1);
    }
  }
}
