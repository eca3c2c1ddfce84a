/** What holds in every reachable state of the buffer manager. */
module PoolInvariant {
  import opened Commons
  import opened BufferTypes
  import opened PoolModel

  ghost predicate Owns(s: Pool, older p: Page, f: Frame) {
    p in s.pages && s.pages[p].bytes == Some(f)
  }

  /** The frames in availableRam and the frames of the pages are exactly the frames of the
      constructor, each in one place only. */
  ghost predicate FramesOk(s: Pool) {
    && |s.ram| == s.numPages < TWO_TO_THE_64
    && (forall i :: 0 <= i < |s.availableRam| ==> s.availableRam[i] < s.numPages)
    && (forall i, j :: 0 <= i < j < |s.availableRam| ==> s.availableRam[i] != s.availableRam[j])
    && (forall p, f: Frame :: Owns(s, p, f) ==> f < s.numPages && f !in s.availableRam)
    && (forall p, q, f: Frame :: Owns(s, p, f) && Owns(s, q, f) ==> p == q)
    && (forall f: Frame :: f < s.numPages && f !in s.availableRam ==> exists p :: p in s.pages && Owns(s, p, f))
  }

  ghost predicate SameTick(s: Pool, older p: Page, older q: Page) {
    p in s.pages && q in s.pages && s.pages[p].timeTick == s.pages[q].timeTick
  }

  ghost predicate TicksOk(s: Pool) {
    && 0 <= s.lastTimeTick < TWO_TO_THE_63
    && (forall p :: p in s.pages ==> s.pages[p].timeTick == -1 || 1 <= s.pages[p].timeTick <= s.lastTimeTick)
    && (forall p, q :: SameTick(s, p, q) && p != q ==> s.pages[p].timeTick == -1)
  }

  function Window(s: Pool): int {
    if s.numPages / 2 > 1 then s.numPages / 2 else 1
  }

  /** lastUsed holds the resident pages that are not pinned (those in `unlisted` aside), and the tick
      of each is less than a window away from its last access. */
  ghost predicate LruOk(s: Pool, unlisted: set<Page>) {
    && s.lastUsed <= s.pages.Keys && s.pinned <= s.pages.Keys
    && (forall p :: p in s.pages && p !in unlisted ==>
          (p in s.lastUsed <==> s.pages[p].bytes.Some? && p !in s.pinned))
    && (forall p :: p in unlisted ==> p !in s.lastUsed)
    && (forall p :: p in s.pinned ==> s.pages[p].bytes.Some?)
    && (forall p :: p in s.lastUsed ==>
          && s.pages[p].timeTick >= 1 && p in s.accessedAt
          && s.pages[p].timeTick <= s.accessedAt[p] <= s.lastTimeTick
          && s.accessedAt[p] < s.pages[p].timeTick + Window(s))
  }

  /** refCount is the number of handles; a page without handles (those in `unheld` aside) is a table
      page kept in lastUsed. */
  ghost predicate RefsOk(s: Pool, unheld: set<Page>) {
    && (forall p :: p in s.handles ==> p in s.pages)
    && (forall p :: p in s.pages ==> s.pages[p].refCount == s.handles[p])
    && (forall p :: p in s.pages && p !in unheld && s.pages[p].refCount == 0 ==>
          p in s.lastUsed && s.pages[p].slot.TableSlot?)
  }

  /** allPages is the index of the live table pages by slot. */
  ghost predicate IndexOk(s: Pool) {
    && (forall k :: k in s.allPages ==>
          k.TableSlot? && s.allPages[k] in s.pages && s.pages[s.allPages[k]].slot == k)
    && (forall p :: p in s.pages && s.pages[p].slot.TableSlot? ==>
          s.pages[p].slot in s.allPages && s.allPages[s.pages[p].slot] == p)
  }

  ghost predicate UsesPos(s: Pool, older p: Page, pos: nat) {
    p in s.pages && s.pages[p].slot == TempSlot(pos)
  }

  ghost function LiveTemps(s: Pool): set<Page> {
    set p | p in s.pages && s.pages[p].slot.TempSlot?
  }

  /** The live temporary pages and availablePositions share out the positions below lastTempPos. */
  ghost predicate TempsOk(s: Pool) {
    && (forall pos :: pos in s.availablePositions ==> pos < s.lastTempPos && s.availablePositions[pos] == 1)
    && (forall p, pos: nat :: UsesPos(s, p, pos) ==> pos < s.lastTempPos && pos !in s.availablePositions)
    && (forall p, q, pos: nat :: UsesPos(s, p, pos) && UsesPos(s, q, pos) ==> p == q)
    && (forall pos: nat :: pos < s.lastTempPos && pos !in s.availablePositions ==>
          exists p :: p in s.pages && UsesPos(s, p, pos))
  }

  /** A page without RAM is clean, and a clean page in RAM equals its slot on disk, unless the client has
      stored into it and not called wroteBytes since. */
  ghost predicate SyncOk(s: Pool) {
    && |s.ram| == s.numPages
    && s.unwritten <= s.pages.Keys
    && (forall p :: p in s.unwritten ==> s.pages[p].slot.TempSlot? && s.pages[p].bytes.Some?)
    && s.stored <= s.pages.Keys && (forall p :: p in s.stored ==> s.pages[p].bytes.Some?)
    && (forall p :: p in s.pages && s.pages[p].bytes.None? ==> !s.pages[p].isDirty)
    && (forall p, f: Frame :: Owns(s, p, f) && f < s.numPages && !s.pages[p].isDirty
                              && p !in s.unwritten && p !in s.stored ==>
          s.ram[f] == DiskRead(s.disk, s.pages[p].slot))
  }

  /** If a page has to give up its RAM, it is not one the client has stored into and not announced. */
  ghost predicate SparesStored(s: Pool) {
    s.availableRam == [] ==> forall v :: v in s.stored ==> !IsOldest(s, v)
  }

  ghost predicate RamInv(s: Pool) {
    FramesOk(s) && SyncOk(s)
  }

  ghost predicate LruInv(s: Pool, unlisted: set<Page>, unheld: set<Page>) {
    TicksOk(s) && LruOk(s, unlisted) && RefsOk(s, unheld)
  }

  ghost predicate SlotInv(s: Pool) {
    IndexOk(s) && TempsOk(s) && |LiveTemps(s)| + |s.availablePositions| == s.lastTempPos
  }

  ghost predicate Inv(s: Pool) {
    RamInv(s) && LruInv(s, {}, {}) && SlotInv(s)
  }

  lemma InitialInv(ram: seq<Bytes>, disk: map<Slot, Bytes>)
    requires |ram| < TWO_TO_THE_64
    ensures Inv(InitialPool(ram, disk))
  {
    var s := InitialPool(ram, disk);
    forall f: Frame | f < s.numPages ensures f in s.availableRam {
      assert s.availableRam[f] == f;
    }
  }
}
