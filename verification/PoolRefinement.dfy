/** The buffer pool refines a map from table slots to contents: only writes change what is seen. */
module PoolRefinement {
  import opened Commons
  import opened BufferTypes
  import opened PoolModel
  import opened PoolInvariant
  import opened PoolRam
  import PoolSlots
  import opened PoolSteps

  /** What a client sees through a handle on `p`. */
  ghost function View(s: Pool, p: Page): Bytes
    requires p in s.pages
  {
    match s.pages[p].bytes
    case Some(f) => if f < |s.ram| then s.ram[f] else []
    case None => DiskRead(s.disk, s.pages[p].slot)
  }

  /** The contents of a table slot: those of its live page, else those on disk. */
  ghost function Value(s: Pool, slot: Slot): Bytes {
    if slot in s.allPages && s.allPages[slot] in s.pages then View(s, s.allPages[slot])
    else DiskRead(s.disk, slot)
  }

  /** The disk holds the contents of every table slot. */
  ghost predicate WrittenBack(s: Pool, disk: map<Slot, Bytes>) {
    forall slot: Slot :: slot.TableSlot? ==> DiskRead(disk, slot) == Value(s, slot)
  }

  /** `p` is not a temporary page that came pinned and was never written. */
  ghost predicate Settled(s: Pool, p: Page) {
    p in s.pages && p !in s.unwritten
  }

  /** From `s` to `s1` nothing that a client can see has changed. */
  ghost predicate Unseen(s: Pool, s1: Pool, slot: Slot, p: Page) {
    && Value(s1, slot) == Value(s, slot)
    && (Settled(s, p) && p in s1.pages ==> Settled(s1, p) && View(s1, p) == View(s, p))
  }

  lemma EvictUnseen(s: Pool, v: Page, slot: Slot, p: Page)
    requires RamInv(s) && SlotsDiffer(s) && IndexOk(s) && v in s.pages && s.pages[v].bytes.Some? && v !in s.stored
    requires slot.TableSlot?
    ensures s.pages[v].bytes.value < |s.ram|
    ensures Unseen(s, Evict(s, v), slot, p)
  {
    FrameInRange(s, v);
    assert Owns(s, v, s.pages[v].bytes.value);
  }

  lemma KillUnseen(s: Pool, v: Page, slot: Slot, p: Page)
    requires IndexOk(s) && v in s.pages && slot.TableSlot?
    ensures Unseen(s, Kill(s, v), slot, p)
  {
  }

  lemma KickOutUnseen(s: Pool, slot: Slot, p: Page)
    requires RamInv(s) && SlotsDiffer(s) && IndexOk(s) && CanKickOut(s) && slot.TableSlot?
    requires Oldest(s) !in s.stored
    ensures Unseen(s, KickOut(s), slot, p)
  {
    var v := Oldest(s);
    EvictUnseen(s, v, slot, p);
    if s.pages[v].refCount == 0 {
      KillUnseen(Evict(s, v), v, slot, p);
      UnseenChains(s, Evict(s, v), KickOut(s), slot, p);
    }
  }

  lemma KickOutKeepsIndex(s: Pool)
    requires IndexOk(s) && CanKickOut(s)
    ensures IndexOk(KickOut(s))
  {
  }

  lemma ReadInUnseen(s: Pool, q: Page, slot: Slot, p: Page)
    requires RamInv(s) && IndexOk(s) && q in s.pages && s.pages[q].bytes.None? && s.availableRam != []
    requires slot.TableSlot?
    ensures s.availableRam[|s.availableRam| - 1] < |s.ram|
    ensures Unseen(s, ReadIn(TakeRam(s, q), q), slot, p)
  {
    var f := s.availableRam[|s.availableRam| - 1];
    if p in s.pages && s.pages[p].bytes.Some? {
      assert Owns(s, p, s.pages[p].bytes.value);
    }
    if slot in s.allPages && s.pages[s.allPages[slot]].bytes.Some? {
      assert Owns(s, s.allPages[slot], s.pages[s.allPages[slot]].bytes.value);
    }
  }

  /** Operations that leave bytes, slots, RAM and disk alone. */
  lemma SameUnseen(s: Pool, s1: Pool, slot: Slot, p: Page)
    requires s1.pages.Keys <= s.pages.Keys && s1.ram == s.ram && s1.disk == s.disk
    requires forall q :: q in s1.pages ==> s1.pages[q].bytes == s.pages[q].bytes && s1.pages[q].slot == s.pages[q].slot
    requires s1.allPages == s.allPages && s1.unwritten == s.unwritten
    requires slot in s.allPages ==> s.allPages[slot] in s1.pages
    ensures Unseen(s, s1, slot, p)
  {
  }

  lemma MakeRoomUnseen(s: Pool, slot: Slot, p: Page)
    requires RamInv(s) && SlotsDiffer(s) && IndexOk(s) && slot.TableSlot?
    requires s.availableRam == [] ==> CanKickOut(s) && Oldest(s) !in s.stored
    ensures RamInv(MakeRoom(s)) && IndexOk(MakeRoom(s)) && MakeRoom(s).availableRam != []
    ensures Unseen(s, MakeRoom(s), slot, p)
  {
    if s.availableRam == [] {
      KickOutRam(s);
      KickOutUnseen(s, slot, p);
      KickOutKeepsIndex(s);
    }
  }

  lemma LoadKeepsIndex(s: Pool, q: Page)
    requires IndexOk(s) && CanLoad(s, q)
    ensures IndexOk(Load(s, q))
  {
    if s.availableRam == [] {
      KickOutKeepsIndex(s);
    }
  }

  lemma LoadUnseen(s: Pool, q: Page, slot: Slot, p: Page)
    requires RamInv(s) && SlotsDiffer(s) && IndexOk(s) && q in s.pages && s.pages[q].bytes.None?
    requires CanLoad(s, q) && slot.TableSlot? && (s.availableRam == [] ==> Oldest(s) !in s.stored)
    ensures Unseen(s, Load(s, q), slot, p)
  {
    MakeRoomUnseen(s, slot, p);
    LoadAfterRoom(s, MakeRoom(s), q, slot, p);
  }

  lemma LoadAfterRoom(s: Pool, s1: Pool, q: Page, slot: Slot, p: Page)
    requires CanLoad(s, q) && s1 == MakeRoom(s) && Unseen(s, s1, slot, p)
    requires RamInv(s1) && IndexOk(s1) && s1.availableRam != [] && slot.TableSlot?
    requires q in s1.pages && s1.pages[q].bytes.None?
    ensures Unseen(s, Load(s, q), slot, p)
  {
    ReadInUnseen(s1, q, slot, p);
    UnseenChains(s, s1, Load(s, q), slot, p);
  }

  lemma UnseenChains(s: Pool, s1: Pool, s2: Pool, slot: Slot, p: Page)
    requires Unseen(s, s1, slot, p) && Unseen(s1, s2, slot, p) && s2.pages.Keys <= s1.pages.Keys
    ensures Unseen(s, s2, slot, p)
  {
  }

  lemma PromoteUnseen(s: Pool, q: Page, slot: Slot, p: Page)
    requires IndexOk(s) && q in s.pages
    ensures Unseen(s, Promote(s, q), slot, p)
  {
    SameUnseen(s, Promote(s, q), slot, p);
  }

  lemma LoadAndPromoteUnseen(s: Pool, q: Page, slot: Slot, p: Page)
    requires RamInv(s) && SlotsDiffer(s) && IndexOk(s) && q in s.pages && s.pages[q].bytes.None?
    requires CanLoad(s, q) && slot.TableSlot? && (s.availableRam == [] ==> Oldest(s) !in s.stored)
    ensures Unseen(s, Promote(Load(s, q), q), slot, p)
  {
    var s1 := Load(s, q);
    LoadUnseen(s, q, slot, p);
    LoadKeepsIndex(s, q);
    PromoteUnseen(s1, q, slot, p);
    UnseenChains(s, s1, Promote(s1, q), slot, p);
  }

  lemma AccessUnseen(s: Pool, q: Page, slot: Slot, p: Page)
    requires RamInv(s) && SlotsDiffer(s) && IndexOk(s) && CanAccess(s, q) && slot.TableSlot?
    requires s.pages[q].bytes.None? && s.availableRam == [] ==> Oldest(s) !in s.stored
    ensures Unseen(s, Access(s, q), slot, p)
  {
    if s.pages[q].bytes.None? {
      LoadAndPromoteUnseen(s, q, slot, p);
    }
    SameUnseen(s, Touch(s, q), slot, p);
    SameUnseen(s, Promote(s, q), slot, p);
  }

  lemma AddPageUnseen(s: Pool, newSlot: Slot, q: Page, slot: Slot, p: Page)
    requires IndexOk(s) && q !in s.pages && newSlot !in s.allPages && slot.TableSlot?
    ensures Unseen(s, NewPage(s, newSlot, q), slot, p)
    ensures Unseen(s, AddPage(s, newSlot, q), slot, p)
  {
  }

  lemma GetPageUnseen(s: Pool, newSlot: Slot, q: Page, slot: Slot, p: Page)
    requires IndexOk(s) && (newSlot in s.allPages || q !in s.pages) && slot.TableSlot?
    ensures newSlot in s.allPages ==> s.allPages[newSlot] in s.pages
    ensures Unseen(s, GetPage(s, newSlot, q), slot, p)
  {
    if newSlot in s.allPages {
      SameUnseen(s, GetPage(s, newSlot, q), slot, p);
    } else {
      AddPageUnseen(s, newSlot, q, slot, p);
    }
  }

  lemma GetTempPageUnseen(s: Pool, q: Page, slot: Slot, p: Page)
    requires IndexOk(s) && q !in s.pages && slot.TableSlot?
    ensures Unseen(s, GetTempPage(s, q), slot, p)
  {
    SameUnseen(s, TakePos(s), slot, p);
    AddPageUnseen(TakePos(s), TempSlot(NextPos(s)), q, slot, p);
  }

  lemma FindForPinningUnseen(s: Pool, newSlot: Slot, q: Page, slot: Slot, p: Page)
    requires IndexOk(s) && (newSlot in s.allPages || q !in s.pages) && slot.TableSlot?
    ensures Unseen(s, FindForPinning(s, newSlot, q), slot, p)
  {
    if newSlot in s.allPages {
      SameUnseen(s, FindForPinning(s, newSlot, q), slot, p);
    } else {
      AddPageUnseen(s, newSlot, q, slot, p);
    }
  }

  lemma PinFoundUnseen(s1: Pool, q: Page, slot: Slot, p: Page)
    requires RamInv(s1) && SlotsDiffer(s1) && IndexOk(s1) && CanAccess(s1, q) && slot.TableSlot?
    requires s1.pages[q].bytes.None? && s1.availableRam == [] ==> Oldest(s1) !in s1.stored
    ensures Unseen(s1, Pin(AddHandle(if s1.pages[q].bytes.None? then Load(s1, q) else s1, q), q), slot, p)
  {
    if s1.pages[q].bytes.None? {
      LoadUnseen(s1, q, slot, p);
      LoadKeepsIndex(s1, q);
      LoadMakesNoPages(s1, q);
      SameUnseen(Load(s1, q), Pin(AddHandle(Load(s1, q), q), q), slot, p);
    } else {
      SameUnseen(s1, Pin(AddHandle(s1, q), q), slot, p);
    }
  }

  lemma GetPinnedPageUnseen(s: Pool, newSlot: Slot, q: Page, slot: Slot, p: Page)
    requires RamInv(s) && LruOk(s, {}) && SlotInv(s) && (newSlot in s.allPages || q !in s.pages)
    requires CanGetPinnedPage(s, newSlot, q) && (Buffered(s, newSlot) || SparesStored(s))
    requires newSlot.TableSlot? && slot.TableSlot?
    ensures Unseen(s, GetPinnedPage(s, newSlot, q), slot, p)
  {
    var s1 := FindForPinning(s, newSlot, q);
    FindForPinningRam(s, newSlot, q);
    PoolSlots.FindForPinningSlots(s, newSlot, q);
    LivePagesHaveTheirOwnSlots(s1);
    FindForPinningUnseen(s, newSlot, q, slot, p);
    var r := if newSlot in s.allPages then s.allPages[newSlot] else q;
    if s1.pages[r].bytes.None? {
      LoadMakesNoPages(s1, r);
      assert s1.availableRam == [] ==> IsOldest(s, Oldest(s1));
    }
    PinFoundUnseen(s1, r, slot, p);
  }

  lemma PinNewTempUnseen(s: Pool, q: Page, slot: Slot, p: Page)
    requires IndexOk(s) && q !in s.pages && slot.TableSlot? && s.availableRam != []
    ensures var s1 := Pin(TakeRam(GetTempPage(s, q), q), q);
            Unseen(s, s1.(unwritten := s1.unwritten + {q}), slot, p)
  {
    GetTempPageUnseen(s, q, slot, p);
  }

  lemma GetPinnedTempPageUnseen(s: Pool, q: Page, slot: Slot, p: Page)
    requires RamInv(s) && SlotsDiffer(s) && IndexOk(s) && q !in s.pages && slot.TableSlot?
    requires CanGetPinnedTempPage(s) && (s.availableRam == [] ==> Oldest(s) !in s.stored)
    ensures Unseen(s, GetPinnedTempPage(s, q), slot, p)
  {
    MakeRoomUnseen(s, slot, p);
    MakeRoomMakesNoPages(s);
    PinNewTempUnseen(MakeRoom(s), q, slot, p);
    if p in s.pages && p !in MakeRoom(s).pages {
      assert p !in GetPinnedTempPage(s, q).pages;
    }
  }

  lemma WriteBackUnseen(s: Pool, q: Page, slot: Slot, p: Page)
    requires RamInv(s) && SlotsDiffer(s) && IndexOk(s) && q in s.pages && s.pages[q].bytes.Some?
    requires slot.TableSlot?
    ensures s.pages[q].bytes.value < |s.ram|
    ensures Unseen(s, WriteBack(s, q), slot, p)
  {
    FrameInRange(s, q);
  }

  lemma DropHandleUnseen(s: Pool, q: Page, slot: Slot, p: Page)
    requires IndexOk(s) && q in s.pages && slot.TableSlot?
    ensures Unseen(s, DropHandle(s, q), slot, p)
  {
    SameUnseen(s, Release(s, q), slot, p);
    KillUnseen(Release(s, q), q, slot, p);
  }

  /** A store is seen through its own page and slot only. */
  lemma StoreSeen(s: Pool, q: Page, data: Bytes, slot: Slot, p: Page)
    requires RamInv(s) && IndexOk(s) && q in s.pages && s.pages[q].bytes.Some? && slot.TableSlot?
    ensures s.pages[q].bytes.value < |s.ram|
    ensures var s1 := Store(s, q, data);
            && Settled(s1, q) && View(s1, q) == data
            && Value(s1, slot) == (if s.pages[q].slot == slot then data else Value(s, slot))
            && (Settled(s, p) && p != q ==> Settled(s1, p) && View(s1, p) == View(s, p))
  {
    FrameInRange(s, q);
    assert Owns(s, q, s.pages[q].bytes.value);
    if p in s.pages && s.pages[p].bytes.Some? {
      assert Owns(s, p, s.pages[p].bytes.value);
    }
    if slot in s.allPages && s.pages[s.allPages[slot]].bytes.Some? {
      assert Owns(s, s.allPages[slot], s.pages[s.allPages[slot]].bytes.value);
    }
  }

  /** So is a store that is not yet announced. */
  lemma PokeSeen(s: Pool, q: Page, data: Bytes, slot: Slot, p: Page)
    requires RamInv(s) && IndexOk(s) && q in s.pages && s.pages[q].bytes.Some? && slot.TableSlot?
    ensures s.pages[q].bytes.value < |s.ram|
    ensures var s1 := Poke(s, q, data);
            && Settled(s1, q) && View(s1, q) == data
            && Value(s1, slot) == (if s.pages[q].slot == slot then data else Value(s, slot))
            && (Settled(s, p) && p != q ==> Settled(s1, p) && View(s1, p) == View(s, p))
  {
    StoreSeen(s, q, data, slot, p);
    var s1, s2 := Poke(s, q, data), Store(s, q, data);
    assert s1.ram == s2.ram && s1.disk == s2.disk && s1.allPages == s2.allPages && s1.unwritten == s2.unwritten;
  }

  lemma WriteSeen(s: Pool, q: Page, data: Bytes, slot: Slot, p: Page)
    requires RamInv(s) && LruOk(s, {}) && SlotInv(s) && q in s.pages && slot.TableSlot?
    requires s.pages[q].bytes.Some? || RoomToLoad(s)
    ensures CanWrite(s, q)
    ensures var s1 := Write(s, q, data);
            && Settled(s1, q) && View(s1, q) == data
            && Value(s1, slot) == (if s.pages[q].slot == slot then data else Value(s, slot))
            && (Settled(s, p) && p in s1.pages && p != q ==> Settled(s1, p) && View(s1, p) == View(s, p))
  {
    LivePagesHaveTheirOwnSlots(s);
    CanGetBytes(s, q);
    AccessUnseen(s, q, slot, p);
    PoolSlots.AccessSlots(s, q);
    AccessKeepsSlot(s, q);
    StoreSeen(Access(s, q), q, data, slot, p);
  }

  lemma AccessKeepsSlot(s: Pool, q: Page)
    requires CanAccess(s, q)
    ensures q in Access(s, q).pages ==> Access(s, q).pages[q].slot == s.pages[q].slot
  {
    if s.pages[q].bytes.None? {
      LoadMakesNoPages(s, q);
    }
  }

  // ---------- one call ----------

  /** The write a call makes, if any: to which page, and through it to which slot. */
  ghost predicate Writes(s: Pool, c: Call, p: Page) {
    (c.CallWrite? || c.CallStore?) && c.p == p
  }

  ghost predicate WritesSlot(s: Pool, c: Call, slot: Slot) {
    (c.CallWrite? || c.CallStore?) && c.p in s.pages && s.pages[c.p].slot == slot
  }

  lemma QuietStep(s: Pool, c: Call, slot: Slot, p: Page)
    requires RamInv(s) && LruOk(s, {}) && SlotInv(s) && Allowed(s, c) && CanStep(s, c) && slot.TableSlot?
    requires !c.CallWrite? && !c.CallStore?
    ensures Unseen(s, Step(s, c), slot, p)
  {
    LivePagesHaveTheirOwnSlots(s);
    match c
    case CallGetPage(k, q) => GetPageUnseen(s, k, q, slot, p);
    case CallGetTempPage(q) => GetTempPageUnseen(s, q, slot, p);
    case CallGetPinnedPage(k, q) => GetPinnedPageUnseen(s, k, q, slot, p);
    case CallGetPinnedTempPage(q) => GetPinnedTempPageUnseen(s, q, slot, p);
    case CallGetBytes(q) => AccessUnseen(s, q, slot, p);
    case CallWroteBytes(q) => SameUnseen(s, WroteBytes(s, q), slot, p);
    case CallUnpin(q) => SameUnseen(s, Promote(s, q), slot, p);
    case CallFlush(q) => if s.pages[q].bytes.Some? { WriteBackUnseen(s, q, slot, p); }
    case CallDrop(q) => DropHandleUnseen(s, q, slot, p);
  }

  /** One call changes what a slot holds, or what a settled page shows, only by writing to it.  In
      particular evictions, flushes and handles that come and go cannot be seen. */
  lemma StepRefines(s: Pool, c: Call, slot: Slot, p: Page)
    requires Inv(s) && Allowed(s, c) && slot.TableSlot?
    ensures CanStep(s, c)
    ensures Value(Step(s, c), slot) == if WritesSlot(s, c, slot) then c.data else Value(s, slot)
    ensures Settled(s, p) && p in Step(s, c).pages ==>
              Settled(Step(s, c), p) && View(Step(s, c), p) == if Writes(s, c, p) then c.data else View(s, p)
    ensures Writes(s, c, p) ==> Settled(Step(s, c), p) && View(Step(s, c), p) == c.data
  {
    StepRam(s, c);
    if c.CallWrite? {
      WriteSeen(s, c.p, c.data, slot, p);
    } else if c.CallStore? {
      PokeSeen(s, c.p, c.data, slot, p);
    } else {
      QuietStep(s, c, slot, p);
    }
  }
}
