/** The calls a client can make, and the theorem that every call keeps the invariant. */
module PoolSteps {
  import opened Commons
  import opened BufferTypes
  import opened PoolModel
  import opened PoolInvariant
  import opened PoolRam
  import opened PoolLru
  import opened PoolSlots

  /** A client's call.  CallWrite is getBytes, a store and wroteBytes with nothing in between.  CallStore
      is a store through a pointer kept from an earlier getBytes, with any calls in between, and
      CallWroteBytes announces it later.  `p` is the page of the handle used or, for the get operations,
      the page object that is made if the call needs a new one. */
  datatype Call =
    | CallGetPage(slot: Slot, p: Page)
    | CallGetTempPage(p: Page)
    | CallGetPinnedPage(slot: Slot, p: Page)
    | CallGetPinnedTempPage(p: Page)
    | CallGetBytes(p: Page)
    | CallWrite(p: Page, data: Bytes)
    | CallStore(p: Page, data: Bytes)
    | CallWroteBytes(p: Page)
    | CallUnpin(p: Page)
    | CallFlush(p: Page)
    | CallDrop(p: Page)

  ghost predicate HasRoom(s: Pool) {
    s.availableRam != [] || s.lastUsed != {}
  }

  ghost predicate Buffered(s: Pool, slot: Slot) {
    slot in s.allPages && s.allPages[slot] in s.pages && s.pages[s.allPages[slot]].bytes.Some?
  }

  /** A page can be loaded without losing a store. */
  ghost predicate RoomToLoad(s: Pool) {
    HasRoom(s) && SparesStored(s)
  }

  /** What the code asks of a call: new page objects are new, handles are live, only pinned pages are
      unpinned, not all RAM is pinned when a page must be loaded, and the clock does not overflow.  A
      pointer is good only while the page is resident, and a store is announced before the page is
      evicted. */
  ghost predicate Allowed(s: Pool, c: Call) {
    && s.lastTimeTick + 1 < TWO_TO_THE_63
    && match c
       case CallGetPage(slot, p) => slot.TableSlot? && (slot in s.allPages || p !in s.pages)
       case CallGetTempPage(p) => p !in s.pages
       case CallGetPinnedPage(slot, p) => && slot.TableSlot? && (slot in s.allPages || p !in s.pages)
                                          && (Buffered(s, slot) || RoomToLoad(s))
       case CallGetPinnedTempPage(p) => p !in s.pages && RoomToLoad(s)
       case CallGetBytes(p) => p in s.handles && p in s.pages && (s.pages[p].bytes.Some? || RoomToLoad(s))
       case CallWrite(p, _) => p in s.handles && p in s.pages && (s.pages[p].bytes.Some? || RoomToLoad(s))
       case CallStore(p, _) => p in s.handles && p in s.pages && s.pages[p].bytes.Some?
       case CallWroteBytes(p) => p in s.handles && p in s.pages && s.pages[p].bytes.Some?
       case CallUnpin(p) => p in s.handles && p in s.pinned
       case CallFlush(p) => p in s.handles
       case CallDrop(p) => p in s.handles
  }

  /** getBytes, store through the pointer, wroteBytes. */
  ghost predicate CanWrite(s: Pool, p: Page) {
    && CanAccess(s, p)
    && var s1 := Access(s, p);
       p in s1.pages && s1.pages[p].bytes.Some? && s1.pages[p].bytes.value < |s1.ram|
  }

  ghost function Write(s: Pool, p: Page, data: Bytes): Pool
    requires CanWrite(s, p)
  {
    Store(Access(s, p), p, data)
  }

  /** In particular it is the three calls one after the other. */
  lemma WriteIsThreeCalls(s: Pool, p: Page, data: Bytes)
    requires CanWrite(s, p)
    ensures Write(s, p, data) == WroteBytes(Poke(Access(s, p), p, data), p)
  {
  }

  /** The operation behind each call is defined. */
  ghost predicate CanStep(s: Pool, c: Call) {
    match c
    case CallGetPage(slot, p) => slot in s.allPages ==> s.allPages[slot] in s.pages
    case CallGetTempPage(p) => true
    case CallGetPinnedPage(slot, p) => CanGetPinnedPage(s, slot, p)
    case CallGetPinnedTempPage(p) => CanGetPinnedTempPage(s)
    case CallGetBytes(p) => CanAccess(s, p)
    case CallWrite(p, _) => CanWrite(s, p)
    case CallStore(p, _) => p in s.pages && s.pages[p].bytes.Some? && s.pages[p].bytes.value < |s.ram|
    case CallWroteBytes(p) => p in s.pages
    case CallUnpin(p) => p in s.pages
    case CallFlush(p) => p in s.pages && (s.pages[p].bytes.Some? ==> s.pages[p].bytes.value < |s.ram|)
    case CallDrop(p) => p in s.pages
  }

  ghost function Step(s: Pool, c: Call): Pool
    requires CanStep(s, c)
  {
    match c
    case CallGetPage(slot, p) => GetPage(s, slot, p)
    case CallGetTempPage(p) => GetTempPage(s, p)
    case CallGetPinnedPage(slot, p) => GetPinnedPage(s, slot, p)
    case CallGetPinnedTempPage(p) => GetPinnedTempPage(s, p)
    case CallGetBytes(p) => Access(s, p)
    case CallWrite(p, data) => Write(s, p, data)
    case CallStore(p, data) => Poke(s, p, data)
    case CallWroteBytes(p) => WroteBytes(s, p)
    case CallUnpin(p) => Promote(s, p)
    case CallFlush(p) => Flush(s, p)
    case CallDrop(p) => DropHandle(s, p)
  }

  // ---------- every allowed call is defined ----------

  lemma RoomCanBeMade(s: Pool)
    requires FramesOk(s) && LruOk(s, {}) && RoomToLoad(s)
    ensures s.availableRam == [] ==> CanKickOut(s) && Oldest(s) !in s.stored
  {
    if s.availableRam == [] {
      CanKickOutIfListed(s);
    }
  }

  /** A page found without RAM was not listed, so that there is as much room as before. */
  lemma RoomWhenFound(s: Pool, slot: Slot, p: Page)
    requires FramesOk(s) && LruOk(s, {}) && IndexOk(s) && (slot in s.allPages || p !in s.pages) && RoomToLoad(s)
    requires slot in s.allPages ==> s.pages[s.allPages[slot]].bytes.None?
    requires FramesOk(FindForPinning(s, slot, p))
    ensures var s1 := FindForPinning(s, slot, p);
            s1.availableRam == [] ==> CanKickOut(s1) && Oldest(s1) !in s1.stored
  {
    var s1 := FindForPinning(s, slot, p);
    assert s1.lastUsed == s.lastUsed;
    if s1.availableRam == [] {
      CanKickOutIfListed(s1);
      assert IsOldest(s, Oldest(s1));
    }
  }

  lemma CanGetPinned(s: Pool, slot: Slot, p: Page)
    requires RamInv(s) && LruOk(s, {}) && SlotInv(s)
    requires slot.TableSlot? && (slot in s.allPages || p !in s.pages) && (Buffered(s, slot) || RoomToLoad(s))
    ensures CanGetPinnedPage(s, slot, p)
    ensures RamInv(GetPinnedPage(s, slot, p))
  {
    FindForPinningRam(s, slot, p);
    FindForPinningSlots(s, slot, p);
    LivePagesHaveTheirOwnSlots(FindForPinning(s, slot, p));
    if !Buffered(s, slot) {
      RoomWhenFound(s, slot, p);
    }
    PinFoundRam(FindForPinning(s, slot, p), if slot in s.allPages then s.allPages[slot] else p);
  }

  lemma CanGetBytes(s: Pool, p: Page)
    requires RamInv(s) && LruOk(s, {}) && SlotsDiffer(s) && p in s.pages
    requires s.pages[p].bytes.Some? || RoomToLoad(s)
    ensures CanAccess(s, p) && RamInv(Access(s, p))
    ensures p in Access(s, p).pages && Access(s, p).pages[p].bytes.Some?
  {
    if s.pages[p].bytes.None? {
      RoomCanBeMade(s);
    }
    AccessRam(s, p);
    if s.pages[p].bytes.None? && s.availableRam == [] {
      assert p !in s.lastUsed;
    }
  }

  lemma WriteRam(s: Pool, p: Page, data: Bytes)
    requires RamInv(s) && LruOk(s, {}) && SlotsDiffer(s) && p in s.pages
    requires s.pages[p].bytes.Some? || RoomToLoad(s)
    ensures CanWrite(s, p) && RamInv(Write(s, p, data))
  {
    CanGetBytes(s, p);
    StoreRam(Access(s, p), p, data);
  }

  lemma StepRam(s: Pool, c: Call)
    requires RamInv(s) && LruOk(s, {}) && RefsOk(s, {}) && SlotInv(s) && Allowed(s, c)
    ensures CanStep(s, c) && RamInv(Step(s, c))
  {
    LivePagesHaveTheirOwnSlots(s);
    match c
    case CallGetPage(slot, p) => GetPageSlots(s, slot, p); GetPageRam(s, slot, p);
    case CallGetTempPage(p) => GetTempPageRam(s, p);
    case CallGetPinnedPage(slot, p) => CanGetPinned(s, slot, p);
    case CallGetPinnedTempPage(p) => RoomCanBeMade(s); GetPinnedTempPageRam(s, p);
    case CallGetBytes(p) => CanGetBytes(s, p);
    case CallWrite(p, data) => WriteRam(s, p, data);
    case CallStore(p, data) => PokeRam(s, p, data);
    case CallWroteBytes(p) => WroteBytesRam(s, p);
    case CallUnpin(p) => PromoteRam(s, p);
    case CallFlush(p) => if s.pages[p].bytes.Some? { WriteBackRam(s, p); }
    case CallDrop(p) => DropHandleRam(s, p);
  }

  lemma StepLru(s: Pool, c: Call)
    requires LruInv(s, {}, {}) && s.numPages < TWO_TO_THE_64 && Allowed(s, c) && CanStep(s, c)
    ensures LruInv(Step(s, c), {}, {})
  {
    match c
    case CallGetPage(slot, p) => GetPageLru(s, slot, p);
    case CallGetTempPage(p) => GetTempPageLru(s, p);
    case CallGetPinnedPage(slot, p) => GetPinnedPageLru(s, slot, p);
    case CallGetPinnedTempPage(p) => GetPinnedTempPageLru(s, p);
    case CallGetBytes(p) => AccessLru(s, p);
    case CallWrite(p, data) => AccessLru(s, p); StoreLru(Access(s, p), p, data);
    case CallStore(p, data) => PokeLru(s, p, data);
    case CallWroteBytes(p) => WroteBytesLru(s, p);
    case CallUnpin(p) => UnpinLru(s, p);
    case CallFlush(p) => if s.pages[p].bytes.Some? { FlushLru(s, p); }
    case CallDrop(p) => DropHandleLru(s, p);
  }

  /** The calls that leave the temporary file as long as it is. */
  lemma OtherStepSlots(s: Pool, c: Call)
    requires SlotInv(s) && Allowed(s, c) && CanStep(s, c) && !c.CallGetTempPage? && !c.CallGetPinnedTempPage?
    ensures SlotInv(Step(s, c)) && Step(s, c).lastTempPos == s.lastTempPos
  {
    match c
    case CallGetPage(slot, p) => GetPageSlots(s, slot, p);
    case CallGetPinnedPage(slot, p) => FindForPinningSlots(s, slot, p);
      PinFoundSlots(FindForPinning(s, slot, p), if slot in s.allPages then s.allPages[slot] else p);
    case CallGetBytes(p) => AccessSlots(s, p);
    case CallWrite(p, data) => AccessSlots(s, p); SameSlots(Access(s, p), Write(s, p, data));
    case CallStore(p, data) => SameSlots(s, Poke(s, p, data));
    case CallWroteBytes(p) => SameSlots(s, WroteBytes(s, p));
    case CallUnpin(p) => SameSlots(s, Promote(s, p));
    case CallFlush(p) => SameSlots(s, Flush(s, p));
    case CallDrop(p) => DropHandleSlots(s, p);
  }

  lemma StepSlots(s: Pool, c: Call)
    requires SlotInv(s) && Allowed(s, c) && CanStep(s, c)
    ensures SlotInv(Step(s, c))
    ensures var s1 := Step(s, c);
            s1.lastTempPos == if |LiveTemps(s1)| > s.lastTempPos then |LiveTemps(s1)| else s.lastTempPos
  {
    match c
    case CallGetTempPage(p) => GetTempPageSlots(s, p);
    case CallGetPinnedTempPage(p) => GetPinnedTempPageSlots(s, p);
    case _ => OtherStepSlots(s, c);
  }

  /** Every call the code allows is defined and keeps the invariant. */
  lemma StepKeepsInv(s: Pool, c: Call)
    requires Inv(s) && Allowed(s, c)
    ensures CanStep(s, c) && Inv(Step(s, c))
  {
    StepRam(s, c);
    StepLru(s, c);
    StepSlots(s, c);
  }
}
