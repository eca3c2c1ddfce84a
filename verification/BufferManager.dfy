/** The buffer manager and its page handles as the classes of the source.  Every method is proved to
    compute the function of the same name in `PoolModel`. */
module BufferManagement {
  import opened Commons
  import opened BufferTypes
  import opened PoolModel
  import opened PoolInvariant
  import PoolRam
  import PoolLru
  import opened PoolSteps
  import opened PoolRefinement
  import PoolEffects
  import PoolPins

  /** Enough of the invariant for lookups in lastUsed to hit the intended page. */
  ghost predicate LookupsOk(s: Pool) {
    && TicksOk(s) && s.lastUsed <= s.pages.Keys
    && forall p :: p in s.lastUsed ==> s.pages[p].timeTick >= 1
  }

  /** A registered slot's contents are in its page's RAM or, if that is clean or absent, on disk. */
  ghost predicate SlotSynced(s: Pool, slot: Slot) {
    && slot.TableSlot? && slot in s.allPages && s.allPages[slot] in s.pages
    && var st := s.pages[s.allPages[slot]];
       && st.slot == slot
       && (st.bytes.Some? ==> st.bytes.value < |s.ram| && Value(s, slot) == s.ram[st.bytes.value])
       && (st.bytes.None? || !st.isDirty ==> Value(s, slot) == DiskRead(s.disk, slot))
  }

  /** Every store has been announced, or else the page is dirty anyway. */
  ghost predicate StoresAreDirty(s: Pool) {
    forall p :: p in s.stored && p in s.pages ==> s.pages[p].isDirty
  }

  lemma RegisteredSlotsAreSynced(s: Pool, slot: Slot)
    requires Inv(s) && StoresAreDirty(s) && slot in s.allPages
    ensures SlotSynced(s, slot)
  {
    var p := s.allPages[slot];
    if s.pages[p].bytes.Some? {
      assert Owns(s, p, s.pages[p].bytes.value);
    }
  }

  lemma OldestIsUnique(s: Pool, v: Page)
    requires LookupsOk(s) && IsOldest(s, v)
    ensures s.lastUsed != {} && v == Oldest(s)
  {
    if v != Oldest(s) {
      assert SameTick(s, v, Oldest(s));
    }
  }

  lemma LeastIsUnique(positions: multiset<nat>, pos: nat)
    requires IsLeast(positions, pos)
    ensures positions != multiset{} && pos == Least(positions)
  {
  }

  class BufferManager {
    const numPages: nat
    var ram: seq<Bytes>
    var availableRam: seq<Frame>
    var allPages: map<Slot, Page>
    var lastUsed: set<Page>
    var availablePositions: multiset<nat>
    var lastTempPos: nat
    var lastTimeTick: int
    var disk: map<Slot, Bytes>

    ghost var live: set<Page>
    ghost var handles: multiset<Page>
    ghost var pinned: set<Page>
    ghost var unwritten: set<Page>
    ghost var stored: set<Page>
    ghost var accessedAt: map<Page, int>

    ghost function Pages(): map<Page, PageState>
      reads this, live
    {
      map p | p in live :: PageState(p.slot, p.bytes, p.isDirty, p.timeTick, p.refCount)
    }

    ghost function State(): Pool
      reads this, live
    {
      Pool(numPages, ram, availableRam, Pages(), allPages, lastUsed, availablePositions, lastTempPos, lastTimeTick,
           disk,
           handles, pinned, unwritten, stored, accessedAt)
    }

    ghost predicate Valid()
      reads this, live
    {
      Inv(State())
    }

    /** `memory` is what the chunks of RAM hold when they are allocated. */
    constructor (memory: seq<Bytes>, disk: map<Slot, Bytes>)
      requires |memory| < TWO_TO_THE_64
      ensures Valid() && State() == InitialPool(memory, disk) && live == {}
    {
      numPages := |memory|;
      ram := memory;
      availableRam := [];
      allPages := map[];
      lastUsed := {};
      availablePositions := multiset{};
      lastTempPos := 0;
      lastTimeTick := 0;
      this.disk := disk;
      live, handles, pinned, unwritten, stored, accessedAt := {}, multiset{}, {}, {}, {}, map[];
      new;
      for i := 0 to numPages
        invariant availableRam == seq(i, k => k)
        invariant ram == memory && allPages == map[] && lastUsed == {} && availablePositions == multiset{}
        invariant lastTempPos == 0 && lastTimeTick == 0 && this.disk == disk
        invariant live == {} && handles == multiset{} && accessedAt == map[]
        invariant pinned == {} && unwritten == {} && stored == {}
      {
        availableRam := availableRam + [i];
      }
      InitialInv(memory, disk);
    }

    // ---------- lastUsed: a std::set ordered by CheckLRU ----------

    predicate CheckLru(lhs: Page, rhs: Page)
      reads lhs, rhs
    {
      lhs.timeTick < rhs.timeTick
    }

    predicate Equivalent(p: Page, q: Page)
      reads p, q
    {
      !CheckLru(p, q) && !CheckLru(q, p)
    }

    predicate LruHas(p: Page)
      reads this, lastUsed, p
    {
      exists q :: q in lastUsed && Equivalent(q, p)
    }

    /** Tick-keyed lookup finds exactly the listed pages. */
    lemma LookupIsMembership(p: Page)
      requires LookupsOk(State()) && p in live
      ensures LookupHits(p)
    {
      forall q | q in lastUsed && Equivalent(q, p) ensures q == p {
        assert SameTick(State(), q, p);
      }
    }

    method LruErase(p: Page)
      requires forall q :: q in lastUsed && Equivalent(q, p) ==> q == p
      modifies this`lastUsed
      ensures lastUsed == old(lastUsed) - {p}
    {
      lastUsed := set q | q in lastUsed && !Equivalent(q, p);
    }

    method LruInsert(p: Page)
      requires forall q :: q in lastUsed ==> !Equivalent(q, p)
      modifies this`lastUsed
      ensures lastUsed == old(lastUsed) + {p}
    {
      if !LruHas(p) {
        lastUsed := lastUsed + {p};
      }
    }

    /** `timeTick = ++lastTimeTick; lastUsed.insert(p)` */
    method TickAndInsert(p: Page)
      requires forall q :: q in lastUsed ==> q != p && q.timeTick <= lastTimeTick
      modifies this`lastUsed, this`lastTimeTick, p`timeTick
      ensures lastTimeTick == old(lastTimeTick) + 1 == p.timeTick
      ensures lastUsed == old(lastUsed) + {p}
    {
      lastTimeTick := lastTimeTick + 1;
      p.timeTick := lastTimeTick;
      LruInsert(p);
    }

    method DoPromote(p: Page)
      requires p in live && p !in lastUsed && lastUsed <= live
      requires forall q :: q in lastUsed ==> q.timeTick <= lastTimeTick
      modifies this`lastUsed, this`lastTimeTick, this`pinned, this`accessedAt, p`timeTick
      ensures State() == Promote(old(State()), p)
    {
      TickAndInsert(p);
      pinned, accessedAt := pinned - {p}, accessedAt[p := lastTimeTick];
      assert Pages() == old(Pages())[p := old(Pages()[p]).(timeTick := lastTimeTick)];
    }

    method DoWriteBack(p: Page)
      requires p in live && p.bytes.Some? && p.bytes.value < |ram|
      modifies `disk, p`isDirty
      ensures State() == WriteBack(old(State()), p)
    {
      if p.isDirty {
        disk := disk[p.slot := ram[p.bytes.value]];
        p.isDirty := false;
      }
    }

    ghost predicate LookupHits(p: Page)
      reads this, lastUsed, p
    {
      && (LruHas(p) <==> p in lastUsed)
      && forall q :: q in lastUsed && Equivalent(q, p) ==> q == p
    }

    ghost method Forget(p: Page)
      requires p in live
      modifies this`live, this`pinned, this`unwritten, this`stored
      ensures live == old(live) - {p} && pinned == old(pinned) - {p}
      ensures unwritten == old(unwritten) - {p} && stored == old(stored) - {p}
      ensures Pages() == old(Pages()) - {p}
    {
      live, pinned, unwritten, stored := live - {p}, pinned - {p}, unwritten - {p}, stored - {p};
    }

    method RecycleTemp(p: Page)
      requires LookupHits(p) && p.slot.TempSlot?
      modifies `availablePositions, `availableRam, `lastUsed
      ensures availablePositions == old(availablePositions) + multiset{p.slot.pos}
      ensures availableRam == old(availableRam) + (if p.bytes.Some? then [p.bytes.value] else [])
      ensures lastUsed == old(lastUsed) - {p}
    {
      availablePositions := availablePositions + multiset{p.slot.pos};
      if p.bytes.Some? {
        availableRam := availableRam + [p.bytes.value];
      }
      if LruHas(p) {
        LruErase(p);
      }
    }

    method KillTemp(p: Page)
      requires LookupHits(p) && p in live && p.slot.TempSlot?
      modifies `availablePositions, `availableRam, `lastUsed, `live, `pinned, `unwritten, `stored
      ensures State() == Kill(old(State()), p) && live <= old(live)
    {
      RecycleTemp(p);
      Forget(p);
    }

    method KillPage(p: Page)
      requires LookupsOk(State()) && p in live
      modifies this, p
      ensures State() == Kill(old(State()), p) && live <= old(live)
    {
      LookupIsMembership(p);
      TicksBounded();
      if p.slot.TempSlot? {
        KillTemp(p);
      } else if !LruHas(p) && p.bytes.Some? {
        DoPromote(p);
      } else if p.bytes.None? {
        allPages := allPages - {p.slot};
        live := live - {p};
        assert Pages() == old(Pages()) - {p};
      }
    }

    lemma TicksBounded()
      requires LookupsOk(State())
      ensures lastUsed <= live && forall q :: q in lastUsed ==> q.timeTick <= lastTimeTick
    {
      forall q | q in lastUsed ensures q.timeTick <= lastTimeTick {
        assert q in State().pages;
      }
    }

    // ---------- eviction and loading ----------

    method DoGiveUpRam(p: Page)
      requires p in live && p.bytes.Some? && LookupHits(p)
      modifies `lastUsed, `availableRam, `unwritten, p`bytes
      ensures State() == GiveUpRam(old(State()), p)
    {
      LruErase(p);
      availableRam := availableRam + [p.bytes.value];
      p.bytes := None;
      unwritten := unwritten - {p};
      assert Pages() == old(Pages())[p := old(Pages()[p]).(bytes := None)];
    }

    /** kickOutPage up to the reference count. */
    method DoEvict(p: Page)
      requires p in live && p.bytes.Some? && p.bytes.value < |ram| && LookupHits(p)
      modifies this, p
      ensures State() == Evict(old(State()), p) && live == old(live)
    {
      DoWriteBack(p);
      DoGiveUpRam(p);
    }

    method KickOutPage()
      requires LookupsOk(State()) && CanKickOut(State())
      modifies this, live
      ensures State() == KickOut(old(State())) && live <= old(live)
    {
      ghost var s := State();
      assert exists v :: v in lastUsed && forall q :: q in lastUsed ==> v.timeTick <= q.timeTick by {
        var w := Oldest(s);
        assert forall q :: q in lastUsed ==> w.timeTick <= s.pages[q].timeTick;
      }
      var page :| page in lastUsed && forall q :: q in lastUsed ==> page.timeTick <= q.timeTick;
      assert IsOldest(s, page);
      OldestIsUnique(s, page);
      LookupIsMembership(page);
      DoEvict(page);
      if page.refCount == 0 {
        EvictKeepsLookups(s, page);
        KillPage(page);
      }
    }

    /** Take the last chunk of available RAM and read the page into it. */
    method DoReadIn(p: Page)
      requires p in live && availableRam != [] && availableRam[|availableRam| - 1] < |ram|
      modifies `availableRam, `ram, p`bytes
      ensures State() == ReadIn(TakeRam(old(State()), p), p)
    {
      p.bytes := Some(availableRam[|availableRam| - 1]);
      availableRam := availableRam[..|availableRam| - 1];
      ram := ram[p.bytes.value := DiskRead(disk, p.slot)];
      assert Pages() == old(Pages())[p := old(Pages()[p]).(bytes := p.bytes)];
    }

    method MakeSpace()
      requires LookupsOk(State()) && (availableRam == [] ==> CanKickOut(State()))
      modifies this, live
      ensures State() == MakeRoom(old(State())) && live <= old(live)
    {
      if |availableRam| == 0 {
        KickOutPage();
      }
    }

    method DoLoad(p: Page)
      requires LookupsOk(State()) && CanLoad(State(), p)
      modifies this, live
      ensures State() == Load(old(State()), p) && live <= old(live)
    {
      MakeSpace();
      DoReadIn(p);
    }

    method Access(p: Page)
      requires LookupsOk(State()) && CanAccess(State(), p) && (p in lastUsed ==> p.bytes.Some?)
      modifies this, live
      ensures State() == PoolModel.Access(old(State()), p) && live <= old(live)
    {
      // the fast path
      if ToSizeT(p.timeTick) > ToSizeT(lastTimeTick - numPages / 2) && p.bytes.Some? {
        accessedAt := accessedAt[p := lastTimeTick];
        return;
      }
      LookupIsMembership(p);
      if LruHas(p) {
        Retick(p);
      } else if p.bytes.None? {
        DoLoad(p);
        LoadKeepsLookups(old(State()), p);
        TicksBounded();
        DoPromote(p);
      } else {
        accessedAt := accessedAt[p := lastTimeTick];
      }
    }

    method Retick(p: Page)
      requires LookupsOk(State()) && p in lastUsed
      modifies `lastUsed, `lastTimeTick, `pinned, `accessedAt, p`timeTick
      ensures State() == Promote(old(State()), p)
    {
      TicksBounded();
      LookupIsMembership(p);
      LruErase(p);
      DoPromote(p);
    }

    // ---------- the manager's interface ----------

    /** The page object registered for a slot, or a new one. */
    method FindOrMake(slot: Slot) returns (p: Page)
      requires slot in allPages ==> allPages[slot] in live
      requires slot.TableSlot?
      modifies `allPages, `live
      ensures slot in old(allPages) ==> p == old(allPages)[slot] && State() == old(State())
      ensures slot !in old(allPages) ==> fresh(p) && State() == AddPage(old(State()), slot, p)
      ensures live == old(live) + {p}
    {
      if slot !in allPages {
        p := new Page(slot);
        allPages := allPages[slot := p];
        live := live + {p};
        assert Pages() == old(Pages())[p := PageState(slot, None, false, -1, 0)];
      } else {
        p := allPages[slot];
      }
    }

    method HandleFor(slot: Slot) returns (h: PageHandle)
      requires slot in allPages ==> allPages[slot] in live
      requires slot.TableSlot?
      modifies `allPages, `live, `handles, live`refCount
      ensures fresh(live - old(live)) && h.parent == this && fresh(h)
      ensures if slot in old(allPages) then h.page == old(allPages)[slot] else fresh(h.page)
      ensures State() == PoolModel.GetPage(old(State()), slot, h.page)
    {
      var p := FindOrMake(slot);
      h := new PageHandle(this, p);
    }

    method GetPage(name: string, i: int) returns (h: PageHandle)
      requires Valid() && lastTimeTick + 1 < TWO_TO_THE_63
      modifies this, live
      ensures Valid() && fresh(live - old(live)) && h.parent == this && fresh(h)
      ensures var slot := TableSlot(name, ToSizeT(i));
              && (if slot in old(allPages) then h.page == old(allPages)[slot] else fresh(h.page))
              && State() == PoolModel.GetPage(old(State()), slot, h.page)
              && h.page.slot == slot && h.page in live
    {
      ghost var s := State();
      var slot := TableSlot(name, ToSizeT(i));
      h := HandleFor(slot);
      StepKeepsInv(s, CallGetPage(slot, h.page));
      GetPageGivesSlot(s, slot, h.page);
    }

    /** Pop the least recycled position, or extend the temporary file. */
    method TakePosition() returns (pos: nat)
      modifies `availablePositions, `lastTempPos
      ensures State() == TakePos(old(State())) && pos == NextPos(old(State()))
    {
      if |availablePositions| == 0 {
        pos := lastTempPos;
        lastTempPos := lastTempPos + 1;
      } else {
        LeastExists(availablePositions);
        pos :| pos in availablePositions && forall x :: x in availablePositions ==> pos <= x;
        LeastIsUnique(availablePositions, pos);
        availablePositions := availablePositions - multiset{pos};
      }
    }

    method TempHandle() returns (h: PageHandle)
      modifies `availablePositions, `lastTempPos, `live, `handles
      ensures fresh(h) && h.parent == this && fresh(h.page) && h.page.bytes == None
      ensures State() == PoolModel.GetTempPage(old(State()), h.page) && h.page in live
      ensures fresh(live - old(live))
    {
      var pos := TakePosition();
      var p := MakeTemp(pos);
      h := new PageHandle(this, p);
    }

    method MakeTemp(pos: nat) returns (p: Page)
      modifies `live
      ensures fresh(p) && p.bytes == None && live == old(live) + {p}
      ensures State() == AddPage(old(State()), TempSlot(pos), p)
    {
      p := new Page(TempSlot(pos));
      live := live + {p};
      assert Pages() == old(Pages())[p := PageState(TempSlot(pos), None, false, -1, 0)];
    }

    method GetTempPage() returns (h: PageHandle)
      requires Valid() && lastTimeTick + 1 < TWO_TO_THE_63
      modifies this, live
      ensures Valid() && fresh(live - old(live)) && h.parent == this && fresh(h) && fresh(h.page)
      ensures State() == PoolModel.GetTempPage(old(State()), h.page)
    {
      ghost var s := State();
      h := TempHandle();
      GetTempPageKeepsInv(s, h.page);
    }

    /** The page getPinnedPage works on, out of the LRU list. */
    method TakeForPinning(slot: Slot) returns (p: Page)
      requires LookupsOk(State()) && slot.TableSlot? && (slot in allPages ==> allPages[slot] in live)
      modifies `allPages, `live, `lastUsed
      ensures if slot in old(allPages) then p == old(allPages)[slot] else fresh(p)
      ensures State() == FindForPinning(old(State()), slot, p)
      ensures p in live && fresh(live - old(live))
    {
      if slot !in allPages {
        p := FindOrMake(slot);
      } else {
        p := allPages[slot];
        LookupIsMembership(p);
        if LruHas(p) {
          LruErase(p);
        }
      }
    }

    method PinFound(p: Page) returns (h: PageHandle)
      requires LookupsOk(State()) && CanAccess(State(), p)
      modifies this, live
      ensures live <= old(live) && h.parent == this && h.page == p && fresh(h)
      ensures State() == var s1 := old(State());
                         Pin(AddHandle(if s1.pages[p].bytes.None? then Load(s1, p) else s1, p), p)
    {
      if p.bytes.None? {
        DoLoad(p);
      }
      h := PinnedHandle(p);
    }

    method PinnedHandle(p: Page) returns (h: PageHandle)
      requires p in live
      modifies `handles, `pinned, p`refCount
      ensures h.parent == this && h.page == p && fresh(h)
      ensures State() == Pin(AddHandle(old(State()), p), p)
    {
      h := new PageHandle(this, p);
      pinned := pinned + {p};
    }

    method GetPinnedPage(name: string, i: int) returns (h: PageHandle)
      requires Valid() && lastTimeTick + 1 < TWO_TO_THE_63
      requires Buffered(State(), TableSlot(name, ToSizeT(i))) || RoomToLoad(State())
      modifies this, live
      ensures Valid() && fresh(live - old(live)) && h.parent == this && fresh(h)
      ensures var slot := TableSlot(name, ToSizeT(i));
              && (if slot in old(allPages) then h.page == old(allPages)[slot] else fresh(h.page))
              && CanGetPinnedPage(old(State()), slot, h.page)
              && State() == PoolModel.GetPinnedPage(old(State()), slot, h.page)
              && h.page in live && h.page in pinned && h.page !in lastUsed && h.page.slot == slot
              && h.page.bytes.Some? && h.page.bytes.value < |ram|
              && ram[h.page.bytes.value] == Value(old(State()), slot)
    {
      ghost var s := State();
      var slot := TableSlot(name, ToSizeT(i));
      var p := TakeForPinning(slot);
      GetPinnedPageKeepsInv(s, slot, p);
      h := PinFound(p);
      assert State().pages[p].slot == slot && p in live;
    }

    method PinTemp(p: Page)
      requires p in live && p.bytes.None? && availableRam != []
      modifies `availableRam, `pinned, `unwritten, p`bytes
      ensures State() == var s1 := Pin(TakeRam(old(State()), p), p);
                         s1.(unwritten := s1.unwritten + {p})
    {
      p.bytes := Some(availableRam[|availableRam| - 1]);
      availableRam := availableRam[..|availableRam| - 1];
      pinned, unwritten := pinned + {p}, unwritten + {p};
      assert Pages() == old(Pages())[p := old(Pages()[p]).(bytes := p.bytes)];
    }

    method PinnedTempHandle() returns (h: PageHandle)
      requires LookupsOk(State()) && CanGetPinnedTempPage(State())
      modifies this, live
      ensures fresh(live - old(live)) && h.parent == this && fresh(h) && fresh(h.page)
      ensures State() == PoolModel.GetPinnedTempPage(old(State()), h.page)
    {
      MakeSpace();
      h := TempHandle();
      PinTemp(h.page);
    }

    method GetPinnedTempPage() returns (h: PageHandle)
      requires Valid() && lastTimeTick + 1 < TWO_TO_THE_63 && RoomToLoad(State())
      modifies this, live
      ensures Valid() && fresh(live - old(live)) && h.parent == this && fresh(h) && fresh(h.page)
      ensures CanGetPinnedTempPage(old(State()))
      ensures State() == PoolModel.GetPinnedTempPage(old(State()), h.page)
      ensures h.page in live && h.page in pinned && h.page !in lastUsed
      ensures h.page.bytes.Some? && h.page.slot.TempSlot?
    {
      ghost var s := State();
      InvGivesRoom(s);
      h := PinnedTempHandle();
      StepKeepsInv(s, CallGetPinnedTempPage(h.page));
      PoolPins.GetPinnedTempPagePins(s, h.page);
      assert h.page in State().pages;
    }

    method Unpin(p: Page)
      requires Valid() && Allowed(State(), CallUnpin(p))
      modifies this, live
      ensures Valid() && live == old(live) && State() == Promote(old(State()), p)
      ensures p in lastUsed && p !in pinned && p.timeTick == lastTimeTick == old(lastTimeTick) + 1
    {
      InvGivesLookups(State());
      TicksBounded();
      UnpinKeepsInv(State(), p);
      DoPromote(p);
      assert State().pages[p].timeTick == lastTimeTick;
    }

    method DoFlush(p: Page)
      requires p in live && (p.bytes.Some? ==> p.bytes.value < |ram|)
      modifies `disk, p`isDirty
      ensures State() == PoolModel.Flush(old(State()), p)
    {
      if p.bytes.Some? && p.isDirty && p.slot.TableSlot? {
        DoWriteBack(p);
      }
    }

    method Flush(p: Page)
      requires Valid() && Allowed(State(), CallFlush(p))
      modifies `disk, p`isDirty
      ensures Valid() && p in live
      ensures (p.bytes.Some? ==> p.bytes.value < |ram|) && State() == PoolModel.Flush(old(State()), p)
      ensures p.slot.TableSlot? && p.bytes.Some? ==> !p.isDirty
      ensures p.slot.TableSlot? && p.bytes.Some? && (old(p.isDirty) || p !in stored) ==>
                ram[p.bytes.value] == DiskRead(disk, p.slot)
    {
      FlushKeepsInv(State(), p);
      FlushSyncs(State(), p);
      DoFlush(p);
    }

    /** decRefCount */
    method DecRefCount(p: Page)
      requires p in live && LookupsOk(Release(State(), p))
      modifies this, p
      ensures live <= old(live) && State() == PoolModel.DropHandle(old(State()), p)
    {
      Decrement(p);
      if p.refCount == 0 {
        KillPage(p);
      }
    }

    method Decrement(p: Page)
      requires p in live
      modifies `handles, p`refCount
      ensures State() == Release(old(State()), p)
    {
      p.refCount := p.refCount - 1;
      handles := handles - multiset{p};
      assert Pages() == old(Pages())[p := old(Pages()[p]).(refCount := p.refCount)];
    }

    // ---------- the destructor ----------

    /** What the destructor has still to do: `todo` are the slots whose page it has not seen. */
    ghost predicate Unwinding(s: Pool, todo: set<Slot>)
      reads this, allPages.Values
    {
      && allPages == s.allPages && ram == s.ram && todo <= allPages.Keys
      && (forall slot :: slot in todo ==>
            && SlotSynced(s, slot) && allPages[slot].slot == slot
            && allPages[slot].bytes == s.pages[allPages[slot]].bytes
            && allPages[slot].isDirty == s.pages[allPages[slot]].isDirty)
      && (forall slot :: slot in allPages && slot !in todo ==> allPages[slot].bytes == None)
      && (forall slot :: slot in todo ==> DiskRead(disk, slot) == DiskRead(s.disk, slot))
      && (forall slot: Slot :: slot.TableSlot? && slot !in todo ==> DiskRead(disk, slot) == Value(s, slot))
    }

    method UnwindPage(ghost s: Pool, ghost todo: set<Slot>, slot: Slot, page: Page)
      requires Unwinding(s, todo) && slot in todo && page == allPages[slot]
      modifies `disk, page`bytes
      ensures Unwinding(s, todo - {slot})
    {
      if page.bytes.Some? {
        if page.isDirty {
          disk := disk[page.slot := ram[page.bytes.value]];
        }
        page.bytes := None;
      }
    }

    /** The destructor writes every dirty table page back, so that the disk holds all table contents. */
    method Destroy()
      requires Valid() && StoresAreDirty(State())
      modifies this, live
      ensures WrittenBack(old(State()), disk)
      ensures forall slot :: slot in allPages ==> allPages[slot].bytes == None
    {
      ghost var s := State();
      StartUnwinding();
      UnwindAll(s);
      AllUnwound(s);
    }

    /** The destructor's loop over allPages. */
    method UnwindAll(ghost s: Pool)
      requires Unwinding(s, allPages.Keys) && allPages.Values <= live
      modifies `disk, live`bytes
      ensures Unwinding(s, {})
    {
      var todo := allPages.Keys;
      while todo != {}
        invariant Unwinding(s, todo)
      {
        var slot :| slot in todo;
        UnwindPage(s, todo, slot, allPages[slot]);
        todo := todo - {slot};
      }
    }

    lemma AllUnwound(s: Pool)
      requires Unwinding(s, {})
      ensures WrittenBack(s, disk) && forall slot :: slot in allPages ==> allPages[slot].bytes == None
    {
    }

    lemma StartUnwinding()
      requires Valid() && StoresAreDirty(State())
      ensures Unwinding(State(), allPages.Keys) && allPages.Values <= live
    {
      forall slot | slot in allPages ensures SlotSynced(State(), slot) {
        RegisteredSlotsAreSynced(State(), slot);
      }
    }

    method DoStore(p: Page, data: Bytes)
      requires p in live && p.bytes.Some? && p.bytes.value < |ram|
      modifies `ram, `unwritten, `stored, p`isDirty
      ensures State() == Store(old(State()), p, data)
    {
      DoPoke(p, data);
      DoWroteBytes(p);
    }

    method DoPoke(p: Page, data: Bytes)
      requires p in live && p.bytes.Some? && p.bytes.value < |ram|
      modifies `ram, `unwritten, `stored
      ensures State() == Poke(old(State()), p, data)
    {
      ram := ram[p.bytes.value := data];
      unwritten, stored := unwritten - {p}, stored + {p};
    }

    method DoWroteBytes(p: Page)
      requires p in live
      modifies `stored, p`isDirty
      ensures State() == PoolModel.WroteBytes(old(State()), p)
    {
      p.isDirty := true;
      stored := stored - {p};
      assert Pages() == old(Pages())[p := old(Pages()[p]).(isDirty := true)];
    }
  }

  lemma InvGivesRoom(s: Pool)
    requires Inv(s) && RoomToLoad(s)
    ensures LookupsOk(s) && CanGetPinnedTempPage(s)
  {
    PoolRam.LivePagesHaveTheirOwnSlots(s);
    RoomCanBeMade(s);
    if s.availableRam == [] {
      PoolRam.KickOutRam(s);
    }
  }

  lemma UnpinKeepsInv(s: Pool, p: Page)
    requires Inv(s) && Allowed(s, CallUnpin(p))
    ensures p in s.pages && p !in s.lastUsed && Inv(Promote(s, p))
  {
    StepKeepsInv(s, CallUnpin(p));
  }

  lemma FlushKeepsInv(s: Pool, p: Page)
    requires Inv(s) && Allowed(s, CallFlush(p))
    ensures p in s.pages && (s.pages[p].bytes.Some? ==> s.pages[p].bytes.value < |s.ram|)
    ensures Inv(PoolModel.Flush(s, p))
  {
    StepKeepsInv(s, CallFlush(p));
  }

  /** A flushed table page is clean and equals its slot on disk. */
  lemma FlushSyncs(s: Pool, p: Page)
    requires Inv(s) && p in s.pages && (s.pages[p].bytes.Some? ==> s.pages[p].bytes.value < |s.ram|)
    ensures var s1 := PoolModel.Flush(s, p);
            s.pages[p].slot.TableSlot? && s.pages[p].bytes.Some? ==>
              && !s1.pages[p].isDirty
              && (s.pages[p].isDirty || p !in s.stored ==>
                    s1.ram[s1.pages[p].bytes.value] == DiskRead(s1.disk, s1.pages[p].slot))
  {
    if s.pages[p].slot.TableSlot? && s.pages[p].bytes.Some? && !s.pages[p].isDirty && p !in s.stored {
      CleanIsSynced(s, p);
    }
  }

  lemma CleanIsSynced(s: Pool, p: Page)
    requires SyncOk(s) && FramesOk(s) && p in s.pages && s.pages[p].slot.TableSlot? && s.pages[p].bytes.Some?
    requires !s.pages[p].isDirty && p !in s.stored
    ensures s.pages[p].bytes.value < |s.ram|
    ensures s.ram[s.pages[p].bytes.value] == DiskRead(s.disk, s.pages[p].slot)
  {
    assert Owns(s, p, s.pages[p].bytes.value);
  }

  lemma LruInvGivesLookups(s: Pool, spare: set<Page>)
    requires LruInv(s, spare, spare)
    ensures LookupsOk(s)
  {
  }

  lemma GetTempPageKeepsInv(s: Pool, p: Page)
    requires Inv(s) && p !in s.pages && s.lastTimeTick + 1 < TWO_TO_THE_63
    ensures Inv(PoolModel.GetTempPage(s, p))
  {
    StepKeepsInv(s, CallGetTempPage(p));
  }

  lemma GetPageGivesSlot(s: Pool, slot: Slot, p: Page)
    requires slot.TableSlot? && (slot in s.allPages || p !in s.pages)
    requires slot in s.allPages ==> s.allPages[slot] in s.pages
    requires IndexOk(PoolModel.GetPage(s, slot, p))
    ensures var q, s1 := if slot in s.allPages then s.allPages[slot] else p, PoolModel.GetPage(s, slot, p);
            q in s1.pages && s1.pages[q].slot == slot
  {
  }

  lemma PinnedShows(s: Pool, slot: Slot, p: Page)
    requires Inv(s) && Allowed(s, CallGetPinnedPage(slot, p))
    ensures CanGetPinnedPage(s, slot, p)
    ensures var q, s1 := if slot in s.allPages then s.allPages[slot] else p, PoolModel.GetPinnedPage(s, slot, p);
            && q in s1.pages && q in s1.pinned && q !in s1.lastUsed && s1.pages[q].slot == slot
            && s1.pages[q].bytes.Some? && s1.pages[q].bytes.value < |s1.ram|
            && s1.ram[s1.pages[q].bytes.value] == Value(s, slot)
  {
    PoolPins.GetPinnedPagePins(s, slot, p);
    StepKeepsInv(s, CallGetPinnedPage(slot, p));
    PoolRam.FrameInRange(PoolModel.GetPinnedPage(s, slot, p), if slot in s.allPages then s.allPages[slot] else p);
  }

  lemma GetPinnedPageKeepsInv(s: Pool, slot: Slot, p: Page)
    requires Inv(s) && Allowed(s, CallGetPinnedPage(slot, p))
    ensures CanGetPinnedPage(s, slot, p) && LookupsOk(FindForPinning(s, slot, p))
    ensures Inv(PoolModel.GetPinnedPage(s, slot, p))
    ensures var q, s1 := if slot in s.allPages then s.allPages[slot] else p, PoolModel.GetPinnedPage(s, slot, p);
            && q in s1.pages && q in s1.pinned && q !in s1.lastUsed && s1.pages[q].slot == slot
            && s1.pages[q].bytes.Some? && s1.pages[q].bytes.value < |s1.ram|
            && s1.ram[s1.pages[q].bytes.value] == Value(s, slot)
  {
    PinnedShows(s, slot, p);
    StepKeepsInv(s, CallGetPinnedPage(slot, p));
    PoolLru.FindForPinningLru(s, slot, p);
    LruInvGivesLookups(FindForPinning(s, slot, p), {if slot in s.allPages then s.allPages[slot] else p});
  }

  /** A handle on a page; its lifetime drives the page's reference count. */
  class PageHandle {
    const page: Page
    const parent: BufferManager

    constructor (parent: BufferManager, page: Page)
      requires page in parent.live
      modifies page`refCount, parent`handles
      ensures this.page == page && this.parent == parent
      ensures parent.State() == AddHandle(old(parent.State()), page)
    {
      this.page := page;
      this.parent := parent;
      new;
      page.refCount := page.refCount + 1;
      parent.handles := parent.handles + multiset{page};
      assert parent.Pages() == old(parent.Pages())[page := old(parent.Pages()[page]).(refCount := page.refCount)];
    }

    /** The frame that holds the page's bytes, loaded if need be.  It shows what the page showed. */
    method GetBytes() returns (f: Frame)
      requires parent.Valid() && Allowed(parent.State(), CallGetBytes(page))
      modifies parent, parent.live
      ensures parent.Valid() && parent.live <= old(parent.live) && page in parent.live
      ensures CanAccess(old(parent.State()), page)
      ensures parent.State() == PoolModel.Access(old(parent.State()), page)
      ensures page.bytes == Some(f) && f < |parent.ram|
      ensures page !in old(parent.unwritten) ==> parent.ram[f] == View(old(parent.State()), page)
      ensures old(page.bytes).Some?
              && (PoolEffects.InWindow(parent.numPages, old(parent.lastTimeTick), old(page.timeTick))
                  || page !in old(parent.lastUsed)) ==>
                && page.timeTick == old(page.timeTick) && parent.lastTimeTick == old(parent.lastTimeTick)
                && parent.lastUsed == old(parent.lastUsed) && page.bytes == old(page.bytes)
      ensures old(page.bytes).Some? && page in old(parent.lastUsed)
              && !PoolEffects.InWindow(parent.numPages, old(parent.lastTimeTick), old(page.timeTick)) ==>
                && page.timeTick == parent.lastTimeTick == old(parent.lastTimeTick) + 1
                && parent.lastUsed == old(parent.lastUsed) && page.bytes == old(page.bytes)
    {
      GetBytesKeepsInv(parent.State(), page);
      if page !in parent.unwritten {
        GetBytesShows(parent.State(), page);
      }
      if page.bytes.Some? {
        ResidentTicks(parent.State(), page);
      }
      parent.Access(page);
      f := page.bytes.value;
    }

    method GetBytesAndStore(data: Bytes)
      requires LookupsOk(parent.State()) && CanWrite(parent.State(), page)
      requires page in parent.lastUsed ==> page.bytes.Some?
      modifies parent, parent.live
      ensures parent.live <= old(parent.live) && page in parent.live
      ensures parent.State() == PoolSteps.Write(old(parent.State()), page, data)
    {
      parent.Access(page);
      parent.DoStore(page, data);
    }

    /** A store through the pointer that an earlier GetBytes gave. */
    method Store(data: Bytes)
      requires parent.Valid() && Allowed(parent.State(), CallStore(page, data))
      modifies parent
      ensures parent.Valid() && parent.live == old(parent.live)
      ensures CanStep(old(parent.State()), CallStore(page, data))
      ensures parent.State() == Step(old(parent.State()), CallStore(page, data))
      ensures page.bytes.Some? && page.bytes.value < |parent.ram| && parent.ram[page.bytes.value] == data
    {
      StoreKeepsInv(parent.State(), page, data);
      parent.DoPoke(page, data);
    }

    /** The client announces its stores. */
    method WroteBytes()
      requires parent.Valid() && Allowed(parent.State(), CallWroteBytes(page))
      modifies parent, page
      ensures parent.Valid() && parent.live == old(parent.live) && page in parent.live
      ensures parent.State() == PoolModel.WroteBytes(old(parent.State()), page)
      ensures page.isDirty && page !in parent.stored && View(parent.State(), page) == View(old(parent.State()), page)
    {
      WroteBytesKeepsInv(parent.State(), page);
      parent.DoWroteBytes(page);
    }

    /** The client protocol for changing a page in one go: getBytes, store, wroteBytes. */
    method Write(data: Bytes)
      requires parent.Valid() && Allowed(parent.State(), CallWrite(page, data))
      modifies parent, parent.live
      ensures parent.Valid() && parent.live <= old(parent.live) && page in parent.live
      ensures CanWrite(old(parent.State()), page)
      ensures parent.State() == PoolSteps.Write(old(parent.State()), page, data)
      ensures page.bytes.Some? && page.bytes.value < |parent.ram| && parent.ram[page.bytes.value] == data
    {
      WriteKeepsInv(parent.State(), page, data);
      GetBytesAndStore(data);
    }

    method Unpin()
      requires parent.Valid() && Allowed(parent.State(), CallUnpin(page))
      modifies parent, parent.live
      ensures parent.Valid() && parent.live == old(parent.live)
      ensures parent.State() == Promote(old(parent.State()), page)
      ensures page in parent.lastUsed && page !in parent.pinned
    {
      parent.Unpin(page);
    }

    /** The handle goes away. */
    method Drop()
      requires parent.Valid() && Allowed(parent.State(), CallDrop(page))
      modifies parent, page
      ensures parent.Valid() && parent.live <= old(parent.live)
      ensures parent.State() == DropHandle(old(parent.State()), page)
    {
      DropKeepsInv(parent.State(), page);
      parent.DecRefCount(page);
    }
  }

  lemma GetBytesKeepsInv(s: Pool, p: Page)
    requires Inv(s) && Allowed(s, CallGetBytes(p))
    ensures LookupsOk(s) && CanAccess(s, p) && Inv(PoolModel.Access(s, p))
    ensures p in s.lastUsed ==> s.pages[p].bytes.Some?
    ensures var s1 := PoolModel.Access(s, p);
            p in s1.pages && s1.pages[p].bytes.Some? && s1.pages[p].bytes.value < |s1.ram|
  {
    StepKeepsInv(s, CallGetBytes(p));
    PoolRam.LivePagesHaveTheirOwnSlots(s);
    CanGetBytes(s, p);
    PoolRam.FrameInRange(PoolModel.Access(s, p), p);
  }

  /** What getBytes does to the tick of a resident page, and to the list. */
  lemma ResidentTicks(s: Pool, p: Page)
    requires LookupsOk(s) && s.numPages < TWO_TO_THE_64 && p in s.pages && s.pages[p].bytes.Some?
    ensures CanAccess(s, p) && p in PoolModel.Access(s, p).pages
    ensures var s1 := PoolModel.Access(s, p);
            var moves := p in s.lastUsed
                         && !PoolEffects.InWindow(s.numPages, s.lastTimeTick, s.pages[p].timeTick);
            && s1.lastUsed == s.lastUsed && s1.pages[p].bytes == s.pages[p].bytes
            && s1.lastTimeTick == (if moves then s.lastTimeTick + 1 else s.lastTimeTick)
            && s1.pages[p].timeTick == (if moves then s.lastTimeTick + 1 else s.pages[p].timeTick)
  {
    PoolEffects.ResidentAccess(s, p);
  }

  lemma GetBytesShows(s: Pool, p: Page)
    requires Inv(s) && Allowed(s, CallGetBytes(p)) && CanAccess(s, p) && p !in s.unwritten
    requires p in PoolModel.Access(s, p).pages
    ensures View(PoolModel.Access(s, p), p) == View(s, p)
  {
    StepRefines(s, CallGetBytes(p), TableSlot("", 0), p);
  }

  lemma WriteKeepsInv(s: Pool, p: Page, data: Bytes)
    requires Inv(s) && Allowed(s, CallWrite(p, data))
    ensures CanWrite(s, p) && Inv(PoolSteps.Write(s, p, data)) && LookupsOk(s)
    ensures p in s.lastUsed ==> s.pages[p].bytes.Some?
    ensures View(PoolSteps.Write(s, p, data), p) == data
  {
    StepKeepsInv(s, CallWrite(p, data));
    StepRefines(s, CallWrite(p, data), TableSlot("", 0), p);
  }

  lemma StoreKeepsInv(s: Pool, p: Page, data: Bytes)
    requires Inv(s) && Allowed(s, CallStore(p, data))
    ensures CanStep(s, CallStore(p, data)) && Inv(Poke(s, p, data))
    ensures View(Poke(s, p, data), p) == data
  {
    StepKeepsInv(s, CallStore(p, data));
    StepRefines(s, CallStore(p, data), TableSlot("", 0), p);
  }

  lemma WroteBytesKeepsInv(s: Pool, p: Page)
    requires Inv(s) && Allowed(s, CallWroteBytes(p))
    ensures Inv(PoolModel.WroteBytes(s, p))
    ensures View(PoolModel.WroteBytes(s, p), p) == View(s, p)
  {
    StepKeepsInv(s, CallWroteBytes(p));
  }

  lemma DropKeepsInv(s: Pool, p: Page)
    requires Inv(s) && Allowed(s, CallDrop(p))
    ensures p in s.pages && LookupsOk(Release(s, p)) && Inv(DropHandle(s, p))
  {
    StepKeepsInv(s, CallDrop(p));
    PoolLru.SameTicks(s, Release(s, p));
  }

  lemma KickOutKeepsLookups(s: Pool)
    requires LookupsOk(s) && CanKickOut(s)
    ensures LookupsOk(KickOut(s))
  {
    var v := Oldest(s);
    EvictKeepsLookups(s, v);
    if s.pages[v].refCount == 0 {
      PoolLru.SameTicks(Evict(s, v), Kill(Evict(s, v), v));
    }
  }

  lemma MakeRoomKeepsLookups(s: Pool)
    requires LookupsOk(s) && (s.availableRam == [] ==> CanKickOut(s))
    ensures LookupsOk(MakeRoom(s)) && MakeRoom(s).lastUsed <= s.lastUsed
  {
    if s.availableRam == [] {
      KickOutKeepsLookups(s);
    }
  }

  lemma LoadKeepsLookups(s: Pool, p: Page)
    requires LookupsOk(s) && CanLoad(s, p) && p !in s.lastUsed
    ensures LookupsOk(Load(s, p)) && p !in Load(s, p).lastUsed
  {
    MakeRoomKeepsLookups(s);
    PoolLru.SameTicks(MakeRoom(s), Load(s, p));
  }

  lemma InvGivesLookups(s: Pool)
    requires Inv(s)
    ensures LookupsOk(s)
  {
  }

  lemma EvictKeepsLookups(s: Pool, v: Page)
    requires LookupsOk(s) && v in s.pages && s.pages[v].bytes.Some? && s.pages[v].bytes.value < |s.ram|
    ensures LookupsOk(Evict(s, v))
  {
    PoolLru.SameTicks(s, Evict(s, v));
  }
}
