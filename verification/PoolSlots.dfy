/** Every operation keeps the index of table pages and the positions of temporary pages consistent. */
module PoolSlots {
  import opened Commons
  import opened BufferTypes
  import opened PoolModel
  import opened PoolInvariant

  /** Operations that leave every page's slot and the slot tables alone. */
  lemma SameSlots(s: Pool, s1: Pool)
    requires SlotInv(s)
    requires s1.pages.Keys == s.pages.Keys && forall p :: p in s.pages ==> s1.pages[p].slot == s.pages[p].slot
    requires s1.allPages == s.allPages && s1.availablePositions == s.availablePositions
    requires s1.lastTempPos == s.lastTempPos
    ensures SlotInv(s1)
  {
    assert forall p, x: nat :: UsesPos(s1, p, x) <==> UsesPos(s, p, x);
    assert LiveTemps(s1) == LiveTemps(s);
  }

  lemma AddTablePageSlots(s: Pool, slot: Slot, p: Page)
    requires SlotInv(s) && p !in s.pages && slot.TableSlot? && slot !in s.allPages
    ensures SlotInv(AddPage(s, slot, p))
  {
    var s1 := AddPage(s, slot, p);
    assert forall q, x: nat :: UsesPos(s1, q, x) <==> UsesPos(s, q, x);
    assert LiveTemps(s1) == LiveTemps(s);
  }

  lemma KillTempSlots(s: Pool, p: Page)
    requires SlotInv(s) && p in s.pages && s.pages[p].slot.TempSlot?
    ensures SlotInv(Kill(s, p))
  {
    var s1 := Kill(s, p);
    assert UsesPos(s, p, s.pages[p].slot.pos);
    assert forall q, x: nat :: UsesPos(s1, q, x) <==> UsesPos(s, q, x) && q != p;
    assert LiveTemps(s1) == LiveTemps(s) - {p};
  }

  lemma KillSlots(s: Pool, p: Page)
    requires SlotInv(s) && p in s.pages
    ensures SlotInv(Kill(s, p)) && Kill(s, p).lastTempPos == s.lastTempPos
  {
    var s1 := Kill(s, p);
    if s.pages[p].slot.TempSlot? {
      KillTempSlots(s, p);
    } else if p in s1.pages {
      SameSlots(s, s1);
    } else {
      assert forall q, x: nat :: UsesPos(s1, q, x) <==> UsesPos(s, q, x);
      assert LiveTemps(s1) == LiveTemps(s);
    }
  }

  lemma KickOutSlots(s: Pool)
    requires SlotInv(s) && CanKickOut(s)
    ensures SlotInv(KickOut(s)) && KickOut(s).lastTempPos == s.lastTempPos
  {
    var v := Oldest(s);
    SameSlots(s, Evict(s, v));
    if s.pages[v].refCount == 0 {
      KillSlots(Evict(s, v), v);
    }
  }

  lemma MakeRoomSlots(s: Pool)
    requires SlotInv(s) && (s.availableRam == [] ==> CanKickOut(s))
    ensures SlotInv(MakeRoom(s)) && MakeRoom(s).lastTempPos == s.lastTempPos
  {
    if s.availableRam == [] {
      KickOutSlots(s);
    }
  }

  lemma LoadSlots(s: Pool, p: Page)
    requires SlotInv(s) && CanLoad(s, p)
    ensures SlotInv(Load(s, p)) && Load(s, p).lastTempPos == s.lastTempPos
  {
    MakeRoomSlots(s);
    SameSlots(MakeRoom(s), Load(s, p));
  }

  lemma AccessSlots(s: Pool, p: Page)
    requires SlotInv(s) && CanAccess(s, p)
    ensures SlotInv(Access(s, p)) && Access(s, p).lastTempPos == s.lastTempPos
  {
    if !JustAccessed(s, p) && p !in s.lastUsed && s.pages[p].bytes.None? {
      LoadSlots(s, p);
      SameSlots(Load(s, p), Access(s, p));
    } else {
      SameSlots(s, Access(s, p));
    }
  }

  // ---------- the client's calls ----------

  lemma GetPageSlots(s: Pool, slot: Slot, p: Page)
    requires SlotInv(s) && (slot in s.allPages || p !in s.pages) && slot.TableSlot?
    ensures slot in s.allPages ==> s.allPages[slot] in s.pages
    ensures SlotInv(GetPage(s, slot, p)) && GetPage(s, slot, p).lastTempPos == s.lastTempPos
  {
    if slot in s.allPages {
      SameSlots(s, GetPage(s, slot, p));
    } else {
      AddTablePageSlots(s, slot, p);
      SameSlots(AddPage(s, slot, p), GetPage(s, slot, p));
    }
  }

  lemma AddTempPage(s: Pool, s1: Pool, p: Page, x: nat)
    requires TempsOk(s) && p !in s.pages && s1.pages.Keys == s.pages.Keys + {p}
    requires forall q :: q in s.pages ==> s1.pages[q].slot == s.pages[q].slot
    requires s1.pages[p].slot == TempSlot(x)
    requires || (x in s.availablePositions
                 && s1.availablePositions == s.availablePositions - multiset{x} && s1.lastTempPos == s.lastTempPos)
             || (x == s.lastTempPos && s1.availablePositions == s.availablePositions == multiset{}
                 && s1.lastTempPos == s.lastTempPos + 1)
    ensures TempsOk(s1)
  {
    assert UsesPos(s1, p, x);
    assert forall q, y: nat :: UsesPos(s1, q, y) <==> UsesPos(s, q, y) || (q == p && y == x);
  }

  lemma GetTempPageTemps(s: Pool, p: Page)
    requires TempsOk(s) && p !in s.pages
    ensures TempsOk(GetTempPage(s, p))
  {
    if |s.availablePositions| == 0 {
      assert s.availablePositions == multiset{};
    }
    AddTempPage(s, GetTempPage(s, p), p, NextPos(s));
  }

  lemma GetTempPageIndex(s: Pool, p: Page)
    requires IndexOk(s) && p !in s.pages
    ensures IndexOk(GetTempPage(s, p)) && LiveTemps(GetTempPage(s, p)) == LiveTemps(s) + {p}
  {
  }

  /** The temp file grows only when every position below its end is in use. */
  lemma GetTempPageSlots(s: Pool, p: Page)
    requires SlotInv(s) && p !in s.pages
    ensures SlotInv(GetTempPage(s, p))
    ensures var s1 := GetTempPage(s, p);
            s1.lastTempPos == if |LiveTemps(s1)| > s.lastTempPos then |LiveTemps(s1)| else s.lastTempPos
  {
    GetTempPageTemps(s, p);
    GetTempPageIndex(s, p);
  }

  lemma FindForPinningSlots(s: Pool, slot: Slot, p: Page)
    requires SlotInv(s) && (slot in s.allPages || p !in s.pages) && slot.TableSlot?
    ensures SlotInv(FindForPinning(s, slot, p))
    ensures (if slot in s.allPages then s.allPages[slot] else p) in FindForPinning(s, slot, p).pages
    ensures FindForPinning(s, slot, p).lastTempPos == s.lastTempPos
  {
    if slot !in s.allPages {
      AddTablePageSlots(s, slot, p);
    } else {
      SameSlots(s, FindForPinning(s, slot, p));
    }
  }

  lemma PinFoundSlots(s1: Pool, q: Page)
    requires SlotInv(s1) && CanAccess(s1, q)
    ensures var s2 := Pin(AddHandle(if s1.pages[q].bytes.None? then Load(s1, q) else s1, q), q);
            SlotInv(s2) && s2.lastTempPos == s1.lastTempPos
  {
    if s1.pages[q].bytes.None? {
      LoadSlots(s1, q);
      SameSlots(Load(s1, q), Pin(AddHandle(Load(s1, q), q), q));
    } else {
      SameSlots(s1, Pin(AddHandle(s1, q), q));
    }
  }

  lemma PinTempSlots(s: Pool, s1: Pool, p: Page)
    requires SlotInv(s1) && p in s1.pages && s1.availableRam != []
    requires s == Pin(TakeRam(s1, p), p).(unwritten := s.unwritten)
    ensures SlotInv(s) && s.lastTempPos == s1.lastTempPos && LiveTemps(s) == LiveTemps(s1)
  {
    SameSlots(s1, s);
  }

  lemma GetPinnedTempPageSlots(s: Pool, p: Page)
    requires SlotInv(s) && p !in s.pages && CanGetPinnedTempPage(s)
    ensures var s1 := GetPinnedTempPage(s, p);
            && SlotInv(s1)
            && s1.lastTempPos == if |LiveTemps(s1)| > s.lastTempPos then |LiveTemps(s1)| else s.lastTempPos
  {
    MakeRoomSlots(s);
    if s.availableRam == [] {
      KickOutMakesNoPages(s);
    }
    GetTempPageSlots(MakeRoom(s), p);
    PinTempSlots(GetPinnedTempPage(s, p), GetTempPage(MakeRoom(s), p), p);
  }

  lemma DropHandleSlots(s: Pool, p: Page)
    requires SlotInv(s) && p in s.pages
    ensures SlotInv(DropHandle(s, p)) && DropHandle(s, p).lastTempPos == s.lastTempPos
  {
    SameSlots(s, Release(s, p));
    KillSlots(Release(s, p), p);
  }
}
