/** Every operation keeps RAM and disk consistent: frames are conserved and clean pages equal their
    slot on disk. */
module PoolRam {
  import opened Commons
  import opened BufferTypes
  import opened PoolModel
  import opened PoolInvariant

  /** No two live pages share a slot. */
  ghost predicate SlotsDiffer(s: Pool) {
    forall p, q :: p in s.pages && q in s.pages && p != q ==> s.pages[p].slot != s.pages[q].slot
  }

  lemma LivePagesHaveTheirOwnSlots(s: Pool)
    requires SlotInv(s)
    ensures SlotsDiffer(s)
  {
    forall p, q | p in s.pages && q in s.pages && p != q
      ensures s.pages[p].slot != s.pages[q].slot
    {
      if s.pages[p].slot == s.pages[q].slot && s.pages[p].slot.TempSlot? {
        assert UsesPos(s, p, s.pages[p].slot.pos) && UsesPos(s, q, s.pages[p].slot.pos);
      }
    }
  }

  /** Operations that leave bytes, dirty flags, slots and disk alone. */
  lemma SameRam(s: Pool, s1: Pool)
    requires RamInv(s)
    requires s1.pages.Keys == s.pages.Keys
    requires forall p :: p in s.pages ==> && s1.pages[p].bytes == s.pages[p].bytes
                                          && s1.pages[p].isDirty == s.pages[p].isDirty
                                          && s1.pages[p].slot == s.pages[p].slot
    requires s1.ram == s.ram && s1.availableRam == s.availableRam && s1.numPages == s.numPages
    requires s1.disk == s.disk && s1.unwritten == s.unwritten
    requires s1.stored == s.stored
    ensures RamInv(s1)
  {
    assert forall p, f: Frame :: Owns(s1, p, f) <==> Owns(s, p, f);
  }

  lemma FrameInRange(s: Pool, p: Page)
    requires FramesOk(s) && p in s.pages && s.pages[p].bytes.Some?
    ensures s.pages[p].bytes.value < |s.ram| && s.pages[p].bytes.value !in s.availableRam
  {
    assert Owns(s, p, s.pages[p].bytes.value);
  }

  lemma AddPageRam(s: Pool, slot: Slot, p: Page)
    requires RamInv(s) && p !in s.pages
    ensures RamInv(AddPage(s, slot, p))
  {
    assert forall q, f: Frame :: Owns(AddPage(s, slot, p), q, f) <==> Owns(s, q, f);
  }

  lemma WriteBackRam(s: Pool, p: Page)
    requires RamInv(s) && SlotsDiffer(s) && p in s.pages && s.pages[p].bytes.Some?
    ensures s.pages[p].bytes.value < |s.ram|
    ensures RamInv(WriteBack(s, p))
  {
    FrameInRange(s, p);
    assert forall q, g: Frame :: Owns(WriteBack(s, p), q, g) <==> Owns(s, q, g);
  }

  lemma EvictFrames(s: Pool, v: Page)
    requires FramesOk(s) && v in s.pages && s.pages[v].bytes.Some? && s.pages[v].bytes.value < |s.ram|
    ensures FramesOk(Evict(s, v))
  {
    FrameInRange(s, v);
    var s1, f := Evict(s, v), s.pages[v].bytes.value;
    assert s1.availableRam[|s.availableRam|] == f;
    assert forall g :: g in s1.availableRam <==> g in s.availableRam || g == f;
    assert forall p, g: Frame :: Owns(s1, p, g) <==> Owns(s, p, g) && p != v;
    assert Owns(s, v, f);
  }

  lemma EvictRam(s: Pool, v: Page)
    requires RamInv(s) && SlotsDiffer(s) && v in s.pages && s.pages[v].bytes.Some? && v !in s.stored
    ensures s.pages[v].bytes.value < |s.ram|
    ensures RamInv(Evict(s, v))
  {
    FrameInRange(s, v);
    EvictFrames(s, v);
    WriteBackRam(s, v);
    assert forall p, g: Frame :: Owns(Evict(s, v), p, g) ==> Owns(WriteBack(s, v), p, g);
  }

  lemma KillTempRam(s: Pool, p: Page)
    requires RamInv(s) && p in s.pages && s.pages[p].slot.TempSlot?
    ensures RamInv(Kill(s, p))
  {
    var s1 := Kill(s, p);
    if s.pages[p].bytes.Some? {
      var f := s.pages[p].bytes.value;
      assert Owns(s, p, f);
      assert s1.availableRam[|s.availableRam|] == f;
      assert forall g :: g in s1.availableRam <==> g in s.availableRam || g == f;
    }
    assert forall q, g: Frame :: Owns(s1, q, g) <==> Owns(s, q, g) && q != p;
  }

  lemma KillTableRam(s: Pool, p: Page)
    requires RamInv(s) && p in s.pages && s.pages[p].slot.TableSlot?
    ensures RamInv(Kill(s, p))
  {
    var s1 := Kill(s, p);
    if s.pages[p].bytes.Some? {
      SameRam(s, s1);
    } else {
      assert forall q, g: Frame :: Owns(s1, q, g) <==> Owns(s, q, g);
    }
  }

  lemma KillRam(s: Pool, p: Page)
    requires RamInv(s) && p in s.pages
    ensures RamInv(Kill(s, p))
  {
    if s.pages[p].slot.TempSlot? {
      KillTempRam(s, p);
    } else {
      KillTableRam(s, p);
    }
  }

  lemma CanKickOutIfListed(s: Pool)
    requires FramesOk(s) && s.lastUsed != {} && s.lastUsed <= s.pages.Keys
    requires forall p :: p in s.lastUsed ==> s.pages[p].bytes.Some?
    ensures CanKickOut(s)
  {
    forall p | p in s.lastUsed ensures s.pages[p].bytes.value < |s.ram| {
      FrameInRange(s, p);
    }
  }

  lemma KickOutRam(s: Pool)
    requires RamInv(s) && SlotsDiffer(s) && CanKickOut(s) && Oldest(s) !in s.stored
    ensures RamInv(KickOut(s))
    ensures |KickOut(s).availableRam| == |s.availableRam| + 1
  {
    var v := Oldest(s);
    EvictRam(s, v);
    if s.pages[v].refCount == 0 {
      KillRam(Evict(s, v), v);
    }
  }

  /** The last available frame changes hands. */
  lemma TakeRamFrames(s: Pool, p: Page)
    requires FramesOk(s) && p in s.pages && s.pages[p].bytes.None? && s.availableRam != []
    ensures FramesOk(TakeRam(s, p))
    ensures var f := s.availableRam[|s.availableRam| - 1];
            f < |s.ram| && forall q, g: Frame :: Owns(TakeRam(s, p), q, g) <==> Owns(s, q, g) || (q == p && g == f)
  {
    var f := s.availableRam[|s.availableRam| - 1];
    var s1 := TakeRam(s, p);
    assert f !in s1.availableRam;
    assert s.availableRam == s1.availableRam + [f];
    assert forall g :: g in s.availableRam <==> g in s1.availableRam || g == f;
    assert forall q, g: Frame :: Owns(s1, q, g) <==> Owns(s, q, g) || (q == p && g == f);
  }

  lemma ReadInRam(s: Pool, p: Page)
    requires RamInv(s) && p in s.pages && s.pages[p].bytes.None? && s.availableRam != []
    requires p !in s.unwritten
    ensures s.availableRam[|s.availableRam| - 1] < |s.ram|
    ensures RamInv(ReadIn(TakeRam(s, p), p))
  {
    TakeRamFrames(s, p);
    assert forall q, g: Frame :: Owns(ReadIn(TakeRam(s, p), p), q, g) <==> Owns(TakeRam(s, p), q, g);
  }

  lemma LoadRam(s: Pool, p: Page)
    requires RamInv(s) && SlotsDiffer(s) && p in s.pages && s.pages[p].bytes.None? && p !in s.unwritten
    requires s.availableRam == [] ==> CanKickOut(s) && Oldest(s) !in s.stored
    ensures CanLoad(s, p) && RamInv(Load(s, p))
  {
    if s.availableRam == [] {
      KickOutRam(s);
    }
    ReadInRam(MakeRoom(s), p);
  }

  /** A pinned temporary page gets a frame whose contents are left as they are. */
  lemma TakeRamKeeps(s: Pool, p: Page)
    requires RamInv(s) && p in s.pages && s.pages[p].bytes.None? && s.availableRam != []
    requires s.pages[p].slot.TempSlot?
    ensures RamInv(TakeRam(s, p).(unwritten := s.unwritten + {p}))
  {
    var s1 := TakeRam(s, p).(unwritten := s.unwritten + {p});
    TakeRamFrames(s, p);
    assert forall q, g: Frame :: Owns(s1, q, g) <==> Owns(TakeRam(s, p), q, g);
  }

  lemma StoreRam(s: Pool, p: Page, data: Bytes)
    requires RamInv(s) && p in s.pages && s.pages[p].bytes.Some?
    ensures s.pages[p].bytes.value < |s.ram|
    ensures RamInv(Store(s, p, data))
  {
    FrameInRange(s, p);
    assert Owns(s, p, s.pages[p].bytes.value);
    assert forall q, g: Frame :: Owns(Store(s, p, data), q, g) <==> Owns(s, q, g);
  }

  /** A store that is not announced makes the page differ from the disk though it is not dirty. */
  lemma PokeRam(s: Pool, p: Page, data: Bytes)
    requires RamInv(s) && p in s.pages && s.pages[p].bytes.Some?
    ensures s.pages[p].bytes.value < |s.ram|
    ensures RamInv(Poke(s, p, data))
  {
    FrameInRange(s, p);
    assert Owns(s, p, s.pages[p].bytes.value);
    assert forall q, g: Frame :: Owns(Poke(s, p, data), q, g) <==> Owns(s, q, g);
  }

  lemma WroteBytesRam(s: Pool, p: Page)
    requires RamInv(s) && p in s.pages && s.pages[p].bytes.Some?
    ensures RamInv(WroteBytes(s, p))
  {
    assert forall q, g: Frame :: Owns(WroteBytes(s, p), q, g) <==> Owns(s, q, g);
  }

  // ---------- the client's calls ----------

  lemma NewPageRam(s: Pool, slot: Slot, p: Page)
    requires RamInv(s) && p !in s.pages
    ensures RamInv(NewPage(s, slot, p))
  {
    AddPageRam(s, slot, p);
    SameRam(AddPage(s, slot, p), NewPage(s, slot, p));
  }

  lemma GetPageRam(s: Pool, slot: Slot, p: Page)
    requires RamInv(s) && (if slot in s.allPages then s.allPages[slot] in s.pages else p !in s.pages)
    ensures RamInv(GetPage(s, slot, p))
  {
    if slot in s.allPages {
      SameRam(s, GetPage(s, slot, p));
    } else {
      NewPageRam(s, slot, p);
    }
  }

  lemma GetTempPageRam(s: Pool, p: Page)
    requires RamInv(s) && p !in s.pages
    ensures RamInv(GetTempPage(s, p))
  {
    SameRam(s, TakePos(s));
    NewPageRam(TakePos(s), TempSlot(NextPos(s)), p);
  }

  lemma PromoteRam(s: Pool, p: Page)
    requires RamInv(s) && p in s.pages
    ensures RamInv(Promote(s, p))
  {
    SameRam(s, Promote(s, p));
  }

  lemma LoadAndPromoteRam(s: Pool, p: Page)
    requires RamInv(s) && SlotsDiffer(s) && p in s.pages && s.pages[p].bytes.None?
    requires s.availableRam == [] ==> CanKickOut(s) && Oldest(s) !in s.stored
    ensures CanLoad(s, p) && RamInv(Promote(Load(s, p), p))
  {
    LoadRam(s, p);
    PromoteRam(Load(s, p), p);
  }

  lemma AccessRam(s: Pool, p: Page)
    requires RamInv(s) && SlotsDiffer(s) && p in s.pages
    requires s.pages[p].bytes.None? && s.availableRam == [] ==> CanKickOut(s) && Oldest(s) !in s.stored
    ensures CanAccess(s, p) && RamInv(Access(s, p))
  {
    if s.pages[p].bytes.None? {
      LoadAndPromoteRam(s, p);
    }
    SameRam(s, Touch(s, p));
    if p in s.lastUsed {
      PromoteRam(s, p);
    }
  }

  lemma PinRam(s: Pool, p: Page)
    requires RamInv(s) && p in s.pages
    ensures RamInv(Pin(AddHandle(s, p), p))
  {
    SameRam(s, Pin(AddHandle(s, p), p));
  }

  lemma FindForPinningRam(s: Pool, slot: Slot, p: Page)
    requires RamInv(s) && (slot in s.allPages || p !in s.pages)
    ensures RamInv(FindForPinning(s, slot, p))
  {
    if slot in s.allPages {
      SameRam(s, FindForPinning(s, slot, p));
    } else {
      AddPageRam(s, slot, p);
    }
  }

  /** `s1` is the state after the page was found. */
  lemma PinFoundRam(s1: Pool, q: Page)
    requires RamInv(s1) && SlotsDiffer(s1) && q in s1.pages
    requires s1.pages[q].bytes.None? && s1.availableRam == [] ==> CanKickOut(s1) && Oldest(s1) !in s1.stored
    ensures CanAccess(s1, q)
    ensures RamInv(Pin(AddHandle(if s1.pages[q].bytes.None? then Load(s1, q) else s1, q), q))
  {
    if s1.pages[q].bytes.None? {
      LoadRam(s1, q);
      PinRam(Load(s1, q), q);
    } else {
      PinRam(s1, q);
    }
  }

  lemma GetPinnedTempPageRam(s: Pool, p: Page)
    requires RamInv(s) && SlotsDiffer(s) && p !in s.pages
    requires s.availableRam == [] ==> CanKickOut(s) && Oldest(s) !in s.stored
    ensures CanGetPinnedTempPage(s) && RamInv(GetPinnedTempPage(s, p))
  {
    if s.availableRam == [] {
      KickOutRam(s);
      KickOutMakesNoPages(s);
    }
    var s1 := GetTempPage(MakeRoom(s), p);
    GetTempPageRam(MakeRoom(s), p);
    TakeRamKeeps(s1, p);
    SameRam(TakeRam(s1, p).(unwritten := s1.unwritten + {p}), GetPinnedTempPage(s, p));
  }

  lemma DropHandleRam(s: Pool, p: Page)
    requires RamInv(s) && p in s.pages
    ensures RamInv(DropHandle(s, p))
  {
    SameRam(s, Release(s, p));
    if s.pages[p].refCount == 1 {
      KillRam(Release(s, p), p);
    }
  }
}
