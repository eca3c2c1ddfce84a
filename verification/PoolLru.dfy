/** Every operation keeps lastUsed, the ticks and the reference counts consistent. */
module PoolLru {
  import opened Commons
  import opened BufferTypes
  import opened PoolModel
  import opened PoolInvariant

  lemma SameTicks(s: Pool, s1: Pool)
    requires TicksOk(s) && s1.lastTimeTick == s.lastTimeTick && s1.pages.Keys <= s.pages.Keys
    requires forall p :: p in s1.pages ==> s1.pages[p].timeTick == s.pages[p].timeTick
    ensures TicksOk(s1)
  {
    assert forall p, q :: SameTick(s1, p, q) ==> SameTick(s, p, q);
  }

  /** What the unsigned comparison of the fast path means: a page with the initial tick passes it
      unless the clock stands at numPages / 2 - 1; any other page passes it exactly when its tick is
      among the last numPages / 2, which cannot happen before the clock reaches numPages / 2. */
  lemma FastPathMeaning(s: Pool, p: Page)
    requires TicksOk(s) && s.numPages < TWO_TO_THE_64 && p in s.pages && s.pages[p].bytes.Some?
    ensures s.pages[p].timeTick == -1 ==>
              (JustAccessed(s, p) <==> s.lastTimeTick != s.numPages / 2 - 1)
    ensures s.pages[p].timeTick >= 1 ==>
              (JustAccessed(s, p) <==>
               s.lastTimeTick >= s.numPages / 2 && s.pages[p].timeTick > s.lastTimeTick - s.numPages / 2)
  {
    var d := s.lastTimeTick - s.numPages / 2;
    if d >= 0 {
      assert ToSizeT(d) == d;
    } else {
      assert ToSizeT(d) == d + TWO_TO_THE_64;
    }
    assert ToSizeT(-1) == TWO_TO_THE_64 - 1;
  }

  lemma EvictRefs(s: Pool, v: Page, unheld: set<Page>)
    requires RefsOk(s, unheld) && v in s.pages
    requires s.pages[v].bytes.Some? && s.pages[v].bytes.value < |s.ram|
    requires s.pages[v].refCount == 0 ==> v in unheld
    ensures RefsOk(Evict(s, v), unheld)
  {
  }

  lemma EvictLru(s: Pool, v: Page, unlisted: set<Page>, unheld: set<Page>)
    requires LruInv(s, unlisted, unheld) && v in s.lastUsed
    requires s.pages[v].bytes.Some? && s.pages[v].bytes.value < |s.ram|
    requires s.pages[v].refCount == 0 ==> v in unheld
    ensures LruInv(Evict(s, v), unlisted, unheld)
  {
    EvictRefs(s, v, unheld);
    SameTicks(s, Evict(s, v));
  }

  lemma KillTempLru(s: Pool, p: Page)
    requires LruInv(s, {}, {p}) && p in s.pages && s.pages[p].slot.TempSlot? && s.pages[p].refCount == 0
    ensures LruInv(Kill(s, p), {}, {})
  {
    SameTicks(s, Kill(s, p));
  }

  lemma ForgetLru(s: Pool, p: Page, unlisted: set<Page>, unheld: set<Page>)
    requires LruInv(s, unlisted, unheld + {p}) && p in s.pages && p !in unlisted
    requires s.pages[p].refCount == 0 && s.pages[p].slot.TableSlot? && s.pages[p].bytes.None?
    ensures LruInv(Kill(s, p), unlisted, unheld)
  {
    SameTicks(s, Kill(s, p));
  }

  lemma PromoteTicks(s: Pool, p: Page)
    requires TicksOk(s) && p in s.pages && s.lastTimeTick + 1 < TWO_TO_THE_63
    ensures TicksOk(Promote(s, p))
  {
    assert forall q, r :: SameTick(Promote(s, p), q, r) && q != p && r != p ==> SameTick(s, q, r);
  }

  /** A resident page that is out of the list enters it with a fresh tick. */
  lemma PromoteLru(s: Pool, p: Page)
    requires LruInv(s, {p}, {p}) && p in s.pages
    requires s.pages[p].bytes.Some? && s.lastTimeTick + 1 < TWO_TO_THE_63
    requires s.pages[p].slot.TableSlot? || s.pages[p].refCount > 0
    ensures LruInv(Promote(s, p), {}, {})
  {
    PromoteTicks(s, p);
  }

  /** A listed page moves to the young end. */
  lemma RepromoteLru(s: Pool, p: Page)
    requires LruInv(s, {}, {}) && p in s.lastUsed && s.lastTimeTick + 1 < TWO_TO_THE_63
    ensures LruInv(Promote(s, p), {}, {})
  {
    PromoteTicks(s, p);
  }

  lemma KickOutLru(s: Pool, spare: set<Page>)
    requires LruInv(s, spare, spare) && CanKickOut(s)
    ensures LruInv(KickOut(s), spare, spare)
    ensures spare * s.pages.Keys <= KickOut(s).pages.Keys
  {
    var v := Oldest(s);
    if s.pages[v].refCount == 0 {
      EvictLru(s, v, spare, spare + {v});
      ForgetLru(Evict(s, v), v, spare, spare);
    } else {
      EvictLru(s, v, spare, spare);
    }
  }

  lemma MakeRoomLru(s: Pool, p: Page)
    requires LruInv(s, {p}, {p}) && p in s.pages && (s.availableRam == [] ==> CanKickOut(s))
    ensures LruInv(MakeRoom(s), {p}, {p}) && p in MakeRoom(s).pages
    ensures MakeRoom(s).pages[p] == s.pages[p] && MakeRoom(s).lastTimeTick == s.lastTimeTick
  {
    if s.availableRam == [] {
      KickOutLru(s, {p});
    }
  }

  lemma ReadInLru(s: Pool, p: Page)
    requires LruInv(s, {p}, {p}) && p in s.pages && s.availableRam != []
    requires s.availableRam[|s.availableRam| - 1] < |s.ram|
    ensures LruInv(ReadIn(TakeRam(s, p), p), {p}, {p})
  {
    SameTicks(s, ReadIn(TakeRam(s, p), p));
  }

  lemma LoadLru(s: Pool, p: Page)
    requires LruInv(s, {p}, {p}) && p in s.pages && s.pages[p].bytes.None? && CanLoad(s, p)
    ensures LruInv(Load(s, p), {p}, {p}) && p in Load(s, p).pages
    ensures Load(s, p).pages[p] == s.pages[p].(bytes := Load(s, p).pages[p].bytes)
    ensures Load(s, p).pages[p].bytes.Some? && Load(s, p).lastTimeTick == s.lastTimeTick
  {
    MakeRoomLru(s, p);
    ReadInLru(MakeRoom(s), p);
  }

  lemma UnlistedLru(s: Pool, p: Page)
    requires LruInv(s, {}, {}) && p !in s.lastUsed
    ensures LruInv(s, {p}, {p})
  {
  }

  lemma AccessLru(s: Pool, p: Page)
    requires LruInv(s, {}, {}) && CanAccess(s, p) && s.lastTimeTick + 1 < TWO_TO_THE_63
    requires s.numPages < TWO_TO_THE_64
    ensures LruInv(Access(s, p), {}, {})
  {
    if JustAccessed(s, p) {
      FastPathMeaning(s, p);
      SameTicks(s, Touch(s, p));
    } else if p in s.lastUsed {
      RepromoteLru(s, p);
    } else if s.pages[p].bytes.None? {
      UnlistedLru(s, p);
      LoadLru(s, p);
      PromoteLru(Load(s, p), p);
    } else {
      SameTicks(s, Touch(s, p));
    }
  }

  lemma AddPageLru(s: Pool, slot: Slot, p: Page)
    requires LruInv(s, {}, {}) && p !in s.pages
    ensures LruInv(AddPage(s, slot, p), {p}, {p})
  {
    var s1 := AddPage(s, slot, p);
    assert forall q, r :: SameTick(s1, q, r) && q != p && r != p ==> SameTick(s, q, r);
  }

  lemma AddHandleLru(s: Pool, p: Page, spare: set<Page>)
    requires LruInv(s, spare, spare) && p in s.pages && spare <= {p}
    ensures LruInv(AddHandle(s, p), spare, {})
  {
    SameTicks(s, AddHandle(s, p));
  }

  /** A page that is out of the list and has no RAM is where it should be. */
  lemma ListedLru(s: Pool, p: Page)
    requires LruInv(s, {p}, {}) && p in s.pages && (s.pages[p].bytes.Some? <==> p in s.pinned)
    ensures LruInv(s, {}, {})
  {
  }

  lemma ReleaseRefs(s: Pool, p: Page)
    requires RefsOk(s, {}) && p in s.handles
    ensures p in s.pages && RefsOk(Release(s, p), {p})
    ensures Release(s, p).pages[p].refCount > 0 ==> RefsOk(Release(s, p), {})
  {
  }

  lemma ReleaseLru(s: Pool, p: Page)
    requires LruInv(s, {}, {}) && p in s.handles
    ensures p in s.pages && LruInv(Release(s, p), {}, {p})
    ensures Release(s, p).pages[p].refCount > 0 ==> LruInv(Release(s, p), {}, {})
  {
    ReleaseRefs(s, p);
    SameTicks(s, Release(s, p));
  }

  lemma KillLru(s: Pool, p: Page)
    requires LruInv(s, {}, {p}) && p in s.pages && s.pages[p].refCount == 0
    requires s.lastTimeTick + 1 < TWO_TO_THE_63
    ensures LruInv(Kill(s, p), {}, {})
  {
    if s.pages[p].slot.TempSlot? {
      KillTempLru(s, p);
    } else if p !in s.lastUsed && s.pages[p].bytes.Some? {
      assert LruInv(s, {p}, {p});
      PromoteLru(s, p);
    } else if s.pages[p].bytes.None? {
      ForgetLru(s, p, {}, {});
    }
  }

  lemma DropHandleLru(s: Pool, p: Page)
    requires LruInv(s, {}, {}) && p in s.handles && s.lastTimeTick + 1 < TWO_TO_THE_63
    ensures p in s.pages && LruInv(DropHandle(s, p), {}, {})
  {
    ReleaseLru(s, p);
    if Release(s, p).pages[p].refCount == 0 {
      KillLru(Release(s, p), p);
    }
  }

  // ---------- the client's calls ----------

  lemma NewPageLru(s: Pool, slot: Slot, p: Page)
    requires LruInv(s, {}, {}) && p !in s.pages
    ensures LruInv(NewPage(s, slot, p), {}, {})
  {
    AddPageLru(s, slot, p);
    AddHandleLru(AddPage(s, slot, p), p, {p});
    ListedLru(NewPage(s, slot, p), p);
  }

  lemma GetPageLru(s: Pool, slot: Slot, p: Page)
    requires LruInv(s, {}, {}) && (if slot in s.allPages then s.allPages[slot] in s.pages else p !in s.pages)
    ensures LruInv(GetPage(s, slot, p), {}, {})
  {
    if slot in s.allPages {
      AddHandleLru(s, s.allPages[slot], {});
    } else {
      NewPageLru(s, slot, p);
    }
  }

  lemma SameLru(s: Pool, s1: Pool)
    requires LruInv(s, {}, {})
    requires s1.pages == s.pages && s1.lastUsed == s.lastUsed && s1.pinned == s.pinned
    requires s1.handles == s.handles && s1.accessedAt == s.accessedAt
    requires s1.lastTimeTick == s.lastTimeTick && s1.numPages == s.numPages
    ensures LruInv(s1, {}, {})
  {
    SameTicks(s, s1);
  }

  lemma NewPageOfLikeLru(s: Pool, s0: Pool, slot: Slot, p: Page)
    requires LruInv(s, {}, {}) && p !in s.pages
    requires s0.pages == s.pages && s0.lastUsed == s.lastUsed && s0.pinned == s.pinned
    requires s0.handles == s.handles && s0.accessedAt == s.accessedAt
    requires s0.lastTimeTick == s.lastTimeTick && s0.numPages == s.numPages
    ensures LruInv(NewPage(s0, slot, p), {}, {})
  {
    SameLru(s, s0);
    NewPageLru(s0, slot, p);
  }

  lemma GetTempPageLru(s: Pool, p: Page)
    requires LruInv(s, {}, {}) && p !in s.pages
    ensures LruInv(GetTempPage(s, p), {}, {})
  {
    NewPageOfLikeLru(s, TakePos(s), TempSlot(NextPos(s)), p);
  }

  lemma PinLru(s: Pool, p: Page)
    requires LruInv(s, {p}, {p}) && p in s.pages && s.pages[p].bytes.Some?
    ensures LruInv(Pin(AddHandle(s, p), p), {}, {})
  {
    AddHandleLru(s, p, {p});
    SameTicks(s, Pin(AddHandle(s, p), p));
  }

  lemma FindForPinningLru(s: Pool, slot: Slot, p: Page)
    requires LruInv(s, {}, {}) && (slot in s.allPages || p !in s.pages)
    ensures var q := if slot in s.allPages then s.allPages[slot] else p;
            LruInv(FindForPinning(s, slot, p), {q}, {q})
  {
    if slot !in s.allPages {
      AddPageLru(s, slot, p);
    } else {
      SameTicks(s, FindForPinning(s, slot, p));
    }
  }

  lemma PinFoundLru(s1: Pool, q: Page)
    requires LruInv(s1, {q}, {q}) && CanAccess(s1, q)
    ensures LruInv(Pin(AddHandle(if s1.pages[q].bytes.None? then Load(s1, q) else s1, q), q), {}, {})
  {
    if s1.pages[q].bytes.None? {
      LoadLru(s1, q);
      PinLru(Load(s1, q), q);
    } else {
      PinLru(s1, q);
    }
  }

  lemma GetPinnedPageLru(s: Pool, slot: Slot, p: Page)
    requires LruInv(s, {}, {}) && (slot in s.allPages || p !in s.pages) && CanGetPinnedPage(s, slot, p)
    ensures LruInv(GetPinnedPage(s, slot, p), {}, {})
  {
    FindForPinningLru(s, slot, p);
    PinFoundLru(FindForPinning(s, slot, p), if slot in s.allPages then s.allPages[slot] else p);
  }

  lemma PinTempLru(s: Pool, p: Page)
    requires LruInv(s, {}, {}) && p in s.pages && s.pages[p].bytes.None? && s.availableRam != []
    ensures LruInv(Pin(TakeRam(s, p), p), {}, {})
  {
    SameTicks(s, Pin(TakeRam(s, p), p));
  }

  lemma PinNewTempLru(s: Pool, p: Page)
    requires LruInv(s, {}, {}) && p !in s.pages && s.availableRam != []
    ensures LruInv(Pin(TakeRam(GetTempPage(s, p), p), p), {}, {})
  {
    GetTempPageLru(s, p);
    PinTempLru(GetTempPage(s, p), p);
  }

  lemma MakeRoomWithoutSpareLru(s: Pool)
    requires LruInv(s, {}, {}) && (s.availableRam == [] ==> CanKickOut(s))
    ensures LruInv(MakeRoom(s), {}, {}) && MakeRoom(s).pages.Keys <= s.pages.Keys
  {
    if s.availableRam == [] {
      KickOutLru(s, {});
    }
    MakeRoomMakesNoPages(s);
  }

  lemma GetPinnedTempPageLru(s: Pool, p: Page)
    requires LruInv(s, {}, {}) && p !in s.pages && CanGetPinnedTempPage(s)
    ensures LruInv(GetPinnedTempPage(s, p), {}, {})
  {
    MakeRoomWithoutSpareLru(s);
    var s1 := Pin(TakeRam(GetTempPage(MakeRoom(s), p), p), p);
    PinNewTempLru(MakeRoom(s), p);
    SameLru(s1, s1.(unwritten := s1.unwritten + {p}));
  }

  lemma UnpinLru(s: Pool, p: Page)
    requires LruInv(s, {}, {}) && p in s.pinned && s.lastTimeTick + 1 < TWO_TO_THE_63
    ensures LruInv(Promote(s, p), {}, {})
  {
    UnlistedLru(s, p);
    PromoteLru(s, p);
  }

  lemma FlushLru(s: Pool, p: Page)
    requires LruInv(s, {}, {}) && p in s.pages && s.pages[p].bytes.Some? && s.pages[p].bytes.value < |s.ram|
    ensures LruInv(Flush(s, p), {}, {})
  {
    SameTicks(s, Flush(s, p));
  }

  lemma StoreLru(s: Pool, p: Page, data: Bytes)
    requires LruInv(s, {}, {}) && p in s.pages && s.pages[p].bytes.Some? && s.pages[p].bytes.value < |s.ram|
    ensures LruInv(Store(s, p, data), {}, {})
  {
    SameTicks(s, Store(s, p, data));
  }

  lemma PokeLru(s: Pool, p: Page, data: Bytes)
    requires LruInv(s, {}, {}) && p in s.pages && s.pages[p].bytes.Some? && s.pages[p].bytes.value < |s.ram|
    ensures LruInv(Poke(s, p, data), {}, {})
  {
    SameLru(s, Poke(s, p, data));
  }

  lemma WroteBytesLru(s: Pool, p: Page)
    requires LruInv(s, {}, {}) && p in s.pages
    ensures LruInv(WroteBytes(s, p), {}, {})
  {
    SameTicks(s, WroteBytes(s, p));
  }
}
