/** What single calls do beyond the invariant: handles are counted, only dirty pages are written, recycled
    positions are taken from the front, and ticks move only outside the window. */
module PoolEffects {
  import opened Commons
  import opened BufferTypes
  import opened PoolModel
  import opened PoolInvariant
  import PoolLru
  import opened PoolSteps
  import opened PoolRuns

  // ---------- handles ----------

  /** The page a call gives a handle on. */
  ghost function Returned(s: Pool, c: Call): Option<Page> {
    match c
    case CallGetPage(slot, p) => Some(if slot in s.allPages then s.allPages[slot] else p)
    case CallGetPinnedPage(slot, p) => Some(if slot in s.allPages then s.allPages[slot] else p)
    case CallGetTempPage(p) => Some(p)
    case CallGetPinnedTempPage(p) => Some(p)
    case _ => None
  }

  /** By how much a call changes the number of handles on `q`. */
  ghost function HandleChange(s: Pool, c: Call, q: Page): int {
    (if Returned(s, c) == Some(q) then 1 else 0) - (if c.CallDrop? && c.p == q then 1 else 0)
  }

  lemma MakeRoomKeepsHandles(s: Pool)
    requires s.availableRam == [] ==> CanKickOut(s)
    ensures MakeRoom(s).handles == s.handles
  {
  }

  lemma AccessKeepsHandles(s: Pool, p: Page)
    requires CanAccess(s, p)
    ensures Access(s, p).handles == s.handles
  {
    if s.pages[p].bytes.None? {
      MakeRoomKeepsHandles(s);
    }
  }

  lemma GetPinnedAddsHandle(s: Pool, slot: Slot, p: Page)
    requires CanGetPinnedPage(s, slot, p)
    ensures var q := if slot in s.allPages then s.allPages[slot] else p;
            GetPinnedPage(s, slot, p).handles == s.handles + multiset{q}
  {
    var q := if slot in s.allPages then s.allPages[slot] else p;
    var s1 := FindForPinning(s, slot, p);
    if s1.pages[q].bytes.None? {
      MakeRoomKeepsHandles(s1);
    }
  }

  lemma DropRemovesHandle(s: Pool, p: Page)
    requires p in s.pages
    ensures DropHandle(s, p).handles == s.handles - multiset{p}
  {
  }

  lemma GetAddsHandle(s: Pool, slot: Slot, p: Page)
    requires slot in s.allPages ==> s.allPages[slot] in s.pages
    ensures GetPage(s, slot, p).handles == s.handles + multiset{if slot in s.allPages then s.allPages[slot] else p}
  {
  }

  lemma GetTempAddsHandle(s: Pool, p: Page)
    ensures GetTempPage(s, p).handles == s.handles + multiset{p}
  {
  }

  lemma GetPinnedTempAddsHandle(s: Pool, p: Page)
    requires CanGetPinnedTempPage(s)
    ensures GetPinnedTempPage(s, p).handles == s.handles + multiset{p}
  {
    MakeRoomKeepsHandles(s);
    GetTempAddsHandle(MakeRoom(s), p);
  }

  lemma FlushKeepsHandles(s: Pool, p: Page)
    requires CanStep(s, CallFlush(p))
    ensures Flush(s, p).handles == s.handles
  {
  }

  lemma WriteKeepsHandles(s: Pool, p: Page, data: Bytes)
    requires CanWrite(s, p)
    ensures Write(s, p, data).handles == s.handles
  {
    AccessKeepsHandles(s, p);
  }

  lemma OthersKeepHandles(s: Pool, c: Call)
    requires CanStep(s, c)
    requires c.CallGetBytes? || c.CallWrite? || c.CallStore? || c.CallWroteBytes? || c.CallUnpin? || c.CallFlush?
    ensures Step(s, c).handles == s.handles
  {
    match c
    case CallGetBytes(p) => AccessKeepsHandles(s, p);
    case CallWrite(p, data) => WriteKeepsHandles(s, p, data);
    case CallFlush(p) => FlushKeepsHandles(s, p);
    case _ =>
  }

  /** Handles come from the get operations and go one at a time. */
  lemma StepHandles(s: Pool, c: Call)
    requires CanStep(s, c)
    ensures Step(s, c).handles == if c.CallDrop? then s.handles - multiset{c.p}
                                  else if Returned(s, c).Some? then s.handles + multiset{Returned(s, c).value}
                                  else s.handles
  {
    match c
    case CallGetPage(slot, p) => GetAddsHandle(s, slot, p);
    case CallGetTempPage(p) => GetTempAddsHandle(s, p);
    case CallGetPinnedPage(slot, p) => GetPinnedAddsHandle(s, slot, p);
    case CallGetPinnedTempPage(p) => GetPinnedTempAddsHandle(s, p);
    case CallDrop(p) => DropRemovesHandle(s, p);
    case _ => OthersKeepHandles(s, c);
  }

  lemma HandlesMoved(s: Pool, c: Call, after: multiset<Page>, q: Page)
    requires c.CallDrop? ==> c.p in s.handles
    requires after == if c.CallDrop? then s.handles - multiset{c.p}
                      else if Returned(s, c).Some? then s.handles + multiset{Returned(s, c).value}
                      else s.handles
    ensures after[q] == s.handles[q] + HandleChange(s, c, q)
  {
  }

  lemma StepMovesHandles(s: Pool, c: Call, q: Page)
    requires Allowed(s, c) && CanStep(s, c)
    ensures Step(s, c).handles[q] == s.handles[q] + HandleChange(s, c, q)
  {
    StepHandles(s, c);
    HandlesMoved(s, c, Step(s, c).handles, q);
  }

  ghost predicate MovesHandles(s: Pool, c: Call, s1: Pool, q: Page) {
    s1.handles[q] == s.handles[q] + HandleChange(s, c, q)
  }

  lemma TransitionMovesHandles(s: Pool, c: Call, s1: Pool, q: Page)
    requires Transition(s, c, s1)
    ensures MovesHandles(s, c, s1, q)
  {
    StepMovesHandles(s, c, q);
  }

  ghost predicate AllMoveHandles(states: seq<Pool>, calls: seq<Call>, q: Page) {
    && |states| == |calls| + 1
    && forall k {:trigger calls[k]} :: 0 <= k < |calls| ==> MovesHandles(states[k], calls[k], states[k + 1], q)
  }

  lemma RunMovesHandles(states: seq<Pool>, calls: seq<Call>, ram: seq<Bytes>, disk: map<Slot, Bytes>, q: Page)
    requires IsRun(states, calls, ram, disk)
    ensures AllMoveHandles(states, calls, q)
  {
    forall k | 0 <= k < |calls| ensures MovesHandles(states[k], calls[k], states[k + 1], q) {
      TransitionMovesHandles(states[k], calls[k], states[k + 1], q);
    }
  }

  /** Handles on `q` given out and not yet gone after `n` calls. */
  ghost function HandlesOut(states: seq<Pool>, calls: seq<Call>, n: nat, q: Page): int
    requires n <= |calls| <= |states|
  {
    if n == 0 then 0 else HandlesOut(states, calls, n - 1, q) + HandleChange(states[n - 1], calls[n - 1], q)
  }

  lemma {:induction false} HandlesAddUp(states: seq<Pool>, calls: seq<Call>, n: nat, q: Page)
    requires AllMoveHandles(states, calls, q) && n <= |calls| && states[0].handles[q] == 0
    ensures states[n].handles[q] == HandlesOut(states, calls, n, q)
  {
    if n > 0 {
      HandlesAddUp(states, calls, n - 1, q);
      assert MovesHandles(states[n - 1], calls[n - 1], states[n - 1 + 1], q);
    }
  }

  /** Over any run a page's reference count is the number of handles given out on it and not yet gone, and a
      page lives as long as there are any. */
  lemma RunCountsHandles(states: seq<Pool>, calls: seq<Call>, ram: seq<Bytes>, disk: map<Slot, Bytes>, n: nat, q: Page)
    requires IsRun(states, calls, ram, disk) && n <= |calls|
    ensures HandlesOut(states, calls, n, q) >= 0
    ensures HandlesOut(states, calls, n, q) > 0 ==> q in states[n].pages
    ensures q in states[n].pages ==> states[n].pages[q].refCount == HandlesOut(states, calls, n, q)
  {
    RunMovesHandles(states, calls, ram, disk, q);
    HandlesAddUp(states, calls, n, q);
    RunKeepsInv(states, calls, ram, disk, n);
  }

  // ---------- what is written to disk ----------

  /** What `s1` has on disk for a slot and `s` has not. */
  ghost predicate NewOnDisk(s: Pool, s1: Pool, slot: Slot) {
    slot in s1.disk && (slot !in s.disk || s1.disk[slot] != s.disk[slot])
  }

  /** `v` is a dirty page of this slot, and its contents have been written. */
  ghost predicate WrittenFrom(s: Pool, s1: Pool, slot: Slot, v: Page) {
    && v in s.pages && s.pages[v].slot == slot && s.pages[v].isDirty
    && s.pages[v].bytes.Some? && s.pages[v].bytes.value < |s.ram|
    && slot in s1.disk && s1.disk[slot] == s.ram[s.pages[v].bytes.value]
  }

  lemma EvictWrites(s: Pool, v: Page, slot: Slot)
    requires v in s.pages && s.pages[v].bytes.Some? && s.pages[v].bytes.value < |s.ram|
    ensures s.disk.Keys <= Evict(s, v).disk.Keys
    ensures NewOnDisk(s, Evict(s, v), slot) ==> WrittenFrom(s, Evict(s, v), slot, v)
  {
  }

  lemma KillWritesNothing(s: Pool, p: Page)
    requires p in s.pages
    ensures Kill(s, p).disk == s.disk
  {
  }

  lemma KickOutWrites(s: Pool, slot: Slot)
    requires CanKickOut(s)
    ensures s.disk.Keys <= KickOut(s).disk.Keys
    ensures NewOnDisk(s, KickOut(s), slot) ==> WrittenFrom(s, KickOut(s), slot, Oldest(s))
  {
    var v := Oldest(s);
    EvictWrites(s, v, slot);
    KillWritesNothing(Evict(s, v), v);
  }

  lemma MakeRoomWrites(s: Pool, slot: Slot)
    requires s.availableRam == [] ==> CanKickOut(s)
    ensures s.disk.Keys <= MakeRoom(s).disk.Keys
    ensures NewOnDisk(s, MakeRoom(s), slot) ==>
              exists v :: v in s.lastUsed && IsOldest(s, v) && WrittenFrom(s, MakeRoom(s), slot, v)
  {
    if s.availableRam == [] {
      KickOutWrites(s, slot);
    }
  }

  lemma AccessWrites(s: Pool, p: Page, slot: Slot)
    requires CanAccess(s, p)
    ensures s.disk.Keys <= Access(s, p).disk.Keys
    ensures NewOnDisk(s, Access(s, p), slot) ==>
              exists v :: v in s.lastUsed && IsOldest(s, v) && WrittenFrom(s, Access(s, p), slot, v)
  {
    if s.pages[p].bytes.None? {
      MakeRoomWrites(s, slot);
      if NewOnDisk(s, Access(s, p), slot) {
        var v :| v in s.lastUsed && IsOldest(s, v) && WrittenFrom(s, MakeRoom(s), slot, v);
        assert WrittenFrom(s, Access(s, p), slot, v);
      }
    }
  }

  lemma PinFoundWrites(s1: Pool, q: Page, slot: Slot)
    requires CanAccess(s1, q)
    ensures var s2 := Pin(AddHandle(if s1.pages[q].bytes.None? then Load(s1, q) else s1, q), q);
            && s1.disk.Keys <= s2.disk.Keys
            && (NewOnDisk(s1, s2, slot) ==>
                  exists v :: v in s1.lastUsed && IsOldest(s1, v) && WrittenFrom(s1, s2, slot, v))
  {
    if s1.pages[q].bytes.None? {
      MakeRoomWrites(s1, slot);
      var s2 := Pin(AddHandle(Load(s1, q), q), q);
      if NewOnDisk(s1, s2, slot) {
        var v :| v in s1.lastUsed && IsOldest(s1, v) && WrittenFrom(s1, MakeRoom(s1), slot, v);
        assert WrittenFrom(s1, s2, slot, v);
      }
    }
  }

  lemma PinWrites(s: Pool, newSlot: Slot, p: Page, slot: Slot)
    requires LruOk(s, {}) && (newSlot in s.allPages || p !in s.pages) && CanGetPinnedPage(s, newSlot, p)
    ensures s.disk.Keys <= GetPinnedPage(s, newSlot, p).disk.Keys
    ensures NewOnDisk(s, GetPinnedPage(s, newSlot, p), slot) ==>
              exists v :: v in s.lastUsed && WrittenFrom(s, GetPinnedPage(s, newSlot, p), slot, v)
  {
    var s1, s2 := FindForPinning(s, newSlot, p), GetPinnedPage(s, newSlot, p);
    PinFoundWrites(s1, if newSlot in s.allPages then s.allPages[newSlot] else p, slot);
    if NewOnDisk(s, s2, slot) {
      var v :| v in s1.lastUsed && IsOldest(s1, v) && WrittenFrom(s1, s2, slot, v);
      assert v in s.lastUsed && WrittenFrom(s, s2, slot, v);
    }
  }

  lemma PinTempWrites(s: Pool, p: Page, slot: Slot)
    requires CanGetPinnedTempPage(s)
    ensures s.disk.Keys <= GetPinnedTempPage(s, p).disk.Keys
    ensures NewOnDisk(s, GetPinnedTempPage(s, p), slot) ==>
              exists v :: v in s.lastUsed && WrittenFrom(s, GetPinnedTempPage(s, p), slot, v)
  {
    MakeRoomWrites(s, slot);
    if NewOnDisk(s, GetPinnedTempPage(s, p), slot) {
      var v :| v in s.lastUsed && IsOldest(s, v) && WrittenFrom(s, MakeRoom(s), slot, v);
      assert WrittenFrom(s, GetPinnedTempPage(s, p), slot, v);
    }
  }

  lemma FlushWrites(s: Pool, p: Page, slot: Slot)
    requires CanStep(s, CallFlush(p))
    ensures s.disk.Keys <= Flush(s, p).disk.Keys
    ensures NewOnDisk(s, Flush(s, p), slot) ==> slot.TableSlot? && WrittenFrom(s, Flush(s, p), slot, p)
  {
  }

  lemma WriteWrites(s: Pool, p: Page, data: Bytes, slot: Slot)
    requires CanWrite(s, p)
    ensures s.disk.Keys <= Write(s, p, data).disk.Keys
    ensures NewOnDisk(s, Write(s, p, data), slot) ==>
              exists v :: v in s.lastUsed && WrittenFrom(s, Write(s, p, data), slot, v)
  {
    AccessWrites(s, p, slot);
    if NewOnDisk(s, Write(s, p, data), slot) {
      var v :| v in s.lastUsed && IsOldest(s, v) && WrittenFrom(s, Access(s, p), slot, v);
      assert WrittenFrom(s, Write(s, p, data), slot, v);
    }
  }

  lemma DropWritesNothing(s: Pool, p: Page)
    requires p in s.pages
    ensures DropHandle(s, p).disk == s.disk
  {
    KillWritesNothing(Release(s, p), p);
  }

  lemma GetWritesNothing(s: Pool, slot: Slot, p: Page)
    requires slot in s.allPages ==> s.allPages[slot] in s.pages
    ensures GetPage(s, slot, p).disk == s.disk
  {
  }

  lemma OthersWriteNothing(s: Pool, c: Call)
    requires CanStep(s, c)
    requires c.CallGetPage? || c.CallGetTempPage? || c.CallStore? || c.CallWroteBytes? || c.CallUnpin? || c.CallDrop?
    ensures Step(s, c).disk == s.disk
  {
    match c
    case CallGetPage(slot, p) => GetWritesNothing(s, slot, p);
    case CallDrop(p) => DropWritesNothing(s, p);
    case _ =>
  }

  /** A call changes the disk only by writing the contents of a dirty page to its slot: the page being
      flushed, if it is a table's, or else a page of the LRU list.  A clean page is never written. */
  lemma OnlyDirtyPagesAreWritten(s: Pool, c: Call, slot: Slot)
    requires LruOk(s, {}) && Allowed(s, c) && CanStep(s, c)
    ensures s.disk.Keys <= Step(s, c).disk.Keys
    ensures NewOnDisk(s, Step(s, c), slot) ==>
              if c.CallFlush? then slot.TableSlot? && WrittenFrom(s, Step(s, c), slot, c.p)
              else exists v :: v in s.lastUsed && WrittenFrom(s, Step(s, c), slot, v)
  {
    match c
    case CallGetPinnedPage(k, p) => PinWrites(s, k, p, slot);
    case CallGetPinnedTempPage(p) => PinTempWrites(s, p, slot);
    case CallGetBytes(p) => AccessWrites(s, p, slot);
    case CallWrite(p, data) => WriteWrites(s, p, data, slot);
    case CallFlush(p) => FlushWrites(s, p, slot);
    case _ => OthersWriteNothing(s, c);
  }

  // ---------- positions of temporary pages ----------

  ghost predicate PositionTaken(s: Pool, x: nat) {
    exists q :: q in s.pages && UsesPos(s, q, x)
  }

  lemma PositionsBelow(s: Pool, p: Page, pos: nat)
    requires TempsOk(s) && UsesPos(s, p, pos) && forall x :: x in s.availablePositions ==> pos <= x
    ensures forall x: nat :: x < pos ==> PositionTaken(s, x)
  {
    forall x: nat | x < pos ensures PositionTaken(s, x) {
      assert x < s.lastTempPos && x !in s.availablePositions;
    }
  }

  lemma TakesLeast(s: Pool, p: Page)
    ensures var s1 := GetTempPage(s, p);
            && UsesPos(s1, p, NextPos(s)) && s1.pages[p].slot == TempSlot(NextPos(s))
            && forall x :: x in s1.availablePositions ==> NextPos(s) <= x
  {
  }

  lemma PinnedTakesLeast(s: Pool, p: Page)
    requires CanGetPinnedTempPage(s)
    ensures var s1, pos := GetPinnedTempPage(s, p), NextPos(MakeRoom(s));
            && UsesPos(s1, p, pos) && s1.pages[p].slot == TempSlot(pos)
            && forall x :: x in s1.availablePositions ==> pos <= x
  {
    TakesLeast(MakeRoom(s), p);
  }

  /** A new temporary page takes the first position that no live temporary page uses. */
  lemma FirstFreePosition(s: Pool, c: Call)
    requires Inv(s) && Allowed(s, c) && (c.CallGetTempPage? || c.CallGetPinnedTempPage?)
    ensures CanStep(s, c) && c.p in Step(s, c).pages && Step(s, c).pages[c.p].slot.TempSlot?
    ensures forall x: nat :: x < Step(s, c).pages[c.p].slot.pos ==> PositionTaken(Step(s, c), x)
  {
    StepKeepsInv(s, c);
    if c.CallGetTempPage? {
      TakesLeast(s, c.p);
      PositionsBelow(Step(s, c), c.p, NextPos(s));
    } else {
      PinnedTakesLeast(s, c.p);
      PositionsBelow(Step(s, c), c.p, NextPos(MakeRoom(s)));
    }
  }

  // ---------- ticks ----------

  /** The clock's values at which a page of this tick counts as just accessed, in plain numbers. */
  predicate InWindow(numPages: nat, clock: int, tick: int) {
    || (tick == -1 && clock != numPages / 2 - 1)
    || (tick >= 1 && clock >= numPages / 2 && tick > clock - numPages / 2)
  }

  /** getBytes on a resident page: nothing moves if its tick is within the window or the page is not in the
      list; otherwise the page, and no other, gets the next tick. */
  lemma ResidentAccess(s: Pool, p: Page)
    requires TicksOk(s) && s.numPages < TWO_TO_THE_64 && p in s.pages && s.pages[p].bytes.Some?
    requires p in s.lastUsed ==> s.pages[p].timeTick >= 1
    ensures CanAccess(s, p)
    ensures var s1 := Access(s, p);
            && s1.lastUsed == s.lastUsed
            && if InWindow(s.numPages, s.lastTimeTick, s.pages[p].timeTick) || p !in s.lastUsed then
                 s1.pages == s.pages && s1.lastTimeTick == s.lastTimeTick
               else
                 && s1.lastTimeTick == s.lastTimeTick + 1
                 && s1.pages == s.pages[p := s.pages[p].(timeTick := s.lastTimeTick + 1)]
  {
    PoolLru.FastPathMeaning(s, p);
    if p in s.lastUsed {
      assert s.lastUsed + {p} == s.lastUsed;
    }
  }
}
