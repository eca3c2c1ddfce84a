/** What pinning promises: from the call that pins a page until it is unpinned or its last handle goes, the page
    keeps its frame. */
module PoolPins {
  import opened Commons
  import opened BufferTypes
  import opened PoolModel
  import opened PoolInvariant
  import opened PoolSteps
  import opened PoolRefinement
  import opened PoolRuns

  /** `v` is pinned and owns frame `f`. */
  ghost predicate Holds(s: Pool, v: Page, f: Frame) {
    v in s.pinned && v in s.pages && s.pages[v].bytes == Some(f) && v !in s.lastUsed
  }

  lemma KickOutHolds(s: Pool, v: Page, f: Frame)
    requires CanKickOut(s) && Holds(s, v, f)
    ensures Holds(KickOut(s), v, f)
  {
  }

  lemma LoadHolds(s: Pool, p: Page, v: Page, f: Frame)
    requires CanLoad(s, p) && p in s.pages && s.pages[p].bytes.None? && Holds(s, v, f)
    ensures Holds(Load(s, p), v, f)
  {
    if s.availableRam == [] {
      KickOutHolds(s, v, f);
    }
  }

  lemma AccessHolds(s: Pool, p: Page, v: Page, f: Frame)
    requires CanAccess(s, p) && Holds(s, v, f)
    ensures Holds(Access(s, p), v, f)
  {
    if s.pages[p].bytes.None? {
      LoadHolds(s, p, v, f);
    }
  }

  lemma WriteHolds(s: Pool, p: Page, data: Bytes, v: Page, f: Frame)
    requires CanWrite(s, p) && Holds(s, v, f)
    ensures Holds(Write(s, p, data), v, f)
  {
    AccessHolds(s, p, v, f);
  }

  lemma NewPageHolds(s: Pool, slot: Slot, p: Page, v: Page, f: Frame)
    requires p !in s.pages && Holds(s, v, f)
    ensures Holds(NewPage(s, slot, p), v, f) && Holds(AddPage(s, slot, p), v, f)
  {
  }

  lemma GetPageHolds(s: Pool, slot: Slot, p: Page, v: Page, f: Frame)
    requires (if slot in s.allPages then s.allPages[slot] in s.pages else p !in s.pages) && Holds(s, v, f)
    ensures Holds(GetPage(s, slot, p), v, f)
  {
    if slot !in s.allPages {
      NewPageHolds(s, slot, p, v, f);
    }
  }

  lemma PinFoundHolds(s1: Pool, q: Page, v: Page, f: Frame)
    requires CanAccess(s1, q) && Holds(s1, v, f)
    ensures Holds(Pin(AddHandle(if s1.pages[q].bytes.None? then Load(s1, q) else s1, q), q), v, f)
  {
    if s1.pages[q].bytes.None? {
      LoadHolds(s1, q, v, f);
    }
  }

  lemma GetPinnedPageHolds(s: Pool, slot: Slot, p: Page, v: Page, f: Frame)
    requires (slot in s.allPages || p !in s.pages) && CanGetPinnedPage(s, slot, p) && Holds(s, v, f)
    ensures Holds(GetPinnedPage(s, slot, p), v, f)
  {
    if slot !in s.allPages {
      NewPageHolds(s, slot, p, v, f);
    }
    PinFoundHolds(FindForPinning(s, slot, p), if slot in s.allPages then s.allPages[slot] else p, v, f);
  }

  lemma GetTempPageHolds(s: Pool, p: Page, v: Page, f: Frame)
    requires p !in s.pages && Holds(s, v, f)
    ensures Holds(GetTempPage(s, p), v, f)
  {
    NewPageHolds(TakePos(s), TempSlot(NextPos(s)), p, v, f);
  }

  lemma GetPinnedTempPageHolds(s: Pool, p: Page, v: Page, f: Frame)
    requires p !in s.pages && CanGetPinnedTempPage(s) && Holds(s, v, f)
    ensures Holds(GetPinnedTempPage(s, p), v, f)
  {
    if s.availableRam == [] {
      KickOutHolds(s, v, f);
      KickOutMakesNoPages(s);
    }
    GetTempPageHolds(MakeRoom(s), p, v, f);
  }

  lemma DropHolds(s: Pool, p: Page, v: Page, f: Frame)
    requires p in s.pages && Holds(s, v, f) && (p == v ==> s.pages[v].refCount != 1)
    ensures Holds(DropHandle(s, p), v, f)
  {
  }

  lemma FlushHolds(s: Pool, p: Page, v: Page, f: Frame)
    requires CanStep(s, CallFlush(p)) && Holds(s, v, f)
    ensures Holds(Flush(s, p), v, f)
  {
  }

  /** The calls that end a pin: unpinning the page, and the end of its last handle. */
  ghost predicate Releases(s: Pool, c: Call, v: Page) {
    (c.CallUnpin? && c.p == v) || (c.CallDrop? && c.p == v && s.handles[v] == 1)
  }

  lemma StepHolds(s: Pool, c: Call, v: Page, f: Frame)
    requires IndexOk(s) && RefsOk(s, {}) && Allowed(s, c) && CanStep(s, c) && Holds(s, v, f) && !Releases(s, c, v)
    ensures Holds(Step(s, c), v, f)
  {
    match c
    case CallGetPage(slot, p) => GetPageHolds(s, slot, p, v, f);
    case CallGetTempPage(p) => GetTempPageHolds(s, p, v, f);
    case CallGetPinnedPage(slot, p) => GetPinnedPageHolds(s, slot, p, v, f);
    case CallGetPinnedTempPage(p) => GetPinnedTempPageHolds(s, p, v, f);
    case CallGetBytes(p) => AccessHolds(s, p, v, f);
    case CallWrite(p, data) => WriteHolds(s, p, data, v, f);
    case CallFlush(p) => FlushHolds(s, p, v, f);
    case CallDrop(p) => DropHolds(s, p, v, f);
    case CallStore(p, data) =>
    case CallWroteBytes(p) =>
    case CallUnpin(p) =>
  }

  // ---------- the calls that pin ----------

  lemma PinFoundPins(s1: Pool, q: Page)
    requires CanAccess(s1, q) && q !in s1.lastUsed
    ensures var s2 := Pin(AddHandle(if s1.pages[q].bytes.None? then Load(s1, q) else s1, q), q);
            && q in s2.pinned && q in s2.pages && q !in s2.lastUsed && s2.pages[q].bytes.Some?
  {
    if s1.pages[q].bytes.None? && s1.availableRam == [] {
      KickOutLists(s1);
    }
  }

  lemma KickOutLists(s: Pool)
    requires CanKickOut(s)
    ensures KickOut(s).lastUsed <= s.lastUsed
  {
  }

  /** getPinnedPage (whichTable, i) returns the page of that slot, pinned, out of the LRU list and in RAM,
      showing what the slot held. */
  lemma GetPinnedPagePins(s: Pool, slot: Slot, p: Page)
    requires Inv(s) && Allowed(s, CallGetPinnedPage(slot, p))
    ensures CanGetPinnedPage(s, slot, p)
    ensures var q, s1 := if slot in s.allPages then s.allPages[slot] else p, GetPinnedPage(s, slot, p);
            && q in s1.pinned && q in s1.pages && q !in s1.lastUsed && s1.pages[q].bytes.Some?
            && s1.pages[q].slot == slot && View(s1, q) == Value(s, slot)
  {
    var q, c := if slot in s.allPages then s.allPages[slot] else p, CallGetPinnedPage(slot, p);
    StepKeepsInv(s, c);
    StepRefines(s, c, slot, q);
    PinFoundPins(FindForPinning(s, slot, p), q);
    PinnedIsIndexed(s, slot, p);
  }

  lemma LoadKeepsSlots(s: Pool, p: Page)
    requires CanLoad(s, p) && p in s.pages
    ensures forall k :: k in s.allPages && s.allPages[k] == p ==> p in Load(s, p).pages
    ensures p in Load(s, p).pages ==> Load(s, p).pages[p].slot == s.pages[p].slot
  {
    LoadMakesNoPages(s, p);
  }

  lemma PinnedIsIndexed(s: Pool, slot: Slot, p: Page)
    requires IndexOk(s) && slot.TableSlot? && (slot in s.allPages || p !in s.pages) && CanGetPinnedPage(s, slot, p)
    requires IndexOk(GetPinnedPage(s, slot, p))
    ensures var q, s1 := if slot in s.allPages then s.allPages[slot] else p, GetPinnedPage(s, slot, p);
            q in s1.pages && s1.pages[q].slot == slot && slot in s1.allPages && s1.allPages[slot] == q
  {
    var q, s1 := if slot in s.allPages then s.allPages[slot] else p, FindForPinning(s, slot, p);
    if s1.pages[q].bytes.None? {
      LoadKeepsSlots(s1, q);
    }
  }

  lemma GetPinnedTempPagePins(s: Pool, p: Page)
    requires Inv(s) && Allowed(s, CallGetPinnedTempPage(p))
    ensures CanGetPinnedTempPage(s)
    ensures var s1 := GetPinnedTempPage(s, p);
            && p in s1.pinned && p in s1.pages && p !in s1.lastUsed && s1.pages[p].bytes.Some?
            && s1.pages[p].slot.TempSlot?
  {
    StepKeepsInv(s, CallGetPinnedTempPage(p));
  }

  /** The page a call pins. */
  ghost predicate Pins(s: Pool, c: Call, v: Page) {
    match c
    case CallGetPinnedPage(slot, p) => v == if slot in s.allPages then s.allPages[slot] else p
    case CallGetPinnedTempPage(p) => v == p
    case _ => false
  }

  lemma PinningHolds(s: Pool, c: Call, v: Page) returns (f: Frame)
    requires Inv(s) && Allowed(s, c) && CanStep(s, c) && Pins(s, c, v)
    ensures Holds(Step(s, c), v, f)
  {
    match c
    case CallGetPinnedPage(slot, p) =>
      GetPinnedPagePins(s, slot, p);
      f := Step(s, c).pages[v].bytes.value;
    case CallGetPinnedTempPage(p) =>
      GetPinnedTempPagePins(s, p);
      f := Step(s, c).pages[v].bytes.value;
  }

  /** The step from `s` to `s1` keeps a page's pin unless the call ends it. */
  ghost predicate KeepsPin(s: Pool, c: Call, s1: Pool, v: Page) {
    forall f: Frame :: Holds(s, v, f) && !Releases(s, c, v) ==> Holds(s1, v, f)
  }

  lemma TransitionKeepsPin(s: Pool, c: Call, s1: Pool, v: Page)
    requires Inv(s) && Transition(s, c, s1)
    ensures KeepsPin(s, c, s1, v)
  {
    forall f: Frame | Holds(s, v, f) && !Releases(s, c, v) ensures Holds(s1, v, f) {
      StepHolds(s, c, v, f);
    }
  }

  ghost predicate AllKeepPin(states: seq<Pool>, calls: seq<Call>, v: Page) {
    && |states| == |calls| + 1
    && forall k {:trigger calls[k]} :: 0 <= k < |calls| ==> KeepsPin(states[k], calls[k], states[k + 1], v)
  }

  lemma RunKeepsPins(states: seq<Pool>, calls: seq<Call>, ram: seq<Bytes>, disk: map<Slot, Bytes>, v: Page)
    requires IsRun(states, calls, ram, disk)
    ensures AllKeepPin(states, calls, v)
  {
    forall k | 0 <= k < |calls| ensures KeepsPin(states[k], calls[k], states[k + 1], v) {
      RunKeepsInv(states, calls, ram, disk, k);
      TransitionKeepsPin(states[k], calls[k], states[k + 1], v);
    }
  }

  lemma {:induction false} PinKept(states: seq<Pool>, calls: seq<Call>, from: nat, n: nat, v: Page, f: Frame)
    requires AllKeepPin(states, calls, v) && from <= n <= |calls| && Holds(states[from], v, f)
    requires forall k {:trigger calls[k]} :: from <= k < n ==> !Releases(states[k], calls[k], v)
    ensures Holds(states[n], v, f)
    decreases n - from
  {
    if from < n {
      var last := n - 1;
      PinKept(states, calls, from, last, v, f);
      assert !Releases(states[last], calls[last], v);
      assert KeepsPin(states[last], calls[last], states[last + 1], v);
    }
  }

  lemma TransitionPins(s: Pool, c: Call, s1: Pool, v: Page) returns (f: Frame)
    requires Inv(s) && Transition(s, c, s1) && Pins(s, c, v)
    ensures Holds(s1, v, f)
  {
    f := PinningHolds(s, c, v);
  }

  lemma RunPins(states: seq<Pool>, calls: seq<Call>, ram: seq<Bytes>, disk: map<Slot, Bytes>, i: nat, v: Page)
    returns (f: Frame)
    requires IsRun(states, calls, ram, disk) && i < |calls| && Pins(states[i], calls[i], v)
    ensures Holds(states[i + 1], v, f)
  {
    RunKeepsInv(states, calls, ram, disk, i);
    f := TransitionPins(states[i], calls[i], states[i + 1], v);
  }

  lemma KeptFrame(states: seq<Pool>, calls: seq<Call>, i: nat, n: nat, v: Page, f: Frame)
    requires AllKeepPin(states, calls, v) && i < n <= |calls| && Holds(states[i + 1], v, f)
    requires forall k {:trigger calls[k]} :: i < k < n ==> !Releases(states[k], calls[k], v)
    ensures v in states[i + 1].pages && states[i + 1].pages[v].bytes.Some?
    ensures v in states[n].pages && states[n].pages[v].bytes == states[i + 1].pages[v].bytes
    ensures v !in states[n].lastUsed
  {
    PinKept(states, calls, i + 1, n, v, f);
  }

  /** Over any run: once call `i` has pinned a page, it stays in the frame it has, whatever calls follow,
      until it is unpinned or its last handle goes. */
  lemma PinLasts(states: seq<Pool>, calls: seq<Call>, ram: seq<Bytes>, disk: map<Slot, Bytes>, i: nat, n: nat, v: Page)
    requires IsRun(states, calls, ram, disk) && i < n <= |calls| && Pins(states[i], calls[i], v)
    requires forall k {:trigger calls[k]} :: i < k < n ==> !Releases(states[k], calls[k], v)
    ensures v in states[i + 1].pages && states[i + 1].pages[v].bytes.Some?
    ensures v in states[n].pages && states[n].pages[v].bytes == states[i + 1].pages[v].bytes
    ensures v !in states[n].lastUsed
  {
    RunKeepsPins(states, calls, ram, disk, v);
    var f := RunPins(states, calls, ram, disk, i, v);
    KeptFrame(states, calls, i, n, v, f);
  }
}
