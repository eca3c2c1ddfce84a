/** Which pages lose their RAM over a run: eviction against exact LRU, and when no page can be evicted. */
module PoolEviction {
  import opened Commons
  import opened BufferTypes
  import opened PoolModel
  import opened PoolInvariant
  import opened PoolSteps
  import opened PoolRuns

  // ---------- how far eviction is from exact LRU ----------

  ghost function TickedWithin(s: Pool, among: set<Page>, lo: int, hi: int): set<Page> {
    set p | p in among && p in s.pages && lo <= s.pages[p].timeTick <= hi
  }

  /** Distinct ticks: no more pages than ticks. */
  lemma {:induction false} AtMostOnePageATick(s: Pool, among: set<Page>, lo: int, hi: int)
    requires TicksOk(s) && 1 <= lo
    ensures |TickedWithin(s, among, lo, hi)| <= if hi < lo then 0 else hi - lo + 1
    decreases if hi < lo then 0 else hi - lo + 1
  {
    var all := TickedWithin(s, among, lo, hi);
    if hi < lo {
      assert all == {};
    } else {
      var rest := TickedWithin(s, among, lo, hi - 1);
      AtMostOnePageATick(s, among, lo, hi - 1);
      if p :| p in all && s.pages[p].timeTick == hi {
        OthersTickedEarlier(s, among, lo, hi, p);
      } else {
        assert all == rest;
      }
    }
  }

  lemma OthersTickedEarlier(s: Pool, among: set<Page>, lo: int, hi: int, p: Page)
    requires TicksOk(s) && 1 <= lo <= hi && p in s.pages && s.pages[p].timeTick == hi && p in among
    ensures |TickedWithin(s, among, lo, hi)| <= |TickedWithin(s, among, lo, hi - 1)| + 1
  {
    var all, rest := TickedWithin(s, among, lo, hi), TickedWithin(s, among, lo, hi - 1);
    forall q | q in all ensures q == p || q in rest {
      assert SameTick(s, p, q) || s.pages[q].timeTick < hi;
    }
    assert all == rest + {p};
  }

  /** The listed pages that were moved to the young end after the clock stood at `clock`. */
  ghost function PromotedAfter(s: Pool, clock: int): set<Page> {
    set q | q in s.lastUsed && q in s.pages && s.pages[q].timeTick > clock
  }

  /** The oldest listed page need not be the least recently accessed, because the fast path does not move
      pages; but all other listed pages except fewer than a window were promoted after its last access. */
  lemma OldestIsNearlyLru(s: Pool, v: Page)
    requires LruInv(s, {}, {}) && IsOldest(s, v)
    ensures v in s.accessedAt
    ensures |PromotedAfter(s, s.accessedAt[v])| >= |s.lastUsed| - Window(s)
    ensures v !in PromotedAfter(s, s.accessedAt[v])
  {
    var late := PromotedAfter(s, s.accessedAt[v]);
    var early := TickedWithin(s, s.lastUsed, s.pages[v].timeTick, s.accessedAt[v]);
    AtMostOnePageATick(s, s.lastUsed, s.pages[v].timeTick, s.accessedAt[v]);
    assert s.lastUsed == late + early;
  }

  // ---------- who is evicted ----------

  /** `v` had RAM and has none any more. */
  ghost predicate LosesRam(s: Pool, s1: Pool, v: Page) {
    && v in s.pages && s.pages[v].bytes.Some?
    && (v in s1.pages ==> s1.pages[v].bytes.None?)
  }

  lemma KickOutVictim(s: Pool, v: Page)
    requires CanKickOut(s)
    ensures LosesRam(s, KickOut(s), v) <==> v == Oldest(s)
  {
  }

  lemma LoadVictim(s: Pool, p: Page, v: Page)
    requires CanLoad(s, p) && p in s.pages && s.pages[p].bytes.None? && LosesRam(s, Load(s, p), v)
    ensures s.availableRam == [] && IsOldest(s, v)
  {
    assert LosesRam(s, MakeRoom(s), v);
    if s.availableRam == [] {
      KickOutVictim(s, v);
    }
  }

  lemma AccessVictim(s: Pool, p: Page, v: Page)
    requires LruOk(s, {}) && CanAccess(s, p) && LosesRam(s, Access(s, p), v)
    ensures s.availableRam == [] && IsOldest(s, v)
  {
    if s.pages[p].bytes.None? {
      assert LosesRam(s, Load(s, p), v);
      LoadVictim(s, p, v);
    }
  }

  lemma WriteVictim(s: Pool, p: Page, data: Bytes, v: Page)
    requires LruOk(s, {}) && CanWrite(s, p) && LosesRam(s, Write(s, p, data), v)
    ensures s.availableRam == [] && IsOldest(s, v)
  {
    assert LosesRam(s, Access(s, p), v);
    AccessVictim(s, p, v);
  }

  lemma NewPageTakesNoRam(s: Pool, slot: Slot, p: Page, v: Page)
    requires p !in s.pages
    ensures !LosesRam(s, NewPage(s, slot, p), v)
  {
  }

  lemma GetPageTakesNoRam(s: Pool, slot: Slot, p: Page, v: Page)
    requires if slot in s.allPages then s.allPages[slot] in s.pages else p !in s.pages
    ensures !LosesRam(s, GetPage(s, slot, p), v)
  {
    if slot !in s.allPages {
      NewPageTakesNoRam(s, slot, p, v);
    }
  }

  lemma FlushTakesNoRam(s: Pool, p: Page, v: Page)
    requires CanStep(s, CallFlush(p))
    ensures !LosesRam(s, Flush(s, p), v)
  {
  }

  lemma OthersTakeNoRam(s: Pool, c: Call, v: Page)
    requires Allowed(s, c) && CanStep(s, c)
    requires c.CallGetPage? || c.CallGetTempPage? || c.CallStore? || c.CallWroteBytes? || c.CallUnpin? || c.CallFlush?
    ensures !LosesRam(s, Step(s, c), v)
  {
    match c
    case CallGetPage(slot, p) => GetPageTakesNoRam(s, slot, p, v);
    case CallGetTempPage(p) => NewPageTakesNoRam(TakePos(s), TempSlot(NextPos(s)), p, v);
    case CallFlush(p) => FlushTakesNoRam(s, p, v);
    case CallUnpin(p) =>
    case _ =>
  }

  /** `s1` is the state after the page to pin was found. */
  lemma PinFoundVictim(s1: Pool, q: Page, v: Page)
    requires CanAccess(s1, q)
    requires LosesRam(s1, Pin(AddHandle(if s1.pages[q].bytes.None? then Load(s1, q) else s1, q), q), v)
    ensures s1.pages[q].bytes.None? && s1.availableRam == [] && IsOldest(s1, v)
  {
    if s1.pages[q].bytes.None? {
      assert LosesRam(s1, Load(s1, q), v);
      LoadVictim(s1, q, v);
    }
  }

  /** Finding the page takes no RAM, and a page found without RAM was not in the list. */
  lemma FindTakesNoRam(s: Pool, slot: Slot, p: Page, s2: Pool, v: Page)
    requires LruOk(s, {}) && (slot in s.allPages || p !in s.pages) && LosesRam(s, s2, v)
    ensures LosesRam(FindForPinning(s, slot, p), s2, v)
  {
  }

  lemma FindKeepsOldest(s: Pool, slot: Slot, p: Page, v: Page)
    requires LruOk(s, {}) && IsOldest(FindForPinning(s, slot, p), v)
    requires if slot in s.allPages then s.allPages[slot] !in s.lastUsed else p !in s.pages
    ensures IsOldest(s, v)
  {
    assert FindForPinning(s, slot, p).lastUsed == s.lastUsed;
  }

  lemma PinVictim(s: Pool, slot: Slot, p: Page, v: Page)
    requires LruOk(s, {}) && IndexOk(s) && (slot in s.allPages || p !in s.pages) && CanGetPinnedPage(s, slot, p)
    requires LosesRam(s, GetPinnedPage(s, slot, p), v)
    ensures s.availableRam == [] && IsOldest(s, v)
  {
    FindTakesNoRam(s, slot, p, GetPinnedPage(s, slot, p), v);
    PinFoundVictim(FindForPinning(s, slot, p), if slot in s.allPages then s.allPages[slot] else p, v);
    FindKeepsOldest(s, slot, p, v);
  }

  lemma PinTempVictim(s: Pool, p: Page, v: Page)
    requires p !in s.pages && CanGetPinnedTempPage(s) && LosesRam(s, GetPinnedTempPage(s, p), v)
    ensures s.availableRam == [] && IsOldest(s, v)
  {
    assert LosesRam(s, MakeRoom(s), v);
    if s.availableRam == [] {
      KickOutVictim(s, v);
    }
  }

  /** With its last handle only a temporary page gives up its RAM. */
  lemma DropTakesTempsOnly(s: Pool, p: Page, v: Page)
    requires p in s.pages && LosesRam(s, DropHandle(s, p), v)
    ensures v == p && s.pages[v].slot.TempSlot? && s.pages[v].refCount == 1
  {
    KillTakesTempsOnly(Release(s, p), p, v);
  }

  lemma KillTakesTempsOnly(s: Pool, p: Page, v: Page)
    requires p in s.pages
    ensures LosesRam(s, Kill(s, p), v) ==> v == p && s.pages[v].slot.TempSlot?
  {
  }

  /** Apart from a temporary page that dies with its last handle, only the oldest listed page loses its RAM,
      and only when no RAM is available. */
  lemma VictimIsOldest(s: Pool, c: Call, v: Page)
    requires LruOk(s, {}) && IndexOk(s) && Allowed(s, c) && CanStep(s, c)
    requires LosesRam(s, Step(s, c), v)
    ensures if c.CallDrop? then v == c.p && s.pages[v].slot.TempSlot? && s.pages[v].refCount == 1
            else s.availableRam == [] && IsOldest(s, v)
  {
    match c
    case CallGetPinnedPage(slot, p) => PinVictim(s, slot, p, v);
    case CallGetPinnedTempPage(p) => PinTempVictim(s, p, v);
    case CallGetBytes(p) => AccessVictim(s, p, v);
    case CallWrite(p, data) => WriteVictim(s, p, data, v);
    case CallDrop(p) => DropTakesTempsOnly(s, p, v);
    case _ => OthersTakeNoRam(s, c, v);
  }

  // ---------- the calls that access a page ----------

  /** The calls after which `v` counts as just accessed. */
  predicate Accesses(c: Call, v: Page) {
    (c.CallGetBytes? || c.CallWrite? || c.CallUnpin?) && c.p == v
  }

  /** `v` was accessed when the clock stood at `clock` or later. */
  ghost predicate AccessedSince(s: Pool, v: Page, clock: int) {
    v in s.accessedAt && clock <= s.accessedAt[v] <= s.lastTimeTick
  }

  lemma GetBytesIsRecorded(s: Pool, v: Page)
    requires CanAccess(s, v)
    ensures AccessedSince(Access(s, v), v, Access(s, v).lastTimeTick)
  {
  }

  lemma AccessIsRecorded(s: Pool, c: Call, v: Page)
    requires CanStep(s, c) && Accesses(c, v)
    ensures AccessedSince(Step(s, c), v, Step(s, c).lastTimeTick)
  {
    if !c.CallUnpin? {
      GetBytesIsRecorded(s, v);
    }
  }

  lemma MakeRoomKeepsAccess(s: Pool, v: Page, clock: int)
    requires (s.availableRam == [] ==> CanKickOut(s)) && AccessedSince(s, v, clock)
    ensures AccessedSince(MakeRoom(s), v, clock)
  {
  }

  lemma AccessKeepsAccess(s: Pool, p: Page, v: Page, clock: int)
    requires CanAccess(s, p) && AccessedSince(s, v, clock)
    ensures AccessedSince(Access(s, p), v, clock)
  {
    if s.pages[p].bytes.None? {
      MakeRoomKeepsAccess(s, v, clock);
    }
  }

  lemma PinKeepsAccess(s: Pool, slot: Slot, p: Page, v: Page, clock: int)
    requires CanGetPinnedPage(s, slot, p) && AccessedSince(s, v, clock)
    ensures AccessedSince(GetPinnedPage(s, slot, p), v, clock)
  {
    var q := if slot in s.allPages then s.allPages[slot] else p;
    var s1 := FindForPinning(s, slot, p);
    if s1.pages[q].bytes.None? {
      MakeRoomKeepsAccess(s1, v, clock);
    }
  }

  /** Accesses are never forgotten. */
  lemma StepKeepsAccess(s: Pool, c: Call, v: Page, clock: int)
    requires CanStep(s, c) && AccessedSince(s, v, clock)
    ensures AccessedSince(Step(s, c), v, clock)
  {
    match c
    case CallGetPinnedPage(slot, p) => PinKeepsAccess(s, slot, p, v, clock);
    case CallGetPinnedTempPage(p) => MakeRoomKeepsAccess(s, v, clock);
    case CallGetBytes(p) => AccessKeepsAccess(s, p, v, clock);
    case CallWrite(p, data) => AccessKeepsAccess(s, p, v, clock);
    case _ =>
  }

  lemma {:induction false} RunKeepsAccess(states: seq<Pool>, calls: seq<Call>, ram: seq<Bytes>, disk: map<Slot, Bytes>,
                                          i: nat, n: nat, v: Page)
    requires IsRun(states, calls, ram, disk) && i < n <= |calls| && Accesses(calls[i], v)
    ensures AccessedSince(states[n], v, states[i + 1].lastTimeTick)
    decreases n
  {
    var last := n - 1;
    StepOfRun(states, calls, ram, disk, last);
    if i == last {
      AccessIsRecorded(states[i], calls[i], v);
    } else {
      RunKeepsAccess(states, calls, ram, disk, i, last, v);
      StepKeepsAccess(states[last], calls[last], v, states[i + 1].lastTimeTick);
    }
  }

  lemma StepOfRun(states: seq<Pool>, calls: seq<Call>, ram: seq<Bytes>, disk: map<Slot, Bytes>, n: nat)
    requires IsRun(states, calls, ram, disk) && n < |calls|
    ensures Allowed(states[n], calls[n]) && CanStep(states[n], calls[n]) && states[n + 1] == Step(states[n], calls[n])
  {
    assert Transition(states[n], calls[n], states[n + 1]);
  }

  lemma NearlyLruSince(s: Pool, v: Page, clock: int)
    requires LruInv(s, {}, {}) && IsOldest(s, v) && AccessedSince(s, v, clock)
    ensures |PromotedAfter(s, clock) - {v}| >= |s.lastUsed| - Window(s)
  {
    OldestIsNearlyLru(s, v);
    SubsetIsNoLarger(PromotedAfter(s, s.accessedAt[v]), PromotedAfter(s, clock) - {v});
  }

  lemma SubsetIsNoLarger(a: set<Page>, b: set<Page>)
    requires a <= b
    ensures |a| <= |b|
  {
    assert b == a + (b - a);
  }

  /** Over any run: when call `n` takes the RAM of a page that call `i` accessed, no RAM was available, the
      page was the oldest in the list, and of the k listed pages at least k - max(1, numPages / 2) others
      have been promoted since that access. */
  lemma EvictionsAreNearlyLru(states: seq<Pool>, calls: seq<Call>, ram: seq<Bytes>, disk: map<Slot, Bytes>,
                              i: nat, n: nat, v: Page)
    requires IsRun(states, calls, ram, disk) && i < n < |calls| && Accesses(calls[i], v)
    requires !calls[n].CallDrop? && LosesRam(states[n], states[n + 1], v)
    ensures states[n].availableRam == [] && IsOldest(states[n], v)
    ensures var since := PromotedAfter(states[n], states[i + 1].lastTimeTick);
            |since - {v}| >= |states[n].lastUsed| - Window(states[n])
  {
    RunKeepsInv(states, calls, ram, disk, n);
    StepOfRun(states, calls, ram, disk, n);
    VictimIsOldest(states[n], calls[n], v);
    RunKeepsAccess(states, calls, ram, disk, i, n, v);
    NearlyLruSince(states[n], v, states[i + 1].lastTimeTick);
  }

  // ---------- when no page can be loaded ----------

  ghost predicate HeldByPinned(s: Pool, f: Frame) {
    exists p :: p in s.pinned && Owns(s, p, f)
  }

  /** kickOutPage has nothing to evict, and getPinnedPage no RAM to give, exactly when every frame is
      held by a pinned page. */
  lemma NoRoomMeansAllPinned(s: Pool)
    requires Inv(s)
    ensures !HasRoom(s) <==> forall f: Frame :: f < s.numPages ==> HeldByPinned(s, f)
  {
    if !HasRoom(s) {
      forall f: Frame | f < s.numPages ensures HeldByPinned(s, f) {
        assert f !in s.availableRam;
        var p :| p in s.pages && Owns(s, p, f);
        assert p in s.pinned;
      }
    } else if s.availableRam != [] {
      var f := s.availableRam[0];
      assert f < s.numPages && !HeldByPinned(s, f);
    } else {
      var p :| p in s.lastUsed;
      var f := s.pages[p].bytes.value;
      assert Owns(s, p, f);
      assert f < s.numPages && !HeldByPinned(s, f);
    }
  }

  // ---------- such states are reachable ----------

  function PinCalls(ps: seq<Page>): (calls: seq<Call>)
    ensures |calls| == |ps|
  {
    if ps == [] then [] else PinCalls(ps[..|ps| - 1]) + [CallGetPinnedTempPage(ps[|ps| - 1])]
  }

  /** The pages `ps` are pinned, no other page exists, and `free` frames are available. */
  ghost predicate PinnedOnly(s: Pool, ps: seq<Page>, free: nat) {
    && (forall p :: p in s.pages ==> p in ps)
    && s.lastUsed == {} && |s.availableRam| == free && s.lastTimeTick == 0
  }

  lemma PinOneMore(s: Pool, ps: seq<Page>, p: Page, free: nat)
    requires PinnedOnly(s, ps, free) && free > 0 && p !in ps
    ensures Allowed(s, CallGetPinnedTempPage(p)) && CanStep(s, CallGetPinnedTempPage(p))
    ensures PinnedOnly(GetPinnedTempPage(s, p), ps + [p], free - 1)
  {
  }

  lemma RunExtends(states: seq<Pool>, calls: seq<Call>, ram: seq<Bytes>, disk: map<Slot, Bytes>, c: Call)
    requires IsRun(states, calls, ram, disk) && Allowed(states[|calls|], c) && CanStep(states[|calls|], c)
    ensures IsRun(states + [Step(states[|calls|], c)], calls + [c], ram, disk)
  {
    var states1, calls1 := states + [Step(states[|calls|], c)], calls + [c];
    forall i | 0 <= i < |calls1| ensures Transition(states1[i], calls1[i], states1[i + 1]) {
      assert i < |calls| ==> Transition(states[i], calls[i], states[i + 1]);
    }
  }

  /** Calls of getPinnedPage () lead to a state without room, whatever the number of frames: exactly when
      there have been as many calls as there are frames. */
  lemma {:induction false} PinningFillsThePool(ram: seq<Bytes>, disk: map<Slot, Bytes>, ps: seq<Page>)
      returns (states: seq<Pool>)
    requires |ps| <= |ram| < TWO_TO_THE_64
    requires forall i, j :: 0 <= i < j < |ps| ==> ps[i] != ps[j]
    ensures IsRun(states, PinCalls(ps), ram, disk) && PinnedOnly(states[|ps|], ps, |ram| - |ps|)
    ensures HasRoom(states[|ps|]) <==> |ps| < |ram|
  {
    if ps == [] {
      states := [InitialPool(ram, disk)];
    } else {
      var last := |ps| - 1;
      var before := PinningFillsThePool(ram, disk, ps[..last]);
      PinOneMore(before[last], ps[..last], ps[last], |ram| - last);
      RunExtends(before, PinCalls(ps[..last]), ram, disk, CallGetPinnedTempPage(ps[last]));
      states := before + [GetPinnedTempPage(before[last], ps[last])];
      assert ps == ps[..last] + [ps[last]];
    }
  }
}
