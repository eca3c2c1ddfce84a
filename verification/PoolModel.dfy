/** The specification of the buffer manager: functions from states to states.  The methods of
    `BufferManager` are proved to compute these functions. */
module PoolModel {
  import opened Commons
  import opened BufferTypes

  datatype PageState = PageState(slot: Slot, bytes: Option<Frame>, isDirty: bool, timeTick: int, refCount: int)

  /** The manager's fields, the live page objects, RAM and disk.  The last five components record the
      client's side: the handles it holds, the pages it has pinned, the temporary pages that came
      pinned and were never written, the pages it has stored into without calling wroteBytes since, and
      the value of the clock when each page was last accessed. */
  datatype Pool = Pool(
    numPages: nat,
    ram: seq<Bytes>,
    availableRam: seq<Frame>,
    pages: map<Page, PageState>,
    allPages: map<Slot, Page>,
    lastUsed: set<Page>,
    availablePositions: multiset<nat>,
    lastTempPos: nat,
    lastTimeTick: int,
    disk: map<Slot, Bytes>,
    handles: multiset<Page>,
    pinned: set<Page>,
    unwritten: set<Page>,
    stored: set<Page>,
    accessedAt: map<Page, int>)

  ghost function InitialPool(ram: seq<Bytes>, disk: map<Slot, Bytes>): Pool {
    Pool(|ram|, ram, seq(|ram|, i => i), map[], map[], {}, multiset{}, 0, 0, disk, multiset{}, {}, {}, {}, map[])
  }

  /** Every slot of every file can be read; bytes never written read as the empty page. */
  function DiskRead(disk: map<Slot, Bytes>, slot: Slot): Bytes {
    if slot in disk then disk[slot] else []
  }

  // ---------- the oldest page ----------

  ghost predicate IsOldest(s: Pool, v: Page) {
    && v in s.lastUsed && v in s.pages
    && forall q :: q in s.lastUsed && q in s.pages ==> s.pages[v].timeTick <= s.pages[q].timeTick
  }

  lemma OldestExists(s: Pool, among: set<Page>)
    requires among != {} && among <= s.pages.Keys
    ensures exists v :: v in among && forall q :: q in among ==> s.pages[v].timeTick <= s.pages[q].timeTick
  {
    var x :| x in among;
    var rest := among - {x};
    if rest == {} {
      assert among == {x};
    } else {
      OldestExists(s, rest);
      var w :| w in rest && forall q :: q in rest ==> s.pages[w].timeTick <= s.pages[q].timeTick;
      var v := if s.pages[w].timeTick < s.pages[x].timeTick then w else x;
      assert forall q :: q in among ==> q == x || q in rest;
    }
  }

  /** `*lastUsed.begin()`. */
  ghost function Oldest(s: Pool): (v: Page)
    requires s.lastUsed != {} && s.lastUsed <= s.pages.Keys
    ensures IsOldest(s, v)
  {
    OldestExists(s, s.lastUsed);
    assert exists w :: w in s.lastUsed && IsOldest(s, w);
    var v :| v in s.lastUsed && IsOldest(s, v);
    v
  }

  // ---------- small steps ----------

  /** `timeTick = ++lastTimeTick; lastUsed.insert(p)`. */
  ghost function Promote(s: Pool, p: Page): Pool
    requires p in s.pages
  {
    var t := s.lastTimeTick + 1;
    s.(lastTimeTick := t,
       lastUsed := s.lastUsed + {p},
       pages := s.pages[p := s.pages[p].(timeTick := t)],
       accessedAt := s.accessedAt[p := t],
       pinned := s.pinned - {p})
  }

  /** Take the last chunk of available RAM for `p`. */
  ghost function TakeRam(s: Pool, p: Page): Pool
    requires p in s.pages && s.availableRam != []
  {
    var n := |s.availableRam| - 1;
    s.(availableRam := s.availableRam[..n],
       pages := s.pages[p := s.pages[p].(bytes := Some(s.availableRam[n]))])
  }

  /** Read `p` from disk into the RAM it owns. */
  ghost function ReadIn(s: Pool, p: Page): Pool
    requires p in s.pages
    requires s.pages[p].bytes.Some? && s.pages[p].bytes.value < |s.ram|
  {
    s.(ram := s.ram[s.pages[p].bytes.value := DiskRead(s.disk, s.pages[p].slot)])
  }

  ghost function WriteBack(s: Pool, p: Page): Pool
    requires p in s.pages
    requires s.pages[p].bytes.Some? && s.pages[p].bytes.value < |s.ram|
  {
    if s.pages[p].isDirty then
      s.(disk := s.disk[s.pages[p].slot := s.ram[s.pages[p].bytes.value]],
         pages := s.pages[p := s.pages[p].(isDirty := false)])
    else s
  }

  ghost function AddPage(s: Pool, slot: Slot, p: Page): Pool {
    s.(pages := s.pages[p := PageState(slot, None, false, -1, 0)],
       allPages := if slot.TableSlot? then s.allPages[slot := p] else s.allPages)
  }

  /** A new handle on `p`. */
  ghost function AddHandle(s: Pool, p: Page): Pool
    requires p in s.pages
  {
    s.(pages := s.pages[p := s.pages[p].(refCount := s.pages[p].refCount + 1)],
       handles := s.handles + multiset{p})
  }

  /** A new page with one handle. */
  ghost function NewPage(s: Pool, slot: Slot, p: Page): Pool {
    AddHandle(AddPage(s, slot, p), p)
  }

  // ---------- operations of the manager ----------

  /** killPage */
  ghost function Kill(s: Pool, p: Page): Pool
    requires p in s.pages
  {
    var st := s.pages[p];
    if st.slot.TempSlot? then
      s.(lastUsed := s.lastUsed - {p},
          availablePositions := s.availablePositions + multiset{st.slot.pos},
          availableRam := if st.bytes.Some? then s.availableRam + [st.bytes.value] else s.availableRam,
          pages := s.pages - {p},
          pinned := s.pinned - {p},
          unwritten := s.unwritten - {p},
          stored := s.stored - {p})
    else if p !in s.lastUsed && st.bytes.Some? then
      Promote(s, p)
    else if st.bytes.None? then
      s.(allPages := s.allPages - {st.slot}, pages := s.pages - {p})
    else s
  }

  /** `v` leaves the LRU list and gives up its RAM. */
  ghost function GiveUpRam(s: Pool, v: Page): Pool
    requires v in s.pages && s.pages[v].bytes.Some?
  {
    s.(lastUsed := s.lastUsed - {v},
       availableRam := s.availableRam + [s.pages[v].bytes.value],
       pages := s.pages[v := s.pages[v].(bytes := None)],
       unwritten := s.unwritten - {v})
  }

  /** The part of kickOutPage before the reference count is looked at. */
  ghost function Evict(s: Pool, v: Page): Pool
    requires v in s.pages
    requires s.pages[v].bytes.Some? && s.pages[v].bytes.value < |s.ram|
  {
    GiveUpRam(WriteBack(s, v), v)
  }

  ghost predicate CanKickOut(s: Pool) {
    && s.lastUsed != {} && s.lastUsed <= s.pages.Keys
    && forall p :: p in s.lastUsed ==> s.pages[p].bytes.Some? && s.pages[p].bytes.value < |s.ram|
  }

  /** kickOutPage */
  ghost function KickOut(s: Pool): Pool
    requires CanKickOut(s)
  {
    var v := Oldest(s);
    var s1 := Evict(s, v);
    if s.pages[v].refCount == 0 then Kill(s1, v) else s1
  }

  lemma KickOutMakesNoPages(s: Pool)
    requires CanKickOut(s)
    ensures KickOut(s).pages.Keys <= s.pages.Keys
    ensures forall q :: q in KickOut(s).pages ==> KickOut(s).pages[q].slot == s.pages[q].slot
  {
  }

  /** Free a chunk of RAM if none is available. */
  ghost function MakeRoom(s: Pool): Pool
    requires s.availableRam == [] ==> CanKickOut(s)
  {
    if s.availableRam == [] then KickOut(s) else s
  }

  lemma MakeRoomMakesNoPages(s: Pool)
    requires s.availableRam == [] ==> CanKickOut(s)
    ensures MakeRoom(s).pages.Keys <= s.pages.Keys
    ensures forall q :: q in MakeRoom(s).pages ==> MakeRoom(s).pages[q].slot == s.pages[q].slot
  {
    if s.availableRam == [] {
      KickOutMakesNoPages(s);
    }
  }

  /** The fast path of access.  `numPages` is unsigned, so the comparison is unsigned too. */
  ghost predicate JustAccessed(s: Pool, p: Page) {
    && p in s.pages
    && ToSizeT(s.pages[p].timeTick) > ToSizeT(s.lastTimeTick - s.numPages / 2)
    && s.pages[p].bytes.Some?
  }

  ghost function Touch(s: Pool, p: Page): Pool {
    s.(accessedAt := s.accessedAt[p := s.lastTimeTick])
  }

  ghost predicate CanLoad(s: Pool, p: Page) {
    && (s.availableRam == [] ==> CanKickOut(s))
    && var s1 := MakeRoom(s);
       && p in s1.pages && s1.availableRam != []
       && s1.availableRam[|s1.availableRam| - 1] < |s1.ram|
  }

  ghost function Load(s: Pool, p: Page): Pool
    requires CanLoad(s, p)
  {
    ReadIn(TakeRam(MakeRoom(s), p), p)
  }

  lemma LoadMakesNoPages(s: Pool, p: Page)
    requires CanLoad(s, p)
    ensures Load(s, p).pages.Keys <= s.pages.Keys
    ensures forall q :: q in Load(s, p).pages ==> Load(s, p).pages[q].slot == s.pages[q].slot
  {
    MakeRoomMakesNoPages(s);
  }

  ghost predicate CanAccess(s: Pool, p: Page) {
    p in s.pages && (s.pages[p].bytes.None? ==> CanLoad(s, p))
  }

  /** access */
  ghost function Access(s: Pool, p: Page): Pool
    requires CanAccess(s, p)
  {
    if JustAccessed(s, p) then Touch(s, p)
    else if p in s.lastUsed then Promote(s, p)
    else if s.pages[p].bytes.None? then Promote(Load(s, p), p)
    else Touch(s, p)
  }

  /** getPage (whichTable, i); `p` is the page object made if none exists */
  ghost function GetPage(s: Pool, slot: Slot, p: Page): Pool
    requires slot in s.allPages ==> s.allPages[slot] in s.pages
  {
    if slot in s.allPages then AddHandle(s, s.allPages[slot])
    else NewPage(s, slot, p)
  }

  ghost predicate IsLeast(m: multiset<nat>, x: nat) {
    x in m && forall y :: y in m ==> x <= y
  }

  lemma LeastExists(m: multiset<nat>)
    requires m != multiset{}
    ensures exists x :: IsLeast(m, x)
    decreases |m|
  {
    var x :| x in m;
    var rest := m - multiset{x};
    if rest == multiset{} {
      assert m == multiset{x} + rest;
      assert IsLeast(m, x);
    } else {
      LeastExists(rest);
      var y :| IsLeast(rest, y);
      LeastOfTwo(m, x, y);
    }
  }

  lemma LeastOfTwo(m: multiset<nat>, x: nat, y: nat)
    requires x in m && IsLeast(m - multiset{x}, y)
    ensures IsLeast(m, if y < x then y else x)
  {
    assert forall z :: z in m ==> z == x || z in m - multiset{x};
  }

  ghost function Least(m: multiset<nat>): (x: nat)
    requires m != multiset{}
    ensures IsLeast(m, x)
  {
    LeastExists(m);
    var x :| IsLeast(m, x);
    x
  }

  /** The position getPage () uses: the least recycled one, else the end of the temporary file. */
  ghost function NextPos(s: Pool): nat {
    if |s.availablePositions| == 0 then s.lastTempPos else Least(s.availablePositions)
  }

  ghost function TakePos(s: Pool): Pool {
    s.(lastTempPos := if |s.availablePositions| == 0 then s.lastTempPos + 1 else s.lastTempPos,
       availablePositions := if |s.availablePositions| == 0 then s.availablePositions
                             else s.availablePositions - multiset{NextPos(s)})
  }

  /** getPage () */
  ghost function GetTempPage(s: Pool, p: Page): Pool {
    NewPage(TakePos(s), TempSlot(NextPos(s)), p)
  }

  ghost function Pin(s: Pool, p: Page): Pool {
    s.(pinned := s.pinned + {p})
  }

  /** The page getPinnedPage (whichTable, i) works on, out of the LRU list. */
  ghost function FindForPinning(s: Pool, slot: Slot, p: Page): Pool {
    if slot !in s.allPages then AddPage(s, slot, p)
    else s.(lastUsed := s.lastUsed - {s.allPages[slot]})
  }

  ghost predicate CanGetPinnedPage(s: Pool, slot: Slot, p: Page) {
    var q := if slot in s.allPages then s.allPages[slot] else p;
    CanAccess(FindForPinning(s, slot, p), q)
  }

  /** getPinnedPage (whichTable, i) */
  ghost function GetPinnedPage(s: Pool, slot: Slot, p: Page): Pool
    requires CanGetPinnedPage(s, slot, p)
  {
    var q := if slot in s.allPages then s.allPages[slot] else p;
    var s1 := FindForPinning(s, slot, p);
    var s2 := if s1.pages[q].bytes.None? then Load(s1, q) else s1;
    Pin(AddHandle(s2, q), q)
  }

  ghost predicate CanGetPinnedTempPage(s: Pool) {
    && (s.availableRam == [] ==> CanKickOut(s))
    && MakeRoom(s).availableRam != []
  }

  /** getPinnedPage () */
  ghost function GetPinnedTempPage(s: Pool, p: Page): Pool
    requires CanGetPinnedTempPage(s)
  {
    var s1 := Pin(TakeRam(GetTempPage(MakeRoom(s), p), p), p);
    s1.(unwritten := s1.unwritten + {p})
  }

  /** flush */
  ghost function Flush(s: Pool, p: Page): Pool
    requires p in s.pages
    requires s.pages[p].bytes.Some? ==> s.pages[p].bytes.value < |s.ram|
  {
    if s.pages[p].bytes.Some? && s.pages[p].isDirty && s.pages[p].slot.TableSlot? then WriteBack(s, p)
    else s
  }

  /** The client stores into a resident page's bytes and calls wroteBytes. */
  ghost function Store(s: Pool, p: Page, data: Bytes): Pool
    requires p in s.pages
    requires s.pages[p].bytes.Some? && s.pages[p].bytes.value < |s.ram|
  {
    s.(ram := s.ram[s.pages[p].bytes.value := data],
       pages := s.pages[p := s.pages[p].(isDirty := true)],
       unwritten := s.unwritten - {p},
       stored := s.stored - {p})
  }

  /** The client stores through a pointer it has kept, and has yet to call wroteBytes. */
  ghost function Poke(s: Pool, p: Page, data: Bytes): Pool
    requires p in s.pages
    requires s.pages[p].bytes.Some? && s.pages[p].bytes.value < |s.ram|
  {
    s.(ram := s.ram[s.pages[p].bytes.value := data], unwritten := s.unwritten - {p}, stored := s.stored + {p})
  }

  /** wroteBytes */
  ghost function WroteBytes(s: Pool, p: Page): Pool
    requires p in s.pages
  {
    s.(pages := s.pages[p := s.pages[p].(isDirty := true)], stored := s.stored - {p})
  }

  ghost function Release(s: Pool, p: Page): Pool
    requires p in s.pages
  {
    s.(pages := s.pages[p := s.pages[p].(refCount := s.pages[p].refCount - 1)],
       handles := s.handles - multiset{p})
  }

  /** A handle on `p` goes away: decRefCount. */
  ghost function DropHandle(s: Pool, p: Page): Pool
    requires p in s.pages
  {
    var s1 := Release(s, p);
    if s1.pages[p].refCount == 0 then Kill(s1, p) else s1
  }
}
