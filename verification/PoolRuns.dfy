/** What holds over whole runs of the buffer manager: any sequence of calls, any interleaving. */
module PoolRuns {
  import opened BufferTypes
  import opened PoolModel
  import opened PoolInvariant
  import opened PoolSteps
  import opened PoolRefinement

  ghost predicate Transition(s: Pool, c: Call, s1: Pool) {
    Allowed(s, c) && CanStep(s, c) && s1 == Step(s, c)
  }

  /** The states a sequence of calls leads through, from a new manager over the given disk. */
  ghost predicate IsRun(states: seq<Pool>, calls: seq<Call>, ram: seq<Bytes>, disk: map<Slot, Bytes>) {
    && |states| == |calls| + 1
    && |ram| < TWO_TO_THE_64
    && states[0] == InitialPool(ram, disk)
    && forall i {:trigger calls[i]} :: 0 <= i < |calls| ==> Transition(states[i], calls[i], states[i + 1])
  }

  // ---------- what each call does to what can be seen ----------

  ghost predicate SlotSeen(s: Pool, c: Call, s1: Pool, slot: Slot) {
    Value(s1, slot) == if WritesSlot(s, c, slot) then c.data else Value(s, slot)
  }

  ghost predicate PageSeen(s: Pool, c: Call, s1: Pool, older p: Page) {
    && p in s1.pages
    && (Settled(s, p) ==> Settled(s1, p) && View(s1, p) == if Writes(s, c, p) then c.data else View(s, p))
    && (Writes(s, c, p) ==> Settled(s1, p) && View(s1, p) == c.data)
  }

  ghost predicate Explained(s: Pool, c: Call, s1: Pool) {
    && (forall slot: Slot :: slot.TableSlot? ==> SlotSeen(s, c, s1, slot))
    && (forall p :: p in s1.pages ==> PageSeen(s, c, s1, p))
    && s1.lastTempPos == if |LiveTemps(s1)| > s.lastTempPos then |LiveTemps(s1)| else s.lastTempPos
  }

  lemma TransitionExplained(s: Pool, c: Call, s1: Pool)
    requires Inv(s) && Transition(s, c, s1)
    ensures Inv(s1) && Explained(s, c, s1)
  {
    StepKeepsInv(s, c);
    StepSlots(s, c);
    forall slot: Slot | slot.TableSlot? ensures SlotSeen(s, c, s1, slot) {
      StepRefines(s, c, slot, c.p);
    }
    forall p | p in s1.pages ensures PageSeen(s, c, s1, p) {
      StepRefines(s, c, TableSlot("", 0), p);
    }
  }

  lemma {:induction false} RunKeepsInv(states: seq<Pool>, calls: seq<Call>, ram: seq<Bytes>, disk: map<Slot, Bytes>,
                                       n: nat)
    requires IsRun(states, calls, ram, disk) && n <= |calls|
    ensures Inv(states[n])
  {
    if n == 0 {
      InitialInv(ram, disk);
    } else {
      RunKeepsInv(states, calls, ram, disk, n - 1);
      TransitionExplained(states[n - 1], calls[n - 1], states[n]);
    }
  }

  ghost predicate AllExplained(states: seq<Pool>, calls: seq<Call>) {
    && |states| == |calls| + 1
    && forall i {:trigger calls[i]} :: 0 <= i < |calls| ==> Explained(states[i], calls[i], states[i + 1])
  }

  lemma RunExplained(states: seq<Pool>, calls: seq<Call>, ram: seq<Bytes>, disk: map<Slot, Bytes>)
    requires IsRun(states, calls, ram, disk)
    ensures AllExplained(states, calls)
  {
    forall i | 0 <= i < |calls| ensures Explained(states[i], calls[i], states[i + 1]) {
      RunKeepsInv(states, calls, ram, disk, i);
      TransitionExplained(states[i], calls[i], states[i + 1]);
    }
  }

  // ---------- the pool refines a map ----------

  /** What the client last wrote to a slot in the first `n` calls; before any write, the disk's bytes. */
  ghost function LastWritten(states: seq<Pool>, calls: seq<Call>, disk: map<Slot, Bytes>, n: nat, slot: Slot): Bytes
    requires n <= |calls| <= |states|
  {
    if n == 0 then DiskRead(disk, slot)
    else if WritesSlot(states[n - 1], calls[n - 1], slot) then calls[n - 1].data
    else LastWritten(states, calls, disk, n - 1, slot)
  }

  lemma {:induction false} ExplainedRefinesMap(states: seq<Pool>, calls: seq<Call>, disk: map<Slot, Bytes>, n: nat,
                                               slot: Slot)
    requires AllExplained(states, calls) && n <= |calls| && slot.TableSlot?
    requires Value(states[0], slot) == DiskRead(disk, slot)
    ensures Value(states[n], slot) == LastWritten(states, calls, disk, n, slot)
  {
    if n > 0 {
      ExplainedRefinesMap(states, calls, disk, n - 1, slot);
      assert Explained(states[n - 1], calls[n - 1], states[n]);
      assert SlotSeen(states[n - 1], calls[n - 1], states[n], slot);
    }
  }

  /** The pool refines a map: at any time every table slot holds what was last written to it. */
  lemma RunRefinesMap(states: seq<Pool>, calls: seq<Call>, ram: seq<Bytes>, disk: map<Slot, Bytes>, n: nat, slot: Slot)
    requires IsRun(states, calls, ram, disk) && n <= |calls| && slot.TableSlot?
    ensures Value(states[n], slot) == LastWritten(states, calls, disk, n, slot)
  {
    RunExplained(states, calls, ram, disk);
    ExplainedRefinesMap(states, calls, disk, n, slot);
  }

  /** Through any handle on a table page the client sees what was last written to its slot. */
  lemma HandlesShowTheMap(states: seq<Pool>, calls: seq<Call>, ram: seq<Bytes>, disk: map<Slot, Bytes>, n: nat, p: Page)
    requires IsRun(states, calls, ram, disk) && n <= |calls|
    requires p in states[n].handles && p in states[n].pages && states[n].pages[p].slot.TableSlot?
    ensures View(states[n], p) == LastWritten(states, calls, disk, n, states[n].pages[p].slot)
  {
    RunKeepsInv(states, calls, ram, disk, n);
    RunRefinesMap(states, calls, ram, disk, n, states[n].pages[p].slot);
  }

  /** Once the destructor has written the pool back, the disk holds what was last written to every
      table slot. */
  lemma RunIsDurable(states: seq<Pool>, calls: seq<Call>, ram: seq<Bytes>, disk: map<Slot, Bytes>,
                     finalDisk: map<Slot, Bytes>, slot: Slot)
    requires IsRun(states, calls, ram, disk) && WrittenBack(states[|calls|], finalDisk) && slot.TableSlot?
    ensures DiskRead(finalDisk, slot) == LastWritten(states, calls, disk, |calls|, slot)
  {
    RunRefinesMap(states, calls, ram, disk, |calls|, slot);
  }

  ghost predicate Shows(s: Pool, p: Page, data: Bytes) {
    Settled(s, p) && View(s, p) == data
  }

  lemma WriteShows(s: Pool, c: Call, s1: Pool, p: Page)
    requires Explained(s, c, s1) && p in s1.pages
    ensures Writes(s, c, p) ==> Shows(s1, p, c.data)
    ensures !Writes(s, c, p) && Settled(s, p) ==> Shows(s1, p, View(s, p))
  {
    assert PageSeen(s, c, s1, p);
  }

  /** From call `w`, which wrote `data` to `p`, until call `n` the page lived and nobody wrote to it. */
  ghost predicate LastWrite(states: seq<Pool>, calls: seq<Call>, w: nat, n: nat, p: Page, data: Bytes)
    requires w < n <= |calls| < |states|
  {
    && Writes(states[w], calls[w], p) && calls[w].data == data
    && (forall i {:trigger calls[i]} :: w < i < n ==> !Writes(states[i], calls[i], p))
    && (forall i {:trigger states[i]} :: w < i <= n ==> p in states[i].pages)
  }

  lemma StepShows(states: seq<Pool>, calls: seq<Call>, i: nat, p: Page)
    requires AllExplained(states, calls) && i < |calls| && p in states[i + 1].pages
    ensures Writes(states[i], calls[i], p) ==> Shows(states[i + 1], p, calls[i].data)
    ensures !Writes(states[i], calls[i], p) && Settled(states[i], p) ==> Shows(states[i + 1], p, View(states[i], p))
  {
    assert Explained(states[i], calls[i], states[i + 1]);
    WriteShows(states[i], calls[i], states[i + 1], p);
  }

  lemma {:induction false} ExplainedWritesLast(states: seq<Pool>, calls: seq<Call>, w: nat, n: nat, p: Page,
                                               data: Bytes)
    requires AllExplained(states, calls) && w < n <= |calls| && LastWrite(states, calls, w, n, p, data)
    ensures Shows(states[n], p, data)
    decreases n
  {
    var last := n - 1;
    StepShows(states, calls, last, p);
    if w < last {
      ExplainedWritesLast(states, calls, w, last, p, data);
      assert !Writes(states[last], calls[last], p);
    }
  }

  /** Any page, temporary or not, shows what was last written to it for as long as it lives. */
  lemma WritesLast(states: seq<Pool>, calls: seq<Call>, ram: seq<Bytes>, disk: map<Slot, Bytes>,
                   w: nat, n: nat, p: Page, data: Bytes)
    requires IsRun(states, calls, ram, disk) && w < n <= |calls| && LastWrite(states, calls, w, n, p, data)
    ensures p in states[n].pages && View(states[n], p) == data
  {
    RunExplained(states, calls, ram, disk);
    ExplainedWritesLast(states, calls, w, n, p, data);
  }

  // ---------- the temporary file ----------

  ghost function PeakTemps(states: seq<Pool>, n: nat): nat
    requires n < |states|
  {
    if n == 0 then |LiveTemps(states[0])|
    else
      var before := PeakTemps(states, n - 1);
      if |LiveTemps(states[n])| > before then |LiveTemps(states[n])| else before
  }

  lemma {:induction false} ExplainedPeak(states: seq<Pool>, calls: seq<Call>, n: nat)
    requires AllExplained(states, calls) && n <= |calls|
    requires states[0].lastTempPos == |LiveTemps(states[0])|
    ensures states[n].lastTempPos == PeakTemps(states, n)
  {
    if n > 0 {
      ExplainedPeak(states, calls, n - 1);
      assert Explained(states[n - 1], calls[n - 1], states[n]);
    }
  }

  /** The temporary file is as long as the most temporary pages that ever lived at once. */
  lemma TempFileIsPeak(states: seq<Pool>, calls: seq<Call>, ram: seq<Bytes>, disk: map<Slot, Bytes>, n: nat)
    requires IsRun(states, calls, ram, disk) && n <= |calls|
    ensures states[n].lastTempPos == PeakTemps(states, n)
  {
    RunExplained(states, calls, ram, disk);
    assert LiveTemps(states[0]) == {};
    ExplainedPeak(states, calls, n);
  }
}
