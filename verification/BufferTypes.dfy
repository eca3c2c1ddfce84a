/** Names shared by the buffer manager: page contents, RAM frames, disk slots and page objects. */
module BufferTypes {
  import opened Commons

  /** The contents of one page. */
  type Bytes = seq<bv8>

  /** A chunk of RAM: the index of one of the `numPages` chunks the constructor allocates. */
  type Frame = nat

  /** A place on disk.  Tables are identified by name, as `TableCompare` does; the null table is the
      temporary file. */
  datatype Slot = TableSlot(name: string, pos: nat) | TempSlot(pos: nat)

  const TWO_TO_THE_64: int := 0x1_0000_0000_0000_0000
  const TWO_TO_THE_63: int := 0x8000_0000_0000_0000

  /** Conversion to `size_t`. */
  function ToSizeT(x: int): nat {
    x % TWO_TO_THE_64
  }

  /** A page object.  `bytes` is the RAM it currently owns, if any. */
  class Page {
    const slot: Slot
    var bytes: Option<Frame>
    var isDirty: bool
    var timeTick: int
    var refCount: int

    constructor (slot: Slot)
      ensures this.slot == slot && bytes == None && !isDirty && timeTick == -1 && refCount == 0
    {
      this.slot := slot;
      bytes := None;
      isDirty := false;
      timeTick := -1;
      refCount := 0;
    }
  }
}
