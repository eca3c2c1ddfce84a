/** The orderings that key the buffer manager's maps: `TableCompare`, `PageCompare`. */
module PageOrder {
  import opened Commons
  import opened BufferTypes

  /** `<` on C++ strings. */
  predicate StringLess(a: string, b: string) {
    if b == [] then false
    else if a == [] then true
    else a[0] < b[0] || (a[0] == b[0] && StringLess(a[1..], b[1..]))
  }

  /** A null table is `None`. */
  predicate TableLess(lhs: Option<string>, rhs: Option<string>) {
    if lhs == None && rhs != None then true
    else if rhs == None then false
    else StringLess(lhs.value, rhs.value)
  }

  predicate PageLess(lhs: (Option<string>, nat), rhs: (Option<string>, nat)) {
    if TableLess(lhs.0, rhs.0) then true
    else if TableLess(rhs.0, lhs.0) then false
    else lhs.1 < rhs.1
  }

  lemma {:induction false} StringLessOrders(a: string, b: string, c: string)
    ensures !(StringLess(a, b) && StringLess(b, a))
    ensures StringLess(a, b) || StringLess(b, a) || a == b
    ensures StringLess(a, b) && StringLess(b, c) ==> StringLess(a, c)
    ensures !StringLess(a, a)
    decreases |a| + |b| + |c|
  {
    if a != [] && b != [] {
      StringLessOrders(a[1..], b[1..], if c == [] then c else c[1..]);
      if a[0] == b[0] && a[1..] == b[1..] {
        assert a == [a[0]] + a[1..] && b == [b[0]] + b[1..];
      }
    }
    if a != [] {
      StringLessOrders(a[1..], [], []);
    }
  }

  /** `a` is a proper beginning of `b`, or has the smaller character where they first differ. */
  ghost predicate ComesBefore(a: string, b: string) {
    exists k :: && 0 <= k <= |a| && k < |b| && a[..k] == b[..k]
                && (k == |a| || a[k] < b[k])
  }

  /** The order of strings is the order of a dictionary. */
  lemma {:induction false} StringLessMeans(a: string, b: string)
    ensures StringLess(a, b) <==> ComesBefore(a, b)
  {
    if a == [] {
      assert b != [] ==> a[..0] == b[..0];
    } else if b != [] {
      StringLessMeans(a[1..], b[1..]);
      if StringLess(a, b) && a[0] == b[0] {
        var k :| && 0 <= k <= |a[1..]| && k < |b[1..]| && a[1..][..k] == b[1..][..k]
                 && (k == |a[1..]| || a[1..][k] < b[1..][k]);
        assert a[..k + 1] == [a[0]] + a[1..][..k] && b[..k + 1] == [b[0]] + b[1..][..k];
      } else if StringLess(a, b) {
        assert a[..0] == b[..0];
      }
      if ComesBefore(a, b) {
        var k :| 0 <= k <= |a| && k < |b| && a[..k] == b[..k] && (k == |a| || a[k] < b[k]);
        if k > 0 {
          assert a[0] == a[..k][0] == b[..k][0] == b[0];
          assert a[1..][..k - 1] == a[..k][1..] && b[1..][..k - 1] == b[..k][1..];
        }
      }
    }
  }

  /** PageCompare puts the temporary file first, then tables by name, and pages of one file by position. */
  lemma PageLessMeans(x: (Option<string>, nat), y: (Option<string>, nat))
    ensures PageLess(x, y) <==>
              if x.0 == y.0 then x.1 < y.1
              else x.0 == None || (y.0.Some? && ComesBefore(x.0.value, y.0.value))
  {
    PageLessOrders(x, y, x);
    if x.0.Some? && y.0.Some? {
      StringLessMeans(x.0.value, y.0.value);
      StringLessMeans(y.0.value, x.0.value);
      StringLessOrders(x.0.value, y.0.value, x.0.value);
    }
  }

  /** PageCompare is a strict order, and two keys are equivalent under it, hence the same entry of
      allPages, exactly when table name and position agree. */
  lemma PageLessOrders(x: (Option<string>, nat), y: (Option<string>, nat), z: (Option<string>, nat))
    ensures !(PageLess(x, y) && PageLess(y, x))
    ensures !PageLess(x, y) && !PageLess(y, x) <==> x == y
    ensures PageLess(x, y) && PageLess(y, z) ==> PageLess(x, z)
  {
    var a := if x.0.Some? then x.0.value else "";
    var b := if y.0.Some? then y.0.value else "";
    var c := if z.0.Some? then z.0.value else "";
    StringLessOrders(a, b, c);
    StringLessOrders(b, c, a);
    StringLessOrders(c, a, b);
  }

  /** The key under which allPages holds a page. */
  function KeyOf(slot: Slot): (Option<string>, nat) {
    match slot
    case TableSlot(name, pos) => (Some(name), pos)
    case TempSlot(pos) => (None, pos)
  }

  /** Two slots share an entry of a map ordered by PageCompare exactly when they are the same slot, so
      that such a map is a map on slots. */
  lemma EntriesAreSlots(a: Slot, b: Slot)
    ensures !PageLess(KeyOf(a), KeyOf(b)) && !PageLess(KeyOf(b), KeyOf(a)) <==> a == b
  {
    PageLessOrders(KeyOf(a), KeyOf(b), KeyOf(a));
  }
}
