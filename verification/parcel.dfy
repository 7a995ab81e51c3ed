/**
 * The slice of Android's `Parcel` the cell-information wire format uses: a
 * sequence of 32-bit (`writeInt`) and 64-bit (`writeLong`) slots with a read
 * cursor. Writes append; reads consume the slot under the cursor.
 */
module Parcel {
  import opened JavaInt
  import opened Wrappers

  datatype Slot = IntSlot(i: Int32) | LongSlot(l: Int64)

  /** `slots` is everything written so far; `pos` is the index of the next slot to read. */
  datatype Parcel = Parcel(slots: seq<Slot>, pos: nat) {

    /** The slots not yet read. */
    function Unread(): seq<Slot> {
      if pos <= |slots| then slots[pos..] else []
    }
  }

  /** Why a read could not be carried out. */
  datatype ParcelError =
    | Exhausted        // nothing left under the cursor
    | WidthMismatch    // the slot under the cursor has the other width

  const Empty: Parcel := Parcel([], 0)

  function WriteInt(p: Parcel, v: Int32): (q: Parcel)
    requires p.pos <= |p.slots|
    ensures q.slots == p.slots + [IntSlot(v)]
    ensures q.pos == p.pos <= |q.slots|
    ensures q.Unread() == p.Unread() + [IntSlot(v)]
  {
    var q := p.(slots := p.slots + [IntSlot(v)]);
    assert q.slots[q.pos..] == p.slots[p.pos..] + [IntSlot(v)];
    q
  }

  function WriteLong(p: Parcel, v: Int64): (q: Parcel)
    requires p.pos <= |p.slots|
    ensures q.slots == p.slots + [LongSlot(v)]
    ensures q.pos == p.pos <= |q.slots|
    ensures q.Unread() == p.Unread() + [LongSlot(v)]
  {
    var q := p.(slots := p.slots + [LongSlot(v)]);
    assert q.slots[q.pos..] == p.slots[p.pos..] + [LongSlot(v)];
    q
  }

  /** `readInt`: succeeds exactly when the next unread slot is a 32-bit one. */
  function ReadInt(p: Parcel): (r: Result<(Int32, Parcel), ParcelError>)
    ensures r.Success? <==> |p.Unread()| > 0 && p.Unread()[0].IntSlot?
    ensures r.Success? ==> r.value.0 == p.Unread()[0].i
    ensures r.Success? ==> r.value.1 == p.(pos := p.pos + 1) && r.value.1.Unread() == p.Unread()[1..]
  {
    if p.pos >= |p.slots| then Failure(Exhausted)
    else match p.slots[p.pos]
      case IntSlot(v) => Success((v, p.(pos := p.pos + 1)))
      case LongSlot(_) => Failure(WidthMismatch)
  }

  /** `readLong`: succeeds exactly when the next unread slot is a 64-bit one. */
  function ReadLong(p: Parcel): (r: Result<(Int64, Parcel), ParcelError>)
    ensures r.Success? <==> |p.Unread()| > 0 && p.Unread()[0].LongSlot?
    ensures r.Success? ==> r.value.0 == p.Unread()[0].l
    ensures r.Success? ==> r.value.1 == p.(pos := p.pos + 1) && r.value.1.Unread() == p.Unread()[1..]
  {
    if p.pos >= |p.slots| then Failure(Exhausted)
    else match p.slots[p.pos]
      case LongSlot(v) => Success((v, p.(pos := p.pos + 1)))
      case IntSlot(_) => Failure(WidthMismatch)
  }
}
