/** The bounded queue between the stages of the indexing pipeline (ringbuffer.hpp): a FIFO of at
    most as many items as it has slots.  A blocking call is modelled by the step it takes once its
    wait condition holds. */
module RingBuffer {
  import opened RingSlots

  class RingBuffer<T(0)> {
    const slots: array<T>
    var writeIndex: nat
    var readIndex: nat

    ghost predicate Valid()
      reads this
    {
      slots.Length > 0 && readIndex <= writeIndex <= readIndex + slots.Length
    }

    // The queued items, oldest first.
    ghost function Contents(): (c: seq<T>)
      requires Valid()
      reads this, slots
      ensures |c| == writeIndex - readIndex <= slots.Length
    {
      seq(writeIndex - readIndex, i requires 0 <= i && Valid() reads this, slots =>
        slots[Slot(slots.Length, readIndex + i)])
    }

    constructor (size: nat)
      requires size > 0
      ensures Valid() && fresh(slots) && slots.Length == size && Contents() == []
    {
      slots := new T[size];
      writeIndex, readIndex := 0, 0;
    }

    // What both kinds of push do once there is room.
    method Put(item: T)
      requires Valid() && |Contents()| < slots.Length
      modifies this`writeIndex, slots
      ensures Valid() && Contents() == old(Contents()) + [item]
    {
      var write := writeIndex;
      slots[Slot(slots.Length, write)] := item;
      writeIndex := write + 1;
      forall k: nat | readIndex <= k < write ensures Slot(slots.Length, k) != Slot(slots.Length, write) {
        SlotsDiffer(slots.Length, k, write);
      }
    }

    // What both kinds of pop do once there is an item.
    method Take() returns (item: T)
      requires Valid() && Contents() != []
      modifies this`readIndex
      ensures Valid() && [item] + Contents() == old(Contents())
    {
      item := slots[Slot(slots.Length, readIndex)];
      readIndex := readIndex + 1;
    }

    method Push(item: T) returns (ok: bool)
      requires Valid()
      modifies this`writeIndex, slots
      ensures Valid() && ok == (|old(Contents())| < slots.Length)
      ensures Contents() == if ok then old(Contents()) + [item] else old(Contents())
    {
      if writeIndex - readIndex >= slots.Length { return false; }
      Put(item);
      ok := true;
    }

    method Pop(out: T) returns (ok: bool, item: T)
      requires Valid()
      modifies this`readIndex
      ensures Valid() && ok == (old(Contents()) != [])
      ensures ok ==> [item] + Contents() == old(Contents())
      ensures !ok ==> Contents() == old(Contents()) && item == out
    {
      item := out;
      if readIndex >= writeIndex { return false, item; }
      item := Take();
      ok := true;
    }

    method Full() returns (full: bool)
      requires Valid()
      ensures full == (|Contents()| == slots.Length)
    {
      full := writeIndex - readIndex >= slots.Length;
    }

    method Empty() returns (empty: bool)
      requires Valid()
      ensures empty == (Contents() == [])
    {
      empty := readIndex >= writeIndex;
    }
  }
}
