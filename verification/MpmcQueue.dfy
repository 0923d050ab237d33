/** The same queue with one caller at a time (mpmc_queue.hpp): push and pop are a bounded FIFO whose
    capacity is exactly the number of cells. */
module MpmcQueue {
  import opened MpmcProtocol
  import opened RingSlots

  class MpmcQueue<T(0)> {
    const buf: array<Cell<T>>
    var enqueuePos: nat
    var dequeuePos: nat

    ghost predicate Valid()
      reads this, buf
    {
      && buf.Length >= 2
      && dequeuePos <= enqueuePos <= dequeuePos + buf.Length
      && (forall k: nat :: dequeuePos <= k < enqueuePos ==> buf[Slot(buf.Length, k)].seqNo == k + 1)
      && (forall k: nat :: enqueuePos <= k < dequeuePos + buf.Length ==> buf[Slot(buf.Length, k)].seqNo == k)
    }

    // The queued values, oldest first.
    ghost function Contents(): (c: seq<T>)
      requires Valid()
      reads this, buf
      ensures |c| == enqueuePos - dequeuePos
    {
      seq(enqueuePos - dequeuePos, i requires 0 <= i && Valid() reads this, buf =>
        buf[Slot(buf.Length, dequeuePos + i)].data)
    }

    constructor (cap: nat)
      requires cap >= 2
      ensures Valid() && fresh(buf) && buf.Length == cap && Contents() == []
    {
      var cells := new Cell<T>[cap];
      for i := 0 to cap
        invariant forall j :: 0 <= j < i ==> cells[j].seqNo == j
      {
        cells[i] := Cell(i, cells[i].data);
      }
      buf := cells;
      enqueuePos, dequeuePos := 0, 0;
      new;
      forall k: nat | k < cap ensures Slot(cap, k) == k {}
    }

    method Push(v: T) returns (ok: bool)
      requires Valid()
      modifies this`enqueuePos, buf
      ensures Valid()
      ensures ok == (|old(Contents())| < buf.Length)
      ensures Contents() == if ok then old(Contents()) + [v] else old(Contents())
    {
      hide Slot;
      var pos := enqueuePos;
      var i := Slot(buf.Length, pos);
      if pos == dequeuePos + buf.Length { SlotAgain(buf.Length, dequeuePos); }
      var dif := buf[i].seqNo - pos;
      if dif == 0 {
        enqueuePos := pos + 1;
        buf[i] := Cell(buf[i].seqNo, v);
        buf[i] := Cell(pos + 1, buf[i].data);
        SlotsOfWindow(pos);
        return true;
      } else if dif < 0 {
        return false;
      } else {
        // Another producer moved on: not with one caller.
        assert false;
      }
    }

    // out is the caller's variable, which a refused pop does not touch.
    method Pop(out: T) returns (ok: bool, item: T)
      requires Valid()
      modifies this`dequeuePos, buf
      ensures Valid()
      ensures ok == (old(Contents()) != [])
      ensures ok ==> [item] + Contents() == old(Contents())
      ensures !ok ==> Contents() == old(Contents()) && item == out
    {
      hide Slot;
      var pos := dequeuePos;
      var i := Slot(buf.Length, pos);
      var dif := buf[i].seqNo - (pos + 1);
      if dif == 0 {
        dequeuePos := pos + 1;
        item := buf[i].data;
        buf[i] := Cell(pos + buf.Length, buf[i].data);
        SlotAgain(buf.Length, pos);
        SlotsOfWindow(pos);
        return true, item;
      } else if dif < 0 {
        return false, out;
      } else {
        // Another consumer moved on: not with one caller.
        assert false;
      }
    }

    // Positions less than a capacity away from pos use other cells.
    lemma SlotsOfWindow(pos: nat)
      requires buf.Length > 0
      ensures forall k: nat :: pos - buf.Length < k < pos + buf.Length && k != pos ==>
        Slot(buf.Length, k) != Slot(buf.Length, pos)
    {
      forall k: nat | pos - buf.Length < k < pos + buf.Length && k != pos
        ensures Slot(buf.Length, k) != Slot(buf.Length, pos)
      {
        if k < pos { SlotsDiffer(buf.Length, k, pos); } else { SlotsDiffer(buf.Length, pos, k); }
      }
    }
  }
}
