/** Positions in a ring: ever-growing indices, taken modulo the capacity (mpmc_queue.hpp,
    ringbuffer.hpp). */
module RingSlots {
  // pos & mask, for a capacity that is a power of two.
  function Slot(cap: nat, pos: nat): (i: nat)
    requires cap > 0
    ensures i < cap
  {
    pos % cap
  }

  lemma Multiple(cap: nat, q: int)
    requires cap > 0
    ensures q > 0 ==> cap * q >= cap
    ensures q < 0 ==> cap * q + cap <= 0
    ensures q == 0 ==> cap * q == 0
  {
  }

  lemma SlotsDiffer(cap: nat, j: nat, k: nat)
    requires cap > 0 && j < k < j + cap
    ensures Slot(cap, j) != Slot(cap, k)
  {
    var q := k / cap - j / cap;
    Multiple(cap, q);
    assert k - j == cap * q + (k % cap - j % cap);
  }

  lemma SlotAgain(cap: nat, k: nat)
    requires cap > 0
    ensures Slot(cap, k + cap) == Slot(cap, k)
  {
    var q := (k + cap) / cap - k / cap - 1;
    Multiple(cap, q);
    assert 0 == cap * q + ((k + cap) % cap - k % cap);
  }
}
