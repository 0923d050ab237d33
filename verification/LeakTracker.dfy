/** The leak detector's side table (leak_tracker.hpp): fixed capacity, open addressing with linear
    probing and tombstones.  Pointers are 64-bit addresses. */
module LeakTracker {
  import RingSlots

  datatype SlotState = EMPTY | USED | TOMB

  datatype Slot = Slot(key: nat, size: nat, id: nat, st: SlotState)

  datatype Option<T> = None | Some(value: T)

  const WORD: nat := 0x1_0000_0000_0000_0000

  // Fibonacci hashing of the address without its alignment bits.
  function Hash(p: nat, capacity: nat): (h: nat)
    requires capacity > 0
    ensures h < capacity
  {
    ((p / 16 * 0x9E37_79B9_7F4A_7C15) % WORD) % capacity
  }

  // The n-th slot on the probe path from h.
  function Probe(h: nat, n: nat, capacity: nat): (i: nat)
    requires h < capacity && n < capacity
    ensures i < capacity
  {
    if h + n < capacity then h + n else h + n - capacity
  }

  // The path is linear and wraps around once.
  lemma ProbeIsLinear(h: nat, n: nat, capacity: nat)
    requires h < capacity && n < capacity
    ensures Probe(h, n, capacity) == (h + n) % capacity
  {
    if h + n >= capacity { RingSlots.SlotAgain(capacity, h + n - capacity); }
    SmallSlot(capacity, Probe(h, n, capacity));
  }

  lemma SmallSlot(capacity: nat, i: nat)
    requires i < capacity
    ensures i % capacity == i
  {
  }

  // Addresses that differ in their alignment bits only share a path; the next aligned one lies the constant further.
  lemma HashSteps(p: nat)
    ensures p < 16 ==> Hash(p, 0x1_0000) == 0
    ensures 16 <= p < 32 ==> Hash(p, 0x1_0000) == 0x7C15
    ensures 32 <= p < 48 ==> Hash(p, 0x1_0000) == 0xF82A
  {
    if p < 16 { assert p / 16 == 0; }
    if 16 <= p < 32 { assert p / 16 == 1; }
    if 32 <= p < 48 { assert p / 16 == 2; }
  }

  // How far slot i is along the probe path from h.
  function Distance(h: nat, i: nat, capacity: nat): (n: nat)
    requires h < capacity && i < capacity
    ensures n < capacity && Probe(h, n, capacity) == i
    ensures forall m: nat :: m < capacity && Probe(h, m, capacity) == i ==> m == n
  {
    if h <= i then i - h else i + capacity - h
  }

  // ---------------------------------------------------------------- the table as a value

  function UsedCount(slots: seq<Slot>): nat {
    if slots == [] then 0 else (if slots[0].st.USED? then 1 else 0) + UsedCount(slots[1..])
  }

  function UsedBytes(slots: seq<Slot>): nat {
    if slots == [] then 0 else (if slots[0].st.USED? then slots[0].size else 0) + UsedBytes(slots[1..])
  }

  function B(b: bool): nat { if b then 1 else 0 }

  lemma {:induction false} Replaced(slots: seq<Slot>, i: nat, x: Slot)
    requires i < |slots|
    ensures UsedCount(slots[i := x]) + B(slots[i].st.USED?) == UsedCount(slots) + B(x.st.USED?)
    ensures UsedBytes(slots[i := x]) + (if slots[i].st.USED? then slots[i].size else 0)
            == UsedBytes(slots) + (if x.st.USED? then x.size else 0)
  {
    if i == 0 {
      assert slots[i := x][1..] == slots[1..];
    } else {
      Replaced(slots[1..], i - 1, x);
      assert slots[i := x][1..] == slots[1..][i - 1 := x];
    }
  }

  lemma {:induction false} UsedCountLast(slots: seq<Slot>)
    requires slots != []
    ensures UsedCount(slots) == UsedCount(slots[..|slots| - 1]) + B(slots[|slots| - 1].st.USED?)
  {
    if |slots| > 1 {
      UsedCountLast(slots[1..]);
      assert slots[1..][..|slots| - 2] == slots[..|slots| - 1][1..];
    }
  }

  lemma {:induction false} NoneUsed(slots: seq<Slot>)
    requires forall i :: 0 <= i < |slots| ==> !slots[i].st.USED?
    ensures UsedCount(slots) == 0 && UsedBytes(slots) == 0
  {
    if slots != [] { NoneUsed(slots[1..]); }
  }

  ghost predicate Tracked(slots: seq<Slot>, p: nat) {
    exists i :: 0 <= i < |slots| && slots[i].st.USED? && slots[i].key == p
  }

  // No EMPTY slot lies on the probe path to a USED one.
  ghost predicate PathOk(slots: seq<Slot>, i: nat)
    requires i < |slots|
  {
    slots[i].st.USED? ==>
      var h := Hash(slots[i].key, |slots|);
      forall n: nat :: n < Distance(h, i, |slots|) ==> !slots[Probe(h, n, |slots|)].st.EMPTY?
  }

  ghost predicate TableOk(slots: seq<Slot>) {
    && |slots| > 0
    && (forall i :: 0 <= i < |slots| ==> PathOk(slots, i))
    && (forall i, j :: 0 <= i < j < |slots| && slots[i].st.USED? && slots[j].st.USED? ==> slots[i].key != slots[j].key)
  }

  // The live allocations: address to size and id.
  ghost function LiveOf(slots: seq<Slot>): map<nat, (nat, nat)>
    requires TableOk(slots)
  {
    map i | 0 <= i < |slots| && slots[i].st.USED? :: slots[i].key := (slots[i].size, slots[i].id)
  }

  lemma LiveIsTracked(slots: seq<Slot>, p: nat)
    requires TableOk(slots)
    ensures p in LiveOf(slots) <==> Tracked(slots, p)
  {
  }

  lemma LiveAt(slots: seq<Slot>, i: nat)
    requires TableOk(slots) && i < |slots| && slots[i].st.USED?
    ensures slots[i].key in LiveOf(slots) && LiveOf(slots)[slots[i].key] == (slots[i].size, slots[i].id)
  {
  }

  // An untracked key in the first free slot of its probe path.
  lemma Filled(slots: seq<Slot>, i: nat, x: Slot)
    requires TableOk(slots) && i < |slots| && !slots[i].st.USED? && x.st.USED? && !Tracked(slots, x.key)
    requires var h := Hash(x.key, |slots|);
      forall m: nat :: m < Distance(h, i, |slots|) ==> slots[Probe(h, m, |slots|)].st.USED?
    ensures TableOk(slots[i := x])
  {
    var after := slots[i := x];
    forall j | 0 <= j < |after| ensures PathOk(after, j) {
      assert PathOk(slots, j);
    }
  }

  // A tombstone keeps the paths that lead through it.
  lemma Emptied(slots: seq<Slot>, i: nat)
    requires TableOk(slots) && i < |slots|
    ensures TableOk(slots[i := slots[i].(st := TOMB)])
  {
    var after := slots[i := slots[i].(st := TOMB)];
    forall j | 0 <= j < |after| ensures PathOk(after, j) {
      assert PathOk(slots, j);
    }
  }

  lemma LiveAfterFill(slots: seq<Slot>, i: nat, x: Slot)
    requires TableOk(slots) && i < |slots| && !slots[i].st.USED? && x.st.USED? && TableOk(slots[i := x])
    ensures LiveOf(slots[i := x]) == LiveOf(slots)[x.key := (x.size, x.id)]
  {
    var after := slots[i := x];
    forall p ensures p in LiveOf(after) <==> p in LiveOf(slots)[x.key := (x.size, x.id)] {
      LiveIsTracked(after, p);
      LiveIsTracked(slots, p);
      if Tracked(slots, p) {
        var j :| 0 <= j < |slots| && slots[j].st.USED? && slots[j].key == p;
        assert after[j].st.USED? && after[j].key == p;
      }
      if p == x.key { assert after[i].st.USED? && after[i].key == p; }
    }
    forall p | p in LiveOf(after) ensures LiveOf(after)[p] == LiveOf(slots)[x.key := (x.size, x.id)][p] {
      LiveIsTracked(after, p);
      var j :| 0 <= j < |after| && after[j].st.USED? && after[j].key == p;
      LiveAt(after, j);
      if j != i {
        LiveAt(slots, j);
        assert after[i].st.USED? && after[j].key != after[i].key;
      }
    }
  }

  lemma TrackedAfterTomb(slots: seq<Slot>, i: nat, p: nat)
    requires TableOk(slots) && i < |slots| && slots[i].st.USED?
    ensures Tracked(slots[i := slots[i].(st := TOMB)], p) <==> Tracked(slots, p) && p != slots[i].key
  {
    hide PathOk;
    var after := slots[i := slots[i].(st := TOMB)];
    if Tracked(slots, p) && p != slots[i].key {
      var j :| 0 <= j < |slots| && slots[j].st.USED? && slots[j].key == p;
      assert after[j].st.USED? && after[j].key == p;
    }
    if Tracked(after, p) {
      var j :| 0 <= j < |after| && after[j].st.USED? && after[j].key == p;
      assert slots[j].st.USED? && slots[j].key == p && j != i;
    }
  }

  lemma LiveAfterTomb(slots: seq<Slot>, i: nat)
    requires TableOk(slots) && i < |slots| && slots[i].st.USED?
    requires TableOk(slots[i := slots[i].(st := TOMB)])
    ensures LiveOf(slots[i := slots[i].(st := TOMB)]) == LiveOf(slots) - {slots[i].key}
  {
    hide LiveOf, TableOk, Tracked;
    var after := slots[i := slots[i].(st := TOMB)];
    forall p ensures p in LiveOf(after) <==> p in LiveOf(slots) - {slots[i].key} {
      LiveIsTracked(after, p);
      LiveIsTracked(slots, p);
      TrackedAfterTomb(slots, i, p);
    }
    forall p | p in LiveOf(after) ensures LiveOf(after)[p] == LiveOf(slots)[p] { SameLive(slots, i, p); }
  }

  lemma SameLive(slots: seq<Slot>, i: nat, p: nat)
    requires TableOk(slots) && i < |slots| && slots[i].st.USED?
    requires var after := slots[i := slots[i].(st := TOMB)]; TableOk(after) && p in LiveOf(after) && p in LiveOf(slots)
    ensures LiveOf(slots[i := slots[i].(st := TOMB)])[p] == LiveOf(slots)[p]
  {
    hide LiveOf, TableOk;
    var after := slots[i := slots[i].(st := TOMB)];
    LiveIsTracked(after, p);
    var j :| 0 <= j < |after| && after[j].st.USED? && after[j].key == p;
    LiveAt(after, j);
    LiveAt(slots, j);
  }

  // live_count is the number of live allocations.
  lemma CountIsLive(slots: seq<Slot>)
    requires TableOk(slots)
    ensures UsedCount(slots) == |LiveOf(slots)|
  {
    UsedKeys(slots);
    assert LiveOf(slots).Keys == KeysUsed(slots);
    assert |LiveOf(slots)| == |LiveOf(slots).Keys|;
  }

  ghost function KeysUsed(slots: seq<Slot>): set<nat> {
    set i | 0 <= i < |slots| && slots[i].st.USED? :: slots[i].key
  }

  ghost predicate KeysDiffer(slots: seq<Slot>) {
    forall i, j :: 0 <= i < j < |slots| && slots[i].st.USED? && slots[j].st.USED? ==> slots[i].key != slots[j].key
  }

  lemma KeysUsedStep(slots: seq<Slot>)
    requires slots != []
    ensures KeysUsed(slots) == KeysUsed(slots[1..]) + if slots[0].st.USED? then {slots[0].key} else {}
  {
    var rest := slots[1..];
    forall k | k in KeysUsed(rest) ensures k in KeysUsed(slots) {
      var i :| 0 <= i < |rest| && rest[i].st.USED? && rest[i].key == k;
      assert slots[i + 1].key == k;
    }
    forall k | k in KeysUsed(slots) && k !in KeysUsed(rest) ensures slots[0].st.USED? && slots[0].key == k {
      var i :| 0 <= i < |slots| && slots[i].st.USED? && slots[i].key == k;
      assert i > 0 ==> rest[i - 1].key == k;
    }
  }

  lemma KeysDifferStep(slots: seq<Slot>)
    requires slots != [] && KeysDiffer(slots)
    ensures KeysDiffer(slots[1..])
    ensures slots[0].st.USED? ==> slots[0].key !in KeysUsed(slots[1..])
  {
    assert forall i :: 0 <= i < |slots| - 1 ==> slots[1..][i] == slots[i + 1];
  }

  lemma {:induction false} UsedKeys(slots: seq<Slot>)
    requires KeysDiffer(slots)
    ensures |KeysUsed(slots)| == UsedCount(slots)
  {
    hide KeysUsed, KeysDiffer;
    if slots == [] {
      NoKeys(slots);
    } else {
      KeysUsedStep(slots);
      KeysDifferStep(slots);
      UsedKeys(slots[1..]);
    }
  }

  lemma NoKeys(slots: seq<Slot>)
    requires slots == []
    ensures KeysUsed(slots) == {}
  {
  }

  // ---------------------------------------------------------------- the class

  class LeakTracker {
    const slots: array<Slot>
    var liveCount: nat
    var liveBytes: nat
    var totalAllocations: nat
    var invalidFrees: nat
    var nextId: nat

    ghost predicate Valid()
      reads this, slots
    {
      && TableOk(slots[..])
      && liveCount == UsedCount(slots[..])
      && liveBytes == UsedBytes(slots[..])
    }

    ghost function Live(): map<nat, (nat, nat)>
      requires Valid()
      reads this, slots
    {
      LiveOf(slots[..])
    }

    constructor (capacity: nat)
      requires capacity > 0
      ensures Valid() && fresh(slots) && slots.Length == capacity && Live() == map[] && nextId == 1
    {
      slots := new Slot[capacity](_ => Slot(0, 0, 0, EMPTY));
      liveCount, liveBytes, totalAllocations, invalidFrees, nextId := 0, 0, 0, 0, 1;
      new;
      NoneUsed(slots[..]);
    }

    // Index of the USED slot whose key is p, or None: found despite tombstones on the way.
    method FindSlot(p: nat) returns (found: Option<nat>)
      requires TableOk(slots[..])
      ensures found.None? <==> !Tracked(slots[..], p)
      ensures found.Some? ==> found.value < slots.Length && slots[found.value].st.USED? && slots[found.value].key == p
    {
      var h := Hash(p, slots.Length);
      var i := h;
      var n := 0;
      while n < slots.Length
        invariant 0 <= n <= slots.Length && (n < slots.Length ==> i == Probe(h, n, slots.Length))
        invariant forall m: nat :: m < n ==>
          var x := slots[Probe(h, m, slots.Length)]; !x.st.EMPTY? && !(x.st.USED? && x.key == p)
      {
        if slots[i].st.EMPTY? {
          EndOfPath(slots[..], p, n);
          return None;
        }
        if slots[i].st.USED? && slots[i].key == p {
          assert slots[..][i] == slots[i];
          return Some(i);
        }
        n := n + 1;
        i := if i + 1 == slots.Length then 0 else i + 1;
      }
      EndOfPath(slots[..], p, n);
      found := None;
    }

    // The first slot on the probe path that is not USED; None only if the table is full.
    method SlotForInsert(p: nat) returns (free: Option<nat>)
      requires slots.Length > 0
      ensures free.None? <==> forall i :: 0 <= i < slots.Length ==> slots[i].st.USED?
      ensures free.Some? ==> free.value < slots.Length && !slots[free.value].st.USED?
      ensures free.Some? ==> var h := Hash(p, slots.Length);
        forall m: nat :: m < Distance(h, free.value, slots.Length) ==> slots[Probe(h, m, slots.Length)].st.USED?
    {
      var h := Hash(p, slots.Length);
      var i := h;
      var n := 0;
      while n < slots.Length
        invariant 0 <= n <= slots.Length && (n < slots.Length ==> i == Probe(h, n, slots.Length))
        invariant forall m: nat :: m < n ==> slots[Probe(h, m, slots.Length)].st.USED?
      {
        if !slots[i].st.USED? { return Some(i); }
        n := n + 1;
        i := if i + 1 == slots.Length then 0 else i + 1;
      }
      forall k | 0 <= k < slots.Length ensures slots[k].st.USED? {
        assert Probe(h, Distance(h, k, slots.Length), slots.Length) == k;
      }
      free := None;
    }

    // Record a live allocation: p is not tracked yet, and the table is not full.
    method Track(p: nat, size: nat)
      requires Valid() && p !in Live() && exists i :: 0 <= i < slots.Length && !slots[i].st.USED?
      modifies this, slots
      ensures Valid() && Live() == old(Live())[p := (size, old(nextId))]
      ensures liveCount == old(liveCount) + 1 && liveBytes == old(liveBytes) + size
      ensures totalAllocations == old(totalAllocations) + 1 && nextId == old(nextId) + 1
      ensures invalidFrees == old(invalidFrees)
    {
      ghost var before := slots[..];
      LiveIsTracked(before, p);
      var free := SlotForInsert(p);
      var i := free.value;
      var x := Slot(p, size, nextId, USED);
      Filled(before, i, x);
      Replaced(before, i, x);
      slots[i] := x;
      assert slots[..] == before[i := x];
      nextId := nextId + 1;
      liveCount := liveCount + 1;
      liveBytes := liveBytes + size;
      totalAllocations := totalAllocations + 1;
      LiveAfterFill(before, i, x);
    }

    // Drop the live allocation at p; a pointer that is not tracked is a double or invalid free.
    method Untrack(p: nat) returns (ok: bool)
      requires Valid()
      modifies this, slots
      ensures Valid() && ok == (p in old(Live())) && Live() == old(Live()) - {p}
      ensures liveCount == old(liveCount) - B(ok) && invalidFrees == old(invalidFrees) + B(!ok)
      ensures liveBytes == old(liveBytes) - (if ok then old(Live())[p].0 else 0)
      ensures totalAllocations == old(totalAllocations) && nextId == old(nextId)
    {
      ghost var before := slots[..];
      LiveIsTracked(before, p);
      var found := FindSlot(p);
      if found.None? {
        invalidFrees := invalidFrees + 1;
        return false;
      }
      var i := found.value;
      var x := slots[i].(st := TOMB);
      Emptied(before, i);
      Replaced(before, i, x);
      LiveAt(before, i);
      liveCount := liveCount - 1;
      liveBytes := liveBytes - slots[i].size;
      slots[i] := x;
      assert slots[..] == before[i := x];
      LiveAfterTomb(before, i);
      ok := true;
    }

    // Copies up to cap live allocations, in table order, and returns how many there are in all.
    method Report(cap: nat) returns (out: seq<Slot>, total: nat)
      requires Valid()
      ensures total == |Live()|
      ensures |out| == if cap < total then cap else total
      ensures forall k :: 0 <= k < |out| ==> out[k].key in Live() && Live()[out[k].key] == (out[k].size, out[k].id)
      ensures forall j, k :: 0 <= j < k < |out| ==> out[j].key != out[k].key
    {
      out := [];
      ghost var at: seq<nat> := [];
      for i := 0 to slots.Length
        invariant |at| == |out| && |out| == if cap < UsedCount(slots[..i]) then cap else UsedCount(slots[..i])
        invariant forall k :: 0 <= k < |at| ==> at[k] < i && slots[at[k]].st.USED? && out[k] == slots[at[k]]
        invariant forall j, k :: 0 <= j < k < |at| ==> at[j] < at[k]
      {
        UsedCountLast(slots[..i + 1]);
        assert slots[..i + 1][..i] == slots[..i];
        if slots[i].st.USED? && |out| < cap {
          out := out + [slots[i]];
          at := at + [i];
        }
      }
      assert slots[..slots.Length] == slots[..];
      total := liveCount;
      CountIsLive(slots[..]);
      forall k | 0 <= k < |out| ensures out[k].key in Live() && Live()[out[k].key] == (out[k].size, out[k].id) {
        LiveAt(slots[..], at[k]);
      }
      forall j, k | 0 <= j < k < |out| ensures out[j].key != out[k].key {
        assert slots[..][at[j]].key != slots[..][at[k]].key;
      }
    }

    method Reset()
      requires slots.Length > 0
      modifies this, slots
      ensures Valid() && Live() == map[] && nextId == 1
      ensures liveCount == liveBytes == totalAllocations == invalidFrees == 0
    {
      for i := 0 to slots.Length
        invariant forall j :: 0 <= j < i ==> slots[j].st.EMPTY?
      {
        slots[i] := slots[i].(st := EMPTY);
      }
      liveCount, liveBytes, totalAllocations, invalidFrees, nextId := 0, 0, 0, 0, 1;
      NoneUsed(slots[..]);
    }
  }

  // A probe that has passed n slots without p, and stops at an EMPTY one or has seen them all,
  // proves that p is not in the table.
  lemma EndOfPath(slots: seq<Slot>, p: nat, n: nat)
    requires TableOk(slots) && n <= |slots|
    requires var h := Hash(p, |slots|);
      && (n < |slots| ==> slots[Probe(h, n, |slots|)].st.EMPTY?)
      && forall m: nat :: m < n ==>
        !(slots[Probe(h, m, |slots|)].st.USED? && slots[Probe(h, m, |slots|)].key == p)
    ensures !Tracked(slots, p)
  {
    var h := Hash(p, |slots|);
    forall i | 0 <= i < |slots| && slots[i].st.USED? ensures slots[i].key != p {
      assert PathOk(slots, i);
      var d := Distance(h, i, |slots|);
      assert Probe(h, d, |slots|) == i;
    }
  }
}
