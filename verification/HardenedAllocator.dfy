/** The hardened pool allocator (hardened_allocator.hpp), for any canary function and any link codec
    whose decoding undoes its encoding.  Memory is an array of blocks at consecutive addresses. */
module HardenedAllocator {
  import opened RingSlots

  type Address = nat
  const NULL: Address := 0

  const ALLOC_MAGIC: nat := 0xA_110C_A7ED
  const FREE_MAGIC: nat := 0xF_4EEE_EEED
  const HEADER_SIZE: nat := 24
  const TRAILER_SIZE: nat := 8
  const POISON: bv8 := 0xDD

  datatype Block = Block(state: nat, canary: nat, nextEnc: nat, payload: seq<bv8>, trailer: nat)

  datatype Allocation = Exhausted | CorruptedLink | Allocated(p: Address)

  datatype Deallocation = Done | ForeignPointer | DoubleFree | BadState | Overflow

  function Align16(n: nat): nat { (n + 15) / 16 * 16 }

  function PayloadSize(requested: nat): nat {
    Align16(if requested < 16 then 16 else requested)
  }

  lemma PayloadFits(requested: nat)
    ensures var payload := PayloadSize(requested);
      && requested <= payload && 16 <= payload && payload % 16 == 0
      && payload < 16 + if requested < 16 then 1 else requested
  {
  }

  function BlockSize(payload: nat): nat { HEADER_SIZE + payload + TRAILER_SIZE }

  // Division with remainder, read backwards.
  lemma DivMod(i: nat, block: nat, r: nat)
    requires r < block
    ensures (i * block + r) % block == r && (i * block + r) / block == i
  {
    var a := i * block + r;
    var q := a / block - i;
    Multiple(block, q);
    Distribute(a / block, i, block);
    assert a == a / block * block + a % block;
  }

  lemma Distribute(x: int, y: int, block: int)
    ensures block * (x - y) == x * block - y * block
  {
  }

  lemma OneMore(n: nat, block: nat)
    ensures (n + 1) * block == n * block + block
  {
  }

  lemma {:induction false} Monotone(i: nat, count: nat, block: nat)
    requires i < count
    ensures i * block + block <= count * block
  {
    OneMore(count - 1, block);
    if i < count - 1 { Monotone(i, count - 1, block); }
  }

  lemma MonotoneFrom(i: nat, count: nat, block: nat)
    requires i >= count
    ensures i * block >= count * block
  {
    if i > count { Monotone(count, i, block); }
  }

  class HardenedAllocator {
    const payload: nat
    const block: nat
    const count: nat
    const base: Address
    const blocks: array<Block>
    const canaryFor: Address -> nat
    const encodeLink: (Address, Address) -> nat
    const decodeLink: (nat, Address) -> Address
    var freeHead: Address
    var overflows: nat
    var doubleFrees: nat
    var invalidFrees: nat
    // The blocks on the free list, first to be handed out first.
    ghost var freeList: seq<nat>

    function AddressOf(i: nat): Address { base + i * block }

    function PayloadOf(h: Address): Address { h + HEADER_SIZE }

    predicate InRange(a: Address) {
      a >= base && a < base + count * block && block > 0 && (a - base) % block == 0
    }

    predicate InRangePayload(a: Address) {
      a >= base && a < base + count * block && block > 0 && (a - base) % block == HEADER_SIZE
    }

    function IndexOf(a: Address): nat
      requires block > 0 && a >= base
    {
      (a - base) / block
    }

    ghost predicate Shape() {
      && base > 0 && blocks.Length == count && block == BlockSize(payload)
      && forall next, slot: Address :: decodeLink(encodeLink(next, slot), slot) == next
    }

    // The address of the k-th block of a free list, null at its end.
    ghost function AddressIn(list: seq<nat>, k: nat): Address {
      if k < |list| then AddressOf(list[k]) else NULL
    }

    // The list visits distinct blocks, so it is acyclic, and they are exactly those marked free.
    // What the other blocks hold is up to their owners.
    ghost predicate ListOk(list: seq<nat>, head: Address, bs: seq<Block>) {
      ListOkFrom(list, head, bs, 0)
    }

    // The same while blocks below from are still to be listed.
    ghost predicate ListOkFrom(list: seq<nat>, head: Address, bs: seq<Block>, from: nat) {
      Linked(list, head, bs, from) && Marked(list, bs, from)
    }

    ghost predicate Linked(list: seq<nat>, head: Address, bs: seq<Block>, from: nat) {
      && (forall k :: 0 <= k < |list| ==> from <= list[k] < |bs|)
      && (forall j, k :: 0 <= j < k < |list| ==> list[j] != list[k])
      && head == AddressIn(list, 0)
      && (forall k :: 0 <= k < |list| ==> LinkOk(list, k, bs[list[k]]))
    }

    ghost predicate Marked(list: seq<nat>, bs: seq<Block>, from: nat) {
      forall i :: from <= i < |bs| ==> (i in list <==> bs[i].state == FREE_MAGIC)
    }

    ghost predicate LinkOk(list: seq<nat>, k: nat, x: Block)
      requires k < |list|
    {
      x.nextEnc == encodeLink(AddressIn(list, k + 1), AddressOf(list[k]))
    }

    ghost predicate Valid()
      reads this, blocks
    {
      Shape() && ListOk(freeList, freeHead, blocks[..])
    }

    lemma NothingListed(bs: seq<Block>)
      ensures ListOkFrom([], NULL, bs, |bs|)
    {
    }

    static lemma CountedDown(i: nat, n: nat)
      requires i < n
      ensures [i] + seq(n - i - 1, k => i + 1 + k) == seq(n - i, k => i + k)
    {
    }

    lemma FirstLink(list: seq<nat>, head: Address, bs: seq<Block>)
      requires ListOk(list, head, bs) && list != [] && Shape()
      ensures decodeLink(bs[list[0]].nextEnc, AddressOf(list[0])) == AddressIn(list, 1)
    {
      assert LinkOk(list, 0, bs[list[0]]);
    }

    // A link does not depend on what comes before it in the list.
    lemma LinkDropFirst(list: seq<nat>, k: nat, x: Block)
      requires k + 1 < |list| && LinkOk(list, k + 1, x)
      ensures LinkOk(list[1..], k, x)
    {
    }

    lemma LinkAddFirst(list: seq<nat>, i: nat, k: nat, x: Block)
      requires k < |list| && LinkOk(list, k, x)
      ensures LinkOk([i] + list, k + 1, x)
    {
    }

    lemma FirstAddress(list: seq<nat>, i: nat)
      ensures AddressIn([i] + list, 0) == AddressOf(i) && AddressIn([i] + list, 1) == AddressIn(list, 0)
    {
    }

    lemma Popped(list: seq<nat>, head: Address, bs: seq<Block>, x: Block)
      requires ListOk(list, head, bs) && list != [] && x.state != FREE_MAGIC
      ensures ListOk(list[1..], AddressIn(list, 1), bs[list[0] := x])
      ensures list[0] !in list[1..]
    {
      PoppedLinks(list, head, bs, x);
      PoppedMarks(list, bs, x);
    }

    lemma PoppedLinks(list: seq<nat>, head: Address, bs: seq<Block>, x: Block)
      requires Linked(list, head, bs, 0) && list != []
      ensures Linked(list[1..], AddressIn(list, 1), bs[list[0] := x], 0)
    {
      hide AddressOf;
      var rest, bs' := list[1..], bs[list[0] := x];
      assert list == [list[0]] + rest;
      FirstAddress(rest, list[0]);
      hide LinkOk, AddressIn;
      forall k | 0 <= k < |rest| ensures LinkOk(rest, k, bs'[rest[k]]) {
        assert rest[k] == list[k + 1] != list[0];
        assert bs'[rest[k]] == bs[list[k + 1]];
        LinkDropFirst(list, k, bs[list[k + 1]]);
      }
    }

    lemma PoppedMarks(list: seq<nat>, bs: seq<Block>, x: Block)
      requires Marked(list, bs, 0) && list != [] && list[0] < |bs| && x.state != FREE_MAGIC
      requires forall k :: 0 < k < |list| ==> list[0] != list[k]
      ensures Marked(list[1..], bs[list[0] := x], 0) && list[0] !in list[1..]
    {
      var rest := list[1..];
      assert list[0] !in rest;
      forall i ensures i in rest <==> i in list && i != list[0] { assert list == [list[0]] + rest; }
    }

    lemma Pushed(list: seq<nat>, head: Address, bs: seq<Block>, i: nat, x: Block, from: nat)
      requires ListOkFrom(list, head, bs, from) && i < |bs| && i !in list && i + 1 >= from
      requires x.state == FREE_MAGIC && x.nextEnc == encodeLink(head, AddressOf(i))
      ensures ListOkFrom([i] + list, AddressOf(i), bs[i := x], if i < from then i else from)
    {
      PushedLinks(list, head, bs, i, x, from);
      hide Linked;
    }

    lemma NewLink(list: seq<nat>, head: Address, i: nat, x: Block)
      requires head == AddressIn(list, 0) && x.nextEnc == encodeLink(head, AddressOf(i))
      ensures LinkOk([i] + list, 0, x)
    {
      FirstAddress(list, i);
    }

    lemma PushedLinks(list: seq<nat>, head: Address, bs: seq<Block>, i: nat, x: Block, from: nat)
      requires Linked(list, head, bs, from) && i < |bs| && i !in list && i + 1 >= from
      requires x.nextEnc == encodeLink(head, AddressOf(i))
      ensures Linked([i] + list, AddressOf(i), bs[i := x], if i < from then i else from)
    {
      hide LinkOk, AddressIn, AddressOf;
      var longer, bs' := [i] + list, bs[i := x];
      FirstAddress(list, i);
      NewLink(list, head, i, x);
      forall k | 0 < k < |longer| ensures LinkOk(longer, k, bs'[longer[k]]) {
        assert longer[k] == list[k - 1] && list[k - 1] in list;
        assert bs'[longer[k]] == bs[list[k - 1]];
        LinkAddFirst(list, i, k - 1, bs[list[k - 1]]);
      }
    }

    ghost predicate LiveBlock(i: nat)
      reads this
    {
      i < count && i !in freeList
    }

    predicate CanariesIntact(i: nat)
      requires i < blocks.Length
      reads blocks
    {
      var c := canaryFor(AddressOf(i));
      blocks[i].canary == c && blocks[i].trailer == c
    }

    // Nobody has written outside a live payload: every block that is not free is marked so, within its canaries.
    ghost predicate Intact()
      reads this, blocks
    {
      forall i :: 0 <= i < blocks.Length && i !in freeList ==> blocks[i].state == ALLOC_MAGIC && CanariesIntact(i)
    }

    ghost predicate LivePayload(p: Address)
      reads this
    {
      exists i :: LiveBlock(i) && p == PayloadOf(AddressOf(i))
    }

    lemma Addresses(i: nat)
      requires Shape() && i < count
      ensures InRange(AddressOf(i)) && IndexOf(AddressOf(i)) == i && AddressOf(i) != NULL
      ensures InRangePayload(PayloadOf(AddressOf(i))) && IndexOf(PayloadOf(AddressOf(i))) == i
    {
      DivMod(i, block, 0);
      DivMod(i, block, HEADER_SIZE);
      Monotone(i, count, block);
    }

    // The blocks lie side by side, in order of address, and do not overlap.
    lemma BlocksApart(i: nat, j: nat)
      requires i < j
      ensures AddressOf(i) + block <= AddressOf(j) && AddressOf(i + 1) == AddressOf(i) + block
    {
      Monotone(i, j, block);
      OneMore(i, block);
    }

    // Every payload address of the pool belongs to one block.
    lemma PayloadAddress(p: Address)
      requires Shape() && InRangePayload(p)
      ensures p >= base && block > 0
      ensures IndexOf(p) < count && p == PayloadOf(AddressOf(IndexOf(p)))
    {
      var i := IndexOf(p);
      assert p - base == i * block + HEADER_SIZE;
      if i >= count { MonotoneFrom(i, count, block); }
    }

    constructor (requested: nat, blockCount: nat, base: Address, canaryFor: Address -> nat,
                 encodeLink: (Address, Address) -> nat, decodeLink: (nat, Address) -> Address)
      requires base > 0
      requires forall next, slot: Address :: decodeLink(encodeLink(next, slot), slot) == next
      ensures Valid() && fresh(blocks) && count == blockCount && AddressOf(0) == base
      ensures requested <= payload && 16 <= payload && payload % 16 == 0
      ensures payload < 16 + if requested < 16 then 1 else requested
      ensures block == 24 + payload + 8
      ensures freeList == seq(blockCount, k => k) && Intact()
      ensures overflows == doubleFrees == invalidFrees == 0
    {
      hide PayloadSize, CanariesIntact, Linked, Marked;
      PayloadFits(requested);
      payload := PayloadSize(requested);
      block := BlockSize(PayloadSize(requested));
      count := blockCount;
      this.base := base;
      this.canaryFor, this.encodeLink, this.decodeLink := canaryFor, encodeLink, decodeLink;
      blocks := new Block[blockCount];
      freeHead := NULL;
      overflows, doubleFrees, invalidFrees := 0, 0, 0;
      freeList := [];
      new;
      PushAll();
    }

    // The constructor's loop: whatever the memory holds, every block goes on the free list.
    method PushAll()
      requires Shape() && freeList == [] && freeHead == NULL
      modifies this`freeHead, this`freeList, blocks
      ensures Valid() && Intact() && freeList == seq(count, k => k)
    {
      hide AddressOf, BlockSize, Linked, Marked, CanariesIntact;
      NothingListed(blocks[..]);
      var i: nat := count;
      while i > 0
        invariant i <= count && freeList == seq(count - i, k => i + k)
        invariant ListOkFrom(freeList, freeHead, blocks[..], i)
      {
        i := i - 1;
        PushOne(i);
        CountedDown(i, count);
      }
      forall j | 0 <= j < count ensures j in freeList { assert freeList[j] == j; }
    }

    // One round of the constructor's loop.
    method PushOne(i: nat)
      requires Shape() && i < count && ListOkFrom(freeList, freeHead, blocks[..], i + 1)
      modifies this`freeHead, this`freeList, blocks
      ensures ListOkFrom(freeList, freeHead, blocks[..], i) && freeList == [i] + old(freeList)
    {
      hide AddressOf, BlockSize, LinkOk, AddressIn;
      ghost var was, head, bs := freeList, freeHead, blocks[..];
      blocks[i] := blocks[i].(state := FREE_MAGIC);
      Push(i);
      assert blocks[..] == bs[i := blocks[i]];
      Pushed(was, head, bs, i, blocks[i], i + 1);
    }

    // fl_push
    method Push(i: nat)
      requires i < blocks.Length
      modifies this`freeHead, this`freeList, blocks
      ensures freeHead == AddressOf(i) && freeList == [i] + old(freeList)
      ensures blocks[i] == old(blocks[i]).(nextEnc := encodeLink(old(freeHead), AddressOf(i)))
      ensures forall j :: 0 <= j < blocks.Length && j != i ==> blocks[j] == old(blocks[j])
    {
      blocks[i] := blocks[i].(nextEnc := encodeLink(freeHead, AddressOf(i)));
      freeHead := AddressOf(i);
      freeList := [i] + freeList;
    }

    // Hands out the block at the head of the list: never one that is in use.
    method Allocate() returns (r: Allocation)
      requires Valid()
      modifies this`freeHead, this`freeList, this`invalidFrees, blocks
      ensures Valid() && invalidFrees == old(invalidFrees) && (old(Intact()) ==> Intact())
      ensures old(freeList) == [] ==> r == Exhausted && freeList == [] && blocks[..] == old(blocks[..])
      ensures old(freeList) != [] ==>
        var i := old(freeList)[0];
        && r == Allocated(PayloadOf(AddressOf(i))) && InRangePayload(r.p)
        && freeList == old(freeList)[1..] && !old(LiveBlock(i)) && LiveBlock(i)
        && blocks[i].state == 0xA_110C_A7ED && blocks[i].payload == old(blocks[i].payload)
        && blocks[i].canary == blocks[i].trailer == canaryFor(AddressOf(i))
        && forall j :: 0 <= j < count && j != i ==> blocks[j] == old(blocks[j])
    {
      hide AddressOf, InRange, InRangePayload, IndexOf, PayloadOf, BlockSize, LinkOk;
      if freeHead == NULL {
        if freeList != [] { Addresses(freeList[0]); }
        return Exhausted;
      }
      ghost var was, bs := freeList, blocks[..];
      Addresses(was[0]);
      var i := IndexOf(freeHead);
      var h := freeHead;
      FirstLink(was, h, bs);
      freeHead := decodeLink(blocks[i].nextEnc, h);
      if |was| > 1 { Addresses(was[1]); }
      if freeHead != NULL && !InRange(freeHead) {
        // A corrupted link; no write inside a live payload leads here.
        assert false;
      }
      blocks[i] := blocks[i].(state := ALLOC_MAGIC);
      var c := canaryFor(h);
      blocks[i] := blocks[i].(canary := c, trailer := c);
      Popped(was, h, bs, blocks[i]);
      freeList := was[1..];
      assert blocks[..] == bs[i := blocks[i]];
      r := Allocated(PayloadOf(h));
    }

    // The range check of a link admits exactly the addresses of the blocks.
    lemma LinkRange(a: Address)
      requires Shape()
      ensures InRange(a) <==> exists i :: 0 <= i < count && a == AddressOf(i)
    {
      if InRange(a) {
        var i := IndexOf(a);
        assert a - base == i * block;
        if i >= count { MonotoneFrom(i, count, block); }
        assert a == AddressOf(i);
      }
      if i :| 0 <= i < count && a == AddressOf(i) { Addresses(i); }
    }

    lemma WhichBlock(p: Address)
      requires Shape()
      ensures InRangePayload(p) ==>
        p >= base && block > 0 && IndexOf(p) < count && p == PayloadOf(AddressOf(IndexOf(p)))
      ensures forall i :: 0 <= i < count && p == PayloadOf(AddressOf(i)) ==>
        InRangePayload(p) && p >= base && block > 0 && IndexOf(p) == i
    {
      if InRangePayload(p) { PayloadAddress(p); }
      forall i | 0 <= i < count && p == PayloadOf(AddressOf(i))
        ensures InRangePayload(p) && p >= base && block > 0 && IndexOf(p) == i
      {
        Addresses(i);
      }
    }

    lemma NullIsForeign()
      requires Shape()
      ensures forall i :: 0 <= i < count ==> PayloadOf(AddressOf(i)) != NULL
    {
    }

    // Whether p is a live block whose surroundings are intact, and if not, why.
    ghost function Verdict(p: Address): Deallocation
      requires Valid()
      reads this, blocks
    {
      if !InRangePayload(p) then ForeignPointer
      else
        PayloadAddress(p);
        var i := IndexOf(p);
        if i in freeList then DoubleFree
        else if blocks[i].state != ALLOC_MAGIC then BadState
        else if !CanariesIntact(i) then Overflow
        else Done
    }

    // With every write inside a live payload, exactly the live payloads are taken back, and a refusal is a double
    // free or a foreign pointer.
    lemma DoneIffLive(p: Address)
      requires Valid() && Intact()
      ensures Verdict(p) == Done <==> LivePayload(p)
      ensures Verdict(p) != BadState && Verdict(p) != Overflow
    {
      if InRangePayload(p) {
        PayloadAddress(p);
        var j := IndexOf(p);
        assert j !in freeList ==> LiveBlock(j) && p == PayloadOf(AddressOf(j));
      }
      if i :| LiveBlock(i) && p == PayloadOf(AddressOf(i)) { Addresses(i); }
    }

    // Block i, live before, with payload address p, is poisoned and heads the free list.
    ghost predicate TakenBack(list: seq<nat>, bs: seq<Block>, p: Address, i: nat)
      reads this, blocks
    {
      && i < count && blocks.Length == count == |bs| && p == PayloadOf(AddressOf(i)) && i !in list
      && freeList == [i] + list && blocks[i].state == 0xF_4EEE_EEED && |blocks[i].payload| == payload
      && (forall k :: 0 <= k < payload ==> blocks[i].payload[k] == 0xDD)
      && forall j :: 0 <= j < count && j != i ==> blocks[j] == bs[j]
    }

    // Takes back a live block, and only that: anything else is refused and only counted.
    method Deallocate(p: Address) returns (r: Deallocation)
      requires Valid()
      modifies this, blocks
      ensures Valid() && (old(Intact()) ==> Intact())
      ensures r == if p == NULL then Done else old(Verdict(p))
      ensures p == NULL || r != Done ==>
        freeList == old(freeList) && freeHead == old(freeHead) && blocks[..] == old(blocks[..])
      ensures p != NULL && r == Done ==> exists i :: TakenBack(old(freeList), old(blocks[..]), p, i)
      // Field by field: a block on the free list is a double free, a header that says neither free nor in use a bad
      // state, and either canary overwritten an overflow.
      ensures forall i :: 0 <= i < count && p == PayloadOf(AddressOf(i)) ==>
        var was, c := old(blocks[..])[i], canaryFor(AddressOf(i));
        && (r == DoubleFree <==> i in old(freeList)) && (r == DoubleFree <==> was.state == 0xF_4EEE_EEED)
        && (r == BadState <==> was.state != 0xF_4EEE_EEED && was.state != 0xA_110C_A7ED)
        && (r == Overflow <==> was.state == 0xA_110C_A7ED && (was.canary != c || was.trailer != c))
        && (r == Done <==> was.state == 0xA_110C_A7ED && was.canary == c && was.trailer == c)
      ensures r == ForeignPointer <==> p != NULL && forall i :: 0 <= i < count ==> p != PayloadOf(AddressOf(i))
      ensures old(Intact()) ==> (r == Done <==> p == NULL || old(LivePayload(p)))
      ensures old(Intact()) ==> r != BadState && r != Overflow
      ensures invalidFrees == old(invalidFrees) + (if r == ForeignPointer || r == BadState then 1 else 0)
      ensures doubleFrees == old(doubleFrees) + (if r == DoubleFree then 1 else 0)
      ensures overflows == old(overflows) + (if r == Overflow then 1 else 0)
    {
      hide AddressOf, InRange, InRangePayload, IndexOf, PayloadOf, BlockSize, LinkOk, AddressIn;
      NullIsForeign();
      if p == NULL { return Done; }
      if Intact() { DoneIffLive(p); }
      WhichBlock(p);
      if !InRangePayload(p) {
        invalidFrees := invalidFrees + 1;
        return ForeignPointer;
      }
      var i := IndexOf(p);
      assert i in freeList <==> blocks[..][i].state == FREE_MAGIC;
      if blocks[i].state == FREE_MAGIC {
        doubleFrees := doubleFrees + 1;
        return DoubleFree;
      }
      if blocks[i].state != ALLOC_MAGIC {
        invalidFrees := invalidFrees + 1;
        return BadState;
      }
      if !CanariesIntact(i) {
        overflows := overflows + 1;
        return Overflow;
      }
      ghost var list, bs := freeList, blocks[..];
      Reclaim(i);
      assert TakenBack(list, bs, p, i);
      r := Done;
    }

    // Poisons a block and puts it back on the list.
    method Reclaim(i: nat)
      requires Valid() && LiveBlock(i)
      modifies this`freeHead, this`freeList, blocks
      ensures Valid() && freeList == [i] + old(freeList) && (old(Intact()) ==> Intact())
      ensures blocks[i].payload == seq(payload, _ => POISON) && blocks[i].state == FREE_MAGIC
      ensures forall j :: 0 <= j < count && j != i ==> blocks[j] == old(blocks[j])
    {
      hide AddressOf, BlockSize, LinkOk;
      ghost var was, head, bs := freeList, freeHead, blocks[..];
      blocks[i] := blocks[i].(payload := seq(payload, _ => POISON));
      blocks[i] := blocks[i].(state := FREE_MAGIC);
      Push(i);
      assert blocks[..] == bs[i := blocks[i]];
      Pushed(was, head, bs, i, blocks[i], 0);
    }

    // What the owner of a live block must not do: write beyond its payload, over the trailer or the header.
    method WriteBeyond(i: nat, canary: nat, trailer: nat)
      requires Valid() && LiveBlock(i)
      modifies blocks
      ensures Valid() && blocks[i] == old(blocks[i]).(canary := canary, trailer := trailer)
      ensures forall j :: 0 <= j < count && j != i ==> blocks[j] == old(blocks[j])
    {
      ghost var bs := blocks[..];
      blocks[i] := blocks[i].(canary := canary, trailer := trailer);
      assert blocks[..] == bs[i := blocks[i]];
      forall k | 0 <= k < |freeList| ensures LinkOk(freeList, k, blocks[..][freeList[k]]) {
        assert LinkOk(freeList, k, bs[freeList[k]]);
      }
    }

    // What the owner of a live block may do: write its payload.
    method WritePayload(i: nat, bytes: seq<bv8>)
      requires Valid() && LiveBlock(i) && |bytes| == payload
      modifies blocks
      ensures Valid() && (old(Intact()) ==> Intact()) && blocks[i] == old(blocks[i]).(payload := bytes)
      ensures forall j :: 0 <= j < count && j != i ==> blocks[j] == old(blocks[j])
    {
      ghost var bs := blocks[..];
      blocks[i] := blocks[i].(payload := bytes);
      assert blocks[..] == bs[i := blocks[i]];
      forall k | 0 <= k < |freeList| ensures LinkOk(freeList, k, blocks[..][freeList[k]]) {
        assert LinkOk(freeList, k, bs[freeList[k]]);
      }
    }
  }
}
