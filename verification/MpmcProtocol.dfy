/** The bounded MPMC queue (mpmc_queue.hpp) as a state machine: any number of threads, each atomic
    load, compare-and-swap, data access and store one step, in any interleaving.

    A successful CAS hands a thread a ticket: the position it moved.  Ticket k uses cell k % cap.
    The maps pushed and popped record, by ticket, the values accepted and returned; no step reads
    them. */
module MpmcProtocol {
  import opened RingSlots

  datatype Cell<T> = Cell(seqNo: nat, data: T)

  // Where a thread stands in push or pop.
  datatype Pc<T> =
    | Idle
    | PushAt(v: T, pos: nat)                       // about to load the cell's sequence number
    | PushSaw(v: T, pos: nat, seen: nat)           // loaded it; about to compare or CAS
    | PushOwns(v: T, pos: nat)                     // won the ticket; about to write the data
    | PushWrote(v: T, pos: nat)                    // wrote it; about to publish
    | PopAt(pos: nat)
    | PopSaw(pos: nat, seen: nat)
    | PopOwns(pos: nat)                            // won the ticket; about to read the data
    | PopRead(pos: nat, out: T)                    // read it; about to free the cell

  datatype State<T> = State(
    cap: nat,
    cells: seq<Cell<T>>,
    enqueuePos: nat,
    dequeuePos: nat,
    threads: seq<Pc<T>>,
    pushed: map<nat, T>,
    popped: map<nat, T>)

  datatype Action<T> = BeginPush(v: T) | BeginPop | LoadSeq | Decide(spurious: bool) | Access | Store

  ghost predicate Init<T(!new)>(s: State<T>) {
    && s.cap >= 2 && |s.cells| == s.cap
    && (forall i :: 0 <= i < s.cap ==> s.cells[i].seqNo == i)
    && s.enqueuePos == 0 && s.dequeuePos == 0
    && (forall t :: 0 <= t < |s.threads| ==> s.threads[t] == Idle)
    && s.pushed == map[] && s.popped == map[]
  }

  predicate Enabled<T>(s: State<T>, t: nat, a: Action<T>) {
    && t < |s.threads|
    && match a
       case BeginPush(_) => s.threads[t].Idle?
       case BeginPop => s.threads[t].Idle?
       case LoadSeq => s.threads[t].PushAt? || s.threads[t].PopAt?
       case Decide(_) => s.threads[t].PushSaw? || s.threads[t].PopSaw?
       case Access => s.threads[t].PushOwns? || s.threads[t].PopOwns?
       case Store => s.threads[t].PushWrote? || s.threads[t].PopRead?
  }

  function At<T>(s: State<T>, t: nat, pc: Pc<T>): State<T>
    requires t < |s.threads|
  {
    s.(threads := s.threads[t := pc])
  }

  function Step<T>(s: State<T>, t: nat, a: Action<T>): State<T>
    requires Enabled(s, t, a) && s.cap >= 2 && |s.cells| == s.cap
  {
    match (a, s.threads[t])
    case (BeginPush(v), Idle) => At(s, t, PushAt(v, s.enqueuePos))
    case (BeginPop, Idle) => At(s, t, PopAt(s.dequeuePos))
    case (LoadSeq, PushAt(v, pos)) => At(s, t, PushSaw(v, pos, s.cells[Slot(s.cap, pos)].seqNo))
    case (LoadSeq, PopAt(pos)) => At(s, t, PopSaw(pos, s.cells[Slot(s.cap, pos)].seqNo))
    case (Decide(spurious), PushSaw(v, pos, seen)) =>
      var dif := seen - pos;
      if dif == 0 then
        // compare_exchange_weak: on failure pos takes the current value
        if s.enqueuePos == pos && !spurious then
          At(s, t, PushOwns(v, pos)).(enqueuePos := pos + 1, pushed := s.pushed[pos := v])
        else At(s, t, PushAt(v, s.enqueuePos))
      else if dif < 0 then At(s, t, Idle)          // full: return false
      else At(s, t, PushAt(v, s.enqueuePos))
    case (Decide(spurious), PopSaw(pos, seen)) =>
      var dif := seen - (pos + 1);
      if dif == 0 then
        if s.dequeuePos == pos && !spurious then At(s, t, PopOwns(pos)).(dequeuePos := pos + 1)
        else At(s, t, PopAt(s.dequeuePos))
      else if dif < 0 then At(s, t, Idle)          // empty: return false
      else At(s, t, PopAt(s.dequeuePos))
    case (Access, PushOwns(v, pos)) =>
      At(s, t, PushWrote(v, pos)).(cells := s.cells[Slot(s.cap, pos) := s.cells[Slot(s.cap, pos)].(data := v)])
    case (Access, PopOwns(pos)) =>
      var out := s.cells[Slot(s.cap, pos)].data;
      At(s, t, PopRead(pos, out)).(popped := s.popped[pos := out])
    case (Store, PushWrote(v, pos)) =>
      At(s, t, Idle).(cells := s.cells[Slot(s.cap, pos) := s.cells[Slot(s.cap, pos)].(seqNo := pos + 1)])
    case (Store, PopRead(pos, out)) =>
      At(s, t, Idle).(cells := s.cells[Slot(s.cap, pos) := s.cells[Slot(s.cap, pos)].(seqNo := pos + s.cap)])
  }

  lemma ThreadsStay<T>(s: State<T>, t: nat, a: Action<T>)
    requires s.cap >= 2 && |s.cells| == s.cap && Enabled(s, t, a)
    ensures |Step(s, t, a).threads| == |s.threads|
  {
  }

  // ---------------------------------------------------------------- the ticket invariant

  predicate PushHolds<T>(pc: Pc<T>, k: nat) {
    (pc.PushOwns? || pc.PushWrote?) && pc.pos == k
  }

  predicate PopHolds<T>(pc: Pc<T>, k: nat) {
    (pc.PopOwns? || pc.PopRead?) && pc.pos == k
  }

  ghost predicate SomePush<T>(s: State<T>, k: nat) {
    exists t :: 0 <= t < |s.threads| && PushHolds(s.threads[t], k)
  }

  ghost predicate SomePop<T>(s: State<T>, k: nat) {
    exists t :: 0 <= t < |s.threads| && PopHolds(s.threads[t], k)
  }

  // The tickets from dequeuePos on, one per cell: a cell is filled or being filled if its ticket
  // is below enqueuePos, and free or being freed otherwise.
  ghost predicate CellOk<T>(s: State<T>, k: nat)
    requires s.cap >= 2 && |s.cells| == s.cap
  {
    var c := s.cells[Slot(s.cap, k)];
    if k < s.enqueuePos then
      || (c.seqNo == k && SomePush(s, k))
      || (c.seqNo == k + 1 && k in s.pushed && c.data == s.pushed[k] && !SomePush(s, k))
    else
      || (c.seqNo == k && (k >= s.cap ==> !SomePop(s, k - s.cap)))
      || (k >= s.cap && c.seqNo == k - s.cap + 1 && SomePop(s, k - s.cap))
  }

  ghost predicate ThreadOk<T>(s: State<T>, pc: Pc<T>)
    requires s.cap >= 2 && |s.cells| == s.cap
  {
    match pc
    case Idle => true
    case PushAt(_, pos) => pos <= s.enqueuePos
    case PushSaw(_, pos, seen) => pos <= s.enqueuePos && seen <= s.cells[Slot(s.cap, pos)].seqNo
    case PushOwns(v, pos) =>
      s.dequeuePos <= pos < s.enqueuePos && s.cells[Slot(s.cap, pos)].seqNo == pos
      && pos in s.pushed && s.pushed[pos] == v
    case PushWrote(v, pos) =>
      s.dequeuePos <= pos < s.enqueuePos && s.cells[Slot(s.cap, pos)] == Cell(pos, v)
      && pos in s.pushed && s.pushed[pos] == v
    case PopAt(pos) => pos <= s.dequeuePos
    case PopSaw(pos, seen) => pos <= s.dequeuePos && seen <= s.cells[Slot(s.cap, pos)].seqNo
    case PopOwns(pos) =>
      pos < s.dequeuePos && s.enqueuePos <= pos + s.cap && s.cells[Slot(s.cap, pos)].seqNo == pos + 1
      && pos in s.pushed && s.cells[Slot(s.cap, pos)].data == s.pushed[pos] && pos !in s.popped
    case PopRead(pos, out) =>
      pos < s.dequeuePos && s.enqueuePos <= pos + s.cap && s.cells[Slot(s.cap, pos)].seqNo == pos + 1
      && pos in s.popped && s.popped[pos] == out
  }

  // At most one thread owns a ticket of either kind.
  ghost predicate Exclusive<T>(s: State<T>) {
    forall t, u, k: nat :: 0 <= t < |s.threads| && 0 <= u < |s.threads| && t != u ==>
      && !(PushHolds(s.threads[t], k) && PushHolds(s.threads[u], k))
      && !(PopHolds(s.threads[t], k) && PopHolds(s.threads[u], k))
  }

  ghost predicate LogsOk<T>(s: State<T>) {
    && (forall k: nat :: k in s.pushed <==> k < s.enqueuePos)
    && (forall k: nat :: k in s.popped ==> k < s.dequeuePos && k in s.pushed && s.popped[k] == s.pushed[k])
    && (forall k: nat :: k < s.dequeuePos && k !in s.popped ==> Unread(s, k))
  }

  ghost predicate Bounds<T>(s: State<T>) {
    s.cap >= 2 && |s.cells| == s.cap && s.dequeuePos <= s.enqueuePos <= s.dequeuePos + s.cap
  }

  ghost predicate Inv<T(!new)>(s: State<T>) {
    && Bounds(s)
    && (forall k: nat :: s.dequeuePos <= k < s.dequeuePos + s.cap ==> CellOk(s, k))
    && (forall t :: 0 <= t < |s.threads| ==> ThreadOk(s, s.threads[t]))
    && Exclusive(s)
    && LogsOk(s)
  }

  // Two holders of one cell hold one ticket: the cell's number tells which.
  lemma SlotNext(cap: nat, k: nat)
    requires cap >= 2
    ensures Slot(cap, k) != Slot(cap, k + 1)
  {
    SlotsDiffer(cap, k, k + 1);
  }

  // ---------------------------------------------------------------- steps that only move one thread

  predicate Holds<T>(pc: Pc<T>) {
    pc.PushOwns? || pc.PushWrote? || pc.PopOwns? || pc.PopRead?
  }

  // Who holds ticket k after thread t has moved to pc.
  lemma HoldersAfter<T>(s: State<T>, s': State<T>, t: nat, pc: Pc<T>, k: nat)
    requires t < |s.threads| && s'.threads == s.threads[t := pc] && Exclusive(s)
    ensures PushHolds(pc, k) ==> SomePush(s', k)
    ensures PushHolds(pc, k) == PushHolds(s.threads[t], k) ==> SomePush(s', k) == SomePush(s, k)
    ensures PushHolds(s.threads[t], k) && !PushHolds(pc, k) ==> !SomePush(s', k)
    ensures PopHolds(pc, k) ==> SomePop(s', k)
    ensures PopHolds(pc, k) == PopHolds(s.threads[t], k) ==> SomePop(s', k) == SomePop(s, k)
    ensures PopHolds(s.threads[t], k) && !PopHolds(pc, k) ==> !SomePop(s', k)
  {
    assert s'.threads[t] == pc;
    forall u | 0 <= u < |s.threads| && u != t ensures s'.threads[u] == s.threads[u] {}
    assert SomePush(s, k) ==>
      exists u :: 0 <= u < |s.threads| && PushHolds(s.threads[u], k) && (u != t ==> PushHolds(s'.threads[u], k));
    assert SomePop(s, k) ==>
      exists u :: 0 <= u < |s.threads| && PopHolds(s.threads[u], k) && (u != t ==> PopHolds(s'.threads[u], k));
  }

  lemma QuietCells<T(!new)>(s: State<T>, t: nat, pc: Pc<T>, k: nat)
    requires Bounds(s) && Exclusive(s) && t < |s.threads| && !Holds(s.threads[t]) && !Holds(pc) && CellOk(s, k)
    ensures CellOk(At(s, t, pc), k)
  {
    HoldersAfter(s, At(s, t, pc), t, pc, k);
    if k >= s.cap { HoldersAfter(s, At(s, t, pc), t, pc, k - s.cap); }
  }

  // The unread tickets below dequeuePos are still in the hands of a pop.
  ghost predicate Unread<T>(s: State<T>, k: nat) {
    exists u :: 0 <= u < |s.threads| && s.threads[u] == PopOwns(k)
  }

  lemma UnreadAfter<T>(s: State<T>, s': State<T>, t: nat, pc: Pc<T>, k: nat)
    requires t < |s.threads| && s'.threads == s.threads[t := pc] && Unread(s, k) && s.threads[t] != PopOwns(k)
    ensures Unread(s', k)
  {
    var u :| 0 <= u < |s.threads| && s.threads[u] == PopOwns(k);
    assert s'.threads[u] == PopOwns(k);
  }

  lemma QuietThreads<T(!new)>(s: State<T>, t: nat, pc: Pc<T>)
    requires Inv(s) && t < |s.threads| && ThreadOk(s, pc)
    ensures forall u :: 0 <= u < |s.threads| ==> ThreadOk(At(s, t, pc), At(s, t, pc).threads[u])
  {
    hide CellOk, LogsOk, Exclusive;
    forall u | 0 <= u < |s.threads| ensures ThreadOk(At(s, t, pc), At(s, t, pc).threads[u]) {
      assert ThreadOk(s, if u == t then pc else s.threads[u]);
    }
  }

  lemma QuietLogs<T(!new)>(s: State<T>, t: nat, pc: Pc<T>)
    requires LogsOk(s) && t < |s.threads| && !Holds(s.threads[t])
    ensures LogsOk(At(s, t, pc))
  {
    var s' := At(s, t, pc);
    forall k: nat | k < s'.dequeuePos && k !in s'.popped ensures Unread(s', k) {
      UnreadAfter(s, s', t, pc, k);
    }
  }

  lemma QuietStep<T(!new)>(s: State<T>, t: nat, pc: Pc<T>)
    requires Inv(s) && t < |s.threads| && !Holds(s.threads[t]) && !Holds(pc) && ThreadOk(s, pc)
    ensures Inv(At(s, t, pc))
  {
    hide CellOk, ThreadOk, LogsOk, Exclusive;
    var s' := At(s, t, pc);
    forall k: nat | s'.dequeuePos <= k < s'.dequeuePos + s'.cap ensures CellOk(s', k) {
      QuietCells(s, t, pc, k);
    }
    QuietThreads(s, t, pc);
    ExclusiveAfter(s, s', t, pc);
    QuietLogs(s, t, pc);
  }

  // ---------------------------------------------------------------- winning a ticket

  // A number read earlier and equal to pos is still in the cell when the CAS on pos succeeds, and
  // then the queue is not full.
  lemma PushClaimValid<T(!new)>(s: State<T>, pos: nat, seen: nat)
    requires Inv(s) && seen <= s.cells[Slot(s.cap, pos)].seqNo && seen == pos == s.enqueuePos
    ensures s.enqueuePos < s.dequeuePos + s.cap
    ensures s.cells[Slot(s.cap, pos)].seqNo == pos
  {
    var d := s.dequeuePos;
    SlotAgain(s.cap, d);
    assert CellOk(s, if pos == d + s.cap then d else pos);
  }

  // Likewise for pop, and then the queue is not empty.
  lemma PopClaimValid<T(!new)>(s: State<T>, pos: nat, seen: nat)
    requires Inv(s) && seen <= s.cells[Slot(s.cap, pos)].seqNo && seen == pos + 1 && pos == s.dequeuePos
    ensures s.dequeuePos < s.enqueuePos
    ensures s.cells[Slot(s.cap, pos)].seqNo == pos + 1
    ensures pos in s.pushed && s.cells[Slot(s.cap, pos)].data == s.pushed[pos]
  {
    assert CellOk(s, pos);
  }

  lemma PushClaimCell<T(!new)>(s: State<T>, s': State<T>, t: nat, v: T, pos: nat, k: nat)
    requires Bounds(s) && Exclusive(s) && t < |s.threads| && !Holds(s.threads[t]) && CellOk(s, k)
    requires pos == s.enqueuePos && s.cells[Slot(s.cap, pos)].seqNo == pos
    requires s' == At(s, t, PushOwns(v, pos)).(enqueuePos := pos + 1, pushed := s.pushed[pos := v])
    ensures CellOk(s', k)
  {
    HoldersAfter(s, s', t, PushOwns(v, pos), k);
    if k >= s.cap { HoldersAfter(s, s', t, PushOwns(v, pos), k - s.cap); }
  }

  lemma PushClaimThread<T(!new)>(s: State<T>, s': State<T>, t: nat, v: T, pos: nat, pc: Pc<T>)
    requires Bounds(s) && t < |s.threads| && ThreadOk(s, pc)
    requires pos == s.enqueuePos && s.cells[Slot(s.cap, pos)].seqNo == pos && pos !in s.pushed
    requires s' == At(s, t, PushOwns(v, pos)).(enqueuePos := pos + 1, pushed := s.pushed[pos := v])
    ensures ThreadOk(s', pc)
  {
    if pc.PopOwns? || pc.PopRead? { SlotAgain(s.cap, pc.pos); }
  }

  lemma PushClaim<T(!new)>(s: State<T>, t: nat, v: T, pos: nat, seen: nat)
    requires Inv(s) && t < |s.threads| && s.threads[t] == PushSaw(v, pos, seen) && seen == pos == s.enqueuePos
    ensures Inv(At(s, t, PushOwns(v, pos)).(enqueuePos := pos + 1, pushed := s.pushed[pos := v]))
  {
    var pc := PushOwns(v, pos);
    var s' := At(s, t, pc).(enqueuePos := pos + 1, pushed := s.pushed[pos := v]);
    assert ThreadOk(s, s.threads[t]);
    PushClaimValid(s, pos, seen);
    hide Exclusive, LogsOk;
    forall k: nat | s'.dequeuePos <= k < s'.dequeuePos + s'.cap ensures CellOk(s', k) {
      PushClaimCell(s, s', t, v, pos, k);
    }
    forall u | 0 <= u < |s'.threads| ensures ThreadOk(s', s'.threads[u]) {
      if u != t {
        assert ThreadOk(s, s.threads[u]);
        PushClaimThread(s, s', t, v, pos, s.threads[u]);
      }
    }
    PushClaimRest(s, s', t, v, pos);
  }

  lemma PushClaimRest<T(!new)>(s: State<T>, s': State<T>, t: nat, v: T, pos: nat)
    requires Inv(s) && t < |s.threads| && !Holds(s.threads[t]) && pos == s.enqueuePos
    requires s' == At(s, t, PushOwns(v, pos)).(enqueuePos := pos + 1, pushed := s.pushed[pos := v])
    ensures Exclusive(s') && LogsOk(s')
  {
    hide CellOk;
    forall u | 0 <= u < |s.threads| ensures !PushHolds(s.threads[u], pos) {
      assert ThreadOk(s, s.threads[u]);
    }
    hide ThreadOk;
    ExclusiveClaim(s, s', t, PushOwns(v, pos));
    forall k: nat | k < s'.dequeuePos && k !in s'.popped ensures Unread(s', k) {
      assert Unread(s, k);
      UnreadAfter(s, s', t, PushOwns(v, pos), k);
    }
  }

  lemma PopClaimCell<T(!new)>(s: State<T>, s': State<T>, t: nat, pos: nat, k: nat)
    requires Bounds(s) && Exclusive(s) && t < |s.threads| && !Holds(s.threads[t])
    requires pos == s.dequeuePos < s.enqueuePos && s.cells[Slot(s.cap, pos)].seqNo == pos + 1
    requires s' == At(s, t, PopOwns(pos)).(dequeuePos := pos + 1)
    requires pos < k <= pos + s.cap && (k < pos + s.cap ==> CellOk(s, k))
    ensures CellOk(s', k)
  {
    HoldersAfter(s, s', t, PopOwns(pos), k);
    if k >= s.cap { HoldersAfter(s, s', t, PopOwns(pos), k - s.cap); }
    SlotAgain(s.cap, pos);
  }

  lemma PopClaimThread<T(!new)>(s: State<T>, s': State<T>, t: nat, pos: nat, pc: Pc<T>)
    requires Bounds(s) && t < |s.threads| && ThreadOk(s, pc)
    requires pos == s.dequeuePos && s.cells[Slot(s.cap, pos)].seqNo == pos + 1
    requires s' == At(s, t, PopOwns(pos)).(dequeuePos := pos + 1)
    ensures ThreadOk(s', pc)
  {
  }

  lemma PopBelow<T(!new)>(s: State<T>, u: nat)
    requires Inv(s) && u < |s.threads|
    ensures !PopHolds(s.threads[u], s.dequeuePos)
  {
    assert ThreadOk(s, s.threads[u]);
  }

  lemma PopClaim<T(!new)>(s: State<T>, t: nat, pos: nat, seen: nat)
    requires Inv(s) && t < |s.threads| && s.threads[t] == PopSaw(pos, seen)
    requires seen == pos + 1 && pos == s.dequeuePos
    ensures Inv(At(s, t, PopOwns(pos)).(dequeuePos := pos + 1))
  {
    var pc := PopOwns(pos);
    var s' := At(s, t, pc).(dequeuePos := pos + 1);
    assert ThreadOk(s, s.threads[t]);
    PopClaimValid(s, pos, seen);
    hide Exclusive, LogsOk;
    forall k: nat | s'.dequeuePos <= k < s'.dequeuePos + s'.cap ensures CellOk(s', k) {
      PopClaimCell(s, s', t, pos, k);
    }
    forall u | 0 <= u < |s'.threads| ensures ThreadOk(s', s'.threads[u]) {
      if u != t {
        assert ThreadOk(s, s.threads[u]);
        PopClaimThread(s, s', t, pos, s.threads[u]);
      }
    }
    PopClaimRest(s, s', t, pos);
  }

  lemma PopClaimRest<T(!new)>(s: State<T>, s': State<T>, t: nat, pos: nat)
    requires Inv(s) && t < |s.threads| && !Holds(s.threads[t]) && pos == s.dequeuePos < s.enqueuePos
    requires s' == At(s, t, PopOwns(pos)).(dequeuePos := pos + 1)
    ensures Exclusive(s') && LogsOk(s')
  {
    hide CellOk, ThreadOk;
    forall u | 0 <= u < |s.threads| ensures !PopHolds(s.threads[u], pos) {
      PopBelow(s, u);
    }
    ExclusiveClaim(s, s', t, PopOwns(pos));
    forall k: nat | k < s'.dequeuePos && k !in s'.popped ensures Unread(s', k) {
      if k < pos {
        assert Unread(s, k);
        UnreadAfter(s, s', t, PopOwns(pos), k);
      } else {
        assert s'.threads[t] == PopOwns(k);
      }
    }
  }

  // ---------------------------------------------------------------- using a ticket

  // What an Access or Store of the holder of ticket pos does to the cell.
  ghost predicate CellStep<T>(s: State<T>, t: nat, pos: nat, cell: Cell<T>, pc: Pc<T>, s': State<T>)
    requires Bounds(s) && t < |s.threads|
  {
    && s'.cap == s.cap && s'.enqueuePos == s.enqueuePos && s'.dequeuePos == s.dequeuePos && s'.pushed == s.pushed
    && s'.cells == s.cells[Slot(s.cap, pos) := cell]
    && s'.threads == s.threads[t := pc]
    && (s'.popped == s.popped || (s.threads[t] == PopOwns(pos) && s'.popped.Keys == s.popped.Keys + {pos}
                                  && forall k :: k in s.popped ==> s'.popped[k] == s.popped[k]))
  }

  // Cells of other tickets are not touched.
  lemma OtherCell<T(!new)>(s: State<T>, s': State<T>, t: nat, pos: nat, cell: Cell<T>, pc: Pc<T>, k: nat)
    requires Bounds(s) && Exclusive(s) && t < |s.threads| && CellStep(s, t, pos, cell, pc, s') && CellOk(s, k)
    requires Slot(s.cap, k) != Slot(s.cap, pos)
    requires PushHolds(s.threads[t], pos) || PopHolds(s.threads[t], pos)
    requires !Holds(pc) || PushHolds(pc, pos) == PushHolds(s.threads[t], pos)
    requires !Holds(pc) || PopHolds(pc, pos) == PopHolds(s.threads[t], pos)
    requires Holds(pc) ==> pc.pos == pos
    ensures CellOk(s', k)
  {
    assert k != pos && k != pos + s.cap by { SlotAgain(s.cap, pos); }
    HoldersAfter(s, s', t, pc, k);
    if k >= s.cap { HoldersAfter(s, s', t, pc, k - s.cap); }
  }

  // A thread that holds nothing only relies on numbers not going down.
  lemma SeeingThread<T(!new)>(s: State<T>, s': State<T>, t: nat, pos: nat, cell: Cell<T>, pc: Pc<T>, other: Pc<T>)
    requires Bounds(s) && t < |s.threads| && CellStep(s, t, pos, cell, pc, s')
    requires ThreadOk(s, other) && !Holds(other) && s.cells[Slot(s.cap, pos)].seqNo <= cell.seqNo
    ensures ThreadOk(s', other)
  {
  }

  // Two holders never share a cell: its number would name both tickets.
  lemma HoldersApart<T(!new)>(s: State<T>, a: Pc<T>, b: Pc<T>)
    requires Bounds(s) && ThreadOk(s, a) && ThreadOk(s, b) && Holds(a) && Holds(b)
    requires !(PushHolds(a, a.pos) && PushHolds(b, a.pos)) && !(PopHolds(a, a.pos) && PopHolds(b, a.pos))
    ensures Slot(s.cap, a.pos) != Slot(s.cap, b.pos)
  {
    SlotNext(s.cap, a.pos);
    SlotNext(s.cap, b.pos);
  }

  lemma HoldingThread<T(!new)>(s: State<T>, s': State<T>, t: nat, pos: nat, cell: Cell<T>, pc: Pc<T>, other: Pc<T>)
    requires Bounds(s) && t < |s.threads| && CellStep(s, t, pos, cell, pc, s')
    requires ThreadOk(s, other) && Holds(other) && Slot(s.cap, other.pos) != Slot(s.cap, pos)
    ensures ThreadOk(s', other)
  {
  }

  lemma OtherThread<T(!new)>(s: State<T>, s': State<T>, t: nat, pos: nat, cell: Cell<T>, pc: Pc<T>, u: nat)
    requires Bounds(s) && Exclusive(s) && t < |s.threads| && u < |s.threads| && u != t
    requires CellStep(s, t, pos, cell, pc, s')
    requires ThreadOk(s, s.threads[t]) && ThreadOk(s, s.threads[u])
    requires PushHolds(s.threads[t], pos) || PopHolds(s.threads[t], pos)
    requires s.cells[Slot(s.cap, pos)].seqNo <= cell.seqNo
    ensures ThreadOk(s', s'.threads[u])
  {
    hide ThreadOk;
    var other := s.threads[u];
    if Holds(other) {
      assert !(PushHolds(s.threads[t], pos) && PushHolds(other, pos));
      assert !(PopHolds(s.threads[t], pos) && PopHolds(other, pos));
      HoldersApart(s, s.threads[t], other);
      HoldingThread(s, s', t, pos, cell, pc, other);
    } else {
      SeeingThread(s, s', t, pos, cell, pc, other);
    }
  }

  // The window [dequeuePos, dequeuePos + cap) holds one ticket for each cell.
  lemma WindowSlots(cap: nat, d: nat, j: nat, k: nat)
    requires cap > 0 && d <= j < d + cap && d <= k < d + cap && j != k
    ensures Slot(cap, j) != Slot(cap, k)
  {
    if j < k { SlotsDiffer(cap, j, k); } else { SlotsDiffer(cap, k, j); }
  }

  // Everything about a cell step but the one cell and the one thread it is about.
  lemma CellStepOthers<T(!new)>(s: State<T>, s': State<T>, t: nat, pos: nat, cell: Cell<T>, pc: Pc<T>, own: nat)
    requires Inv(s) && t < |s.threads| && CellStep(s, t, pos, cell, pc, s')
    requires PushHolds(s.threads[t], pos) || PopHolds(s.threads[t], pos)
    requires !Holds(pc) || (pc.pos == pos && PushHolds(pc, pos) == PushHolds(s.threads[t], pos)
                            && PopHolds(pc, pos) == PopHolds(s.threads[t], pos))
    requires s.cells[Slot(s.cap, pos)].seqNo <= cell.seqNo
    requires s.dequeuePos <= own < s.dequeuePos + s.cap && Slot(s.cap, own) == Slot(s.cap, pos)
    requires CellOk(s', own) && ThreadOk(s', pc)
    ensures forall k: nat :: s'.dequeuePos <= k < s'.dequeuePos + s'.cap ==> CellOk(s', k)
    ensures forall u :: 0 <= u < |s'.threads| ==> ThreadOk(s', s'.threads[u])
    ensures Exclusive(s')
  {
    hide Exclusive, LogsOk;
    forall k: nat | s'.dequeuePos <= k < s'.dequeuePos + s'.cap && k != own ensures CellOk(s', k) {
      WindowSlots(s.cap, s.dequeuePos, own, k);
      OtherCell(s, s', t, pos, cell, pc, k);
    }
    forall u | 0 <= u < |s'.threads| && u != t ensures ThreadOk(s', s'.threads[u]) {
      OtherThread(s, s', t, pos, cell, pc, u);
    }
    ExclusiveAfter(s, s', t, pc);
  }

  // Moving on with a ticket, or dropping it, leaves the others exclusive.
  lemma ExclusiveAfter<T(!new)>(s: State<T>, s': State<T>, t: nat, pc: Pc<T>)
    requires Exclusive(s) && t < |s.threads| && s'.threads == s.threads[t := pc]
    requires !Holds(pc) || (forall k: nat :: (PushHolds(pc, k) ==> PushHolds(s.threads[t], k))
                                             && (PopHolds(pc, k) ==> PopHolds(s.threads[t], k)))
    ensures Exclusive(s')
  {
    forall u, w, k: nat | 0 <= u < |s'.threads| && 0 <= w < |s'.threads| && u != w
      ensures !(PushHolds(s'.threads[u], k) && PushHolds(s'.threads[w], k))
      ensures !(PopHolds(s'.threads[u], k) && PopHolds(s'.threads[w], k))
    {
      assert !(PushHolds(s.threads[u], k) && PushHolds(s.threads[w], k));
      assert !(PopHolds(s.threads[u], k) && PopHolds(s.threads[w], k));
    }
  }

  // Taking a ticket nobody holds does too.
  lemma ExclusiveClaim<T(!new)>(s: State<T>, s': State<T>, t: nat, pc: Pc<T>)
    requires Exclusive(s) && t < |s.threads| && s'.threads == s.threads[t := pc] && Holds(pc)
    requires forall u :: 0 <= u < |s.threads| ==>
      !(PushHolds(pc, pc.pos) && PushHolds(s.threads[u], pc.pos))
        && !(PopHolds(pc, pc.pos) && PopHolds(s.threads[u], pc.pos))
    ensures Exclusive(s')
  {
    forall u, w, k: nat | 0 <= u < |s'.threads| && 0 <= w < |s'.threads| && u != w
      ensures !(PushHolds(s'.threads[u], k) && PushHolds(s'.threads[w], k))
      ensures !(PopHolds(s'.threads[u], k) && PopHolds(s'.threads[w], k))
    {
      assert !(PushHolds(s.threads[u], k) && PushHolds(s.threads[w], k));
      assert !(PopHolds(s.threads[u], k) && PopHolds(s.threads[w], k));
    }
  }

  lemma CellStepLogs<T(!new)>(s: State<T>, s': State<T>, t: nat, pos: nat, cell: Cell<T>, pc: Pc<T>)
    requires Inv(s) && t < |s.threads| && CellStep(s, t, pos, cell, pc, s')
    requires s.threads[t] == PopOwns(pos) ==> pos in s'.popped && pos in s.pushed && s'.popped[pos] == s.pushed[pos]
    requires PushHolds(s.threads[t], pos) || PopHolds(s.threads[t], pos)
    ensures LogsOk(s')
  {
    assert ThreadOk(s, s.threads[t]);
    hide CellOk, ThreadOk;
    forall k: nat | k < s'.dequeuePos && k !in s'.popped ensures Unread(s', k) {
      UnreadAfter(s, s', t, pc, k);
    }
  }

  lemma WriteStep<T(!new)>(s: State<T>, t: nat, v: T, pos: nat)
    requires Inv(s) && t < |s.threads| && s.threads[t] == PushOwns(v, pos)
    ensures Inv(Step(s, t, Access))
  {
    var s', pc, cell := Step(s, t, Access), PushWrote(v, pos), Cell(pos, v);
    assert ThreadOk(s, s.threads[t]) && CellOk(s, pos);
    HoldersAfter(s, s', t, pc, pos);
    CellStepOthers(s, s', t, pos, cell, pc, pos);
    CellStepLogs(s, s', t, pos, cell, pc);
  }

  lemma PublishStep<T(!new)>(s: State<T>, t: nat, v: T, pos: nat)
    requires Inv(s) && t < |s.threads| && s.threads[t] == PushWrote(v, pos)
    ensures Inv(Step(s, t, Store))
  {
    var s', cell := Step(s, t, Store), Cell(pos + 1, v);
    assert ThreadOk(s, s.threads[t]) && CellOk(s, pos);
    HoldersAfter(s, s', t, Idle, pos);
    CellStepOthers(s, s', t, pos, cell, Idle, pos);
    CellStepLogs(s, s', t, pos, cell, Idle);
  }

  // The cell of a ticket that a pop still holds already counts for the ticket one round later.
  lemma PopCell<T(!new)>(s: State<T>, t: nat, pos: nat)
    requires Inv(s) && t < |s.threads| && PopHolds(s.threads[t], pos)
    ensures s.dequeuePos <= pos + s.cap < s.dequeuePos + s.cap && s.enqueuePos <= pos + s.cap
    ensures Slot(s.cap, pos + s.cap) == Slot(s.cap, pos)
    ensures CellOk(s, pos + s.cap) && ThreadOk(s, s.threads[t])
  {
    assert ThreadOk(s, s.threads[t]);
    SlotAgain(s.cap, pos);
  }

  lemma ReadStep<T(!new)>(s: State<T>, t: nat, pos: nat)
    requires Inv(s) && t < |s.threads| && s.threads[t] == PopOwns(pos)
    ensures Inv(Step(s, t, Access))
  {
    var s', cell := Step(s, t, Access), s.cells[Slot(s.cap, pos)];
    var pc := PopRead(pos, cell.data);
    PopCell(s, t, pos);
    HoldersAfter(s, s', t, pc, pos);
    HoldersAfter(s, s', t, pc, pos + s.cap);
    assert s'.cells == s.cells[Slot(s.cap, pos) := cell];
    CellStepOthers(s, s', t, pos, cell, pc, pos + s.cap);
    CellStepLogs(s, s', t, pos, cell, pc);
  }

  lemma FreeStep<T(!new)>(s: State<T>, t: nat, pos: nat, out: T)
    requires Inv(s) && t < |s.threads| && s.threads[t] == PopRead(pos, out)
    ensures Inv(Step(s, t, Store))
  {
    var s', cell := Step(s, t, Store), s.cells[Slot(s.cap, pos)].(seqNo := pos + s.cap);
    PopCell(s, t, pos);
    HoldersAfter(s, s', t, Idle, pos);
    CellStepOthers(s, s', t, pos, cell, Idle, pos + s.cap);
    CellStepLogs(s, s', t, pos, cell, Idle);
  }

  // ---------------------------------------------------------------- every step, every run

  lemma LoadStep<T(!new)>(s: State<T>, t: nat, a: Action<T>)
    requires Inv(s) && Enabled(s, t, a) && (a.BeginPush? || a.BeginPop? || a.LoadSeq?)
    ensures Inv(Step(s, t, a))
  {
    hide CellOk, LogsOk, Exclusive, SomePush, SomePop;
    assert ThreadOk(s, s.threads[t]);
    QuietStep(s, t, Step(s, t, a).threads[t]);
  }

  lemma DecideStep<T(!new)>(s: State<T>, t: nat, a: Action<T>)
    requires Inv(s) && Enabled(s, t, a) && a.Decide?
    ensures Inv(Step(s, t, a))
  {
    hide CellOk, LogsOk, Exclusive, SomePush, SomePop;
    assert ThreadOk(s, s.threads[t]);
    match s.threads[t] {
      case PushSaw(v, pos, seen) =>
        if seen == pos == s.enqueuePos && !a.spurious {
          PushClaim(s, t, v, pos, seen);
        } else {
          QuietStep(s, t, Step(s, t, a).threads[t]);
        }
      case PopSaw(pos, seen) =>
        if seen == pos + 1 && pos == s.dequeuePos && !a.spurious {
          PopClaim(s, t, pos, seen);
        } else {
          QuietStep(s, t, Step(s, t, a).threads[t]);
        }
    }
  }

  lemma StepKeepsInv<T(!new)>(s: State<T>, t: nat, a: Action<T>)
    requires Inv(s) && Enabled(s, t, a)
    ensures Inv(Step(s, t, a))
  {
    hide Inv, Step;
    match a {
      case Decide(_) => DecideStep(s, t, a);
      case Access =>
        if s.threads[t].PushOwns? { WriteStep(s, t, s.threads[t].v, s.threads[t].pos); }
        else { ReadStep(s, t, s.threads[t].pos); }
      case Store =>
        if s.threads[t].PushWrote? { PublishStep(s, t, s.threads[t].v, s.threads[t].pos); }
        else { FreeStep(s, t, s.threads[t].pos, s.threads[t].out); }
      case _ => LoadStep(s, t, a);
    }
  }

  // A run is any sequence of enabled steps of any threads.
  ghost predicate Run<T(!new)>(s: State<T>, steps: seq<(nat, Action<T>)>, last: State<T>)
    decreases |steps|
  {
    if steps == [] then s == last
    else s.cap >= 2 && |s.cells| == s.cap && Enabled(s, steps[0].0, steps[0].1)
         && Run(Step(s, steps[0].0, steps[0].1), steps[1..], last)
  }

  ghost predicate Reachable<T(!new)>(s: State<T>) {
    exists first: State<T>, steps: seq<(nat, Action<T>)> :: Init(first) && Run(first, steps, s)
  }

  lemma {:induction false} RunKeepsInv<T(!new)>(s: State<T>, steps: seq<(nat, Action<T>)>, last: State<T>)
    requires Inv(s) && Run(s, steps, last)
    ensures Inv(last)
    decreases |steps|
  {
    if steps != [] {
      StepKeepsInv(s, steps[0].0, steps[0].1);
      RunKeepsInv(Step(s, steps[0].0, steps[0].1), steps[1..], last);
    }
  }

  lemma InitInv<T(!new)>(s: State<T>)
    requires Init(s)
    ensures Inv(s)
  {
    forall k: nat | k < s.cap ensures CellOk(s, k) {
      assert Slot(s.cap, k) == k;
    }
  }

  lemma ReachableInv<T(!new)>(s: State<T>)
    requires Reachable(s)
    ensures Inv(s)
  {
    var first: State<T>, steps: seq<(nat, Action<T>)> :| Init(first) && Run(first, steps, s);
    InitInv(first);
    RunKeepsInv(first, steps, s);
  }

  // ---------------------------------------------------------------- what the invariant gives

  // Between a successful CAS and the store that ends the operation, a cell has one owner.
  lemma OneOwnerPerCell<T(!new)>(s: State<T>, t: nat, u: nat)
    requires Reachable(s) && t < |s.threads| && u < |s.threads| && t != u
    requires Holds(s.threads[t]) && Holds(s.threads[u])
    ensures Bounds(s) && Slot(s.cap, s.threads[t].pos) != Slot(s.cap, s.threads[u].pos)
  {
    ReachableInv(s);
    var a, b := s.threads[t], s.threads[u];
    assert ThreadOk(s, a) && ThreadOk(s, b);
    assert !(PushHolds(a, a.pos) && PushHolds(b, a.pos)) && !(PopHolds(a, a.pos) && PopHolds(b, a.pos));
    HoldersApart(s, a, b);
  }

  // The pop that holds ticket k returns the value the push with ticket k put in, and no other pop
  // ever reads that ticket.
  lemma PopReturnsItsTicket<T(!new)>(s: State<T>, t: nat)
    requires Reachable(s) && t < |s.threads|
    ensures s.threads[t].PopRead? ==>
      s.threads[t].pos in s.pushed && s.threads[t].out == s.pushed[s.threads[t].pos]
    ensures s.threads[t].PopOwns? ==>
      s.threads[t].pos !in s.popped
      && forall u :: 0 <= u < |s.threads| && u != t ==> !PopHolds(s.threads[u], s.threads[t].pos)
  {
    ReachableInv(s);
    assert ThreadOk(s, s.threads[t]);
    if s.threads[t].PopOwns? {
      forall u | 0 <= u < |s.threads| && u != t ensures !PopHolds(s.threads[u], s.threads[t].pos) {
        assert PopHolds(s.threads[t], s.threads[t].pos);
      }
    }
  }

  // Where the value of an accepted ticket can be.
  ghost predicate InCell<T>(s: State<T>, k: nat)
    requires Bounds(s)
  {
    k in s.pushed && s.cells[Slot(s.cap, k)] == Cell(k + 1, s.pushed[k])
  }

  // No value is lost, invented, duplicated or reordered: tickets are handed out in order, and each
  // accepted one is on its way in, in its cell, in the hands of one pop, or returned unchanged.
  lemma EveryTicketAccounted<T(!new)>(s: State<T>)
    requires Reachable(s)
    ensures Bounds(s)
    ensures forall k: nat :: k in s.pushed <==> k < s.enqueuePos
    ensures forall k: nat :: k in s.popped ==> k < s.dequeuePos && k in s.pushed && s.popped[k] == s.pushed[k]
    ensures forall k: nat :: k < s.dequeuePos && k !in s.popped ==> Unread(s, k) && InCell(s, k)
    ensures forall k: nat :: s.dequeuePos <= k < s.enqueuePos ==> k !in s.popped && (SomePush(s, k) <==> !InCell(s, k))
  {
    ReachableInv(s);
    forall k: nat | k < s.dequeuePos && k !in s.popped ensures InCell(s, k) {
      var t :| 0 <= t < |s.threads| && s.threads[t] == PopOwns(k);
      assert ThreadOk(s, s.threads[t]);
    }
    forall k: nat | s.dequeuePos <= k < s.enqueuePos ensures SomePush(s, k) <==> !InCell(s, k) {
      assert CellOk(s, k);
    }
  }

  // With every operation finished, the returned values are the first dequeuePos accepted ones and
  // the cells hold the rest.
  lemma QuiescentQueue<T(!new)>(s: State<T>)
    requires Reachable(s) && forall t :: 0 <= t < |s.threads| ==> s.threads[t] == Idle
    ensures forall k: nat :: k in s.popped <==> k < s.dequeuePos
    ensures Bounds(s) && forall k: nat :: s.dequeuePos <= k < s.enqueuePos ==> InCell(s, k)
  {
    EveryTicketAccounted(s);
  }

  // The window ticket that shares the cell of an old position.
  lemma WindowTicket(cap: nat, d: nat, pos: nat) returns (k: nat)
    requires cap > 0 && pos < d
    ensures d <= k < d + cap && Slot(cap, k) == Slot(cap, pos) && k >= pos + cap
  {
    k := pos;
    while k < d
      invariant k < d + cap && Slot(cap, k) == Slot(cap, pos) && (k == pos || k >= pos + cap)
      decreases d + cap - k
    {
      SlotAgain(cap, k);
      k := k + cap;
    }
  }

  // What a push that is about to give up has seen: a full queue, or a cell that a pop of the
  // previous round has claimed but not yet freed.
  lemma PushRefusedIff<T(!new)>(s: State<T>, t: nat)
    requires Reachable(s) && t < |s.threads| && s.threads[t].PushAt?
    ensures Bounds(s) && var pos := s.threads[t].pos;
      s.cells[Slot(s.cap, pos)].seqNo < pos <==>
      pos == s.enqueuePos && (s.enqueuePos == s.dequeuePos + s.cap || (pos >= s.cap && SomePop(s, pos - s.cap)))
  {
    ReachableInv(s);
    var pos := s.threads[t].pos;
    assert ThreadOk(s, s.threads[t]);
    if pos < s.dequeuePos {
      var k := WindowTicket(s.cap, s.dequeuePos, pos);
      assert CellOk(s, k);
    } else if pos < s.dequeuePos + s.cap {
      assert CellOk(s, pos);
    } else {
      SlotAgain(s.cap, s.dequeuePos);
      assert CellOk(s, s.dequeuePos);
    }
  }

  // ... and a pop: an empty queue, or a value its push has not published yet.
  lemma PopRefusedIff<T(!new)>(s: State<T>, t: nat)
    requires Reachable(s) && t < |s.threads| && s.threads[t].PopAt?
    ensures Bounds(s) && var pos := s.threads[t].pos;
      s.cells[Slot(s.cap, pos)].seqNo < pos + 1 <==>
      pos == s.dequeuePos && (s.enqueuePos == s.dequeuePos || SomePush(s, pos))
  {
    ReachableInv(s);
    var pos := s.threads[t].pos;
    assert ThreadOk(s, s.threads[t]);
    if pos < s.dequeuePos {
      var k := WindowTicket(s.cap, s.dequeuePos, pos);
      assert CellOk(s, k);
    } else {
      assert CellOk(s, pos);
    }
  }

  // ---------------------------------------------------------------- a run

  lemma {:induction false} RunExtends<T(!new)>(s: State<T>, steps: seq<(nat, Action<T>)>, last: State<T>,
                                               t: nat, a: Action<T>)
    requires Run(s, steps, last) && last.cap >= 2 && |last.cells| == last.cap && Enabled(last, t, a)
    ensures Run(s, steps + [(t, a)], Step(last, t, a))
    decreases |steps|
  {
    var longer := steps + [(t, a)];
    if steps == [] {
      assert longer[1..] == [];
    } else {
      RunExtends(Step(s, steps[0].0, steps[0].1), steps[1..], last, t, a);
      assert longer[1..] == steps[1..] + [(t, a)];
    }
  }

  lemma ReachableStep<T(!new)>(s: State<T>, t: nat, a: Action<T>)
    requires Reachable(s) && s.cap >= 2 && |s.cells| == s.cap && Enabled(s, t, a)
    ensures Reachable(Step(s, t, a))
  {
    var first: State<T>, steps: seq<(nat, Action<T>)> :| Init(first) && Run(first, steps, s);
    RunExtends(first, steps, s, t, a);
  }

  // A push by an idle thread that nobody disturbs.
  lemma PushAlone<T(!new)>(s: State<T>, t: nat, v: T) returns (s': State<T>)
    requires Reachable(s) && s.cap >= 2 && |s.cells| == s.cap && t < |s.threads| && s.threads[t].Idle?
    requires s.cells[Slot(s.cap, s.enqueuePos)].seqNo == s.enqueuePos
    ensures Reachable(s')
    ensures s' == s.(enqueuePos := s.enqueuePos + 1, pushed := s.pushed[s.enqueuePos := v],
                     cells := s.cells[Slot(s.cap, s.enqueuePos) := Cell(s.enqueuePos + 1, v)])
  {
    hide Reachable;
    var s1 := TicketAlone(s, t, v);
    ReachableStep(s1, t, Access);
    var s2 := Step(s1, t, Access);
    ReachableStep(s2, t, Store);
    s' := Step(s2, t, Store);
    assert s'.threads == s.threads;
  }

  // Its first half: up to the CAS.
  lemma TicketAlone<T(!new)>(s: State<T>, t: nat, v: T) returns (s': State<T>)
    requires Reachable(s) && s.cap >= 2 && |s.cells| == s.cap && t < |s.threads| && s.threads[t].Idle?
    requires s.cells[Slot(s.cap, s.enqueuePos)].seqNo == s.enqueuePos
    ensures Reachable(s')
    ensures s' == At(s, t, PushOwns(v, s.enqueuePos)).(enqueuePos := s.enqueuePos + 1,
                                                       pushed := s.pushed[s.enqueuePos := v])
  {
    hide Reachable, Slot;
    ReachableStep(s, t, BeginPush(v));
    var s1 := Step(s, t, BeginPush(v));
    assert s1 == At(s, t, PushAt(v, s.enqueuePos));
    ReachableStep(s1, t, LoadSeq);
    var s2 := Step(s1, t, LoadSeq);
    assert s2 == At(s, t, PushSaw(v, s.enqueuePos, s.enqueuePos));
    ReachableStep(s2, t, Decide(false));
    s' := Step(s2, t, Decide(false));
  }

  // A push can be refused with room for one more value: two pushes, a pop that has its ticket but has not
  // freed the cell, and a third push that finds the old number in that cell.
  lemma RefusedThoughNotFull() returns (s: State<int>)
    ensures Reachable(s) && |s.threads| == 2 && s.enqueuePos - s.dequeuePos < s.cap
    ensures s.threads[0].PushSaw? && Enabled(s, 0, Decide(false)) && |s.cells| == s.cap >= 2
    ensures Step(s, 0, Decide(false)) == At(s, 0, Idle)
  {
    var s0: State<int> := State(2, [Cell(0, 0), Cell(1, 0)], 0, 0, [Idle, Idle], map[], map[]);
    assert Init(s0) && Run(s0, [], s0);
    var s1 := PushAlone(s0, 0, 7);
    var s2 := PushAlone(s1, 0, 8);
    ReachableStep(s2, 1, BeginPop);
    var s3 := Step(s2, 1, BeginPop);
    ReachableStep(s3, 1, LoadSeq);
    var s4 := Step(s3, 1, LoadSeq);
    ReachableStep(s4, 1, Decide(false));
    var s5 := Step(s4, 1, Decide(false));
    ReachableStep(s5, 0, BeginPush(9));
    var s6 := Step(s5, 0, BeginPush(9));
    ReachableStep(s6, 0, LoadSeq);
    s := Step(s6, 0, LoadSeq);
  }

  // A pop can be refused with a value accepted: a push that has its ticket has not published yet.
  lemma RefusedThoughNotEmpty() returns (s: State<int>)
    ensures Reachable(s) && |s.threads| == 2 && s.dequeuePos < s.enqueuePos
    ensures s.threads[1].PopSaw? && Enabled(s, 1, Decide(false)) && |s.cells| == s.cap >= 2
    ensures Step(s, 1, Decide(false)) == At(s, 1, Idle)
  {
    var s0: State<int> := State(2, [Cell(0, 0), Cell(1, 0)], 0, 0, [Idle, Idle], map[], map[]);
    assert Init(s0) && Run(s0, [], s0);
    var s1 := TicketAlone(s0, 0, 7);
    ReachableStep(s1, 1, BeginPop);
    var s2 := Step(s1, 1, BeginPop);
    ReachableStep(s2, 1, LoadSeq);
    s := Step(s2, 1, LoadSeq);
  }
}
