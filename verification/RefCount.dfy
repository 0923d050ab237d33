/** The reference-counted control block (shared_ptr.hpp): each atomic operation on the two counters one
    step, in any interleaving of any number of SharedPtr and WeakPtr handles, each dropped once. */
module RefCount {
  // A slot that may hold a handle, or a thread in the middle of one of its operations.
  datatype Handle =
    | Empty
    | Strong                            // a SharedPtr
    | Destroying                        // dec_strong took the count to 0; about to destroy the object
    | Releasing                         // about to drop the weak reference of the strong owners
    | Weak                              // a WeakPtr
    | Locking(seen: int, src: nat)      // incref_if_nonzero on the WeakPtr in src, result to go here
    | Freeing                           // dec_weak took the count to 0; about to free the block

  // The last three fields are history: how often the object was destroyed and the block freed,
  // and whether the strong owners' weak reference is gone.
  datatype State = State(strong: int, weak: int, handles: seq<Handle>, destroyed: nat, freed: nat, released: bool)

  datatype Action =
    | CopyStrong(h: nat, to: nat)       // inc_strong
    | Observe(h: nat, to: nat)          // inc_weak by a SharedPtr
    | CopyWeak(h: nat, to: nat)         // inc_weak by a WeakPtr
    | MoveWeak(h: nat, to: nat)
    | DropStrong(h: nat)                // dec_strong: fetch_sub
    | Destroy(h: nat)                   //   destroy_object
    | ReleaseSelf(h: nat)               //   dec_weak: fetch_sub
    | DropWeak(h: nat)                  // dec_weak: fetch_sub
    | Free(h: nat)                      //   delete this
    | LockLoad(h: nat, to: nat)         // incref_if_nonzero: load
    | LockTry(h: nat, spurious: bool)   //   compare_exchange_weak

  function Init(slots: nat): State {
    State(1, 1, [Strong] + seq(slots, _ => Empty), 0, 0, false)
  }

  predicate Borrowed(s: State, h: nat) {
    exists j :: 0 <= j < |s.handles| && s.handles[j].Locking? && s.handles[j].src == h
  }

  predicate Is(s: State, h: nat, handle: Handle) {
    h < |s.handles| && s.handles[h] == handle
  }

  predicate Enabled(s: State, a: Action) {
    match a
    case CopyStrong(h, to) => Is(s, h, Strong) && Is(s, to, Empty)
    case Observe(h, to) => Is(s, h, Strong) && Is(s, to, Empty)
    case CopyWeak(h, to) => Is(s, h, Weak) && Is(s, to, Empty)
    case MoveWeak(h, to) => Is(s, h, Weak) && Is(s, to, Empty) && !Borrowed(s, h)
    case DropStrong(h) => Is(s, h, Strong)
    case Destroy(h) => Is(s, h, Destroying)
    case ReleaseSelf(h) => Is(s, h, Releasing)
    case DropWeak(h) => Is(s, h, Weak) && !Borrowed(s, h)
    case Free(h) => Is(s, h, Freeing)
    case LockLoad(h, to) => Is(s, h, Weak) && Is(s, to, Empty)
    case LockTry(h, _) => h < |s.handles| && s.handles[h].Locking?
  }

  function With(s: State, h: nat, handle: Handle): State
    requires h < |s.handles|
  {
    s.(handles := s.handles[h := handle])
  }

  function Step(s: State, a: Action): State
    requires Enabled(s, a)
  {
    match a
    case CopyStrong(_, to) => With(s, to, Strong).(strong := s.strong + 1)
    case Observe(_, to) => With(s, to, Weak).(weak := s.weak + 1)
    case CopyWeak(_, to) => With(s, to, Weak).(weak := s.weak + 1)
    case MoveWeak(h, to) => With(With(s, h, Empty), to, Weak)
    case DropStrong(h) => With(s, h, if s.strong == 1 then Destroying else Empty).(strong := s.strong - 1)
    case Destroy(h) => With(s, h, Releasing).(destroyed := s.destroyed + 1)
    case ReleaseSelf(h) => With(s, h, if s.weak == 1 then Freeing else Empty).(weak := s.weak - 1, released := true)
    case DropWeak(h) => With(s, h, if s.weak == 1 then Freeing else Empty).(weak := s.weak - 1)
    case Free(h) => With(s, h, Empty).(freed := s.freed + 1)
    case LockLoad(h, to) => With(s, to, Locking(s.strong, h))
    case LockTry(h, spurious) =>
      var seen := s.handles[h].seen;
      if seen == 0 then With(s, h, Empty)
      else if s.strong == seen && !spurious then With(s, h, Strong).(strong := s.strong + 1)
      else With(s, h, Locking(s.strong, s.handles[h].src))
  }

  ghost predicate Run(s: State, steps: seq<Action>, last: State)
    decreases |steps|
  {
    if steps == [] then s == last else Enabled(s, steps[0]) && Run(Step(s, steps[0]), steps[1..], last)
  }

  ghost predicate Reachable(s: State) {
    exists slots: nat, steps :: Run(Init(slots), steps, s)
  }

  // ---------------------------------------------------------------- the invariant

  datatype Kind = Strongs | Weaks | Destroyers | Releasers | Freers

  predicate In(h: Handle, k: Kind) {
    match k
    case Strongs => h.Strong?
    case Weaks => h.Weak?
    case Destroyers => h.Destroying?
    case Releasers => h.Releasing?
    case Freers => h.Freeing?
  }

  function Count(hs: seq<Handle>, k: Kind): nat {
    if hs == [] then 0 else (if In(hs[0], k) then 1 else 0) + Count(hs[1..], k)
  }

  function B(b: bool): nat { if b then 1 else 0 }

  ghost predicate Counts(s: State) {
    // The counters count: weak has one extra for all strong owners together.
    && s.strong == Count(s.handles, Strongs)
    && s.weak == Count(s.handles, Weaks) + B(!s.released)
    // The object dies once, by the one who took strong to 0.
    && Count(s.handles, Destroyers) + s.destroyed == B(s.strong == 0)
    // Then the extra weak reference goes, once.
    && Count(s.handles, Releasers) + B(s.released) == s.destroyed
    // The block is freed once, by the one who took weak to 0.
    && Count(s.handles, Freers) + s.freed == B(s.weak == 0)
  }

  // A WeakPtr being locked is alive.
  ghost predicate Borrows(s: State) {
    forall j :: 0 <= j < |s.handles| && s.handles[j].Locking? ==> Is(s, s.handles[j].src, Weak)
  }

  // A thread that has read a strong count of 0 is right for good.
  ghost predicate ZeroSeen(s: State) {
    forall j :: 0 <= j < |s.handles| && s.handles[j].Locking? && s.handles[j].seen == 0 ==> s.strong == 0
  }

  ghost predicate Inv(s: State) {
    Counts(s) && Borrows(s) && ZeroSeen(s)
  }

  lemma {:induction false} CountReplaced(hs: seq<Handle>, i: nat, h: Handle, k: Kind)
    requires i < |hs|
    ensures Count(hs[i := h], k) + B(In(hs[i], k)) == Count(hs, k) + B(In(h, k))
  {
    hide In;
    if i == 0 {
      assert hs[i := h][1..] == hs[1..];
    } else {
      CountReplaced(hs[1..], i - 1, h, k);
      assert hs[i := h][1..] == hs[1..][i - 1 := h];
    }
  }

  lemma CountsReplaced(hs: seq<Handle>, i: nat, h: Handle)
    requires i < |hs|
    ensures forall k :: Count(hs[i := h], k) + B(In(hs[i], k)) == Count(hs, k) + B(In(h, k))
  {
    forall k ensures Count(hs[i := h], k) + B(In(hs[i], k)) == Count(hs, k) + B(In(h, k)) {
      CountReplaced(hs, i, h, k);
    }
  }

  lemma {:induction false} CountZero(hs: seq<Handle>, k: Kind)
    ensures Count(hs, k) == 0 <==> forall i :: 0 <= i < |hs| ==> !In(hs[i], k)
  {
    hide In;
    if hs != [] {
      CountZero(hs[1..], k);
      assert forall i :: 0 < i < |hs| ==> hs[i] == hs[1..][i - 1];
      assert (forall i :: 0 <= i < |hs[1..]| ==> !In(hs[1..][i], k)) ==> forall i :: 0 < i < |hs| ==> !In(hs[i], k);
    }
  }

  lemma CountSome(hs: seq<Handle>, i: nat, k: Kind)
    requires i < |hs| && In(hs[i], k)
    ensures Count(hs, k) > 0
  {
    CountZero(hs, k);
  }

  lemma InitInv(slots: nat)
    ensures Inv(Init(slots))
  {
    var rest := seq(slots, _ => Empty);
    assert ([Strong] + rest)[1..] == rest;
    CountZero(rest, Strongs);
    CountZero(rest, Weaks);
    CountZero(rest, Destroyers);
    CountZero(rest, Releasers);
    CountZero(rest, Freers);
  }

  lemma BorrowsKept(s: State, a: Action)
    requires Borrows(s) && Enabled(s, a)
    ensures Borrows(Step(s, a))
  {
    var s' := Step(s, a);
    forall j | 0 <= j < |s'.handles| && s'.handles[j].Locking? ensures Is(s', s'.handles[j].src, Weak) {
      assert j < |s.handles|;
      if s.handles[j].Locking? { assert Borrowed(s, s.handles[j].src); }
    }
  }

  lemma ZeroSeenKept(s: State, a: Action)
    requires Inv(s) && Enabled(s, a)
    ensures ZeroSeen(Step(s, a))
  {
    CountZero(s.handles, Strongs);
    hide Count;
    var s' := Step(s, a);
    assert s.strong == 0 ==> s'.strong == 0;
    forall j | 0 <= j < |s'.handles| && s'.handles[j].Locking? && s'.handles[j].seen == 0 ensures s'.strong == 0 {
      assert j < |s.handles|;
    }
  }

  // Steps that give out a reference.
  lemma GiveKeepsCounts(s: State, a: Action)
    requires Inv(s) && Enabled(s, a) && (a.CopyStrong? || a.Observe? || a.CopyWeak? || a.LockLoad? || a.LockTry?)
    ensures Counts(Step(s, a))
  {
    CountZero(s.handles, Strongs);
    CountZero(s.handles, Weaks);
    hide Count;
    var i := if a.LockTry? then a.h else a.to;
    assert Step(s, a).handles == s.handles[i := Step(s, a).handles[i]];
    CountsReplaced(s.handles, i, Step(s, a).handles[i]);
  }

  // Steps that take one back.
  lemma TakeKeepsCounts(s: State, a: Action)
    requires Inv(s) && Enabled(s, a)
    requires a.DropStrong? || a.Destroy? || a.ReleaseSelf? || a.DropWeak? || a.Free?
    ensures Counts(Step(s, a))
  {
    hide Count;
    assert Step(s, a).handles == s.handles[a.h := Step(s, a).handles[a.h]];
    CountsReplaced(s.handles, a.h, Step(s, a).handles[a.h]);
  }

  lemma MoveKeepsCounts(s: State, h: nat, to: nat)
    requires Counts(s) && Enabled(s, MoveWeak(h, to))
    ensures Counts(Step(s, MoveWeak(h, to)))
  {
    hide Count;
    CountsReplaced(s.handles, h, Empty);
    CountsReplaced(s.handles[h := Empty], to, Weak);
  }

  lemma StepKeepsInv(s: State, a: Action)
    requires Inv(s) && Enabled(s, a)
    ensures Inv(Step(s, a))
  {
    BorrowsKept(s, a);
    ZeroSeenKept(s, a);
    hide Counts, Borrows, ZeroSeen;
    match a {
      case MoveWeak(h, to) => MoveKeepsCounts(s, h, to);
      case CopyStrong(_, _) => GiveKeepsCounts(s, a);
      case Observe(_, _) => GiveKeepsCounts(s, a);
      case CopyWeak(_, _) => GiveKeepsCounts(s, a);
      case LockLoad(_, _) => GiveKeepsCounts(s, a);
      case LockTry(_, _) => GiveKeepsCounts(s, a);
      case _ => TakeKeepsCounts(s, a);
    }
  }

  lemma {:induction false} RunKeepsInv(s: State, steps: seq<Action>, last: State)
    requires Inv(s) && Run(s, steps, last)
    ensures Inv(last)
    decreases |steps|
  {
    if steps != [] {
      StepKeepsInv(s, steps[0]);
      RunKeepsInv(Step(s, steps[0]), steps[1..], last);
    }
  }

  lemma ReachableInv(s: State)
    requires Reachable(s)
    ensures Inv(s)
  {
    var slots: nat, steps :| Run(Init(slots), steps, s);
    InitInv(slots);
    RunKeepsInv(Init(slots), steps, s);
  }

  // ---------------------------------------------------------------- what it gives

  // The object: destroyed at most once, never while a SharedPtr exists, and gone for good.
  lemma ObjectLifetime(s: State)
    requires Reachable(s)
    ensures s.destroyed <= 1
    ensures forall h :: 0 <= h < |s.handles| && (s.handles[h].Strong? || s.handles[h].Destroying?) ==> s.destroyed == 0
  {
    ReachableInv(s);
    forall h | 0 <= h < |s.handles| && (s.handles[h].Strong? || s.handles[h].Destroying?) ensures s.destroyed == 0 {
      CountSome(s.handles, h, if s.handles[h].Strong? then Strongs else Destroyers);
    }
  }

  // The block: freed at most once, after the object, and when nothing refers to it any more, so no
  // step whatever touches a freed block.
  lemma BlockLifetime(s: State, a: Action)
    requires Reachable(s) && s.freed > 0
    ensures s.freed == 1 && s.destroyed == 1
    ensures forall h :: 0 <= h < |s.handles| ==> s.handles[h] == Empty
    ensures !Enabled(s, a)
  {
    ReachableInv(s);
    forall h | 0 <= h < |s.handles| ensures s.handles[h] == Empty {
      NobodyLeft(s, h);
    }
  }

  lemma NobodyLeft(s: State, h: nat)
    requires Inv(s) && s.freed > 0 && h < |s.handles|
    ensures s.handles[h] == Empty
  {
    CountZero(s.handles, Strongs);
    CountZero(s.handles, Weaks);
    CountZero(s.handles, Destroyers);
    CountZero(s.handles, Releasers);
    CountZero(s.handles, Freers);
    hide Count;
    var x := s.handles[h];
    assert !In(x, Strongs) && !In(x, Weaks) && !In(x, Destroyers) && !In(x, Releasers) && !In(x, Freers);
    assert x.Locking? ==> !In(s.handles[x.src], Weaks);
  }

  // A WeakPtr, and a thread about to touch the block, find it allocated.
  lemma NoTouchAfterFree(s: State, a: Action)
    requires Reachable(s) && Enabled(s, a)
    ensures s.freed == 0
  {
    if s.freed > 0 { BlockLifetime(s, a); }
  }

  // incref_if_nonzero never brings a dead object back: once the count is 0 it stays 0.
  lemma NoRevival(s: State, a: Action)
    requires Reachable(s) && Enabled(s, a) && s.strong == 0
    ensures Step(s, a).strong == 0
    ensures forall h :: 0 <= h < |s.handles| ==> !Step(s, a).handles[h].Strong?
  {
    ReachableInv(s);
    CountZero(s.handles, Strongs);
  }

  // ... and while the object lives, a CAS on the current count always succeeds.
  lemma LockSucceeds(s: State, h: nat)
    requires Reachable(s) && Enabled(s, LockTry(h, false)) && s.strong > 0 && s.handles[h].seen == s.strong
    ensures Step(s, LockTry(h, false)).handles[h] == Strong && s.destroyed == 0
  {
    ReachableInv(s);
  }

  // lock() comes back empty only when the object is dead, and with a strong handle only while it is alive.
  lemma LockFailsOnlyWhenDead(s: State, h: nat, spurious: bool)
    requires Reachable(s) && Enabled(s, LockTry(h, spurious))
    ensures var got := Step(s, LockTry(h, spurious)).handles[h];
      && (got == Empty ==> s.strong == 0 && (s.destroyed == 1 || exists i :: Is(s, i, Destroying)))
      && (got == Strong ==> s.strong > 0 && s.destroyed == 0)
  {
    ReachableInv(s);
    CountZero(s.handles, Destroyers);
    if s.strong == 0 && s.destroyed == 0 {
      var i :| 0 <= i < |s.handles| && In(s.handles[i], Destroyers);
      assert Is(s, i, Destroying);
    }
  }

  // With every reference dropped, the object has been destroyed and the block freed: nothing leaks.
  lemma AllDroppedAllGone(s: State)
    requires Reachable(s) && forall h :: 0 <= h < |s.handles| ==> s.handles[h] == Empty
    ensures s.destroyed == 1 && s.freed == 1
  {
    ReachableInv(s);
    CountZero(s.handles, Strongs);
    CountZero(s.handles, Weaks);
    CountZero(s.handles, Destroyers);
    CountZero(s.handles, Releasers);
    CountZero(s.handles, Freers);
  }
}
