/** What the steps on the control block do to the handles (shared_ptr.hpp), and that they come to an end: when
    everybody lets go, the object is destroyed and the block freed. */
module RefCountRuns {
  import opened RefCount

  // ---------------------------------------------------------------- what each step does

  // The SharedPtrs and WeakPtrs there are.
  function References(s: State): nat {
    Count(s.handles, Strongs) + Count(s.handles, Weaks)
  }

  predicate IsReference(h: Handle) {
    h == Strong || h == Weak
  }

  // What a handle allows, whatever anybody else is doing: a SharedPtr can be copied, observed and dropped; a WeakPtr
  // can be copied and locked, and moved and dropped unless somebody is locking it.
  lemma HandlesAllow(s: State, h: nat, to: nat)
    requires h < |s.handles| && to < |s.handles| && s.handles[to] == Empty
    ensures s.handles[h] == Strong ==>
      Enabled(s, CopyStrong(h, to)) && Enabled(s, Observe(h, to)) && Enabled(s, DropStrong(h))
    ensures s.handles[h] == Weak ==> Enabled(s, CopyWeak(h, to)) && Enabled(s, LockLoad(h, to))
    ensures s.handles[h] == Weak && (forall j :: 0 <= j < |s.handles| ==> !s.handles[j].Locking?) ==>
      Enabled(s, MoveWeak(h, to)) && Enabled(s, DropWeak(h))
  {
  }

  // A copy, an observer and a moved pointer appear in their slot; only a move takes the old one away.
  lemma GivingEffects(s: State, a: Action)
    requires Enabled(s, a) && (a.CopyStrong? || a.Observe? || a.CopyWeak? || a.MoveWeak?)
    ensures var s' := Step(s, a);
      && |s'.handles| == |s.handles| && a.to < |s.handles|
      && s'.handles[a.to] == (if a.CopyStrong? then Strong else Weak)
      && s'.handles[a.h] == (if a.MoveWeak? then Empty else s.handles[a.h])
      && References(s') == References(s) + (if a.MoveWeak? then 0 else 1)
      && (forall i :: 0 <= i < |s.handles| && i != a.to && i != a.h ==> s'.handles[i] == s.handles[i])
  {
    hide Count;
    var s' := Step(s, a);
    if a.MoveWeak? {
      CountsReplaced(s.handles, a.h, Empty);
      CountsReplaced(s.handles[a.h := Empty], a.to, Weak);
    } else {
      CountsReplaced(s.handles, a.to, s'.handles[a.to]);
    }
  }

  // A drop takes the reference out of its slot. The last owner goes on to destroy the object, the last reference of
  // any kind to free the block; nobody else does.
  lemma DroppingEffects(s: State, a: Action)
    requires Reachable(s) && Enabled(s, a) && (a.DropStrong? || a.DropWeak?)
    ensures var s' := Step(s, a);
      && |s'.handles| == |s.handles| && a.h < |s.handles|
      && !IsReference(s'.handles[a.h]) && References(s') == References(s) - 1
      && (a.DropStrong? ==> (s'.handles[a.h] == Destroying <==> Count(s.handles, Strongs) == 1))
      && (a.DropWeak? ==> (s'.handles[a.h] == Freeing <==> Count(s.handles, Weaks) == 1 && s.released))
      && (s'.handles[a.h] == Empty || s'.handles[a.h] == Destroying || s'.handles[a.h] == Freeing)
      && (forall i :: 0 <= i < |s.handles| && i != a.h ==> s'.handles[i] == s.handles[i])
  {
    hide Count;
    ReachableInv(s);
    CountsReplaced(s.handles, a.h, Step(s, a).handles[a.h]);
  }

  // The steps that follow: the object is destroyed, then the owners' weak reference goes, and the block is freed.
  lemma EndingEffects(s: State, a: Action)
    requires Enabled(s, a) && (a.Destroy? || a.ReleaseSelf? || a.Free?)
    ensures var s' := Step(s, a);
      && |s'.handles| == |s.handles| && a.h < |s.handles|
      && s'.destroyed == s.destroyed + (if a.Destroy? then 1 else 0)
      && s'.freed == s.freed + (if a.Free? then 1 else 0)
      && (a.Destroy? ==> s'.handles[a.h] == Releasing)
      && (a.ReleaseSelf? ==> s'.released && (s'.handles[a.h] == Freeing <==> s.weak == 1))
      && (a.ReleaseSelf? || a.Free? ==> s'.handles[a.h] == Empty || s'.handles[a.h] == Freeing)
      && (a.Free? ==> s'.handles[a.h] == Empty)
      && (forall i :: 0 <= i < |s.handles| && i != a.h ==> s'.handles[i] == s.handles[i])
  {
  }

  // lock() works on a slot of its own: it loads the count there, and the slot ends up with a SharedPtr or empty, or
  // tries again with the count as it is now.
  lemma LockingEffects(s: State, a: Action)
    requires Enabled(s, a) && (a.LockLoad? || a.LockTry?)
    ensures var s', i := Step(s, a), if a.LockLoad? then a.to else a.h;
      && |s'.handles| == |s.handles| && i < |s.handles|
      && (a.LockLoad? ==> s'.handles[i] == Locking(s.strong, a.h))
      && (a.LockTry? ==>
            var was := s.handles[i];
            if was.seen == 0 then s'.handles[i] == Empty
            else if was.seen == s.strong && !a.spurious then s'.handles[i] == Strong
            else s'.handles[i] == Locking(s.strong, was.src))
      && (forall j :: 0 <= j < |s.handles| && j != i ==> s'.handles[j] == s.handles[j])
  {
  }

  // ---------------------------------------------------------------- letting go comes to an end

  predicate LetsGo(a: Action) {
    a.DropStrong? || a.Destroy? || a.ReleaseSelf? || a.DropWeak? || a.Free?
  }

  // How many steps a slot is from being empty, at most.
  function Weight(h: Handle): nat {
    match h
    case Empty => 0
    case Freeing => 1
    case Weak => 2
    case Releasing => 2
    case Destroying => 3
    case Strong => 4
    case Locking(_, _) => 5
  }

  function Debt(hs: seq<Handle>): nat {
    if hs == [] then 0 else Weight(hs[0]) + Debt(hs[1..])
  }

  lemma {:induction false} DebtReplaced(hs: seq<Handle>, i: nat, h: Handle)
    requires i < |hs|
    ensures Debt(hs[i := h]) + Weight(hs[i]) == Debt(hs) + Weight(h)
  {
    hide Weight;
    if i == 0 {
      assert hs[i := h][1..] == hs[1..];
    } else {
      DebtReplaced(hs[1..], i - 1, h);
      assert hs[i := h][1..] == hs[1..][i - 1 := h];
    }
  }

  lemma LettingGoFalls(s: State, a: Action)
    requires Enabled(s, a) && LetsGo(a)
    ensures Debt(Step(s, a).handles) < Debt(s.handles)
  {
    hide Debt;
    assert Step(s, a).handles == s.handles[a.h := Step(s, a).handles[a.h]];
    DebtReplaced(s.handles, a.h, Step(s, a).handles[a.h]);
  }

  // So nobody can go on letting go for ever.
  lemma {:induction false} LettingGoEnds(s: State, steps: seq<Action>, last: State)
    requires Run(s, steps, last) && forall i :: 0 <= i < |steps| ==> LetsGo(steps[i])
    ensures |steps| + Debt(last.handles) <= Debt(s.handles)
    decreases |steps|
  {
    hide Debt, Step, Enabled;
    if steps != [] {
      assert LetsGo(steps[0]);
      LettingGoFalls(s, steps[0]);
      assert forall i :: 0 <= i < |steps| - 1 ==> LetsGo(steps[1..][i]);
      LettingGoEnds(Step(s, steps[0]), steps[1..], last);
    }
  }

  lemma {:induction false} RunExtends(s: State, steps: seq<Action>, last: State, a: Action)
    requires Run(s, steps, last) && Enabled(last, a)
    ensures Run(s, steps + [a], Step(last, a))
    decreases |steps|
  {
    hide Step, Enabled;
    var longer := steps + [a];
    if steps == [] {
      assert longer[1..] == [];
      assert Run(Step(last, a), [], Step(last, a));
    } else {
      RunExtends(Step(s, steps[0]), steps[1..], last, a);
      assert longer[1..] == steps[1..] + [a];
    }
  }

  lemma ReachableStep(s: State, a: Action)
    requires Reachable(s) && Enabled(s, a)
    ensures Reachable(Step(s, a))
  {
    var slots: nat, steps :| Run(Init(slots), steps, s);
    RunExtends(Init(slots), steps, s, a);
  }

  // A slot that holds anything but a lock in progress can take a step towards empty, if no lock is in progress.
  function NextStep(h: nat, handle: Handle): Action
    requires handle != Empty && !handle.Locking?
  {
    match handle
    case Strong => DropStrong(h)
    case Destroying => Destroy(h)
    case Releasing => ReleaseSelf(h)
    case Weak => DropWeak(h)
    case Freeing => Free(h)
  }

  // When nobody is locking and nobody can let go any more, the object is destroyed and the block is freed.
  lemma NobodyHoldsOn(s: State)
    requires Reachable(s)
    requires forall a :: Enabled(s, a) ==> !LetsGo(a) && !a.LockTry?
    ensures s.destroyed == 1 && s.freed == 1 && forall h :: 0 <= h < |s.handles| ==> s.handles[h] == Empty
  {
    forall h: nat | h < |s.handles| ensures s.handles[h] == Empty {
      assert !Enabled(s, LockTry(h, false));
      if s.handles[h] != Empty {
        var a := NextStep(h, s.handles[h]);
        assert LetsGo(a) && !Enabled(s, a);
        assert Borrowed(s, h);
        var j :| 0 <= j < |s.handles| && s.handles[j].Locking? && s.handles[j].src == h;
        assert Enabled(s, LockTry(j, false));
      }
    }
    AllDroppedAllGone(s);
  }

  // ---------------------------------------------------------------- from any state

  predicate Resolves(a: Action) {
    LetsGo(a) || a.LockTry?
  }

  ghost predicate OnlyResolving(steps: seq<Action>) {
    forall i :: 0 <= i < |steps| ==> Resolves(steps[i])
  }

  function Locks(hs: seq<Handle>): nat {
    if hs == [] then 0 else (if hs[0].Locking? then 1 else 0) + Locks(hs[1..])
  }

  lemma {:induction false} LocksReplaced(hs: seq<Handle>, i: nat, h: Handle)
    requires i < |hs|
    ensures Locks(hs[i := h]) + B(hs[i].Locking?) == Locks(hs) + B(h.Locking?)
  {
    if i == 0 {
      assert hs[i := h][1..] == hs[1..];
    } else {
      LocksReplaced(hs[1..], i - 1, h);
      assert hs[i := h][1..] == hs[1..][i - 1 := h];
    }
  }

  lemma {:induction false} NoLocks(hs: seq<Handle>)
    ensures Locks(hs) == 0 <==> forall i :: 0 <= i < |hs| ==> !hs[i].Locking?
  {
    if hs != [] {
      NoLocks(hs[1..]);
      assert forall i :: 0 < i < |hs| ==> hs[i] == hs[1..][i - 1];
      assert (forall i :: 0 <= i < |hs[1..]| ==> !hs[1..][i].Locking?) ==>
             forall i :: 0 < i < |hs| ==> !hs[i].Locking?;
    }
  }

  // Two tries decide a lock that nobody disturbs.
  lemma ResolveLock(s: State, h: nat) returns (steps: seq<Action>, last: State)
    requires Reachable(s) && h < |s.handles| && s.handles[h].Locking?
    ensures Run(s, steps, last) && Reachable(last) && OnlyResolving(steps)
    ensures Locks(last.handles) < Locks(s.handles)
  {
    hide Locks, Reachable;
    var a := LockTry(h, false);
    var s1 := Step(s, a);
    ReachableStep(s, a);
    LocksReplaced(s.handles, h, s1.handles[h]);
    assert Run(s1, [], s1);
    assert Run(s, [a], s1) by { assert [a][1..] == []; }
    if !s1.handles[h].Locking? { return [a], s1; }
    var s2 := Step(s1, a);
    ReachableStep(s1, a);
    LocksReplaced(s1.handles, h, s2.handles[h]);
    RunExtends(s, [a], s1, a);
    steps, last := [a] + [a], s2;
  }

  lemma {:induction false} RunsJoin(s: State, a: seq<Action>, mid: State, b: seq<Action>, last: State)
    requires Run(s, a, mid) && Run(mid, b, last)
    ensures Run(s, a + b, last)
    decreases |a|
  {
    hide Step, Enabled;
    if a == [] {
      assert a + b == b;
    } else {
      RunsJoin(Step(s, a[0]), a[1..], mid, b, last);
      assert (a + b)[1..] == a[1..] + b;
    }
  }

  lemma {:induction false} ResolveLocks(s: State) returns (steps: seq<Action>, last: State)
    requires Reachable(s)
    ensures Run(s, steps, last) && Reachable(last) && OnlyResolving(steps) && Locks(last.handles) == 0
    decreases Locks(s.handles)
  {
    hide Locks, Reachable, Step, Enabled;
    NoLocks(s.handles);
    if Locks(s.handles) == 0 {
      steps, last := [], s;
    } else {
      var h :| 0 <= h < |s.handles| && s.handles[h].Locking?;
      var first, mid := ResolveLock(s, h);
      var rest, end := ResolveLocks(mid);
      RunsJoin(s, first, mid, rest, end);
      steps, last := first + rest, end;
    }
  }

  lemma {:induction false} LetAllGo(s: State) returns (steps: seq<Action>, last: State)
    requires Reachable(s) && Locks(s.handles) == 0
    ensures Run(s, steps, last) && OnlyResolving(steps) && last.destroyed == 1 && last.freed == 1
    decreases Debt(s.handles)
  {
    hide Locks, Debt, Reachable, Step;
    NoLocks(s.handles);
    if h: nat :| h < |s.handles| && s.handles[h] != Empty {
      var a := NextStep(h, s.handles[h]);
      assert Enabled(s, a) && LetsGo(a);
      LettingGoFalls(s, a);
      ReachableStep(s, a);
      NoNewLock(s, a);
      steps, last := LetAllGo(Step(s, a));
      assert ([a] + steps)[1..] == steps;
      steps := [a] + steps;
    } else {
      AllDroppedAllGone(s);
      steps, last := [], s;
    }
  }

  lemma NoNewLock(s: State, a: Action)
    requires Enabled(s, a) && LetsGo(a) && Locks(s.handles) == 0
    ensures Locks(Step(s, a).handles) == 0
  {
    hide Locks;
    NoLocks(s.handles);
    assert Step(s, a).handles == s.handles[a.h := Step(s, a).handles[a.h]];
    LocksReplaced(s.handles, a.h, Step(s, a).handles[a.h]);
  }

  // From every reachable state the pending locks can be decided and all references dropped, and then the object is
  // destroyed and the block freed, once each.
  lemma EverythingCanGo(s: State) returns (steps: seq<Action>, last: State)
    requires Reachable(s)
    ensures Run(s, steps, last) && OnlyResolving(steps) && last.destroyed == 1 && last.freed == 1
  {
    hide Reachable, Step, Enabled, Locks;
    var first, mid := ResolveLocks(s);
    var rest, end := LetAllGo(mid);
    RunsJoin(s, first, mid, rest, end);
    steps, last := first + rest, end;
  }
}
