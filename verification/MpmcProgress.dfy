/** The bounded MPMC queue moves on (mpmc_queue.hpp): a retry starts from the position as it is, so a call that
    nobody disturbs returns after a few steps of its own. */
module MpmcProgress {
  import opened RingSlots
  import opened MpmcProtocol

  // ---------------------------------------------------------------- what the steps of the loops do

  // push: a number below the position refuses, the number itself with the position unmoved wins, and anything else
  // tries again from where the queue is now.
  lemma PushDecides<T>(s: State<T>, t: nat, spurious: bool)
    requires s.cap >= 2 && |s.cells| == s.cap && Enabled(s, t, Decide(spurious)) && s.threads[t].PushSaw?
    ensures var was, s' := s.threads[t], Step(s, t, Decide(spurious));
      && (was.seen < was.pos ==> s'.threads[t] == Idle && s'.enqueuePos == s.enqueuePos)
      && (was.seen == was.pos == s.enqueuePos && !spurious ==>
            s'.threads[t] == PushOwns(was.v, was.pos) && s'.enqueuePos == s.enqueuePos + 1)
      && (was.seen > was.pos || (was.seen == was.pos && (was.pos != s.enqueuePos || spurious)) ==>
            s'.threads[t] == PushAt(was.v, s.enqueuePos) && s'.enqueuePos == s.enqueuePos)
  {
  }

  lemma PopDecides<T>(s: State<T>, t: nat, spurious: bool)
    requires s.cap >= 2 && |s.cells| == s.cap && Enabled(s, t, Decide(spurious)) && s.threads[t].PopSaw?
    ensures var was, s' := s.threads[t], Step(s, t, Decide(spurious));
      && (was.seen < was.pos + 1 ==> s'.threads[t] == Idle && s'.dequeuePos == s.dequeuePos)
      && (was.seen == was.pos + 1 && was.pos == s.dequeuePos && !spurious ==>
            s'.threads[t] == PopOwns(was.pos) && s'.dequeuePos == s.dequeuePos + 1)
      && (was.seen > was.pos + 1 || (was.seen == was.pos + 1 && (was.pos != s.dequeuePos || spurious)) ==>
            s'.threads[t] == PopAt(s.dequeuePos) && s'.dequeuePos == s.dequeuePos)
  {
  }

  // Both begin where the queue is, and load the number of the cell that the position names.
  lemma CallsBegin<T>(s: State<T>, t: nat, v: T)
    requires s.cap >= 2 && |s.cells| == s.cap && t < |s.threads| && s.threads[t].Idle?
    ensures Enabled(s, t, BeginPush(v)) && Step(s, t, BeginPush(v)).threads[t] == PushAt(v, s.enqueuePos)
    ensures Enabled(s, t, BeginPop) && Step(s, t, BeginPop).threads[t] == PopAt(s.dequeuePos)
  {
  }

  lemma CallsLoad<T>(s: State<T>, t: nat)
    requires s.cap >= 2 && |s.cells| == s.cap && t < |s.threads|
    ensures s.threads[t].PushAt? ==>
      var pos := s.threads[t].pos;
      Enabled(s, t, LoadSeq)
      && Step(s, t, LoadSeq).threads[t] == PushSaw(s.threads[t].v, pos, s.cells[pos % s.cap].seqNo)
    ensures s.threads[t].PopAt? ==>
      var pos := s.threads[t].pos;
      Enabled(s, t, LoadSeq) && Step(s, t, LoadSeq).threads[t] == PopSaw(pos, s.cells[pos % s.cap].seqNo)
  {
  }

  // ---------------------------------------------------------------- a call on its own

  // How many steps of its own a call has left, if nobody else moves and no CAS fails spuriously.
  function Left<T>(s: State<T>, pc: Pc<T>): nat {
    match pc
    case Idle => 0
    case PushAt(_, pos) => if pos == s.enqueuePos then 4 else 6
    case PushSaw(_, pos, _) => if pos == s.enqueuePos then 3 else 5
    case PushOwns(_, _) => 2
    case PushWrote(_, _) => 1
    case PopAt(pos) => if pos == s.dequeuePos then 4 else 6
    case PopSaw(pos, _) => if pos == s.dequeuePos then 3 else 5
    case PopOwns(_) => 2
    case PopRead(_, _) => 1
  }

  // A number read at the current position is never ahead of it.
  lemma SawNoMore<T(!new)>(s: State<T>, t: nat)
    requires Inv(s) && t < |s.threads|
    ensures var pc := s.threads[t];
      && (pc.PushSaw? && pc.pos == s.enqueuePos ==> pc.seen <= pc.pos)
      && (pc.PopSaw? && pc.pos == s.dequeuePos ==> pc.seen <= pc.pos + 1)
  {
    var pc, d := s.threads[t], s.dequeuePos;
    assert ThreadOk(s, pc);
    if pc.PushSaw? && pc.pos == s.enqueuePos {
      SlotAgain(s.cap, d);
      assert CellOk(s, if pc.pos == d + s.cap then d else pc.pos);
    }
    if pc.PopSaw? && pc.pos == d { assert CellOk(s, d); }
  }

  lemma OwnStepFalls<T(!new)>(s: State<T>, t: nat, a: Action<T>)
    requires Inv(s) && Enabled(s, t, a) && s.threads[t] != Idle && (a.Decide? ==> !a.spurious)
    ensures Left(Step(s, t, a), Step(s, t, a).threads[t]) < Left(s, s.threads[t])
  {
    SawNoMore(s, t);
    InvSize(s);
    hide Inv;
    if s.threads[t].PushSaw? {
      PushDecides(s, t, false);
    } else if s.threads[t].PopSaw? {
      PopDecides(s, t, false);
    }
  }

  lemma InvSize<T(!new)>(s: State<T>)
    requires Inv(s)
    ensures s.cap >= 2 && |s.cells| == s.cap
  {
  }

  function NextOf<T>(pc: Pc<T>): Action<T>
    requires pc != Idle
  {
    if pc.PushAt? || pc.PopAt? then LoadSeq
    else if pc.PushSaw? || pc.PopSaw? then Decide(false)
    else if pc.PushOwns? || pc.PopOwns? then Access
    else Store
  }

  // From any reachable state, a call that is under way returns within six steps of its own thread.
  lemma {:induction false} CallReturns<T(!new)>(s: State<T>, t: nat)
      returns (steps: seq<(nat, Action<T>)>, last: State<T>)
    requires Reachable(s) && t < |s.threads|
    ensures Run(s, steps, last) && Reachable(last) && t < |last.threads| && last.threads[t] == Idle
    ensures |steps| <= Left(s, s.threads[t]) <= 6 && forall i :: 0 <= i < |steps| ==> steps[i].0 == t
    decreases Left(s, s.threads[t])
  {
    hide Reachable, Inv, Step;
    ReachableInv(s);
    InvSize(s);
    if s.threads[t] == Idle {
      steps, last := [], s;
    } else {
      var a := NextOf(s.threads[t]);
      OwnStepFalls(s, t, a);
      ReachableStep(s, t, a);
      ThreadsStay(s, t, a);
      steps, last := CallReturns(Step(s, t, a), t);
      assert ([(t, a)] + steps)[1..] == steps;
      steps := [(t, a)] + steps;
    }
  }
}
