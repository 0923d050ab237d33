/** The bounded MPMC queue over time (mpmc_queue.hpp): calls begin and return, and what lies between orders them.

    A successful push or pop takes effect in one step, its CAS, between its begin and its return; in between, the
    queue is an ordinary FIFO of bounded length.  So calls that do not overlap keep their order. */
module MpmcHistory {
  import opened RingSlots
  import opened MpmcProtocol

  type Steps<T> = seq<(nat, Action<T>)>

  // A run with all its states.
  ghost predicate Trace<T(!new)>(trace: seq<State<T>>, steps: Steps<T>) {
    && |trace| == |steps| + 1 && Init(trace[0])
    && forall i :: 0 <= i < |steps| ==> Follows(trace[i], steps[i], trace[i + 1])
  }

  ghost predicate Follows<T(!new)>(s: State<T>, step: (nat, Action<T>), s': State<T>) {
    s.cap >= 2 && |s.cells| == s.cap && Enabled(s, step.0, step.1) && s' == Step(s, step.0, step.1)
  }

  // What a caller sees of a step.
  datatype Mark<T> =
    | Internal
    | PushBegun(thread: nat, v: T)
    | PopBegun(thread: nat)
    | PushReturned(thread: nat, ticket: nat, v: T)
    | PopReturned(thread: nat, ticket: nat, v: T)
    | Refused(thread: nat)

  function MarkOf<T>(s: State<T>, t: nat, a: Action<T>): Mark<T>
    requires Enabled(s, t, a)
  {
    match (a, s.threads[t])
    case (BeginPush(v), _) => PushBegun(t, v)
    case (BeginPop, _) => PopBegun(t)
    case (Decide(_), PushSaw(_, pos, seen)) => if seen < pos then Refused(t) else Internal
    case (Decide(_), PopSaw(pos, seen)) => if seen < pos + 1 then Refused(t) else Internal
    case (Store, PushWrote(v, pos)) => PushReturned(t, pos, v)
    case (Store, PopRead(pos, out)) => PopReturned(t, pos, out)
    case _ => Internal
  }

  ghost function MarkAt<T(!new)>(trace: seq<State<T>>, steps: Steps<T>, i: nat): Mark<T>
    requires Trace(trace, steps) && i < |steps|
  {
    assert Follows(trace[i], steps[i], trace[i + 1]);
    MarkOf(trace[i], steps[i].0, steps[i].1)
  }

  // Thread t neither begins nor ends a call strictly between steps i and j.
  ghost predicate SameCall<T(!new)>(trace: seq<State<T>>, steps: Steps<T>, t: nat, i: nat, j: nat)
    requires Trace(trace, steps) && j <= |steps|
  {
    forall m :: i < m < j ==> MarkAt(trace, steps, m).Internal? || MarkAt(trace, steps, m).thread != t
  }

  // ---------------------------------------------------------------- traces are the runs

  lemma {:induction false} TraceReaches<T(!new)>(trace: seq<State<T>>, steps: Steps<T>, i: nat)
    requires Trace(trace, steps) && i < |trace|
    ensures Reachable(trace[i])
  {
    hide Step, Init, Reachable;
    if i == 0 {
      InitReachable(trace[0]);
    } else {
      TraceReaches(trace, steps, i - 1);
      assert Follows(trace[i - 1], steps[i - 1], trace[i]);
      ReachableStep(trace[i - 1], steps[i - 1].0, steps[i - 1].1);
    }
  }

  lemma InitReachable<T(!new)>(s: State<T>)
    requires Init(s)
    ensures Reachable(s)
  {
    assert Run(s, [], s);
  }

  lemma TraceInv<T(!new)>(trace: seq<State<T>>, steps: Steps<T>, i: nat)
    requires Trace(trace, steps) && i < |trace|
    ensures Inv(trace[i])
  {
    hide Trace, Inv;
    TraceReaches(trace, steps, i);
    ReachableInv(trace[i]);
  }

  // Every reachable state ends a trace, so nothing below leaves out a run.
  lemma ReachableHasTrace<T(!new)>(s: State<T>) returns (trace: seq<State<T>>, steps: Steps<T>)
    requires Reachable(s)
    ensures Trace(trace, steps) && trace[|steps|] == s
  {
    var first: State<T>, rest: Steps<T> :| Init(first) && Run(first, rest, s);
    trace, steps := [first], [];
    while rest != []
      invariant Trace(trace, steps) && Run(trace[|steps|], rest, s)
      decreases |rest|
    {
      var last := trace[|steps|];
      var next := Step(last, rest[0].0, rest[0].1);
      TraceExtends(trace, steps, rest[0]);
      trace, steps, rest := trace + [next], steps + [rest[0]], rest[1..];
    }
  }

  lemma TraceExtends<T(!new)>(trace: seq<State<T>>, steps: Steps<T>, step: (nat, Action<T>))
    requires Trace(trace, steps) && var s := trace[|steps|]; s.cap >= 2 && |s.cells| == s.cap
    requires Enabled(trace[|steps|], step.0, step.1)
    ensures Trace(trace + [Step(trace[|steps|], step.0, step.1)], steps + [step])
  {
    hide Step, Init;
    var trace', steps' := trace + [Step(trace[|steps|], step.0, step.1)], steps + [step];
    forall i | 0 <= i < |steps'| ensures Follows(trace'[i], steps'[i], trace'[i + 1]) {
      if i < |steps| { assert Follows(trace[i], steps[i], trace[i + 1]); }
    }
  }

  // ---------------------------------------------------------------- the queue between the steps

  // The values accepted and not claimed yet, oldest first.
  ghost function Queue<T(!new)>(s: State<T>): (q: seq<T>)
    requires Inv(s)
  {
    seq(s.enqueuePos - s.dequeuePos, i requires 0 <= i < s.enqueuePos - s.dequeuePos => s.pushed[s.dequeuePos + i])
  }

  // The step is the CAS that wins a ticket.
  predicate WinsPush<T>(s: State<T>, t: nat, a: Action<T>)
    requires Enabled(s, t, a)
  {
    a.Decide? && s.threads[t].PushSaw? && s.threads[t].seen == s.threads[t].pos == s.enqueuePos && !a.spurious
  }

  predicate WinsPop<T>(s: State<T>, t: nat, a: Action<T>)
    requires Enabled(s, t, a)
  {
    a.Decide? && s.threads[t].PopSaw? && s.threads[t].seen == s.threads[t].pos + 1 && s.threads[t].pos == s.dequeuePos
    && !a.spurious
  }

  lemma WhatStepsChange<T(!new)>(s: State<T>, t: nat, a: Action<T>)
    requires s.cap >= 2 && |s.cells| == s.cap && Enabled(s, t, a)
    ensures var s' := Step(s, t, a);
      && s'.cap == s.cap && |s'.threads| == |s.threads|
      && (forall u :: 0 <= u < |s.threads| && u != t ==> s'.threads[u] == s.threads[u])
      && s'.enqueuePos == s.enqueuePos + (if WinsPush(s, t, a) then 1 else 0)
      && s'.dequeuePos == s.dequeuePos + (if WinsPop(s, t, a) then 1 else 0)
      && s'.pushed == (if WinsPush(s, t, a) then s.pushed[s.enqueuePos := s.threads[t].v] else s.pushed)
  {
  }

  // A push takes effect at its CAS, and only if the queue has room; a pop at its, and takes the oldest value. No other
  // step changes the queue.
  lemma StepIsQueueStep<T(!new)>(s: State<T>, t: nat, a: Action<T>)
    requires Inv(s) && Enabled(s, t, a)
    ensures Inv(Step(s, t, a))
    ensures WinsPush(s, t, a) ==> |Queue(s)| < s.cap && Queue(Step(s, t, a)) == Queue(s) + [s.threads[t].v]
    ensures WinsPop(s, t, a) ==>
      Queue(s) != [] && Queue(Step(s, t, a)) == Queue(s)[1..] && Queue(s)[0] == s.pushed[s.threads[t].pos]
    ensures !WinsPush(s, t, a) && !WinsPop(s, t, a) ==> Queue(Step(s, t, a)) == Queue(s)
  {
    hide Step, Inv, Queue;
    QueueLength(s);
    StepKeepsInv(s, t, a);
    WhatStepsChange(s, t, a);
    StepKeepsCap(s, t, a);
    if WinsPush(s, t, a) {
      QueuePushed(s, Step(s, t, a), s.threads[t].v);
    } else if WinsPop(s, t, a) {
      QueuePopped(s, Step(s, t, a));
    } else {
      QueueSame(s, Step(s, t, a));
    }
  }

  lemma QueueLength<T(!new)>(s: State<T>)
    requires Inv(s)
    ensures s.cap >= 2 && |s.cells| == s.cap && |Queue(s)| == s.enqueuePos - s.dequeuePos
  {
  }

  lemma QueuePushed<T(!new)>(s: State<T>, s': State<T>, v: T)
    requires Inv(s) && Inv(s') && s'.dequeuePos == s.dequeuePos && s'.enqueuePos == s.enqueuePos + 1
    requires s'.pushed == s.pushed[s.enqueuePos := v]
    ensures Queue(s') == Queue(s) + [v]
  {
    hide CellOk, ThreadOk, Exclusive;
  }

  lemma QueuePopped<T(!new)>(s: State<T>, s': State<T>)
    requires Inv(s) && Inv(s') && s.dequeuePos < s.enqueuePos
    requires s'.dequeuePos == s.dequeuePos + 1 && s'.enqueuePos == s.enqueuePos && s'.pushed == s.pushed
    ensures Queue(s) != [] && Queue(s') == Queue(s)[1..]
    ensures s.dequeuePos in s.pushed && Queue(s)[0] == s.pushed[s.dequeuePos]
  {
    hide CellOk, ThreadOk, Exclusive;
  }

  lemma QueueSame<T(!new)>(s: State<T>, s': State<T>)
    requires Inv(s) && Inv(s') && s'.dequeuePos == s.dequeuePos && s'.enqueuePos == s.enqueuePos
    requires s'.pushed == s.pushed
    ensures Queue(s') == Queue(s)
  {
    hide CellOk, ThreadOk, Exclusive;
  }

  lemma StepKeepsCap<T(!new)>(s: State<T>, t: nat, a: Action<T>)
    requires Inv(s) && Enabled(s, t, a)
    ensures WinsPush(s, t, a) ==> s.enqueuePos < s.dequeuePos + s.cap
    ensures WinsPop(s, t, a) ==> s.dequeuePos < s.enqueuePos
  {
    hide CellOk, Exclusive, LogsOk;
    assert ThreadOk(s, s.threads[t]);
    if WinsPush(s, t, a) { PushClaimValid(s, s.threads[t].pos, s.threads[t].seen); }
    if WinsPop(s, t, a) { PopClaimValid(s, s.threads[t].pos, s.threads[t].seen); }
  }

  // ---------------------------------------------------------------- every call that succeeds has its point

  ghost predicate Pushing<T>(pc: Pc<T>, v: T) {
    (pc.PushAt? || pc.PushSaw? || pc.PushOwns? || pc.PushWrote?) && pc.v == v
  }

  predicate Popping<T>(pc: Pc<T>) {
    pc.PopAt? || pc.PopSaw? || pc.PopOwns? || pc.PopRead?
  }

  // A step of the thread itself that neither begins nor ends a call.
  lemma OwnPushStep<T(!new)>(s: State<T>, t: nat, a: Action<T>, v: T)
    requires s.cap >= 2 && |s.cells| == s.cap && Enabled(s, t, a) && Pushing(s.threads[t], v)
    requires MarkOf(s, t, a).Internal?
    ensures var pc, pc' := s.threads[t], Step(s, t, a).threads[t];
      && Pushing(pc', v)
      && (Holds(pc) ==> Holds(pc') && pc'.pos == pc.pos)
      && (Holds(pc') && !Holds(pc) ==> WinsPush(s, t, a) && pc'.pos == s.enqueuePos)
  {
  }

  lemma OwnPopStep<T(!new)>(s: State<T>, t: nat, a: Action<T>)
    requires s.cap >= 2 && |s.cells| == s.cap && Enabled(s, t, a) && Popping(s.threads[t])
    requires MarkOf(s, t, a).Internal?
    ensures var pc, pc' := s.threads[t], Step(s, t, a).threads[t];
      && Popping(pc')
      && (Holds(pc) ==> Holds(pc') && pc'.pos == pc.pos)
      && (Holds(pc') && !Holds(pc) ==> WinsPop(s, t, a) && pc'.pos == s.dequeuePos)
  {
  }

  // One step, of any thread, of a call that stays within it.
  lemma PushStays<T(!new)>(s: State<T>, step: (nat, Action<T>), s': State<T>, t: nat, v: T)
    requires Follows(s, step, s') && t < |s.threads| && Pushing(s.threads[t], v)
    requires MarkOf(s, step.0, step.1).Internal? || MarkOf(s, step.0, step.1).thread != t
    ensures t < |s'.threads| && Pushing(s'.threads[t], v)
    ensures Holds(s.threads[t]) ==> Holds(s'.threads[t]) && s'.threads[t].pos == s.threads[t].pos
    ensures Holds(s'.threads[t]) && !Holds(s.threads[t]) ==>
      step.0 == t && WinsPush(s, t, step.1) && s'.threads[t].pos == s.enqueuePos
  {
    hide Step, Pushing, Holds, WinsPush;
    WhatStepsChange(s, step.0, step.1);
    MarkIsOwn(s, step.0, step.1);
    if step.0 == t { OwnPushStep(s, t, step.1, v); }
  }

  lemma PopStays<T(!new)>(s: State<T>, step: (nat, Action<T>), s': State<T>, t: nat)
    requires Follows(s, step, s') && t < |s.threads| && Popping(s.threads[t])
    requires MarkOf(s, step.0, step.1).Internal? || MarkOf(s, step.0, step.1).thread != t
    ensures t < |s'.threads| && Popping(s'.threads[t])
    ensures Holds(s.threads[t]) ==> Holds(s'.threads[t]) && s'.threads[t].pos == s.threads[t].pos
    ensures Holds(s'.threads[t]) && !Holds(s.threads[t]) ==>
      step.0 == t && WinsPop(s, t, step.1) && s'.threads[t].pos == s.dequeuePos
  {
    hide Step, Popping, Holds, WinsPop;
    WhatStepsChange(s, step.0, step.1);
    MarkIsOwn(s, step.0, step.1);
    if step.0 == t { OwnPopStep(s, t, step.1); }
  }

  lemma MarkIsOwn<T>(s: State<T>, t: nat, a: Action<T>)
    requires Enabled(s, t, a)
    ensures MarkOf(s, t, a).Internal? || MarkOf(s, t, a).thread == t
  {
  }

  lemma PushStarts<T(!new)>(s: State<T>, step: (nat, Action<T>), s': State<T>)
    requires Follows(s, step, s') && step.1.BeginPush?
    ensures step.0 < |s'.threads| && Pushing(s'.threads[step.0], step.1.v) && !Holds(s'.threads[step.0])
  {
  }

  lemma PopStarts<T(!new)>(s: State<T>, step: (nat, Action<T>), s': State<T>)
    requires Follows(s, step, s') && step.1.BeginPop?
    ensures step.0 < |s'.threads| && Popping(s'.threads[step.0]) && !Holds(s'.threads[step.0])
  {
  }

  // The step m is the one at which the push that holds a ticket in state n won it.
  ghost predicate PushPoint<T(!new)>(trace: seq<State<T>>, steps: Steps<T>, t: nat, ticket: nat, v: T, m: nat)
    requires Trace(trace, steps) && m < |steps|
  {
    && Follows(trace[m], steps[m], trace[m + 1]) && steps[m].0 == t && WinsPush(trace[m], t, steps[m].1)
    && trace[m].enqueuePos == ticket && trace[m].threads[t].v == v
  }

  ghost predicate PopPoint<T(!new)>(trace: seq<State<T>>, steps: Steps<T>, t: nat, ticket: nat, m: nat)
    requires Trace(trace, steps) && m < |steps|
  {
    && Follows(trace[m], steps[m], trace[m + 1]) && steps[m].0 == t && WinsPop(trace[m], t, steps[m].1)
    && trace[m].dequeuePos == ticket
  }

  lemma {:induction false} WithinPush<T(!new)>(trace: seq<State<T>>, steps: Steps<T>, t: nat, v: T, i: nat, n: nat)
      returns (m: nat)
    requires Trace(trace, steps) && i < n <= |steps| && SameCall(trace, steps, t, i, n)
    requires MarkAt(trace, steps, i) == PushBegun(t, v)
    ensures t < |trace[n].threads| && Pushing(trace[n].threads[t], v)
    ensures Holds(trace[n].threads[t]) ==> i < m < n && PushPoint(trace, steps, t, trace[n].threads[t].pos, v, m)
    decreases n
  {
    hide Step, Init, Inv;
    assert Follows(trace[n - 1], steps[n - 1], trace[n]);
    if n == i + 1 {
      m := i;
      PushStarts(trace[i], steps[i], trace[n]);
    } else {
      m := WithinPush(trace, steps, t, v, i, n - 1);
      assert var mark := MarkAt(trace, steps, n - 1); mark.Internal? || mark.thread != t;
      PushStays(trace[n - 1], steps[n - 1], trace[n], t, v);
      if !Holds(trace[n - 1].threads[t]) { m := n - 1; }
    }
  }

  lemma {:induction false} WithinPop<T(!new)>(trace: seq<State<T>>, steps: Steps<T>, t: nat, i: nat, n: nat)
      returns (m: nat)
    requires Trace(trace, steps) && i < n <= |steps| && SameCall(trace, steps, t, i, n)
    requires MarkAt(trace, steps, i) == PopBegun(t)
    ensures t < |trace[n].threads| && Popping(trace[n].threads[t])
    ensures Holds(trace[n].threads[t]) ==> i < m < n && PopPoint(trace, steps, t, trace[n].threads[t].pos, m)
    decreases n
  {
    hide Step, Init, Inv;
    assert Follows(trace[n - 1], steps[n - 1], trace[n]);
    if n == i + 1 {
      m := i;
      PopStarts(trace[i], steps[i], trace[n]);
    } else {
      m := WithinPop(trace, steps, t, i, n - 1);
      assert var mark := MarkAt(trace, steps, n - 1); mark.Internal? || mark.thread != t;
      PopStays(trace[n - 1], steps[n - 1], trace[n], t);
      if !Holds(trace[n - 1].threads[t]) { m := n - 1; }
    }
  }

  // A push call from step i to step j that returns true has won its ticket, with its own value, in between.
  lemma PushHasItsPoint<T(!new)>(trace: seq<State<T>>, steps: Steps<T>, t: nat, v: T, ticket: nat, w: T, i: nat, j: nat)
      returns (m: nat)
    requires Trace(trace, steps) && i < j < |steps| && SameCall(trace, steps, t, i, j)
    requires MarkAt(trace, steps, i) == PushBegun(t, v) && MarkAt(trace, steps, j) == PushReturned(t, ticket, w)
    ensures i < m < j && PushPoint(trace, steps, t, ticket, v, m) && w == v
  {
    hide Trace, Inv, SameCall;
    m := WithinPush(trace, steps, t, v, i, j);
    Returning(trace, steps, j);
  }

  // ... and a pop call its ticket, and its value is the oldest one in the queue at that point.
  lemma PopHasItsPoint<T(!new)>(trace: seq<State<T>>, steps: Steps<T>, t: nat, ticket: nat, w: T, i: nat, j: nat)
      returns (m: nat)
    requires Trace(trace, steps) && i < j < |steps| && SameCall(trace, steps, t, i, j)
    requires MarkAt(trace, steps, i) == PopBegun(t) && MarkAt(trace, steps, j) == PopReturned(t, ticket, w)
    ensures i < m < j && PopPoint(trace, steps, t, ticket, m)
    ensures Inv(trace[m]) && Queue(trace[m]) != [] && w == Queue(trace[m])[0]
  {
    hide Inv, SameCall, Init, Follows;
    m := WithinPop(trace, steps, t, i, j);
    Returning(trace, steps, j);
    TraceInv(trace, steps, j);
    ReadIsPublished(trace[j], t);
    PoppedOldest(trace, steps, t, ticket, m);
    PushedStays(trace, steps, ticket, m, j);
  }

  lemma PoppedOldest<T(!new)>(trace: seq<State<T>>, steps: Steps<T>, t: nat, ticket: nat, m: nat)
    requires Trace(trace, steps) && m < |steps| && PopPoint(trace, steps, t, ticket, m)
    ensures Inv(trace[m]) && Queue(trace[m]) != [] && ticket in trace[m].pushed
    ensures Queue(trace[m])[0] == trace[m].pushed[ticket]
  {
    hide CellOk, Exclusive, Step, Init;
    TraceInv(trace, steps, m);
    StepIsQueueStep(trace[m], t, steps[m].1);
  }

  // The record of what a ticket stands for is never rewritten.
  lemma {:induction false} PushedStays<T(!new)>(trace: seq<State<T>>, steps: Steps<T>, k: nat, i: nat, j: nat)
    requires Trace(trace, steps) && i <= j <= |steps| && k in trace[i].pushed
    ensures k in trace[j].pushed && trace[j].pushed[k] == trace[i].pushed[k]
    decreases j
  {
    hide Step, Init, Inv;
    if i < j {
      PushedStays(trace, steps, k, i, j - 1);
      assert Follows(trace[j - 1], steps[j - 1], trace[j]);
      TraceInv(trace, steps, j - 1);
      PushedBelow(trace[j - 1]);
      WhatStepsChange(trace[j - 1], steps[j - 1].0, steps[j - 1].1);
    }
  }

  // Where the caller is when a call returns.
  lemma Returning<T(!new)>(trace: seq<State<T>>, steps: Steps<T>, j: nat)
    requires Trace(trace, steps) && j < |steps|
    ensures var mark, s := MarkAt(trace, steps, j), trace[j];
      && (mark.PushReturned? ==> mark.thread < |s.threads| && s.threads[mark.thread] == PushWrote(mark.v, mark.ticket))
      && (mark.PopReturned? ==> mark.thread < |s.threads| && s.threads[mark.thread] == PopRead(mark.ticket, mark.v))
  {
    assert Follows(trace[j], steps[j], trace[j + 1]);
  }

  // ---------------------------------------------------------------- calls that are refused

  // Step m loaded the number that thread t holds in state n.
  ghost predicate LoadedAt<T(!new)>(trace: seq<State<T>>, steps: Steps<T>, t: nat, pc: Pc<T>, m: nat)
    requires Trace(trace, steps) && m < |steps|
  {
    && (pc.PushSaw? || pc.PopSaw?) && Follows(trace[m], steps[m], trace[m + 1]) && steps[m] == (t, LoadSeq)
    && trace[m].threads[t] == (if pc.PushSaw? then PushAt(pc.v, pc.pos) else PopAt(pc.pos))
    && trace[m].cells[Slot(trace[m].cap, pc.pos)].seqNo == pc.seen
  }

  lemma LoadOrKeep<T(!new)>(s: State<T>, step: (nat, Action<T>), s': State<T>, t: nat)
    requires Follows(s, step, s') && t < |s.threads| && t < |s'.threads|
    requires s'.threads[t].PushSaw? || s'.threads[t].PopSaw?
    ensures s'.threads[t] == s.threads[t] || (
      && step == (t, LoadSeq)
      && var pc := s'.threads[t];
         && s.threads[t] == (if pc.PushSaw? then PushAt(pc.v, pc.pos) else PopAt(pc.pos))
         && s.cells[Slot(s.cap, pc.pos)].seqNo == pc.seen)
  {
    hide Step, Slot;
    WhatStepsChange(s, step.0, step.1);
    if step.0 == t { OwnLoad(s, t, step.1); }
  }

  // Only a load leads to where a number has been seen.
  lemma OwnLoad<T(!new)>(s: State<T>, t: nat, a: Action<T>)
    requires s.cap >= 2 && |s.cells| == s.cap && Enabled(s, t, a) && t < |Step(s, t, a).threads|
    requires var pc := Step(s, t, a).threads[t]; pc.PushSaw? || pc.PopSaw?
    ensures var pc := Step(s, t, a).threads[t];
      && a == LoadSeq && s.threads[t] == (if pc.PushSaw? then PushAt(pc.v, pc.pos) else PopAt(pc.pos))
      && s.cells[Slot(s.cap, pc.pos)].seqNo == pc.seen
  {
    hide Slot;
  }

  lemma {:induction false} LoadedWithin<T(!new)>(trace: seq<State<T>>, steps: Steps<T>, t: nat, i: nat, n: nat)
      returns (m: nat)
    requires Trace(trace, steps) && i < n <= |steps| && t < |trace[n].threads| && t < |trace[i + 1].threads|
    requires trace[n].threads[t].PushSaw? || trace[n].threads[t].PopSaw?
    requires trace[i + 1].threads[t].PushAt? || trace[i + 1].threads[t].PopAt?
    ensures i < m < n && LoadedAt(trace, steps, t, trace[n].threads[t], m)
    decreases n
  {
    hide Step, Init, Inv, Slot;
    assert Follows(trace[n - 1], steps[n - 1], trace[n]);
    ThreadsStay(trace[n - 1], steps[n - 1].0, steps[n - 1].1);
    LoadOrKeep(trace[n - 1], steps[n - 1], trace[n], t);
    if trace[n].threads[t] == trace[n - 1].threads[t] {
      m := LoadedWithin(trace, steps, t, i, n - 1);
    } else {
      m := n - 1;
    }
  }

  // A push that returns false has found, between its begin and its return, the queue full, or a pop holding the cell
  // it needed.
  lemma RefusedPushSaw<T(!new)>(trace: seq<State<T>>, steps: Steps<T>, t: nat, v: T, i: nat, j: nat) returns (m: nat)
    requires Trace(trace, steps) && i < j < |steps| && SameCall(trace, steps, t, i, j)
    requires MarkAt(trace, steps, i) == PushBegun(t, v) && MarkAt(trace, steps, j) == Refused(t)
    ensures i < m < j && var s := trace[m];
      s.cap >= 2
      && (s.enqueuePos == s.dequeuePos + s.cap || (s.enqueuePos >= s.cap && SomePop(s, s.enqueuePos - s.cap)))
  {
    hide Inv, SameCall, Init, Step, Slot;
    m := WithinPush(trace, steps, t, v, i, j);
    RefusedIsSaw(trace, steps, t, j);
    PushStartsAt(trace, steps, t, v, i);
    m := LoadedWithin(trace, steps, t, i, j);
    TraceReaches(trace, steps, m);
    PushRefusedIff(trace[m], t);
    InvSize(trace, steps, m);
  }

  // ... and a pop that returns false the queue empty, or a push holding the oldest cell.
  lemma RefusedPopSaw<T(!new)>(trace: seq<State<T>>, steps: Steps<T>, t: nat, i: nat, j: nat) returns (m: nat)
    requires Trace(trace, steps) && i < j < |steps| && SameCall(trace, steps, t, i, j)
    requires MarkAt(trace, steps, i) == PopBegun(t) && MarkAt(trace, steps, j) == Refused(t)
    ensures i < m < j && var s := trace[m];
      s.enqueuePos == s.dequeuePos || SomePush(s, s.dequeuePos)
  {
    hide Inv, SameCall, Init, Step, Slot;
    m := WithinPop(trace, steps, t, i, j);
    RefusedIsSaw(trace, steps, t, j);
    PopStartsAt(trace, steps, t, i);
    m := LoadedWithin(trace, steps, t, i, j);
    TraceReaches(trace, steps, m);
    PopRefusedIff(trace[m], t);
  }

  lemma InvSize<T(!new)>(trace: seq<State<T>>, steps: Steps<T>, m: nat)
    requires Trace(trace, steps) && m < |trace|
    ensures trace[m].cap >= 2
  {
    TraceInv(trace, steps, m);
  }

  lemma RefusedIsSaw<T(!new)>(trace: seq<State<T>>, steps: Steps<T>, t: nat, j: nat)
    requires Trace(trace, steps) && j < |steps| && MarkAt(trace, steps, j) == Refused(t)
    ensures t < |trace[j].threads| && var pc := trace[j].threads[t];
      (pc.PushSaw? && pc.seen < pc.pos) || (pc.PopSaw? && pc.seen < pc.pos + 1)
  {
    assert Follows(trace[j], steps[j], trace[j + 1]);
  }

  lemma PushStartsAt<T(!new)>(trace: seq<State<T>>, steps: Steps<T>, t: nat, v: T, i: nat)
    requires Trace(trace, steps) && i < |steps| && MarkAt(trace, steps, i) == PushBegun(t, v)
    ensures t < |trace[i + 1].threads| && trace[i + 1].threads[t].PushAt?
  {
    assert Follows(trace[i], steps[i], trace[i + 1]);
  }

  lemma PopStartsAt<T(!new)>(trace: seq<State<T>>, steps: Steps<T>, t: nat, i: nat)
    requires Trace(trace, steps) && i < |steps| && MarkAt(trace, steps, i) == PopBegun(t)
    ensures t < |trace[i + 1].threads| && trace[i + 1].threads[t].PopAt?
  {
    assert Follows(trace[i], steps[i], trace[i + 1]);
  }

  // ---------------------------------------------------------------- order in time

  lemma {:induction false} PositionsGrow<T(!new)>(trace: seq<State<T>>, steps: Steps<T>, i: nat, j: nat)
    requires Trace(trace, steps) && i <= j < |trace|
    ensures trace[i].enqueuePos <= trace[j].enqueuePos && trace[i].dequeuePos <= trace[j].dequeuePos
    decreases j
  {
    hide Step, Init;
    if i < j {
      PositionsGrow(trace, steps, i, j - 1);
      assert Follows(trace[j - 1], steps[j - 1], trace[j]);
      WhatStepsChange(trace[j - 1], steps[j - 1].0, steps[j - 1].1);
    }
  }

  lemma HeldIsBelow<T(!new)>(s: State<T>, t: nat)
    requires Inv(s) && t < |s.threads|
    ensures s.threads[t].PushOwns? || s.threads[t].PushWrote? ==> s.threads[t].pos < s.enqueuePos
    ensures s.threads[t].PopOwns? || s.threads[t].PopRead? ==> s.threads[t].pos < s.dequeuePos
  {
    assert ThreadOk(s, s.threads[t]);
  }

  // A push that has returned when another begins has the smaller ticket.
  lemma PushesInOrder<T(!new)>(trace: seq<State<T>>, steps: Steps<T>, i: nat, j: nat, l: nat)
    requires Trace(trace, steps) && i < j < l < |steps|
    requires MarkAt(trace, steps, i).PushReturned? && MarkAt(trace, steps, j).PushBegun?
    requires MarkAt(trace, steps, l).PushReturned? && MarkAt(trace, steps, l).thread == MarkAt(trace, steps, j).thread
    requires SameCall(trace, steps, MarkAt(trace, steps, j).thread, j, l)
    ensures MarkAt(trace, steps, i).ticket < MarkAt(trace, steps, l).ticket
  {
    hide Inv, SameCall, Follows, Init;
    var first, begun, last := MarkAt(trace, steps, i), MarkAt(trace, steps, j), MarkAt(trace, steps, l);
    var m := PushHasItsPoint(trace, steps, begun.thread, begun.v, last.ticket, last.v, j, l);
    TraceInv(trace, steps, i);
    Returning(trace, steps, i);
    HeldIsBelow(trace[i], first.thread);
    PositionsGrow(trace, steps, i, m);
  }

  // ... and likewise for pops.
  lemma PopsInOrder<T(!new)>(trace: seq<State<T>>, steps: Steps<T>, i: nat, j: nat, l: nat)
    requires Trace(trace, steps) && i < j < l < |steps|
    requires MarkAt(trace, steps, i).PopReturned? && MarkAt(trace, steps, j).PopBegun?
    requires MarkAt(trace, steps, l).PopReturned? && MarkAt(trace, steps, l).thread == MarkAt(trace, steps, j).thread
    requires SameCall(trace, steps, MarkAt(trace, steps, j).thread, j, l)
    ensures MarkAt(trace, steps, i).ticket < MarkAt(trace, steps, l).ticket
  {
    hide Inv, SameCall, Follows, Init;
    var first, begun, last := MarkAt(trace, steps, i), MarkAt(trace, steps, j), MarkAt(trace, steps, l);
    var m := PopHasItsPoint(trace, steps, begun.thread, last.ticket, last.v, j, l);
    TraceInv(trace, steps, i);
    Returning(trace, steps, i);
    HeldIsBelow(trace[i], first.thread);
    PositionsGrow(trace, steps, i, m);
  }

  // ---------------------------------------------------------------- what a pop returns

  // A ticket that is out of the hands of its push was published.
  ghost predicate Published<T(!new)>(trace: seq<State<T>>, steps: Steps<T>, k: nat, v: T, n: nat)
    requires Trace(trace, steps) && n <= |steps|
  {
    exists l :: 0 <= l < n && MarkAt(trace, steps, l).PushReturned? && MarkAt(trace, steps, l).ticket == k
                && MarkAt(trace, steps, l).v == v
  }

  lemma {:induction false} LeftMeansPublished<T(!new)>(trace: seq<State<T>>, steps: Steps<T>, k: nat, n: nat)
    requires Trace(trace, steps) && n <= |steps| && k in trace[n].pushed && !SomePush(trace[n], k)
    ensures Published(trace, steps, k, trace[n].pushed[k], n)
    decreases n
  {
    hide Step, Inv, SomePush;
    if n > 0 {
      var s, step := trace[n - 1], steps[n - 1];
      assert Follows(s, step, trace[n]);
      TraceInv(trace, steps, n - 1);
      LeavesByStore(s, step, trace[n], k);
      if k in s.pushed && !SomePush(s, k) {
        LeftMeansPublished(trace, steps, k, n - 1);
        var l :| 0 <= l < n - 1 && MarkAt(trace, steps, l).PushReturned? && MarkAt(trace, steps, l).ticket == k
                 && MarkAt(trace, steps, l).v == s.pushed[k];
        assert 0 <= l < n;
      } else {
        assert MarkAt(trace, steps, n - 1) == MarkOf(s, step.0, step.1);
      }
    }
  }

  lemma LeavesByStore<T(!new)>(s: State<T>, step: (nat, Action<T>), s': State<T>, k: nat)
    requires Inv(s) && Follows(s, step, s') && k in s'.pushed && !SomePush(s', k)
    ensures k in s.pushed && s.pushed[k] == s'.pushed[k]
    ensures SomePush(s, k) ==> MarkOf(s, step.0, step.1) == PushReturned(step.0, k, s.pushed[k])
  {
    hide Inv, Step, WinsPop, SomePush, PushHolds;
    var t, a := step.0, step.1;
    WhatStepsChange(s, t, a);
    if WinsPush(s, t, a) {
      PushIsWon(s, t, a);
      PushedBelow(s);
    }
    if SomePush(s, k) {
      OtherPushesStay(s, s', t, k);
      OwnPushLeaves(s, t, a, k);
      HeldPush(s, t);
    }
  }

  lemma OtherPushesStay<T(!new)>(s: State<T>, s': State<T>, t: nat, k: nat)
    requires t < |s.threads| && |s'.threads| == |s.threads|
    requires forall u :: 0 <= u < |s.threads| && u != t ==> s'.threads[u] == s.threads[u]
    requires SomePush(s, k) && !SomePush(s', k)
    ensures PushHolds(s.threads[t], k) && !PushHolds(s'.threads[t], k)
  {
    forall u | 0 <= u < |s.threads| && PushHolds(s.threads[u], k) ensures u == t {}
  }

  lemma OwnPushLeaves<T(!new)>(s: State<T>, t: nat, a: Action<T>, k: nat)
    requires s.cap >= 2 && |s.cells| == s.cap && Enabled(s, t, a)
    requires PushHolds(s.threads[t], k) && !PushHolds(Step(s, t, a).threads[t], k)
    ensures MarkOf(s, t, a) == PushReturned(t, k, s.threads[t].v)
  {
  }

  lemma PushIsWon<T(!new)>(s: State<T>, t: nat, a: Action<T>)
    requires s.cap >= 2 && |s.cells| == s.cap && Enabled(s, t, a) && WinsPush(s, t, a)
    ensures SomePush(Step(s, t, a), s.enqueuePos)
  {
    assert PushHolds(Step(s, t, a).threads[t], s.enqueuePos);
  }

  lemma PushedBelow<T(!new)>(s: State<T>)
    requires Inv(s)
    ensures s.enqueuePos !in s.pushed
  {
  }

  lemma HeldPush<T(!new)>(s: State<T>, t: nat)
    requires Inv(s) && t < |s.threads|
    ensures var pc := s.threads[t];
      pc.PushOwns? || pc.PushWrote? ==> pc.pos in s.pushed && s.pushed[pc.pos] == pc.v
  {
    assert ThreadOk(s, s.threads[t]);
  }

  lemma ReadIsPublished<T(!new)>(s: State<T>, t: nat)
    requires Inv(s) && t < |s.threads| && s.threads[t].PopRead?
    ensures var pc := s.threads[t]; pc.pos in s.pushed && s.pushed[pc.pos] == pc.out && !SomePush(s, pc.pos)
  {
    hide CellOk, Exclusive;
    assert ThreadOk(s, s.threads[t]);
    forall u | 0 <= u < |s.threads| ensures !PushHolds(s.threads[u], s.threads[t].pos) {
      assert ThreadOk(s, s.threads[u]);
    }
  }

  // Every pop that returns gives back the value of a push that has returned before, the one of its ticket.
  lemma PopReturnsAPush<T(!new)>(trace: seq<State<T>>, steps: Steps<T>, j: nat)
    requires Trace(trace, steps) && j < |steps| && MarkAt(trace, steps, j).PopReturned?
    ensures Published(trace, steps, MarkAt(trace, steps, j).ticket, MarkAt(trace, steps, j).v, j)
  {
    hide Inv, SomePush, Published, Follows, Init;
    var mark := MarkAt(trace, steps, j);
    TraceInv(trace, steps, j);
    Returning(trace, steps, j);
    ReadIsPublished(trace[j], mark.thread);
    LeftMeansPublished(trace, steps, mark.ticket, j);
  }

  // ---------------------------------------------------------------- exactly once

  lemma Released<T(!new)>(s: State<T>, step: (nat, Action<T>), s': State<T>)
    requires Inv(s) && Follows(s, step, s')
    ensures var mark := MarkOf(s, step.0, step.1);
      && (mark.PushReturned? ==> mark.ticket < s.enqueuePos && !SomePush(s', mark.ticket))
      && (mark.PopReturned? ==> mark.ticket < s.dequeuePos && !SomePop(s', mark.ticket))
  {
    hide CellOk, LogsOk;
    var t, mark := step.0, MarkOf(s, step.0, step.1);
    assert ThreadOk(s, s.threads[t]);
    if mark.PushReturned? || mark.PopReturned? { HoldersAfter(s, s', t, Idle, mark.ticket); }
  }

  // A ticket below the position is never handed out again.
  lemma StaysReleased<T(!new)>(s: State<T>, step: (nat, Action<T>), s': State<T>, k: nat)
    requires Follows(s, step, s')
    ensures k < s.enqueuePos && !SomePush(s, k) ==> k < s'.enqueuePos && !SomePush(s', k)
    ensures k < s.dequeuePos && !SomePop(s, k) ==> k < s'.dequeuePos && !SomePop(s', k)
  {
    var t, a := step.0, step.1;
    WhatStepsChange(s, t, a);
    HoldsAsBefore(s, t, a, k);
    forall u | 0 <= u < |s.threads| && u != t ensures s'.threads[u] == s.threads[u] {}
  }

  lemma HoldsAsBefore<T(!new)>(s: State<T>, t: nat, a: Action<T>, k: nat)
    requires s.cap >= 2 && |s.cells| == s.cap && Enabled(s, t, a)
    ensures k < s.enqueuePos && PushHolds(Step(s, t, a).threads[t], k) ==> PushHolds(s.threads[t], k)
    ensures k < s.dequeuePos && PopHolds(Step(s, t, a).threads[t], k) ==> PopHolds(s.threads[t], k)
  {
  }

  lemma {:induction false} NeverAgain<T(!new)>(trace: seq<State<T>>, steps: Steps<T>, i: nat, j: nat)
    requires Trace(trace, steps) && i < j <= |steps|
    ensures var mark := MarkAt(trace, steps, i);
      && (mark.PushReturned? ==> mark.ticket < trace[j].enqueuePos && !SomePush(trace[j], mark.ticket))
      && (mark.PopReturned? ==> mark.ticket < trace[j].dequeuePos && !SomePop(trace[j], mark.ticket))
    decreases j
  {
    hide Step, Init, Inv, SomePush, SomePop;
    var mark := MarkAt(trace, steps, i);
    assert Follows(trace[j - 1], steps[j - 1], trace[j]);
    if j == i + 1 {
      TraceInv(trace, steps, i);
      Released(trace[i], steps[i], trace[j]);
      WhatStepsChange(trace[i], steps[i].0, steps[i].1);
    } else {
      NeverAgain(trace, steps, i, j - 1);
      if mark.PushReturned? || mark.PopReturned? { StaysReleased(trace[j - 1], steps[j - 1], trace[j], mark.ticket); }
    }
  }

  // No ticket comes back twice: every accepted value is returned by one pop at most.
  lemma TicketsReturnOnce<T(!new)>(trace: seq<State<T>>, steps: Steps<T>, i: nat, j: nat)
    requires Trace(trace, steps) && i < j < |steps|
    ensures var a, b := MarkAt(trace, steps, i), MarkAt(trace, steps, j);
      && (a.PushReturned? && b.PushReturned? ==> a.ticket != b.ticket)
      && (a.PopReturned? && b.PopReturned? ==> a.ticket != b.ticket)
  {
    hide Follows, Init;
    var a, b := MarkAt(trace, steps, i), MarkAt(trace, steps, j);
    NeverAgain(trace, steps, i, j);
    Returning(trace, steps, j);
    if a.PushReturned? && b.PushReturned? { assert PushHolds(trace[j].threads[b.thread], b.ticket); }
    if a.PopReturned? && b.PopReturned? { assert PopHolds(trace[j].threads[b.thread], b.ticket); }
  }

  // First in, first out, in real time: of two pushes one after the other, the value of the second is not popped first,
  // one pop after the other.
  lemma FifoInRealTime<T(!new)>(trace: seq<State<T>>, steps: Steps<T>, i: nat, j: nat, l: nat, x: nat, y: nat, z: nat)
    requires Trace(trace, steps) && i < j < l < |steps| && x < y < z < |steps|
    requires MarkAt(trace, steps, i).PushReturned? && MarkAt(trace, steps, j).PushBegun?
    requires MarkAt(trace, steps, l).PushReturned? && MarkAt(trace, steps, l).thread == MarkAt(trace, steps, j).thread
    requires SameCall(trace, steps, MarkAt(trace, steps, j).thread, j, l)
    requires MarkAt(trace, steps, x).PopReturned? && MarkAt(trace, steps, y).PopBegun?
    requires MarkAt(trace, steps, z).PopReturned? && MarkAt(trace, steps, z).thread == MarkAt(trace, steps, y).thread
    requires SameCall(trace, steps, MarkAt(trace, steps, y).thread, y, z)
    ensures !(MarkAt(trace, steps, x).ticket == MarkAt(trace, steps, l).ticket
              && MarkAt(trace, steps, z).ticket == MarkAt(trace, steps, i).ticket)
  {
    hide Trace, SameCall;
    PushesInOrder(trace, steps, i, j, l);
    PopsInOrder(trace, steps, x, y, z);
  }
}
