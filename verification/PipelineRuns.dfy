/** What holds of every run of the indexing pipeline: the engine starts only on a complete index, and
    no run gets stuck or goes on for ever. */
module PipelineRuns {
  import opened Lexer
  import opened LineReader
  import opened Pipeline

  lemma {:induction false} RunKeepsInv(env: Env, s: State, steps: seq<Action>, last: State)
    requires Inv(env, s) && Run(env, s, steps, last)
    ensures Inv(env, last)
    decreases |steps|
  {
    hide Inv, Step, Enabled;
    if steps != [] {
      StepKeepsInv(env, s, steps[0]);
      RunKeepsInv(env, Step(env, s, steps[0]), steps[1..], last);
    }
  }

  lemma ReachableInv(env: Env, s: State)
    requires EnvOk(env) && Reachable(env, s)
    ensures Inv(env, s)
  {
    var steps :| Run(env, Init(env), steps, s);
    InitInv(env);
    RunKeepsInv(env, Init(env), steps, s);
  }

  // ---------------------------------------------------------------- completeness

  // All stages before the parser are done and empty.
  ghost predicate Drained(env: Env, s: State) {
    && s.scan.ScanDone? && s.dirQueue == [] && s.coord == CoPills(0) && s.lineQueue == []
    && Count(s.workers, Busy) == 0
  }

  lemma NobodyBusyDrained(env: Env, s: State)
    requires Inv(env, s) && s.activeWorkers == 0
    ensures Drained(env, s) && WorkerTokens(s.workers) == multiset{}
  {
    hide Conserved;
    NobodyBusy(s.workers);
    AllPills(env, s.lineQueue);
  }

  lemma DrainedAmount(env: Env, s: State, t: string)
    requires Drained(env, s) && WorkerTokens(s.workers) == multiset{}
    ensures Amount(env, s, t) == ParserTokens(s.parserQueue)[t] + multiset(s.indexed)[t]
  {
  }

  // Once the parser has seen the end marker it has indexed exactly the tokens of the corpus.
  lemma IndexComplete(env: Env, s: State)
    requires EnvOk(env) && Reachable(env, s) && !s.parser.PPop?
    ensures multiset(s.indexed) == CorpusTokens(env)
  {
    ReachableInv(env, s);
    NobodyBusyDrained(env, s);
    assert s.parserQueue == [];
    forall t ensures multiset(s.indexed)[t] == CorpusTokens(env)[t] {
      DrainedAmount(env, s, t);
      hide CorpusTokens;
      assert Amount(env, s, t) == CorpusTokens(env)[t];
    }
  }

  // The engine starts only on the exact, non-empty index: every token of every piece that fgets reads of every file
  // that opens, each as often as it occurs.
  lemma EngineNeedsCompleteIndex(env: Env, s: State)
    requires EnvOk(env) && Reachable(env, s) && s.kernal.EngineStarted?
    ensures multiset(s.indexed) == CorpusTokens(env)
    ensures s.promise == Value(|CorpusTokens(env)|) && |CorpusTokens(env)| > 0
  {
    ReachableInv(env, s);
    IndexComplete(env, s);
    assert |multiset(s.indexed)| == |s.indexed|;
  }

  // ... and a corpus without tokens never gets that far.
  lemma EmptyCorpusFails(env: Env, s: State)
    requires EnvOk(env) && Reachable(env, s) && !s.promise.Pending?
    ensures s.promise == NoTokens <==> CorpusTokens(env) == multiset{}
  {
    ReachableInv(env, s);
    IndexComplete(env, s);
    assert |multiset(s.indexed)| == |s.indexed|;
  }

  // The parser's end marker is alone, last, and pushed when no worker has a token left.
  lemma EndMarkerIsLast(env: Env, s: State)
    requires EnvOk(env) && Reachable(env, s) && (PILL in s.parserQueue || !s.parser.PPop?)
    ensures forall i :: 0 <= i < |s.parserQueue| ==> (s.parserQueue[i] == PILL <==> i == |s.parserQueue| - 1)
    ensures forall i :: 0 <= i < |s.workers| ==> s.workers[i].WGone?
    ensures s.downstreamClosed && Drained(env, s)
  {
    ReachableInv(env, s);
    NobodyBusyDrained(env, s);
    CountBounds(s.workers, Busy);
    CountBounds(s.workers, Closing);
    forall i | 0 <= i < |s.workers| ensures s.workers[i].WGone? {
      assert !In(s.workers[i], Busy) && !In(s.workers[i], Closing);
    }
  }

  // ---------------------------------------------------------------- progress

  // Every thread has returned and the kernal has its answer.
  ghost predicate Finished(s: State) {
    && s.scan.ScanDone? && s.coord == CoPills(0) && s.parser.PDone?
    && (forall i :: 0 <= i < |s.workers| ==> s.workers[i].WGone?)
    && (s.kernal.EngineStarted? || s.kernal.Failed?)
  }

  // No deadlock: short of that, some thread can take a step of its own accord.
  lemma SomeoneCanStep(env: Env, s: State) returns (a: Action)
    requires EnvOk(env) && Reachable(env, s) && !Finished(s)
    ensures Enabled(env, s, a) && !a.KernalGivesUp?
  {
    ReachableInv(env, s);
    if s.kernal.Starting? || (s.kernal.Awaiting? && !s.promise.Pending?) { return KernalStep; }
    if ParserReady(s) { return ParserStep; }
    if i :| 0 <= i < |s.workers| && !s.workers[i].WPop? && !s.workers[i].WGone? { return WorkerStep(i); }
    if s.parser.PDone? {
      NobodyBusyDrained(env, s);
      CountBounds(s.workers, Busy);
    } else if s.lineQueue != [] {
      a := WorkerForLine(env, s);
    } else {
      a := ReaderOrCoordinator(env, s);
    }
  }

  lemma WorkerForLine(env: Env, s: State) returns (a: Action)
    requires Inv(env, s) && !s.kernal.Starting? && s.lineQueue != []
    requires forall i :: 0 <= i < |s.workers| ==> s.workers[i].WPop? || s.workers[i].WGone?
    ensures Enabled(env, s, a) && a.WorkerStep?
  {
    a := WorkerStep(0);
    if i :| 0 <= i < |s.workers| && s.workers[i].WPop? { return WorkerStep(i); }
    CountBounds(s.workers, Busy);
    NobodyBusyDrained(env, s);
  }

  lemma ReaderOrCoordinator(env: Env, s: State) returns (a: Action)
    requires Inv(env, s) && !s.kernal.Starting? && s.lineQueue == [] && s.parser.PPop? && s.parserQueue == []
    requires forall i :: 0 <= i < |s.workers| ==> s.workers[i].WPop? || s.workers[i].WGone?
    ensures Enabled(env, s, a) && (a.ScanStep? || a.CoordStep?)
  {
    if CoordReady(env, s) { return CoordStep; }
    a := ScanStep;
    CountBounds(s.workers, Left);
    CountBounds(s.workers, Busy);
    CountBounds(s.workers, Closing);
  }

  // ---------------------------------------------------------------- termination

  // Steps still to come, weighed so that every step lowers the total.
  function LineWork(env: Env, line: string): nat {
    2 + 2 * |Tokens(line, env.stop)|
  }

  function ChunkWork(env: Env, rest: string): nat {
    if rest == "" then 0
    else
      var n := ChunkLength(rest);
      1 + LineWork(env, LineOf(rest[..n])) + ChunkWork(env, rest[n..])
  }

  function PathWork(env: Env, path: string): nat {
    if path == PILL then 1 + 7 * env.workers
    else 1 + if path in env.files then 1 + ChunkWork(env, env.files[path]) else 0
  }

  function DirWork(env: Env, q: seq<string>): nat {
    if q == [] then 0 else PathWork(env, q[0]) + DirWork(env, q[1..])
  }

  function EntryWork(env: Env, i: nat): nat
    decreases |env.entries| - i
  {
    if i >= |env.entries| then 0
    else 1 + (if env.entries[i].regular then PathWork(env, env.entries[i].path) else 0) + EntryWork(env, i + 1)
  }

  function ItemWork(env: Env, item: ILP): nat {
    if item == LINE_PILL then 6 else LineWork(env, item.line)
  }

  function QueueWork(env: Env, q: seq<ILP>): nat {
    if q == [] then 0 else ItemWork(env, q[0]) + QueueWork(env, q[1..])
  }

  function HeldWork(w: Worker): nat {
    match w
    case WPop => 0
    case WLine(tokens) => 1 + 2 * |tokens|
    case WLeave => 5
    case WCas => 4
    case WPush => 3
    case WGone => 0
  }

  function WorkersWork(ws: seq<Worker>): nat {
    if ws == [] then 0 else HeldWork(ws[0]) + WorkersWork(ws[1..])
  }

  function ParserWork(q: seq<string>): nat {
    if q == [] then 0 else (if q[0] == PILL then 2 else 1) + ParserWork(q[1..])
  }

  function KernalWork(k: Kernal): nat {
    match k
    case Starting(n) => if n < 3 then 4 - n else 1
    case Awaiting => 1
    case _ => 0
  }

  function ScanWork(env: Env, scan: Scan): nat {
    if scan.Scanning? then EntryWork(env, scan.next) + 2 + 7 * env.workers else 0
  }

  function CoordWork(env: Env, coord: Coord): nat {
    match coord
    case CoWait => 0
    case CoFile(_, rest) => 1 + ChunkWork(env, rest)
    case CoPills(left) => 7 * left
  }

  function Work(env: Env, s: State): nat {
    KernalWork(s.kernal) + ScanWork(env, s.scan) + DirWork(env, s.dirQueue) + CoordWork(env, s.coord)
    + QueueWork(env, s.lineQueue) + WorkersWork(s.workers) + ParserWork(s.parserQueue)
    + (if s.parser.PResolve? then 1 else 0)
  }

  lemma {:induction false} DirWorkAppend(env: Env, q: seq<string>, path: string)
    ensures DirWork(env, q + [path]) == DirWork(env, q) + PathWork(env, path)
  {
    hide PathWork;
    if q == [] {
      assert q + [path] == [path];
    } else {
      DirWorkAppend(env, q[1..], path);
      assert (q + [path])[1..] == q[1..] + [path];
    }
  }

  lemma {:induction false} QueueWorkAppend(env: Env, q: seq<ILP>, item: ILP)
    ensures QueueWork(env, q + [item]) == QueueWork(env, q) + ItemWork(env, item)
  {
    hide ItemWork;
    if q == [] {
      assert q + [item] == [item];
    } else {
      QueueWorkAppend(env, q[1..], item);
      assert (q + [item])[1..] == q[1..] + [item];
    }
  }

  lemma {:induction false} ParserWorkAppend(q: seq<string>, token: string)
    ensures ParserWork(q + [token]) == ParserWork(q) + if token == PILL then 2 else 1
  {
    if q == [] {
      assert q + [token] == [token];
    } else {
      ParserWorkAppend(q[1..], token);
      assert (q + [token])[1..] == q[1..] + [token];
    }
  }

  lemma {:induction false} WorkersWorkReplaced(ws: seq<Worker>, i: nat, w: Worker)
    requires i < |ws|
    ensures WorkersWork(ws[i := w]) + HeldWork(ws[i]) == WorkersWork(ws) + HeldWork(w)
  {
    hide HeldWork;
    if i == 0 {
      assert ws[i := w][1..] == ws[1..];
    } else {
      WorkersWorkReplaced(ws[1..], i - 1, w);
      assert ws[i := w][1..] == ws[1..][i - 1 := w];
    }
  }

  lemma ScanWorks(env: Env, s: State)
    requires Enabled(env, s, ScanStep)
    ensures Work(env, StepScan(env, s)) < Work(env, s)
  {
    hide DirWork, QueueWork, WorkersWork, ParserWork, ChunkWork;
    DirWorkAppend(env, s.dirQueue, PILL);
    if s.scan.next < |env.entries| { DirWorkAppend(env, s.dirQueue, env.entries[s.scan.next].path); }
  }

  lemma DirWorkPop(env: Env, q: seq<string>)
    requires q != []
    ensures DirWork(env, q) == PathWork(env, q[0]) + DirWork(env, q[1..])
  {
  }

  lemma CoordWorks(env: Env, s: State)
    requires Enabled(env, s, CoordStep) && DirOk(env, s)
    ensures Work(env, StepCoord(env, s)) < Work(env, s)
  {
    hide DirWork, QueueWork, WorkersWork, ParserWork, EntryWork, LineOf;
    if s.coord.CoFile? && s.coord.rest != "" {
      QueueWorkAppend(env, s.lineQueue, ILP(s.coord.path, LineOf(s.coord.rest[..ChunkLength(s.coord.rest)])));
    }
    if s.coord.CoPills? { QueueWorkAppend(env, s.lineQueue, LINE_PILL); }
    if s.coord.CoWait? { DirWorkPop(env, s.dirQueue); }
  }

  lemma QueueWorkPop(env: Env, q: seq<ILP>)
    requires q != []
    ensures QueueWork(env, q) == ItemWork(env, q[0]) + QueueWork(env, q[1..])
  {
  }

  lemma WorkerWorks(env: Env, s: State, i: nat)
    requires Enabled(env, s, WorkerStep(i)) && CloseOk(env, s)
    ensures Work(env, StepWorker(env, s, i)) < Work(env, s)
  {
    hide DirWork, QueueWork, WorkersWork, ParserWork, EntryWork, ChunkWork;
    var s' := StepWorker(env, s, i);
    assert s'.workers == s.workers[i := s'.workers[i]];
    WorkersWorkReplaced(s.workers, i, s'.workers[i]);
    match s.workers[i] {
      case WPop => QueueWorkPop(env, s.lineQueue);
      case WLine(tokens) => if tokens != [] { ParserWorkAppend(s.parserQueue, tokens[0]); }
      case WPush => ParserWorkAppend(s.parserQueue, PILL);
      case _ =>
    }
  }

  lemma ParserWorks(env: Env, s: State)
    requires Enabled(env, s, ParserStep)
    ensures Work(env, StepParser(env, s)) < Work(env, s)
  {
    hide DirWork, QueueWork, WorkersWork, EntryWork, ChunkWork;
  }

  lemma EveryStepWorks(env: Env, s: State, a: Action)
    requires Enabled(env, s, a) && Inv(env, s)
    ensures Work(env, Step(env, s, a)) < Work(env, s)
  {
    hide Conserved;
    match a {
      case ScanStep => ScanWorks(env, s);
      case CoordStep => CoordWorks(env, s);
      case WorkerStep(i) => WorkerWorks(env, s, i);
      case ParserStep => ParserWorks(env, s);
      case _ => hide DirWork, QueueWork, WorkersWork, ParserWork, EntryWork, ChunkWork;
    }
  }

  // No run is longer than the work there was at the start.
  lemma {:induction false} RunsAreBounded(env: Env, s: State, steps: seq<Action>, last: State)
    requires Inv(env, s) && Run(env, s, steps, last)
    ensures |steps| + Work(env, last) <= Work(env, s)
    decreases |steps|
  {
    hide Work, Step, Enabled, Inv;
    if steps != [] {
      StepKeepsInv(env, s, steps[0]);
      EveryStepWorks(env, s, steps[0]);
      RunsAreBounded(env, Step(env, s, steps[0]), steps[1..], last);
    }
  }

  // A run that nobody can extend has finished, with the answer the corpus calls for.
  lemma StuckRunsAreFinished(env: Env, s: State)
    requires EnvOk(env) && Reachable(env, s)
    requires forall a :: Enabled(env, s, a) ==> a.KernalGivesUp?
    ensures Finished(s) && multiset(s.indexed) == CorpusTokens(env)
    ensures s.kernal.EngineStarted? ==> CorpusTokens(env) != multiset{}
  {
    if !Finished(s) { var a := SomeoneCanStep(env, s); }
    IndexComplete(env, s);
    if s.kernal.EngineStarted? { EngineNeedsCompleteIndex(env, s); }
  }

  // No stage does anything before the kernal has started it.
  ghost predicate InOrder(s: State) {
    s.kernal.Starting? ==>
      && (s.kernal.started < 1 ==> s.scan == Scanning(0) && s.dirQueue == [])
      && (s.kernal.started < 2 ==> s.coord == CoWait && s.lineQueue == [] && s.parserQueue == []
                                   && forall i :: 0 <= i < |s.workers| ==> s.workers[i] == WPop)
      && (s.kernal.started < 3 ==> s.parser == PPop && s.indexed == [] && s.promise == Pending)
  }

  // ... and it may go ahead as soon as it has.
  lemma StagesRunAtOnce(env: Env, s: State)
    requires s.kernal.Starting?
    ensures s.kernal.started >= 1 && ScanReady(env, s) ==> Enabled(env, s, ScanStep)
    ensures s.kernal.started >= 2 && CoordReady(env, s) ==> Enabled(env, s, CoordStep)
    ensures s.kernal.started >= 2 ==>
      forall i :: 0 <= i < |s.workers| && WorkerReady(env, s, s.workers[i]) ==> Enabled(env, s, WorkerStep(i))
    ensures Step(env, s, KernalStep).kernal == if s.kernal.started < 2 then Starting(s.kernal.started + 1) else Awaiting
  {
  }

  lemma StepKeepsOrder(env: Env, s: State, a: Action)
    requires InOrder(s) && Enabled(env, s, a)
    ensures InOrder(Step(env, s, a))
  {
    hide Tokens, ChunkLength, LineOf;
  }

  lemma {:induction false} RunKeepsOrder(env: Env, s: State, steps: seq<Action>, last: State)
    requires InOrder(s) && Run(env, s, steps, last)
    ensures InOrder(last)
    decreases |steps|
  {
    hide InOrder, Step, Enabled;
    if steps != [] {
      StepKeepsOrder(env, s, steps[0]);
      RunKeepsOrder(env, Step(env, s, steps[0]), steps[1..], last);
    }
  }

  lemma StagesStartInOrder(env: Env, s: State)
    requires Reachable(env, s)
    ensures InOrder(s)
  {
    var steps :| Run(env, Init(env), steps, s);
    RunKeepsOrder(env, Init(env), steps, s);
  }

  // ---------------------------------------------------------------- the kernal's answer

  ghost predicate GaveUp(steps: seq<Action>) {
    exists i :: 0 <= i < |steps| && steps[i].KernalGivesUp?
  }

  // The kernal has failed if it gave up, and otherwise does what the promise says.
  ghost predicate Answered(s: State, gaveUp: bool) {
    && (gaveUp ==> s.kernal.Failed?)
    && (!gaveUp && s.kernal.EngineStarted? ==> s.promise.Value?)
    && (!gaveUp && s.kernal.Failed? ==> s.promise.NoTokens?)
  }

  lemma StepAnswers(env: Env, s: State, a: Action, gaveUp: bool)
    requires PromiseOk(s) && Enabled(env, s, a) && Answered(s, gaveUp)
    ensures Answered(Step(env, s, a), gaveUp || a.KernalGivesUp?)
  {
    hide Tokens, ChunkLength, LineOf;
  }

  lemma {:induction false} RunAnswers(env: Env, s: State, steps: seq<Action>, last: State, before: bool)
    requires Inv(env, s) && Run(env, s, steps, last) && Answered(s, before)
    ensures Answered(last, before || GaveUp(steps))
    decreases |steps|
  {
    hide Inv, Step, Enabled, Answered;
    if steps != [] {
      StepKeepsInv(env, s, steps[0]);
      InvPromise(env, s);
      StepAnswers(env, s, steps[0], before);
      RunAnswers(env, Step(env, s, steps[0]), steps[1..], last, before || steps[0].KernalGivesUp?);
      GaveUpFirst(steps);
    }
  }

  lemma InvPromise(env: Env, s: State)
    requires Inv(env, s)
    ensures PromiseOk(s)
  {
  }

  lemma GaveUpFirst(steps: seq<Action>)
    requires steps != []
    ensures GaveUp(steps) <==> steps[0].KernalGivesUp? || GaveUp(steps[1..])
  {
    if i :| 0 <= i < |steps| && steps[i].KernalGivesUp? {
      assert i > 0 ==> steps[1..][i - 1] == steps[i];
    }
    if i :| 0 <= i < |steps[1..]| && steps[1..][i].KernalGivesUp? {
      assert steps[i + 1] == steps[1..][i];
    }
  }

  // A run that has finished has started the Engine exactly if the corpus has a token, and failed exactly if it has
  // none; but a kernal that gave up on the way has failed in any case.
  lemma EngineStartsIff(env: Env, steps: seq<Action>, s: State)
    requires EnvOk(env) && Run(env, Init(env), steps, s)
    ensures GaveUp(steps) ==> s.kernal.Failed?
    ensures !GaveUp(steps) && Finished(s) ==>
      && (s.kernal.EngineStarted? <==> CorpusTokens(env) != multiset{})
      && (s.kernal.Failed? <==> CorpusTokens(env) == multiset{})
  {
    hide Inv, CorpusTokens, Step, Enabled;
    InitInv(env);
    RunAnswers(env, Init(env), steps, s, false);
    assert Reachable(env, s);
    ReachableInv(env, s);
    InvPromise(env, s);
    if Finished(s) { EmptyCorpusFails(env, s); }
  }

  lemma {:induction false} RunExtends(env: Env, s: State, steps: seq<Action>, last: State, a: Action)
    requires Run(env, s, steps, last) && Enabled(env, last, a)
    ensures Run(env, s, steps + [a], Step(env, last, a))
    decreases |steps|
  {
    hide Step, Enabled;
    var longer := steps + [a];
    if steps == [] {
      assert longer[1..] == [];
      assert Run(env, Step(env, last, a), [], Step(env, last, a));
    } else {
      RunExtends(env, Step(env, s, steps[0]), steps[1..], last, a);
      assert longer[1..] == steps[1..] + [a];
    }
  }

  // Every run in which the kernal has not given up can be carried on to such an end.
  lemma {:induction false} RunsCanFinish(env: Env, steps: seq<Action>, s: State) returns (more: seq<Action>, end: State)
    requires EnvOk(env) && Run(env, Init(env), steps, s) && !GaveUp(steps)
    ensures Run(env, Init(env), more, end) && !GaveUp(more) && Finished(end) && steps <= more
    ensures end.kernal.EngineStarted? <==> CorpusTokens(env) != multiset{}
    decreases Work(env, s)
  {
    hide Inv, CorpusTokens, Step, Enabled, Work, Init, Finished, Reachable;
    StepsReach(env, steps, s);
    if Finished(s) {
      EngineStartsIff(env, steps, s);
      more, end := steps, s;
    } else {
      var a := SomeoneCanStep(env, s);
      ReachableInv(env, s);
      EveryStepWorks(env, s, a);
      RunExtends(env, Init(env), steps, s, a);
      more, end := RunsCanFinish(env, steps + [a], Step(env, s, a));
    }
  }

  lemma StepsReach(env: Env, steps: seq<Action>, s: State)
    requires Run(env, Init(env), steps, s)
    ensures Reachable(env, s)
  {
  }
}
