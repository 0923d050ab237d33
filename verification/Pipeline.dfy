/** The indexing pipeline (directoryreader.cpp, lexer.cpp, parser.cpp, kernal.cpp) as a state machine:
    directory reader, coordinator, any number of workers, parser and kernal, over bounded queues
    with end markers.  A blocking push or pop is one step, enabled when it need not wait.  Runs are
    those in which no stage is told to stop. */
module Pipeline {
  import opened LineReader
  import opened Lexer

  datatype Entry = Entry(path: string, regular: bool)

  // What does not change: the directory, the bytes of the readable files, the stop
  // words, the capacity of the queues and the number of workers.
  datatype Env = Env(entries: seq<Entry>, files: map<string, string>, stop: set<string>, cap: nat, workers: nat)

  datatype ILP = ILP(filepath: string, line: string)

  datatype Kernal = Starting(started: nat) | Awaiting | EngineStarted | Failed

  datatype Scan = Scanning(next: nat) | ScanDone

  datatype Coord = CoWait | CoFile(path: string, rest: string) | CoPills(left: nat)

  // WLine holds the tokens of the current line still to be pushed.
  datatype Worker = WPop | WLine(tokens: seq<string>) | WLeave | WCas | WPush | WGone

  datatype Parser = PPop | PResolve | PDone

  datatype Promise = Pending | Value(tokensIndexed: nat) | NoTokens

  datatype State = State(
    kernal: Kernal, scan: Scan, dirQueue: seq<string>, coord: Coord, lineQueue: seq<ILP>,
    workers: seq<Worker>, activeWorkers: int, downstreamClosed: bool, parserQueue: seq<string>,
    parser: Parser, indexed: seq<string>, promise: Promise)

  datatype Action = KernalStep | KernalGivesUp | ScanStep | CoordStep | WorkerStep(i: nat) | ParserStep

  ghost predicate EnvOk(env: Env) {
    env.cap >= 1 && env.workers >= 1 && forall i :: 0 <= i < |env.entries| ==> env.entries[i].path != ""
  }

  const PILL := ""
  const LINE_PILL := ILP("", "")

  function Init(env: Env): State {
    State(Starting(0), Scanning(0), [], CoWait, [], seq(env.workers, _ => WPop), env.workers, false, [],
          PPop, [], Pending)
  }

  predicate Enabled(env: Env, s: State, a: Action) {
    match a
    case KernalStep => s.kernal.Starting? || (s.kernal.Awaiting? && !s.promise.Pending?)
    case KernalGivesUp => s.kernal.Awaiting? && s.promise.Pending?
    case ScanStep => Started(s, 1) && ScanReady(env, s)
    case CoordStep => Started(s, 2) && CoordReady(env, s)
    case WorkerStep(i) => Started(s, 2) && i < |s.workers| && WorkerReady(env, s, s.workers[i])
    case ParserStep => Started(s, 3) && ParserReady(s)
  }

  predicate ScanReady(env: Env, s: State) {
    match s.scan
    case Scanning(i) => (i < |env.entries| && !env.entries[i].regular) || |s.dirQueue| < env.cap
    case ScanDone => false
  }

  predicate CoordReady(env: Env, s: State) {
    match s.coord
    case CoWait => s.dirQueue != []
    case CoFile(_, rest) => rest == "" || |s.lineQueue| < env.cap
    case CoPills(left) => left > 0 && |s.lineQueue| < env.cap
  }

  predicate WorkerReady(env: Env, s: State, w: Worker) {
    match w
    case WPop => s.lineQueue != []
    case WLine(tokens) => tokens == [] || |s.parserQueue| < env.cap
    case WLeave => true
    case WCas => true
    case WPush => |s.parserQueue| < env.cap
    case WGone => false
  }

  predicate ParserReady(s: State) {
    match s.parser
    case PPop => s.parserQueue != []
    case PResolve => true
    case PDone => false
  }

  // The kernal has started at least n stages.
  predicate Started(s: State, n: nat) {
    s.kernal.Starting? ==> s.kernal.started >= n
  }

  function Step(env: Env, s: State, a: Action): State
    requires Enabled(env, s, a)
  {
    match a
    case KernalStep =>
      if s.kernal.Starting? then
        s.(kernal := if s.kernal.started + 1 >= 3 then Awaiting else Starting(s.kernal.started + 1))
      else
        s.(kernal := if s.promise.Value? then EngineStarted else Failed)
    case KernalGivesUp => s.(kernal := Failed)
    case ScanStep => StepScan(env, s)
    case CoordStep => StepCoord(env, s)
    case WorkerStep(i) => StepWorker(env, s, i)
    case ParserStep => StepParser(env, s)
  }

  // DirectoryReader::Run
  function StepScan(env: Env, s: State): State
    requires Enabled(env, s, ScanStep)
  {
    var i := s.scan.next;
    if i >= |env.entries| then s.(scan := ScanDone, dirQueue := s.dirQueue + [PILL])
    else if env.entries[i].regular then s.(scan := Scanning(i + 1), dirQueue := s.dirQueue + [env.entries[i].path])
    else s.(scan := Scanning(i + 1))
  }

  // Lexer::Run
  function StepCoord(env: Env, s: State): State
    requires Enabled(env, s, CoordStep)
  {
    match s.coord
    case CoWait =>
      var file, q := s.dirQueue[0], s.dirQueue[1..];
      if file == PILL then s.(dirQueue := q, coord := CoPills(env.workers))
      else if file !in env.files then s.(dirQueue := q)
      else s.(dirQueue := q, coord := CoFile(file, env.files[file]))
    case CoFile(path, rest) =>
      if rest == "" then s.(coord := CoWait)
      else
        var n := ChunkLength(rest);
        s.(coord := CoFile(path, rest[n..]), lineQueue := s.lineQueue + [ILP(path, LineOf(rest[..n]))])
    case CoPills(left) =>
      s.(coord := CoPills(left - 1), lineQueue := s.lineQueue + [LINE_PILL])
  }

  // Lexer::Worker
  function StepWorker(env: Env, s: State, i: nat): State
    requires Enabled(env, s, WorkerStep(i))
  {
    match s.workers[i]
    case WPop =>
      var item, q := s.lineQueue[0], s.lineQueue[1..];
      s.(lineQueue := q,
         workers := s.workers[i := if item == LINE_PILL then WLeave else WLine(Tokens(item.line, env.stop))])
    case WLine(tokens) =>
      if tokens == [] then s.(workers := s.workers[i := WPop])
      else s.(workers := s.workers[i := WLine(tokens[1..])], parserQueue := s.parserQueue + [tokens[0]])
    case WLeave =>
      s.(activeWorkers := s.activeWorkers - 1,
         workers := s.workers[i := if s.activeWorkers == 1 then WCas else WGone])
    case WCas =>
      if s.downstreamClosed then s.(workers := s.workers[i := WGone])
      else s.(downstreamClosed := true, workers := s.workers[i := WPush])
    case WPush =>
      s.(workers := s.workers[i := WGone], parserQueue := s.parserQueue + [PILL])
  }

  // Parser::Run
  function StepParser(env: Env, s: State): State
    requires Enabled(env, s, ParserStep)
  {
    match s.parser
    case PPop =>
      var token, q := s.parserQueue[0], s.parserQueue[1..];
      if token == PILL then s.(parserQueue := q, parser := PResolve)
      else s.(parserQueue := q, indexed := s.indexed + [token])
    case PResolve =>
      s.(parser := PDone, promise := if |s.indexed| == 0 then NoTokens else Value(|s.indexed|))
  }

  // ---------------------------------------------------------------- runs

  ghost predicate Run(env: Env, s: State, steps: seq<Action>, last: State)
    decreases |steps|
  {
    if steps == [] then s == last
    else Enabled(env, s, steps[0]) && Run(env, Step(env, s, steps[0]), steps[1..], last)
  }

  ghost predicate Reachable(env: Env, s: State) {
    exists steps :: Run(env, Init(env), steps, s)
  }

  // ---------------------------------------------------------------- the tokens on their way

  // Of a file: nothing if it cannot be opened, or if it is the end marker.
  function PathTokens(env: Env, path: string): multiset<string> {
    if path in env.files && path != PILL then ChunkTokens(env.files[path], env.stop) else multiset{}
  }

  function DirTokens(env: Env, q: seq<string>): multiset<string> {
    if q == [] then multiset{} else PathTokens(env, q[0]) + DirTokens(env, q[1..])
  }

  // Of the directory entries from i on.
  function EntryTokens(env: Env, i: nat): multiset<string>
    decreases |env.entries| - i
  {
    if i >= |env.entries| then multiset{}
    else (if env.entries[i].regular then PathTokens(env, env.entries[i].path) else multiset{}) + EntryTokens(env, i + 1)
  }

  function ItemTokens(env: Env, item: ILP): multiset<string> {
    if item == LINE_PILL then multiset{} else LineTokens(item.line, env.stop)
  }

  function QueueTokens(env: Env, q: seq<ILP>): multiset<string> {
    if q == [] then multiset{} else ItemTokens(env, q[0]) + QueueTokens(env, q[1..])
  }

  function HeldTokens(w: Worker): multiset<string> {
    if w.WLine? then multiset(w.tokens) else multiset{}
  }

  function WorkerTokens(ws: seq<Worker>): multiset<string> {
    if ws == [] then multiset{} else HeldTokens(ws[0]) + WorkerTokens(ws[1..])
  }

  function ParserTokens(q: seq<string>): multiset<string> {
    multiset(q)[PILL := 0]
  }

  // Every token the workers' tokeniser makes of what fgets reads of every regular file that opens.
  function CorpusTokens(env: Env): multiset<string> {
    EntryTokens(env, 0)
  }

  function ScanTokens(env: Env, s: State): multiset<string> {
    if s.scan.Scanning? then EntryTokens(env, s.scan.next) else multiset{}
  }

  function CoordTokens(env: Env, s: State): multiset<string> {
    if s.coord.CoFile? then ChunkTokens(s.coord.rest, env.stop) else multiset{}
  }

  // How many copies of token t are somewhere in the pipeline.
  function Amount(env: Env, s: State, t: string): nat {
    ScanTokens(env, s)[t] + DirTokens(env, s.dirQueue)[t] + CoordTokens(env, s)[t] + QueueTokens(env, s.lineQueue)[t]
    + WorkerTokens(s.workers)[t] + ParserTokens(s.parserQueue)[t] + multiset(s.indexed)[t]
  }

  // ---------------------------------------------------------------- counting workers

  datatype Class = Left | Busy | Closing

  predicate In(w: Worker, c: Class) {
    match c
    case Left => w.WLeave? || w.WCas? || w.WPush? || w.WGone?   // has taken its end marker
    case Busy => w.WPop? || w.WLine? || w.WLeave?               // counted in activeWorkers
    case Closing => w.WCas? || w.WPush?                         // was the last one out
  }

  function Count(ws: seq<Worker>, c: Class): nat {
    if ws == [] then 0 else (if In(ws[0], c) then 1 else 0) + Count(ws[1..], c)
  }

  function Pills(q: seq<ILP>): nat {
    if q == [] then 0 else (if q[0] == LINE_PILL then 1 else 0) + Pills(q[1..])
  }

  // ---------------------------------------------------------------- the invariant

  // The end marker of the directory queue comes last and once.
  ghost predicate DirOk(env: Env, s: State) {
    && (s.scan.Scanning? ==> s.scan.next <= |env.entries| && PILL !in s.dirQueue && !s.coord.CoPills?)
    && (s.scan.ScanDone? && !s.coord.CoPills? ==>
          s.dirQueue != [] && s.dirQueue[|s.dirQueue| - 1] == PILL && PILL !in s.dirQueue[..|s.dirQueue| - 1])
    && (s.coord.CoPills? ==> s.scan.ScanDone? && s.dirQueue == [] && s.coord.left <= env.workers)
    && (s.coord.CoFile? ==> s.coord.path != PILL)
  }

  // Lines never follow an end marker, and there is one marker per worker.
  ghost predicate LinesOk(env: Env, s: State) {
    && (forall i, j :: 0 <= i < j < |s.lineQueue| && s.lineQueue[i] == LINE_PILL ==> s.lineQueue[j] == LINE_PILL)
    && (Count(s.workers, Left) > 0 ==> forall i :: 0 <= i < |s.lineQueue| ==> s.lineQueue[i] == LINE_PILL)
    && Pills(s.lineQueue) + Count(s.workers, Left) == (if s.coord.CoPills? then env.workers - s.coord.left else 0)
  }

  function B(b: bool): nat { if b then 1 else 0 }

  // The parser's end marker is pushed once, after every token, by the last worker out.
  ghost predicate CloseOk(env: Env, s: State) {
    && |s.workers| == env.workers
    && s.activeWorkers == Count(s.workers, Busy)
    && Count(s.workers, Closing) + B(PILL in s.parserQueue) + B(!s.parser.PPop?) == B(s.activeWorkers == 0)
    && (s.downstreamClosed <==>
        PILL in s.parserQueue || !s.parser.PPop? || exists i :: 0 <= i < |s.workers| && s.workers[i].WPush?)
    && (PILL in s.parserQueue ==>
        s.parserQueue[|s.parserQueue| - 1] == PILL && PILL !in s.parserQueue[..|s.parserQueue| - 1])
    && (!s.parser.PPop? ==> s.parserQueue == [])
    && (forall i :: 0 <= i < |s.workers| && s.workers[i].WLine? ==> PILL !in s.workers[i].tokens)
    && PILL !in s.indexed
  }

  ghost predicate PromiseOk(s: State) {
    && (s.promise.Pending? <==> !s.parser.PDone?)
    && (s.parser.PDone? ==> s.promise == if |s.indexed| == 0 then NoTokens else Value(|s.indexed|))
    && (s.kernal.EngineStarted? ==> s.promise.Value?)
    && (s.kernal.Starting? ==> s.kernal.started < 3)
  }

  ghost predicate QueuesOk(env: Env, s: State) {
    |s.dirQueue| <= env.cap && |s.lineQueue| <= env.cap && |s.parserQueue| <= env.cap
  }

  // No token is lost or made up.
  ghost predicate Conserved(env: Env, s: State) {
    forall t :: Amount(env, s, t) == CorpusTokens(env)[t]
  }

  ghost predicate Inv(env: Env, s: State) {
    && EnvOk(env)
    && DirOk(env, s) && LinesOk(env, s) && CloseOk(env, s) && PromiseOk(s) && QueuesOk(env, s)
    && Conserved(env, s)
  }

  // ---------------------------------------------------------------- sums over queues and workers

  lemma {:induction false} DirAppend(env: Env, q: seq<string>, path: string, t: string)
    ensures DirTokens(env, q + [path])[t] == DirTokens(env, q)[t] + PathTokens(env, path)[t]
  {
    if q == [] {
      assert q + [path] == [path];
    } else {
      DirAppend(env, q[1..], path, t);
      assert (q + [path])[1..] == q[1..] + [path];
    }
  }

  lemma {:induction false} QueueAppend(env: Env, q: seq<ILP>, item: ILP, t: string)
    ensures QueueTokens(env, q + [item])[t] == QueueTokens(env, q)[t] + ItemTokens(env, item)[t]
  {
    hide ItemTokens;
    if q == [] {
      assert q + [item] == [item];
    } else {
      QueueAppend(env, q[1..], item, t);
      assert (q + [item])[1..] == q[1..] + [item];
    }
  }

  lemma {:induction false} PillsAppend(q: seq<ILP>, item: ILP)
    ensures Pills(q + [item]) == Pills(q) + B(item == LINE_PILL)
  {
    if q == [] {
      assert q + [item] == [item];
    } else {
      PillsAppend(q[1..], item);
      assert (q + [item])[1..] == q[1..] + [item];
    }
  }

  lemma {:induction false} CountReplaced(ws: seq<Worker>, i: nat, w: Worker, c: Class)
    requires i < |ws|
    ensures Count(ws[i := w], c) + B(In(ws[i], c)) == Count(ws, c) + B(In(w, c))
  {
    hide In;
    if i == 0 {
      assert ws[i := w][1..] == ws[1..];
    } else {
      CountReplaced(ws[1..], i - 1, w, c);
      assert ws[i := w][1..] == ws[1..][i - 1 := w];
    }
  }

  lemma {:induction false} WorkerReplaced(ws: seq<Worker>, i: nat, w: Worker, t: string)
    requires i < |ws|
    ensures WorkerTokens(ws[i := w])[t] + HeldTokens(ws[i])[t] == WorkerTokens(ws)[t] + HeldTokens(w)[t]
  {
    hide HeldTokens;
    if i == 0 {
      assert ws[i := w][1..] == ws[1..];
    } else {
      WorkerReplaced(ws[1..], i - 1, w, t);
      assert ws[i := w][1..] == ws[1..][i - 1 := w];
    }
  }

  lemma {:induction false} CountBounds(ws: seq<Worker>, c: Class)
    ensures Count(ws, c) <= |ws|
    ensures Count(ws, c) == 0 <==> forall i :: 0 <= i < |ws| ==> !In(ws[i], c)
    ensures Count(ws, c) == |ws| <==> forall i :: 0 <= i < |ws| ==> In(ws[i], c)
  {
    if ws != [] {
      CountBounds(ws[1..], c);
      assert forall i :: 0 < i < |ws| ==> ws[i] == ws[1..][i - 1];
      assert (forall i :: 0 <= i < |ws[1..]| ==> !In(ws[1..][i], c)) ==> forall i :: 0 < i < |ws| ==> !In(ws[i], c);
      assert (forall i :: 0 <= i < |ws[1..]| ==> In(ws[1..][i], c)) ==> forall i :: 0 < i < |ws| ==> In(ws[i], c);
    }
  }

  // When nobody is counted in activeWorkers, everybody has left and holds nothing.
  lemma {:induction false} NobodyBusy(ws: seq<Worker>)
    requires Count(ws, Busy) == 0
    ensures Count(ws, Left) == |ws| && WorkerTokens(ws) == multiset{}
  {
    if ws != [] { NobodyBusy(ws[1..]); }
  }

  lemma {:induction false} FreshWorkers(ws: seq<Worker>)
    requires forall i :: 0 <= i < |ws| ==> ws[i] == WPop
    ensures Count(ws, Busy) == |ws| && Count(ws, Left) == 0 && Count(ws, Closing) == 0 && WorkerTokens(ws) == multiset{}
  {
    if ws != [] { FreshWorkers(ws[1..]); }
  }

  lemma {:induction false} AllPills(env: Env, q: seq<ILP>)
    requires forall i :: 0 <= i < |q| ==> q[i] == LINE_PILL
    ensures Pills(q) == |q| && QueueTokens(env, q) == multiset{}
  {
    if q != [] { AllPills(env, q[1..]); }
  }

  lemma {:induction false} SomePillIsCounted(q: seq<ILP>, i: nat)
    requires i < |q| && q[i] == LINE_PILL
    ensures Pills(q) > 0
  {
    if i > 0 { SomePillIsCounted(q[1..], i - 1); }
  }

  lemma ParserPush(q: seq<string>, token: string, t: string)
    ensures ParserTokens(q + [token])[t] == ParserTokens(q)[t] + B(token == t && t != PILL)
  {
  }

  lemma ParserPop(q: seq<string>, t: string)
    requires q != []
    ensures ParserTokens(q)[t] == ParserTokens(q[1..])[t] + B(q[0] == t && t != PILL)
  {
    assert q == [q[0]] + q[1..];
  }

  lemma IndexedPush(q: seq<string>, token: string, t: string)
    ensures multiset(q + [token])[t] == multiset(q)[t] + B(token == t)
  {
  }

  // ---------------------------------------------------------------- the reader and the coordinator

  lemma InitInv(env: Env)
    requires EnvOk(env)
    ensures Inv(env, Init(env))
  {
    FreshWorkers(Init(env).workers);
  }

  // The other parts do not look at the scan, the directory queue or the file being read.
  lemma OnlyDir(env: Env, s: State, s': State)
    requires LinesOk(env, s) && CloseOk(env, s) && PromiseOk(s)
    requires s' == s.(scan := s'.scan, dirQueue := s'.dirQueue, coord := s'.coord)
    requires s.coord == s'.coord || (s.coord.CoWait? && (s'.coord.CoPills? ==> s'.coord.left == env.workers))
    ensures LinesOk(env, s') && CloseOk(env, s') && PromiseOk(s')
  {
  }

  lemma EntryNext(env: Env, i: nat, t: string)
    ensures EntryTokens(env, i)[t] == if i >= |env.entries| then 0
      else (if env.entries[i].regular then PathTokens(env, env.entries[i].path)[t] else 0) + EntryTokens(env, i + 1)[t]
  {
    hide PathTokens;
  }

  lemma ScanAmount(env: Env, s: State, t: string)
    requires Enabled(env, s, ScanStep) && s.scan.next <= |env.entries|
    ensures Amount(env, Step(env, s, ScanStep), t) == Amount(env, s, t)
  {
    hide EntryTokens, DirTokens, ChunkTokens, QueueTokens, WorkerTokens, ParserTokens, PathTokens;
    var i := s.scan.next;
    EntryNext(env, i, t);
    DirAppend(env, s.dirQueue, PILL, t);
    NoTokensInPill(env);
    if i < |env.entries| { DirAppend(env, s.dirQueue, env.entries[i].path, t); }
  }

  lemma NoTokensInPill(env: Env)
    ensures PathTokens(env, PILL) == multiset{}
  {
  }

  lemma ScanKeepsInv(env: Env, s: State)
    requires Inv(env, s) && Enabled(env, s, ScanStep)
    ensures Inv(env, Step(env, s, ScanStep))
  {
    var s' := Step(env, s, ScanStep);
    assert DirOk(env, s') && QueuesOk(env, s');
    OnlyDir(env, s, s');
    hide LinesOk, CloseOk, PromiseOk, Amount, CorpusTokens;
    forall t ensures Amount(env, s', t) == CorpusTokens(env)[t] { ScanAmount(env, s, t); }
  }

  lemma CoordDir(env: Env, s: State)
    requires DirOk(env, s) && Enabled(env, s, CoordStep)
    ensures DirOk(env, Step(env, s, CoordStep))
  {
    hide ChunkLength, LineOf;
    if s.coord.CoWait? {
      var file, q := s.dirQueue[0], s.dirQueue[1..];
      assert s.dirQueue == [file] + q;
      if file == PILL {
        assert s.scan.ScanDone?;
        assert q == [];
      } else if s.scan.ScanDone? {
        assert q != [] && q[|q| - 1] == PILL;
        assert q[..|q| - 1] == s.dirQueue[..|s.dirQueue| - 1][1..];
      }
    }
  }

  lemma DirPop(env: Env, q: seq<string>, t: string)
    requires q != []
    ensures DirTokens(env, q)[t] == PathTokens(env, q[0])[t] + DirTokens(env, q[1..])[t]
  {
    hide PathTokens;
  }

  lemma ChunkNext(env: Env, rest: string, t: string)
    ensures ChunkTokens(rest, env.stop)[t] == if rest == "" then 0
      else
        LineTokens(LineOf(rest[..ChunkLength(rest)]), env.stop)[t] + ChunkTokens(rest[ChunkLength(rest)..], env.stop)[t]
  {
    if rest != "" { ChunkUnfolds(rest, env.stop); }
    hide LineTokens, LineOf, ChunkLength, ChunkTokens;
  }

  lemma CoordPopAmount(env: Env, s: State, t: string)
    requires Enabled(env, s, CoordStep) && s.coord.CoWait? && s.dirQueue[0] != PILL
    ensures Amount(env, StepCoord(env, s), t) == Amount(env, s, t)
  {
    var s' := StepCoord(env, s);
    var file, q := s.dirQueue[0], s.dirQueue[1..];
    assert s' == s.(dirQueue := q, coord := s'.coord);
    OpenedTokens(env, file);
    assert CoordTokens(env, s')[t] == PathTokens(env, file)[t];
    DirPop(env, s.dirQueue, t);
    assert CoordTokens(env, s)[t] == 0;
    DirParts(env, s, s', t);
  }

  lemma DirParts(env: Env, s: State, s': State, t: string)
    requires s' == s.(dirQueue := s'.dirQueue, coord := s'.coord)
    requires DirTokens(env, s'.dirQueue)[t] + CoordTokens(env, s')[t] ==
             DirTokens(env, s.dirQueue)[t] + CoordTokens(env, s)[t]
    ensures Amount(env, s', t) == Amount(env, s, t)
  {
    hide DirTokens, CoordTokens, QueueTokens, WorkerTokens, ParserTokens, EntryTokens;
  }

  lemma CoordEndAmount(env: Env, s: State, t: string)
    requires Enabled(env, s, CoordStep) && s.coord.CoWait? && s.dirQueue[0] == PILL
    ensures Amount(env, StepCoord(env, s), t) == Amount(env, s, t)
  {
    NoTokensInPill(env);
    hide DirTokens, QueueTokens, WorkerTokens, ParserTokens, EntryTokens, ChunkTokens, LineTokens, LineOf, PathTokens;
    DirPop(env, s.dirQueue, t);
  }

  lemma OpenedTokens(env: Env, path: string)
    requires path != PILL
    ensures PathTokens(env, path) == if path in env.files then ChunkTokens(env.files[path], env.stop) else multiset{}
  {
  }

  lemma CoordReadAmount(env: Env, s: State, t: string)
    requires Enabled(env, s, CoordStep) && s.coord.CoFile? && s.coord.path != PILL
    ensures Amount(env, StepCoord(env, s), t) == Amount(env, s, t)
  {
    hide DirTokens, QueueTokens, WorkerTokens, ParserTokens, EntryTokens, ChunkTokens, LineTokens, LineOf, PathTokens;
    ChunkNext(env, s.coord.rest, t);
    if s.coord.rest != "" {
      QueueAppend(env, s.lineQueue, ILP(s.coord.path, LineOf(s.coord.rest[..ChunkLength(s.coord.rest)])), t);
    }
  }

  lemma CoordAmount(env: Env, s: State, t: string)
    requires DirOk(env, s) && Enabled(env, s, CoordStep)
    ensures Amount(env, StepCoord(env, s), t) == Amount(env, s, t)
  {
    match s.coord {
      case CoWait =>
        hide Amount;
        if s.dirQueue[0] != PILL { CoordPopAmount(env, s, t); } else { CoordEndAmount(env, s, t); }
      case CoFile(path, rest) => hide Amount; CoordReadAmount(env, s, t);
      case CoPills(_) =>
        hide DirTokens, QueueTokens, WorkerTokens, ParserTokens, EntryTokens, ChunkTokens, LineTokens, LineOf,
          PathTokens;
        QueueAppend(env, s.lineQueue, LINE_PILL, t);
    }
  }

  lemma CoordLines(env: Env, s: State)
    requires EnvOk(env) && LinesOk(env, s) && DirOk(env, s) && Enabled(env, s, CoordStep) && !s.coord.CoWait?
    ensures LinesOk(env, Step(env, s, CoordStep))
  {
    var s' := Step(env, s, CoordStep);
    if |s'.lineQueue| > |s.lineQueue| {
      PillsAppend(s.lineQueue, s'.lineQueue[|s.lineQueue|]);
      if s.coord.CoFile? {
        forall i | 0 <= i < |s.lineQueue| ensures s.lineQueue[i] != LINE_PILL {
          if s.lineQueue[i] == LINE_PILL { SomePillIsCounted(s.lineQueue, i); }
        }
      }
    }
  }

  lemma CoordRest(env: Env, s: State)
    requires Inv(env, s) && Enabled(env, s, CoordStep)
    ensures var s' := StepCoord(env, s);
      LinesOk(env, s') && QueuesOk(env, s') && PromiseOk(s') && CloseOk(env, s')
  {
    hide Conserved, ChunkLength, LineOf, Count, CloseOk;
    var s' := StepCoord(env, s);
    if s.coord.CoWait? { OnlyDir(env, s, s'); } else { CoordLines(env, s); }
    SameClose(env, s, s');
  }

  lemma SameClose(env: Env, s: State, s': State)
    requires CloseOk(env, s) && s'.workers == s.workers && s'.activeWorkers == s.activeWorkers
    requires s'.downstreamClosed == s.downstreamClosed && s'.parserQueue == s.parserQueue && s'.parser == s.parser
    requires s'.indexed == s.indexed
    ensures CloseOk(env, s')
  {
  }

  lemma CoordKeepsInv(env: Env, s: State)
    requires Inv(env, s) && Enabled(env, s, CoordStep)
    ensures Inv(env, Step(env, s, CoordStep))
  {
    hide QueuesOk, LinesOk, CloseOk, PromiseOk, DirOk, Conserved, StepCoord;
    CoordDir(env, s);
    CoordRest(env, s);
    CoordConserves(env, s);
  }

  lemma CoordConserves(env: Env, s: State)
    requires Conserved(env, s) && DirOk(env, s) && Enabled(env, s, CoordStep)
    ensures Conserved(env, StepCoord(env, s))
  {
    hide DirOk, Amount, CorpusTokens, StepCoord;
    forall t ensures Amount(env, StepCoord(env, s), t) == CorpusTokens(env)[t] { CoordAmount(env, s, t); }
  }

  // ---------------------------------------------------------------- the workers

  lemma QueuePop(env: Env, q: seq<ILP>, t: string)
    requires q != []
    ensures QueueTokens(env, q)[t] == ItemTokens(env, q[0])[t] + QueueTokens(env, q[1..])[t]
  {
    hide ItemTokens;
  }

  lemma HeldNext(tokens: seq<string>, t: string)
    requires tokens != []
    ensures HeldTokens(WLine(tokens))[t] == B(tokens[0] == t) + HeldTokens(WLine(tokens[1..]))[t]
  {
    assert tokens == [tokens[0]] + tokens[1..];
  }

  lemma WorkerPopAmount(env: Env, s: State, i: nat, t: string)
    requires Enabled(env, s, WorkerStep(i)) && s.workers[i].WPop?
    ensures Amount(env, StepWorker(env, s, i), t) == Amount(env, s, t)
  {
    hide DirTokens, QueueTokens, WorkerTokens, ParserTokens, EntryTokens, ChunkTokens, LineTokens, LineOf, PathTokens,
      StepWorker, ItemTokens, HeldTokens;
    WorkerPopped(env, s, i);
    WorkerReplaced(s.workers, i, StepWorker(env, s, i).workers[i], t);
    QueuePop(env, s.lineQueue, t);
  }

  // What popping an item changes: the worker now holds the tokens of that item.
  lemma WorkerPopped(env: Env, s: State, i: nat)
    requires Enabled(env, s, WorkerStep(i)) && s.workers[i].WPop?
    ensures var s' := StepWorker(env, s, i);
      && |s'.workers| == |s.workers| && s'.workers == s.workers[i := s'.workers[i]]
      && s'.lineQueue == s.lineQueue[1..] && s'.scan == s.scan && s'.dirQueue == s.dirQueue && s'.coord == s.coord
      && s'.parserQueue == s.parserQueue && s'.indexed == s.indexed
      && HeldTokens(s.workers[i]) == multiset{} && HeldTokens(s'.workers[i]) == ItemTokens(env, s.lineQueue[0])
  {
    LineHeld(env, s.lineQueue[0].line);
  }

  lemma WorkerPushAmount(env: Env, s: State, i: nat, t: string)
    requires Enabled(env, s, WorkerStep(i)) && s.workers[i].WLine? && s.workers[i].tokens != []
    requires PILL !in s.workers[i].tokens && t != PILL
    ensures Amount(env, StepWorker(env, s, i), t) == Amount(env, s, t)
  {
    hide DirTokens, QueueTokens, WorkerTokens, ParserTokens, EntryTokens, ChunkTokens, LineTokens, LineOf, PathTokens;
    WorkerReplaced(s.workers, i, StepWorker(env, s, i).workers[i], t);
    var tokens := s.workers[i].tokens;
    HeldNext(tokens, t);
    ParserPush(s.parserQueue, tokens[0], t);
    hide HeldTokens;
  }

  lemma AmountParts(env: Env, s: State, s': State, t: string)
    requires s'.scan == s.scan && s'.dirQueue == s.dirQueue && s'.coord == s.coord
    requires s'.lineQueue == s.lineQueue && s'.indexed == s.indexed
    requires WorkerTokens(s'.workers)[t] + ParserTokens(s'.parserQueue)[t] ==
             WorkerTokens(s.workers)[t] + ParserTokens(s.parserQueue)[t]
    ensures Amount(env, s', t) == Amount(env, s, t)
  {
    hide DirTokens, QueueTokens, WorkerTokens, ParserTokens, EntryTokens, ChunkTokens;
  }

  lemma WorkerQuietAmount(env: Env, s: State, i: nat, t: string)
    requires Enabled(env, s, WorkerStep(i)) && !s.workers[i].WPop?
    requires s.workers[i].WLine? ==> s.workers[i].tokens == []
    ensures Amount(env, StepWorker(env, s, i), t) == Amount(env, s, t)
  {
    hide Amount, WorkerTokens, ParserTokens;
    var s' := StepWorker(env, s, i);
    assert s'.workers == s.workers[i := s'.workers[i]];
    WorkerReplaced(s.workers, i, s'.workers[i], t);
    ParserPush(s.parserQueue, PILL, t);
    AmountParts(env, s, s', t);
  }

  lemma WorkerAmount(env: Env, s: State, i: nat, t: string)
    requires Enabled(env, s, WorkerStep(i)) && t != PILL
    requires s.workers[i].WLine? ==> PILL !in s.workers[i].tokens
    ensures Amount(env, StepWorker(env, s, i), t) == Amount(env, s, t)
  {
    if s.workers[i].WPop? {
      hide Amount; WorkerPopAmount(env, s, i, t);
    } else if s.workers[i].WLine? && s.workers[i].tokens != [] {
      hide Amount; WorkerPushAmount(env, s, i, t);
    } else {
      hide Amount; WorkerQuietAmount(env, s, i, t);
    }
  }

  lemma LineHeld(env: Env, line: string)
    ensures HeldTokens(WLine(Tokens(line, env.stop))) == LineTokens(line, env.stop)
    ensures PILL !in Tokens(line, env.stop)
  {
    EmittedAreTokens(Split(line), env.stop);
  }

  lemma NoPillAnywhere(env: Env, s: State)
    requires CloseOk(env, s)
    ensures WorkerTokens(s.workers)[PILL] == 0 && ParserTokens(s.parserQueue)[PILL] == 0
      && multiset(s.indexed)[PILL] == 0
  {
    hide ParserTokens;
    NoPillHeld(s.workers);
    assert ParserTokens(s.parserQueue)[PILL] == 0 by { ParserNoPill(s.parserQueue); }
  }

  lemma ParserNoPill(q: seq<string>)
    ensures ParserTokens(q)[PILL] == 0
  {
  }

  lemma {:induction false} NoPillHeld(ws: seq<Worker>)
    requires forall i :: 0 <= i < |ws| && ws[i].WLine? ==> PILL !in ws[i].tokens
    ensures WorkerTokens(ws)[PILL] == 0
  {
    if ws != [] { NoPillHeld(ws[1..]); }
  }

  lemma WorkerConserves(env: Env, s: State, i: nat)
    requires Enabled(env, s, WorkerStep(i))
    requires Conserved(env, s) && CloseOk(env, s) && CloseOk(env, StepWorker(env, s, i))
    ensures Conserved(env, StepWorker(env, s, i))
  {
    var s' := StepWorker(env, s, i);
    assert s'.scan == s.scan && s'.coord == s.coord && s'.dirQueue == s.dirQueue;
    assert s.workers[i].WLine? ==> PILL !in s.workers[i].tokens;
    hide CloseOk, Amount, CorpusTokens, StepWorker, WorkerReady;
    forall t ensures Amount(env, s', t) == CorpusTokens(env)[t] {
      if t != PILL { WorkerAmount(env, s, i, t); } else { PillAmount(env, s, s'); }
    }
  }

  // No stage ever holds the empty string as a token.
  lemma PillAmount(env: Env, s: State, s': State)
    requires CloseOk(env, s) && CloseOk(env, s') && s'.scan == s.scan && s'.coord == s.coord
      && s'.dirQueue == s.dirQueue
    ensures Amount(env, s', PILL) == Amount(env, s, PILL)
  {
    NoPillAnywhere(env, s);
    NoPillAnywhere(env, s');
    NoPillQueued(env, s.lineQueue);
    NoPillQueued(env, s'.lineQueue);
  }

  lemma {:induction false} NoPillQueued(env: Env, q: seq<ILP>)
    ensures QueueTokens(env, q)[PILL] == 0
  {
    if q != [] {
      LineHeld(env, q[0].line);
      NoPillQueued(env, q[1..]);
    }
  }

  // A worker takes what is first in the line queue.
  lemma WorkerTakesLine(env: Env, s: State, i: nat)
    requires LinesOk(env, s) && Enabled(env, s, WorkerStep(i)) && s.workers[i].WPop?
    ensures LinesOk(env, StepWorker(env, s, i))
  {
    var s' := StepWorker(env, s, i);
    var item, q := s.lineQueue[0], s.lineQueue[1..];
    CountReplaced(s.workers, i, s'.workers[i], Left);
    hide Count, Tokens;
    assert s'.workers == s.workers[i := s'.workers[i]] && s'.lineQueue == q && s'.coord == s.coord;
    assert Pills(s.lineQueue) == Pills(q) + B(item == LINE_PILL);
    hide Pills, StepWorker;
    forall j, k | 0 <= j < k < |q| && q[j] == LINE_PILL ensures q[k] == LINE_PILL {
      assert q[j] == s.lineQueue[j + 1] && q[k] == s.lineQueue[k + 1];
    }
    if Count(s'.workers, Left) > 0 {
      forall j | 0 <= j < |q| ensures q[j] == LINE_PILL { assert q[j] == s.lineQueue[j + 1]; }
    }
  }

  lemma WorkerLines(env: Env, s: State, i: nat)
    requires LinesOk(env, s) && Enabled(env, s, WorkerStep(i))
    ensures LinesOk(env, StepWorker(env, s, i))
  {
    if s.workers[i].WPop? {
      WorkerTakesLine(env, s, i);
    } else {
      var s' := StepWorker(env, s, i);
      hide Count, Pills, Tokens;
      assert s'.lineQueue == s.lineQueue && s'.coord == s.coord;
      assert s'.workers == s.workers[i := s'.workers[i]];
      assert In(s'.workers[i], Left) == In(s.workers[i], Left);
      hide StepWorker, In, WorkerReady;
      CountReplaced(s.workers, i, s'.workers[i], Left);
    }
  }

  lemma WorkerQueues(env: Env, s: State, i: nat)
    requires QueuesOk(env, s) && DirOk(env, s) && PromiseOk(s) && Enabled(env, s, WorkerStep(i))
    ensures QueuesOk(env, StepWorker(env, s, i)) && DirOk(env, StepWorker(env, s, i))
      && PromiseOk(StepWorker(env, s, i))
  {
  }

  // The three counts after one worker's step.
  lemma WorkerCounts(env: Env, s: State, i: nat)
    requires Enabled(env, s, WorkerStep(i))
    ensures var s', w := StepWorker(env, s, i), StepWorker(env, s, i).workers[i];
      s'.workers == s.workers[i := w]
      && Count(s'.workers, Busy) + B(In(s.workers[i], Busy)) == Count(s.workers, Busy) + B(In(w, Busy))
      && Count(s'.workers, Closing) + B(In(s.workers[i], Closing)) == Count(s.workers, Closing) + B(In(w, Closing))
  {
    var s' := StepWorker(env, s, i);
    CountReplaced(s.workers, i, s'.workers[i], Busy);
    CountReplaced(s.workers, i, s'.workers[i], Closing);
    assert s'.workers == s.workers[i := s'.workers[i]];
  }

  lemma AtLeastOne(ws: seq<Worker>, i: nat, c: Class)
    requires i < |ws| && In(ws[i], c)
    ensures Count(ws, c) >= 1
  {
    CountBounds(ws, c);
  }

  // While some worker still counts, nothing downstream is closed.
  lemma BusyMeansOpen(env: Env, s: State, i: nat)
    requires CloseOk(env, s) && i < |s.workers| && In(s.workers[i], Busy)
    ensures s.activeWorkers >= 1 && PILL !in s.parserQueue && s.parser.PPop? && Count(s.workers, Closing) == 0
    ensures !s.downstreamClosed
  {
    AtLeastOne(s.workers, i, Busy);
    CountBounds(s.workers, Closing);
    assert forall j :: 0 <= j < |s.workers| ==> !In(s.workers[j], Closing);
  }

  lemma WorkerCloseBusy(env: Env, s: State, i: nat)
    requires CloseOk(env, s) && Enabled(env, s, WorkerStep(i)) && (s.workers[i].WPop? || s.workers[i].WLine?)
    ensures CloseOk(env, StepWorker(env, s, i))
  {
    hide Count, Tokens, HeldTokens, LineTokens;
    BusyMeansOpen(env, s, i);
    WorkerCounts(env, s, i);
    if s.workers[i].WPop? { LineHeld(env, s.lineQueue[0].line); }
  }

  lemma WorkerCloseLeave(env: Env, s: State, i: nat)
    requires CloseOk(env, s) && Enabled(env, s, WorkerStep(i)) && s.workers[i].WLeave?
    ensures CloseOk(env, StepWorker(env, s, i))
  {
    hide Count, Tokens;
    BusyMeansOpen(env, s, i);
    WorkerCounts(env, s, i);
  }

  // The last worker out is alone in closing.
  lemma OneCloser(env: Env, s: State, i: nat)
    requires CloseOk(env, s) && i < |s.workers| && In(s.workers[i], Closing)
    ensures s.activeWorkers == 0 && Count(s.workers, Closing) == 1 && PILL !in s.parserQueue && s.parser.PPop?
    ensures forall j :: 0 <= j < |s.workers| && j != i ==> !s.workers[j].WPush?
  {
    AtLeastOne(s.workers, i, Closing);
    forall j | 0 <= j < |s.workers| && j != i ensures !s.workers[j].WPush? {
      var ws := s.workers[i := WGone];
      CountReplaced(s.workers, i, WGone, Closing);
      CountBounds(ws, Closing);
      assert ws[j] == s.workers[j];
    }
  }

  lemma WorkerCloseLast(env: Env, s: State, i: nat)
    requires CloseOk(env, s) && Enabled(env, s, WorkerStep(i)) && (s.workers[i].WCas? || s.workers[i].WPush?)
    ensures CloseOk(env, StepWorker(env, s, i))
  {
    hide Count, Tokens;
    OneCloser(env, s, i);
    WorkerCounts(env, s, i);
    var s' := StepWorker(env, s, i);
    if s.workers[i].WCas? {
      assert !s.downstreamClosed;
      assert s'.workers[i].WPush?;
    }
  }

  lemma WorkerKeepsInv(env: Env, s: State, i: nat)
    requires Inv(env, s) && Enabled(env, s, WorkerStep(i))
    ensures Inv(env, Step(env, s, WorkerStep(i)))
  {
    hide DirOk, LinesOk, CloseOk, PromiseOk, QueuesOk, Conserved;
    WorkerLines(env, s, i);
    WorkerQueues(env, s, i);
    match s.workers[i] {
      case WPop => WorkerCloseBusy(env, s, i);
      case WLine(_) => WorkerCloseBusy(env, s, i);
      case WLeave => WorkerCloseLeave(env, s, i);
      case _ => WorkerCloseLast(env, s, i);
    }
    WorkerConserves(env, s, i);
  }

  // ---------------------------------------------------------------- the parser and the kernal

  lemma ParserParts(env: Env, s: State, s': State, t: string)
    requires s' == s.(parserQueue := s'.parserQueue, parser := s'.parser, indexed := s'.indexed, promise := s'.promise)
    requires ParserTokens(s'.parserQueue)[t] + multiset(s'.indexed)[t] ==
             ParserTokens(s.parserQueue)[t] + multiset(s.indexed)[t]
    ensures Amount(env, s', t) == Amount(env, s, t)
  {
    hide DirTokens, QueueTokens, WorkerTokens, ParserTokens, EntryTokens, ChunkTokens;
  }

  lemma ParserAmount(env: Env, s: State, t: string)
    requires Enabled(env, s, ParserStep) && t != PILL
    ensures Amount(env, StepParser(env, s), t) == Amount(env, s, t)
  {
    hide Amount, ParserTokens;
    if s.parser.PPop? {
      ParserPop(s.parserQueue, t);
      IndexedPush(s.indexed, s.parserQueue[0], t);
    }
    ParserParts(env, s, StepParser(env, s), t);
  }

  lemma ParserClose(env: Env, s: State)
    requires CloseOk(env, s) && Enabled(env, s, ParserStep)
    ensures CloseOk(env, StepParser(env, s))
  {
    hide Count;
    if s.parser.PPop? {
      assert s.parserQueue == [s.parserQueue[0]] + s.parserQueue[1..];
    }
  }

  lemma ParserKeepsInv(env: Env, s: State)
    requires Inv(env, s) && Enabled(env, s, ParserStep)
    ensures Inv(env, Step(env, s, ParserStep))
  {
    var s' := StepParser(env, s);
    assert DirOk(env, s') && LinesOk(env, s') && PromiseOk(s') && QueuesOk(env, s');
    hide DirOk, LinesOk, CloseOk, PromiseOk, QueuesOk;
    ParserClose(env, s);
    forall t ensures Amount(env, s', t) == CorpusTokens(env)[t] {
      if t != PILL {
        hide Amount, CorpusTokens;
        ParserAmount(env, s, t);
      } else {
        PillAmount(env, s, s');
      }
    }
  }

  lemma KernalAmount(env: Env, s: State, s': State, t: string)
    requires s' == s.(kernal := s'.kernal)
    ensures Amount(env, s', t) == Amount(env, s, t)
  {
    hide DirTokens, QueueTokens, WorkerTokens, ParserTokens, EntryTokens, ChunkTokens;
  }

  lemma KernalKeepsInv(env: Env, s: State, a: Action)
    requires Inv(env, s) && Enabled(env, s, a) && (a.KernalStep? || a.KernalGivesUp?)
    ensures Inv(env, Step(env, s, a))
  {
    var s' := Step(env, s, a);
    assert s' == s.(kernal := s'.kernal);
    assert DirOk(env, s') && LinesOk(env, s') && PromiseOk(s') && QueuesOk(env, s') && CloseOk(env, s');
    hide DirOk, LinesOk, CloseOk, PromiseOk, QueuesOk, CorpusTokens, Amount;
    forall t ensures Amount(env, s', t) == Amount(env, s, t) { KernalAmount(env, s, s', t); }
  }

  lemma StepKeepsInv(env: Env, s: State, a: Action)
    requires Inv(env, s) && Enabled(env, s, a)
    ensures Inv(env, Step(env, s, a))
  {
    hide Inv, Step, Enabled;
    match a {
      case ScanStep => ScanKeepsInv(env, s);
      case CoordStep => CoordKeepsInv(env, s);
      case WorkerStep(i) => WorkerKeepsInv(env, s, i);
      case ParserStep => ParserKeepsInv(env, s);
      case _ => KernalKeepsInv(env, s, a);
    }
  }
}
