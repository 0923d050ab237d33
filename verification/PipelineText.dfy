/** What the index says of the text of the corpus: how the tokens that the pipeline indexes (PipelineRuns) compare
    with the tokens of the lines of the files. */
module PipelineText {
  import opened LineReader
  import opened Pipeline
  import opened PipelineRuns

  // The lines' tokens of a file, nothing if it cannot be opened.
  function PathText(env: Env, path: string): multiset<string> {
    if path in env.files && path != PILL then TextTokens(env.files[path], env.stop) else multiset{}
  }

  function EntryText(env: Env, i: nat): multiset<string>
    decreases |env.entries| - i
  {
    if i >= |env.entries| then multiset{}
    else (if env.entries[i].regular then PathText(env, env.entries[i].path) else multiset{}) + EntryText(env, i + 1)
  }

  // Every token of every line of every regular file that opens.
  function CorpusText(env: Env): multiset<string> {
    EntryText(env, 0)
  }

  // The file that entry i makes the coordinator read, if any.
  predicate Read(env: Env, i: nat) {
    i < |env.entries| && env.entries[i].regular && env.entries[i].path in env.files && env.entries[i].path != PILL
  }

  function FileAt(env: Env, i: nat): string
    requires Read(env, i)
  {
    env.files[env.entries[i].path]
  }

  ghost predicate AllHarmless(env: Env, from: nat) {
    forall i :: from <= i && Read(env, i) ==> CutsHarmless(FileAt(env, i), env.stop)
  }

  ghost predicate AllPlain(env: Env) {
    forall i :: Read(env, i) ==> PlainCuts(FileAt(env, i), env.stop)
  }

  ghost predicate AllFit(env: Env) {
    forall i :: Read(env, i) ==> LinesFit(FileAt(env, i))
  }

  // What the cuts in the files from entry i on take out, and what they put in.
  function EntryLost(env: Env, i: nat): multiset<string>
    decreases |env.entries| - i
  {
    if i >= |env.entries| then multiset{}
    else (if Read(env, i) then Lost(FileAt(env, i), env.stop) else multiset{}) + EntryLost(env, i + 1)
  }

  function EntryMade(env: Env, i: nat): multiset<string>
    decreases |env.entries| - i
  {
    if i >= |env.entries| then multiset{}
    else (if Read(env, i) then Made(FileAt(env, i), env.stop) else multiset{}) + EntryMade(env, i + 1)
  }

  // The share of one entry.
  lemma EntryShare(env: Env, i: nat)
    ensures EntryTokens(env, i) == if i >= |env.entries| then multiset{} else
      (if Read(env, i) then ChunkTokens(FileAt(env, i), env.stop) else multiset{}) + EntryTokens(env, i + 1)
    ensures EntryText(env, i) == if i >= |env.entries| then multiset{} else
      (if Read(env, i) then TextTokens(FileAt(env, i), env.stop) else multiset{}) + EntryText(env, i + 1)
  {
    hide ChunkTokens, TextTokens;
  }

  lemma BooksAdd(c: multiset<string>, l: multiset<string>, t: multiset<string>, m: multiset<string>,
                 c': multiset<string>, l': multiset<string>, t': multiset<string>, m': multiset<string>)
    requires c + l == t + m && c' + l' == t' + m'
    ensures (c + c') + (l + l') == (t + t') + (m + m')
  {
    assert (c + c') + (l + l') == (c + l) + (c' + l');
  }

  lemma {:induction false} EntriesBalance(env: Env, i: nat)
    ensures EntryTokens(env, i) + EntryLost(env, i) == EntryText(env, i) + EntryMade(env, i)
    decreases |env.entries| - i
  {
    hide ChunkTokens, TextTokens, EntryTokens, EntryText, Lost, Made;
    EntryShare(env, i);
    if i < |env.entries| {
      EntriesBalance(env, i + 1);
      if Read(env, i) {
        var file := FileAt(env, i);
        CutsBalance(file, env.stop);
        BooksAdd(ChunkTokens(file, env.stop), Lost(file, env.stop), TextTokens(file, env.stop), Made(file, env.stop),
                 EntryTokens(env, i + 1), EntryLost(env, i + 1), EntryText(env, i + 1), EntryMade(env, i + 1));
      } else {
        var none: multiset<string> := multiset{};
        BooksAdd(none, none, none, none,
                 EntryTokens(env, i + 1), EntryLost(env, i + 1), EntryText(env, i + 1), EntryMade(env, i + 1));
      }
    }
  }

  lemma {:induction false} HarmlessEntries(env: Env, i: nat)
    requires AllHarmless(env, i)
    ensures EntryLost(env, i) == EntryMade(env, i)
    decreases |env.entries| - i
  {
    hide Lost, Made, CutsHarmless;
    if i < |env.entries| {
      HarmlessEntries(env, i + 1);
      if Read(env, i) { HarmlessCutsBalance(FileAt(env, i), env.stop); }
    }
  }

  lemma {:induction false} PlainEntries(env: Env, i: nat)
    requires AllPlain(env)
    ensures |EntryMade(env, i)| >= |EntryLost(env, i)|
    ensures |EntryMade(env, i)| == |EntryLost(env, i)| <==> AllHarmless(env, i)
    decreases |env.entries| - i
  {
    hide Lost, Made, CutsHarmless, PlainCuts;
    if i < |env.entries| {
      PlainEntries(env, i + 1);
      assert AllHarmless(env, i) <==>
             AllHarmless(env, i + 1) && (Read(env, i) ==> CutsHarmless(FileAt(env, i), env.stop));
      if Read(env, i) { PlainCutsCount(FileAt(env, i), env.stop); }
    }
  }

  // Once the parser has seen the end marker, the index holds the tokens of the lines of the files exactly when the
  // cuts that fgets makes put in what they take out.
  lemma IndexIsTextIff(env: Env, s: State)
    requires EnvOk(env) && Reachable(env, s) && !s.parser.PPop?
    ensures multiset(s.indexed) + EntryLost(env, 0) == CorpusText(env) + EntryMade(env, 0)
    ensures multiset(s.indexed) == CorpusText(env) <==> EntryLost(env, 0) == EntryMade(env, 0)
  {
    hide EntryTokens, EntryText, EntryLost, EntryMade;
    IndexComplete(env, s);
    EntriesBalance(env, 0);
    EqualIffBalanced(CorpusTokens(env), CorpusText(env), EntryLost(env, 0), EntryMade(env, 0));
  }

  // So it does if no cut is noticed.
  lemma IndexIsText(env: Env, s: State)
    requires EnvOk(env) && Reachable(env, s) && !s.parser.PPop? && AllHarmless(env, 0)
    ensures multiset(s.indexed) == CorpusText(env)
  {
    HarmlessEntries(env, 0);
    IndexIsTextIff(env, s);
  }

  // With plain cuts, it does exactly then.
  lemma PlainIndexIsTextIff(env: Env, s: State)
    requires EnvOk(env) && Reachable(env, s) && !s.parser.PPop? && AllPlain(env)
    ensures multiset(s.indexed) == CorpusText(env) <==> AllHarmless(env, 0)
  {
    hide EntryLost, EntryMade;
    IndexIsTextIff(env, s);
    PlainEntries(env, 0);
    if AllHarmless(env, 0) { HarmlessEntries(env, 0); }
  }

  lemma EngineIsLate(env: Env, s: State)
    requires EnvOk(env) && Reachable(env, s) && s.kernal.EngineStarted?
    ensures !s.parser.PPop?
  {
    ReachableInv(env, s);
  }

  lemma FittingIsHarmless(env: Env)
    requires AllFit(env)
    ensures AllHarmless(env, 0)
  {
    forall i | Read(env, i) ensures CutsHarmless(FileAt(env, i), env.stop) {
      FittingLinesAreNotCut(FileAt(env, i), env.stop);
    }
  }

  // The Engine starts on exactly the tokens of the text when every line fits into the buffer.
  lemma EngineHasText(env: Env, s: State)
    requires EnvOk(env) && Reachable(env, s) && s.kernal.EngineStarted? && AllFit(env)
    ensures multiset(s.indexed) == CorpusText(env)
    ensures s.promise == Value(|CorpusText(env)|) && |CorpusText(env)| > 0
  {
    EngineNeedsCompleteIndex(env, s);
    FittingIsHarmless(env);
    EngineIsLate(env, s);
    IndexIsText(env, s);
  }

  // ---------------------------------------------------------------- the corpus in plain terms

  // A word is in the corpus exactly when some entry of the directory is a regular file that opens and has it.
  lemma {:induction false} WordsFromEntry(env: Env, i: nat, w: string)
    requires EnvOk(env)
    ensures w in EntryTokens(env, i) <==>
      exists j :: i <= j < |env.entries| && env.entries[j].regular && env.entries[j].path in env.files
                  && w in ChunkTokens(env.files[env.entries[j].path], env.stop)
    ensures w in EntryText(env, i) <==>
      exists j :: i <= j < |env.entries| && env.entries[j].regular && env.entries[j].path in env.files
                  && w in TextTokens(env.files[env.entries[j].path], env.stop)
    decreases |env.entries| - i
  {
    hide ChunkTokens, TextTokens;
    EntryShare(env, i);
    if i < |env.entries| { WordsFromEntry(env, i + 1, w); }
  }

  lemma WordsOfCorpus(env: Env, w: string)
    requires EnvOk(env)
    ensures w in CorpusTokens(env) <==>
      exists j :: 0 <= j < |env.entries| && env.entries[j].regular && env.entries[j].path in env.files
                  && w in ChunkTokens(env.files[env.entries[j].path], env.stop)
    ensures w in CorpusText(env) <==>
      exists j :: 0 <= j < |env.entries| && env.entries[j].regular && env.entries[j].path in env.files
                  && w in TextTokens(env.files[env.entries[j].path], env.stop)
  {
    WordsFromEntry(env, 0, w);
  }
}
