/** The parser's search tree (parser.cpp, Run): every token that the pipeline indexes is inserted into a BSTree. */
module IndexTree {
  import BSTree
  import opened LineReader
  import opened Pipeline
  import opened PipelineRuns
  import opened PipelineText

  function WordsIn(tokens: seq<string>): set<string> {
    set w | w in tokens
  }

  lemma OneMoreWord(tokens: seq<string>, n: nat)
    requires n < |tokens|
    ensures WordsIn(tokens[..n + 1]) == WordsIn(tokens[..n]) + {tokens[n]}
  {
    assert tokens[..n + 1] == tokens[..n] + [tokens[n]];
  }

  // The parser's loop, over the tokens it pops before the end marker: one node for every word, however often it
  // comes, and the count of all of them.
  method IndexTokens(tokens: seq<string>) returns (tree: BSTree.BSTree, tokensIndexed: nat)
    ensures fresh(tree) && fresh(tree.live) && tree.Valid()
    ensures tree.Words() == WordsIn(tokens) && |tree.live| == |tree.Words()|
    ensures tokensIndexed == |tokens|
  {
    hide BSTree.BSTree.Valid, BSTree.BSTree.Words, WordsIn;
    tree := new BSTree.BSTree();
    tokensIndexed := 0;
    NoWords(tokens);
    while tokensIndexed < |tokens|
      invariant tokensIndexed <= |tokens| && fresh(tree) && fresh(tree.live) && tree.Valid()
      invariant tree.Words() == WordsIn(tokens[..tokensIndexed]) && |tree.live| == |tree.Words()|
    {
      OneMoreWord(tokens, tokensIndexed);
      AddWord(tree, tokens[tokensIndexed]);
      tokensIndexed := tokensIndexed + 1;
    }
    assert tokens[..|tokens|] == tokens;
  }

  lemma NoWords(tokens: seq<string>)
    ensures WordsIn(tokens[..0]) == {}
  {
  }

  method AddWord(tree: BSTree.BSTree, word: string)
    requires tree.Valid() && |tree.live| == |tree.Words()|
    modifies tree, tree.live
    ensures tree.Valid() && |tree.live| == |tree.Words()| && tree.Words() == old(tree.Words()) + {word}
    ensures fresh(tree.live - old(tree.live))
  {
    hide BSTree.BSTree.Valid, BSTree.BSTree.Words;
    ghost var words, live := tree.Words(), tree.live;
    tree.Insert(word);
    if word in words {
      assert words + {word} == words;
    } else {
      ghost var n :| n !in live && tree.live == live + {n};
    }
  }

  // After any run that has drained the queue, the words of the tree are the words of the corpus, each in one node, and
  // the count is that of all tokens, repeated ones included.
  method TreeOfRun(env: Env, s: State) returns (tree: BSTree.BSTree, tokensIndexed: nat)
    requires EnvOk(env) && Reachable(env, s) && !s.parser.PPop?
    ensures fresh(tree) && fresh(tree.live) && tree.Valid() && |tree.live| == |tree.Words()|
    ensures forall w :: w in tree.Words() <==> w in CorpusTokens(env)
    ensures tokensIndexed == |CorpusTokens(env)|
  {
    hide BSTree.BSTree.Valid, BSTree.BSTree.Words, Reachable, CorpusTokens;
    IndexComplete(env, s);
    assert |multiset(s.indexed)| == |s.indexed|;
    tree, tokensIndexed := IndexTokens(s.indexed);
  }

  // From the files to the answer: a search in that tree finds a word exactly when the pieces that fgets reads of some
  // regular file that opens have it as a token; or some line of it, if every line fits into the buffer.
  method SearchCorpus(env: Env, s: State, word: string) returns (found: bool)
    requires EnvOk(env) && Reachable(env, s) && !s.parser.PPop?
    ensures found <==>
      exists j :: 0 <= j < |env.entries| && env.entries[j].regular && env.entries[j].path in env.files
                  && word in ChunkTokens(env.files[env.entries[j].path], env.stop)
    ensures AllFit(env) ==> (found <==>
      exists j :: 0 <= j < |env.entries| && env.entries[j].regular && env.entries[j].path in env.files
                  && word in TextTokens(env.files[env.entries[j].path], env.stop))
  {
    hide ChunkTokens, TextTokens, CorpusTokens, CorpusText, Reachable, AllFit, AllHarmless, BSTree.BSTree.Valid,
      BSTree.BSTree.Words;
    WordsOfCorpus(env, word);
    var tree, n := TreeOfRun(env, s);
    var node := tree.Search(word);
    found := node != null;
    if AllFit(env) {
      FittingIsHarmless(env);
      IndexIsText(env, s);
      IndexComplete(env, s);
    }
  }
}
