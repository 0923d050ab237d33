/** How the lexer's workers turn a line into tokens (lexer.cpp, Worker and splitLine). */
module Lexer {
  // Characters are bytes in the C locale.
  predicate IsSpace(c: char) {
    c == ' ' || '\t' <= c <= '\r'
  }

  predicate IsPunct(c: char) {
    '!' <= c <= '/' || ':' <= c <= '@' || '[' <= c <= '`' || '{' <= c <= '~'
  }

  function ToLower(c: char): char {
    if 'A' <= c <= 'Z' then c - 'A' + 'a' else c
  }

  const UPPER: string := "ABCDEFGHIJKLMNOPQRSTUVWXYZ"
  const LOWER: string := "abcdefghijklmnopqrstuvwxyz"

  // The classes of the C locale, character by character: lower case for each letter and nothing else, ...
  lemma LowerCase(c: char)
    ensures forall i :: 0 <= i < 26 ==> ToLower(UPPER[i]) == LOWER[i]
    ensures c !in UPPER ==> ToLower(c) == c
  {
    forall i | 0 <= i < 26 ensures UPPER[i] == 'A' + i as char && LOWER[i] == 'a' + i as char {}
    if 'A' <= c <= 'Z' { assert UPPER[(c - 'A') as int] == c; }
  }

  // ... the six kinds of white space, ...
  lemma WhiteSpace(c: char)
    ensures IsSpace(c) <==> c in " \t\n\r\U{0B}\U{0C}"
  {
  }

  // ... and the 32 punctuation marks.
  lemma Punctuation(c: char)
    ensures IsPunct(c) <==>
      c in "!\"#$%&'()*+,-./" || c in ":;<=>?@" || c in "[\\]^_`" || c in "{|}~"
  {
    FirstMarks(c);
    LastMarks(c);
  }

  lemma FirstMarks(c: char)
    ensures '!' <= c <= '/' <==> c in "!\"#$%&'()*+,-./"
  {
    if '!' <= c <= '/' { assert "!\"#$%&'()*+,-./"[(c - '!') as int] == c; }
  }

  lemma LastMarks(c: char)
    ensures ':' <= c <= '@' <==> c in ":;<=>?@"
    ensures '[' <= c <= '`' <==> c in "[\\]^_`"
    ensures '{' <= c <= '~' <==> c in "{|}~"
  {
  }

  // ---------------------------------------------------------------- what the loops compute

  // The pieces of a line between its spaces; there is always at least one.
  function Split(line: string): (pieces: seq<string>)
    ensures |pieces| > 0
  {
    if line == "" then [""]
    else
      var rest := Split(line[1..]);
      if line[0] == ' ' then [""] + rest else [[line[0]] + rest[0]] + rest[1..]
  }

  function Join(pieces: seq<string>): string {
    if pieces == [] then ""
    else if |pieces| == 1 then pieces[0]
    else pieces[0] + " " + Join(pieces[1..])
  }

  function Clean(piece: string): string {
    if piece == "" then ""
    else (if IsSpace(piece[0]) || IsPunct(piece[0]) then "" else [ToLower(piece[0])]) + Clean(piece[1..])
  }

  predicate IsToken(word: string, stop: set<string>) {
    word != "" && word !in stop
  }

  function Emitted(pieces: seq<string>, stop: set<string>): seq<string> {
    if pieces == [] then []
    else (if IsToken(Clean(pieces[0]), stop) then [Clean(pieces[0])] else []) + Emitted(pieces[1..], stop)
  }

  // The tokens a worker pushes for one line.
  function Tokens(line: string, stop: set<string>): seq<string> {
    Emitted(Split(line), stop)
  }

  // ---------------------------------------------------------------- facts about splitting

  // Splitting loses nothing: the pieces, joined by spaces, are the line.
  lemma {:induction false} SplitJoins(line: string)
    ensures Join(Split(line)) == line
  {
    if line != "" {
      SplitJoins(line[1..]);
      var rest := Split(line[1..]);
      if line[0] == ' ' {
        assert ([""] + rest)[1..] == rest;
      } else {
        assert ([[line[0]] + rest[0]] + rest[1..])[1..] == rest[1..];
      }
    }
  }

  lemma {:induction false} SplitHasNoSpaces(line: string, i: nat)
    requires i < |Split(line)|
    ensures ' ' !in Split(line)[i]
  {
    if line != "" {
      var rest := Split(line[1..]);
      if line[0] == ' ' {
        if i > 0 { SplitHasNoSpaces(line[1..], i - 1); }
      } else {
        SplitHasNoSpaces(line[1..], i);
      }
    }
  }

  lemma {:induction false} SplitAt(line: string, k: nat)
    requires k <= |line| && ' ' !in line[..k] && (k < |line| ==> line[k] == ' ')
    ensures Split(line) == [line[..k]] + if k < |line| then Split(line[k + 1..]) else []
  {
    if k > 0 {
      assert line[1..][..k - 1] == line[..k][1..];
      SplitAt(line[1..], k - 1);
      if k < |line| { assert line[1..][k..] == line[k + 1..]; }
      assert line[..k] == [line[0]] + line[1..][..k - 1];
    }
  }

  lemma {:induction false} CleanLast(piece: string)
    requires piece != ""
    ensures Clean(piece) == Clean(piece[..|piece| - 1]) +
                            if IsSpace(piece[|piece| - 1]) || IsPunct(piece[|piece| - 1]) then ""
                            else [ToLower(piece[|piece| - 1])]
  {
    hide IsSpace, IsPunct, ToLower;
    if |piece| > 1 {
      CleanLast(piece[1..]);
      assert piece[1..][..|piece| - 2] == piece[..|piece| - 1][1..];
    }
  }

  lemma Associative<A>(x: seq<A>, y: seq<A>, z: seq<A>)
    ensures (x + y) + z == x + (y + z)
  {
  }

  lemma {:induction false} EmittedConcat(a: seq<string>, b: seq<string>, stop: set<string>)
    ensures Emitted(a + b, stop) == Emitted(a, stop) + Emitted(b, stop)
  {
    if a == [] {
      assert a + b == b && Emitted(a, stop) == [];
    } else {
      EmittedFrom(a[0], a[1..], stop);
      EmittedFrom(a[0], a[1..] + b, stop);
      EmittedConcat(a[1..], b, stop);
      assert [a[0]] + a[1..] == a && [a[0]] + (a[1..] + b) == a + b;
      var first := if IsToken(Clean(a[0]), stop) then [Clean(a[0])] else [];
      hide Emitted, Clean, IsToken;
      Associative(first, Emitted(a[1..], stop), Emitted(b, stop));
    }
  }

  // A token is never the empty string, so it is never taken for the end marker.
  lemma {:induction false} EmittedAreTokens(pieces: seq<string>, stop: set<string>)
    ensures forall t :: t in Emitted(pieces, stop) ==> IsToken(t, stop)
  {
    if pieces != [] { EmittedAreTokens(pieces[1..], stop); }
  }

  // Joining undoes splitting the other way round, too: pieces without spaces come back.
  lemma {:induction false} JoinSplits(pieces: seq<string>)
    requires pieces != [] && forall i :: 0 <= i < |pieces| ==> ' ' !in pieces[i]
    ensures Split(Join(pieces)) == pieces
  {
    var line, k := Join(pieces), |pieces[0]|;
    if |pieces| == 1 {
      assert line[..k] == pieces[0];
    } else {
      JoinSplits(pieces[1..]);
      assert line[..k] == pieces[0] && line[k] == ' ' && line[k + 1..] == Join(pieces[1..]);
    }
    SplitAt(line, k);
  }

  // Cleaning leaves no separator and no capital, and cleaning again changes nothing.
  lemma {:induction false} CleanIsClean(piece: string)
    ensures forall i :: 0 <= i < |Clean(piece)| ==>
      !IsSpace(Clean(piece)[i]) && !IsPunct(Clean(piece)[i]) && !('A' <= Clean(piece)[i] <= 'Z')
    ensures Clean(Clean(piece)) == Clean(piece)
  {
    if piece != "" {
      CleanIsClean(piece[1..]);
      var rest := Clean(piece[1..]);
      if !IsSpace(piece[0]) && !IsPunct(piece[0]) {
        assert Clean(piece) == [ToLower(piece[0])] + rest;
        assert Clean(piece)[1..] == rest;
      } else {
        assert Clean(piece) == rest;
      }
    }
  }

  ghost predicate Normal(tokens: seq<string>, stop: set<string>) {
    forall i :: 0 <= i < |tokens| ==> IsToken(tokens[i], stop) && Clean(tokens[i]) == tokens[i] && ' ' !in tokens[i]
  }

  lemma {:induction false} EmittedAreNormal(pieces: seq<string>, stop: set<string>)
    ensures Normal(Emitted(pieces, stop), stop)
  {
    if pieces != [] {
      EmittedAreNormal(pieces[1..], stop);
      CleanIsClean(pieces[0]);
    }
  }

  lemma {:induction false} NormalIsEmitted(tokens: seq<string>, stop: set<string>)
    requires Normal(tokens, stop)
    ensures Emitted(tokens, stop) == tokens
  {
    if tokens != [] { NormalIsEmitted(tokens[1..], stop); }
  }

  // Tokens are a normal form of the line: a line made of the tokens has the same tokens.
  lemma TokensAreStable(line: string, stop: set<string>)
    ensures Tokens(Join(Tokens(line, stop)), stop) == Tokens(line, stop)
  {
    var tokens := Tokens(line, stop);
    EmittedAreNormal(Split(line), stop);
    if tokens == [] {
      assert Join(tokens) == "" && Split("") == [""] && Clean("") == "";
      assert Emitted([""], stop) == [] + Emitted([], stop) by { assert [""][1..] == []; }
    } else {
      JoinSplits(tokens);
      NormalIsEmitted(tokens, stop);
    }
  }

  // ---------------------------------------------------------------- the loops

  // std::string::find(' ', start); npos is the length here.
  method FindSpace(line: string, start: nat) returns (sep: nat)
    requires start <= |line|
    ensures start <= sep <= |line| && ' ' !in line[start..sep]
    ensures sep < |line| ==> line[sep] == ' '
  {
    sep := start;
    while sep < |line| && line[sep] != ' '
      invariant start <= sep <= |line| && ' ' !in line[start..sep]
    {
      sep := sep + 1;
    }
  }

  method CleanPiece(token: string) returns (cleaned: string)
    ensures cleaned == Clean(token)
  {
    cleaned := "";
    for i := 0 to |token|
      invariant cleaned == Clean(token[..i])
    {
      CleanLast(token[..i + 1]);
      assert token[..i + 1][..i] == token[..i];
      if !IsSpace(token[i]) && !IsPunct(token[i]) {
        cleaned := cleaned + [ToLower(token[i])];
      }
    }
    assert token[..|token|] == token;
  }

  // One round of either loop: the next piece, and what is left.
  lemma SplitFrom(line: string, start: nat, sep: nat)
    requires start <= sep <= |line| && ' ' !in line[start..sep] && (sep < |line| ==> line[sep] == ' ')
    ensures Split(line[start..]) == [line[start..sep]] + if sep < |line| then Split(line[sep + 1..]) else []
  {
    hide Split;
    var rest := line[start..];
    assert rest[..sep - start] == line[start..sep];
    SplitAt(rest, sep - start);
    if sep < |line| { assert rest[sep - start + 1..] == line[sep + 1..]; }
  }

  lemma EmittedFrom(piece: string, rest: seq<string>, stop: set<string>)
    ensures Emitted([piece] + rest, stop) ==
            (if IsToken(Clean(piece), stop) then [Clean(piece)] else []) + Emitted(rest, stop)
  {
    assert ([piece] + rest)[1..] == rest;
  }

  // The inner loop of Worker: the end of the line counts as a separator.
  method Tokenise(line: string, stop: set<string>) returns (tokens: seq<string>)
    ensures tokens == Tokens(line, stop)
  {
    hide Split, Emitted, Clean;
    tokens := [];
    var start := 0;
    assert line[0..] == line;
    while start <= |line|
      invariant 0 <= start <= |line|
      invariant tokens + Emitted(Split(line[start..]), stop) == Tokens(line, stop)
      decreases |line| - start
    {
      var sep := FindSpace(line, start);
      SplitFrom(line, start, sep);
      EmittedFrom(line[start..sep], if sep < |line| then Split(line[sep + 1..]) else [], stop);
      var cleaned := CleanPiece(line[start..sep]);
      if cleaned != "" && cleaned !in stop {
        tokens := tokens + [cleaned];
      }
      if sep == |line| {
        EmittedNone(stop);
        break;
      }
      start := sep + 1;
    }
  }

  lemma EmittedNone(stop: set<string>)
    ensures Emitted([], stop) == []
  {
  }

  method SplitLine(line: string) returns (result: seq<string>)
    ensures result == Split(line)
  {
    hide Split;
    result := [];
    var start := 0;
    var end := FindSpace(line, 0);
    assert line[0..] == line;
    while end < |line|
      invariant 0 <= start <= end <= |line| && ' ' !in line[start..end] && (end < |line| ==> line[end] == ' ')
      invariant result + Split(line[start..]) == Split(line)
      decreases |line| - start
    {
      SplitFrom(line, start, end);
      result := result + [line[start..end]];
      start := end + 1;
      end := FindSpace(line, start);
    }
    SplitFrom(line, start, end);
    assert line[start..end] == line[start..];
    result := result + [line[start..]];
  }
}
