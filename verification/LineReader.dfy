/** How the coordinator reads a file (lexer.cpp, Run): fgets into a buffer of 456 bytes, so a longer line comes in
    pieces and a word may be cut in two. */
module LineReader {
  import opened Lexer

  const BUFFER: nat := 456

  // How many bytes of rest come up to and with the first newline, but no more than room.
  function ReadLength(rest: string, room: nat): (n: nat)
    ensures n <= |rest| && n <= room
    ensures rest != "" && room > 0 ==> n > 0
    ensures forall i :: 0 <= i < n - 1 ==> rest[i] != '\n'
    ensures n == |rest| || n == room || (n > 0 && rest[n - 1] == '\n')
  {
    if rest == "" || room == 0 then 0
    else if rest[0] == '\n' then 1
    else 1 + ReadLength(rest[1..], room - 1)
  }

  // What the next fgets reads. One byte of the buffer is for the terminator.
  function ChunkLength(rest: string): nat {
    ReadLength(rest, BUFFER - 1)
  }

  // The next line of the file, with its newline.
  function LineLength(rest: string): nat {
    ReadLength(rest, |rest|)
  }

  // The C string in the buffer: up to the first NUL.
  function BeforeNul(chunk: string): string {
    if chunk == "" || chunk[0] == '\0' then "" else [chunk[0]] + BeforeNul(chunk[1..])
  }

  function WithoutNewline(line: string): string {
    if |line| > 0 && line[|line| - 1] == '\n' then line[..|line| - 1] else line
  }

  // The line that goes to the queue.
  function LineOf(chunk: string): string {
    WithoutNewline(BeforeNul(chunk))
  }

  function LineTokens(line: string, stop: set<string>): multiset<string> {
    multiset(Tokens(line, stop))
  }

  // The tokens the workers make of what fgets reads.
  function ChunkTokens(rest: string, stop: set<string>): multiset<string> {
    if rest == "" then multiset{}
    else
      var n := ChunkLength(rest);
      LineTokens(LineOf(rest[..n]), stop) + ChunkTokens(rest[n..], stop)
  }

  // The tokens of the lines of the file.
  function TextTokens(rest: string, stop: set<string>): multiset<string> {
    if rest == "" then multiset{}
    else
      var n := LineLength(rest);
      LineTokens(LineOf(rest[..n]), stop) + TextTokens(rest[n..], stop)
  }

  // ---------------------------------------------------------------- one cut

  function Last(pieces: seq<string>): string
    requires pieces != []
  {
    pieces[|pieces| - 1]
  }

  // A word cut into u and v goes unnoticed when one part is empty, or when all three are stop words.
  predicate NothingCut(u: string, v: string, stop: set<string>) {
    u == "" || v == "" || (u in stop && v in stop && u + v in stop)
  }

  // A cut of a line after a, with r left of it. After a NUL nothing of the line counts.
  predicate Harmless(a: string, r: string, stop: set<string>) {
    if '\0' in a then Tokens(LineOf(r), stop) == []
    else
      NothingCut(Clean(Last(Split(a))), Clean(Split(LineOf(r))[0]), stop)
  }

  // Two lists of pieces put together: the last of one and the first of the other become one piece.
  function Fused(p: seq<string>, q: seq<string>): seq<string>
    requires p != [] && q != []
  {
    p[..|p| - 1] + [Last(p) + q[0]] + q[1..]
  }

  lemma FusedTail(x: string, rest: seq<string>, q: seq<string>)
    requires rest != [] && q != []
    ensures Fused([x] + rest, q) == [x] + Fused(rest, q)
  {
    var p := [x] + rest;
    assert p[..|p| - 1] == [x] + rest[..|rest| - 1] && Last(p) == Last(rest);
  }

  lemma FusedHead(c: char, rest: seq<string>, q: seq<string>)
    requires rest != [] && q != []
    ensures Fused([[c] + rest[0]] + rest[1..], q) == [[c] + Fused(rest, q)[0]] + Fused(rest, q)[1..]
  {
    var p := [[c] + rest[0]] + rest[1..];
    if |rest| == 1 {
      assert Last(p) + q[0] == [c] + (rest[0] + q[0]);
      assert Fused(rest, q) == [rest[0] + q[0]] + q[1..];
      assert Fused(p, q) == [[c] + rest[0] + q[0]] + q[1..];
    } else {
      assert p == [[c] + rest[0]] + rest[1..] && Last(p) == Last(rest);
      assert p[..|p| - 1] == [[c] + rest[0]] + rest[1..|rest| - 1];
      assert Fused(rest, q)[0] == rest[0];
      assert Fused(rest, q)[1..] == rest[1..|rest| - 1] + [Last(rest) + q[0]] + q[1..];
    }
  }

  lemma {:induction false} SplitConcat(a: string, b: string)
    ensures Split(a + b) == Fused(Split(a), Split(b))
  {
    hide Fused;
    if a == "" {
      assert a + b == b && Split(a) == [""];
      FusedNothing(Split(b));
    } else {
      SplitConcat(a[1..], b);
      assert (a + b)[1..] == a[1..] + b && (a + b)[0] == a[0];
      if a[0] == ' ' {
        FusedTail("", Split(a[1..]), Split(b));
      } else {
        FusedHead(a[0], Split(a[1..]), Split(b));
      }
    }
  }

  lemma FusedNothing(q: seq<string>)
    requires q != []
    ensures Fused([""], q) == q
  {
    assert [""][..0] == [] && "" + q[0] == q[0];
  }

  function Kept(c: char): string {
    if IsSpace(c) || IsPunct(c) then "" else [ToLower(c)]
  }

  lemma CleanStep(p: string)
    requires p != ""
    ensures Clean(p) == Kept(p[0]) + Clean(p[1..])
  {
  }

  lemma {:induction false} CleanConcat(p: string, q: string)
    ensures Clean(p + q) == Clean(p) + Clean(q)
  {
    if p == "" {
      assert p + q == q && Clean(p) == "";
    } else {
      CleanStep(p);
      CleanStep(p + q);
      hide Clean, Kept;
      CleanConcat(p[1..], q);
      assert (p + q)[1..] == p[1..] + q && (p + q)[0] == p[0];
      Associative(Kept(p[0]), Clean(p[1..]), Clean(q));
    }
  }

  function Word(w: string, stop: set<string>): multiset<string> {
    if IsToken(w, stop) then multiset{w} else multiset{}
  }

  lemma EmittedOne(piece: string, stop: set<string>)
    ensures multiset(Emitted([piece], stop)) == Word(Clean(piece), stop)
  {
    assert [piece][1..] == [];
    assert Emitted([piece], stop) == if IsToken(Clean(piece), stop) then [Clean(piece)] else [];
  }

  lemma WordCutIff(u: string, v: string, stop: set<string>)
    ensures Word(u, stop) + Word(v, stop) == Word(u + v, stop) <==> NothingCut(u, v, stop)
  {
    if u == "" { assert u + v == v; }
    if v == "" { assert u + v == u; }
    if u != "" && v != "" {
      var both, whole := Word(u, stop) + Word(v, stop), Word(u + v, stop);
      if u + v !in stop {
        assert u + v != u && u + v != v by { assert |u + v| == |u| + |v|; }
        assert whole[u + v] == 1 && both[u + v] == 0;
      } else if u !in stop {
        assert both[u] >= 1 && whole[u] == 0;
      } else if v !in stop {
        assert both[v] >= 1 && whole[v] == 0;
      }
    }
  }

  lemma EmittedSum(a: seq<string>, b: seq<string>, stop: set<string>)
    ensures multiset(Emitted(a + b, stop)) == multiset(Emitted(a, stop)) + multiset(Emitted(b, stop))
  {
    EmittedConcat(a, b, stop);
    hide Emitted;
  }

  // The last piece of p, the first of q and the fused piece are all that matters where two lists meet.
  lemma FusedEmits(p: seq<string>, q: seq<string>, stop: set<string>) returns (rest: multiset<string>)
    requires p != [] && q != []
    ensures var u, v := Clean(Last(p)), Clean(q[0]);
      && multiset(Emitted(p, stop)) + multiset(Emitted(q, stop)) == rest + (Word(u, stop) + Word(v, stop))
      && multiset(Emitted(Fused(p, q), stop)) == rest + Word(u + v, stop)
  {
    hide Emitted, Clean, Word;
    var front, back, whole := p[..|p| - 1], q[1..], Last(p) + q[0];
    assert p == front + [Last(p)] && q == [q[0]] + back && Fused(p, q) == (front + [whole]) + back;
    EmittedSum(front, [Last(p)], stop);
    EmittedSum([q[0]], back, stop);
    EmittedSum(front, [whole], stop);
    EmittedSum(front + [whole], back, stop);
    EmittedOne(Last(p), stop);
    EmittedOne(q[0], stop);
    EmittedOne(whole, stop);
    CleanConcat(Last(p), q[0]);
    rest := multiset(Emitted(front, stop)) + multiset(Emitted(back, stop));
  }

  lemma CancelRest(rest: multiset<string>, x: multiset<string>, y: multiset<string>)
    ensures rest + x == rest + y <==> x == y
  {
    if rest + x == rest + y {
      forall w ensures x[w] == y[w] { assert (rest + x)[w] == (rest + y)[w]; }
    }
  }

  lemma {:induction false} BeforeNulOf(a: string, r: string)
    ensures BeforeNul(a + r) == if '\0' in a then BeforeNul(a) else a + BeforeNul(r)
  {
    hide BeforeNul;
    if a == "" {
      assert a + r == r && a + BeforeNul(r) == BeforeNul(r);
    } else {
      var c, rest := a[0], a[1..];
      HeadAndTail(a, r, '\0');
      BeforeNulOf(rest, r);
      BeforeNulStep(c, rest);
      BeforeNulStep(c, rest + r);
      Associative([c], rest, BeforeNul(r));
    }
  }

  lemma HeadAndTail(a: string, r: string, x: char)
    requires a != ""
    ensures a == [a[0]] + a[1..] && a + r == [a[0]] + (a[1..] + r) && (x in a <==> a[0] == x || x in a[1..])
  {
  }

  lemma BeforeNulStep(c: char, r: string)
    ensures BeforeNul([c] + r) == if c == '\0' then "" else [c] + BeforeNul(r)
  {
    assert ([c] + r)[1..] == r;
  }

  lemma {:induction false} BeforeNulIsPrefix(a: string)
    ensures BeforeNul(a) <= a
  {
    if a != "" && a[0] != '\0' { BeforeNulIsPrefix(a[1..]); }
  }

  lemma NewlineAtTheEnd(a: string, r: string)
    requires '\n' !in a
    ensures WithoutNewline(a + r) == a + WithoutNewline(r)
  {
    if r != "" { assert (a + r)[|a + r| - 1] == r[|r| - 1]; } else { assert a + r == a; }
  }

  // The part of a line before a cut holds no newline, so only the rest can lose one.
  lemma LineOfCut(a: string, r: string)
    requires '\n' !in a
    ensures '\0' in a ==> LineOf(a + r) == LineOf(a)
    ensures '\0' !in a ==> LineOf(a) == a && LineOf(a + r) == a + LineOf(r)
  {
    BeforeNulOf(a, r);
    BeforeNulOf(a, "");
    hide BeforeNul;
    assert a + "" == a;
    if '\0' !in a {
      assert BeforeNul("") == "" by { BeforeNulIsPrefix(""); }
      NewlineAtTheEnd(a, BeforeNul(r));
      NewlineAtTheEnd(a, "");
    }
  }

  // What a cut of a line after a, with r left of it, takes out of the index: the word it parts.
  function CutLost(a: string, r: string, stop: set<string>): multiset<string> {
    if '\0' in a then multiset{} else Word(Clean(Last(Split(a))) + Clean(Split(LineOf(r))[0]), stop)
  }

  // ... and what it puts in: the parts, or what the line has after a NUL.
  function CutMade(a: string, r: string, stop: set<string>): multiset<string> {
    if '\0' in a then LineTokens(LineOf(r), stop)
    else Word(Clean(Last(Split(a))), stop) + Word(Clean(Split(LineOf(r))[0]), stop)
  }

  lemma CutBalance(a: string, r: string, stop: set<string>)
    requires '\n' !in a
    ensures LineTokens(LineOf(a), stop) + LineTokens(LineOf(r), stop) + CutLost(a, r, stop) ==
            LineTokens(LineOf(a + r), stop) + CutMade(a, r, stop)
  {
    hide LineOf, Emitted, Split, Clean, Word, Fused;
    LineOfCut(a, r);
    if '\0' !in a {
      SplitConcat(a, LineOf(r));
      var rest := FusedEmits(Split(a), Split(LineOf(r)), stop);
    }
  }

  lemma LostIsMadeIff(a: string, r: string, stop: set<string>)
    ensures CutLost(a, r, stop) == CutMade(a, r, stop) <==> Harmless(a, r, stop)
  {
    hide LineOf, Split, Clean, Word, NothingCut;
    if '\0' in a {
      var t := Tokens(LineOf(r), stop);
      if t != [] { assert t[0] in multiset(t); }
    } else {
      WordCutIff(Clean(Last(Split(a))), Clean(Split(LineOf(r))[0]), stop);
    }
  }

  // One cut: the tokens of the two pieces are those of the whole exactly when the cut is harmless.
  lemma CutIsHarmlessIff(a: string, r: string, stop: set<string>)
    requires '\n' !in a
    ensures LineTokens(LineOf(a), stop) + LineTokens(LineOf(r), stop) == LineTokens(LineOf(a + r), stop) <==>
            Harmless(a, r, stop)
  {
    hide LineOf, LineTokens, CutLost, CutMade, Harmless;
    CutBalance(a, r, stop);
    LostIsMadeIff(a, r, stop);
    EqualIffBalanced(LineTokens(LineOf(a), stop) + LineTokens(LineOf(r), stop), LineTokens(LineOf(a + r), stop),
                     CutLost(a, r, stop), CutMade(a, r, stop));
  }

  lemma EqualIffBalanced(x: multiset<string>, y: multiset<string>, lost: multiset<string>, made: multiset<string>)
    requires x + lost == y + made
    ensures x == y <==> lost == made
  {
    forall w ensures x[w] + lost[w] == y[w] + made[w] { assert (x + lost)[w] == (y + made)[w]; }
    if lost == made { CancelRest(lost, x, y); }
    if x == y { CancelRest(x, lost, made); }
  }

  // ---------------------------------------------------------------- a whole file

  // No cut of any line of the file is noticed.
  predicate CutsHarmless(rest: string, stop: set<string>) {
    rest == "" ||
    var n, line := ChunkLength(rest), LineLength(rest);
    (n < line ==> Harmless(rest[..n], rest[n..line], stop)) && CutsHarmless(rest[n..], stop)
  }

  // The next chunk is the next line, or the beginning of it; then the rest of the line comes next.
  lemma ChunkOfLine(rest: string)
    requires rest != ""
    ensures var n, line := ChunkLength(rest), LineLength(rest);
      && 0 < n <= line <= |rest| && (line < BUFFER ==> n == line)
      && (n < line ==> '\n' !in rest[..n] && LineLength(rest[n..]) == line - n)
  {
    hide ReadLength;
    var n, line := ChunkLength(rest), LineLength(rest);
    if n < line {
      assert rest[n - 1] != '\n';
      var m := LineLength(rest[n..]);
      assert forall i :: 0 <= i < m ==> rest[n..][i] == rest[n + i];
      assert rest[n..][m - 1] == rest[n + m - 1];
    }
  }

  lemma ChunkUnfolds(rest: string, stop: set<string>)
    requires rest != ""
    ensures ChunkTokens(rest, stop) == LineTokens(LineOf(rest[..ChunkLength(rest)]), stop) +
                                       ChunkTokens(rest[ChunkLength(rest)..], stop)
  {
    hide LineTokens, LineOf, ReadLength;
  }

  lemma TextUnfolds(rest: string, stop: set<string>)
    requires rest != ""
    ensures TextTokens(rest, stop) == LineTokens(LineOf(rest[..LineLength(rest)]), stop) +
                                      TextTokens(rest[LineLength(rest)..], stop)
  {
    hide LineTokens, LineOf, ReadLength;
  }

  // What all the cuts of a file take out, and what they put in.
  function Lost(rest: string, stop: set<string>): multiset<string> {
    if rest == "" then multiset{}
    else
      var n, line := ChunkLength(rest), LineLength(rest);
      (if n < line then CutLost(rest[..n], rest[n..line], stop) else multiset{}) + Lost(rest[n..], stop)
  }

  function Made(rest: string, stop: set<string>): multiset<string> {
    if rest == "" then multiset{}
    else
      var n, line := ChunkLength(rest), LineLength(rest);
      (if n < line then CutMade(rest[..n], rest[n..line], stop) else multiset{}) + Made(rest[n..], stop)
  }

  lemma LedgerUnfolds(rest: string, stop: set<string>)
    requires rest != ""
    ensures var n, line := ChunkLength(rest), LineLength(rest);
      && n <= line <= |rest|
      && Lost(rest, stop) ==
         (if n < line then CutLost(rest[..n], rest[n..line], stop) else multiset{}) + Lost(rest[n..], stop)
      && Made(rest, stop) ==
         (if n < line then CutMade(rest[..n], rest[n..line], stop) else multiset{}) + Made(rest[n..], stop)
      && (CutsHarmless(rest, stop) <==>
          (n < line ==> Harmless(rest[..n], rest[n..line], stop)) && CutsHarmless(rest[n..], stop))
      && (PlainCuts(rest, stop) <==>
          (n < line ==> PlainCut(rest[..n], rest[n..line], stop)) && PlainCuts(rest[n..], stop))
  {
    hide CutLost, CutMade, ReadLength, Harmless, PlainCut;
    ChunkOfLine(rest);
  }

  // The rest of a cut line is the next line.
  lemma CutLine(rest: string, stop: set<string>)
    requires rest != "" && ChunkLength(rest) < LineLength(rest)
    ensures var n, line := ChunkLength(rest), LineLength(rest);
      && TextTokens(rest[n..], stop) == LineTokens(LineOf(rest[n..line]), stop) + TextTokens(rest[line..], stop)
      && LineTokens(LineOf(rest[..n]), stop) + LineTokens(LineOf(rest[n..line]), stop)
           + CutLost(rest[..n], rest[n..line], stop) ==
         LineTokens(LineOf(rest[..line]), stop) + CutMade(rest[..n], rest[n..line], stop)
  {
    hide LineTokens, LineOf, ReadLength, ChunkTokens, TextTokens, CutLost, CutMade;
    var n, line := ChunkLength(rest), LineLength(rest);
    ChunkOfLine(rest);
    TextUnfolds(rest[n..], stop);
    assert rest[n..][..line - n] == rest[n..line] && rest[n..][line - n..] == rest[line..];
    CutBalance(rest[..n], rest[n..line], stop);
    assert rest[..n] + rest[n..line] == rest[..line];
  }

  lemma AddUp(x: multiset<string>, y: multiset<string>, w: multiset<string>, tl: multiset<string>,
              ca: multiset<string>, l: multiset<string>, m: multiset<string>,
              lost: multiset<string>, made: multiset<string>)
    requires x + y + l == w + m && ca + lost == (y + tl) + made
    ensures (x + ca) + (l + lost) == (w + tl) + (m + made)
  {
    assert (x + ca) + (l + lost) == x + l + (ca + lost);
    assert x + l + ((y + tl) + made) == (x + y + l) + tl + made;
  }

  // The books balance: what the workers see and what the cuts take out is the text and what the cuts put in.
  lemma {:induction false} CutsBalance(rest: string, stop: set<string>)
    ensures ChunkTokens(rest, stop) + Lost(rest, stop) == TextTokens(rest, stop) + Made(rest, stop)
    decreases |rest|
  {
    hide LineTokens, LineOf, ReadLength, CutLost, CutMade, Harmless, PlainCut;
    if rest != "" {
      var n, line := ChunkLength(rest), LineLength(rest);
      ChunkOfLine(rest);
      ChunkUnfolds(rest, stop);
      TextUnfolds(rest, stop);
      LedgerUnfolds(rest, stop);
      CutsBalance(rest[n..], stop);
      BalanceStep(rest, stop, n, line);
    }
  }

  lemma BalanceStep(rest: string, stop: set<string>, n: nat, line: nat)
    requires rest != "" && n == ChunkLength(rest) && line == LineLength(rest) && 0 < n <= line <= |rest|
    requires ChunkTokens(rest[n..], stop) + Lost(rest[n..], stop) ==
             TextTokens(rest[n..], stop) + Made(rest[n..], stop)
    ensures ChunkTokens(rest, stop) + Lost(rest, stop) == TextTokens(rest, stop) + Made(rest, stop)
  {
    hide LineTokens, LineOf, CutLost, CutMade, Harmless, PlainCut, ChunkTokens, TextTokens, Lost, Made, ChunkLength,
      LineLength, CutsHarmless, PlainCuts;
    ChunkUnfolds(rest, stop);
    TextUnfolds(rest, stop);
    LedgerUnfolds(rest, stop);
    var x, after := LineTokens(LineOf(rest[..n]), stop), rest[n..];
    if n < line {
      CutLine(rest, stop);
      AddUp(x, LineTokens(LineOf(rest[n..line]), stop), LineTokens(LineOf(rest[..line]), stop),
            TextTokens(rest[line..], stop), ChunkTokens(after, stop),
            CutLost(rest[..n], rest[n..line], stop), CutMade(rest[..n], rest[n..line], stop),
            Lost(after, stop), Made(after, stop));
    } else {
      AddUp(x, multiset{}, x, TextTokens(after, stop), ChunkTokens(after, stop), multiset{}, multiset{},
            Lost(after, stop), Made(after, stop));
    }
  }

  // So the workers see the tokens of the lines exactly when the cuts put in what they take out.
  lemma ChunksMatchTextIff(rest: string, stop: set<string>)
    ensures ChunkTokens(rest, stop) == TextTokens(rest, stop) <==> Lost(rest, stop) == Made(rest, stop)
  {
    hide ChunkTokens, TextTokens, Lost, Made;
    CutsBalance(rest, stop);
    EqualIffBalanced(ChunkTokens(rest, stop), TextTokens(rest, stop), Lost(rest, stop), Made(rest, stop));
  }

  lemma {:induction false} HarmlessCutsBalance(rest: string, stop: set<string>)
    requires CutsHarmless(rest, stop)
    ensures Lost(rest, stop) == Made(rest, stop)
    decreases |rest|
  {
    hide CutLost, CutMade, Harmless, PlainCut, ChunkLength, LineLength;
    if rest != "" {
      var n, line := ChunkLength(rest), LineLength(rest);
      ChunkOfLine(rest);
      LedgerUnfolds(rest, stop);
      HarmlessCutsBalance(rest[n..], stop);
      if n < line { LostIsMadeIff(rest[..n], rest[n..line], stop); }
    }
  }

  // When no cut is noticed, they do.
  lemma ChunksMatchText(rest: string, stop: set<string>)
    requires CutsHarmless(rest, stop)
    ensures ChunkTokens(rest, stop) == TextTokens(rest, stop)
  {
    hide ChunkTokens, TextTokens, Lost, Made;
    HarmlessCutsBalance(rest, stop);
    ChunksMatchTextIff(rest, stop);
  }

  // Every line, with its newline, fits into the buffer.
  predicate LinesFit(rest: string) {
    rest == "" || (LineLength(rest) < BUFFER && LinesFit(rest[LineLength(rest)..]))
  }

  lemma {:induction false} FittingLinesAreNotCut(rest: string, stop: set<string>)
    requires LinesFit(rest)
    ensures CutsHarmless(rest, stop)
    decreases |rest|
  {
    if rest != "" {
      ChunkOfLine(rest);
      FittingLinesAreNotCut(rest[LineLength(rest)..], stop);
    }
  }

  // In numbers: a line of up to 455 bytes, newline counted, is read whole; of a longer one, the first 455 bytes.
  lemma {:induction false} ReadToNewline(a: string, r: string, room: nat)
    requires '\n' !in a
    ensures ReadLength(a + "\n" + r, room) == if |a| < room then |a| + 1 else room
  {
    var rest := a + "\n" + r;
    if a != "" && room > 0 {
      assert rest[1..] == a[1..] + "\n" + r;
      ReadToNewline(a[1..], r, room - 1);
    }
  }

  lemma BufferHolds(a: string, r: string)
    requires '\n' !in a
    ensures ChunkLength(a + "\n" + r) == if |a| + 1 <= 455 then |a| + 1 else 455
    ensures LineLength(a + "\n" + r) == |a| + 1
  {
    ReadToNewline(a, r, 455);
    ReadToNewline(a, r, |a + "\n" + r|);
  }

  // So the tokens of a text are those of its first line and those of the text after it. A line ends at a NUL.
  lemma LineByLine(a: string, r: string, stop: set<string>)
    requires '\n' !in a
    ensures TextTokens(a + "\n" + r, stop) == LineTokens(BeforeNul(a), stop) + TextTokens(r, stop)
    ensures |a| <= 454 ==> ChunkTokens(a + "\n" + r, stop) == LineTokens(BeforeNul(a), stop) + ChunkTokens(r, stop)
  {
    hide LineTokens, ChunkTokens, TextTokens, ChunkLength, LineLength, LineOf;
    var rest := a + "\n" + r;
    BufferHolds(a, r);
    assert rest[..|a| + 1] == a + "\n" && rest[|a| + 1..] == r;
    TextUnfolds(rest, stop);
    ChunkUnfolds(rest, stop);
    LineWithNewline(a);
  }

  lemma LineWithNewline(a: string)
    requires '\n' !in a
    ensures LineOf(a + "\n") == BeforeNul(a) && LineOf(a) == BeforeNul(a)
  {
    hide BeforeNul, WithoutNewline;
    BeforeNulOf(a, "\n");
    BeforeNulOf(a, "");
    ShortText();
    NoNewlineBefore(a);
    if '\0' !in a {
      assert a + "" == a;
      NewlineGoes(a);
    }
  }

  lemma ShortText()
    ensures BeforeNul("\n") == "\n" && BeforeNul("") == ""
  {
    assert "\n"[1..] == "";
  }

  lemma NoNewlineBefore(a: string)
    requires '\n' !in a
    ensures WithoutNewline(BeforeNul(a)) == BeforeNul(a)
  {
    BeforeNulIsPrefix(a);
    hide BeforeNul;
    var x := BeforeNul(a);
    assert x != "" ==> x[|x| - 1] == a[|x| - 1];
  }

  lemma NewlineGoes(a: string)
    ensures WithoutNewline(a + "\n") == a
  {
    assert (a + "\n")[..|a|] == a;
  }

  // The last line need not end in a newline.
  lemma LastLine(a: string, stop: set<string>)
    requires '\n' !in a
    ensures TextTokens(a, stop) == LineTokens(BeforeNul(a), stop)
  {
    hide LineTokens, LineOf;
    LineWithNewline(a);
    if a != "" {
      LastRead(a, |a|);
      assert a[..|a|] == a && a[|a|..] == "";
      assert TextTokens("", stop) == multiset{};
    } else {
      NoTokens(stop);
    }
  }

  lemma NoTokens(stop: set<string>)
    ensures LineTokens("", stop) == multiset{}
  {
    assert Split("") == [""] && Clean("") == "";
    EmittedOne("", stop);
  }

  lemma {:induction false} LastRead(a: string, room: nat)
    requires '\n' !in a && |a| <= room
    ensures ReadLength(a, room) == |a|
  {
    if a != "" { LastRead(a[1..], room - 1); }
  }

  // ---------------------------------------------------------------- plain cuts

  // Nothing odd happens at a cut: no NUL before it, and no stop word around it.
  predicate PlainCut(a: string, r: string, stop: set<string>) {
    var u, v := Clean(Last(Split(a))), Clean(Split(LineOf(r))[0]);
    '\0' !in a && u !in stop && v !in stop && u + v !in stop
  }

  predicate PlainCuts(rest: string, stop: set<string>) {
    rest == "" ||
    var n, line := ChunkLength(rest), LineLength(rest);
    (n < line ==> PlainCut(rest[..n], rest[n..line], stop)) && PlainCuts(rest[n..], stop)
  }

  // A plain cut that is noticed makes two tokens of one.
  lemma PlainCutCount(a: string, r: string, stop: set<string>)
    requires PlainCut(a, r, stop)
    ensures |CutMade(a, r, stop)| == |CutLost(a, r, stop)| + if Harmless(a, r, stop) then 0 else 1
  {
    hide Split, Clean, LineOf;
    var u, v := Clean(Last(Split(a))), Clean(Split(LineOf(r))[0]);
    if u == "" { assert u + v == v; }
    if v == "" { assert u + v == u; }
  }

  lemma {:induction false} PlainCutsCount(rest: string, stop: set<string>)
    requires PlainCuts(rest, stop)
    ensures |Made(rest, stop)| >= |Lost(rest, stop)|
    ensures |Made(rest, stop)| == |Lost(rest, stop)| <==> CutsHarmless(rest, stop)
    decreases |rest|
  {
    hide CutLost, CutMade, Harmless, PlainCut, ChunkLength, LineLength;
    if rest != "" {
      var n, line := ChunkLength(rest), LineLength(rest);
      ChunkOfLine(rest);
      LedgerUnfolds(rest, stop);
      PlainCutsCount(rest[n..], stop);
      if n < line { PlainCutCount(rest[..n], rest[n..line], stop); }
    }
  }

  // Plain cuts cannot make up for one another: no cut may part a word.
  lemma PlainCutsMatchIff(rest: string, stop: set<string>)
    requires PlainCuts(rest, stop)
    ensures ChunkTokens(rest, stop) == TextTokens(rest, stop) <==> CutsHarmless(rest, stop)
  {
    hide ChunkTokens, TextTokens, Lost, Made;
    ChunksMatchTextIff(rest, stop);
    PlainCutsCount(rest, stop);
    if CutsHarmless(rest, stop) { HarmlessCutsBalance(rest, stop); }
  }

  // ---------------------------------------------------------------- a failing input

  function Letters(n: nat): (s: string)
    ensures |s| == n
  {
    seq(n, _ => 'a')
  }

  lemma {:induction false} CleanLetters(n: nat)
    ensures Clean(Letters(n)) == Letters(n)
  {
    if n > 0 {
      CleanLetters(n - 1);
      assert Letters(n)[1..] == Letters(n - 1);
      assert Letters(n) == ['a'] + Letters(n - 1);
    }
  }

  lemma LettersAreOneWord(n: nat)
    ensures Split(Letters(n)) == [Letters(n)]
  {
    SplitAt(Letters(n), n);
    assert Letters(n)[..n] == Letters(n);
  }

  // One line of n letters is one piece, and cleaning leaves it as it is.
  lemma LettersPiece(n: nat)
    ensures Clean(Last(Split(Letters(n)))) == Letters(n) && Clean(Split(Letters(n))[0]) == Letters(n)
    ensures '\n' !in Letters(n) && '\0' !in Letters(n) && LineOf(Letters(n)) == Letters(n)
  {
    LettersAreOneWord(n);
    CleanLetters(n);
    LineOfCut(Letters(n), "");
  }

  // A line of two chunks.
  lemma OneCut(a: string, r: string, stop: set<string>)
    requires r != "" && ChunkLength(a + r) == |a| && LineLength(a + r) == |a + r|
      && ChunkLength(r) == |r| == LineLength(r)
    ensures PlainCuts(a + r, stop) <==> PlainCut(a, r, stop)
    ensures CutsHarmless(a + r, stop) <==> Harmless(a, r, stop)
  {
    var rest := a + r;
    assert rest[..|a|] == a && rest[|a|..|rest|] == r && rest[|a|..] == r;
    assert r[|r|..] == "";
    hide ChunkLength, LineLength, PlainCut, Harmless;
    assert PlainCuts(r, stop) && CutsHarmless(r, stop);
  }

  // One line of 456 letters: the workers are given a word of 455 and one of 1.
  lemma LongWordIsCut()
    ensures ChunkTokens(Letters(456), {}) != TextTokens(Letters(456), {})
  {
    var a, r, none: set<string> := Letters(455), Letters(1), {};
    assert Letters(456) == a + r;
    LettersRead(456, 455);
    LettersRead(456, 456);
    LettersRead(1, 455);
    LettersRead(1, 1);
    LettersPiece(455);
    LettersPiece(1);
    hide Letters, ReadLength, Split, Clean, LineOf, ChunkTokens, TextTokens;
    OneCut(a, r, none);
    assert !Harmless(a, r, none) && PlainCut(a, r, none);
    PlainCutsMatchIff(a + r, none);
  }

  lemma {:induction false} LettersRead(n: nat, room: nat)
    ensures ReadLength(Letters(n), room) == if n <= room then n else room
  {
    if n > 0 && room > 0 {
      LettersRead(n - 1, room - 1);
      assert Letters(n)[1..] == Letters(n - 1);
    }
  }
}
