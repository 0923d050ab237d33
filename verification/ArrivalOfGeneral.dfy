/** CodeForces 144A: the fewest swaps of neighbours that bring a greatest element to the front of a
    line and a least one to its end. */
module ArrivalOfGeneral {
  predicate IsMax(w: seq<int>, i: nat)
    requires i < |w|
  {
    forall j :: 0 <= j < |w| ==> w[j] <= w[i]
  }

  predicate IsMin(w: seq<int>, i: nat)
    requires i < |w|
  {
    forall j :: 0 <= j < |w| ==> w[i] <= w[j]
  }

  predicate IsFirstMax(w: seq<int>, i: nat) {
    i < |w| && IsMax(w, i) && forall j :: 0 <= j < i ==> w[j] < w[i]
  }

  predicate IsLastMin(w: seq<int>, i: nat) {
    i < |w| && IsMin(w, i) && forall j :: i < j < |w| ==> w[i] < w[j]
  }

  // std::max_element from the front.
  function FirstMax(w: seq<int>): (i: nat)
    requires w != []
    ensures IsFirstMax(w, i)
  {
    if |w| == 1 then 0
    else
      var k := FirstMax(w[..|w| - 1]);
      assert forall j :: 0 <= j < |w| - 1 ==> w[j] == w[..|w| - 1][j];
      if w[k] < w[|w| - 1] then |w| - 1 else k
  }

  // std::min_element from the back.
  function LastMin(w: seq<int>): (i: nat)
    requires w != []
    ensures IsLastMin(w, i)
  {
    if |w| == 1 then 0
    else
      var k := LastMin(w[1..]);
      assert forall j :: 0 < j < |w| ==> w[j] == w[1..][j - 1];
      if w[0] < w[k + 1] then 0 else k + 1
  }

  // The formula the program prints.
  function Swaps(w: seq<int>): int
    requires w != []
  {
    var maxIndex, minIndex := FirstMax(w), LastMin(w);
    maxIndex + (|w| - 1 - minIndex) - if maxIndex > minIndex then 1 else 0
  }

  lemma FirstMaxUnique(w: seq<int>, i: nat)
    requires IsFirstMax(w, i)
    ensures FirstMax(w) == i
  {
    var k := FirstMax(w);
    assert w[i] <= w[k] && w[k] <= w[i];
  }

  lemma LastMinUnique(w: seq<int>, i: nat)
    requires IsLastMin(w, i)
    ensures LastMin(w) == i
  {
    var k := LastMin(w);
    assert w[i] <= w[k] && w[k] <= w[i];
  }

  // ---------------------------------------------------------------- swaps

  // Neighbours i and i+1 change places.
  function Swap(w: seq<int>, i: nat): (w': seq<int>)
    requires i + 1 < |w|
    ensures |w'| == |w|
  {
    w[i := w[i + 1]][i + 1 := w[i]]
  }

  ghost predicate Legal(n: nat, swaps: seq<nat>) {
    forall k :: 0 <= k < |swaps| ==> swaps[k] + 1 < n
  }

  function After(w: seq<int>, swaps: seq<nat>): (w': seq<int>)
    requires Legal(|w|, swaps)
    ensures |w'| == |w|
    decreases |swaps|
  {
    if swaps == [] then w else After(Swap(w, swaps[0]), swaps[1..])
  }

  // A greatest element stands first and a least one last.
  ghost predicate Arranged(w: seq<int>) {
    w != [] && IsMax(w, 0) && IsMin(w, |w| - 1)
  }

  lemma ArrangedIffNoSwaps(w: seq<int>)
    requires w != []
    ensures Arranged(w) <==> Swaps(w) == 0
    ensures Swaps(w) >= 0
  {
    if Arranged(w) {
      FirstMaxUnique(w, 0);
      LastMinUnique(w, |w| - 1);
    }
  }

  // Where element i stands after the swap of s and s+1.
  function Moved(i: nat, s: nat): nat {
    if i == s then s + 1 else if i == s + 1 then s else i
  }

  lemma SwapMoves(w: seq<int>, s: nat, j: nat)
    requires s + 1 < |w| && j < |w|
    ensures Moved(j, s) < |w| && Swap(w, s)[j] == w[Moved(j, s)]
  {
  }

  lemma MaxAfterSwap(w: seq<int>, s: nat)
    requires s + 1 < |w|
    ensures var k := FirstMax(w);
      FirstMax(Swap(w, s)) == if k == s && w[s + 1] == w[s] then s else Moved(k, s)
  {
    hide FirstMax, Swap;
    var k, w' := FirstMax(w), Swap(w, s);
    var k' := if k == s && w[s + 1] == w[s] then s else Moved(k, s);
    SwapMoves(w, s, k');
    assert w'[k'] == w[k];
    forall j | 0 <= j < |w'| ensures w'[j] <= w'[k'] && (j < k' ==> w'[j] < w'[k']) {
      SwapMoves(w, s, j);
    }
    FirstMaxUnique(w', k');
  }

  lemma MinAfterSwap(w: seq<int>, s: nat)
    requires s + 1 < |w|
    ensures var k := LastMin(w);
      LastMin(Swap(w, s)) == if k == s + 1 && w[s] == w[s + 1] then s + 1 else Moved(k, s)
  {
    hide LastMin, Swap;
    var k, w' := LastMin(w), Swap(w, s);
    var k' := if k == s + 1 && w[s] == w[s + 1] then s + 1 else Moved(k, s);
    SwapMoves(w, s, k');
    assert w'[k'] == w[k];
    forall j | 0 <= j < |w'| ensures w'[k'] <= w'[j] && (j > k' ==> w'[k'] < w'[j]) {
      SwapMoves(w, s, j);
    }
    LastMinUnique(w', k');
  }

  // When the first maximum is also the last minimum, all elements are equal and there is one.
  lemma SameIndex(w: seq<int>)
    requires w != [] && FirstMax(w) == LastMin(w)
    ensures |w| == 1
  {
    var k := FirstMax(w);
    assert IsFirstMax(w, k) && IsLastMin(w, k);
    assert w[k] <= w[0] && w[|w| - 1] <= w[k];
  }

  // No swap lowers the formula by more than one.
  lemma SwapLowersByAtMostOne(w: seq<int>, s: nat)
    requires s + 1 < |w|
    ensures Swaps(Swap(w, s)) >= Swaps(w) - 1
  {
    MaxAfterSwap(w, s);
    MinAfterSwap(w, s);
    var a, b := FirstMax(w), LastMin(w);
    assert IsFirstMax(w, a) && IsLastMin(w, b);
    if a == b { SameIndex(w); }
  }

  lemma {:induction false} NeedsAtLeast(w: seq<int>, swaps: seq<nat>)
    requires w != [] && Legal(|w|, swaps) && Arranged(After(w, swaps))
    ensures |swaps| >= Swaps(w)
    decreases |swaps|
  {
    if swaps == [] {
      ArrangedIffNoSwaps(w);
    } else {
      NeedsAtLeast(Swap(w, swaps[0]), swaps[1..]);
      SwapLowersByAtMostOne(w, swaps[0]);
    }
  }

  // As long as the formula is not 0, some swap lowers it.
  lemma SomeSwapLowers(w: seq<int>) returns (s: nat)
    requires w != [] && Swaps(w) > 0
    ensures s + 1 < |w| && Swaps(Swap(w, s)) == Swaps(w) - 1
  {
    var a, b := FirstMax(w), LastMin(w);
    assert IsFirstMax(w, a) && IsLastMin(w, b);
    if a > 0 {
      s := a - 1;
      assert w[s] < w[a];
    } else {
      s := b;
      assert w[b] < w[b + 1];
    }
    MaxAfterSwap(w, s);
    MinAfterSwap(w, s);
  }

  lemma {:induction false} ReachedBy(w: seq<int>) returns (swaps: seq<nat>)
    requires w != []
    ensures Legal(|w|, swaps) && Arranged(After(w, swaps)) && |swaps| == Swaps(w)
    decreases Swaps(w)
  {
    ArrangedIffNoSwaps(w);
    if Swaps(w) == 0 { return []; }
    var s := SomeSwapLowers(w);
    var rest := ReachedBy(Swap(w, s));
    swaps := [s] + rest;
    assert swaps[1..] == rest;
  }

  // The printed number is the length of a shortest sequence of swaps that does the job.
  lemma SwapsIsMinimal(w: seq<int>)
    requires w != []
    ensures exists swaps :: Legal(|w|, swaps) && Arranged(After(w, swaps)) && |swaps| == Swaps(w)
    ensures forall swaps :: Legal(|w|, swaps) && Arranged(After(w, swaps)) ==> |swaps| >= Swaps(w)
  {
    var best := ReachedBy(w);
    forall swaps | Legal(|w|, swaps) && Arranged(After(w, swaps)) ensures |swaps| >= Swaps(w) {
      NeedsAtLeast(w, swaps);
    }
  }
}
