/** CodeForces 996A: the fewest notes of 1, 5, 10, 20 and 100 that make up an amount. */
module ChangeMaking {
  // getResult
  function GetResult(n: nat): nat
    requires n >= 1
  {
    if n == 100 || n == 20 || n == 10 || n == 5 || n == 1 then 1
    else if n > 100 then 1 + GetResult(n - 100)
    else if n > 20 then 1 + GetResult(n - 20)
    else if n > 10 then 1 + GetResult(n - 10)
    else if n > 5 then 1 + GetResult(n - 5)
    else 1 + GetResult(n - 1)
  }

  predicate IsNote(v: nat) {
    v == 1 || v == 5 || v == 10 || v == 20 || v == 100
  }

  // A bundle of notes, in any order.
  ghost predicate IsBundle(notes: seq<nat>) {
    forall i :: 0 <= i < |notes| ==> IsNote(notes[i])
  }

  function Total(notes: seq<nat>): nat {
    if notes == [] then 0 else notes[0] + Total(notes[1..])
  }

  // The greedy count, with 0 for nothing.
  function Notes(n: nat): nat {
    if n == 0 then 0 else GetResult(n)
  }

  // The note the greedy choice takes first.
  function Largest(n: nat): nat {
    if n >= 100 then 100 else if n >= 20 then 20 else if n >= 10 then 10 else if n >= 5 then 5 else 1
  }

  lemma TakeLargest(n: nat)
    requires n >= 1
    ensures Largest(n) <= n && Notes(n) == 1 + Notes(n - Largest(n))
  {
  }

  // The greedy choice below m, stripped of the notes that the last v below m always hold.
  lemma NearTheTop(n: nat, m: nat, v: nat)
    requires IsNote(m) && IsNote(v) && v < m && m - v <= n < m
    ensures Notes(n - (m - v)) <= Notes(n)
  {
    hide GetResult;
    TakeLargest(n);
    if m == 100 {
      TakeLargest(n - 20);
      TakeLargest(n - 40);
      TakeLargest(n - 60);
    }
    if v <= 5 && m >= 20 {
      var r := if m == 100 then n - 80 else n;
      TakeLargest(r);
      if v == 5 { TakeLargest(r - 10); }
    } else if v == 10 && m == 100 {
      TakeLargest(n - 80);
    }
  }

  // The exchange argument in one step: one more note never makes the greedy count grow by more
  // than one.
  lemma {:induction false} OneMoreNote(n: nat, v: nat)
    requires IsNote(v)
    ensures Notes(n + v) <= Notes(n) + 1
  {
    hide GetResult;
    TakeLargest(n + v);
    var m := Largest(n + v);
    if n >= 1 { TakeLargest(n); }
    if n >= m {
      OneMoreNote(n - m, v);
    } else if v < m {
      NearTheTop(n, m, v);
    }
  }

  lemma {:induction false} NoBundleIsSmaller(notes: seq<nat>)
    requires IsBundle(notes)
    ensures Notes(Total(notes)) <= |notes|
  {
    if notes != [] {
      NoBundleIsSmaller(notes[1..]);
      OneMoreNote(Total(notes[1..]), notes[0]);
    }
  }

  // The greedy bundle itself.
  lemma {:induction false} SomeBundleFits(n: nat) returns (notes: seq<nat>)
    requires n >= 1
    ensures IsBundle(notes) && Total(notes) == n && |notes| == GetResult(n)
  {
    if n == 100 || n == 20 || n == 10 || n == 5 || n == 1 {
      assert Total([n]) == n + Total([]);
      return [n];
    }
    var v := if n > 100 then 100 else if n > 20 then 20 else if n > 10 then 10 else if n > 5 then 5 else 1;
    var rest := SomeBundleFits(n - v);
    notes := [v] + rest;
    assert notes[1..] == rest;
  }

  // getResult(n) is the least size of a bundle worth n.
  lemma GreedyIsOptimal(n: nat)
    requires n >= 1
    ensures exists notes :: IsBundle(notes) && Total(notes) == n && |notes| == GetResult(n)
    ensures forall notes: seq<nat> ::
      (forall i :: 0 <= i < |notes| ==> notes[i] in {1, 5, 10, 20, 100}) && Total(notes) == n ==>
      GetResult(n) <= |notes|
    ensures forall notes :: IsBundle(notes) && Total(notes) == n ==> GetResult(n) <= |notes|
  {
    var best := SomeBundleFits(n);
    forall notes | IsBundle(notes) && Total(notes) == n ensures GetResult(n) <= |notes| {
      NoBundleIsSmaller(notes);
    }
  }
}
