/** The leaf chain of the B+ tree is the list of its leaves in order: what RangeSearch rests on,
    and more than ValidateLeafChain checks. */
module BPlusChain {
  import opened BPlusNodes

  // The leaves below a node, left to right, by descent through the children.
  ghost function Leaves(st: Store, s: Shape, top: Id, id: Id): seq<Id>
    requires Linked(st, s, top) && id in s
    decreases s[id].level, 1, 0
  {
    assert NodeOk(st, s, id, st[id], s[id]);
    if st[id].Leaf? then [id] else LeavesOf(st, s, top, id, |st[id].children|)
  }

  // The leaves below the first n children of a node.
  ghost function LeavesOf(st: Store, s: Shape, top: Id, id: Id, n: nat): seq<Id>
    requires Linked(st, s, top) && id in s && st[id].Internal? && n <= |st[id].children|
    decreases s[id].level, 0, n
  {
    if n == 0 then [] else
      assert NodeOk(st, s, id, st[id], s[id]);
      assert ChildOk(st, s, id, st[id], s[id], n - 1);
      LeavesOf(st, s, top, id, n - 1) + Leaves(st, s, top, st[id].children[n - 1])
  }

  // The windows of the leaves in run follow one another without a gap, from lo to hi.
  ghost predicate Tiles(st: Store, s: Shape, run: seq<Id>, lo: Bound, hi: Bound) {
    && run != []
    && (forall i :: 0 <= i < |run| ==> run[i] in st && run[i] in s && st[run[i]].Leaf? && s[run[i]].level == 0)
    && s[run[0]].lo == lo && s[run[|run| - 1]].hi == hi
    && (forall i :: 0 <= i < |run| - 1 ==> s[run[i]].hi == s[run[i + 1]].lo && s[run[i]].hi.At?)
  }

  lemma TilesConcat(st: Store, s: Shape, a: seq<Id>, b: seq<Id>, lo: Bound, mid: Bound, hi: Bound)
    requires Tiles(st, s, a, lo, mid) && Tiles(st, s, b, mid, hi) && mid.At?
    ensures Tiles(st, s, a + b, lo, hi)
  {
    var c := a + b;
    forall i | 0 <= i < |c| - 1 ensures s[c[i]].hi == s[c[i + 1]].lo && s[c[i]].hi.At? {
      if i >= |a| { assert c[i] == b[i - |a|] && c[i + 1] == b[i + 1 - |a|]; }
    }
  }

  lemma {:induction false} LeavesTile(st: Store, s: Shape, top: Id, id: Id)
    requires Linked(st, s, top) && id in s
    ensures Tiles(st, s, Leaves(st, s, top, id), s[id].lo, s[id].hi)
    decreases s[id].level, 1, 0
  {
    assert NodeOk(st, s, id, st[id], s[id]);
    if st[id].Internal? {
      LeavesOfTile(st, s, top, id, |st[id].children|);
    }
  }

  lemma {:induction false} LeavesOfTile(st: Store, s: Shape, top: Id, id: Id, n: nat)
    requires Linked(st, s, top) && id in s && st[id].Internal? && 0 < n <= |st[id].children|
    requires NodeOk(st, s, id, st[id], s[id])
    ensures Tiles(st, s, LeavesOf(st, s, top, id, n), s[id].lo, ChildPlace(st[id], s[id], n - 1).hi)
    decreases s[id].level, 0, n
  {
    assert ChildOk(st, s, id, st[id], s[id], n - 1);
    var c := st[id].children[n - 1];
    LeavesTile(st, s, top, c);
    if n > 1 {
      LeavesOfTile(st, s, top, id, n - 1);
      TilesConcat(st, s, LeavesOf(st, s, top, id, n - 1), Leaves(st, s, top, c),
                  s[id].lo, s[c].lo, s[c].hi);
    } else {
      assert LeavesOf(st, s, top, id, n - 1) == [];
      assert LeavesOf(st, s, top, id, n) == Leaves(st, s, top, c);
    }
  }

  // A run of tiles has one for every key of its window.
  lemma {:induction false} TileFor(st: Store, s: Shape, run: seq<Id>, lo: Bound, hi: Bound, k: int) returns (i: nat)
    requires Tiles(st, s, run, lo, hi) && Within(Place(lo, hi, 0), k)
    ensures i < |run| && Within(s[run[i]], k)
  {
    i := 0;
    while s[run[i]].hi.At? && s[run[i]].hi.key <= k
      invariant i < |run| && (s[run[i]].lo.At? ==> s[run[i]].lo.key <= k)
      decreases |run| - i
    {
      assert i < |run| - 1;
      i := i + 1;
    }
  }

  // ---------------------------------------------------------------- the theorem

  // run is what a walk along next yields, and previous leads back.
  ghost predicate IsChain(st: Store, run: seq<Id>) {
    && run != []
    && (forall i :: 0 <= i < |run| ==> run[i] in st && st[run[i]].Leaf?)
    && st[run[0]].previous == NULL
    && st[run[|run| - 1]].next == NULL
    && (forall i :: 0 <= i < |run| - 1 ==> st[run[i]].next == run[i + 1] && st[run[i + 1]].previous == run[i])
  }

  ghost function SomeKeyOf(p: Place): int {
    if p.lo.At? then p.lo.key else if p.hi.At? then p.hi.key - 1 else 0
  }

  lemma TilesAreChained(st: Store, s: Shape, root: Id, run: seq<Id>, m: Contents)
    requires TreeOk(st, s, root, m) && Tiles(st, s, run, Open, Open)
    ensures IsChain(st, run)
  {
    forall i | 0 <= i < |run| - 1 ensures st[run[i]].next == run[i + 1] && st[run[i + 1]].previous == run[i] {
      TileIsNext(st, s, root, run[i], run[i + 1], m);
    }
    assert NextOk(st, s, run[|run| - 1], st[run[|run| - 1]], s[run[|run| - 1]]);
    assert PreviousOk(st, s, run[0], st[run[0]], s[run[0]]);
  }

  lemma TileIsNext(st: Store, s: Shape, root: Id, a: Id, b: Id, m: Contents)
    requires TreeOk(st, s, root, m) && a in st && b in st && st[a].Leaf? && st[b].Leaf?
    requires s[a].hi == s[b].lo && s[a].hi.At?
    ensures st[a].next == b && st[b].previous == a
  {
    var n := st[a].next;
    assert NextOk(st, s, a, st[a], s[a]);
    assert Tight(st[b], s[b]) && Tight(st[n], s[n]);
    assert NodeOk(st, s, n, st[n], s[n]) && NodeOk(st, s, b, st[b], s[b]);
    SameLevelDisjoint(st, s, root, n, b, s[b].lo.key);
  }

  // The chain holds every leaf of the store, once, in the order of the tree.
  lemma ChainIsInOrderLeaves(st: Store, s: Shape, root: Id, m: Contents) returns (run: seq<Id>)
    requires TreeOk(st, s, root, m)
    ensures Linked(st, s, root) && run == Leaves(st, s, root, root)
    ensures IsChain(st, run) && Tiles(st, s, run, Open, Open)
    ensures forall id :: id in st && st[id].Leaf? ==> id in run
    ensures forall i, j :: 0 <= i < j < |run| ==> run[i] != run[j]
  {
    assert ParentOk(st, s, root, root);
    TreeIsLinked(st, s, root);
    run := Leaves(st, s, root, root);
    LeavesTile(st, s, root, root);
    TilesAreChained(st, s, root, run, m);
    forall id | id in st && st[id].Leaf? ensures id in run {
      assert NodeOk(st, s, id, st[id], s[id]) && Tight(st[id], s[id]);
      var i := TileFor(st, s, run, Open, Open, SomeKeyOf(s[id]));
      LevelDisjoint(st, s, root, id, run[i], SomeKeyOf(s[id]));
    }
    TilesDistinct(st, s, run, m);
  }

  lemma TilesDistinct(st: Store, s: Shape, run: seq<Id>, m: Contents)
    requires s.Keys == st.Keys && Nodes(st, s) && Tiles(st, s, run, Open, Open)
    ensures forall i, j :: 0 <= i < j < |run| ==> run[i] != run[j]
  {
    forall i, j | 0 <= i < j < |run| ensures run[i] != run[j] {
      TilesAscend(st, s, run, i, j);
      assert Tight(st[run[i]], s[run[i]]);
    }
  }

  lemma {:induction false} TilesAscend(st: Store, s: Shape, run: seq<Id>, i: nat, j: nat)
    requires s.Keys == st.Keys && Nodes(st, s) && Tiles(st, s, run, Open, Open) && i < j < |run|
    ensures s[run[i]].hi.At? && s[run[j]].lo.At? && s[run[i]].hi.key <= s[run[j]].lo.key
    decreases j - i
  {
    if i + 1 < j {
      TilesAscend(st, s, run, i, j - 1);
      assert Tight(st[run[j - 1]], s[run[j - 1]]);
      assert s[run[j - 1]].hi == s[run[j]].lo;
    }
  }
}
