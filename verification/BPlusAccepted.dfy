/** What Validate guarantees of the heaps it accepts, however they were built (BPlusTree.hpp, Validation
    Helpers), and what it does not. */
module BPlusAccepted {
  import opened BPlusNodes
  import opened BPlusSearch
  import opened BPlusChain
  import opened BPlusValidate

  // ---------------------------------------------------------------- searching an accepted heap

  // The ghost shape of an accepted heap is the set of nodes below the root, and the search is right on it.
  lemma AcceptedHeapIsSearchable(order: nat, st: Store, root: Id, size: nat, s: Shape, run: seq<Id>)
    requires Accepted(order, st, root, size, s, run)
    ensures Searchable(st, root, s)
    ensures forall id :: id in s <==> Reaches(st, root, id)
    ensures forall key :: key in KeysOf(st, s) <==> HeldBelow(st, root, key)
  {
    forall id ensures id in s <==> Reaches(st, root, id) { ShapeIsWhatRootReaches(st, s, root, id); }
    forall key ensures key in KeysOf(st, s) <==> HeldBelow(st, root, key) { KeysOfIsHeldBelow(st, s, root, key); }
  }

  // ---------------------------------------------------------------- an accepted heap in plain terms

  // Every node below the root: keys ascend, and it is at least half full, but for the root, and at most full; a leaf
  // has a non-empty list for every key, and the children of an internal node know it as their parent.
  lemma AcceptedNode(order: nat, st: Store, root: Id, size: nat, s: Shape, run: seq<Id>, id: Id)
    requires order >= 3 && Accepted(order, st, root, size, s, run) && Reaches(st, root, id)
    ensures id in st && st[root].parent == NULL
    ensures var n := st[id];
      && (forall i, j :: 0 <= i < j < |n.keys| ==> n.keys[i] < n.keys[j]) && |n.keys| <= order - 1
      && (n.Leaf? ==> |n.values| == |n.keys| && forall i :: 0 <= i < |n.values| ==> n.values[i] != [])
      && (n.Leaf? && id != root ==> 2 * |n.keys| >= order - 1)
      && (n.Internal? ==> |n.children| == |n.keys| + 1 >= 2 && (id != root ==> 2 * |n.children| >= order))
      && (n.Internal? ==> forall c :: c in n.children ==> c in st && st[c].parent == id)
  {
    ShapeIsWhatRootReaches(st, s, root, id);
    assert NodeOk(st, s, id, st[id], s[id]) && CheckedFill(order, root, id, st[id]);
    if st[id].Internal? { ChildLinks(st, s, id, st[id], s[id]); }
  }

  // All keys below a child, of inner nodes and leaves alike, lie between the separators on either side of it.
  lemma AcceptedKeysBetween(order: nat, st: Store, root: Id, size: nat, s: Shape, run: seq<Id>,
                            id: Id, i: nat, below: Id, key: int)
    requires order >= 3 && Accepted(order, st, root, size, s, run) && Reaches(st, root, id)
    requires id in st && st[id].Internal? && i < |st[id].children| == |st[id].keys| + 1
    requires below in st && Reaches(st, st[id].children[i], below) && key in st[below].keys
    ensures (i > 0 ==> st[id].keys[i - 1] <= key) && (i < |st[id].keys| ==> key < st[id].keys[i])
  {
    ShapeIsWhatRootReaches(st, s, root, id);
    assert NodeOk(st, s, id, st[id], s[id]) && ChildOk(st, s, id, st[id], s[id], i);
    var child := st[id].children[i];
    var path :| PathTo(st, child, path, below);
    PathNarrows(st, s, root, child, path, key);
  }

  lemma {:induction false} PathNarrows(st: Store, s: Shape, root: Id, top: Id, path: seq<Id>, key: int)
    requires Linked(st, s, root) && top in s && Path(st, top, path)
    requires path[|path| - 1] in st && key in st[path[|path| - 1]].keys
    ensures Within(s[top], key)
    decreases |path|
  {
    assert NodeOk(st, s, top, st[top], s[top]);
    if |path| == 1 {
      var i :| 0 <= i < |st[top].keys| && st[top].keys[i] == key;
      assert Within(s[top], st[top].keys[i]);
    } else {
      assert IsChild(st, path[0], path[1]);
      var i :| 0 <= i < |st[top].children| && st[top].children[i] == path[1];
      assert ChildOk(st, s, top, st[top], s[top], i);
      PathBelow(st, top, path);
      PathNarrows(st, s, root, path[1], path[1..], key);
      ChildWithin(st, s, top, i, key);
    }
  }

  lemma PathBelow(st: Store, top: Id, path: seq<Id>)
    requires Path(st, top, path) && |path| > 1
    ensures Path(st, path[1], path[1..])
  {
    assert IsChild(st, path[0], path[1]);
    forall i | 0 <= i < |path[1..]| - 1 ensures IsChild(st, path[1..][i], path[1..][i + 1]) {
      assert IsChild(st, path[i + 1], path[i + 2]);
    }
  }

  // All leaves lie equally deep.
  ghost predicate EvenlyDeep(st: Store, root: Id) {
    exists depth: nat :: LeavesAt(st, root, depth)
  }

  ghost predicate LeavesAt(st: Store, root: Id, depth: nat) {
    forall path, leaf :: PathTo(st, root, path, leaf) && st[leaf].Leaf? ==> |path| == depth
  }

  // Every node that the root reaches has at most order - 1 keys, and every one but the root is half full.
  ghost predicate HalfFull(order: nat, st: Store, root: Id) {
    forall id :: Reaches(st, root, id) ==>
      && id in st && |st[id].keys| <= order - 1
      && (st[id].Leaf? && id != root ==> 2 * |st[id].keys| >= order - 1)
      && (st[id].Internal? ==> |st[id].children| >= 2 && (id != root ==> 2 * |st[id].children| >= order))
  }

  lemma LeafDepth(st: Store, root: Id, s: Shape, path: seq<Id>, leaf: Id)
    requires Linked(st, s, root) && PathTo(st, root, path, leaf) && st[leaf].Leaf?
    ensures |path| == s[root].level + 1
  {
    PathStaysInTree(st, s, root, path);
    assert NodeOk(st, s, leaf, st[leaf], s[leaf]);
  }

  lemma AcceptedEvenly(order: nat, st: Store, root: Id, size: nat, s: Shape, run: seq<Id>)
    requires order >= 3 && Accepted(order, st, root, size, s, run)
    ensures EvenlyDeep(st, root)
  {
    hide Path, KeysOf;
    forall path, leaf | PathTo(st, root, path, leaf) && st[leaf].Leaf? ensures |path| == s[root].level + 1 {
      LeafDepth(st, root, s, path, leaf);
    }
    assert LeavesAt(st, root, s[root].level + 1);
  }

  lemma AcceptedHalfFull(order: nat, st: Store, root: Id, size: nat, s: Shape, run: seq<Id>)
    requires order >= 3 && Accepted(order, st, root, size, s, run)
    ensures HalfFull(order, st, root)
  {
    hide Reaches, Accepted;
    forall id | Reaches(st, root, id)
      ensures id in st && |st[id].keys| <= order - 1
      ensures st[id].Leaf? && id != root ==> 2 * |st[id].keys| >= order - 1
      ensures st[id].Internal? ==> |st[id].children| >= 2 && (id != root ==> 2 * |st[id].children| >= order)
    {
      AcceptedNode(order, st, root, size, s, run, id);
    }
  }

  // As many keys are held below the root as size says.
  ghost predicate KeysCounted(st: Store, root: Id, size: nat) {
    exists keys: set<int> :: |keys| == size && forall key :: key in keys <==> HeldBelow(st, root, key)
  }

  lemma AcceptedCounts(order: nat, st: Store, root: Id, size: nat, s: Shape, run: seq<Id>)
    requires Accepted(order, st, root, size, s, run)
    ensures KeysCounted(st, root, size)
  {
    AcceptedHeapIsSearchable(order, st, root, size, s, run);
    hide HeldBelow, Linked, Checked;
    var keys := KeysOf(st, s);
  }

  // What a true answer of Validate is worth, on any typed heap.
  method ValidateChecksNodes(order: nat, st: Store, root: Id, size: nat) returns (valid: bool)
    requires order >= 3 && Typed(st) && root in st
    ensures valid ==> HalfFull(order, st, root) && EvenlyDeep(st, root) && KeysCounted(st, root, size)
  {
    hide HalfFull, EvenlyDeep, KeysCounted, Accepted;
    ghost var s, run;
    valid, s, run := Validate(order, st, root, size, map[], []);
    if valid {
      AcceptedHalfFull(order, st, root, size, s, run);
      AcceptedEvenly(order, st, root, size, s, run);
      AcceptedCounts(order, st, root, size, s, run);
    }
  }

  // ---------------------------------------------------------------- validate, then search

  // If Validate says yes, a search finds a key exactly when some leaf below the root holds it: nothing else is
  // known of the heap, nor of how it came about.
  method ValidateThenLookup(order: nat, st: Store, root: Id, size: nat, key: int) returns (valid: bool, found: bool)
    requires order >= 3 && Typed(st) && (root == NULL || root in st)
    ensures valid && root != NULL ==> found == HeldBelow(st, root, key)
    ensures valid && root == NULL ==> !found
  {
    ghost var s, run;
    valid, s, run := Validate(order, st, root, size, map[], []);
    found := false;
    if valid {
      if root != NULL { AcceptedHeapIsSearchable(order, st, root, size, s, run); }
      var leaf, index;
      found, leaf, index := Lookup(st, root, key, s);
    }
  }

  // ---------------------------------------------------------------- the leaves of a checked tree

  ghost predicate LeavesHaveKeys(st: Store, root: Id, s: Shape)
    requires s.Keys <= st.Keys
  {
    forall id :: id in s && id != root && st[id].Leaf? ==> st[id].keys != []
  }

  lemma CheckedLeavesHaveKeys(order: nat, st: Store, root: Id, s: Shape)
    requires order >= 3 && Checked(order, st, root, s, root)
    ensures LeavesHaveKeys(st, root, s)
  {
    forall id | id in s && id != root && st[id].Leaf? ensures st[id].keys != [] {
      assert CheckedFill(order, root, id, st[id]);
    }
  }

  // A key of the window of a leaf that is not the root.
  lemma KeyOfLeaf(st: Store, root: Id, s: Shape, id: Id) returns (k: int)
    requires Searchable(st, root, s) && LeavesHaveKeys(st, root, s)
    requires id in s && id != root && st[id].Leaf?
    ensures k == st[id].keys[0] && Within(s[id], k)
  {
    assert NodeOk(st, s, id, st[id], s[id]);
    k := st[id].keys[0];
  }

  // Leaves with adjacent windows from end to end are all the leaves there are.
  lemma TilesHaveEveryLeaf(st: Store, root: Id, s: Shape, run: seq<Id>, id: Id) returns (p: nat)
    requires Searchable(st, root, s) && LeavesHaveKeys(st, root, s) && Tiles(st, s, run, Open, Open)
    requires id in s && st[id].Leaf?
    ensures p < |run| && run[p] == id
  {
    assert NodeOk(st, s, id, st[id], s[id]);
    var k := 0;
    if id != root { k := KeyOfLeaf(st, root, s, id); }
    p := TileFor(st, s, run, Open, Open, k);
    LevelDisjoint(st, s, root, run[p], id, k);
  }

  lemma {:induction false} TilesApart(st: Store, root: Id, s: Shape, run: seq<Id>, i: nat, j: nat)
    requires Searchable(st, root, s) && LeavesHaveKeys(st, root, s) && Tiles(st, s, run, Open, Open)
    requires i < j < |run|
    ensures s[run[i]].hi.At? && s[run[j]].lo.At? && s[run[i]].hi.key <= s[run[j]].lo.key
    decreases j - i
  {
    assert s[run[j - 1]].hi == s[run[j]].lo;
    if i + 1 < j {
      TilesApart(st, root, s, run, i, j - 1);
      var k := KeyOfLeaf(st, root, s, run[j - 1]);
    }
  }

  // There is only one way to tile.
  lemma {:induction false} SameTile(st: Store, root: Id, s: Shape, a: seq<Id>, b: seq<Id>, i: nat)
    requires Searchable(st, root, s) && LeavesHaveKeys(st, root, s)
    requires Tiles(st, s, a, Open, Open) && Tiles(st, s, b, Open, Open) && i < |a| && i < |b|
    ensures a[i] == b[i]
    decreases i
  {
    if i == 0 {
      FirstLeafUnique(st, root, s, a[0], b[0]);
    } else {
      SameTile(st, root, s, a, b, i - 1);
      assert s[a[i - 1]].hi == s[a[i]].lo && s[b[i - 1]].hi == s[b[i]].lo;
      var k := KeyOfLeaf(st, root, s, a[i]);
      var l := KeyOfLeaf(st, root, s, b[i]);
      LevelDisjoint(st, s, root, a[i], b[i], s[a[i]].lo.key);
    }
  }

  lemma SameTiles(st: Store, root: Id, s: Shape, a: seq<Id>, b: seq<Id>)
    requires Searchable(st, root, s) && LeavesHaveKeys(st, root, s)
    requires Tiles(st, s, a, Open, Open) && Tiles(st, s, b, Open, Open)
    ensures a == b
  {
    var n := if |a| <= |b| then |a| else |b|;
    SameTile(st, root, s, a, b, n - 1);
    forall i | 0 <= i < n ensures a[i] == b[i] { SameTile(st, root, s, a, b, i); }
  }

  // ---------------------------------------------------------------- the accepted chain

  lemma FirstAndLastKey(st: Store, root: Id, s: Shape, id: Id)
    requires Searchable(st, root, s) && id in s && st[id].keys != []
    ensures var keys := st[id].keys;
      Within(s[id], keys[0]) && Within(s[id], keys[|keys| - 1]) && keys[0] <= keys[|keys| - 1]
  {
    assert NodeOk(st, s, id, st[id], s[id]);
  }

  // Along an accepted chain the keys ascend, so inside the tree it only goes to the right.
  lemma ChainGoesRight(st: Store, root: Id, s: Shape, leaves: seq<Id>, a: Id, b: Id, p: nat, q: nat)
    requires Searchable(st, root, s) && LeavesHaveKeys(st, root, s) && Tiles(st, s, leaves, Open, Open)
    requires p < |leaves| && q < |leaves| && leaves[p] == a && leaves[q] == b && ChainLink(st, a, b)
    ensures p < q
  {
    assert a in s && b in s;
    hide Tiles, LeavesHaveKeys;
    FirstAndLastKey(st, root, s, a);
    FirstAndLastKey(st, root, s, b);
    hide Searchable;
    if q < p { TilesApart(st, root, s, leaves, q, p); }
  }

  lemma {:induction false} PositionFromLeft(st: Store, root: Id, s: Shape, leaves: seq<Id>, run: seq<Id>, i: nat)
      returns (p: nat)
    requires Searchable(st, root, s) && LeavesHaveKeys(st, root, s) && Tiles(st, s, leaves, Open, Open)
    requires FullChain(st, run) && (forall id :: id in run ==> id in s) && i < |run|
    ensures i <= p < |leaves| && leaves[p] == run[i]
    decreases i
  {
    p := TilesHaveEveryLeaf(st, root, s, leaves, run[i]);
    if i > 0 {
      var o := PositionFromLeft(st, root, s, leaves, run, i - 1);
      assert ChainLink(st, run[i - 1], run[i]);
      ChainGoesRight(st, root, s, leaves, run[i - 1], run[i], o, p);
    }
  }

  lemma {:induction false} PositionFromRight(st: Store, root: Id, s: Shape, leaves: seq<Id>, run: seq<Id>, i: nat)
      returns (p: nat)
    requires Searchable(st, root, s) && LeavesHaveKeys(st, root, s) && Tiles(st, s, leaves, Open, Open)
    requires FullChain(st, run) && (forall id :: id in run ==> id in s) && i < |run|
    ensures p < |leaves| && p + |run| <= |leaves| + i && leaves[p] == run[i]
    decreases |run| - i
  {
    p := TilesHaveEveryLeaf(st, root, s, leaves, run[i]);
    if i + 1 < |run| {
      var o := PositionFromRight(st, root, s, leaves, run, i + 1);
      assert ChainLink(st, run[i], run[i + 1]);
      ChainGoesRight(st, root, s, leaves, run[i], run[i + 1], p, o);
    }
  }

  lemma TilePositionUnique(st: Store, root: Id, s: Shape, run: seq<Id>, p: nat, q: nat)
    requires Searchable(st, root, s) && LeavesHaveKeys(st, root, s) && Tiles(st, s, run, Open, Open)
    requires p < |run| && q < |run| && run[p] == run[q]
    ensures p == q
  {
    if p < q && run[p] != root {
      TilesApart(st, root, s, run, p, q);
      var k := KeyOfLeaf(st, root, s, run[p]);
    } else if q < p && run[p] != root {
      TilesApart(st, root, s, run, q, p);
      var k := KeyOfLeaf(st, root, s, run[p]);
    }
  }

  lemma ChainInTreeIsLeaves(st: Store, root: Id, s: Shape, leaves: seq<Id>, run: seq<Id>)
    requires Searchable(st, root, s) && LeavesHaveKeys(st, root, s) && Tiles(st, s, leaves, Open, Open)
    requires FullChain(st, run) && (forall id :: id in run ==> id in s) && |run| == |leaves|
    ensures run == leaves
  {
    hide Searchable, LeavesHaveKeys, Tiles, FullChain;
    forall i | 0 <= i < |run| ensures run[i] == leaves[i] {
      var p := PositionFromLeft(st, root, s, leaves, run, i);
      var q := PositionFromRight(st, root, s, leaves, run, i);
      TilePositionUnique(st, root, s, leaves, p, q);
    }
  }

  // Validate accepts a chain that is not the list of the leaves.  It is that list exactly when it stays in
  // the tree and is as long: counting the leaves would be check enough.
  lemma ChainIsLeavesIff(order: nat, st: Store, root: Id, size: nat, s: Shape, run: seq<Id>)
    requires order >= 3 && Accepted(order, st, root, size, s, run)
    ensures var leaves := Leaves(st, s, root, root);
      run == leaves <==> (forall id :: id in run ==> id in s) && |run| == |leaves|
  {
    var leaves := Leaves(st, s, root, root);
    CheckedLeavesHaveKeys(order, st, root, s);
    LeavesTile(st, s, root, root);
    assert forall i :: 0 <= i < |leaves| ==> leaves[i] in s;
    hide Leaves, Tiles, LeavesHaveKeys, KeysOf, FullChain, Linked;
    if (forall id :: id in run ==> id in s) && |run| == |leaves| { ChainInTreeIsLeaves(st, root, s, leaves, run); }
  }

  // A chain that stays in the tree is never longer than the list of the leaves.
  lemma ChainInTreeIsNoLonger(order: nat, st: Store, root: Id, size: nat, s: Shape, run: seq<Id>)
    requires order >= 3 && Accepted(order, st, root, size, s, run) && forall id :: id in run ==> id in s
    ensures |run| <= |Leaves(st, s, root, root)|
  {
    CheckedLeavesHaveKeys(order, st, root, s);
    LeavesTile(st, s, root, root);
    var p := PositionFromLeft(st, root, s, Leaves(st, s, root, root), run, |run| - 1);
  }

  // The same in terms of windows: each leaf of the chain begins where the one before ends.
  lemma ChainIsLeavesIffTiles(order: nat, st: Store, root: Id, size: nat, s: Shape, run: seq<Id>)
    requires order >= 3 && Accepted(order, st, root, size, s, run)
    ensures run == Leaves(st, s, root, root) <==> Tiles(st, s, run, Open, Open)
  {
    CheckedLeavesHaveKeys(order, st, root, s);
    LeavesTile(st, s, root, root);
    if Tiles(st, s, run, Open, Open) { SameTiles(st, root, s, run, Leaves(st, s, root, root)); }
  }

  // ---------------------------------------------------------------- heaps whose chain is not the leaves

  // The chain of this tree goes from the first leaf to the third.
  function SkippingHeap(): Store {
    map[1 := Internal([10, 20], [2, 3, 4], NULL),
        2 := Leaf([1], [[RecordID(0)]], 1, 4, NULL),
        3 := Leaf([10], [[RecordID(0)]], 1, NULL, NULL),
        4 := Leaf([20], [[RecordID(0)]], 1, NULL, 2)]
  }

  function SkippingShape(): Shape {
    map[1 := Place(Open, Open, 1), 2 := Place(Open, At(10), 0),
        3 := Place(At(10), At(20), 0), 4 := Place(At(20), Open, 0)]
  }

  lemma SkippingHeapNodes(id: Id)
    requires id in SkippingShape()
    ensures id in SkippingHeap() && var st, s := SkippingHeap(), SkippingShape();
            NodeOk(st, s, id, st[id], s[id]) && CheckedFill(3, 1, id, st[id])
  {
    var st, s := SkippingHeap(), SkippingShape();
    if id == 1 {
      assert ChildOk(st, s, 1, st[1], s[1], 0) && ChildOk(st, s, 1, st[1], s[1], 1)
        && ChildOk(st, s, 1, st[1], s[1], 2);
    }
  }

  lemma SkippingHeapHangs(id: Id)
    requires id in {2, 3, 4}
    ensures Hangs(SkippingHeap(), SkippingShape(), 1, id)
  {
    assert SkippingHeap()[1].children[id - 2] == id;
  }

  lemma SkippingHeapChecked()
    ensures Checked(3, SkippingHeap(), 1, SkippingShape(), 1)
  {
    forall id | id in SkippingShape()
      ensures var st, s := SkippingHeap(), SkippingShape();
        id in st && NodeOk(st, s, id, st[id], s[id]) && CheckedFill(3, 1, id, st[id])
        && (id != 1 ==> Hangs(st, s, 1, id))
    {
      hide NodeOk, CheckedFill, Hangs;
      SkippingHeapNodes(id);
      if id != 1 { SkippingHeapHangs(id); }
    }
    hide NodeOk, CheckedFill, Hangs;
  }

  lemma SkippingHeapKeys()
    ensures SkippingShape().Keys <= SkippingHeap().Keys && |KeysOf(SkippingHeap(), SkippingShape())| == 3
  {
    var st, s := SkippingHeap(), SkippingShape();
    assert st[2].keys == [1] && st[3].keys == [10] && st[4].keys == [20];
    assert 2 in s && 1 in st[2].keys && 3 in s && 10 in st[3].keys && 4 in s && 20 in st[4].keys;
    forall k | k in KeysOf(st, s) ensures k in {1, 10, 20} {
      var id :| id in s && st[id].Leaf? && k in st[id].keys;
    }
    assert KeysOf(st, s) == {1, 10, 20};
  }

  lemma AcceptedChainMaySkipALeaf()
    ensures Accepted(3, SkippingHeap(), 1, 3, SkippingShape(), [2, 4])
    ensures 3 in SkippingShape() && SkippingHeap()[3].Leaf? && 3 !in [2, 4]
  {
    SkippingHeapChecked();
    SkippingHeapKeys();
    hide Checked, KeysOf;
  }

  // The chain of this one goes on to a leaf that is not in the tree.
  function StrayingHeap(): Store {
    map[2 := Leaf([1], [[RecordID(0)]], NULL, 9, NULL), 9 := Leaf([5], [[RecordID(0)]], NULL, NULL, 2)]
  }

  lemma AcceptedChainMayLeaveTheTree()
    ensures Accepted(3, StrayingHeap(), 2, 1, map[2 := Place(Open, Open, 0)], [2, 9])
    ensures 9 !in map[2 := Place(Open, Open, 0)]
  {
    var st, s := StrayingHeap(), map[2 := Place(Open, Open, 0)];
    assert NodeOk(st, s, 2, st[2], s[2]);
    assert KeysOf(st, s) == {1} by {
      assert st[2].keys == [1] && 2 in s && 1 in st[2].keys;
    }
    assert ChainLink(st, 2, 9);
  }
}
