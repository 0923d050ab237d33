/** Why borrowing, merging and shrinking keep the tree (BPlusTree.hpp, Delete Helpers).

    A borrow is a merge undone at another place: fuse the two siblings, then cut the result where
    the borrowed key has changed sides.  So only merging needs an argument of its own. */
module BPlusDelete {
  import opened BPlusNodes
  import opened BPlusInsert

  // ---------------------------------------------------------------- MergeNodes

  function WithoutChild(p: Node, j: nat): Node
    requires p.Internal? && j < |p.keys| && j + 1 < |p.children|
  {
    p.(keys := p.keys[..j] + p.keys[j + 1..], children := p.children[..j + 1] + p.children[j + 2..])
  }

  // Children j and j+1 of p become one.
  ghost predicate Pair(st: Store, p: Id, j: nat, a: Id, b: Id) {
    && p in st && a in st && b in st && a != b && a != p && b != p
    && st[p].Internal? && |st[p].children| == |st[p].keys| + 1 && j < |st[p].keys|
    && st[p].children[j] == a && st[p].children[j + 1] == b
    && st[a].parent == p && st[b].parent == p
  }

  ghost predicate MergedLeaf(st: Store, p: Id, j: nat, a: Id, b: Id, st': Store) {
    && Pair(st, p, j, a, b) && st[a].Leaf? && st[b].Leaf?
    && st'.Keys == st.Keys - {b}
    && st'[p] == WithoutChild(st[p], j)
    && st'[a] == st[a].(keys := st[a].keys + st[b].keys, values := st[a].values + st[b].values, next := st[b].next)
    && forall id :: id in st' && id != p && id != a ==>
      st'[id] == if id == st[b].next then Relinked(st[id], a) else st[id]
  }

  ghost predicate MergedInternal(st: Store, p: Id, j: nat, a: Id, b: Id, st': Store) {
    && Pair(st, p, j, a, b) && st[a].Internal? && st[b].Internal?
    && st'.Keys == st.Keys - {b}
    && st'[p] == WithoutChild(st[p], j)
    && st'[a] == st[a].(keys := st[a].keys + [st[p].keys[j]] + st[b].keys,
                        children := st[a].children + st[b].children)
    && forall id :: id in st' && id != p && id != a ==>
      st'[id] == if id in st[b].children then st[id].(parent := a) else st[id]
  }

  ghost predicate Merged(st: Store, p: Id, j: nat, a: Id, b: Id, st': Store) {
    MergedLeaf(st, p, j, a, b, st') || MergedInternal(st, p, j, a, b, st')
  }

  function MergeShape(s: Shape, a: Id, b: Id): Shape
    requires a in s && b in s
  {
    s[a := s[a].(hi := s[b].hi)] - {b}
  }

  // What the places of two neighbours have in common.
  lemma PairPlaces(st: Store, s: Shape, p: Id, j: nat, a: Id, b: Id)
    requires s.Keys == st.Keys && Nodes(st, s) && Pair(st, p, j, a, b)
    ensures s[a].level == s[b].level == s[p].level - 1
    ensures s[a].hi == s[b].lo == At(st[p].keys[j])
    ensures st[a].Leaf? == st[b].Leaf?
  {
    assert NodeOk(st, s, p, st[p], s[p]);
    assert ChildOk(st, s, p, st[p], s[p], j) && ChildOk(st, s, p, st[p], s[p], j + 1);
    assert NodeOk(st, s, a, st[a], s[a]) && NodeOk(st, s, b, st[b], s[b]);
  }

  lemma MergedParent(st: Store, s: Shape, p: Id, j: nat, a: Id, b: Id, st': Store, s': Shape)
    requires s.Keys == st.Keys && Nodes(st, s) && Pair(st, p, j, a, b)
    requires s' == MergeShape(s, a, b)
    requires p in st' && st'[p] == WithoutChild(st[p], j) && s'.Keys == st'.Keys
    requires forall c :: c in st[p].children && c != b ==> c in st' && st'[c].parent == p
    ensures NodeOk(st', s', p, st'[p], s'[p]) && Tight(st'[p], s'[p])
  {
    hide WithoutChild, MergeShape, Tight, KeysOk, InternalOk;
    var n, n', pl := st[p], st'[p], s[p];
    assert NodeOk(st, s, p, n, pl) && Tight(n, pl);
    WithoutChildKeys(n, pl, j);
    MergedChildren(st, s, p, j, a, b, st', s');
    PlacesMerged(s, a, b);
  }

  lemma PlacesMerged(s: Shape, a: Id, b: Id)
    requires a in s && b in s && a != b
    ensures var s' := MergeShape(s, a, b);
      s'.Keys == s.Keys - {b} && s'[a] == s[a].(hi := s[b].hi) && forall c :: c in s' && c != a ==> s'[c] == s[c]
  {
  }

  lemma WithoutChildKeys(n: Node, pl: Place, j: nat)
    requires n.Internal? && j < |n.keys| && j + 1 < |n.children| && KeysOk(n, pl) && Tight(n, pl)
    ensures var n' := WithoutChild(n, j); n'.Internal? && KeysOk(n', pl) && Tight(n', pl)
  {
  }

  lemma MergedChildren(st: Store, s: Shape, p: Id, j: nat, a: Id, b: Id, st': Store, s': Shape)
    requires s.Keys == st.Keys && Nodes(st, s) && Pair(st, p, j, a, b)
    requires s' == MergeShape(s, a, b)
    requires p in st' && st'[p] == WithoutChild(st[p], j) && s'.Keys == st'.Keys
    requires forall c :: c in st[p].children && c != b ==> c in st' && st'[c].parent == p
    ensures InternalOk(st', s', p, st'[p], s[p])
  {
    hide Tight, KeysOk, NodesIn, MergeShape;
    var n, n', pl := st[p], st'[p], s[p];
    NodeAt(st, s, p);
    PairPlaces(st, s, p, j, a, b);
    PlacesMerged(s, a, b);
    forall i | 0 <= i < |n'.children| ensures ChildOk(st', s', p, n', pl, i) {
      var i0 := if i <= j then i else i + 1;
      assert n'.children[i] == n.children[i0];
      assert ChildOk(st, s, p, n, pl, i0) && ChildOk(st, s, p, n, pl, j + 1);
      ChildrenDistinct(st, s, p, n, pl, i0, j + 1);
      if i != j { ChildrenDistinct(st, s, p, n, pl, i0, j); }
    }
  }

  lemma NodeAt(st: Store, s: Shape, id: Id)
    requires s.Keys == st.Keys && Nodes(st, s) && id in st
    ensures NodeOk(st, s, id, st[id], s[id]) && Tight(st[id], s[id])
  {
  }

  lemma MergedStay(st: Store, s: Shape, p: Id, j: nat, a: Id, b: Id, st': Store, s': Shape)
    requires s.Keys == st.Keys && Merged(st, p, j, a, b, st') && s' == MergeShape(s, a, b)
    requires st[b].Internal? ==> forall c :: c in st[b].children ==> c in st && st[c].parent == b
    ensures s'.Keys == st'.Keys && Outside(st, s, st', s', {p, a, b})
    ensures ChildrenStay(st, s, st', s', {p, a, b})
  {
    hide MergedLeaf, MergedInternal, Merged, MergeShape, SameData;
    MergedKept(st, p, j, a, b, st');
    MergeShapePlaces(s, a, b);
  }

  // Other nodes than the three keep their data, and their parent unless it was b.
  ghost predicate Kept(st: Store, p: Id, a: Id, b: Id, st': Store) {
    && a in st && b in st && p in st && a != b && p != b && st'.Keys == st.Keys - {b}
    && st[a].parent == p && st[b].parent == p && st'[p].parent == st[p].parent
    && forall id :: id in st' && id != p && id != a ==>
      SameData(st[id], st'[id]) && (st[id].parent != b ==> st'[id].parent == st[id].parent)
  }

  lemma MergedKept(st: Store, p: Id, j: nat, a: Id, b: Id, st': Store)
    requires Merged(st, p, j, a, b, st')
    requires st[b].Internal? ==> forall c :: c in st[b].children ==> c in st && st[c].parent == b
    ensures Kept(st, p, a, b, st')
  {
    hide Kept;
    if MergedInternal(st, p, j, a, b, st') {
      MergedInternalKept(st, p, j, a, b, st');
    } else {
      MergedLeafKept(st, p, j, a, b, st');
    }
  }

  lemma MergedLeafKept(st: Store, p: Id, j: nat, a: Id, b: Id, st': Store)
    requires MergedLeaf(st, p, j, a, b, st')
    ensures Kept(st, p, a, b, st')
  {
  }

  lemma MergedInternalKept(st: Store, p: Id, j: nat, a: Id, b: Id, st': Store)
    requires MergedInternal(st, p, j, a, b, st')
    requires forall c :: c in st[b].children ==> c in st && st[c].parent == b
    ensures Kept(st, p, a, b, st')
  {
  }

  lemma MergeShapePlaces(s: Shape, a: Id, b: Id)
    requires a in s && b in s
    ensures MergeShape(s, a, b).Keys == s.Keys - {b}
    ensures forall id :: id in s && id != a && id != b ==> MergeShape(s, a, b)[id] == s[id]
  {
  }

  lemma MergedLeafNodes(st: Store, s: Shape, p: Id, j: nat, a: Id, b: Id, st': Store, s': Shape)
    requires s.Keys == st.Keys && Nodes(st, s) && MergedLeaf(st, p, j, a, b, st')
    requires s' == MergeShape(s, a, b)
    ensures s'.Keys == st'.Keys && Nodes(st', s')
  {
    hide NodeOk, Tight, Outside, ChildrenStay;
    MergedStay(st, s, p, j, a, b, st', s');
    PairPlaces(st, s, p, j, a, b);
    MergedLeafOk(st, s, p, j, a, b, st', s');
    assert NodeOk(st, s, p, st[p], s[p]);
    ChildLinks(st, s, p, st[p], s[p]);
    MergedParent(st, s, p, j, a, b, st', s');
    EditNodes(st, s, s, st', s', s', {p, a, b});
  }

  lemma MergedLeafOk(st: Store, s: Shape, p: Id, j: nat, a: Id, b: Id, st': Store, s': Shape)
    requires s.Keys == st.Keys && Nodes(st, s) && MergedLeaf(st, p, j, a, b, st')
    requires s' == MergeShape(s, a, b)
    ensures NodeOk(st', s', a, st'[a], s'[a]) && Tight(st'[a], s'[a])
  {
    PairPlaces(st, s, p, j, a, b);
    assert NodeOk(st, s, a, st[a], s[a]) && Tight(st[a], s[a]);
    assert NodeOk(st, s, b, st[b], s[b]) && Tight(st[b], s[b]);
    MergedLeafNode(st[a], s[a], st[b], s[b], st'[a]);
  }

  lemma MergedLeafNode(a: Node, pa: Place, b: Node, pb: Place, a': Node)
    requires a.Leaf? && KeysOk(a, pa) && LeafOk(a, pa) && Tight(a, pa)
    requires b.Leaf? && KeysOk(b, pb) && LeafOk(b, pb) && Tight(b, pb)
    requires pa.hi.At? && pa.hi == pb.lo
    requires a'.Leaf? && a'.keys == a.keys + b.keys && a'.values == a.values + b.values
    ensures var p := pa.(hi := pb.hi); KeysOk(a', p) && LeafOk(a', p) && Tight(a', p)
  {
    forall x, y | 0 <= x < y < |a'.keys| ensures a'.keys[x] < a'.keys[y] {
      if x < |a.keys| <= y {
        assert Within(pa, a.keys[x]) && Within(pb, b.keys[y - |a.keys|]);
      }
    }
    forall x | 0 <= x < |a'.keys| ensures Within(pa.(hi := pb.hi), a'.keys[x]) {
      if x < |a.keys| { assert Within(pa, a.keys[x]); } else { assert Within(pb, b.keys[x - |a.keys|]); }
    }
  }

  lemma MergedInternalKeys(a: Node, pa: Place, sep: int, b: Node, pb: Place, a': Node)
    requires a.Internal? && KeysOk(a, pa) && Tight(a, pa)
    requires b.Internal? && KeysOk(b, pb) && Tight(b, pb)
    requires pa.hi == At(sep) && pb.lo == At(sep)
    requires a'.Internal? && a'.keys == a.keys + [sep] + b.keys
    ensures var p := pa.(hi := pb.hi); KeysOk(a', p) && Tight(a', p)
  {
    var n := |a.keys|;
    forall x | 0 <= x < |a'.keys| ensures Within(pa.(hi := pb.hi), a'.keys[x]) {
      if x < n { assert Within(pa, a.keys[x]); } else if x > n { assert Within(pb, b.keys[x - n - 1]); }
    }
    forall x, y | 0 <= x < y < |a'.keys| ensures a'.keys[x] < a'.keys[y] {
      if x < n { assert Within(pa, a.keys[x]); }
      if y > n { assert Within(pb, b.keys[y - n - 1]); }
    }
  }

  lemma MergedInternalNode(st: Store, s: Shape, p: Id, j: nat, a: Id, b: Id, st': Store, s': Shape)
    requires s.Keys == st.Keys && Nodes(st, s) && MergedInternal(st, p, j, a, b, st')
    requires s' == MergeShape(s, a, b)
    ensures NodeOk(st', s', a, st'[a], s'[a]) && Tight(st'[a], s'[a])
  {
    PairPlaces(st, s, p, j, a, b);
    assert NodeOk(st, s, a, st[a], s[a]) && Tight(st[a], s[a]);
    assert NodeOk(st, s, b, st[b], s[b]) && Tight(st[b], s[b]);
    MergedInternalKeys(st[a], s[a], st[p].keys[j], st[b], s[b], st'[a]);
    var n := |st[a].children|;
    forall i | 0 <= i < |st'[a].children| ensures ChildOk(st', s', a, st'[a], s'[a], i) {
      if i < n {
        assert st'[a].children[i] == st[a].children[i];
        assert ChildOk(st, s, a, st[a], s[a], i);
      } else {
        assert st'[a].children[i] == st[b].children[i - n];
        assert ChildOk(st, s, b, st[b], s[b], i - n);
      }
    }
  }

  lemma MergedInternalNodes(st: Store, s: Shape, p: Id, j: nat, a: Id, b: Id, st': Store, s': Shape)
    requires s.Keys == st.Keys && Nodes(st, s) && MergedInternal(st, p, j, a, b, st')
    requires s' == MergeShape(s, a, b)
    ensures s'.Keys == st'.Keys && Nodes(st', s')
  {
    hide NodeOk, Tight, Outside, ChildrenStay;
    PairPlaces(st, s, p, j, a, b);
    MergedInternalNode(st, s, p, j, a, b, st', s');
    assert NodeOk(st, s, p, st[p], s[p]) && NodeOk(st, s, b, st[b], s[b]);
    ChildLinks(st, s, p, st[p], s[p]);
    ChildLinks(st, s, b, st[b], s[b]);
    MergedStay(st, s, p, j, a, b, st', s');
    MergedParent(st, s, p, j, a, b, st', s');
    EditNodes(st, s, s, st', s', s', {p, a, b});
  }

  // Who was a child of b is now a child of a; the rest of p's children are still there.
  lemma MergedParentOk(st: Store, s: Shape, root: Id, p: Id, j: nat, a: Id, b: Id, st': Store, s': Shape, id: Id)
    requires Domains(st, s, root) && id in st' && id in st && ParentOk(st, s, root, id) && root != b
    requires MergedLeaf(st, p, j, a, b, st') || MergedInternal(st, p, j, a, b, st')
    requires s' == MergeShape(s, a, b)
    requires st[b].Internal? ==>
      forall c :: c in st[b].children ==> c != p && c != root && c in s && s[c].level == s[a].level - 1
    requires s[a].level <= s[root].level
    ensures ParentOk(st', s', root, id)
  {
    assert a in st && b in st && st[p].children[j + 1] == b;
    WithoutChildKeeps(st[p], j);
    PlacesMerged(s, a, b);
    hide WithoutChild, MergeShape;
  }

  lemma WithoutChildKeeps(n: Node, j: nat)
    requires n.Internal? && j < |n.keys| && j + 1 < |n.children|
    ensures var n' := WithoutChild(n, j);
      n'.Internal? && n'.parent == n.parent
      && forall c :: c in n.children && c != n.children[j + 1] ==> c in n'.children
  {
    var n' := WithoutChild(n, j);
    forall c | c in n.children && c != n.children[j + 1] ensures c in n'.children {
      var i :| 0 <= i < |n.children| && n.children[i] == c;
      assert n'.children[if i <= j then i else i - 1] == c;
    }
  }

  lemma MergedParents(st: Store, s: Shape, root: Id, p: Id, j: nat, a: Id, b: Id, st': Store, s': Shape)
    requires Domains(st, s, root) && Nodes(st, s) && Parents(st, s, root)
    requires MergedLeaf(st, p, j, a, b, st') || MergedInternal(st, p, j, a, b, st')
    requires s' == MergeShape(s, a, b)
    ensures Domains(st', s', root) && Parents(st', s', root)
  {
    PairPlaces(st, s, p, j, a, b);
    assert ParentOk(st, s, root, a) && ParentOk(st, s, root, b);
    assert NodeOk(st, s, b, st[b], s[b]);
    if st[b].Internal? { ChildLinks(st, s, b, st[b], s[b]); }
    forall id | id in st' ensures ParentOk(st', s', root, id) {
      assert ParentOk(st, s, root, id);
      MergedParentOk(st, s, root, p, j, a, b, st', s', id);
    }
  }

  // Neighbours in the tree are neighbours in the chain.
  lemma PairChained(st: Store, s: Shape, root: Id, p: Id, j: nat, a: Id, b: Id)
    requires Domains(st, s, root) && Nodes(st, s) && Parents(st, s, root) && Chain(st, s)
    requires Pair(st, p, j, a, b) && st[a].Leaf?
    ensures st[a].next == b && st[b].Leaf?
  {
    PairPlaces(st, s, p, j, a, b);
    var n := st[a].next;
    assert NextOk(st, s, a, st[a], s[a]);
    assert Tight(st[b], s[b]) && Tight(st[n], s[n]);
    assert NodeOk(st, s, n, st[n], s[n]) && NodeOk(st, s, a, st[a], s[a]);
    SameLevelDisjoint(st, s, root, n, b, st[p].keys[j]);
  }

  lemma MergedLeafChain(st: Store, s: Shape, p: Id, j: nat, a: Id, b: Id, st': Store, s': Shape)
    requires s.Keys == st.Keys && NULL !in st && Chain(st, s)
    requires MergedLeaf(st, p, j, a, b, st') && s' == MergeShape(s, a, b) && st[a].next == b
    requires Tight(st[a], s[a]) && Tight(st[b], s[b]) && s[a].hi == s[b].lo && s[a].hi.At?
    ensures s'.Keys == st'.Keys && Chain(st', s')
  {
    hide NextOk, PreviousOk, Tight, MergedLeaf, MergeShape;
    MergedKeys(st, s, p, j, a, b, st', s');
    assert NextOk(st, s, a, st[a], s[a]) && PreviousOk(st, s, a, st[a], s[a]);
    assert NextOk(st, s, b, st[b], s[b]) && PreviousOk(st, s, b, st[b], s[b]);
    forall id | id in st' && st'[id].Leaf?
      ensures NextOk(st', s', id, st'[id], s'[id]) && PreviousOk(st', s', id, st'[id], s'[id])
    {
      assert id in st && st[id].Leaf?;
      assert NextOk(st, s, id, st[id], s[id]) && PreviousOk(st, s, id, st[id], s[id]);
      MergedNext(st, s, p, j, a, b, st', s', id);
      MergedPrevious(st, s, p, j, a, b, st', s', id);
    }
  }

  lemma MergedKeys(st: Store, s: Shape, p: Id, j: nat, a: Id, b: Id, st': Store, s': Shape)
    requires s.Keys == st.Keys && MergedLeaf(st, p, j, a, b, st') && s' == MergeShape(s, a, b)
    ensures s'.Keys == st'.Keys == st.Keys - {b} && a in st && b in st && st[a].Leaf? && st[b].Leaf?
    ensures forall id :: id in st' ==> st'[id].Leaf? == st[id].Leaf?
  {
  }

  lemma MergedNext(st: Store, s: Shape, p: Id, j: nat, a: Id, b: Id, st': Store, s': Shape, id: Id)
    requires s.Keys == st.Keys && NULL !in st
    requires MergedLeaf(st, p, j, a, b, st') && s' == MergeShape(s, a, b) && st[a].next == b
    requires Tight(st[a], s[a]) && Tight(st[b], s[b]) && s[a].hi == s[b].lo && s[a].hi.At?
    requires id in st' && st'[id].Leaf? && NextOk(st, s, id, st[id], s[id])
    requires NextOk(st, s, a, st[a], s[a]) && NextOk(st, s, b, st[b], s[b])
    ensures NextOk(st', s', id, st'[id], s'[id])
  {
  }

  lemma MergedPrevious(st: Store, s: Shape, p: Id, j: nat, a: Id, b: Id, st': Store, s': Shape, id: Id)
    requires s.Keys == st.Keys && NULL !in st
    requires MergedLeaf(st, p, j, a, b, st') && s' == MergeShape(s, a, b) && st[a].next == b
    requires Tight(st[a], s[a]) && Tight(st[b], s[b]) && s[a].hi == s[b].lo && s[a].hi.At?
    requires id in st' && st'[id].Leaf? && PreviousOk(st, s, id, st[id], s[id])
    requires NextOk(st, s, a, st[a], s[a]) && PreviousOk(st, s, a, st[a], s[a]) && NextOk(st, s, b, st[b], s[b])
    ensures PreviousOk(st', s', id, st'[id], s'[id])
  {
  }

  lemma MergedLeafHolds(st: Store, s: Shape, p: Id, j: nat, a: Id, b: Id, st': Store, s': Shape, m: Contents)
    requires s.Keys == st.Keys && Nodes(st, s) && Holds(st, s, m)
    requires MergedLeaf(st, p, j, a, b, st') && s' == MergeShape(s, a, b)
    ensures s'.Keys == st'.Keys && Holds(st', s', m)
  {
    PairPlaces(st, s, p, j, a, b);
    assert LeafHolds(st[a], s[a], m) && LeafHolds(st[b], s[b], m);
    forall id | id in st' && st'[id].Leaf? ensures LeafHolds(st'[id], s'[id], m) {
      assert LeafHolds(st[id], s[id], m);
      if id == a {
        forall k | k in m && Within(s'[a], k) ensures k in st'[a].keys {
          assert Within(s[a], k) || Within(s[b], k);
        }
      }
    }
  }

  lemma MergedLeafTree(st: Store, s: Shape, root: Id, p: Id, j: nat, a: Id, b: Id, st': Store, s': Shape, m: Contents)
    requires TreeOk(st, s, root, m)
    requires MergedLeaf(st, p, j, a, b, st') && s' == MergeShape(s, a, b)
    ensures TreeOk(st', s', root, m)
  {
    MergedLeafNodes(st, s, p, j, a, b, st', s');
    MergedParents(st, s, root, p, j, a, b, st', s');
    PairPlaces(st, s, p, j, a, b);
    PairChained(st, s, root, p, j, a, b);
    assert Tight(st[a], s[a]) && Tight(st[b], s[b]);
    MergedLeafChain(st, s, p, j, a, b, st', s');
    MergedLeafHolds(st, s, p, j, a, b, st', s', m);
  }

  lemma MergedInternalLeaves(st: Store, s: Shape, p: Id, j: nat, a: Id, b: Id, st': Store, s': Shape, m: Contents)
    requires s.Keys == st.Keys && Chain(st, s) && Holds(st, s, m)
    requires MergedInternal(st, p, j, a, b, st') && s' == MergeShape(s, a, b)
    ensures s'.Keys == st'.Keys && Chain(st', s') && Holds(st', s', m)
  {
    LeavesFrame(st, s, st', s', m);
  }

  lemma MergedInternalTree(st: Store, s: Shape, root: Id, p: Id, j: nat, a: Id, b: Id, st': Store, s': Shape,
                           m: Contents)
    requires TreeOk(st, s, root, m)
    requires MergedInternal(st, p, j, a, b, st') && s' == MergeShape(s, a, b)
    ensures TreeOk(st', s', root, m)
  {
    MergedInternalNodes(st, s, p, j, a, b, st', s');
    MergedParents(st, s, root, p, j, a, b, st', s');
    MergedInternalLeaves(st, s, p, j, a, b, st', s', m);
  }

  // ---------------------------------------------------------------- BorrowFromLeft, BorrowFromRight

  // The keys of two neighbouring leaves, cut at t instead.
  ghost predicate RotatedLeaf(st: Store, p: Id, j: nat, a: Id, b: Id, t: nat, st': Store) {
    && Pair(st, p, j, a, b) && st[a].Leaf? && st[b].Leaf?
    && var ks, vs := st[a].keys + st[b].keys, st[a].values + st[b].values;
    && 0 < t < |ks| && |vs| == |ks|
    && st'.Keys == st.Keys
    && st'[a] == st[a].(keys := ks[..t], values := vs[..t])
    && st'[b] == st[b].(keys := ks[t..], values := vs[t..])
    && st'[p] == WithKeys(st[p], st[p].keys[j := ks[t]])
    && forall id :: id in st && id != p && id != a && id != b ==> st'[id] == st[id]
  }

  // The same for two internal nodes; the separator between them takes part.
  ghost predicate RotatedInternal(st: Store, p: Id, j: nat, a: Id, b: Id, t: nat, st': Store) {
    && Pair(st, p, j, a, b) && st[a].Internal? && st[b].Internal?
    && var ks, cs := st[a].keys + [st[p].keys[j]] + st[b].keys, st[a].children + st[b].children;
    && t < |ks| && |cs| == |ks| + 1
    && st'.Keys == st.Keys
    && st'[a] == st[a].(keys := ks[..t], children := cs[..t + 1])
    && st'[b] == st[b].(keys := ks[t + 1..], children := cs[t + 1..])
    && st'[p] == WithKeys(st[p], st[p].keys[j := ks[t]])
    && forall id :: id in st && id != p && id != a && id != b ==>
      st'[id] == if id in cs[t + 1..] then st[id].(parent := b)
                 else if id in st[b].children then st[id].(parent := a) else st[id]
  }

  // One of the two, with t keys on the left afterwards.
  ghost predicate Rotated(st: Store, p: Id, j: nat, a: Id, b: Id, t: nat, st': Store) {
    RotatedLeaf(st, p, j, a, b, t, st') || RotatedInternal(st, p, j, a, b, t, st')
  }

  function RotateShape(s: Shape, a: Id, key: int, b: Id): Shape
    requires a in s && b in s
  {
    s[a := s[a].(hi := At(key))][b := s[b].(lo := At(key))]
  }

  // Putting a separator back where one was taken.
  lemma SeparatorReplaced(p: Node, j: nat, key: int)
    requires p.Internal? && |p.children| == |p.keys| + 1 && j < |p.keys|
    ensures WithChild(WithoutChild(p, j), j, key, p.children[j + 1]) == WithKeys(p, p.keys[j := key])
  {
    var q := WithChild(WithoutChild(p, j), j, key, p.children[j + 1]);
    assert q.keys == p.keys[j := key];
    assert q.children == p.children;
  }

  function MergeLeafStore(st: Store, p: Id, j: nat, a: Id, b: Id): Store
    requires Pair(st, p, j, a, b) && st[a].Leaf? && st[b].Leaf?
  {
    map id | id in st && id != b ::
      if id == p then WithoutChild(st[p], j)
      else if id == a then
        st[a].(keys := st[a].keys + st[b].keys, values := st[a].values + st[b].values, next := st[b].next)
      else if id == st[b].next then Relinked(st[id], a)
      else st[id]
  }

  function CutLeafStore(st: Store, leaf: Id, at: nat, right: Id): Store
    requires leaf in st && st[leaf].Leaf? && at <= |st[leaf].keys| == |st[leaf].values|
  {
    var n := st[leaf];
    map id | id in st.Keys + {right} ::
      if id == leaf then n.(keys := n.keys[..at], values := n.values[..at], next := right)
      else if id == right then Leaf(n.keys[at..], n.values[at..], NULL, n.next, leaf)
      else if id == n.next then Relinked(st[id], right)
      else st[id]
  }

  lemma MergeLeafStoreOk(st: Store, p: Id, j: nat, a: Id, b: Id)
    requires Pair(st, p, j, a, b) && st[a].Leaf? && st[b].Leaf?
    ensures MergedLeaf(st, p, j, a, b, MergeLeafStore(st, p, j, a, b))
  {
  }

  lemma CutLeafStoreOk(st: Store, node: Id, at: nat, right: Id)
    requires node in st && st[node].Leaf? && at <= |st[node].keys| == |st[node].values| && right !in st && right != NULL
    ensures CutLeaf(st, node, at, right, CutLeafStore(st, node, at, right))
  {
  }

  lemma RecutLeaf(st: Store, s: Shape, root: Id, p: Id, j: nat, a: Id, b: Id, t: nat, st2: Store, s2: Shape,
                  m: Contents)
    requires TreeOk(st, s, root, m) && Pair(st, p, j, a, b) && st[a].Leaf? && st[b].Leaf?
    requires 0 < t < |st[a].keys + st[b].keys| == |st[a].values + st[b].values|
    requires st2 == CutLeafStore(MergeLeafStore(st, p, j, a, b), a, t, b)
    requires s2 == CutShape(MergeShape(s, a, b), a, (st[a].keys + st[b].keys)[t], b)
    ensures Pending(st2, s2, root, a, (st[a].keys + st[b].keys)[t], b, m)
  {
    assert NULL !in st;
    var st1, s1 := MergeLeafStore(st, p, j, a, b), MergeShape(s, a, b);
    MergeLeafStoreOk(st, p, j, a, b);
    MergedLeafTree(st, s, root, p, j, a, b, st1, s1, m);
    CutLeafStoreOk(st1, a, t, b);
    CutLeafPending(st1, s1, root, a, t, b, st2, s2, m);
  }

  lemma RotatedLeafTree(st: Store, s: Shape, root: Id, p: Id, j: nat, a: Id, b: Id, t: nat,
                        st': Store, s': Shape, m: Contents)
    requires TreeOk(st, s, root, m) && RotatedLeaf(st, p, j, a, b, t, st')
    requires s' == RotateShape(s, a, (st[a].keys + st[b].keys)[t], b)
    ensures TreeOk(st', s', root, m)
  {
    var key := (st[a].keys + st[b].keys)[t];
    var st2 := CutLeafStore(MergeLeafStore(st, p, j, a, b), a, t, b);
    RotateShapeIsCut(st, s, p, j, a, b, key);
    RecutLeaf(st, s, root, p, j, a, b, t, st2, s', m);
    RotatedLeafAttached(st, s, root, p, j, a, b, t, st', st2);
    RotatedNotRoot(st, s, root, p, j, a, b);
    AttachedTree(st2, s', root, a, key, b, j, st', m);
  }

  lemma RotatedNotRoot(st: Store, s: Shape, root: Id, p: Id, j: nat, a: Id, b: Id)
    requires Domains(st, s, root) && Parents(st, s, root) && Pair(st, p, j, a, b)
    ensures a != root && b != root
  {
    assert ParentOk(st, s, root, root);
  }

  lemma RotateShapeIsCut(st: Store, s: Shape, p: Id, j: nat, a: Id, b: Id, key: int)
    requires s.Keys == st.Keys && Nodes(st, s) && Pair(st, p, j, a, b)
    ensures CutShape(MergeShape(s, a, b), a, key, b) == RotateShape(s, a, key, b)
  {
    PairPlaces(st, s, p, j, a, b);
  }

  lemma RotatedLeafAttached(st: Store, s: Shape, root: Id, p: Id, j: nat, a: Id, b: Id, t: nat,
                            st': Store, st2: Store)
    requires Domains(st, s, root) && Nodes(st, s) && Parents(st, s, root) && Chain(st, s)
    requires RotatedLeaf(st, p, j, a, b, t, st')
    requires st2 == CutLeafStore(MergeLeafStore(st, p, j, a, b), a, t, b)
    ensures Attached(st2, a, (st[a].keys + st[b].keys)[t], b, j, st')
  {
    hide NodesIn, Parents, Chain, RotatedLeaf, CutLeafStore, MergeLeafStore, Attached;
    PairOfRotated(st, p, j, a, b, t, st');
    PairChained(st, s, root, p, j, a, b);
    PairLinks(st, s, a, b);
    RecutIsAttached(st, p, j, a, b, t, st', st2);
  }

  lemma PairOfRotated(st: Store, p: Id, j: nat, a: Id, b: Id, t: nat, st': Store)
    requires RotatedLeaf(st, p, j, a, b, t, st')
    ensures Pair(st, p, j, a, b) && st[a].Leaf? && st[b].Leaf?
  {
  }

  lemma PairLinks(st: Store, s: Shape, a: Id, b: Id)
    requires s.Keys == st.Keys && NULL !in st && Nodes(st, s) && Chain(st, s)
    requires a in st && b in st && a != b && st[a].Leaf? && st[b].Leaf? && st[a].next == b
    ensures st[b].previous == a && st[b].next != a && st[b].next != b
    ensures st[b].next in st ==> st[st[b].next].Leaf? && st[st[b].next].previous == b
  {
    hide NodeOk;
    assert Tight(st[a], s[a]) && Tight(st[b], s[b]);
    assert NextOk(st, s, a, st[a], s[a]) && NextOk(st, s, b, st[b], s[b]);
    assert PreviousOk(st, s, a, st[a], s[a]) && PreviousOk(st, s, b, st[b], s[b]);
  }

  lemma RecutIsAttached(st: Store, p: Id, j: nat, a: Id, b: Id, t: nat, st': Store, st2: Store)
    requires RotatedLeaf(st, p, j, a, b, t, st')
    requires st[a].next == b && st[b].previous == a && st[b].next != a && st[b].next != b
    requires st[b].next in st ==> st[st[b].next].Leaf? && st[st[b].next].previous == b
    requires st2 == CutLeafStore(MergeLeafStore(st, p, j, a, b), a, t, b)
    ensures Attached(st2, a, (st[a].keys + st[b].keys)[t], b, j, st')
  {
    SeparatorReplaced(st[p], j, (st[a].keys + st[b].keys)[t]);
  }

  function MergeInternalStore(st: Store, p: Id, j: nat, a: Id, b: Id): Store
    requires Pair(st, p, j, a, b) && st[a].Internal? && st[b].Internal?
  {
    map id | id in st && id != b ::
      if id == p then WithoutChild(st[p], j)
      else if id == a then
        st[a].(keys := st[a].keys + [st[p].keys[j]] + st[b].keys, children := st[a].children + st[b].children)
      else if id in st[b].children then st[id].(parent := a)
      else st[id]
  }

  function CutInternalStore(st: Store, node: Id, mid: nat, right: Id): Store
    requires node in st && st[node].Internal? && mid < |st[node].keys| < |st[node].children|
  {
    var n := st[node];
    map id | id in st.Keys + {right} ::
      if id == node then n.(keys := n.keys[..mid], children := n.children[..mid + 1])
      else if id == right then Internal(n.keys[mid + 1..], n.children[mid + 1..], NULL)
      else if id in n.children[mid + 1..] then st[id].(parent := right)
      else st[id]
  }

  lemma MergeInternalStoreOk(st: Store, p: Id, j: nat, a: Id, b: Id)
    requires Pair(st, p, j, a, b) && st[a].Internal? && st[b].Internal?
    ensures MergedInternal(st, p, j, a, b, MergeInternalStore(st, p, j, a, b))
  {
  }

  lemma CutInternalStoreOk(st: Store, node: Id, at: nat, right: Id)
    requires node in st && st[node].Internal? && at < |st[node].keys| && |st[node].children| == |st[node].keys| + 1
      && right !in st && right != NULL
    ensures CutInternal(st, node, at, right, CutInternalStore(st, node, at, right))
  {
  }

  lemma RecutInternal(st: Store, s: Shape, root: Id, p: Id, j: nat, a: Id, b: Id, t: nat, st2: Store, s2: Shape,
                      m: Contents)
    requires TreeOk(st, s, root, m) && Pair(st, p, j, a, b) && st[a].Internal? && st[b].Internal?
    requires t < |st[a].keys + [st[p].keys[j]] + st[b].keys| == |st[a].children + st[b].children| - 1
    requires st2 == CutInternalStore(MergeInternalStore(st, p, j, a, b), a, t, b)
    requires s2 == CutShape(MergeShape(s, a, b), a, (st[a].keys + [st[p].keys[j]] + st[b].keys)[t], b)
    ensures Pending(st2, s2, root, a, (st[a].keys + [st[p].keys[j]] + st[b].keys)[t], b, m)
  {
    assert NULL !in st;
    var st1, s1 := MergeInternalStore(st, p, j, a, b), MergeShape(s, a, b);
    MergeInternalStoreOk(st, p, j, a, b);
    MergedInternalTree(st, s, root, p, j, a, b, st1, s1, m);
    CutInternalStoreOk(st1, a, t, b);
    CutInternalPending(st1, s1, root, a, t, b, st2, s2, m);
  }

  lemma RotatedInternalAttached(st: Store, s: Shape, p: Id, j: nat, a: Id, b: Id, t: nat, st': Store, st2: Store)
    requires s.Keys == st.Keys && Nodes(st, s)
    requires RotatedInternal(st, p, j, a, b, t, st')
    requires st2 == CutInternalStore(MergeInternalStore(st, p, j, a, b), a, t, b)
    ensures Attached(st2, a, (st[a].keys + [st[p].keys[j]] + st[b].keys)[t], b, j, st')
  {
    hide NodeOk, RotatedInternal, CutInternalStore, MergeInternalStore, Attached;
    InternalPairOfRotated(st, p, j, a, b, t, st');
    PairPlaces(st, s, p, j, a, b);
    assert NodeOk(st, s, a, st[a], s[a]) && NodeOk(st, s, b, st[b], s[b]);
    ChildLinks(st, s, a, st[a], s[a]);
    ChildLinks(st, s, b, st[b], s[b]);
    RecutIsAttachedAbove(st, p, j, a, b, t, st', st2);
  }

  lemma InternalPairOfRotated(st: Store, p: Id, j: nat, a: Id, b: Id, t: nat, st': Store)
    requires RotatedInternal(st, p, j, a, b, t, st')
    ensures Pair(st, p, j, a, b) && st[a].Internal? && st[b].Internal?
  {
  }

  lemma RecutIsAttachedAbove(st: Store, p: Id, j: nat, a: Id, b: Id, t: nat, st': Store, st2: Store)
    requires RotatedInternal(st, p, j, a, b, t, st')
    requires forall c :: c in st[a].children ==> c in st && st[c].parent == a
    requires forall c :: c in st[b].children ==> c in st && st[c].parent == b
    requires p !in st[a].children && p !in st[b].children
    requires st2 == CutInternalStore(MergeInternalStore(st, p, j, a, b), a, t, b)
    ensures Attached(st2, a, (st[a].keys + [st[p].keys[j]] + st[b].keys)[t], b, j, st')
  {
    SeparatorReplaced(st[p], j, (st[a].keys + [st[p].keys[j]] + st[b].keys)[t]);
  }

  lemma RotatedInternalTree(st: Store, s: Shape, root: Id, p: Id, j: nat, a: Id, b: Id, t: nat,
                            st': Store, s': Shape, m: Contents)
    requires TreeOk(st, s, root, m) && RotatedInternal(st, p, j, a, b, t, st')
    requires s' == RotateShape(s, a, (st[a].keys + [st[p].keys[j]] + st[b].keys)[t], b)
    ensures TreeOk(st', s', root, m)
  {
    var key := (st[a].keys + [st[p].keys[j]] + st[b].keys)[t];
    var st2 := CutInternalStore(MergeInternalStore(st, p, j, a, b), a, t, b);
    RotateShapeIsCut(st, s, p, j, a, b, key);
    RecutInternal(st, s, root, p, j, a, b, t, st2, s', m);
    RotatedInternalAttached(st, s, p, j, a, b, t, st', st2);
    RotatedNotRoot(st, s, root, p, j, a, b);
    AttachedTree(st2, s', root, a, key, b, j, st', m);
  }

  // ---------------------------------------------------------------- ShrinkRoot

  ghost predicate Shrunk(st: Store, root: Id, top: Id, st': Store) {
    && root in st && st[root].Internal? && st[root].children == [top] && top in st && top != root
    && st'.Keys == st.Keys - {root}
    && st'[top] == st[top].(parent := NULL)
    && forall id :: id in st' && id != top ==> st'[id] == st[id]
  }

  lemma ShrunkParents(st: Store, s: Shape, root: Id, top: Id, st': Store, s': Shape)
    requires Domains(st, s, root) && Nodes(st, s) && Parents(st, s, root)
    requires Shrunk(st, root, top, st') && s' == s - {root}
    ensures Domains(st', s', top) && Parents(st', s', top)
  {
    hide NodesIn;
    NodeAt(st, s, root);
    assert ChildOk(st, s, root, st[root], s[root], 0);
    forall id | id in st' ensures ParentOk(st', s', top, id) {
      assert ParentOk(st, s, root, id);
      if id != top {
        var q := st[id].parent;
        NodeAt(st, s, q);
        assert ParentOk(st, s, root, q);
        ChildLinks(st, s, q, st[q], s[q]);
      }
    }
  }

  lemma ShrunkNodes(st: Store, s: Shape, root: Id, top: Id, st': Store, s': Shape)
    requires Domains(st, s, root) && Nodes(st, s) && ParentOk(st, s, root, root)
    requires Shrunk(st, root, top, st') && s' == s - {root}
    ensures s'.Keys == st'.Keys && Nodes(st', s')
  {
    assert NodeOk(st, s, root, st[root], s[root]) && ChildOk(st, s, root, st[root], s[root], 0);
    EditNodes(st, s, s, st', s', s', {root});
  }

  lemma ShrunkLeaves(st: Store, s: Shape, root: Id, top: Id, st': Store, s': Shape, m: Contents)
    requires s.Keys == st.Keys && Chain(st, s) && Holds(st, s, m)
    requires Shrunk(st, root, top, st') && s' == s - {root}
    ensures s'.Keys == st'.Keys && Chain(st', s') && Holds(st', s', m)
  {
    LeavesFrame(st, s, st', s', m);
  }

  lemma ShrunkTree(st: Store, s: Shape, root: Id, top: Id, st': Store, s': Shape, m: Contents)
    requires TreeOk(st, s, root, m)
    requires Shrunk(st, root, top, st') && s' == s - {root}
    ensures TreeOk(st', s', top, m)
  {
    assert ParentOk(st, s, root, root);
    ShrunkParents(st, s, root, top, st', s');
    ShrunkNodes(st, s, root, top, st', s');
    ShrunkLeaves(st, s, root, top, st', s', m);
  }
}
