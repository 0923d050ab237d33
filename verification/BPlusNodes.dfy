/** The node heap of the B+ tree (BPlusTreeNode.hpp, InternalNode.hpp, LeafNode.hpp) and the
    invariants of a tree that lives in it.

    A pointer is an identifier into a finite store; 0 is the null pointer.  The store is flat, so
    every invariant is local: it speaks of one node and the nodes it points to.  What makes that
    possible is a ghost Shape, which gives every node the window of keys that its ancestors'
    separators promise it, and its height above the leaves. */
module BPlusNodes {
  type Id = nat
  const NULL: Id := 0

  datatype RecordID = RecordID(documentID: nat)

  datatype Node =
    | Leaf(keys: seq<int>, values: seq<seq<RecordID>>, parent: Id, next: Id, previous: Id)
    | Internal(keys: seq<int>, children: seq<Id>, parent: Id)

  type Store = map<Id, Node>

  function WithKeys(n: Node, keys: seq<int>): Node {
    n.(keys := keys)
  }

  function WithParent(n: Node, parent: Id): Node {
    n.(parent := parent)
  }

  // A bound handed down by a separator: Open stands for the null bound pointer.
  datatype Bound = Open | At(key: int)

  // lo is inclusive and hi exclusive; a leaf has level 0.
  datatype Place = Place(lo: Bound, hi: Bound, level: nat)

  type Shape = map<Id, Place>

  predicate Within(p: Place, k: int) {
    && (p.lo.At? ==> p.lo.key <= k)
    && (p.hi.At? ==> k < p.hi.key)
  }

  predicate Sorted(keys: seq<int>) {
    forall i, j :: 0 <= i < j < |keys| ==> keys[i] < keys[j]
  }

  // ---------------------------------------------------------------- capacity

  function MaxKeys(order: nat): int { order - 1 }

  function MinLeafKeys(order: nat): int { order / 2 }

  function MinInternalKeys(order: nat): int { (order + 1) / 2 - 1 }

  function Minimum(order: nat, n: Node): int {
    if n.Leaf? then MinLeafKeys(order) else MinInternalKeys(order)
  }

  // The node an unfinished operation has left over- or under-full, if any.
  datatype Loose = Settled | Over(id: Id) | Under(id: Id)

  predicate FillOk(order: nat, root: Id, loose: Loose, id: Id, n: Node) {
    var least := if id == root then 1 else Minimum(order, n);
    && |n.keys| <= (if loose == Over(id) then order else MaxKeys(order))
    && |n.keys| >= (if loose == Under(id) then least - 1 else least)
  }

  // ---------------------------------------------------------------- one node

  // The window of child i: between the separators on either side of it.
  function ChildPlace(n: Node, p: Place, i: nat): Place
    requires n.Internal? && i <= |n.keys| && p.level > 0
  {
    Place(if i == 0 then p.lo else At(n.keys[i - 1]),
          if i == |n.keys| then p.hi else At(n.keys[i]),
          p.level - 1)
  }

  ghost predicate ChildOk(st: Store, s: Shape, id: Id, n: Node, p: Place, i: nat)
    requires n.Internal? && |n.children| == |n.keys| + 1 && p.level > 0 && i < |n.children|
  {
    var c := n.children[i];
    c in st && c in s && st[c].parent == id && s[c] == ChildPlace(n, p, i)
  }

  ghost predicate LeafOk(n: Node, p: Place)
    requires n.Leaf?
  {
    && p.level == 0
    && |n.values| == |n.keys|
    && forall i :: 0 <= i < |n.values| ==> n.values[i] != []
  }

  ghost predicate InternalOk(st: Store, s: Shape, id: Id, n: Node, p: Place)
    requires n.Internal?
  {
    && p.level > 0
    && |n.children| == |n.keys| + 1
    && forall i :: 0 <= i < |n.children| ==> ChildOk(st, s, id, n, p, i)
  }

  ghost predicate KeysOk(n: Node, p: Place) {
    Sorted(n.keys) && forall i :: 0 <= i < |n.keys| ==> Within(p, n.keys[i])
  }

  // What ValidateNode looks at, apart from the fill.
  ghost predicate NodeOk(st: Store, s: Shape, id: Id, n: Node, p: Place) {
    && KeysOk(n, p)
    && (n.Leaf? ==> LeafOk(n, p))
    && (n.Internal? ==> InternalOk(st, s, id, n, p))
  }

  // What ValidateNode does not look at: no window is empty, and a separator lies strictly
  // inside its own window.  Merging two internal nodes keeps the keys strictly increasing
  // only because of this.
  ghost predicate Tight(n: Node, p: Place) {
    && (p.lo.At? && p.hi.At? ==> p.lo.key < p.hi.key)
    && (n.Internal? && p.lo.At? ==> forall i :: 0 <= i < |n.keys| ==> p.lo.key < n.keys[i])
  }

  ghost predicate ParentOk(st: Store, s: Shape, root: Id, id: Id)
    requires id in st && id in s && root in s
  {
    if id == root then
      st[id].parent == NULL && s[id].lo == Open && s[id].hi == Open
    else
      var p := st[id].parent;
      p in st && st[p].Internal? && id in st[p].children && s[id].level < s[root].level
  }

  // ---------------------------------------------------------------- the leaf chain

  ghost predicate NextOk(st: Store, s: Shape, id: Id, n: Node, p: Place)
    requires n.Leaf?
  {
    if p.hi.Open? then n.next == NULL
    else
      n.next in st && n.next in s && st[n.next].Leaf? && st[n.next].previous == id
      && s[n.next].lo == p.hi
  }

  ghost predicate PreviousOk(st: Store, s: Shape, id: Id, n: Node, p: Place)
    requires n.Leaf?
  {
    if p.lo.Open? then n.previous == NULL
    else
      n.previous in st && n.previous in s && st[n.previous].Leaf? && st[n.previous].next == id
      && s[n.previous].hi == p.lo
  }

  // ---------------------------------------------------------------- the contents

  type Contents = map<int, seq<RecordID>>

  // A leaf holds exactly the keys of its own window, with their posting lists.
  ghost predicate LeafHolds(n: Node, p: Place, m: Contents)
    requires n.Leaf?
  {
    && |n.values| == |n.keys|
    && (forall i :: 0 <= i < |n.keys| ==> n.keys[i] in m && m[n.keys[i]] == n.values[i])
    && (forall k :: k in m && Within(p, k) ==> k in n.keys)
  }

  // ---------------------------------------------------------------- the whole tree

  ghost predicate Domains(st: Store, s: Shape, root: Id) {
    s.Keys == st.Keys && NULL !in st && root in st
  }

  // js gives the places of the children, s those of the nodes themselves; the two differ only
  // while a split is half done.
  ghost predicate NodesIn(st: Store, js: Shape, s: Shape)
    requires s.Keys == st.Keys
  {
    forall id :: id in st ==> NodeOk(st, js, id, st[id], s[id]) && Tight(st[id], s[id])
  }

  ghost predicate Nodes(st: Store, s: Shape)
    requires s.Keys == st.Keys
  {
    NodesIn(st, s, s)
  }

  ghost predicate Parents(st: Store, s: Shape, root: Id)
    requires Domains(st, s, root)
  {
    forall id :: id in st ==> ParentOk(st, s, root, id)
  }

  ghost predicate Fill(order: nat, st: Store, root: Id, loose: Loose) {
    forall id :: id in st ==> FillOk(order, root, loose, id, st[id])
  }

  ghost predicate Chain(st: Store, s: Shape)
    requires s.Keys == st.Keys
  {
    forall id :: id in st && st[id].Leaf? ==>
      NextOk(st, s, id, st[id], s[id]) && PreviousOk(st, s, id, st[id], s[id])
  }

  ghost predicate Holds(st: Store, s: Shape, m: Contents)
    requires s.Keys == st.Keys
  {
    forall id :: id in st && st[id].Leaf? ==> LeafHolds(st[id], s[id], m)
  }

  // Everything but the fill: what every step of every operation keeps.
  ghost predicate TreeOk(st: Store, s: Shape, root: Id, m: Contents) {
    && Domains(st, s, root)
    && Nodes(st, s)
    && Parents(st, s, root)
    && Chain(st, s)
    && Holds(st, s, m)
  }

  // ---------------------------------------------------------------- framing

  // The same node up to its links.
  predicate SameData(n: Node, n': Node) {
    match n
    case Leaf(keys, values, _, _, _) => n'.Leaf? && n'.keys == keys && n'.values == values
    case Internal(keys, children, _) => n'.Internal? && n'.keys == keys && n'.children == children
  }

  // The same leaf up to its parent link.
  predicate SameLeaf(n: Node, n': Node) {
    n.Leaf? && n'.Leaf? && n'.keys == n.keys && n'.values == n.values && n'.next == n.next && n'.previous == n.previous
  }

  // Nodes that an edit does not touch keep their data and their places.
  ghost predicate Outside(st: Store, s: Shape, st': Store, s': Shape, touched: set<Id>)
    requires s.Keys == st.Keys && s'.Keys == st'.Keys
  {
    forall id :: id in st' && id !in touched ==> id in st && SameData(st[id], st'[id]) && s'[id] == s[id]
  }

  ghost predicate Inside(st': Store, js': Shape, s': Shape, touched: set<Id>)
    requires s'.Keys == st'.Keys
  {
    forall id :: id in st' && id in touched ==> NodeOk(st', js', id, st'[id], s'[id]) && Tight(st'[id], s'[id])
  }

  // Nor do their children move.
  ghost predicate ChildrenStay(st: Store, js: Shape, st': Store, js': Shape, touched: set<Id>) {
    forall c :: c in st && c in js && st[c].parent in st && st[c].parent !in touched ==>
      c in st' && c in js' && st'[c].parent == st[c].parent && js'[c] == js[c]
  }

  // An edit that rewrites the nodes in touched keeps all nodes in order if it leaves those in order,
  // and moves no child of any other node.  The children's places are read from js and js'.
  lemma EditNodes(st: Store, js: Shape, s: Shape, st': Store, js': Shape, s': Shape, touched: set<Id>)
    requires s.Keys == st.Keys && NodesIn(st, js, s)
    requires s'.Keys == st'.Keys && Outside(st, s, st', s', touched) && Inside(st', js', s', touched)
    requires ChildrenStay(st, js, st', js', touched)
    ensures NodesIn(st', js', s')
  {
    forall id | id in st' && id !in touched
      ensures NodeOk(st', js', id, st'[id], s'[id]) && Tight(st'[id], s'[id])
    {
      assert NodeOk(st, js, id, st[id], s[id]) && Tight(st[id], s[id]);
      if st[id].Internal? {
        forall i | 0 <= i < |st'[id].children| ensures ChildOk(st', js', id, st'[id], s'[id], i) {
          assert ChildOk(st, js, id, st[id], s[id], i);
        }
      }
    }
  }

  // The chain and the contents do not see a change above the leaves.
  lemma LeavesFrame(st: Store, s: Shape, st': Store, s': Shape, m: Contents)
    requires s.Keys == st.Keys && s'.Keys == st'.Keys
    requires Chain(st, s) && Holds(st, s, m)
    requires forall id :: id in st && st[id].Leaf? ==>
      id in st' && SameLeaf(st[id], st'[id]) && s'[id] == s[id]
    requires forall id :: id in st' && st'[id].Leaf? ==> id in st && st[id].Leaf?
    ensures Chain(st', s') && Holds(st', s', m)
  {
    forall id | id in st' && st'[id].Leaf?
      ensures NextOk(st', s', id, st'[id], s'[id]) && PreviousOk(st', s', id, st'[id], s'[id])
    {
      assert NextOk(st, s, id, st[id], s[id]) && PreviousOk(st, s, id, st[id], s[id]);
    }
    forall id | id in st' && st'[id].Leaf? ensures LeafHolds(st'[id], s'[id], m) {
      assert LeafHolds(st[id], s[id], m);
    }
  }

  // ---------------------------------------------------------------- windows partition the keys

  // A child's window lies inside its parent's.
  lemma ChildWithin(st: Store, s: Shape, id: Id, i: nat, k: int)
    requires id in st && id in s && st[id].Internal? && NodeOk(st, s, id, st[id], s[id])
    requires i < |st[id].children| && st[id].children[i] in s && Within(s[st[id].children[i]], k)
    ensures Within(s[id], k)
  {
    var n := st[id];
    assert ChildOk(st, s, id, n, s[id], i);
    if i > 0 { assert Within(s[id], n.keys[i - 1]); }
    if i < |n.keys| { assert Within(s[id], n.keys[i]); }
  }

  // Two children of one node share no key.
  lemma SiblingsDisjoint(st: Store, s: Shape, id: Id, i: nat, j: nat, k: int)
    requires id in st && id in s && st[id].Internal? && NodeOk(st, s, id, st[id], s[id])
    requires i < |st[id].children| && j < |st[id].children|
    requires st[id].children[i] in s && Within(s[st[id].children[i]], k)
    requires st[id].children[j] in s && Within(s[st[id].children[j]], k)
    ensures i == j
  {
    var n := st[id];
    assert ChildOk(st, s, id, n, s[id], i);
    assert ChildOk(st, s, id, n, s[id], j);
  }

  // The child whose window holds the key.
  lemma ChildFor(st: Store, s: Shape, id: Id, n: Node, p: Place, k: int) returns (i: nat)
    requires n.Internal? && NodeOk(st, s, id, n, p) && Within(p, k)
    ensures i < |n.children| && n.children[i] in st && n.children[i] in s
    ensures Within(s[n.children[i]], k) && s[n.children[i]].level == p.level - 1
  {
    i := 0;
    while i < |n.keys| && n.keys[i] <= k
      invariant i <= |n.keys| && (i > 0 ==> n.keys[i - 1] <= k)
    {
      i := i + 1;
    }
    assert ChildOk(st, s, id, n, p, i);
  }

  lemma ChildLinks(st: Store, s: Shape, id: Id, n: Node, p: Place)
    requires n.Internal? && NodeOk(st, s, id, n, p)
    ensures forall c :: c in n.children ==> c in st && c in s && st[c].parent == id && s[c].level == p.level - 1
  {
    forall c | c in n.children ensures c in st && c in s && st[c].parent == id && s[c].level == p.level - 1 {
      var i :| 0 <= i < |n.children| && n.children[i] == c;
      assert ChildOk(st, s, id, n, p, i);
    }
  }

  lemma ChildrenDistinct(st: Store, s: Shape, id: Id, n: Node, p: Place, i: nat, j: nat)
    requires n.Internal? && NodeOk(st, s, id, n, p)
    requires i < |n.children| && j < |n.children| && i != j
    ensures n.children[i] != n.children[j]
  {
    assert ChildOk(st, s, id, n, p, i) && ChildOk(st, s, id, n, p, j);
  }

  // A shape whose nodes all hang, through their parent links, under top.  It need not cover the
  // store, so it makes sense for any heap.
  ghost predicate Linked(st: Store, s: Shape, top: Id) {
    && s.Keys <= st.Keys && top in s
    && (forall id :: id in s ==> NodeOk(st, s, id, st[id], s[id]))
    && (forall id :: id in s && id != top ==> Hangs(st, s, top, id))
  }

  ghost predicate Hangs(st: Store, s: Shape, top: Id, id: Id)
    requires id in st && id in s && top in s
  {
    var p := st[id].parent;
    p in st && p in s && st[p].Internal? && id in st[p].children && s[id].level < s[top].level
  }

  lemma TreeIsLinked(st: Store, s: Shape, root: Id)
    requires Domains(st, s, root) && Nodes(st, s) && Parents(st, s, root)
    ensures Linked(st, s, root)
  {
    forall id | id in s && id != root ensures Hangs(st, s, root, id) {
      assert ParentOk(st, s, root, id);
    }
  }

  // No two nodes of one level share a key of their windows.
  lemma {:induction false} LevelDisjoint(st: Store, s: Shape, top: Id, a: Id, b: Id, k: int)
    requires Linked(st, s, top)
    requires a in s && b in s && s[a].level == s[b].level
    requires Within(s[a], k) && Within(s[b], k)
    ensures a == b
    decreases s[top].level - s[a].level
  {
    if a != top && b != top {
      assert Hangs(st, s, top, a) && Hangs(st, s, top, b);
      var p, q := st[a].parent, st[b].parent;
      var i :| 0 <= i < |st[p].children| && st[p].children[i] == a;
      var j :| 0 <= j < |st[q].children| && st[q].children[j] == b;
      assert ChildOk(st, s, p, st[p], s[p], i) && ChildOk(st, s, q, st[q], s[q], j);
      ChildWithin(st, s, p, i, k);
      ChildWithin(st, s, q, j, k);
      assert p != top ==> Hangs(st, s, top, p);
      LevelDisjoint(st, s, top, p, q, k);
      SiblingsDisjoint(st, s, p, i, j, k);
    } else {
      TopIsAbove(st, s, top);
    }
  }

  lemma TopIsAbove(st: Store, s: Shape, top: Id)
    requires Linked(st, s, top)
    ensures forall x :: x in s && x != top ==> s[x].level < s[top].level
  {
    forall x | x in s && x != top ensures s[x].level < s[top].level { assert Hangs(st, s, top, x); }
  }

  lemma SameLevelDisjoint(st: Store, s: Shape, root: Id, a: Id, b: Id, k: int)
    requires Domains(st, s, root) && Nodes(st, s) && Parents(st, s, root)
    requires a in st && b in st && s[a].level == s[b].level
    requires Within(s[a], k) && Within(s[b], k)
    ensures a == b
  {
    TreeIsLinked(st, s, root);
    LevelDisjoint(st, s, root, a, b, k);
  }

  // ---------------------------------------------------------------- the keys of a tree

  ghost function KeysOf(st: Store, s: Shape): set<int>
    requires s.Keys <= st.Keys
  {
    set id, k | id in s && st[id].Leaf? && k in st[id].keys :: k
  }

  // Under every node there is, for every key of its window, a leaf whose window holds the key.
  lemma {:induction false} LeafFor(st: Store, s: Shape, top: Id, id: Id, k: int) returns (leaf: Id)
    requires Linked(st, s, top) && id in s && Within(s[id], k)
    ensures leaf in s && st[leaf].Leaf? && Within(s[leaf], k)
    decreases s[id].level
  {
    assert NodeOk(st, s, id, st[id], s[id]);
    if st[id].Leaf? { return id; }
    var i := ChildFor(st, s, id, st[id], s[id], k);
    leaf := LeafFor(st, s, top, st[id].children[i], k);
  }

  // A key under top can only be in the leaf whose window holds it.
  lemma KeyIsInItsLeaf(st: Store, s: Shape, top: Id, leaf: Id, k: int)
    requires Linked(st, s, top) && leaf in s && st[leaf].Leaf? && Within(s[leaf], k)
    ensures k in KeysOf(st, s) <==> k in st[leaf].keys
  {
    if k in KeysOf(st, s) {
      var id :| id in s && st[id].Leaf? && k in st[id].keys;
      assert NodeOk(st, s, id, st[id], s[id]) && NodeOk(st, s, leaf, st[leaf], s[leaf]);
      var i :| 0 <= i < |st[id].keys| && st[id].keys[i] == k;
      assert Within(s[id], st[id].keys[i]);
      LevelDisjoint(st, s, top, id, leaf, k);
    }
  }

  lemma KeysAreContents(st: Store, s: Shape, root: Id, m: Contents)
    requires TreeOk(st, s, root, m)
    ensures KeysOf(st, s) == m.Keys
  {
    assert ParentOk(st, s, root, root);
    TreeIsLinked(st, s, root);
    forall k | k in m ensures k in KeysOf(st, s) {
      var leaf := LeafFor(st, s, root, root, k);
      assert LeafHolds(st[leaf], s[leaf], m);
    }
    forall k | k in KeysOf(st, s) ensures k in m {
      var id :| id in s && st[id].Leaf? && k in st[id].keys;
      assert LeafHolds(st[id], s[id], m);
    }
  }
}
