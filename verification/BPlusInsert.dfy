/** Why splitting a node keeps the tree (BPlusTree.hpp, Insert Helpers).

    Splitting first cuts a node in two and only then tells the parent.  Pending describes the
    moment in between: everything is in order except that the parent still sees one node, left,
    where there are two. */
module BPlusInsert {
  import opened BPlusNodes

  // left and right together, as the parent still sees them.
  function Joined(s: Shape, left: Id, right: Id): Shape
    requires left in s && right in s
  {
    s[left := s[left].(hi := s[right].hi)]
  }

  ghost predicate PendingLinks(st: Store, s: Shape, root: Id, left: Id, key: int, right: Id) {
    && Domains(st, s, root)
    && left in st && right in st && left != right && right != root
    && s[left].level == s[right].level && s[left].hi == At(key) && s[right].lo == At(key)
    && st[right].parent == NULL
    && (if left == root then
          st[left].parent == NULL && s[left].lo == Open && s[right].hi == Open
        else ParentOk(st, s, root, left))
    && forall id :: id in st && id != left && id != right ==> ParentOk(st, s, root, id)
  }

  ghost predicate Pending(st: Store, s: Shape, root: Id, left: Id, key: int, right: Id, m: Contents) {
    && PendingLinks(st, s, root, left, key, right)
    && NodesIn(st, Joined(s, left, right), s)
    && Chain(st, s)
    && Holds(st, s, m)
  }

  // ---------------------------------------------------------------- InsertIntoParent

  function WithChild(p: Node, i: nat, key: int, right: Id): Node
    requires p.Internal? && i <= |p.keys| && i < |p.children|
  {
    p.(keys := p.keys[..i] + [key] + p.keys[i..],
       children := p.children[..i + 1] + [right] + p.children[i + 1..])
  }

  lemma WithChildKeys(n: Node, pl: Place, i: nat, key: int, right: Id)
    requires n.Internal? && i <= |n.keys| && i < |n.children|
    requires KeysOk(n, pl) && Tight(n, pl)
    requires Within(pl, key) && (pl.lo.At? ==> pl.lo.key < key)
    requires i > 0 ==> n.keys[i - 1] < key
    requires i < |n.keys| ==> key < n.keys[i]
    ensures KeysOk(WithChild(n, i, key, right), pl) && Tight(WithChild(n, i, key, right), pl)
  {
    KeysStaySorted(n.keys, i, key);
    var ks := WithChild(n, i, key, right).keys;
    forall a | 0 <= a < |ks| ensures Within(pl, ks[a]) && (pl.lo.At? ==> pl.lo.key < ks[a]) {
      if a < i {
        assert ks[a] == n.keys[a];
      } else if a > i {
        assert ks[a] == n.keys[a - 1];
      }
    }
  }

  lemma KeysStaySorted(keys: seq<int>, i: nat, key: int)
    requires Sorted(keys) && i <= |keys|
    requires (i > 0 ==> keys[i - 1] < key) && (i < |keys| ==> key < keys[i])
    ensures Sorted(keys[..i] + [key] + keys[i..])
  {
    var ks := keys[..i] + [key] + keys[i..];
    forall a, b | 0 <= a < b < |ks| ensures ks[a] < ks[b] {
      if a < i && b >= i { assert keys[a] <= keys[i - 1]; }
      if a <= i && b > i { assert keys[i] <= keys[b - 1]; }
    }
  }

  // The separator splits the window of child i in two; the other children stay as they were.
  lemma WithChildChildren(st: Store, s: Shape, p: Id, n: Node, pl: Place,
                          left: Id, key: int, right: Id, i: nat, st': Store)
    requires n.Internal? && left in s && right in s && left != right
    requires InternalOk(st, Joined(s, left, right), p, n, pl)
    requires i < |n.children| && n.children[i] == left && right !in n.children
    requires forall j :: 0 <= j < |n.children| && j != i ==> n.children[j] != left
    requires s[left].level == s[right].level && s[left].hi == At(key) && s[right].lo == At(key)
    requires forall c :: c in n.children ==> c in st' && st'[c].parent == p
    requires right in st' && st'[right].parent == p
    ensures InternalOk(st', s, p, WithChild(n, i, key, right), pl)
  {
    var n' := WithChild(n, i, key, right);
    var js := Joined(s, left, right);
    assert ChildOk(st, js, p, n, pl, i);
    forall j | 0 <= j < |n'.children| ensures ChildOk(st', s, p, n', pl, j) {
      if j < i {
        assert n'.children[j] == n.children[j];
        assert ChildOk(st, js, p, n, pl, j);
      } else if j > i + 1 {
        assert n'.children[j] == n.children[j - 1];
        assert ChildOk(st, js, p, n, pl, j - 1);
      }
    }
  }

  // The store once the parent p has been told of right.
  ghost predicate Attached(st: Store, left: Id, key: int, right: Id, i: nat, st': Store) {
    && left in st && right in st
    && var p := st[left].parent;
    && p in st && p != right && st[p].Internal? && i <= |st[p].keys| && i < |st[p].children|
    && st[p].children[i] == left
    && st'.Keys == st.Keys
    && st'[p] == WithChild(st[p], i, key, right)
    && st'[right] == st[right].(parent := p)
    && forall id :: id in st && id != p && id != right ==> st'[id] == st[id]
  }

  lemma AttachedParent(st: Store, s: Shape, root: Id, left: Id, key: int, right: Id, i: nat, st': Store)
    requires PendingLinks(st, s, root, left, key, right) && NodesIn(st, Joined(s, left, right), s)
    requires left != root && Attached(st, left, key, right, i, st')
    ensures var p := st[left].parent; NodeOk(st', s, p, st'[p], s[p]) && Tight(st'[p], s[p])
  {
    var p := st[left].parent;
    var n, pl, js := st[p], s[p], Joined(s, left, right);
    assert NodeOk(st, js, p, n, pl) && Tight(n, pl);
    assert ChildOk(st, js, p, n, pl, i);
    assert Tight(st[left], s[left]) && Tight(st[right], s[right]);
    forall j | 0 <= j < |n.children|
      ensures n.children[j] in st' && st'[n.children[j]].parent == p && (j != i ==> n.children[j] != left)
      ensures n.children[j] != right
    {
      assert ChildOk(st, js, p, n, pl, j);
      if j != i { ChildrenDistinct(st, js, p, n, pl, j, i); }
    }
    WithChildKeys(n, pl, i, key, right);
    WithChildChildren(st, s, p, n, pl, left, key, right, i, st');
  }

  lemma AttachedInside(st: Store, s: Shape, root: Id, left: Id, key: int, right: Id, i: nat, st': Store)
    requires PendingLinks(st, s, root, left, key, right) && NodesIn(st, Joined(s, left, right), s)
    requires left != root && Attached(st, left, key, right, i, st')
    ensures left in st && s.Keys == st'.Keys && Inside(st', s, s, {st[left].parent})
  {
    hide NodeOk, Tight, NodesIn, ParentOk, Joined, WithChild;
    AttachedParent(st, s, root, left, key, right, i, st');
  }

  lemma AttachedStay(st: Store, s: Shape, root: Id, left: Id, key: int, right: Id, i: nat, st': Store)
    requires PendingLinks(st, s, root, left, key, right) && Attached(st, left, key, right, i, st')
    ensures left in s && right in s && s.Keys == st.Keys && Outside(st, s, st', s, {st[left].parent})
    ensures ChildrenStay(st, Joined(s, left, right), st', s, {st[left].parent})
  {
    hide ParentOk;
  }

  lemma AttachedNodes(st: Store, s: Shape, root: Id, left: Id, key: int, right: Id, i: nat, st': Store)
    requires PendingLinks(st, s, root, left, key, right) && NodesIn(st, Joined(s, left, right), s)
    requires left != root && Attached(st, left, key, right, i, st')
    ensures Nodes(st', s)
  {
    hide NodeOk, Tight, NodesIn, Outside, Inside, ChildrenStay, Joined, ParentOk, PendingLinks, Attached;
    AttachedInside(st, s, root, left, key, right, i, st');
    AttachedStay(st, s, root, left, key, right, i, st');
    EditNodes(st, Joined(s, left, right), s, st', s, s, {st[left].parent});
  }

  lemma AttachedLeaves(st: Store, s: Shape, left: Id, key: int, right: Id, i: nat, st': Store, m: Contents)
    requires s.Keys == st.Keys && Chain(st, s) && Holds(st, s, m)
    requires Attached(st, left, key, right, i, st')
    ensures Chain(st', s) && Holds(st', s, m)
  {
    LeavesFrame(st, s, st', s, m);
  }

  lemma AttachedParents(st: Store, s: Shape, root: Id, left: Id, key: int, right: Id, i: nat, st': Store)
    requires PendingLinks(st, s, root, left, key, right)
    requires left != root && Attached(st, left, key, right, i, st')
    ensures Domains(st', s, root) && Parents(st', s, root)
  {
    var p := st[left].parent;
    assert ParentOk(st, s, root, left);
    WithChildHas(st[p], i, key, right);
    hide WithChild;
    forall id | id in st' && id != right ensures ParentOk(st', s, root, id) {
      assert ParentOk(st, s, root, id);
    }
  }

  lemma WithChildHas(n: Node, i: nat, key: int, right: Id)
    requires n.Internal? && i <= |n.keys| && i < |n.children|
    ensures var n' := WithChild(n, i, key, right);
      n'.Internal? && n'.parent == n.parent && right in n'.children && forall c :: c in n.children ==> c in n'.children
  {
    var n' := WithChild(n, i, key, right);
    assert n'.children[i + 1] == right;
    forall c | c in n.children ensures c in n'.children {
      var j :| 0 <= j < |n.children| && n.children[j] == c;
      assert n'.children[if j <= i then j else j + 1] == c;
    }
  }

  lemma AttachedFill(order: nat, st: Store, root: Id, left: Id, key: int, right: Id, i: nat, st': Store)
    requires Fill(order, st, root, Settled) && Attached(st, left, key, right, i, st')
    ensures Fill(order, st', root, Over(st[left].parent))
  {
    forall id | id in st' ensures FillOk(order, root, Over(st[left].parent), id, st'[id]) {
      assert FillOk(order, root, Settled, id, st[id]);
    }
  }

  lemma AttachedTree(st: Store, s: Shape, root: Id, left: Id, key: int, right: Id, i: nat, st': Store, m: Contents)
    requires Pending(st, s, root, left, key, right, m)
    requires left != root && Attached(st, left, key, right, i, st')
    ensures TreeOk(st', s, root, m)
  {
    AttachedParents(st, s, root, left, key, right, i, st');
    AttachedNodes(st, s, root, left, key, right, i, st');
    AttachedLeaves(st, s, left, key, right, i, st', m);
  }

  // The root itself was split: a new root takes both halves.
  ghost predicate Rooted(st: Store, left: Id, key: int, right: Id, top: Id, st': Store) {
    && left in st && right in st && left != right && top !in st
    && st'.Keys == st.Keys + {top}
    && st'[top] == Internal([key], [left, right], NULL)
    && st'[left] == st[left].(parent := top)
    && st'[right] == st[right].(parent := top)
    && forall id :: id in st && id != left && id != right ==> st'[id] == st[id]
  }

  lemma RootedTop(st: Store, s: Shape, left: Id, key: int, right: Id, top: Id, st': Store, s': Shape)
    requires PendingLinks(st, s, left, left, key, right) && Rooted(st, left, key, right, top, st')
    requires s' == s[top := Place(Open, Open, s[left].level + 1)]
    ensures NodeOk(st', s', top, st'[top], s'[top]) && Tight(st'[top], s'[top])
  {
    hide ParentOk;
    var n, pl := st'[top], s'[top];
    assert n.children[0] == left && n.children[1] == right && n.keys[0] == key;
    assert ChildOk(st', s', top, n, pl, 0);
    assert ChildOk(st', s', top, n, pl, 1);
    hide ChildOk;
    assert InternalOk(st', s', top, n, pl);
  }

  lemma RootedInside(st: Store, s: Shape, left: Id, key: int, right: Id, top: Id, st': Store, s': Shape)
    requires PendingLinks(st, s, left, left, key, right) && Rooted(st, left, key, right, top, st')
    requires s' == s[top := Place(Open, Open, s[left].level + 1)]
    ensures s'.Keys == st'.Keys && Inside(st', s', s', {top})
  {
    hide NodeOk, Tight, ParentOk;
    RootedTop(st, s, left, key, right, top, st', s');
  }

  lemma RootedStay(st: Store, s: Shape, left: Id, key: int, right: Id, top: Id, st': Store, s': Shape)
    requires PendingLinks(st, s, left, left, key, right) && Rooted(st, left, key, right, top, st')
    requires s' == s[top := Place(Open, Open, s[left].level + 1)]
    ensures left in s && right in s && s.Keys == st.Keys && s'.Keys == st'.Keys && Outside(st, s, st', s', {top})
    ensures ChildrenStay(st, Joined(s, left, right), st', s', {top})
  {
    hide ParentOk;
  }

  lemma RootedNodes(st: Store, s: Shape, left: Id, key: int, right: Id, top: Id, st': Store, s': Shape)
    requires PendingLinks(st, s, left, left, key, right) && NodesIn(st, Joined(s, left, right), s)
    requires Rooted(st, left, key, right, top, st')
    requires s' == s[top := Place(Open, Open, s[left].level + 1)]
    ensures s'.Keys == st'.Keys && Nodes(st', s')
  {
    hide NodeOk, Tight, NodesIn, Outside, Inside, ChildrenStay, Joined, ParentOk, PendingLinks, Rooted;
    RootedInside(st, s, left, key, right, top, st', s');
    RootedStay(st, s, left, key, right, top, st', s');
    EditNodes(st, Joined(s, left, right), s, st', s', s', {top});
  }

  lemma RootedFill(order: nat, st: Store, left: Id, key: int, right: Id, top: Id, st': Store)
    requires order >= 3 && Fill(order, st, left, Settled) && Rooted(st, left, key, right, top, st')
    requires |st[left].keys| >= Minimum(order, st[left])
    ensures Fill(order, st', top, Settled)
  {
    forall id | id in st' ensures FillOk(order, top, Settled, id, st'[id]) {
      assert id in st ==> FillOk(order, left, Settled, id, st[id]);
    }
  }

  lemma RootedLeaves(st: Store, s: Shape, left: Id, key: int, right: Id, top: Id,
                     st': Store, s': Shape, m: Contents)
    requires s.Keys == st.Keys && s'.Keys == st'.Keys && Chain(st, s) && Holds(st, s, m)
    requires Rooted(st, left, key, right, top, st')
    requires s' == s[top := Place(Open, Open, s[left].level + 1)]
    ensures Chain(st', s') && Holds(st', s', m)
  {
    LeavesFrame(st, s, st', s', m);
  }

  lemma RootedParents(st: Store, s: Shape, left: Id, key: int, right: Id, top: Id, st': Store, s': Shape)
    requires PendingLinks(st, s, left, left, key, right) && top != NULL
    requires Rooted(st, left, key, right, top, st')
    requires s' == s[top := Place(Open, Open, s[left].level + 1)]
    ensures Domains(st', s', top) && Parents(st', s', top)
  {
    assert st'[top].children[0] == left && st'[top].children[1] == right;
    forall id | id in st' && id != top ensures ParentOk(st', s', top, id) {
      if id != left && id != right {
        assert ParentOk(st, s, left, id);
        hide ParentOk;
        RootedOther(st, s, left, key, right, top, st', s', id);
      }
    }
  }

  lemma RootedOther(st: Store, s: Shape, left: Id, key: int, right: Id, top: Id, st': Store, s': Shape, id: Id)
    requires Domains(st, s, left) && id in st && id != left && id != right && ParentOk(st, s, left, id)
    requires Rooted(st, left, key, right, top, st')
    requires s' == s[top := Place(Open, Open, s[left].level + 1)]
    ensures id in s' && top in s' && ParentOk(st', s', top, id)
  {
  }

  lemma RootedTree(st: Store, s: Shape, left: Id, key: int, right: Id, top: Id, st': Store, s': Shape, m: Contents)
    requires top != NULL && Pending(st, s, left, left, key, right, m)
    requires Rooted(st, left, key, right, top, st')
    requires s' == s[top := Place(Open, Open, s[left].level + 1)]
    ensures TreeOk(st', s', top, m)
  {
    RootedParents(st, s, left, key, right, top, st', s');
    RootedNodes(st, s, left, key, right, top, st', s');
    RootedLeaves(st, s, left, key, right, top, st', s', m);
  }

  // ---------------------------------------------------------------- SplitLeaf

  function Relinked(n: Node, previous: Id): Node {
    if n.Leaf? then n.(previous := previous) else n
  }

  // leaf keeps its first at keys, right takes the others and a place in the leaf chain.
  ghost predicate CutLeaf(st: Store, leaf: Id, at: nat, right: Id, st': Store) {
    && leaf in st && right !in st && right != NULL && st[leaf].Leaf?
    && var n := st[leaf];
    && at <= |n.keys| && |n.values| == |n.keys|
    && st'.Keys == st.Keys + {right}
    && st'[leaf] == n.(keys := n.keys[..at], values := n.values[..at], next := right)
    && st'[right] == Leaf(n.keys[at..], n.values[at..], NULL, n.next, leaf)
    && forall id :: id in st && id != leaf ==> st'[id] == if id == n.next then Relinked(st[id], right) else st[id]
  }

  function CutShape(s: Shape, left: Id, key: int, right: Id): Shape
    requires left in s
  {
    s[left := s[left].(hi := At(key))][right := s[left].(lo := At(key))]
  }

  // The two halves of the leaf.
  lemma CutLeafHalves(n: Node, p: Place, at: nat, left: Node, right: Node)
    requires n.Leaf? && KeysOk(n, p) && LeafOk(n, p) && Tight(n, p) && 0 < at < |n.keys|
    requires left.Leaf? && left.keys == n.keys[..at] && left.values == n.values[..at]
    requires right.Leaf? && right.keys == n.keys[at..] && right.values == n.values[at..]
    ensures var pl := p.(hi := At(n.keys[at])); KeysOk(left, pl) && LeafOk(left, pl) && Tight(left, pl)
    ensures var pr := p.(lo := At(n.keys[at])); KeysOk(right, pr) && LeafOk(right, pr) && Tight(right, pr)
  {
    assert n.keys[0] < n.keys[at];
    assert Within(p, n.keys[0]) && Within(p, n.keys[at]);
  }

  lemma CutLeafStay(st: Store, s: Shape, leaf: Id, at: nat, right: Id, st': Store, s': Shape)
    requires s.Keys == st.Keys && CutLeaf(st, leaf, at, right, st') && at < |st[leaf].keys|
    requires s' == CutShape(s, leaf, st[leaf].keys[at], right)
    ensures s'.Keys == st'.Keys && Outside(st, s, st', s', {leaf, right})
    ensures ChildrenStay(st, s, st', Joined(s', leaf, right), {leaf, right})
  {
  }

  lemma CutLeafNodes(st: Store, s: Shape, leaf: Id, at: nat, right: Id, st': Store, s': Shape)
    requires s.Keys == st.Keys && Nodes(st, s)
    requires CutLeaf(st, leaf, at, right, st') && 0 < at < |st[leaf].keys|
    requires s' == CutShape(s, leaf, st[leaf].keys[at], right)
    ensures s'.Keys == st'.Keys && NodesIn(st', Joined(s', leaf, right), s')
  {
    hide NodeOk, Tight, NodesIn, Outside, Inside, ChildrenStay, Joined, CutLeaf, CutShape;
    CutLeafInside(st, s, leaf, at, right, st', s');
    CutLeafStay(st, s, leaf, at, right, st', s');
    EditNodes(st, s, s, st', Joined(s', leaf, right), s', {leaf, right});
  }

  lemma CutLeafInside(st: Store, s: Shape, leaf: Id, at: nat, right: Id, st': Store, s': Shape)
    requires s.Keys == st.Keys && Nodes(st, s)
    requires CutLeaf(st, leaf, at, right, st') && 0 < at < |st[leaf].keys|
    requires s' == CutShape(s, leaf, st[leaf].keys[at], right)
    ensures s'.Keys == st'.Keys && leaf in s' && right in s'
    ensures Inside(st', Joined(s', leaf, right), s', {leaf, right})
  {
    hide Tight, KeysOk, LeafOk;
    assert NodeOk(st, s, leaf, st[leaf], s[leaf]) && Tight(st[leaf], s[leaf]);
    CutLeafHalves(st[leaf], s[leaf], at, st'[leaf], st'[right]);
  }

  lemma CutLeafParent(st: Store, s: Shape, root: Id, leaf: Id, at: nat, right: Id, st': Store, s': Shape, id: Id)
    requires Domains(st, s, root) && id in st && ParentOk(st, s, root, id)
    requires CutLeaf(st, leaf, at, right, st') && at < |st[leaf].keys|
    requires s' == CutShape(s, leaf, st[leaf].keys[at], right)
    requires id != leaf || id != root
    ensures ParentOk(st', s', root, id)
  {
  }

  lemma CutLeafParents(st: Store, s: Shape, root: Id, leaf: Id, at: nat, right: Id, st': Store, s': Shape)
    requires Domains(st, s, root) && Parents(st, s, root)
    requires CutLeaf(st, leaf, at, right, st') && at < |st[leaf].keys|
    requires s' == CutShape(s, leaf, st[leaf].keys[at], right)
    ensures Domains(st', s', root)
    ensures forall id :: id in st && (id != leaf || id != root) ==> ParentOk(st', s', root, id)
  {
    forall id | id in st && (id != leaf || id != root) ensures ParentOk(st', s', root, id) {
      CutLeafParent(st, s, root, leaf, at, right, st', s', id);
    }
  }

  lemma CutLeafLinks(st: Store, s: Shape, root: Id, leaf: Id, at: nat, right: Id, st': Store, s': Shape)
    requires Domains(st, s, root) && Parents(st, s, root)
    requires CutLeaf(st, leaf, at, right, st') && at < |st[leaf].keys|
    requires s' == CutShape(s, leaf, st[leaf].keys[at], right)
    ensures PendingLinks(st', s', root, leaf, st[leaf].keys[at], right)
  {
    assert ParentOk(st, s, root, leaf);
    CutLeafParents(st, s, root, leaf, at, right, st', s');
  }

  lemma CutLeafFill(order: nat, st: Store, root: Id, leaf: Id, right: Id, st': Store)
    requires Fill(order, st, root, Over(leaf)) && order >= 3 && leaf in st && |st[leaf].keys| == order
    requires CutLeaf(st, leaf, (order + 1) / 2, right, st') && root in st
    ensures Fill(order, st', root, Settled) && |st'[leaf].keys| >= MinLeafKeys(order)
  {
    forall id | id in st' ensures FillOk(order, root, Settled, id, st'[id]) {
      assert id in st ==> FillOk(order, root, Over(leaf), id, st[id]);
    }
  }

  lemma CutLeafChain(st: Store, s: Shape, leaf: Id, at: nat, right: Id, st': Store, s': Shape)
    requires s.Keys == st.Keys && NULL !in st && Chain(st, s)
    requires CutLeaf(st, leaf, at, right, st') && at < |st[leaf].keys|
    requires s' == CutShape(s, leaf, st[leaf].keys[at], right) && Tight(st[leaf], s[leaf])
    ensures Chain(st', s')
  {
    var n := st[leaf];
    assert NextOk(st, s, leaf, n, s[leaf]) && PreviousOk(st, s, leaf, n, s[leaf]);
    assert n.next != leaf;
    forall id | id in st' && st'[id].Leaf?
      ensures NextOk(st', s', id, st'[id], s'[id]) && PreviousOk(st', s', id, st'[id], s'[id])
    {
      if id in st {
        assert NextOk(st, s, id, st[id], s[id]) && PreviousOk(st, s, id, st[id], s[id]);
      }
    }
  }

  lemma CutLeafHolds(st: Store, s: Shape, leaf: Id, at: nat, right: Id, st': Store, s': Shape, m: Contents)
    requires s.Keys == st.Keys && Holds(st, s, m)
    requires CutLeaf(st, leaf, at, right, st') && at < |st[leaf].keys| && KeysOk(st[leaf], s[leaf])
    requires s' == CutShape(s, leaf, st[leaf].keys[at], right)
    ensures s'.Keys == st'.Keys && Holds(st', s', m)
  {
    var n := st[leaf];
    assert LeafHolds(n, s[leaf], m);
    CutLeafHoldsHalves(n, s[leaf], at, m);
    forall id | id in st' && st'[id].Leaf? ensures LeafHolds(st'[id], s'[id], m) {
      if id != right { assert LeafHolds(st[id], s[id], m); }
    }
  }

  lemma CutLeafHoldsHalves(n: Node, p: Place, at: nat, m: Contents)
    requires n.Leaf? && LeafHolds(n, p, m) && at < |n.keys| && KeysOk(n, p)
    ensures forall k :: k in m && Within(p.(hi := At(n.keys[at])), k) ==> k in n.keys[..at]
    ensures forall k :: k in m && Within(p.(lo := At(n.keys[at])), k) ==> k in n.keys[at..]
  {
    assert n.keys == n.keys[..at] + n.keys[at..];
    assert Within(p, n.keys[at]);
    forall k | k in m && Within(p.(hi := At(n.keys[at])), k) ensures k in n.keys[..at] {
      assert Within(p, k);
    }
    forall k | k in m && Within(p.(lo := At(n.keys[at])), k) ensures k in n.keys[at..] {
      assert Within(p, k);
    }
  }

  lemma CutLeafPending(st: Store, s: Shape, root: Id, leaf: Id, at: nat, right: Id,
                       st': Store, s': Shape, m: Contents)
    requires TreeOk(st, s, root, m)
    requires CutLeaf(st, leaf, at, right, st') && 0 < at < |st[leaf].keys|
    requires s' == CutShape(s, leaf, st[leaf].keys[at], right)
    ensures Pending(st', s', root, leaf, st[leaf].keys[at], right, m)
  {
    assert NodeOk(st, s, leaf, st[leaf], s[leaf]) && Tight(st[leaf], s[leaf]);
    CutLeafLinks(st, s, root, leaf, at, right, st', s');
    CutLeafNodes(st, s, leaf, at, right, st', s');
    CutLeafChain(st, s, leaf, at, right, st', s');
    CutLeafHolds(st, s, leaf, at, right, st', s', m);
  }

  // ---------------------------------------------------------------- SplitInternal

  // node keeps its first mid keys, keys[mid] moves up, right takes the rest with their children.
  ghost predicate CutInternal(st: Store, node: Id, mid: nat, right: Id, st': Store) {
    && node in st && right !in st && right != NULL && st[node].Internal?
    && var n := st[node];
    && mid < |n.keys| && |n.children| == |n.keys| + 1
    && st'.Keys == st.Keys + {right}
    && st'[node] == n.(keys := n.keys[..mid], children := n.children[..mid + 1])
    && st'[right] == Internal(n.keys[mid + 1..], n.children[mid + 1..], NULL)
    && forall id :: id in st && id != node ==>
      st'[id] == if id in n.children[mid + 1..] then st[id].(parent := right) else st[id]
  }

  lemma CutInternalLeft(st: Store, s: Shape, node: Id, mid: nat, right: Id, st': Store, js: Shape)
    requires s.Keys == st.Keys && CutInternal(st, node, mid, right, st')
    requires NodeOk(st, s, node, st[node], s[node]) && Tight(st[node], s[node])
    requires right in js && js == s[right := js[right]]
    ensures var pl := s[node].(hi := At(st[node].keys[mid]));
            NodeOk(st', js, node, st'[node], pl) && Tight(st'[node], pl)
  {
    var n, n', pl := st[node], st'[node], s[node].(hi := At(st[node].keys[mid]));
    assert Within(s[node], n.keys[mid]);
    forall j | 0 <= j < |n'.children| ensures ChildOk(st', js, node, n', pl, j) {
      assert ChildOk(st, s, node, n, s[node], j);
      forall k | mid + 1 <= k < |n.children| ensures n.children[k] != n'.children[j] {
        ChildrenDistinct(st, s, node, n, s[node], k, j);
      }
    }
  }

  lemma CutInternalRight(st: Store, s: Shape, node: Id, mid: nat, right: Id, st': Store, js: Shape)
    requires s.Keys == st.Keys && CutInternal(st, node, mid, right, st')
    requires NodeOk(st, s, node, st[node], s[node]) && Tight(st[node], s[node])
    requires right in js && js == s[right := js[right]]
    ensures var pl := s[node].(lo := At(st[node].keys[mid]));
            NodeOk(st', js, right, st'[right], pl) && Tight(st'[right], pl)
  {
    var n, n', pl := st[node], st'[right], s[node].(lo := At(st[node].keys[mid]));
    assert Within(s[node], n.keys[mid]);
    forall j | 0 <= j < |n'.children| ensures ChildOk(st', js, right, n', pl, j) {
      assert n'.children[j] == n.children[mid + 1 + j];
      assert ChildOk(st, s, node, n, s[node], mid + 1 + j);
    }
  }

  lemma CutInternalStay(st: Store, s: Shape, node: Id, mid: nat, right: Id, st': Store, s': Shape)
    requires s.Keys == st.Keys && CutInternal(st, node, mid, right, st')
    requires s' == CutShape(s, node, st[node].keys[mid], right)
    requires forall c :: c in st[node].children ==> c in st && st[c].parent == node
    ensures s'.Keys == st'.Keys && Outside(st, s, st', s', {node, right})
    ensures ChildrenStay(st, s, st', Joined(s', node, right), {node, right})
  {
    assert st[node].children == st[node].children[..mid + 1] + st[node].children[mid + 1..];
  }

  lemma CutInternalNodes(st: Store, s: Shape, node: Id, mid: nat, right: Id, st': Store, s': Shape)
    requires s.Keys == st.Keys && Nodes(st, s)
    requires CutInternal(st, node, mid, right, st')
    requires s' == CutShape(s, node, st[node].keys[mid], right)
    ensures s'.Keys == st'.Keys && NodesIn(st', Joined(s', node, right), s')
  {
    hide NodeOk, Tight, NodesIn, Outside, Inside, ChildrenStay, Joined, CutInternal, CutShape;
    CutInternalInside(st, s, node, mid, right, st', s');
    EditNodes(st, s, s, st', Joined(s', node, right), s', {node, right});
  }

  lemma CutInternalInside(st: Store, s: Shape, node: Id, mid: nat, right: Id, st': Store, s': Shape)
    requires s.Keys == st.Keys && Nodes(st, s)
    requires CutInternal(st, node, mid, right, st')
    requires s' == CutShape(s, node, st[node].keys[mid], right)
    ensures s'.Keys == st'.Keys && node in s' && right in s'
    ensures Inside(st', Joined(s', node, right), s', {node, right})
    ensures Outside(st, s, st', s', {node, right}) && ChildrenStay(st, s, st', Joined(s', node, right), {node, right})
  {
    hide NodeOk, Tight, Outside, ChildrenStay, Joined, CutShape;
    assert NodeOk(st, s, node, st[node], s[node]) && Tight(st[node], s[node]);
    JoinedCut(s, node, st[node].keys[mid], right);
    var js := Joined(s', node, right);
    CutInternalLeft(st, s, node, mid, right, st', js);
    CutInternalRight(st, s, node, mid, right, st', js);
    ChildLinks(st, s, node, st[node], s[node]);
    CutInternalStay(st, s, node, mid, right, st', s');
  }

  // Cutting a window in two and joining the halves gives the window back.
  lemma JoinedCut(s: Shape, left: Id, key: int, right: Id)
    requires left in s && right !in s
    ensures var s' := CutShape(s, left, key, right);
      && s'.Keys == s.Keys + {right} && s'[left] == s[left].(hi := At(key)) && s'[right] == s[left].(lo := At(key))
      && right in Joined(s', left, right)
      && Joined(s', left, right) == s[right := Joined(s', left, right)[right]]
  {
  }

  lemma CutInternalParent(st: Store, s: Shape, root: Id, node: Id, mid: nat, right: Id, st': Store, s': Shape, id: Id)
    requires Domains(st, s, root) && id in st && ParentOk(st, s, root, id)
    requires node in st && NodeOk(st, s, node, st[node], s[node])
    requires CutInternal(st, node, mid, right, st')
    requires s' == CutShape(s, node, st[node].keys[mid], right)
    requires id != node || id != root
    ensures ParentOk(st', s', root, id)
  {
    var n := st[node];
    assert n.children == n.children[..mid + 1] + n.children[mid + 1..];
    ChildLinks(st, s, node, n, s[node]);
  }

  lemma CutInternalParents(st: Store, s: Shape, root: Id, node: Id, mid: nat, right: Id, st': Store, s': Shape)
    requires Domains(st, s, root) && Parents(st, s, root) && CutInternal(st, node, mid, right, st')
    requires NodeOk(st, s, node, st[node], s[node])
    requires s' == CutShape(s, node, st[node].keys[mid], right)
    ensures Domains(st', s', root)
    ensures forall id :: id in st && (id != node || id != root) ==> ParentOk(st', s', root, id)
  {
    forall id | id in st && (id != node || id != root) ensures ParentOk(st', s', root, id) {
      CutInternalParent(st, s, root, node, mid, right, st', s', id);
    }
  }

  lemma CutInternalLinks(st: Store, s: Shape, root: Id, node: Id, mid: nat, right: Id, st': Store, s': Shape)
    requires Domains(st, s, root) && Parents(st, s, root) && CutInternal(st, node, mid, right, st')
    requires NodeOk(st, s, node, st[node], s[node])
    requires s' == CutShape(s, node, st[node].keys[mid], right)
    ensures PendingLinks(st', s', root, node, st[node].keys[mid], right)
  {
    assert ParentOk(st, s, root, node);
    CutInternalParents(st, s, root, node, mid, right, st', s');
    ChildLinks(st, s, node, st[node], s[node]);
  }

  lemma CutInternalFill(order: nat, st: Store, root: Id, node: Id, right: Id, st': Store)
    requires Fill(order, st, root, Over(node)) && order >= 3 && node in st && |st[node].keys| == order
    requires CutInternal(st, node, order / 2, right, st') && root in st
    ensures Fill(order, st', root, Settled) && |st'[node].keys| >= MinInternalKeys(order)
  {
    forall id | id in st' ensures FillOk(order, root, Settled, id, st'[id]) {
      assert id in st ==> FillOk(order, root, Over(node), id, st[id]);
    }
  }

  lemma CutInternalLeaves(st: Store, s: Shape, node: Id, mid: nat, right: Id, st': Store, s': Shape, m: Contents)
    requires s.Keys == st.Keys && Chain(st, s) && Holds(st, s, m)
    requires CutInternal(st, node, mid, right, st')
    requires s' == CutShape(s, node, st[node].keys[mid], right)
    ensures s'.Keys == st'.Keys && Chain(st', s') && Holds(st', s', m)
  {
    LeavesFrame(st, s, st', s', m);
  }

  lemma CutInternalPending(st: Store, s: Shape, root: Id, node: Id, mid: nat, right: Id,
                           st': Store, s': Shape, m: Contents)
    requires TreeOk(st, s, root, m)
    requires CutInternal(st, node, mid, right, st')
    requires s' == CutShape(s, node, st[node].keys[mid], right)
    ensures Pending(st', s', root, node, st[node].keys[mid], right, m)
  {
    assert NodeOk(st, s, node, st[node], s[node]);
    CutInternalLinks(st, s, root, node, mid, right, st', s');
    CutInternalNodes(st, s, node, mid, right, st', s');
    CutInternalLeaves(st, s, node, mid, right, st', s', m);
  }
}
