/** The binary search tree of strings. The trees that its nodes stand for are ghost values; a reference to a
    pointer in the source is a Slot here. */
module BSTree {
  import opened StringOrder

  class TreeNode {
    var value: string
    var leftChild: TreeNode?
    var rightChild: TreeNode?

    constructor (val: string)
      ensures value == val && leftChild == null && rightChild == null
    {
      value, leftChild, rightChild := val, null, null;
    }
  }

  // A place that holds a pointer to a node.
  datatype Slot = Root | LeftOf(parent: TreeNode) | RightOf(parent: TreeNode)

  datatype Tree = Leaf | Fork(at: TreeNode, left: Tree, key: string, right: Tree)

  datatype Side = L | R

  ghost function Nodes(t: Tree): set<TreeNode> {
    if t.Leaf? then {} else {t.at} + Nodes(t.left) + Nodes(t.right)
  }

  ghost function Keys(t: Tree): set<string> {
    if t.Leaf? then {} else {t.key} + Keys(t.left) + Keys(t.right)
  }

  // The nodes, each after those below it.
  ghost function PostOrder(t: Tree): seq<TreeNode> {
    if t.Leaf? then [] else PostOrder(t.left) + PostOrder(t.right) + [t.at]
  }

  ghost predicate Sorted(t: Tree) {
    t.Fork? ==>
      && (forall k :: k in Keys(t.left) ==> Less(k, t.key))
      && (forall k :: k in Keys(t.right) ==> Less(t.key, k))
      && Sorted(t.left) && Sorted(t.right)
  }

  // No node stands twice in the tree.
  ghost predicate Distinct(t: Tree) {
    t.Fork? ==>
      && t.at !in Nodes(t.left) && t.at !in Nodes(t.right) && Nodes(t.left) !! Nodes(t.right)
      && Distinct(t.left) && Distinct(t.right)
  }

  // ---------------------------------------------------------------- paths

  // The way a search for v goes, until it meets v or falls off the tree.
  ghost function PathTo(t: Tree, v: string): seq<Side> {
    if t.Leaf? || t.key == v then []
    else if Less(v, t.key) then [L] + PathTo(t.left, v) else [R] + PathTo(t.right, v)
  }

  ghost predicate IsPath(t: Tree, path: seq<Side>) {
    path != [] ==> t.Fork? && IsPath(if path[0] == L then t.left else t.right, path[1..])
  }

  ghost function Sub(t: Tree, path: seq<Side>): Tree
    requires IsPath(t, path)
  {
    if path == [] then t else Sub(if path[0] == L then t.left else t.right, path[1..])
  }

  // t with the subtree at the end of the path replaced.
  ghost function Plug(t: Tree, path: seq<Side>, u: Tree): Tree
    requires IsPath(t, path)
  {
    if path == [] then u
    else if path[0] == L then t.(left := Plug(t.left, path[1..], u))
    else t.(right := Plug(t.right, path[1..], u))
  }

  // The slot that holds the pointer to the subtree at the end of the path, when slot s holds the one to t.
  ghost function SlotAt(s: Slot, t: Tree, path: seq<Side>): Slot
    requires IsPath(t, path)
    decreases path
  {
    if path == [] then s
    else if path[0] == L then SlotAt(LeftOf(t.at), t.left, path[1..])
    else SlotAt(RightOf(t.at), t.right, path[1..])
  }

  ghost function Owner(s: Slot): set<TreeNode> {
    if s.Root? then {} else {s.parent}
  }

  // A search ends at v exactly when the tree has v.
  lemma {:induction false} SearchEndsAtKey(t: Tree, v: string)
    requires Sorted(t)
    ensures IsPath(t, PathTo(t, v))
    ensures var u := Sub(t, PathTo(t, v));
      && (v in Keys(t) <==> u.Fork?) && (u.Fork? ==> u.key == v) && Sorted(u)
    decreases t
  {
    if t.Fork? && t.key != v {
      Trichotomy(v, t.key);
      SearchEndsAtKey(t.left, v);
      SearchEndsAtKey(t.right, v);
    }
  }

  lemma {:induction false} SlotIsInTree(s: Slot, t: Tree, path: seq<Side>)
    requires IsPath(t, path)
    ensures path == [] || Owner(SlotAt(s, t, path)) <= Nodes(t)
    ensures path != [] ==> !SlotAt(s, t, path).Root?
    decreases path
  {
    if path != [] {
      if path[0] == L { SlotIsInTree(LeftOf(t.at), t.left, path[1..]); }
      else { SlotIsInTree(RightOf(t.at), t.right, path[1..]); }
    }
  }

  // The slot above a subtree belongs to no node of it.
  lemma {:induction false} SlotIsAbove(s: Slot, t: Tree, path: seq<Side>)
    requires IsPath(t, path) && Distinct(t) && Owner(s) !! Nodes(t)
    ensures Owner(SlotAt(s, t, path)) !! Nodes(Sub(t, path))
    decreases path
  {
    if path != [] {
      if path[0] == L { SlotIsAbove(LeftOf(t.at), t.left, path[1..]); }
      else { SlotIsAbove(RightOf(t.at), t.right, path[1..]); }
    }
  }

  lemma {:induction false} SubIsWithin(t: Tree, path: seq<Side>)
    requires IsPath(t, path) && Distinct(t)
    ensures Nodes(Sub(t, path)) <= Nodes(t) && Distinct(Sub(t, path))
    decreases path
  {
    if path != [] { SubIsWithin(if path[0] == L then t.left else t.right, path[1..]); }
  }

  // Replacing a subtree replaces its nodes.
  lemma {:induction false} PlugNodes(t: Tree, path: seq<Side>, u: Tree)
    requires IsPath(t, path) && Distinct(t) && Distinct(u)
    requires Nodes(u) !! (Nodes(t) - Nodes(Sub(t, path)))
    ensures Nodes(Plug(t, path, u)) == (Nodes(t) - Nodes(Sub(t, path))) + Nodes(u)
    ensures Distinct(Plug(t, path, u))
    decreases path
  {
    if path != [] {
      var child := if path[0] == L then t.left else t.right;
      SubIsWithin(child, path[1..]);
      PlugNodes(child, path[1..], u);
    }
  }

  // A key that is not on its own side of the root is not in the tree.
  lemma NotAcross(t: Tree, v: string)
    requires Sorted(t) && t.Fork? && t.key != v
    ensures Less(v, t.key) ==> v !in Keys(t.right)
    ensures !Less(v, t.key) ==> v !in Keys(t.left)
  {
    Trichotomy(v, t.key);
  }

  // Replacing the subtree that a search for v ends at, by one that differs in v alone, keeps the tree in
  // order and changes its keys in v alone.
  lemma {:induction false} PlugAtSearchPath(t: Tree, v: string, u: Tree)
    requires Sorted(t) && Sorted(u) && IsPath(t, PathTo(t, v))
    requires Keys(u) - {v} == Keys(Sub(t, PathTo(t, v))) - {v}
    ensures var t' := Plug(t, PathTo(t, v), u);
      Sorted(t') && Keys(t') - {v} == Keys(t) - {v} && (v in Keys(t') <==> v in Keys(u))
    decreases t
  {
    if t.Fork? && t.key != v {
      var left := Less(v, t.key);
      Trichotomy(v, t.key);
      NotAcross(t, v);
      hide Less;
      var child, other := if left then t.left else t.right, if left then t.right else t.left;
      assert PathTo(t, v) == [if left then L else R] + PathTo(child, v);
      assert PathTo(t, v)[1..] == PathTo(child, v);
      PlugAtSearchPath(child, v, u);
      var child' := Plug(child, PathTo(child, v), u);
      assert Plug(t, PathTo(t, v), u) == if left then t.(left := child') else t.(right := child');
      hide Plug, PathTo, Sub, IsPath;
      ChildChanged(t, v, left, child');
    }
  }

  // One level of it.
  lemma ChildChanged(t: Tree, v: string, left: bool, child: Tree)
    requires t.Fork? && Sorted(t) && Sorted(child) && t.key != v
    requires if left then Less(v, t.key) && v !in Keys(t.right) else Less(t.key, v) && v !in Keys(t.left)
    requires Keys(child) - {v} == Keys(if left then t.left else t.right) - {v}
    ensures var t' := if left then t.(left := child) else t.(right := child);
      Sorted(t') && Keys(t') - {v} == Keys(t) - {v} && (v in Keys(t') <==> v in Keys(child))
  {
    hide Less;
    var was, other := if left then t.left else t.right, if left then t.right else t.left;
    var t' := if left then t.(left := child) else t.(right := child);
    var rest := {t.key} + Keys(other);
    assert Keys(t) == Keys(was) + rest && Keys(t') == Keys(child) + rest;
    SameBesides(Keys(was), Keys(child), rest, v);
    forall k | k in Keys(child) && k != v ensures k in Keys(was) {
      assert k in Keys(child) - {v};
    }
  }

  lemma SameBesides(a: set<string>, b: set<string>, rest: set<string>, v: string)
    requires a - {v} == b - {v}
    ensures (a + rest) - {v} == (b + rest) - {v}
  {
    assert (a + rest) - {v} == (a - {v}) + (rest - {v});
    assert (b + rest) - {v} == (b - {v}) + (rest - {v});
  }

  // ---------------------------------------------------------------- the least key, and removal

  ghost function MinPath(t: Tree): (path: seq<Side>)
    requires t.Fork?
    ensures IsPath(t, path) && Sub(t, path).Fork? && Sub(t, path).left.Leaf?
  {
    if t.left.Leaf? then [] else [L] + MinPath(t.left)
  }

  ghost function Min(t: Tree): (m: Tree)
    requires t.Fork?
    ensures m.Fork? && m.left.Leaf?
  {
    Sub(t, MinPath(t))
  }

  // What is left of t when its least node is unlinked.
  ghost function WithoutMin(t: Tree): Tree
    requires t.Fork?
  {
    Plug(t, MinPath(t), Min(t).right)
  }

  lemma {:induction false} MinIsLeast(t: Tree)
    requires t.Fork? && Sorted(t)
    ensures Sorted(WithoutMin(t)) && Min(t).key in Keys(t)
    ensures Keys(WithoutMin(t)) == Keys(t) - {Min(t).key}
    ensures forall k :: k in Keys(t) && k != Min(t).key ==> Less(Min(t).key, k)
    decreases t
  {
    LessIsIrreflexive(t.key);
    if t.left.Leaf? {
      assert t.key !in Keys(t.right);
    } else {
      MinIsLeast(t.left);
      assert MinPath(t)[1..] == MinPath(t.left);
      assert Min(t) == Min(t.left) && WithoutMin(t) == t.(left := WithoutMin(t.left));
      var m := Min(t).key;
      assert Less(m, t.key);
      forall k | k in Keys(t.right) ensures Less(m, k) { LessIsTransitive(m, t.key, k); }
      LessIsIrreflexive(m);
      assert m !in Keys(t.right) && m != t.key;
    }
  }

  // The tree without its root key, as the four branches of recurseRemove leave it.
  ghost function WithoutRoot(t: Tree): Tree
    requires t.Fork?
  {
    if t.left.Leaf? then t.right
    else if t.right.Leaf? then t.left
    else Fork(t.at, t.left, Min(t.right).key, WithoutMin(t.right))
  }

  // The node that goes: the root's own, or its successor's.
  ghost function Unlinked(t: Tree): TreeNode
    requires t.Fork?
  {
    if t.left.Leaf? || t.right.Leaf? then t.at else Min(t.right).at
  }

  // With two children the root takes over its successor: the least key on the right, which goes from there.
  lemma SuccessorTakesOver(t: Tree)
    requires t.Fork? && Sorted(t)
    ensures t.left.Leaf? ==> WithoutRoot(t) == t.right
    ensures t.right.Leaf? ==> WithoutRoot(t) == t.left
    ensures t.left.Fork? && t.right.Fork? ==>
      var u := WithoutRoot(t);
      && u.Fork? && u.at == t.at && u.left == t.left
      && u.key in Keys(t.right) && Keys(u.right) == Keys(t.right) - {u.key}
      && forall k :: k in Keys(t.right) && k != u.key ==> Less(u.key, k)
  {
    if t.right.Fork? { MinIsLeast(t.right); }
  }

  lemma RootKeyRemoved(t: Tree)
    requires t.Fork? && Sorted(t)
    ensures Sorted(WithoutRoot(t)) && Keys(WithoutRoot(t)) == Keys(t) - {t.key}
  {
    LessIsIrreflexive(t.key);
    if t.left.Fork? && t.right.Fork? {
      MinIsLeast(t.right);
      var m := Min(t.right).key;
      forall k | k in Keys(t.left) ensures Less(k, m) { LessIsTransitive(k, t.key, m); }
      LessIsIrreflexive(m);
    }
  }

  lemma RootNodeRemoved(t: Tree)
    requires t.Fork? && Distinct(t)
    ensures Unlinked(t) in Nodes(t) && Distinct(WithoutRoot(t))
    ensures Nodes(WithoutRoot(t)) == Nodes(t) - {Unlinked(t)}
  {
    if t.left.Fork? && t.right.Fork? {
      var m := Min(t.right);
      SubIsWithin(t.right, MinPath(t.right));
      PlugNodes(t.right, MinPath(t.right), m.right);
      assert Nodes(m) == {m.at} + Nodes(m.right);
    }
  }

  // ---------------------------------------------------------------- the two updates of the tree

  ghost function Added(t: Tree, v: string, node: TreeNode): Tree
    requires IsPath(t, PathTo(t, v))
  {
    Plug(t, PathTo(t, v), Fork(node, Leaf, v, Leaf))
  }

  lemma AddedIsRight(t: Tree, v: string, node: TreeNode)
    requires Sorted(t) && Distinct(t) && v !in Keys(t) && node !in Nodes(t)
    ensures IsPath(t, PathTo(t, v)) && Sub(t, PathTo(t, v)).Leaf?
    ensures Sorted(Added(t, v, node)) && Keys(Added(t, v, node)) == Keys(t) + {v}
    ensures Distinct(Added(t, v, node)) && Nodes(Added(t, v, node)) == Nodes(t) + {node}
  {
    var u, path := Fork(node, Leaf, v, Leaf), PathTo(t, v);
    SingleNode(node, v);
    hide Plug, PathTo, Sub, Sorted, Distinct, IsPath, Nodes, Keys;
    SearchEndsAtKey(t, v);
    PlugNodes(t, path, u);
    PlugAtSearchPath(t, v, u);
    ElementAdded(Keys(t), Keys(Added(t, v, node)), v);
  }

  lemma SingleNode(node: TreeNode, v: string)
    ensures var u := Fork(node, Leaf, v, Leaf);
      Sorted(u) && Distinct(u) && Keys(u) == {v} && Nodes(u) == {node} && Keys(Leaf) == {} && Nodes(Leaf) == {}
  {
  }

  lemma ElementAdded<A>(was: set<A>, now: set<A>, x: A)
    requires now - {x} == was - {x} && x in now
    ensures now == was + {x}
  {
    assert now == (now - {x}) + {x};
  }

  lemma ElementDropped<A>(was: set<A>, now: set<A>, x: A)
    requires now - {x} == was - {x} && x !in now
    ensures now == was - {x}
  {
    assert now == now - {x};
  }

  lemma PartShrunk<A>(whole: set<A>, part: set<A>, x: A)
    requires part <= whole && x in part
    ensures (whole - part) + (part - {x}) == whole - {x}
    ensures (part - {x}) !! (whole - part)
  {
  }

  ghost function Dropped(t: Tree, v: string): Tree
    requires IsPath(t, PathTo(t, v)) && Sub(t, PathTo(t, v)).Fork?
  {
    Plug(t, PathTo(t, v), WithoutRoot(Sub(t, PathTo(t, v))))
  }

  lemma DroppedIsRight(t: Tree, v: string)
    requires Sorted(t) && Distinct(t) && v in Keys(t)
    ensures IsPath(t, PathTo(t, v)) && Sub(t, PathTo(t, v)).Fork?
    ensures Sorted(Dropped(t, v)) && Keys(Dropped(t, v)) == Keys(t) - {v}
    ensures Distinct(Dropped(t, v)) && Nodes(Dropped(t, v)) == Nodes(t) - {Unlinked(Sub(t, PathTo(t, v)))}
  {
    SearchEndsAtKey(t, v);
    var path := PathTo(t, v);
    var u := Sub(t, path);
    hide Plug, PathTo, Sub, Sorted, Distinct, IsPath, Nodes, Keys, WithoutRoot, Unlinked;
    SubIsWithin(t, path);
    RootNodeRemoved(u);
    RootKeyRemoved(u);
    PartShrunk(Nodes(t), Nodes(u), Unlinked(u));
    PlugNodes(t, path, WithoutRoot(u));
    ElementTwice(Keys(u), v);
    PlugAtSearchPath(t, v, WithoutRoot(u));
    ElementDropped(Keys(t), Keys(Dropped(t, v)), v);
  }

  lemma ElementTwice<A>(s: set<A>, x: A)
    ensures (s - {x}) - {x} == s - {x}
  {
  }

  // ---------------------------------------------------------------- memory

  datatype Cell = Cell(value: string, leftChild: TreeNode?, rightChild: TreeNode?)

  // What the fields of the tree and of its nodes hold at one moment.
  datatype Memory = Memory(root: TreeNode?, cells: map<TreeNode, Cell>)

  ghost predicate Has(m: Memory, s: Slot) {
    Owner(s) <= m.cells.Keys
  }

  ghost function Load(m: Memory, s: Slot): TreeNode?
    requires Has(m, s)
  {
    match s
    case Root => m.root
    case LeftOf(parent) => m.cells[parent].leftChild
    case RightOf(parent) => m.cells[parent].rightChild
  }

  ghost function Store(m: Memory, s: Slot, p: TreeNode?): (m': Memory)
    requires Has(m, s)
    ensures m'.cells.Keys == m.cells.Keys && Load(m', s) == p
  {
    match s
    case Root => m.(root := p)
    case LeftOf(parent) => m.(cells := m.cells[parent := m.cells[parent].(leftChild := p)])
    case RightOf(parent) => m.(cells := m.cells[parent := m.cells[parent].(rightChild := p)])
  }

  // The nodes reachable from p are linked up as t says.
  ghost predicate Shapes(m: Memory, t: Tree, p: TreeNode?) {
    if t.Leaf? then p == null
    else
      && p == t.at && t.at in m.cells && m.cells[t.at].value == t.key
      && Shapes(m, t.left, m.cells[t.at].leftChild) && Shapes(m, t.right, m.cells[t.at].rightChild)
  }

  lemma {:induction false} ShapesWithin(m: Memory, t: Tree, p: TreeNode?)
    requires Shapes(m, t, p)
    ensures Nodes(t) <= m.cells.Keys
    decreases t
  {
    if t.Fork? {
      ShapesWithin(m, t.left, m.cells[t.at].leftChild);
      ShapesWithin(m, t.right, m.cells[t.at].rightChild);
    }
  }

  // What a shape says of its top.
  lemma ForkParts(m: Memory, t: Tree, p: TreeNode?)
    requires Shapes(m, t, p) && Distinct(t)
    ensures t.Leaf? <==> p == null
    ensures t.Leaf? ==> Nodes(t) == {} && PostOrder(t) == []
    ensures t.Fork? ==>
      && p == t.at && p in m.cells && m.cells[p].value == t.key && Distinct(t.left) && Distinct(t.right)
      && Shapes(m, t.left, m.cells[p].leftChild) && Shapes(m, t.right, m.cells[p].rightChild)
      && Nodes(t) == Nodes(t.left) + Nodes(t.right) + {p} && Nodes(t.left) !! Nodes(t.right)
      && p !in Nodes(t.left) && p !in Nodes(t.right)
      && PostOrder(t) == PostOrder(t.left) + PostOrder(t.right) + [p]
  {
  }

  // Node n holds the same in both, but for slot s.
  ghost predicate SameBut(m: Memory, m': Memory, s: Slot, n: TreeNode) {
    && n in m.cells && n in m'.cells && m'.cells[n].value == m.cells[n].value
    && (s != LeftOf(n) ==> m'.cells[n].leftChild == m.cells[n].leftChild)
    && (s != RightOf(n) ==> m'.cells[n].rightChild == m.cells[n].rightChild)
  }

  lemma {:induction false} ShapesElsewhere(m: Memory, m': Memory, t: Tree, p: TreeNode?)
    requires Shapes(m, t, p)
    requires forall n :: n in Nodes(t) && n in m.cells ==> n in m'.cells && m'.cells[n] == m.cells[n]
    ensures Shapes(m', t, p)
    decreases t
  {
    if t.Fork? {
      ShapesElsewhere(m, m', t.left, m.cells[t.at].leftChild);
      ShapesElsewhere(m, m', t.right, m.cells[t.at].rightChild);
    }
  }

  // When only the subtree at the end of the path and the slot above it have changed, the whole tree is the
  // old one with that subtree replaced.
  lemma {:induction false} ChangeReplaces(m: Memory, m': Memory, s: Slot, t: Tree, path: seq<Side>, u: Tree)
    requires IsPath(t, path) && Distinct(t) && Owner(s) !! Nodes(t) && Has(m, s) && Has(m', s)
    requires Shapes(m, t, Load(m, s))
    requires forall n :: n in Nodes(t) - Nodes(Sub(t, path)) ==> SameBut(m, m', SlotAt(s, t, path), n)
    requires path != [] ==> Load(m', s) == Load(m, s)
    requires Has(m', SlotAt(s, t, path)) && Shapes(m', u, Load(m', SlotAt(s, t, path)))
    ensures Shapes(m', Plug(t, path, u), Load(m', s))
    decreases path
  {
    if path != [] {
      var left, rest := path[0] == L, path[1..];
      var down, child := if left then LeftOf(t.at) else RightOf(t.at), if left then t.left else t.right;
      var other := if left then t.right else t.left;
      SubIsWithin(child, rest);
      SlotIsInTree(down, child, rest);
      var end := SlotAt(s, t, path);
      assert Sub(t, path) == Sub(child, rest) && end == SlotAt(down, child, rest);
      assert forall n :: n in Nodes(other) ==> n in Nodes(t) - Nodes(Sub(t, path));
      assert SameBut(m, m', end, t.at);
      ChangeReplaces(m, m', down, child, rest, u);
      ChangeBelow(m, m', s, t, left, Plug(child, rest, u), end);
    }
  }

  // One level of it.
  lemma ChangeBelow(m: Memory, m': Memory, s: Slot, t: Tree, left: bool, u: Tree, end: Slot)
    requires t.Fork? && Distinct(t) && Has(m, s) && Has(m', s)
    requires Shapes(m, t, Load(m, s)) && Load(m', s) == Load(m, s) && SameBut(m, m', end, t.at)
    requires forall n :: n in Nodes(if left then t.right else t.left) ==> SameBut(m, m', end, n)
    requires end != (if left then RightOf(t.at) else LeftOf(t.at))
    requires Owner(end) !! Nodes(if left then t.right else t.left)
    requires Shapes(m', u, if left then m'.cells[t.at].leftChild else m'.cells[t.at].rightChild)
    ensures Shapes(m', if left then t.(left := u) else t.(right := u), Load(m', s))
  {
    ForkParts(m, t, Load(m, s));
    var other := if left then t.right else t.left;
    hide Shapes, Nodes, Distinct;
    forall n | n in Nodes(other) ensures n in m.cells && n in m'.cells && m'.cells[n] == m.cells[n] {
      assert SameBut(m, m', end, n);
    }
    ShapesElsewhere(m, m', other, if left then m.cells[t.at].rightChild else m.cells[t.at].leftChild);
    ForkShapes(m', if left then t.(left := u) else t.(right := u));
  }

  lemma ElsewhereUntouched(m: Memory, m': Memory, s: Slot, u: Tree)
    requires Has(m, s) && Owner(s) !! Nodes(u) && m'.root == m.root
    requires forall n :: n in m.cells.Keys - Nodes(u) ==> n in m'.cells && m'.cells[n] == m.cells[n]
    ensures Has(m', s) && Load(m', s) == Load(m, s)
    ensures forall n :: n in m.cells.Keys - Nodes(u) ==> SameBut(m, m', s, n)
  {
    hide Nodes;
  }

  lemma RightHangs(m: Memory, t: Tree, p: TreeNode)
    requires t.Fork? && Shapes(m, t, p)
    ensures p == t.at && Has(m, RightOf(t.at)) && Shapes(m, t.right, Load(m, RightOf(t.at)))
  {
  }

  lemma ForkShapes(m: Memory, t: Tree)
    requires t.Fork? && t.at in m.cells && m.cells[t.at].value == t.key
    requires Shapes(m, t.left, m.cells[t.at].leftChild) && Shapes(m, t.right, m.cells[t.at].rightChild)
    ensures Shapes(m, t, t.at)
  {
  }

  lemma AddedShape(m: Memory, m': Memory, t: Tree, v: string, node: TreeNode)
    requires Shapes(m, t, m.root) && Distinct(t) && node !in m.cells && m.cells.Keys == Nodes(t)
    requires IsPath(t, PathTo(t, v)) && Sub(t, PathTo(t, v)).Leaf?
    requires var m1 := m.(cells := m.cells[node := Cell(v, null, null)]);
      var end := SlotAt(Root, t, PathTo(t, v));
      Has(m1, end) && m' == Store(m1, end, node)
    ensures Shapes(m', Added(t, v, node), m'.root)
  {
    var path := PathTo(t, v);
    SlotIsInTree(Root, t, path);
    ChangeReplaces(m, m', Root, t, path, Fork(node, Leaf, v, Leaf));
  }

  // Every subtree hangs from its slot.
  lemma {:induction false} SubHangs(m: Memory, s: Slot, t: Tree, path: seq<Side>)
    requires IsPath(t, path) && Has(m, s) && Shapes(m, t, Load(m, s))
    ensures Has(m, SlotAt(s, t, path)) && Shapes(m, Sub(t, path), Load(m, SlotAt(s, t, path)))
    decreases path
  {
    if path != [] {
      if path[0] == L { SubHangs(m, LeftOf(t.at), t.left, path[1..]); }
      else { SubHangs(m, RightOf(t.at), t.right, path[1..]); }
    }
  }

  // Slot s now holds p, and node gone is no longer there.
  ghost function Spliced(m: Memory, s: Slot, p: TreeNode?, gone: TreeNode): Memory
    requires Has(m, s)
  {
    Memory(Store(m, s, p).root, Store(m, s, p).cells - {gone})
  }

  // Deleting before or after the write is the same.
  lemma DeleteFirst(m: Memory, s: Slot, p: TreeNode?, gone: TreeNode)
    requires Has(m, s) && gone !in Owner(s)
    ensures var m1 := m.(cells := m.cells - {gone});
      Has(m1, s) && Store(m1, s, p) == Spliced(m, s, p, gone)
  {
    var m1 := m.(cells := m.cells - {gone});
    assert Store(m1, s, p).cells == Spliced(m, s, p, gone).cells;
  }

  // The branches with at most one child: the child, if any, takes the place of its parent.
  lemma OneChildMovesUp(m: Memory, s: Slot, u: Tree, p: TreeNode?)
    requires u.Fork? && (u.left.Leaf? || u.right.Leaf?) && Distinct(u)
    requires Has(m, s) && Owner(s) !! Nodes(u) && Shapes(m, u, Load(m, s))
    requires p == if u.left.Leaf? then m.cells[u.at].rightChild else m.cells[u.at].leftChild
    ensures var m' := Spliced(m, s, p, u.at);
      && Has(m', s) && Shapes(m', WithoutRoot(u), Load(m', s))
      && (forall n :: n in m.cells.Keys - Nodes(u) ==> SameBut(m, m', s, n))
      && (!s.Root? ==> m'.root == m.root) && Unlinked(u) == u.at
  {
    ShapesWithin(m, u, u.at);
    ShapesElsewhere(m, Spliced(m, s, p, u.at), WithoutRoot(u), p);
  }

  // The branch with two children. First the successor's key is copied into the root of u.
  ghost function KeyCopied(m: Memory, u: Tree): Memory
    requires u.Fork? && u.right.Fork? && u.at in m.cells
  {
    m.(cells := m.cells[u.at := m.cells[u.at].(value := Min(u.right).key)])
  }

  lemma KeyCopiedShape(m: Memory, u: Tree)
    requires u.Fork? && u.right.Fork? && Distinct(u) && Shapes(m, u, u.at)
    ensures var m1 := KeyCopied(m, u);
      && Shapes(m1, u.left, m1.cells[u.at].leftChild) && Shapes(m1, u.right, m1.cells[u.at].rightChild)
      && m1.cells[u.at].value == Min(u.right).key && m1.cells.Keys == m.cells.Keys
  {
    ShapesElsewhere(m, KeyCopied(m, u), u.left, m.cells[u.at].leftChild);
    ShapesElsewhere(m, KeyCopied(m, u), u.right, m.cells[u.at].rightChild);
  }

  // Then the successor is spliced out below its right child.
  lemma SuccessorSpliced(m: Memory, at: TreeNode, t: Tree)
    requires t.Fork? && Distinct(t) && at in m.cells && at !in Nodes(t) && Shapes(m, t, m.cells[at].rightChild)
    ensures var s, least := SlotAt(RightOf(at), t, MinPath(t)), Min(t);
      && Owner(s) <= Nodes(t) + {at} && Has(m, s) && Load(m, s) == least.at && least.at in m.cells
      && least.at in Nodes(t) && least.at !in Owner(s)
      && m.cells[least.at].value == least.key
      && var m' := Spliced(m, s, m.cells[least.at].rightChild, least.at);
      && at in m'.cells && Shapes(m', WithoutMin(t), m'.cells[at].rightChild)
      && m'.cells[at].leftChild == m.cells[at].leftChild && m'.cells[at].value == m.cells[at].value
      && (forall n :: n in m.cells && n !in Nodes(t) + {at} ==> n in m'.cells && m'.cells[n] == m.cells[n])
      && m'.root == m.root
  {
    var down, path, least := RightOf(at), MinPath(t), Min(t);
    ShapesWithin(m, t, m.cells[at].rightChild);
    var s := SlotAt(down, t, path);
    SubHangs(m, down, t, path);
    SubIsWithin(t, path);
    SlotIsAbove(down, t, path);
    SlotIsInTree(down, t, path);
    var m' := Spliced(m, s, m.cells[least.at].rightChild, least.at);
    ShapesElsewhere(m, m', least.right, m.cells[least.at].rightChild);
    ChangeReplaces(m, m', down, t, path, least.right);
  }

  ghost function SuccessorSlot(u: Tree): Slot
    requires u.Fork? && u.right.Fork?
  {
    SlotAt(RightOf(u.at), u.right, MinPath(u.right))
  }

  lemma SuccessorMovesUp(m: Memory, u: Tree)
    requires u.Fork? && u.left.Fork? && u.right.Fork? && Distinct(u) && Shapes(m, u, u.at)
    ensures var m1, s, least := KeyCopied(m, u), SuccessorSlot(u), Min(u.right).at;
      && least !in Owner(s) && least in Nodes(u) && Owner(s) <= Nodes(u) <= m.cells.Keys
      && Load(m, s) == Load(m1, s) == least && Unlinked(u) == least
      && least in m.cells && m.cells[least].value == Min(u.right).key
      && var m' := Spliced(m1, s, m1.cells[least].rightChild, least);
      && Shapes(m', WithoutRoot(u), u.at) && m'.root == m.root
      && (forall n :: n in m.cells && n !in Nodes(u) ==> n in m'.cells && m'.cells[n] == m.cells[n])
  {
    hide MinPath, SlotAt, Plug, Sub, Min, WithoutMin;
    var m1, s, least := KeyCopied(m, u), SuccessorSlot(u), Min(u.right).at;
    ShapesWithin(m, u, u.at);
    KeyCopiedShape(m, u);
    SuccessorSpliced(m, u.at, u.right);
    SuccessorSpliced(m1, u.at, u.right);
    var m' := Spliced(m1, s, m1.cells[least].rightChild, least);
    ShapesElsewhere(m1, m', u.left, m.cells[u.at].leftChild);
  }

  // ---------------------------------------------------------------- the tree

  class BSTree {
    var root: TreeNode?
    ghost var tree: Tree
    // The nodes created and not deleted yet.
    ghost var live: set<TreeNode>
    // The nodes deleted, in order.
    ghost var deleted: seq<TreeNode>

    ghost function Now(): (m: Memory)
      reads this`root, this`live, live
      ensures m.cells.Keys == live && m.root == root
    {
      Memory(root, map n | n in live :: Cell(n.value, n.leftChild, n.rightChild))
    }

    ghost predicate Valid()
      reads this, live
    {
      live == Nodes(tree) && Shapes(Now(), tree, root) && Distinct(tree) && Sorted(tree)
    }

    ghost function Words(): set<string>
      reads this`tree
    {
      Keys(tree)
    }

    constructor ()
      ensures Valid() && Words() == {} && live == {}
    {
      root, tree, live, deleted := null, Leaf, {}, [];
    }

    function Get(s: Slot): TreeNode?
      reads this`root, Owner(s)
    {
      match s
      case Root => root
      case LeftOf(parent) => parent.leftChild
      case RightOf(parent) => parent.rightChild
    }

    method Put(s: Slot, p: TreeNode?)
      requires Owner(s) <= live
      modifies this`root, Owner(s)
      ensures Now() == Store(old(Now()), s, p)
    {
      match s {
        case Root => root := p;
        case LeftOf(parent) => parent.leftChild := p;
        case RightOf(parent) => parent.rightChild := p;
      }
      assert Now().cells == Store(old(Now()), s, p).cells;
    }

    method Create(value: string) returns (node: TreeNode)
      modifies this`live
      ensures fresh(node) && live == old(live) + {node}
      ensures Now() == old(Now()).(cells := old(Now()).cells[node := Cell(value, null, null)])
    {
      node := new TreeNode(value);
      live := live + {node};
    }

    method Delete(node: TreeNode)
      requires node in live
      modifies this`live, this`deleted
      ensures live == old(live) - {node} && deleted == old(deleted) + [node]
      ensures Now() == old(Now()).(cells := old(Now()).cells - {node})
    {
      live, deleted := live - {node}, deleted + [node];
    }

    // ------------------------------------------------------------ insert

    method Insert(value: string)
      requires Valid()
      modifies this, live
      ensures Valid() && Words() == old(Words()) + {value}
      ensures value in old(Words()) ==> live == old(live) && Now() == old(Now())
      ensures value !in old(Words()) ==> exists n :: fresh(n) && live == old(live) + {n}
    {
      hide Sorted, Distinct, Keys, Nodes, Plug, PathTo, Sub, SlotAt, IsPath, Shapes, Now;
      ghost var m, path := Now(), PathTo(tree, value);
      SearchEndsAtKey(tree, value);
      var done, node := RecurseInsertion(Root, value, tree);
      if node != null {
        AddedIsRight(tree, value, node);
        AddedShape(m, Now(), tree, value, node);
        tree := Added(tree, value, node);
      }
    }

    // Nothing changes when the search meets the value. Otherwise a new node goes where the search fell off.
    method RecurseInsertion(s: Slot, value: string, ghost t: Tree) returns (done: bool, ghost node: TreeNode?)
      requires Owner(s) <= live && Shapes(Now(), t, Get(s)) && IsPath(t, PathTo(t, value))
      modifies this`root, this`live, live
      ensures done
      ensures node == null <==> Sub(t, PathTo(t, value)).Fork?
      ensures node == null ==> live == old(live) && Now() == old(Now())
      ensures node != null ==> fresh(node) && live == old(live) + {node}
      ensures node != null ==>
        var m := old(Now()).(cells := old(Now()).cells[node := Cell(value, null, null)]);
        var end := SlotAt(s, t, PathTo(t, value));
        Has(m, end) && Now() == Store(m, end, node)
      decreases t
    {
      var at := Get(s);
      if at == null {
        var created := Create(value);
        Put(s, created);
        return true, created;
      }
      Trichotomy(value, at.value);
      if Less(value, at.value) {
        done, node := RecurseInsertion(LeftOf(at), value, t.left);
      } else if Less(at.value, value) {
        done, node := RecurseInsertion(RightOf(at), value, t.right);
      } else {
        node := null;
      }
      done := true;
    }

    // ------------------------------------------------------------ search

    method Search(word: string) returns (node: TreeNode?)
      requires Valid()
      ensures node != null <==> word in Words()
      ensures node != null ==> node in live && node.value == word
    {
      SearchEndsAtKey(tree, word);
      node := RecurseSearch(root, word, tree);
    }

    method RecurseSearch(node: TreeNode?, value: string, ghost t: Tree) returns (found: TreeNode?)
      requires Shapes(Now(), t, node) && IsPath(t, PathTo(t, value))
      ensures Shapes(Now(), Sub(t, PathTo(t, value)), found)
      decreases t
    {
      if node == null || node.value == value { return node; }
      if Less(value, node.value) {
        found := RecurseSearch(node.leftChild, value, t.left);
      } else {
        found := RecurseSearch(node.rightChild, value, t.right);
      }
    }

    // ------------------------------------------------------------ remove

    method GetNodeRef(s: Slot, value: string, ghost t: Tree) returns (r: Slot)
      requires Owner(s) <= live && Shapes(Now(), t, Get(s)) && IsPath(t, PathTo(t, value))
      ensures r == SlotAt(s, t, PathTo(t, value))
      decreases t
    {
      var node := Get(s);
      if node == null { return s; }
      if node.value == value { return s; }
      if Less(value, node.value) {
        r := GetNodeRef(LeftOf(node), value, t.left);
      } else {
        r := GetNodeRef(RightOf(node), value, t.right);
      }
    }

    method FindMin(s: Slot, ghost t: Tree) returns (r: Slot)
      requires Owner(s) <= live && Shapes(Now(), t, Get(s)) && t.Fork?
      ensures r == SlotAt(s, t, MinPath(t))
      decreases t
    {
      var node := Get(s);
      if node.leftChild == null { return s; }
      r := FindMin(LeftOf(node), t.left);
    }

    method Remove(word: string)
      requires Valid()
      modifies this, live
      ensures Valid() && Words() == old(Words()) - {word}
      ensures word !in old(Words()) ==> live == old(live)
      ensures word in old(Words()) ==> exists n :: n in old(live) && live == old(live) - {n}
    {
      hide Sorted, Distinct, Keys, Nodes, Plug, PathTo, Sub, SlotAt, IsPath, Now, Load;
      SearchEndsAtKey(tree, word);
      GetIsLoad(Root);
      ghost var m, path := Now(), PathTo(tree, word);
      ghost var u := Sub(tree, path);
      SubHangs(Now(), Root, tree, path);
      SlotIsInTree(Root, tree, path);
      var slot := GetNodeRef(Root, word, tree);
      GetIsLoad(slot);
      var target := Get(slot);
      if target == null { return; }
      SlotIsAbove(Root, tree, path);
      SubIsWithin(tree, path);
      Unlink(slot, u);
      GetIsLoad(slot);
      GetIsLoad(Root);
      ChangeReplaces(m, Now(), Root, tree, path, WithoutRoot(u));
      DroppedIsRight(tree, word);
      tree := Dropped(tree, word);
    }

    // The four branches on the node that the slot points to. One node is deleted, and every slot outside the
    // subtree but this one stays as it was.
    method Unlink(slot: Slot, ghost u: Tree)
      requires u.Fork? && Distinct(u) && Nodes(u) <= live && Owner(slot) <= live - Nodes(u)
      requires Shapes(Now(), u, Get(slot))
      modifies this`root, this`live, this`deleted, live
      ensures live == old(live) - {Unlinked(u)} && Unlinked(u) in Nodes(u)
      ensures Shapes(Now(), WithoutRoot(u), Get(slot))
      ensures !slot.Root? ==> root == old(root)
      ensures forall n :: n in old(live) - Nodes(u) ==> SameBut(old(Now()), Now(), slot, n)
    {
      hide WithoutRoot, Unlinked, Nodes, Distinct, Shapes, Now, Get, Load, Spliced, SameBut;
      ghost var m := Now();
      RootNodeRemoved(u);
      GetIsLoad(slot);
      var target := Get(slot);
      ForkParts(m, u, target);
      ForkParts(m, u.left, m.cells[target].leftChild);
      ForkParts(m, u.right, m.cells[target].rightChild);
      CellIsNow(target);
      if target.leftChild == null && target.rightChild == null {
        DeleteFirst(m, slot, null, target);
        OneChildMovesUp(m, slot, u, null);
        Delete(target);
        Put(slot, null);
      } else if target.leftChild == null {
        OneChildMovesUp(m, slot, u, target.rightChild);
        var temp := target;
        SpliceOut(slot, target.rightChild, temp);
      } else if target.rightChild == null {
        OneChildMovesUp(m, slot, u, target.leftChild);
        var temp := target;
        SpliceOut(slot, target.leftChild, temp);
      } else {
        UnlinkSuccessor(target, u);
        ElsewhereUntouched(m, Now(), slot, u);
      }
      GetIsLoad(slot);
    }

    lemma CellIsNow(node: TreeNode)
      requires node in live
      ensures Now().cells[node] == Cell(node.value, node.leftChild, node.rightChild)
    {
    }

    method UnlinkSuccessor(target: TreeNode, ghost u: Tree)
      requires u.Fork? && u.left.Fork? && u.right.Fork? && Distinct(u) && Nodes(u) <= live
      requires Shapes(Now(), u, target)
      modifies this`root, this`live, this`deleted, live
      ensures live == old(live) - {Unlinked(u)}
      ensures Shapes(Now(), WithoutRoot(u), target)
      ensures forall n :: n in old(live) - Nodes(u) ==> n in live && Now().cells[n] == old(Now()).cells[n]
      ensures root == old(root) && Unlinked(u) in Nodes(u)
    {
      hide WithoutRoot, Unlinked, Nodes, Distinct, MinPath, SlotAt, Min, Shapes, Now, Get, Load, Spliced;
      ghost var m := Now();
      RightHangs(m, u, target);
      SuccessorMovesUp(m, u);
      GetIsLoad(RightOf(target));
      var successor := FindMin(RightOf(target), u.right);
      GetIsLoad(successor);
      CopyValue(target, Get(successor));
      GetIsLoad(successor);
      assert Now() == KeyCopied(m, u);
      var temp := Get(successor);
      CellIsNow(temp);
      SpliceOut(successor, temp.rightChild, temp);
    }

    lemma GetIsLoad(s: Slot)
      requires Owner(s) <= live
      ensures Get(s) == Load(Now(), s)
    {
    }

    method CopyValue(to: TreeNode, from: TreeNode)
      requires to in live && from in live
      modifies to`value
      ensures Now() == var m := old(Now()); m.(cells := m.cells[to := m.cells[to].(value := m.cells[from].value)])
    {
      ghost var m := Now();
      to.value := from.value;
      assert Now().cells == m.cells[to := m.cells[to].(value := m.cells[from].value)];
    }

    // The slot is given p, and the node it held is deleted.
    method SpliceOut(slot: Slot, p: TreeNode?, temp: TreeNode)
      requires Owner(slot) <= live - {temp} && temp in live
      modifies this`root, this`live, this`deleted, live
      ensures live == old(live) - {temp}
      ensures Now() == Spliced(old(Now()), slot, p, temp) && deleted == old(deleted) + [temp]
    {
      Put(slot, p);
      Delete(temp);
    }

    // ------------------------------------------------------------ the destructor

    // Every node is deleted, each once and after its children.
    method Destroy()
      requires Valid()
      modifies this`live, this`deleted
      ensures live == {} && deleted == old(deleted) + PostOrder(old(tree))
    {
      Clear(root, tree);
    }

    method Clear(node: TreeNode?, ghost t: Tree)
      requires Shapes(Now(), t, node) && Distinct(t) && Nodes(t) <= live
      modifies this`live, this`deleted
      ensures live == old(live) - Nodes(t) && deleted == old(deleted) + PostOrder(t)
      ensures Now() == old(Now()).(cells := old(Now()).cells - Nodes(t))
      decreases t
    {
      hide Shapes, Distinct, Nodes, PostOrder, Now;
      ghost var m := Now();
      ForkParts(m, t, node);
      if node != null {
        CellIsNow(node);
        Clear(node.leftChild, t.left);
        ShapesElsewhere(m, Now(), t.right, node.rightChild);
        Clear(node.rightChild, t.right);
        Delete(node);
        assert m.cells - Nodes(t.left) - Nodes(t.right) - {node} == m.cells - Nodes(t);
      }
    }
  }
}
