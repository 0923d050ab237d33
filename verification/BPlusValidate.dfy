/** Validate (BPlusTree.hpp, Validation and Validation Helpers), on any heap.

    Nothing is assumed of the heap but that its pointers are typed.  A node reached twice would be
    its own descendant, and its parent link can only name one parent, so the walk terminates. */
module BPlusValidate {
  import opened BPlusNodes
  import opened BPlusSearch
  import opened BPlusChain

  // Pointers are null or lead to nodes, and the links of a leaf lead to leaves.
  ghost predicate Typed(st: Store) {
    && NULL !in st
    && (forall id :: id in st && st[id].Internal? ==> forall c :: c in st[id].children ==> c == NULL || c in st)
    && (forall id :: id in st && st[id].Leaf? && st[id].next != NULL ==> st[id].next in st && st[st[id].next].Leaf?)
  }

  // The fill ValidateNode demands: the root is exempt, but an internal root has two children.
  predicate CheckedFill(order: nat, root: Id, id: Id, n: Node) {
    && |n.keys| <= MaxKeys(order)
    && (if id == root then n.Internal? ==> |n.keys| >= 1 else |n.keys| >= Minimum(order, n))
  }

  // What a successful walk from top has seen.
  ghost predicate Checked(order: nat, st: Store, root: Id, s: Shape, top: Id) {
    && Linked(st, s, top)
    && forall id :: id in s ==> CheckedFill(order, root, id, st[id])
  }

  // The line of descent from the root to the node being checked.
  ghost predicate Descent(st: Store, root: Id, path: seq<Id>) {
    && path != [] && path[0] == root && NULL !in st
    && (forall i :: 0 <= i < |path| ==> path[i] in st)
    && st[root].parent == NULL
    && (forall i :: 0 < i < |path| ==> st[path[i]].parent == path[i - 1])
    && (forall i, j :: 0 <= i < j < |path| ==> path[i] != path[j])
  }

  ghost function Seen(path: seq<Id>): set<Id> {
    set id | id in path
  }

  // A child with the right parent link is not one of its own ancestors.
  lemma DescentExtends(st: Store, root: Id, path: seq<Id>, child: Id)
    requires Descent(st, root, path) && child in st && st[child].parent == path[|path| - 1]
    ensures child !in path && Descent(st, root, path + [child])
    ensures st.Keys - Seen(path + [child]) < st.Keys - Seen(path)
  {
    forall i | 0 <= i < |path| ensures path[i] != child {
      assert i > 0 ==> path[i - 1] != path[|path| - 1];
    }
    assert child in st.Keys - Seen(path) && child !in st.Keys - Seen(path + [child]);
  }

  // ---------------------------------------------------------------- gluing the children's shapes

  // k lies in the window of one of the first n children.
  ghost predicate InPrefix(node: Node, p: Place, n: nat, k: int) {
    Within(p, k) && n > 0 && (n <= |node.keys| ==> k < node.keys[n - 1])
  }

  // acc covers the first n children of id, whose windows lie below bound.
  ghost predicate Glued(order: nat, st: Store, root: Id, id: Id, p: Place, n: nat, acc: Shape)
    requires id in st && st[id].Internal? && |st[id].children| == |st[id].keys| + 1 && p.level > 0
  {
    && n <= |st[id].children| && acc.Keys <= st.Keys && id !in acc
    && (forall x :: x in acc ==> NodeOk(st, acc, x, st[x], acc[x]) && CheckedFill(order, root, x, st[x]))
    && (forall x :: x in acc ==> acc[x].level < p.level)
    && (forall x :: x in acc ==> GluedUnder(st, acc, id, x))
    && (forall i :: 0 <= i < n ==> ChildOk(st, acc, id, st[id], p, i))
    && (forall x, k :: x in acc && Within(acc[x], k) ==> InPrefix(st[id], p, n, k))
  }

  ghost predicate GluedUnder(st: Store, acc: Shape, id: Id, x: Id)
    requires x in st && id in st
  {
    var q := st[x].parent;
    q in st && (q in acc || q == id) && st[q].Internal? && x in st[q].children
  }

  // Every node and child of a shape is in order; the shape need not be one tree.
  ghost predicate Locally(order: nat, st: Store, root: Id, s: Shape) {
    && s.Keys <= st.Keys
    && forall x :: x in s ==> NodeOk(st, s, x, st[x], s[x]) && CheckedFill(order, root, x, st[x])
  }

  lemma NodeOkExtends(st: Store, s: Shape, s': Shape, id: Id, n: Node, p: Place)
    requires NodeOk(st, s, id, n, p)
    requires forall c :: c in s ==> c in s' && s'[c] == s[c]
    ensures NodeOk(st, s', id, n, p)
  {
    if n.Internal? {
      forall i | 0 <= i < |n.children| ensures ChildOk(st, s', id, n, p, i) {
        assert ChildOk(st, s, id, n, p, i);
      }
    }
  }

  // All windows below top lie in the window of top.
  lemma {:induction false} WithinTop(st: Store, s: Shape, top: Id, x: Id, k: int)
    requires Linked(st, s, top) && x in s && Within(s[x], k)
    ensures Within(s[top], k)
    decreases s[top].level - s[x].level
  {
    if x != top {
      assert Hangs(st, s, top, x);
      var q := st[x].parent;
      var i :| 0 <= i < |st[q].children| && st[q].children[i] == x;
      assert ChildOk(st, s, q, st[q], s[q], i);
      ChildWithin(st, s, q, i, k);
      assert q != top ==> Hangs(st, s, top, q);
      WithinTop(st, s, top, q, k);
    }
  }

  // The next child's shape, as ValidateNode returns it.
  ghost predicate NextSub(order: nat, st: Store, root: Id, id: Id, p: Place, n: nat, sub: Shape)
    requires id in st && st[id].Internal? && |st[id].children| == |st[id].keys| + 1 && p.level > 0
  {
    && n < |st[id].children|
    && var c := st[id].children[n];
    && c in st && st[c].parent == id && Checked(order, st, root, sub, c) && sub[c] == ChildPlace(st[id], p, n)
    && id !in sub
  }

  lemma SubWithin(order: nat, st: Store, root: Id, id: Id, p: Place, n: nat, sub: Shape)
    requires id in st && st[id].Internal? && |st[id].children| == |st[id].keys| + 1 && p.level > 0
    requires NextSub(order, st, root, id, p, n, sub)
    ensures forall x, k :: x in sub && Within(sub[x], k) ==> Within(ChildPlace(st[id], p, n), k)
  {
    forall x, k | x in sub && Within(sub[x], k) ensures Within(ChildPlace(st[id], p, n), k) {
      WithinTop(st, sub, st[id].children[n], x, k);
    }
  }

  // Every node below the root has a key, so no node can lie in two children's windows.
  lemma GluedApart(order: nat, st: Store, root: Id, id: Id, p: Place, n: nat, acc: Shape, sub: Shape, x: Id)
    requires order >= 3 && id in st && st[id].Internal? && |st[id].children| == |st[id].keys| + 1 && p.level > 0
    requires Glued(order, st, root, id, p, n, acc) && NextSub(order, st, root, id, p, n, sub)
    requires root !in acc && x in acc
    ensures x !in sub
  {
    var key := st[x].keys[0];
    assert NodeOk(st, acc, x, st[x], acc[x]) && CheckedFill(order, root, x, st[x]);
    assert Within(acc[x], key);
    SubWithin(order, st, root, id, p, n, sub);
    assert x in sub ==> NodeOk(st, sub, x, st[x], sub[x]) && Within(sub[x], key);
    assert x in sub ==> Within(ChildPlace(st[id], p, n), key);
    assert InPrefix(st[id], p, n, key);
  }

  lemma GluedNodes(order: nat, st: Store, root: Id, id: Id, p: Place, n: nat, acc: Shape, sub: Shape)
    requires id in st && st[id].Internal? && |st[id].children| == |st[id].keys| + 1 && p.level > 0
    requires Glued(order, st, root, id, p, n, acc) && NextSub(order, st, root, id, p, n, sub)
    requires forall x :: x in acc ==> x !in sub
    ensures var both := acc + sub;
      && (forall x :: x in both ==> NodeOk(st, both, x, st[x], both[x]) && CheckedFill(order, root, x, st[x]))
      && (forall i :: 0 <= i <= n ==> ChildOk(st, both, id, st[id], p, i))
  {
    var both := acc + sub;
    forall x | x in both ensures NodeOk(st, both, x, st[x], both[x]) && CheckedFill(order, root, x, st[x]) {
      if x in sub {
        assert NodeOk(st, sub, x, st[x], sub[x]);
        NodeOkExtends(st, sub, both, x, st[x], sub[x]);
      } else {
        assert NodeOk(st, acc, x, st[x], acc[x]);
        NodeOkExtends(st, acc, both, x, st[x], acc[x]);
      }
    }
    forall i | 0 <= i <= n ensures ChildOk(st, both, id, st[id], p, i) {
      assert i < n ==> ChildOk(st, acc, id, st[id], p, i);
    }
  }

  lemma GluedHang(order: nat, st: Store, root: Id, id: Id, p: Place, n: nat, acc: Shape, sub: Shape)
    requires id in st && st[id].Internal? && |st[id].children| == |st[id].keys| + 1 && p.level > 0
    requires Glued(order, st, root, id, p, n, acc) && NextSub(order, st, root, id, p, n, sub)
    requires forall x :: x in acc ==> x !in sub
    ensures forall x :: x in acc + sub ==> GluedUnder(st, acc + sub, id, x) && (acc + sub)[x].level < p.level
  {
    var c := st[id].children[n];
    forall x | x in acc + sub ensures GluedUnder(st, acc + sub, id, x) && (acc + sub)[x].level < p.level {
      if x in sub {
        assert x != c ==> Hangs(st, sub, c, x);
      } else {
        assert GluedUnder(st, acc, id, x);
      }
    }
  }

  lemma GluedStep(order: nat, st: Store, root: Id, id: Id, p: Place, n: nat, acc: Shape, sub: Shape)
    requires order >= 3 && id in st && st[id].Internal? && |st[id].children| == |st[id].keys| + 1 && p.level > 0
    requires Sorted(st[id].keys) && forall i :: 0 <= i < |st[id].keys| ==> Within(p, st[id].keys[i])
    requires Glued(order, st, root, id, p, n, acc) && NextSub(order, st, root, id, p, n, sub)
    requires root !in acc
    ensures Glued(order, st, root, id, p, n + 1, acc + sub)
    ensures forall x :: x in acc ==> x !in sub
  {
    SubWithin(order, st, root, id, p, n, sub);
    forall x | x in acc ensures x !in sub { GluedApart(order, st, root, id, p, n, acc, sub, x); }
    GluedNodes(order, st, root, id, p, n, acc, sub);
    GluedHang(order, st, root, id, p, n, acc, sub);
    var both, keys := acc + sub, st[id].keys;
    forall x, k | x in both && Within(both[x], k)
      ensures InPrefix(st[id], p, n + 1, k)
    {
      if x in sub {
        assert Within(ChildPlace(st[id], p, n), k);
        assert n > 0 ==> Within(p, keys[n - 1]);
        assert n < |keys| ==> Within(p, keys[n]);
      } else {
        assert Within(acc[x], k) && InPrefix(st[id], p, n, k);
      }
    }
  }

  // All children glued: the node itself goes on top.
  lemma GluedTop(order: nat, st: Store, root: Id, id: Id, p: Place, acc: Shape)
    requires id in st && st[id].Internal? && |st[id].children| == |st[id].keys| + 1 && p.level > 0
    requires KeysOk(st[id], p) && CheckedFill(order, root, id, st[id])
    requires Glued(order, st, root, id, p, |st[id].children|, acc)
    ensures Checked(order, st, root, acc[id := p], id)
  {
    var s := acc[id := p];
    forall x | x in s ensures NodeOk(st, s, x, st[x], s[x]) && CheckedFill(order, root, x, st[x]) {
      if x == id {
        forall i | 0 <= i < |st[id].children| ensures ChildOk(st, s, id, st[id], p, i) {
          assert ChildOk(st, acc, id, st[id], p, i);
        }
      } else {
        assert NodeOk(st, acc, x, st[x], acc[x]);
        NodeOkExtends(st, acc, s, x, st[x], acc[x]);
      }
    }
    forall x | x in s && x != id ensures Hangs(st, s, id, x) {
      assert GluedUnder(st, acc, id, x);
    }
  }

  // ---------------------------------------------------------------- counting keys

  lemma {:induction false} SortedKeyCount(keys: seq<int>)
    requires Sorted(keys)
    ensures |(set k | k in keys)| == |keys|
  {
    if keys != [] {
      var rest := keys[..|keys| - 1];
      SortedKeyCount(rest);
      var last := keys[|keys| - 1];
      assert keys == rest + [last];
      assert (set k | k in keys) == (set k | k in rest) + {last};
      assert last !in rest;
    }
  }

  // The children of one node hold different keys, so their counts add up.
  lemma GluedKeyCount(order: nat, st: Store, root: Id, id: Id, p: Place, n: nat, acc: Shape, sub: Shape)
    requires order >= 3 && id in st && st[id].Internal? && |st[id].children| == |st[id].keys| + 1 && p.level > 0
    requires Glued(order, st, root, id, p, n, acc) && NextSub(order, st, root, id, p, n, sub)
    requires forall x :: x in acc ==> x !in sub
    ensures |KeysOf(st, acc + sub)| == |KeysOf(st, acc)| + |KeysOf(st, sub)|
  {
    assert KeysOf(st, acc + sub) == KeysOf(st, acc) + KeysOf(st, sub);
    forall k | k in KeysOf(st, acc) ensures k !in KeysOf(st, sub) {
      GluedKeyApart(order, st, root, id, p, n, acc, sub, k);
    }
  }

  lemma KeyWithinTop(st: Store, s: Shape, top: Id, k: int)
    requires Linked(st, s, top) && k in KeysOf(st, s)
    ensures Within(s[top], k)
  {
    var x :| x in s && st[x].Leaf? && k in st[x].keys;
    assert NodeOk(st, s, x, st[x], s[x]);
    assert Within(s[x], k);
    WithinTop(st, s, top, x, k);
  }

  lemma GluedKeyApart(order: nat, st: Store, root: Id, id: Id, p: Place, n: nat, acc: Shape, sub: Shape, k: int)
    requires id in st && st[id].Internal? && |st[id].children| == |st[id].keys| + 1 && p.level > 0
    requires Glued(order, st, root, id, p, n, acc) && NextSub(order, st, root, id, p, n, sub)
    requires k in KeysOf(st, acc)
    ensures k !in KeysOf(st, sub)
  {
    var x :| x in acc && st[x].Leaf? && k in st[x].keys;
    assert NodeOk(st, acc, x, st[x], acc[x]);
    assert Within(acc[x], k);
    assert InPrefix(st[id], p, n, k);
    if k in KeysOf(st, sub) { KeyWithinTop(st, sub, st[id].children[n], k); }
  }

  lemma TopKeyCount(st: Store, acc: Shape, id: Id, p: Place)
    requires acc.Keys <= st.Keys && id in st && st[id].Internal? && id !in acc
    ensures KeysOf(st, acc[id := p]) == KeysOf(st, acc)
  {
  }

  lemma LeafKeyCount(st: Store, id: Id, p: Place)
    requires id in st && st[id].Leaf? && Sorted(st[id].keys)
    ensures |KeysOf(st, map[id := p])| == |st[id].keys|
  {
    SortedKeyCount(st[id].keys);
    assert KeysOf(st, map[id := p]) == set k | k in st[id].keys;
  }

  // ---------------------------------------------------------------- ValidateNode

  lemma ChildTyped(st: Store, id: Id, i: nat)
    requires Typed(st) && id in st && st[id].Internal? && i < |st[id].children|
    ensures st[id].children[i] == NULL || st[id].children[i] in st
  {
  }

  lemma GluedNone(order: nat, st: Store, root: Id, id: Id, p: Place)
    requires id in st && st[id].Internal? && |st[id].children| == |st[id].keys| + 1 && p.level > 0
    ensures Glued(order, st, root, id, p, 0, map[]) && KeysOf(st, map[]) == {}
  {
  }

  lemma GluedDomain(order: nat, st: Store, root: Id, id: Id, p: Place, n: nat, acc: Shape)
    requires id in st && st[id].Internal? && |st[id].children| == |st[id].keys| + 1 && p.level > 0
    requires Glued(order, st, root, id, p, n, acc)
    ensures acc.Keys <= st.Keys && id !in acc
  {
  }

  lemma CheckedDomain(order: nat, st: Store, root: Id, s: Shape, top: Id)
    requires Checked(order, st, root, s, top)
    ensures s.Keys <= st.Keys && top in s
  {
  }

  method Increasing(keys: seq<int>) returns (ok: bool)
    ensures ok == Sorted(keys)
  {
    var i := 1;
    while i < |keys|
      invariant 1 <= i
      invariant forall a, b :: 0 <= a < b < i && b < |keys| ==> keys[a] < keys[b]
    {
      if !(keys[i - 1] < keys[i]) { return false; }
      i := i + 1;
    }
    ok := true;
  }

  method InWindow(keys: seq<int>, lower: Bound, upper: Bound) returns (ok: bool)
    ensures ok == forall i :: 0 <= i < |keys| ==> Within(Place(lower, upper, 0), keys[i])
  {
    for i := 0 to |keys|
      invariant forall j :: 0 <= j < i ==> Within(Place(lower, upper, 0), keys[j])
    {
      if lower.At? && keys[i] < lower.key { return false; }
      if upper.At? && !(keys[i] < upper.key) { return false; }
    }
    ok := true;
  }

  method PostingsPresent(values: seq<seq<RecordID>>) returns (ok: bool)
    ensures ok == forall i :: 0 <= i < |values| ==> values[i] != []
  {
    for i := 0 to |values|
      invariant forall j :: 0 <= j < i ==> values[j] != []
    {
      if values[i] == [] { return false; }
    }
    ok := true;
  }

  // What the walk knows after a success, and what it must not reject.
  ghost predicate Saw(order: nat, st: Store, root: Id, node: Id, lower: Bound, upper: Bound, depth: nat,
                      path: seq<Id>, s: Shape, leafDepth: nat)
  {
    && Checked(order, st, root, s, node) && s[node].lo == lower && s[node].hi == upper
    && s[node].level + depth == leafDepth
    && forall x :: x in s && x in path ==> x == node
  }

  ghost predicate MustAccept(order: nat, st: Store, root: Id, node: Id, lower: Bound, upper: Bound, depth: nat,
                             hint: Shape, leafDepth: nat, leafDepthSet: bool)
  {
    && Locally(order, st, root, hint) && node in hint && hint[node].lo == lower && hint[node].hi == upper
    && (leafDepthSet ==> hint[node].level + depth == leafDepth)
  }

  // The checks at a node that must be accepted all succeed, ...
  lemma Demanded(order: nat, st: Store, root: Id, node: Id, lower: Bound, upper: Bound, depth: nat,
                 hint: Shape, leafDepth: nat, leafDepthSet: bool)
    requires MustAccept(order, st, root, node, lower, upper, depth, hint, leafDepth, leafDepthSet)
    ensures node in st && node in hint && Sorted(st[node].keys) && CheckedFill(order, root, node, st[node])
    ensures forall i :: 0 <= i < |st[node].keys| ==> Within(Place(lower, upper, 0), st[node].keys[i])
    ensures st[node].Internal? ==> |st[node].children| == |st[node].keys| + 1
    ensures st[node].Leaf? ==> hint[node].level == 0 && |st[node].values| == |st[node].keys|
    ensures st[node].Leaf? ==> forall i :: 0 <= i < |st[node].values| ==> st[node].values[i] != []
  {
    assert NodeOk(st, hint, node, st[node], hint[node]);
  }

  // ... and its children must be accepted too.
  lemma ChildDemanded(order: nat, st: Store, root: Id, node: Id, lower: Bound, upper: Bound, depth: nat,
                      hint: Shape, leafDepth: nat, leafDepthSet: bool, i: nat)
    requires MustAccept(order, st, root, node, lower, upper, depth, hint, leafDepth, leafDepthSet)
    requires NULL !in st && node in st && st[node].Internal? && i < |st[node].children| == |st[node].keys| + 1
    ensures var child := st[node].children[i];
      && child != NULL && child in st && st[child].parent == node
      && child in hint && hint[child].level + 1 == hint[node].level
      && MustAccept(order, st, root, child, if i == 0 then lower else At(st[node].keys[i - 1]),
                    if i == |st[node].keys| then upper else At(st[node].keys[i]), depth + 1,
                    hint, leafDepth, leafDepthSet)
  {
    assert NodeOk(st, hint, node, st[node], hint[node]);
    assert ChildOk(st, hint, node, st[node], hint[node], i);
  }

  lemma LeafSaw(order: nat, st: Store, root: Id, node: Id, lower: Bound, upper: Bound, depth: nat, path: seq<Id>)
    requires node in st && st[node].Leaf? && Sorted(st[node].keys) && CheckedFill(order, root, node, st[node])
    requires forall i :: 0 <= i < |st[node].keys| ==> Within(Place(lower, upper, 0), st[node].keys[i])
    requires |st[node].values| == |st[node].keys| && forall i :: 0 <= i < |st[node].values| ==> st[node].values[i] != []
    ensures Saw(order, st, root, node, lower, upper, depth, path, map[node := Place(lower, upper, 0)], depth)
    ensures |KeysOf(st, map[node := Place(lower, upper, 0)])| == |st[node].keys|
  {
    LeafKeyCount(st, node, Place(lower, upper, 0));
  }

  // lower is inclusive, upper exclusive; Open means unbounded.
  method ValidateNode(order: nat, st: Store, root: Id, node: Id, lower: Bound, upper: Bound, depth: nat,
                      leafDepthIn: nat, leafDepthSetIn: bool, keyCountIn: nat,
                      ghost path: seq<Id>, ghost hint: Shape)
    returns (ok: bool, leafDepth: nat, leafDepthSet: bool, keyCount: nat, ghost s: Shape)
    requires order >= 3 && Typed(st) && Descent(st, root, path) && path[|path| - 1] == node
    ensures ok ==> leafDepthSet && Saw(order, st, root, node, lower, upper, depth, path, s, leafDepth)
    ensures ok && leafDepthSetIn ==> leafDepth == leafDepthIn
    ensures ok ==> keyCount == keyCountIn + |KeysOf(st, s)|
    ensures MustAccept(order, st, root, node, lower, upper, depth, hint, leafDepthIn, leafDepthSetIn) ==>
      ok && leafDepth == hint[node].level + depth
    decreases st.Keys - Seen(path), 1
  {
    hide Typed, Locally, NodeOk, Checked, KeysOf, Saw;
    leafDepth, leafDepthSet, keyCount, s := leafDepthIn, leafDepthSetIn, keyCountIn, map[];
    var n := st[node];
    if MustAccept(order, st, root, node, lower, upper, depth, hint, leafDepthIn, leafDepthSetIn) {
      Demanded(order, st, root, node, lower, upper, depth, hint, leafDepthIn, leafDepthSetIn);
    }

    ok := Increasing(n.keys);
    if !ok { return; }
    ok := InWindow(n.keys, lower, upper);
    if !ok { return; }
    if |n.keys| > MaxKeys(order) { return false, leafDepth, leafDepthSet, keyCount, s; }

    if n.Leaf? {
      ok := |n.keys| == |n.values|;
      if !ok { return; }
      ok := PostingsPresent(n.values);
      if !ok { return; }
      ok := !(node != root && |n.keys| < MinLeafKeys(order));
      if !ok { return; }
      if !leafDepthSet {
        leafDepth, leafDepthSet := depth, true;
      } else if depth != leafDepth {
        return false, leafDepth, leafDepthSet, keyCount, s;
      }
      keyCount := keyCount + |n.keys|;
      s := map[node := Place(lower, upper, 0)];
      LeafSaw(order, st, root, node, lower, upper, depth, path);
      return;
    }

    ok := |n.children| == |n.keys| + 1;
    if !ok { return; }
    ok := if node == root then |n.children| >= 2 else |n.keys| >= MinInternalKeys(order);
    if !ok { return; }
    ok, leafDepth, leafDepthSet, keyCount, s := ValidateChildren(order, st, root, node, lower, upper, depth,
      leafDepth, leafDepthSet, keyCount, path, hint);
  }

  // The loop over the children of an internal node.
  method ValidateChildren(order: nat, st: Store, root: Id, node: Id, lower: Bound, upper: Bound, depth: nat,
                          leafDepthIn: nat, leafDepthSetIn: bool, keyCountIn: nat,
                          ghost path: seq<Id>, ghost hint: Shape)
    returns (ok: bool, leafDepth: nat, leafDepthSet: bool, keyCount: nat, ghost s: Shape)
    requires order >= 3 && Typed(st) && Descent(st, root, path) && path[|path| - 1] == node
    requires st[node].Internal? && |st[node].children| == |st[node].keys| + 1
      && CheckedFill(order, root, node, st[node])
    requires KeysOk(st[node], Place(lower, upper, 1))
    ensures ok ==> leafDepthSet && Saw(order, st, root, node, lower, upper, depth, path, s, leafDepth)
    ensures ok && leafDepthSetIn ==> leafDepth == leafDepthIn
    ensures ok ==> keyCount == keyCountIn + |KeysOf(st, s)|
    ensures MustAccept(order, st, root, node, lower, upper, depth, hint, leafDepthIn, leafDepthSetIn) ==>
      ok && leafDepth == hint[node].level + depth
    decreases st.Keys - Seen(path), 0
  {
    hide Glued, Checked, Locally, NodeOk, CheckedFill, KeysOf, Typed;
    leafDepth, leafDepthSet, keyCount, s := leafDepthIn, leafDepthSetIn, keyCountIn, map[];
    var n := st[node];
    ghost var p, acc: Shape := Place(lower, upper, 1), map[];
    ghost var wanted := MustAccept(order, st, root, node, lower, upper, depth, hint, leafDepthIn, leafDepthSetIn);
    GluedNone(order, st, root, node, p);
    var i := 0;
    while i < |n.children|
      invariant i <= |n.children| && p.level > 0 && p.lo == lower && p.hi == upper
      invariant Glued(order, st, root, node, p, i, acc)
      invariant forall x :: x in acc ==> x !in path
      invariant i > 0 ==> leafDepthSet && p.level + depth == leafDepth
      invariant leafDepthSetIn ==> leafDepthSet && leafDepth == leafDepthIn
      invariant acc.Keys <= st.Keys && keyCount == keyCountIn + |KeysOf(st, acc)|
      invariant i == 0 ==> acc == map[]
      invariant wanted ==> MustAccept(order, st, root, node, lower, upper, depth, hint, leafDepth, leafDepthSet)
    {
      var child := n.children[i];
      ChildTyped(st, node, i);
      GluedDomain(order, st, root, node, p, i, acc);
      if wanted {
        ChildDemanded(order, st, root, node, lower, upper, depth, hint, leafDepth, leafDepthSet, i);
      }
      if child == NULL || st[child].parent != node { return false, leafDepth, leafDepthSet, keyCount, s; }
      var childLower := if i == 0 then lower else At(n.keys[i - 1]);
      var childUpper := if i == |n.keys| then upper else At(n.keys[i]);
      DescentExtends(st, root, path, child);
      ghost var sub;
      ok, leafDepth, leafDepthSet, keyCount, sub := ValidateNode(order, st, root, child, childLower, childUpper,
        depth + 1, leafDepth, leafDepthSet, keyCount, path + [child], hint);
      if !ok { return; }
      CheckedDomain(order, st, root, sub, child);
      if i == 0 {
        p := Place(lower, upper, sub[child].level + 1);
        GluedNone(order, st, root, node, p);
      }
      GluedStep(order, st, root, node, p, i, acc, sub);
      GluedKeyCount(order, st, root, node, p, i, acc, sub);
      acc := acc + sub;
      i := i + 1;
    }
    GluedDomain(order, st, root, node, p, i, acc);
    GluedTop(order, st, root, node, p, acc);
    TopKeyCount(st, acc, node, p);
    ok, s := true, acc[node := p];
  }

  // ---------------------------------------------------------------- ValidateLeafChain

  // The beginning of a chain: links agree in both directions and keys ascend across them.
  ghost predicate ChainSoFar(st: Store, run: seq<Id>) {
    && run != []
    && (forall i :: 0 <= i < |run| ==> run[i] in st && st[run[i]].Leaf?)
    && st[run[0]].previous == NULL
    && (forall i :: 0 <= i < |run| - 1 ==> ChainLink(st, run[i], run[i + 1]))
  }

  ghost predicate ChainLink(st: Store, a: Id, b: Id)
    requires a in st && b in st && st[a].Leaf? && st[b].Leaf?
  {
    && st[a].next == b && st[b].previous == a
    && st[a].keys != [] && st[b].keys != [] && st[a].keys[|st[a].keys| - 1] < st[b].keys[0]
  }

  ghost predicate FullChain(st: Store, run: seq<Id>) {
    ChainSoFar(st, run) && st[run[|run| - 1]].next == NULL
  }

  // previous names one leaf only, so a chain whose links agree never comes back on itself.
  lemma {:induction false} ChainNeverReturns(st: Store, run: seq<Id>, i: nat, j: nat)
    requires ChainSoFar(st, run) && NULL !in st && i < j < |run|
    ensures run[i] != run[j]
    decreases i
  {
    assert ChainLink(st, run[j - 1], run[j]);
    if i > 0 {
      assert ChainLink(st, run[i - 1], run[i]);
      ChainNeverReturns(st, run, i - 1, j - 1);
    }
  }

  lemma ChainExtends(st: Store, run: seq<Id>, b: Id)
    requires ChainSoFar(st, run) && NULL !in st && b in st && st[b].Leaf? && ChainLink(st, run[|run| - 1], b)
    ensures ChainSoFar(st, run + [b]) && st.Keys - Seen(run + [b]) < st.Keys - Seen(run)
  {
    var longer := run + [b];
    assert ChainSoFar(st, longer);
    forall i | 0 <= i < |run| ensures run[i] != b {
      ChainNeverReturns(st, longer, i, |run|);
      assert longer[i] == run[i];
    }
    assert b in st.Keys - Seen(run) && b !in st.Keys - Seen(longer);
  }

  method FirstLeaf(st: Store, root: Id, ghost s: Shape) returns (leaf: Id)
    requires Searchable(st, root, s)
    ensures leaf in s && leaf in st && st[leaf].Leaf? && s[leaf].lo == Open
  {
    leaf := root;
    while !st[leaf].Leaf?
      invariant leaf in s && s[leaf].lo == Open
      decreases s[leaf].level
    {
      assert NodeOk(st, s, leaf, st[leaf], s[leaf]);
      assert ChildOk(st, s, leaf, st[leaf], s[leaf], 0);
      leaf := st[leaf].children[0];
    }
  }

  method ValidateLeafChain(st: Store, root: Id, ghost s: Shape, ghost hint: seq<Id>)
    returns (ok: bool, ghost run: seq<Id>)
    requires Typed(st) && Searchable(st, root, s)
    ensures ok ==> FullChain(st, run) && run[0] in s && s[run[0]].lo == Open
    ensures FullChain(st, hint) && hint[0] in s && s[hint[0]].lo == Open ==> ok
  {
    hide Searchable, Linked, Seen;
    var leaf := FirstLeaf(st, root, s);
    run := [leaf];
    ghost var wanted := FullChain(st, hint) && hint[0] in s && s[hint[0]].lo == Open;
    if wanted { FirstLeafUnique(st, root, s, leaf, hint[0]); }
    if st[leaf].previous != NULL { return false, run; }
    while st[leaf].next != NULL
      invariant ChainSoFar(st, run) && run[0] in s && s[run[0]].lo == Open && run[|run| - 1] == leaf
      invariant wanted ==> run <= hint
      decreases st.Keys - Seen(run)
    {
      var next := st[leaf].next;
      assert next in st && st[next].Leaf?;
      assert wanted ==> |run| < |hint| && ChainLink(st, hint[|run| - 1], hint[|run|]);
      if st[next].previous != leaf { return false, run; }
      if st[leaf].keys == [] || st[next].keys == [] { return false, run; }
      if !(st[leaf].keys[|st[leaf].keys| - 1] < st[next].keys[0]) { return false, run; }
      ChainExtends(st, run, next);
      run := run + [next];
      leaf := next;
    }
    ok := true;
  }

  lemma FirstLeafUnique(st: Store, root: Id, s: Shape, a: Id, b: Id)
    requires Searchable(st, root, s) && a in s && b in s && st[a].Leaf? && st[b].Leaf?
    requires s[a].lo == Open && s[b].lo == Open
    ensures a == b
  {
    assert NodeOk(st, s, a, st[a], s[a]) && NodeOk(st, s, b, st[b], s[b]);
    var k := if s[a].hi.At? then s[a].hi.key - 1 else 0;
    var k' := if s[b].hi.At? && s[b].hi.key <= k then s[b].hi.key - 1 else k;
    assert Within(s[a], k') && Within(s[b], k');
    LevelDisjoint(st, s, root, a, b, k');
  }

  // ---------------------------------------------------------------- Validate

  // A non-empty tree as Validate understands it.
  ghost predicate Accepted(order: nat, st: Store, root: Id, size: nat, s: Shape, run: seq<Id>) {
    && root in st && st[root].parent == NULL
    && Checked(order, st, root, s, root) && s[root].lo == Open && s[root].hi == Open
    && |KeysOf(st, s)| == size
    && FullChain(st, run) && run[0] in s && s[run[0]].lo == Open
  }

  // True exactly when the heap has an accepted shape and chain.
  method Validate(order: nat, st: Store, root: Id, size: nat, ghost hint: Shape, ghost hintRun: seq<Id>)
    returns (ok: bool, ghost s: Shape, ghost run: seq<Id>)
    requires order >= 3 && Typed(st) && (root == NULL || root in st)
    ensures root == NULL ==> ok == (size == 0)
    ensures root != NULL && ok ==> Accepted(order, st, root, size, s, run)
    ensures root != NULL && Accepted(order, st, root, size, hint, hintRun) ==> ok
  {
    s, run := map[], [];
    if root == NULL { return size == 0, s, run; }
    if st[root].parent != NULL { return false, s, run; }
    var leafDepth, leafDepthSet, keyCount;
    ok, leafDepth, leafDepthSet, keyCount, s :=
      ValidateNode(order, st, root, root, Open, Open, 1, 0, false, 0, [root], hint);
    if !ok { return; }
    ghost var wanted := Accepted(order, st, root, size, hint, hintRun);
    if wanted { SameKeys(st, root, hint, s); }
    if keyCount != size { return false, s, run; }
    if wanted { SameFirst(st, root, hint, s, hintRun[0]); }
    ok, run := ValidateLeafChain(st, root, s, hintRun);
  }

  // Two linked shapes under one root agree on every node.
  lemma {:induction false} SamePlaces(st: Store, root: Id, s: Shape, t: Shape, x: Id)
    requires Searchable(st, root, s) && Searchable(st, root, t) && s[root] == t[root] && x in s
    ensures x in t && s[x] == t[x]
    decreases s[root].level - s[x].level
  {
    if x != root {
      assert Hangs(st, s, root, x);
      var p := st[x].parent;
      assert p != root ==> Hangs(st, s, root, p);
      var i :| 0 <= i < |st[p].children| && st[p].children[i] == x;
      assert NodeOk(st, s, p, st[p], s[p]) && ChildOk(st, s, p, st[p], s[p], i);
      SamePlaces(st, root, s, t, p);
      assert NodeOk(st, t, p, st[p], t[p]) && ChildOk(st, t, p, st[p], t[p], i);
    }
  }

  // ... and the depth of the leaves leaves no choice for the root.
  lemma {:induction false} SameLevel(st: Store, s: Shape, t: Shape, x: Id)
    requires x in s && x in t && s.Keys <= st.Keys && t.Keys <= st.Keys
    requires forall id :: id in s ==> NodeOk(st, s, id, st[id], s[id])
    requires forall id :: id in t ==> NodeOk(st, t, id, st[id], t[id])
    ensures s[x].level == t[x].level
    decreases s[x].level
  {
    assert NodeOk(st, s, x, st[x], s[x]) && NodeOk(st, t, x, st[x], t[x]);
    if st[x].Internal? {
      assert ChildOk(st, s, x, st[x], s[x], 0) && ChildOk(st, t, x, st[x], t[x], 0);
      SameLevel(st, s, t, st[x].children[0]);
    }
  }

  lemma SameShape(st: Store, root: Id, s: Shape, t: Shape)
    requires Searchable(st, root, s) && Searchable(st, root, t)
    ensures s == t
  {
    SameLevel(st, s, t, root);
    forall x | x in s ensures x in t && s[x] == t[x] { SamePlaces(st, root, s, t, x); }
    forall x | x in t ensures x in s { SamePlaces(st, root, t, s, x); }
  }

  lemma SameKeys(st: Store, root: Id, s: Shape, t: Shape)
    requires Searchable(st, root, s) && Searchable(st, root, t)
    ensures KeysOf(st, s) == KeysOf(st, t)
  {
    SameShape(st, root, s, t);
  }

  lemma SameFirst(st: Store, root: Id, s: Shape, t: Shape, first: Id)
    requires Searchable(st, root, s) && Searchable(st, root, t) && first in s
    ensures first in t && t[first] == s[first]
  {
    SameShape(st, root, s, t);
  }

  // ---------------------------------------------------------------- trees in order are accepted

  lemma TreeTyped(st: Store, s: Shape, root: Id, m: Contents)
    requires TreeOk(st, s, root, m)
    ensures Typed(st)
  {
    forall id | id in st && st[id].Internal? ensures forall c :: c in st[id].children ==> c in st {
      assert NodeOk(st, s, id, st[id], s[id]);
      ChildLinks(st, s, id, st[id], s[id]);
    }
    forall id | id in st && st[id].Leaf? && st[id].next != NULL
      ensures st[id].next in st && st[st[id].next].Leaf?
    {
      assert NextOk(st, s, id, st[id], s[id]);
    }
  }

  lemma TreeChecked(order: nat, st: Store, s: Shape, root: Id, m: Contents)
    requires TreeOk(st, s, root, m) && Fill(order, st, root, Settled)
    ensures Checked(order, st, root, s, root)
  {
    TreeIsLinked(st, s, root);
    forall id | id in s ensures CheckedFill(order, root, id, st[id]) {
      assert FillOk(order, root, Settled, id, st[id]);
    }
  }

  lemma TreeChainLink(order: nat, st: Store, s: Shape, root: Id, a: Id, b: Id)
    requires order >= 3 && s.Keys == st.Keys && Nodes(st, s) && Fill(order, st, root, Settled)
    requires a in st && b in st && st[a].Leaf? && st[b].Leaf? && st[a].next == b && st[b].previous == a
    requires s[a].hi.At? && s[a].hi == s[b].lo
    ensures ChainLink(st, a, b)
  {
    assert NodeOk(st, s, a, st[a], s[a]) && NodeOk(st, s, b, st[b], s[b]);
    assert FillOk(order, root, Settled, a, st[a]) && FillOk(order, root, Settled, b, st[b]);
    assert Within(s[a], st[a].keys[|st[a].keys| - 1]) && Within(s[b], st[b].keys[0]);
  }

  lemma TreeAccepted(order: nat, st: Store, s: Shape, root: Id, m: Contents) returns (run: seq<Id>)
    requires order >= 3 && TreeOk(st, s, root, m) && Fill(order, st, root, Settled)
    ensures Accepted(order, st, root, |m|, s, run)
  {
    hide NodesIn, Parents, Chain, Holds, Fill, ParentOk, KeysOf, Checked, FullChain;
    TreeChecked(order, st, s, root, m);
    KeysAreContents(st, s, root, m);
    run := TreeChain(order, st, s, root, m);
    RootPlace(st, s, root);
  }

  lemma TreeChain(order: nat, st: Store, s: Shape, root: Id, m: Contents) returns (run: seq<Id>)
    requires order >= 3 && TreeOk(st, s, root, m) && Fill(order, st, root, Settled)
    ensures FullChain(st, run) && run[0] in s && s[run[0]].lo == Open
  {
    hide NodesIn, Parents, Chain, Holds, Fill, ParentOk, ChainLink;
    run := ChainIsInOrderLeaves(st, s, root, m);
    forall i | 0 <= i < |run| - 1 ensures ChainLink(st, run[i], run[i + 1]) {
      TreeChainLink(order, st, s, root, run[i], run[i + 1]);
    }
  }

  lemma RootPlace(st: Store, s: Shape, root: Id)
    requires Domains(st, s, root) && Parents(st, s, root)
    ensures st[root].parent == NULL && s[root].lo == Open && s[root].hi == Open
  {
    assert ParentOk(st, s, root, root);
  }
}
