/** The B+ tree itself (BPlusTree.hpp), one method per member function of the class. */
module BPlusTree {
  import opened BPlusNodes
  import opened BPlusInsert
  import opened BPlusDelete
  import opened BPlusContents
  import opened BPlusSearch
  import BPlusValidate
  import BPlusAccepted

  // ---------------------------------------------------------------- editing one leaf

  lemma LeafEditHolds(st: Store, s: Shape, root: Id, leaf: Id, n': Node, key: int, m: Contents, m': Contents)
    requires TreeOk(st, s, root, m)
    requires leaf in st && st[leaf].Leaf? && n'.Leaf? && Within(s[leaf], key)
    requires LeafHolds(n', s[leaf], m')
    requires m' - {key} == m - {key}
    ensures Holds(st[leaf := n'], s, m')
  {
    var st' := st[leaf := n'];
    forall id | id in st' && st'[id].Leaf? ensures LeafHolds(st'[id], s[id], m') {
      if id != leaf {
        assert NodeOk(st, s, id, st[id], s[id]) && NodeOk(st, s, leaf, st[leaf], s[leaf]);
        if Within(s[id], key) { SameLevelDisjoint(st, s, root, id, leaf, key); }
        LeafHoldsElsewhere(st[id], s[id], key, m, m');
      }
    }
  }

  lemma LeafHoldsElsewhere(n: Node, p: Place, key: int, m: Contents, m': Contents)
    requires n.Leaf? && LeafHolds(n, p, m) && KeysOk(n, p)
    requires !Within(p, key) && m' - {key} == m - {key}
    ensures LeafHolds(n, p, m')
  {
    assert forall k :: k != key && k in m ==> k in m - {key} && (m - {key})[k] == m[k];
    assert forall k :: k != key && k in m' ==> k in m' - {key} && (m' - {key})[k] == m'[k];
  }

  lemma LeafEditTree(st: Store, s: Shape, root: Id, leaf: Id, n': Node, key: int, m: Contents, m': Contents)
    requires TreeOk(st, s, root, m)
    requires leaf in st && st[leaf].Leaf? && n'.Leaf? && Within(s[leaf], key)
    requires n'.parent == st[leaf].parent && n'.next == st[leaf].next && n'.previous == st[leaf].previous
    requires KeysOk(n', s[leaf]) && LeafOk(n', s[leaf]) && LeafHolds(n', s[leaf], m')
    requires m' - {key} == m - {key}
    ensures TreeOk(st[leaf := n'], s, root, m')
  {
    hide NodesIn, Parents, Chain, Holds, KeysOk, LeafOk, LeafHolds, NodeOk, Tight, Outside, Inside, ChildrenStay;
    LeafEditHolds(st, s, root, leaf, n', key, m, m');
    LeafEditChain(st, s, leaf, n');
    LeafEditParents(st, s, root, leaf, n');
    LeafEditInside(st, s, leaf, n');
    LeafEditStay(st, s, leaf, n');
    EditNodes(st, s, s, st[leaf := n'], s, s, {leaf});
  }

  lemma LeafEditInside(st: Store, s: Shape, leaf: Id, n': Node)
    requires s.Keys == st.Keys && Nodes(st, s) && leaf in st && st[leaf].Leaf? && n'.Leaf?
    requires KeysOk(n', s[leaf]) && LeafOk(n', s[leaf])
    ensures Inside(st[leaf := n'], s, s, {leaf})
  {
    hide KeysOk, LeafOk;
    assert NodeOk(st, s, leaf, st[leaf], s[leaf]) && Tight(st[leaf], s[leaf]);
  }

  lemma LeafEditStay(st: Store, s: Shape, leaf: Id, n': Node)
    requires s.Keys == st.Keys && leaf in st && st[leaf].Leaf? && n'.Leaf? && n'.parent == st[leaf].parent
    ensures Outside(st, s, st[leaf := n'], s, {leaf}) && ChildrenStay(st, s, st[leaf := n'], s, {leaf})
  {
  }

  lemma LeafEditChain(st: Store, s: Shape, leaf: Id, n': Node)
    requires s.Keys == st.Keys && Chain(st, s) && leaf in st && st[leaf].Leaf? && n'.Leaf?
    requires n'.next == st[leaf].next && n'.previous == st[leaf].previous
    ensures Chain(st[leaf := n'], s)
  {
    var st' := st[leaf := n'];
    forall id | id in st' && st'[id].Leaf?
      ensures NextOk(st', s, id, st'[id], s[id]) && PreviousOk(st', s, id, st'[id], s[id])
    {
      assert NextOk(st, s, id, st[id], s[id]) && PreviousOk(st, s, id, st[id], s[id]);
    }
  }

  lemma LeafEditParents(st: Store, s: Shape, root: Id, leaf: Id, n': Node)
    requires Domains(st, s, root) && Parents(st, s, root) && leaf in st && st[leaf].Leaf? && n'.Leaf?
    requires n'.parent == st[leaf].parent
    ensures Domains(st[leaf := n'], s, root) && Parents(st[leaf := n'], s, root)
  {
    forall id | id in st ensures ParentOk(st[leaf := n'], s, root, id) {
      assert ParentOk(st, s, root, id);
    }
  }

  ghost predicate IdsBelow(st: Store, nextId: Id) {
    nextId > NULL && forall id :: id in st ==> id < nextId
  }

  // The loop that hands a run of children to a new parent.
  function Adopted(st: Store, ids: seq<Id>, p: Id): Store {
    map id | id in st :: if id in ids then WithParent(st[id], p) else st[id]
  }

  function WithPostings(n: Node, index: nat, postings: seq<RecordID>): Node
    requires n.Leaf? && index < |n.values|
  {
    n.(values := n.values[index := postings])
  }

  function WithKey(n: Node, index: nat, key: int, record: RecordID): Node
    requires n.Leaf? && index <= |n.keys| && index <= |n.values|
  {
    n.(keys := n.keys[..index] + [key] + n.keys[index..],
       values := n.values[..index] + [[record]] + n.values[index..])
  }

  // ---------------------------------------------------------------- what the methods rely on

  lemma LeafFacts(order: nat, st: Store, s: Shape, root: Id, leaf: Id, m: Contents)
    requires TreeOk(st, s, root, m) && leaf in st && st[leaf].Leaf?
    ensures KeysOk(st[leaf], s[leaf]) && LeafOk(st[leaf], s[leaf]) && LeafHolds(st[leaf], s[leaf], m)
    ensures s[leaf].level <= s[root].level
    ensures st[leaf].next != leaf
    ensures st[leaf].next != NULL ==> st[leaf].next in st && st[st[leaf].next].Leaf?
  {
    assert ParentOk(st, s, root, leaf);
    assert NodeOk(st, s, leaf, st[leaf], s[leaf]) && Tight(st[leaf], s[leaf]);
    assert NextOk(st, s, leaf, st[leaf], s[leaf]);
  }

  lemma InternalFacts(st: Store, s: Shape, root: Id, node: Id, m: Contents)
    requires TreeOk(st, s, root, m) && node in st && st[node].Internal?
    ensures node in s && root in s && s[node].level <= s[root].level
    ensures |st[node].children| == |st[node].keys| + 1
    ensures forall c :: c in st[node].children ==> c in st && c != node
  {
    assert ParentOk(st, s, root, node);
    assert NodeOk(st, s, node, st[node], s[node]);
    ChildLinks(st, s, node, st[node], s[node]);
  }

  lemma PendingFacts(st: Store, s: Shape, root: Id, left: Id, key: int, right: Id, m: Contents)
    requires Pending(st, s, root, left, key, right, m) && left != root
    ensures left in st && left in s && right in st && root in s && root != NULL
    ensures var p := st[left].parent;
      p in st && p in s && st[p].Internal? && left in st[p].children && |st[p].children| == |st[p].keys| + 1
      && p != right && p != left && s[p].level == s[left].level + 1 <= s[root].level
  {
    assert ParentOk(st, s, root, left);
    var p, js := st[left].parent, Joined(s, left, right);
    assert NodeOk(st, js, p, st[p], s[p]);
    ChildLinks(st, js, p, st[p], s[p]);
  }

  lemma LeafSplit(order: nat, st: Store, s: Shape, root: Id, leaf: Id, newLeaf: Id, st': Store, m: Contents)
    requires order >= 3 && TreeOk(st, s, root, m) && Fill(order, st, root, Over(leaf))
    requires leaf in st && |st[leaf].keys| == order && CutLeaf(st, leaf, (order + 1) / 2, newLeaf, st')
    ensures newLeaf in st' && |st'[newLeaf].keys| > 0
    ensures var key := st'[newLeaf].keys[0]; var s' := CutShape(s, leaf, key, newLeaf);
      && Pending(st', s', root, leaf, key, newLeaf, m)
      && root in s' && leaf in s' && s'[root].level == s[root].level && s'[leaf].level == s[leaf].level
    ensures Fill(order, st', root, Settled) && leaf in st' && |st'[leaf].keys| >= Minimum(order, st'[leaf])
  {
    hide TreeOk, Fill, CutLeaf, Pending, CutShape;
    TreeKeys(st, s, root, m);
    CutLeafRight(order, st, leaf, newLeaf, st');
    CutShapeLevels(s, root, leaf, st'[newLeaf].keys[0], newLeaf);
    CutLeafPending(st, s, root, leaf, (order + 1) / 2, newLeaf, st',
                   CutShape(s, leaf, st'[newLeaf].keys[0], newLeaf), m);
    CutLeafFill(order, st, root, leaf, newLeaf, st');
  }

  lemma LeafToEdit(st: Store, s: Shape, root: Id, leaf: Id, m: Contents)
    requires TreeOk(st, s, root, m) && leaf in st && st[leaf].Leaf?
    ensures leaf in s && Sorted(st[leaf].keys) && |st[leaf].values| == |st[leaf].keys|
  {
    hide TreeOk;
    LeafFacts(3, st, s, root, leaf, m);
    TreeKeys(st, s, root, m);
  }

  lemma LeafToSplit(st: Store, s: Shape, root: Id, leaf: Id, m: Contents)
    requires TreeOk(st, s, root, m) && leaf in st && st[leaf].Leaf?
    ensures leaf in s && root in s && NULL !in st && |st[leaf].values| == |st[leaf].keys| && st[leaf].next != leaf
    ensures st[leaf].next != NULL ==> st[leaf].next in st && st[st[leaf].next].Leaf?
    ensures s[leaf].level <= s[root].level
  {
    hide TreeOk;
    TreeKeys(st, s, root, m);
    LeafFacts(3, st, s, root, leaf, m);
    LeafLists(st[leaf], s[leaf]);
  }

  lemma CutLeafRight(order: nat, st: Store, leaf: Id, newLeaf: Id, st': Store)
    requires order >= 3 && leaf in st && CutLeaf(st, leaf, (order + 1) / 2, newLeaf, st') && |st[leaf].keys| == order
    ensures newLeaf in st' && leaf in st' && newLeaf !in st && |st'[newLeaf].keys| > 0
    ensures st'[newLeaf].keys[0] == st[leaf].keys[(order + 1) / 2]
  {
  }

  lemma CutShapeLevels(s: Shape, root: Id, left: Id, key: int, right: Id)
    requires left in s && root in s && right !in s
    ensures var s' := CutShape(s, left, key, right);
      root in s' && left in s' && s'[root].level == s[root].level && s'[left].level == s[left].level
  {
  }

  lemma InternalSplit(order: nat, st: Store, s: Shape, root: Id, node: Id, newNode: Id, st': Store, m: Contents)
    requires order >= 3 && TreeOk(st, s, root, m) && Fill(order, st, root, Over(node))
    requires node in st && |st[node].keys| == order && CutInternal(st, node, order / 2, newNode, st')
    ensures var key := st[node].keys[order / 2]; var s' := CutShape(s, node, key, newNode);
      && Pending(st', s', root, node, key, newNode, m)
      && root in s' && node in s' && s'[root].level == s[root].level && s'[node].level == s[node].level
    ensures Fill(order, st', root, Settled) && node in st' && |st'[node].keys| >= Minimum(order, st'[node])
  {
    hide TreeOk, Fill, Pending, CutShape;
    TreeKeys(st, s, root, m);
    var key := st[node].keys[order / 2];
    CutShapeLevels(s, root, node, key, newNode);
    CutInternalPending(st, s, root, node, order / 2, newNode, st', CutShape(s, node, key, newNode), m);
    CutInternalFill(order, st, root, node, newNode, st');
  }

  // A node that is allowed to be over-full but is not counts as settled.
  lemma OverOrSettled(order: nat, st: Store, root: Id, id: Id)
    requires Fill(order, st, root, Over(id)) && id in st && |st[id].keys| <= MaxKeys(order)
    ensures Fill(order, st, root, Settled)
  {
    forall x | x in st ensures FillOk(order, root, Settled, x, st[x]) {
      assert FillOk(order, root, Over(id), x, st[x]);
    }
  }

  lemma ParentGrown(order: nat, st: Store, root: Id, left: Id, key: int, right: Id, i: nat, st': Store)
    requires Fill(order, st, root, Settled) && Attached(st, left, key, right, i, st')
    ensures var p := st[left].parent;
      |st'[p].keys| <= order && Fill(order, st', root, if |st'[p].keys| > MaxKeys(order) then Over(p) else Settled)
  {
    var p := st[left].parent;
    AttachedFill(order, st, root, left, key, right, i, st');
    assert FillOk(order, root, Over(p), p, st'[p]);
    if |st'[p].keys| <= MaxKeys(order) { OverOrSettled(order, st', root, p); }
  }

  lemma RootGrown(order: nat, st: Store, s: Shape, left: Id, key: int, right: Id, top: Id,
                  st': Store, s': Shape, m: Contents)
    requires order >= 3 && top != NULL && top !in st
    requires Pending(st, s, left, left, key, right, m)
    requires Fill(order, st, left, Settled) && |st[left].keys| >= Minimum(order, st[left])
    requires st' == st[top := Internal([key], [left, right], NULL)]
                      [left := WithParent(st[left], top)][right := WithParent(st[right], top)]
    requires s' == s[top := Place(Open, Open, s[left].level + 1)]
    ensures TreeOk(st', s', top, m) && Fill(order, st', top, Settled)
  {
    hide NodesIn, Parents, Chain, Holds, Fill, ParentOk;
    RootedTree(st, s, left, key, right, top, st', s', m);
    RootedFill(order, st, left, key, right, top, st');
  }

  lemma RootIds(st: Store, s: Shape, left: Id, key: int, right: Id, nextId: Id, m: Contents)
    requires Pending(st, s, left, left, key, right, m) && IdsBelow(st, nextId)
    ensures left in st && right in st && left in s && nextId > NULL && nextId !in st && left != right
  {
  }

  lemma RootGrownKeeps(st: Store, s: Shape, left: Id, key: int, right: Id, top: Id, st': Store)
    requires left in st && right in st && left != right && IdsBelow(st, top) && left in s
    requires st' == st[top := Internal([key], [left, right], NULL)]
                      [left := WithParent(st[left], top)][right := WithParent(st[right], top)]
    ensures LeavesKept(st, st') && KeptUpTo(st, s, left, st') && IdsBelow(st', top + 1)
  {
  }

  lemma FillEdit(order: nat, st: Store, root: Id, id: Id, n': Node, loose: Loose)
    requires Fill(order, st, root, Settled) && FillOk(order, root, loose, id, n')
    requires loose == Settled || loose == Over(id) || loose == Under(id)
    ensures Fill(order, st[id := n'], root, loose)
  {
    var st' := st[id := n'];
    forall x | x in st' ensures FillOk(order, root, loose, x, st'[x]) {
      if x != id { assert FillOk(order, root, Settled, x, st[x]); }
    }
  }

  lemma PostingsReplaced(order: nat, st: Store, s: Shape, root: Id, leaf: Id, index: nat,
                         postings: seq<RecordID>, m: Contents)
    requires TreeOk(st, s, root, m) && Fill(order, st, root, Settled)
    requires leaf in st && st[leaf].Leaf? && index < |st[leaf].keys| == |st[leaf].values| && postings != []
    ensures var n', key := WithPostings(st[leaf], index, postings), st[leaf].keys[index];
      key in m && m[key] == st[leaf].values[index]
      && TreeOk(st[leaf := n'], s, root, m[key := postings]) && Fill(order, st[leaf := n'], root, Settled)
      && |m[key := postings]| == |m|
  {
    hide TreeOk, Fill, FillOk, KeysOk, LeafOk, LeafHolds;
    TreeKeys(st, s, root, m);
    LeafFacts(order, st, s, root, leaf, m);
    var n, key := st[leaf], st[leaf].keys[index];
    var n', m' := WithPostings(n, index, postings), m[key := postings];
    WithPostingsLeaf(n, s[leaf], m, index, postings);
    assert m' - {key} == m - {key};
    LeafEditTree(st, s, root, leaf, n', key, m, m');
    FillAt(order, st, root, Settled, leaf);
    FillSame(order, root, leaf, n, n');
    FillEdit(order, st, root, leaf, n', Settled);
    assert m'.Keys == m.Keys;
  }

  lemma TreeKeys(st: Store, s: Shape, root: Id, m: Contents)
    requires TreeOk(st, s, root, m)
    ensures s.Keys == st.Keys && root in st && NULL !in st
  {
  }

  lemma FillAt(order: nat, st: Store, root: Id, loose: Loose, id: Id)
    requires Fill(order, st, root, loose) && id in st
    ensures FillOk(order, root, loose, id, st[id])
  {
  }

  lemma FillSame(order: nat, root: Id, id: Id, n: Node, n': Node)
    requires FillOk(order, root, Settled, id, n) && |n'.keys| == |n.keys| && n'.Leaf? == n.Leaf?
    ensures FillOk(order, root, Settled, id, n')
  {
  }

  lemma WithPostingsLeaf(n: Node, p: Place, m: Contents, index: nat, postings: seq<RecordID>)
    requires n.Leaf? && KeysOk(n, p) && LeafOk(n, p) && LeafHolds(n, p, m) && index < |n.keys| && postings != []
    ensures var n', key := WithPostings(n, index, postings), n.keys[index];
      && Within(p, key) && key in m && m[key] == n.values[index]
      && KeysOk(n', p) && LeafOk(n', p) && LeafHolds(n', p, m[key := postings])
  {
  }

  lemma KeyAdded(order: nat, st: Store, s: Shape, root: Id, leaf: Id, index: nat, key: int, record: RecordID,
                 m: Contents)
    requires TreeOk(st, s, root, m) && Fill(order, st, root, Settled)
    requires leaf in st && st[leaf].Leaf? && Within(s[leaf], key)
    requires index <= |st[leaf].keys| == |st[leaf].values|
    requires forall i :: 0 <= i < |st[leaf].keys| ==> (st[leaf].keys[i] < key <==> i < index)
    requires index < |st[leaf].keys| ==> key < st[leaf].keys[index]
    ensures var n', m' := WithKey(st[leaf], index, key, record), Inserted(m, key, record);
      TreeOk(st[leaf := n'], s, root, m') && |m'| == |m| + 1
      && Fill(order, st[leaf := n'], root, if |n'.keys| > MaxKeys(order) then Over(leaf) else Settled)
      && |n'.keys| <= order && key !in m
  {
    hide TreeOk, Fill, FillOk, KeysOk, LeafOk, LeafHolds, Inserted, WithKey;
    TreeKeys(st, s, root, m);
    LeafFacts(order, st, s, root, leaf, m);
    LeafLists(st[leaf], s[leaf]);
    var n, n', m' := st[leaf], WithKey(st[leaf], index, key, record), Inserted(m, key, record);
    KeyAddedLeaf(n, s[leaf], m, index, key, record);
    WithKeyLinks(n, index, key, record);
    InsertedElsewhere(m, key, record);
    LeafEditTree(st, s, root, leaf, n', key, m, m');
    FillAt(order, st, root, Settled, leaf);
    var loose := if |n'.keys| > MaxKeys(order) then Over(leaf) else Settled;
    FillMore(order, root, leaf, n, n', loose);
    FillEdit(order, st, root, leaf, n', loose);
  }

  // The tree of one key.
  lemma LoneLeaf(order: nat, id: Id, key: int, record: RecordID)
    requires order >= 3 && id != NULL
    ensures var st := map[id := Leaf([key], [[record]], NULL, NULL, NULL)];
      && TreeOk(st, map[id := Place(Open, Open, 0)], id, map[key := [record]])
      && Fill(order, st, id, Settled) && IdsBelow(st, id + 1)
  {
    var st, s := map[id := Leaf([key], [[record]], NULL, NULL, NULL)], map[id := Place(Open, Open, 0)];
    LoneLeafNode(st, s, id, key, record);
    assert s.Keys == st.Keys;
  }

  lemma LoneLeafNode(st: Store, s: Shape, id: Id, key: int, record: RecordID)
    requires id in st && st[id] == Leaf([key], [[record]], NULL, NULL, NULL) && id in s && s[id] == Place(Open, Open, 0)
    ensures NodeOk(st, s, id, st[id], s[id]) && LeafHolds(st[id], s[id], map[key := [record]])
  {
  }

  lemma LeafLists(n: Node, p: Place)
    requires n.Leaf? && LeafOk(n, p)
    ensures |n.values| == |n.keys|
  {
  }

  lemma WithKeyLinks(n: Node, index: nat, key: int, record: RecordID)
    requires n.Leaf? && index <= |n.keys| && index <= |n.values|
    ensures var n' := WithKey(n, index, key, record);
      && n'.Leaf? && n'.parent == n.parent && n'.next == n.next && n'.previous == n.previous
      && |n'.keys| == |n.keys| + 1
  {
  }

  lemma InsertedBehind(m: Contents, key: int, record: RecordID)
    requires key in m
    ensures Inserted(m, key, record) == m[key := m[key] + [record]]
  {
  }

  lemma InsertedElsewhere(m: Contents, key: int, record: RecordID)
    requires key !in m
    ensures var m' := Inserted(m, key, record); m' - {key} == m - {key} && |m'| == |m| + 1
  {
    assert Inserted(m, key, record).Keys == m.Keys + {key};
  }

  lemma FillMore(order: nat, root: Id, id: Id, n: Node, n': Node, loose: Loose)
    requires FillOk(order, root, Settled, id, n) && |n'.keys| == |n.keys| + 1 && n'.Leaf? == n.Leaf?
    requires loose == if |n'.keys| > MaxKeys(order) then Over(id) else Settled
    ensures FillOk(order, root, loose, id, n') && |n'.keys| <= order
  {
  }

  lemma KeyAddedLeaf(n: Node, p: Place, m: Contents, index: nat, key: int, record: RecordID)
    requires n.Leaf? && KeysOk(n, p) && LeafOk(n, p) && LeafHolds(n, p, m)
    requires Within(p, key) && index <= |n.keys|
    requires forall i :: 0 <= i < |n.keys| ==> (n.keys[i] < key <==> i < index)
    requires index < |n.keys| ==> key < n.keys[index]
    ensures key !in m
    ensures var n' := WithKey(n, index, key, record);
      KeysOk(n', p) && LeafOk(n', p) && LeafHolds(n', p, Inserted(m, key, record))
  {
    forall i | 0 <= i < |n.keys| ensures n.keys[i] != key {
      if i >= index { assert n.keys[index] <= n.keys[i]; }
    }
    KeyAddedSorted(n, p, index, key, record);
    KeyAddedHolds(n, p, m, index, key, record);
  }

  lemma KeyAddedSorted(n: Node, p: Place, index: nat, key: int, record: RecordID)
    requires n.Leaf? && KeysOk(n, p) && LeafOk(n, p) && Within(p, key) && index <= |n.keys|
    requires forall i :: 0 <= i < |n.keys| ==> (n.keys[i] < key <==> i < index) && n.keys[i] != key
    ensures KeysOk(WithKey(n, index, key, record), p) && LeafOk(WithKey(n, index, key, record), p)
  {
  }

  lemma KeyAddedHolds(n: Node, p: Place, m: Contents, index: nat, key: int, record: RecordID)
    requires n.Leaf? && LeafHolds(n, p, m) && index <= |n.keys| && key !in m
    ensures LeafHolds(WithKey(n, index, key, record), p, Inserted(m, key, record))
  {
    var n', m' := WithKey(n, index, key, record), Inserted(m, key, record);
    forall k | k in m' && Within(p, k) ensures k in n'.keys {
      if k == key {
        assert n'.keys[index] == key;
      } else {
        var i :| 0 <= i < |n.keys| && n.keys[i] == k;
        assert n'.keys[if i < index then i else i + 1] == k;
      }
    }
    forall i | 0 <= i < |n'.keys| ensures n'.keys[i] in m' && m'[n'.keys[i]] == n'.values[i] {
      if i != index {
        var i0 := if i < index then i else i - 1;
        assert n'.keys[i] == n.keys[i0] && n'.values[i] == n.values[i0];
      }
    }
  }

  // ---------------------------------------------------------------- removing

  function WithoutKey(n: Node, index: nat): Node
    requires n.Leaf? && index < |n.keys| && index < |n.values|
  {
    n.(keys := n.keys[..index] + n.keys[index + 1..], values := n.values[..index] + n.values[index + 1..])
  }

  lemma WithoutKeyLeaf(n: Node, p: Place, m: Contents, index: nat)
    requires n.Leaf? && KeysOk(n, p) && LeafOk(n, p) && LeafHolds(n, p, m) && index < |n.keys|
    ensures var n' := WithoutKey(n, index);
      KeysOk(n', p) && LeafOk(n', p) && LeafHolds(n', p, m - {n.keys[index]})
  {
    WithoutKeySorted(n, p, index);
    WithoutKeyHolds(n, p, m, index);
  }

  lemma WithoutKeySorted(n: Node, p: Place, index: nat)
    requires n.Leaf? && KeysOk(n, p) && LeafOk(n, p) && index < |n.keys|
    ensures var n' := WithoutKey(n, index); KeysOk(n', p) && LeafOk(n', p)
  {
  }

  lemma WithoutKeyHolds(n: Node, p: Place, m: Contents, index: nat)
    requires n.Leaf? && Sorted(n.keys) && LeafHolds(n, p, m) && index < |n.keys|
    ensures LeafHolds(WithoutKey(n, index), p, m - {n.keys[index]})
  {
    var n', m' := WithoutKey(n, index), m - {n.keys[index]};
    forall k | k in m' && Within(p, k) ensures k in n'.keys {
      var i :| 0 <= i < |n.keys| && n.keys[i] == k;
      assert n'.keys[if i < index then i else i - 1] == k;
    }
    forall i | 0 <= i < |n'.keys| ensures n'.keys[i] in m' && m'[n'.keys[i]] == n'.values[i] {
      var i0 := if i < index then i else i + 1;
      assert n'.keys[i] == n.keys[i0] && n'.values[i] == n.values[i0];
    }
  }

  lemma KeyDropped(order: nat, st: Store, s: Shape, root: Id, leaf: Id, index: nat, m: Contents)
    requires TreeOk(st, s, root, m) && Fill(order, st, root, Settled)
    requires leaf in st && st[leaf].Leaf? && index < |st[leaf].keys| == |st[leaf].values|
    ensures var n', m' := WithoutKey(st[leaf], index), m - {st[leaf].keys[index]};
      TreeOk(st[leaf := n'], s, root, m') && Fill(order, st[leaf := n'], root, Under(leaf)) && |m'| == |m| - 1
  {
    hide TreeOk, Fill, FillOk, KeysOk, LeafOk, LeafHolds, WithoutKey;
    TreeKeys(st, s, root, m);
    LeafFacts(order, st, s, root, leaf, m);
    var n, n', key := st[leaf], WithoutKey(st[leaf], index), st[leaf].keys[index];
    WithPostingsLeaf(n, s[leaf], m, index, [RecordID(0)]);
    WithoutKeyLeaf(n, s[leaf], m, index);
    WithoutKeyLinks(n, index);
    assert (m - {key}) - {key} == m - {key};
    LeafEditTree(st, s, root, leaf, n', key, m, m - {key});
    FillAt(order, st, root, Settled, leaf);
    FillLess(order, root, leaf, n, n');
    FillEdit(order, st, root, leaf, n', Under(leaf));
    assert (m - {key}).Keys == m.Keys - {key};
  }

  lemma WithoutKeyLinks(n: Node, index: nat)
    requires n.Leaf? && index < |n.keys| && index < |n.values|
    ensures var n' := WithoutKey(n, index);
      && n'.Leaf? && n'.parent == n.parent && n'.next == n.next && n'.previous == n.previous
      && |n'.keys| == |n.keys| - 1
  {
  }

  lemma FillLess(order: nat, root: Id, id: Id, n: Node, n': Node)
    requires FillOk(order, root, Settled, id, n) && |n'.keys| == |n.keys| - 1 && n'.Leaf? == n.Leaf?
    ensures FillOk(order, root, Under(id), id, n')
  {
  }

  lemma UnderOrSettled(order: nat, st: Store, root: Id, id: Id)
    requires Fill(order, st, root, Under(id)) && id in st
    requires |st[id].keys| >= if id == root then 1 else Minimum(order, st[id])
    ensures Fill(order, st, root, Settled)
  {
    forall x | x in st ensures FillOk(order, root, Settled, x, st[x]) {
      assert FillOk(order, root, Under(id), x, st[x]);
    }
  }

  // What FixUnderflow reads off the parent of the node it mends.
  lemma UnderflowFacts(order: nat, st: Store, s: Shape, root: Id, node: Id, m: Contents)
    requires order >= 3 && TreeOk(st, s, root, m) && Fill(order, st, root, Under(node)) && node in st && node != root
    ensures var p := st[node].parent;
      p in st && st[p].Internal? && node in st[p].children && |st[p].children| == |st[p].keys| + 1 >= 2
      && s[p].level == s[node].level + 1 <= s[root].level && p != node
  {
    assert ParentOk(st, s, root, node);
    var p := st[node].parent;
    assert ParentOk(st, s, root, p);
    assert NodeOk(st, s, p, st[p], s[p]);
    ChildLinks(st, s, p, st[p], s[p]);
    assert FillOk(order, root, Under(node), p, st[p]);
  }

  lemma PairFacts(order: nat, st: Store, s: Shape, root: Id, p: Id, j: nat, loose: Loose, m: Contents)
    requires TreeOk(st, s, root, m) && Fill(order, st, root, loose)
    requires p in st && st[p].Internal? && j < |st[p].keys| && j + 1 < |st[p].children|
    ensures var a, b := st[p].children[j], st[p].children[j + 1];
      Pair(st, p, j, a, b) && st[a].Leaf? == st[b].Leaf? && a != root && b != root
      && FillOk(order, root, loose, a, st[a]) && FillOk(order, root, loose, b, st[b])
      && (st[a].Leaf? ==> |st[a].values| == |st[a].keys| && |st[b].values| == |st[b].keys|)
      && (st[a].Internal? ==> |st[a].children| == |st[a].keys| + 1 && |st[b].children| == |st[b].keys| + 1
                              && InternalPair(st, a, b))
  {
    hide Fill, FillOk, NodesIn, Parents, Chain, Holds, KeysOk, ChildOk, Hangs, InternalPair, ParentOk;
    var a, b := st[p].children[j], st[p].children[j + 1];
    ChildrenPaired(st, s, p, j);
    RotatedNotRoot(st, s, root, p, j, a, b);
    PairPlaces(st, s, p, j, a, b);
    FillAt(order, st, root, loose, a);
    FillAt(order, st, root, loose, b);
    NodeLists(st, s, a);
    NodeLists(st, s, b);
    if st[a].Internal? { InternalPairOk(st, s, p, j, a, b); }
  }

  lemma ChildrenPaired(st: Store, s: Shape, p: Id, j: nat)
    requires s.Keys == st.Keys && Nodes(st, s)
    requires p in st && st[p].Internal? && j < |st[p].keys| && j + 1 < |st[p].children|
    ensures Pair(st, p, j, st[p].children[j], st[p].children[j + 1])
  {
    assert NodeOk(st, s, p, st[p], s[p]);
    ChildLinks(st, s, p, st[p], s[p]);
    ChildrenDistinct(st, s, p, st[p], s[p], j, j + 1);
  }

  lemma NodeLists(st: Store, s: Shape, id: Id)
    requires s.Keys == st.Keys && Nodes(st, s) && id in st
    ensures st[id].Leaf? ==> |st[id].values| == |st[id].keys|
    ensures st[id].Internal? ==> |st[id].children| == |st[id].keys| + 1
  {
    assert NodeOk(st, s, id, st[id], s[id]);
  }

  // The children of two neighbours are nodes of their own, and no child is listed twice.
  ghost predicate InternalPair(st: Store, a: Id, b: Id)
    requires a in st && b in st && st[a].Internal? && st[b].Internal?
  {
    && (forall c :: c in st[a].children ==> c in st && st[c].parent == a && c != a && c != b)
    && (forall c :: c in st[b].children ==> c in st && st[c].parent == b && c != a && c != b)
    && (forall i, j :: 0 <= i < j < |st[a].children| ==> st[a].children[i] != st[a].children[j])
    && (forall i, j :: 0 <= i < j < |st[b].children| ==> st[b].children[i] != st[b].children[j])
    && st[a].parent !in st[a].children && st[b].parent !in st[b].children
  }

  lemma InternalPairOk(st: Store, s: Shape, p: Id, j: nat, a: Id, b: Id)
    requires s.Keys == st.Keys && Nodes(st, s) && Pair(st, p, j, a, b) && st[a].Internal? && st[b].Internal?
    ensures InternalPair(st, a, b)
  {
    PairPlaces(st, s, p, j, a, b);
    assert NodeOk(st, s, a, st[a], s[a]) && NodeOk(st, s, b, st[b], s[b]);
    ChildLinks(st, s, a, st[a], s[a]);
    ChildLinks(st, s, b, st[b], s[b]);
    forall i, k | 0 <= i < k < |st[a].children| ensures st[a].children[i] != st[a].children[k] {
      ChildrenDistinct(st, s, a, st[a], s[a], i, k);
    }
    forall i, k | 0 <= i < k < |st[b].children| ensures st[b].children[i] != st[b].children[k] {
      ChildrenDistinct(st, s, b, st[b], s[b], i, k);
    }
  }

  // The four borrows, each a rotation of the pair.

  lemma LeafFromLeft(st: Store, p: Id, j: nat, a: Id, b: Id, st': Store)
    requires Pair(st, p, j, a, b) && st[a].Leaf? && st[b].Leaf? && |st[a].keys| >= 2
    requires |st[a].values| == |st[a].keys| && |st[b].values| == |st[b].keys|
    requires var last := |st[a].keys| - 1;
      st' == st[b := st[b].(keys := [st[a].keys[last]] + st[b].keys, values := [st[a].values[last]] + st[b].values)]
               [a := st[a].(keys := st[a].keys[..last], values := st[a].values[..last])]
               [p := WithKeys(st[p], st[p].keys[j := st[a].keys[last]])]
    ensures RotatedLeaf(st, p, j, a, b, |st[a].keys| - 1, st')
  {
    var last := |st[a].keys| - 1;
    assert (st[a].keys + st[b].keys)[..last] == st[a].keys[..last];
    assert (st[a].keys + st[b].keys)[last..] == [st[a].keys[last]] + st[b].keys;
    assert (st[a].values + st[b].values)[..last] == st[a].values[..last];
    assert (st[a].values + st[b].values)[last..] == [st[a].values[last]] + st[b].values;
  }

  lemma LeafFromRight(st: Store, p: Id, j: nat, a: Id, b: Id, st': Store)
    requires Pair(st, p, j, a, b) && st[a].Leaf? && st[b].Leaf? && |st[b].keys| >= 2
    requires |st[a].values| == |st[a].keys| && |st[b].values| == |st[b].keys|
    requires st' == st[a := st[a].(keys := st[a].keys + [st[b].keys[0]], values := st[a].values + [st[b].values[0]])]
                      [b := st[b].(keys := st[b].keys[1..], values := st[b].values[1..])]
                      [p := WithKeys(st[p], st[p].keys[j := st[b].keys[1]])]
    ensures RotatedLeaf(st, p, j, a, b, |st[a].keys| + 1, st')
  {
    var t := |st[a].keys| + 1;
    assert (st[a].keys + st[b].keys)[..t] == st[a].keys + [st[b].keys[0]];
    assert (st[a].keys + st[b].keys)[t..] == st[b].keys[1..];
    assert (st[a].values + st[b].values)[..t] == st[a].values + [st[b].values[0]];
    assert (st[a].values + st[b].values)[t..] == st[b].values[1..];
  }

  lemma InternalFromLeft(st: Store, p: Id, j: nat, a: Id, b: Id, moved: Id, st': Store)
    requires Pair(st, p, j, a, b) && st[a].Internal? && st[b].Internal? && |st[a].keys| >= 1
    requires |st[a].children| == |st[a].keys| + 1 && |st[b].children| == |st[b].keys| + 1
    requires InternalPair(st, a, b) && moved == st[a].children[|st[a].keys|]
    requires var last := |st[a].keys| - 1;
      st' == st[b := st[b].(keys := [st[p].keys[j]] + st[b].keys, children := [moved] + st[b].children)]
               [moved := WithParent(st[moved], b)]
               [p := WithKeys(st[p], st[p].keys[j := st[a].keys[last]])]
               [a := st[a].(keys := st[a].keys[..last], children := st[a].children[..last + 1])]
    ensures RotatedInternal(st, p, j, a, b, |st[a].keys| - 1, st')
  {
    var last := |st[a].keys| - 1;
    var ks, cs := st[a].keys + [st[p].keys[j]] + st[b].keys, st[a].children + st[b].children;
    assert ks[..last] == st[a].keys[..last] && cs[..last + 1] == st[a].children[..last + 1];
    assert ks[last + 1..] == [st[p].keys[j]] + st[b].keys && cs[last + 1..] == [moved] + st[b].children;
  }

  lemma InternalFromRight(st: Store, p: Id, j: nat, a: Id, b: Id, moved: Id, st': Store)
    requires Pair(st, p, j, a, b) && st[a].Internal? && st[b].Internal? && |st[b].keys| >= 1
    requires |st[a].children| == |st[a].keys| + 1 && |st[b].children| == |st[b].keys| + 1
    requires InternalPair(st, a, b) && moved == st[b].children[0]
    requires st' == st[a := st[a].(keys := st[a].keys + [st[p].keys[j]], children := st[a].children + [moved])]
                      [moved := WithParent(st[moved], a)]
                      [p := WithKeys(st[p], st[p].keys[j := st[b].keys[0]])]
                      [b := st[b].(keys := st[b].keys[1..], children := st[b].children[1..])]
    ensures RotatedInternal(st, p, j, a, b, |st[a].keys| + 1, st')
  {
    var t := |st[a].keys| + 1;
    var ks, cs := st[a].keys + [st[p].keys[j]] + st[b].keys, st[a].children + st[b].children;
    assert ks[..t] == st[a].keys + [st[p].keys[j]] && cs[..t + 1] == st[a].children + [moved];
    assert ks[t + 1..] == st[b].keys[1..] && cs[t + 1..] == st[b].children[1..];
    assert ks[t] == st[b].keys[0];
  }

  lemma InternalPairMoved(st: Store, a: Id, b: Id, moved: Id)
    requires a in st && b in st && st[a].Internal? && st[b].Internal? && InternalPair(st, a, b)
    requires moved in st[a].children || moved in st[b].children
    ensures moved in st && moved != a && moved != b
    ensures st[a].parent == st[b].parent ==> moved != st[a].parent
  {
  }

  lemma InternalPairApart(st: Store, a: Id, b: Id, p: Id)
    requires a in st && b in st && st[a].Internal? && st[b].Internal? && InternalPair(st, a, b)
    requires p == st[a].parent == st[b].parent
    ensures forall c :: c in st[b].children ==> c in st && c != a && c != b && c != p
  {
  }

  // The merge of children j and j + 1, and what it leads to above them.
  ghost predicate MergedBelow(st: Store, s: Shape, p: Id, j: nat, a: Id, b: Id, st': Store) {
    exists mid :: Merged(st, p, j, a, b, mid) && KeptUpTo(mid, s, a, st')
  }

  // What becomes of a node that may have too few keys, child j of p: one that has enough stays; the left neighbour
  // is asked for a key first, then the right one; and only if neither can spare one, the node is merged with the left
  // neighbour, or with the right one if it has no other.
  ghost predicate MendedAt(order: nat, st: Store, s: Shape, node: Id, j: nat, st': Store) {
    && node in st && node in s && st[node].parent in st
    && var p := st[node].parent; var least := if st[node].Leaf? then order / 2 else (order + 1) / 2 - 1;
    && st[p].Internal? && j < |st[p].children| == |st[p].keys| + 1 && st[p].children[j] == node
    && (j > 0 ==> st[p].children[j - 1] in st) && (j < |st[p].keys| ==> st[p].children[j + 1] in st)
    && if |st[node].keys| >= least then st' == st
       else if j > 0 && |st[st[p].children[j - 1]].keys| > least then
         var left := st[p].children[j - 1];
         Rotated(st, p, j - 1, left, node, |st[left].keys| - 1, st')
       else if j < |st[p].keys| && |st[st[p].children[j + 1]].keys| > least then
         Rotated(st, p, j, node, st[p].children[j + 1], |st[node].keys| + 1, st')
       else if j > 0 then MergedBelow(st, s, p, j - 1, st[p].children[j - 1], node, st')
       else j < |st[p].keys| && MergedBelow(st, s, p, j, node, st[p].children[j + 1], st')
  }

  ghost predicate Mended(order: nat, st: Store, s: Shape, node: Id, st': Store) {
    exists j: nat :: MendedAt(order, st, s, node, j, st')
  }

  lemma RotatedKeeps(st: Store, s: Shape, p: Id, j: nat, a: Id, b: Id, t: nat, node: Id, st': Store)
    requires Rotated(st, p, j, a, b, t, st') && (node == a || node == b)
    requires a in s && b in s && p in s && s[a].level == s[b].level < s[p].level
    ensures KeptUnder(st, s, node, st')
  {
  }

  lemma MergedKeeps(st: Store, s: Shape, p: Id, j: nat, a: Id, b: Id, node: Id, mid: Store, s': Shape, st': Store)
    requires Merged(st, p, j, a, b, mid) && (node == a || node == b)
    requires a in s && b in s && p in s && s[a].level == s[b].level < s[p].level
    requires ShapeMerged(s, a, b, s') && KeptUnder(mid, s', p, st') && (st[a].Leaf? ==> s[a].level == 0)
    ensures KeptUnder(st, s, node, st') && MergedBelow(st, s, p, j, a, b, st')
  {
  }

  lemma RootKeeps(st: Store, s: Shape, root: Id, st': Store, root': Id, m: Contents)
    requires TreeOk(st, s, root, m) && RootShrink(st, root, st', root')
    ensures KeptUnder(st, s, root, st')
  {
    assert NodeOk(st, s, root, st[root], s[root]);
    TreeIsLinked(st, s, root);
    TopIsAbove(st, s, root);
  }

  // The neighbours of child i of p.
  lemma ChildrenAround(order: nat, st: Store, s: Shape, root: Id, p: Id, i: nat, node: Id, m: Contents)
    requires order >= 3 && TreeOk(st, s, root, m) && Fill(order, st, root, Under(node))
    requires p in st && st[p].Internal? && i < |st[p].children| == |st[p].keys| + 1 && |st[p].keys| >= 1
    requires st[p].children[i] == node
    ensures node in st && node in s && p in s && s[p].level == s[node].level + 1
    ensures i > 0 ==> Neighbours(st, s, st[p].children[i - 1], node)
    ensures i < |st[p].keys| ==> Neighbours(st, s, node, st[p].children[i + 1])
  {
    hide Fill, FillOk, TreeOk, InternalPair;
    if i > 0 { NeighboursAt(order, st, s, root, p, i - 1, Under(node), m); }
    if i < |st[p].keys| { NeighboursAt(order, st, s, root, p, i, Under(node), m); }
  }

  ghost predicate Neighbours(st: Store, s: Shape, a: Id, b: Id) {
    && a in st && b in st && a in s && b in s && a != NULL && b != NULL
    && st[a].Leaf? == st[b].Leaf? && s[a].level == s[b].level && (st[a].Leaf? ==> s[a].level == 0)
  }

  lemma NeighboursAt(order: nat, st: Store, s: Shape, root: Id, p: Id, j: nat, loose: Loose, m: Contents)
    requires TreeOk(st, s, root, m) && Fill(order, st, root, loose)
    requires p in st && st[p].Internal? && j < |st[p].keys| && j + 1 < |st[p].children|
    ensures var a, b := st[p].children[j], st[p].children[j + 1];
      Neighbours(st, s, a, b) && p in s && s[p].level == s[a].level + 1
  {
    hide Fill, FillOk, NodesIn, Parents, Chain, Holds, KeysOk, ChildOk, Hangs, InternalPair, ParentOk;
    PairFacts(order, st, s, root, p, j, loose, m);
    PairPlaces(st, s, p, j, st[p].children[j], st[p].children[j + 1]);
    LeafLevel(st, s, st[p].children[j]);
  }

  lemma LeafLevel(st: Store, s: Shape, id: Id)
    requires s.Keys == st.Keys && Nodes(st, s) && id in st
    ensures st[id].Leaf? ==> s[id].level == 0
  {
    assert NodeOk(st, s, id, st[id], s[id]);
  }

  lemma EnoughKeys(order: nat, st: Store, s: Shape, root: Id, node: Id, m: Contents)
    requires order >= 3 && TreeOk(st, s, root, m) && Fill(order, st, root, Under(node)) && node in st && node != root
    requires |st[node].keys| >= Minimum(order, st[node])
    ensures Mended(order, st, s, node, st) && KeptUnder(st, s, node, st)
  {
    hide TreeOk, Fill, FillOk;
    UnderflowFacts(order, st, s, root, node, m);
    var p := st[node].parent;
    var j :| 0 <= j < |st[p].children| && st[p].children[j] == node;
    ChildrenAround(order, st, s, root, p, j, node, m);
    assert MendedAt(order, st, s, node, j, st);
    SameKept(st, s, node);
  }

  lemma SameKept(st: Store, s: Shape, node: Id)
    requires node in s
    ensures KeptUnder(st, s, node, st)
  {
  }

  // node, child j of its parent, has too few keys, and its neighbours are nodes.
  ghost predicate Short(order: nat, st: Store, s: Shape, node: Id, j: nat) {
    && node in st && node in s && st[node].parent in st && |st[node].keys| < Minimum(order, st[node])
    && var p := st[node].parent;
    && st[p].Internal? && j < |st[p].children| == |st[p].keys| + 1 && st[p].children[j] == node
    && (j > 0 ==> st[p].children[j - 1] in st) && (j < |st[p].keys| ==> st[p].children[j + 1] in st)
  }

  ghost predicate LeftSpares(order: nat, st: Store, s: Shape, node: Id, j: nat)
    requires Short(order, st, s, node, j)
  {
    j > 0 && |st[st[st[node].parent].children[j - 1]].keys| > Minimum(order, st[node])
  }

  ghost predicate RightSpares(order: nat, st: Store, s: Shape, node: Id, j: nat)
    requires Short(order, st, s, node, j)
  {
    var p := st[node].parent;
    j < |st[p].keys| && |st[st[p].children[j + 1]].keys| > Minimum(order, st[node])
  }

  lemma MendedFromLeft(order: nat, st: Store, s: Shape, node: Id, j: nat, st': Store)
    requires Short(order, st, s, node, j) && LeftSpares(order, st, s, node, j)
    requires var p := st[node].parent; var left := st[p].children[j - 1];
      Rotated(st, p, j - 1, left, node, |st[left].keys| - 1, st')
    ensures Mended(order, st, s, node, st')
  {
    hide Rotated, MergedBelow;
    assert MendedAt(order, st, s, node, j, st');
  }

  lemma MendedFromRight(order: nat, st: Store, s: Shape, node: Id, j: nat, st': Store)
    requires Short(order, st, s, node, j) && !LeftSpares(order, st, s, node, j) && RightSpares(order, st, s, node, j)
    requires var p := st[node].parent;
      Rotated(st, p, j, node, st[p].children[j + 1], |st[node].keys| + 1, st')
    ensures Mended(order, st, s, node, st')
  {
    hide Rotated, MergedBelow;
    assert MendedAt(order, st, s, node, j, st');
  }

  lemma MendedByMerge(order: nat, st: Store, s: Shape, node: Id, j: nat, st': Store)
    requires Short(order, st, s, node, j) && !LeftSpares(order, st, s, node, j) && !RightSpares(order, st, s, node, j)
    requires var p := st[node].parent;
      if j > 0 then MergedBelow(st, s, p, j - 1, st[p].children[j - 1], node, st')
      else j < |st[p].keys| && MergedBelow(st, s, p, j, node, st[p].children[j + 1], st')
    ensures Mended(order, st, s, node, st')
  {
    hide Rotated, MergedBelow;
    assert MendedAt(order, st, s, node, j, st');
  }

  // A root with keys stays; without, a leaf leaves the empty tree and an internal node its only child.
  ghost predicate RootShrink(st: Store, root: Id, st': Store, root': Id) {
    && root in st
    && if st[root].keys != [] then root' == root && st' == st
       else if st[root].Leaf? then root' == NULL
       else st[root].children == [root'] && root' in st && st' == st[root' := WithParent(st[root'], NULL)] - {root}
  }

  // Every leaf is still there, in the same place of the chain; only its parent may be another.
  ghost predicate LeavesKept(st: Store, st': Store) {
    forall id :: id in st && st[id].Leaf? ==> id in st' && st'[id] == WithParent(st[id], st'[id].parent)
  }

  lemma LeavesKeptByBoth(st: Store, mid: Store, st': Store)
    requires LeavesKept(st, mid) && LeavesKept(mid, st')
    ensures LeavesKept(st, st')
  {
  }

  // Nodes no higher than top, or lower than top, stay as they are, but for their parent links.
  ghost predicate KeptUpTo(st: Store, s: Shape, top: Id, st': Store) {
    top in s && forall id :: id in st && id in s && s[id].level <= s[top].level ==>
      id in st' && st'[id] == WithParent(st[id], st'[id].parent)
  }

  ghost predicate KeptUnder(st: Store, s: Shape, top: Id, st': Store) {
    top in s && forall id :: id in st && id in s && s[id].level < s[top].level ==>
      id in st' && st'[id] == WithParent(st[id], st'[id].parent)
  }

  // What an internal split does to the nodes no higher than it: one is cut in two, the others stay.
  ghost predicate InternalSplitAt(st: Store, s: Shape, node: Id, at: nat, st': Store) {
    exists right, mid :: CutInternal(st, node, at, right, mid) && node in s
      && KeptUpTo(mid, CutShape(s, node, st[node].keys[at], right), node, st')
  }

  // What the parent of a node cut in two does: it takes the separator and the right half next to the left one, and
  // is cut around its middle key if it is over-full then.
  ghost predicate ParentTold(order: nat, st: Store, s: Shape, left: Id, key: int, right: Id, st': Store) {
    exists i: nat, mid: Store :: Attached(st, left, key, right, i, mid)
      && if |mid[st[left].parent].keys| <= order - 1 then st' == mid
         else InternalSplitAt(mid, s, st[left].parent, order / 2, st')
  }

  lemma AttachedKeeps(st: Store, s: Shape, left: Id, key: int, right: Id, i: nat, st': Store)
    requires Attached(st, left, key, right, i, st') && left in s && st[left].parent in s
    requires s[st[left].parent].level > s[left].level
    ensures LeavesKept(st, st') && KeptUpTo(st, s, left, st')
  {
  }

  // The parent has room for the separator, or is over-full by it.
  lemma ParentTakes(order: nat, st: Store, s: Shape, root: Id, left: Id, key: int, right: Id, i: nat, nextId: Id,
                    st': Store, m: Contents)
    requires order >= 3 && Pending(st, s, root, left, key, right, m) && left != root
    requires Fill(order, st, root, Settled) && IdsBelow(st, nextId)
    requires var p := st[left].parent;
      && p in st && st[p].Internal? && i < |st[p].children| == |st[p].keys| + 1 && st[p].children[i] == left
      && right in st && p != right
      && st' == st[p := WithChild(st[p], i, key, right)][right := WithParent(st[right], p)]
    ensures Attached(st, left, key, right, i, st') && TreeOk(st', s, root, m) && root != NULL
    ensures LeavesKept(st, st') && KeptUpTo(st, s, left, st') && IdsBelow(st', nextId) && nextId > NULL
    ensures var p := st[left].parent;
      && p in st' && p in s && st'[p].Internal? && |st'[p].keys| <= order
      && Fill(order, st', root, if |st'[p].keys| > MaxKeys(order) then Over(p) else Settled)
  {
    hide TreeOk, Fill, FillOk, Pending, LeavesKept, KeptUpTo, IdsBelow;
    PendingFacts(st, s, root, left, key, right, m);
    AttachedTree(st, s, root, left, key, right, i, st', m);
    ParentGrown(order, st, root, left, key, right, i, st');
    AttachedKeeps(st, s, left, key, right, i, st');
    IdsKept(st, st', nextId);
  }

  lemma KeptTwice(st: Store, s: Shape, low: Id, high: Id, mid: Store, st': Store)
    requires KeptUpTo(st, s, low, mid) && KeptUnder(mid, s, high, st') && s[low].level < s[high].level
    ensures KeptUpTo(st, s, low, st')
  {
  }

  lemma CutKeepsUnder(st: Store, s: Shape, node: Id, at: nat, right: Id, cut: Store, st': Store)
    requires CutInternal(st, node, at, right, cut) && node in s
    requires KeptUpTo(cut, CutShape(s, node, st[node].keys[at], right), node, st')
    ensures KeptUnder(st, s, node, st') && InternalSplitAt(st, s, node, at, st')
  {
  }

  lemma ToldByAttaching(order: nat, st: Store, s: Shape, left: Id, key: int, right: Id, i: nat, mid: Store, st': Store)
    requires Attached(st, left, key, right, i, mid)
    requires if |mid[st[left].parent].keys| <= order - 1 then st' == mid
             else InternalSplitAt(mid, s, st[left].parent, order / 2, st')
    ensures ParentTold(order, st, s, left, key, right, st')
  {
  }

  // What a leaf split does to the leaves: one is cut in two, the others stay.
  ghost predicate LeafSplitAt(st: Store, leaf: Id, at: nat, st': Store) {
    exists right, mid :: CutLeaf(st, leaf, at, right, mid) && LeavesKept(mid, st')
  }

  // What taking one record does to the nodes: only leaf changes, unless a new key makes it over-full; then it is
  // cut in the middle, and the upper half begins with the (m + 1) / 2-th key.
  ghost predicate LeafTook(order: nat, st: Store, leaf: Id, key: int, record: RecordID, isNew: bool, st': Store) {
    && leaf in st && st[leaf].Leaf?
    && if !isNew then leaf in st' && st' == st[leaf := st'[leaf]]
       else exists i: nat :: KeyTook(order, st, leaf, i, key, record, st')
  }

  ghost predicate KeyTook(order: nat, st: Store, leaf: Id, i: nat, key: int, record: RecordID, st': Store)
    requires leaf in st && st[leaf].Leaf?
  {
    && i <= |st[leaf].keys| && i <= |st[leaf].values|
    && var n := WithKey(st[leaf], i, key, record);
    if |n.keys| <= order - 1 then st' == st[leaf := n] else LeafSplitAt(st[leaf := n], leaf, (order + 1) / 2, st')
  }

  lemma OneLeafEdited(order: nat, st: Store, leaf: Id, key: int, record: RecordID, st': Store)
    requires leaf in st && st[leaf].Leaf? && leaf in st' && st' == st[leaf := st'[leaf]]
    ensures LeafTook(order, st, leaf, key, record, false, st')
  {
  }

  lemma OneKeyTaken(order: nat, st: Store, leaf: Id, i: nat, key: int, record: RecordID, n: Node, st': Store)
    requires leaf in st && st[leaf].Leaf? && i <= |st[leaf].keys| && i <= |st[leaf].values|
    requires n == WithKey(st[leaf], i, key, record)
    requires if |n.keys| <= order - 1 then st' == st[leaf := n]
             else LeafSplitAt(st[leaf := n], leaf, (order + 1) / 2, st')
    ensures LeafTook(order, st, leaf, key, record, true, st')
  {
    assert KeyTook(order, st, leaf, i, key, record, st');
  }

  lemma LeafSplitInTwo(st: Store, leaf: Id, at: nat, right: Id, cut: Store, st': Store)
    requires CutLeaf(st, leaf, at, right, cut) && LeavesKept(cut, st')
    ensures LeafSplitAt(st, leaf, at, st')
  {
  }

  lemma CutInternalLeavesKept(st: Store, node: Id, mid: nat, right: Id, st': Store)
    requires CutInternal(st, node, mid, right, st')
    ensures LeavesKept(st, st')
  {
  }

  lemma IdsKept(st: Store, st': Store, nextId: Id)
    requires IdsBelow(st, nextId) && st'.Keys <= st.Keys
    ensures IdsBelow(st', nextId) && nextId > NULL
  {
  }

  // What a borrow comes to: between neighbours a and b, one key moved.
  lemma Borrowed(order: nat, st: Store, s: Shape, root: Id, p: Id, j: nat, a: Id, b: Id, t: nat,
                 loose: Id, st': Store, m: Contents)
    requires order >= 3 && TreeOk(st, s, root, m) && Fill(order, st, root, Under(loose))
    requires Pair(st, p, j, a, b) && a != root && b != root && (loose == a || loose == b)
    requires if st[a].Leaf? then RotatedLeaf(st, p, j, a, b, t, st') else RotatedInternal(st, p, j, a, b, t, st')
    requires Minimum(order, st[a]) <= t <= MaxKeys(order)
    requires Minimum(order, st[b]) <= |st[a].keys| + |st[b].keys| - t <= MaxKeys(order)
    ensures TreeOk(st', RotateShape(s, a, st'[p].keys[j], b), root, m) && Fill(order, st', root, Settled)
  {
    if st[a].Leaf? {
      RotatedLeafTree(st, s, root, p, j, a, b, t, st', RotateShape(s, a, st'[p].keys[j], b), m);
    } else {
      RotatedInternalTree(st, s, root, p, j, a, b, t, st', RotateShape(s, a, st'[p].keys[j], b), m);
    }
    RotatedFill(order, st, root, p, j, a, b, t, loose, st');
  }

  // After a borrow both neighbours are within bounds.
  lemma BorrowSizes(order: nat, root: Id, loose: Id, a: Id, na: Node, b: Id, nb: Node)
    requires order >= 3 && FillOk(order, root, Under(loose), a, na) && FillOk(order, root, Under(loose), b, nb)
    requires a != root && b != root && a != b && na.Leaf? == nb.Leaf?
    ensures loose == b && |nb.keys| < Minimum(order, nb) < |na.keys| ==>
      && Minimum(order, na) <= |na.keys| - 1 <= MaxKeys(order)
      && Minimum(order, nb) <= |nb.keys| + 1 <= MaxKeys(order)
    ensures loose == a && |na.keys| < Minimum(order, na) < |nb.keys| ==>
      && Minimum(order, na) <= |na.keys| + 1 <= MaxKeys(order)
      && Minimum(order, nb) <= |nb.keys| - 1 <= MaxKeys(order)
  {
  }

  lemma KeyBorrowedFromLeft(order: nat, st: Store, s: Shape, root: Id, p: Id, j: nat, a: Id, b: Id,
                            nextId: Id, st': Store, m: Contents)
    requires order >= 3 && TreeOk(st, s, root, m) && Fill(order, st, root, Under(b)) && IdsBelow(st, nextId)
    requires Pair(st, p, j, a, b) && a != root && b != root && st[a].Leaf? && st[b].Leaf?
    requires |st[a].values| == |st[a].keys| && |st[b].values| == |st[b].keys|
    requires |st[b].keys| < Minimum(order, st[b]) < |st[a].keys|
    requires var last := |st[a].keys| - 1;
      st' == st[b := st[b].(keys := [st[a].keys[last]] + st[b].keys, values := [st[a].values[last]] + st[b].values)]
               [a := st[a].(keys := st[a].keys[..last], values := st[a].values[..last])]
               [p := WithKeys(st[p], st[p].keys[j := st[a].keys[last]])]
    ensures p in st' && j < |st'[p].keys| && IdsBelow(st', nextId) && nextId > NULL && a in s && b in s
    ensures RotatedLeaf(st, p, j, a, b, |st[a].keys| - 1, st')
    ensures TreeOk(st', RotateShape(s, a, st'[p].keys[j], b), root, m) && Fill(order, st', root, Settled)
  {
    hide TreeOk, Fill, FillOk, RotatedLeaf, RotatedInternal, IdsBelow, RotateShape;
    TreeKeys(st, s, root, m);
    LeafFromLeft(st, p, j, a, b, st');
    IdsKept(st, st', nextId);
    FillAt(order, st, root, Under(b), a);
    FillAt(order, st, root, Under(b), b);
    BorrowSizes(order, root, b, a, st[a], b, st[b]);
    Borrowed(order, st, s, root, p, j, a, b, |st[a].keys| - 1, b, st', m);
  }

  lemma KeyBorrowedFromRight(order: nat, st: Store, s: Shape, root: Id, p: Id, j: nat, a: Id, b: Id,
                             nextId: Id, st': Store, m: Contents)
    requires order >= 3 && TreeOk(st, s, root, m) && Fill(order, st, root, Under(a)) && IdsBelow(st, nextId)
    requires Pair(st, p, j, a, b) && a != root && b != root && st[a].Leaf? && st[b].Leaf?
    requires |st[a].values| == |st[a].keys| && |st[b].values| == |st[b].keys|
    requires |st[a].keys| < Minimum(order, st[a]) < |st[b].keys|
    requires st' == st[a := st[a].(keys := st[a].keys + [st[b].keys[0]], values := st[a].values + [st[b].values[0]])]
                      [b := st[b].(keys := st[b].keys[1..], values := st[b].values[1..])]
                      [p := WithKeys(st[p], st[p].keys[j := st[b].keys[1]])]
    ensures p in st' && j < |st'[p].keys| && IdsBelow(st', nextId) && nextId > NULL && a in s && b in s
    ensures RotatedLeaf(st, p, j, a, b, |st[a].keys| + 1, st')
    ensures TreeOk(st', RotateShape(s, a, st'[p].keys[j], b), root, m) && Fill(order, st', root, Settled)
  {
    hide TreeOk, Fill, FillOk, RotatedLeaf, RotatedInternal, IdsBelow, RotateShape;
    TreeKeys(st, s, root, m);
    LeafFromRight(st, p, j, a, b, st');
    IdsKept(st, st', nextId);
    FillAt(order, st, root, Under(a), a);
    FillAt(order, st, root, Under(a), b);
    BorrowSizes(order, root, a, a, st[a], b, st[b]);
    Borrowed(order, st, s, root, p, j, a, b, |st[a].keys| + 1, a, st', m);
  }

  lemma ChildBorrowedFromLeft(order: nat, st: Store, s: Shape, root: Id, p: Id, j: nat, a: Id, b: Id, moved: Id,
                              nextId: Id, st': Store, m: Contents)
    requires order >= 3 && TreeOk(st, s, root, m) && Fill(order, st, root, Under(b)) && IdsBelow(st, nextId)
    requires Pair(st, p, j, a, b) && a != root && b != root && st[a].Internal? && st[b].Internal?
    requires |st[a].children| == |st[a].keys| + 1 && |st[b].children| == |st[b].keys| + 1 && InternalPair(st, a, b)
    requires |st[b].keys| < Minimum(order, st[b]) < |st[a].keys|
    requires moved == st[a].children[|st[a].keys|] && moved in st
    requires var last := |st[a].keys| - 1;
      st' == st[b := st[b].(keys := [st[p].keys[j]] + st[b].keys, children := [moved] + st[b].children)]
               [moved := WithParent(st[moved], b)]
               [p := WithKeys(st[p], st[p].keys[j := st[a].keys[last]])]
               [a := st[a].(keys := st[a].keys[..last], children := st[a].children[..last + 1])]
    ensures p in st' && j < |st'[p].keys| && IdsBelow(st', nextId) && nextId > NULL && a in s && b in s
    ensures RotatedInternal(st, p, j, a, b, |st[a].keys| - 1, st')
    ensures TreeOk(st', RotateShape(s, a, st'[p].keys[j], b), root, m) && Fill(order, st', root, Settled)
  {
    hide TreeOk, Fill, FillOk, RotatedLeaf, RotatedInternal, InternalPair, IdsBelow, RotateShape;
    TreeKeys(st, s, root, m);
    InternalFromLeft(st, p, j, a, b, moved, st');
    IdsKept(st, st', nextId);
    FillAt(order, st, root, Under(b), a);
    FillAt(order, st, root, Under(b), b);
    BorrowSizes(order, root, b, a, st[a], b, st[b]);
    Borrowed(order, st, s, root, p, j, a, b, |st[a].keys| - 1, b, st', m);
  }

  lemma ChildBorrowedFromRight(order: nat, st: Store, s: Shape, root: Id, p: Id, j: nat, a: Id, b: Id, moved: Id,
                               nextId: Id, st': Store, m: Contents)
    requires order >= 3 && TreeOk(st, s, root, m) && Fill(order, st, root, Under(a)) && IdsBelow(st, nextId)
    requires Pair(st, p, j, a, b) && a != root && b != root && st[a].Internal? && st[b].Internal?
    requires |st[a].children| == |st[a].keys| + 1 && |st[b].children| == |st[b].keys| + 1 && InternalPair(st, a, b)
    requires |st[a].keys| < Minimum(order, st[a]) < |st[b].keys|
    requires moved == st[b].children[0] && moved in st
    requires st' == st[a := st[a].(keys := st[a].keys + [st[p].keys[j]], children := st[a].children + [moved])]
                      [moved := WithParent(st[moved], a)]
                      [p := WithKeys(st[p], st[p].keys[j := st[b].keys[0]])]
                      [b := st[b].(keys := st[b].keys[1..], children := st[b].children[1..])]
    ensures p in st' && j < |st'[p].keys| && IdsBelow(st', nextId) && nextId > NULL && a in s && b in s
    ensures RotatedInternal(st, p, j, a, b, |st[a].keys| + 1, st')
    ensures TreeOk(st', RotateShape(s, a, st'[p].keys[j], b), root, m) && Fill(order, st', root, Settled)
  {
    hide TreeOk, Fill, FillOk, RotatedLeaf, RotatedInternal, InternalPair, IdsBelow, RotateShape;
    TreeKeys(st, s, root, m);
    InternalFromRight(st, p, j, a, b, moved, st');
    IdsKept(st, st', nextId);
    FillAt(order, st, root, Under(a), a);
    FillAt(order, st, root, Under(a), b);
    BorrowSizes(order, root, a, a, st[a], b, st[b]);
    Borrowed(order, st, s, root, p, j, a, b, |st[a].keys| + 1, a, st', m);
  }

  // A rotation moves keys between a and b only.
  ghost predicate SizesMoved(st: Store, a: Id, b: Id, t: nat, st': Store) {
    && st'.Keys == st.Keys && a in st && b in st && a != b
    && |st'[a].keys| == t && |st'[b].keys| == |st[a].keys| + |st[b].keys| - t
    && forall id :: id in st ==>
      st'[id].Leaf? == st[id].Leaf? && (id != a && id != b ==> |st'[id].keys| == |st[id].keys|)
  }

  lemma RotatedSizes(st: Store, p: Id, j: nat, a: Id, b: Id, t: nat, st': Store)
    requires RotatedLeaf(st, p, j, a, b, t, st') || RotatedInternal(st, p, j, a, b, t, st')
    ensures SizesMoved(st, a, b, t, st')
  {
    if RotatedInternal(st, p, j, a, b, t, st') {
      RotatedInternalSizes(st, p, j, a, b, t, st');
    } else {
      RotatedLeafSizes(st, p, j, a, b, t, st');
    }
  }

  lemma RotatedLeafSizes(st: Store, p: Id, j: nat, a: Id, b: Id, t: nat, st': Store)
    requires RotatedLeaf(st, p, j, a, b, t, st')
    ensures SizesMoved(st, a, b, t, st')
  {
  }

  lemma RotatedInternalSizes(st: Store, p: Id, j: nat, a: Id, b: Id, t: nat, st': Store)
    requires RotatedInternal(st, p, j, a, b, t, st')
    ensures SizesMoved(st, a, b, t, st')
  {
  }

  lemma RotatedFill(order: nat, st: Store, root: Id, p: Id, j: nat, a: Id, b: Id, t: nat, loose: Id, st': Store)
    requires Fill(order, st, root, Under(loose))
    requires Pair(st, p, j, a, b) && a != root && b != root && (loose == a || loose == b)
    requires RotatedLeaf(st, p, j, a, b, t, st') || RotatedInternal(st, p, j, a, b, t, st')
    requires Minimum(order, st[a]) <= t <= MaxKeys(order)
    requires Minimum(order, st[b]) <= |st[a].keys| + |st[b].keys| - t <= MaxKeys(order)
    ensures Fill(order, st', root, Settled)
  {
    hide RotatedLeaf, RotatedInternal;
    RotatedSizes(st, p, j, a, b, t, st');
    forall id | id in st' ensures FillOk(order, root, Settled, id, st'[id]) {
      assert FillOk(order, root, Under(loose), id, st[id]);
    }
  }

  lemma MergedFill(order: nat, st: Store, root: Id, p: Id, j: nat, a: Id, b: Id, loose: Id, st': Store)
    requires order >= 3 && Fill(order, st, root, Under(loose)) && (loose == a || loose == b)
    requires MergedLeaf(st, p, j, a, b, st') || MergedInternal(st, p, j, a, b, st')
    requires a != root && st[a].Leaf? == st[b].Leaf?
    requires |st[a].keys| + |st[b].keys| < 2 * Minimum(order, st[a])
    ensures Fill(order, st', root, Under(p))
  {
    assert FillOk(order, root, Under(loose), a, st[a]) && FillOk(order, root, Under(loose), b, st[b]);
    forall id | id in st' ensures FillOk(order, root, Under(p), id, st'[id]) {
      assert FillOk(order, root, Under(loose), id, st[id]);
    }
  }

  // The chain does not lead from the right neighbour back to the left one.
  lemma NotLinkedBack(st: Store, s: Shape, p: Id, j: nat, a: Id, b: Id, root: Id, m: Contents)
    requires TreeOk(st, s, root, m) && Pair(st, p, j, a, b) && st[a].Leaf? && st[b].Leaf?
    ensures st[b].next != a
  {
    PairPlaces(st, s, p, j, a, b);
    assert NextOk(st, s, b, st[b], s[b]) && Tight(st[a], s[a]) && Tight(st[b], s[b]);
  }

  ghost predicate ShapeMerged(s: Shape, a: Id, b: Id, s': Shape) {
    a in s && b in s && s' == MergeShape(s, a, b)
  }

  ghost predicate SamePlace(s: Shape, s': Shape, id: Id) {
    id in s && id in s' && s'[id] == s[id]
  }

  lemma MergedPlaces(st: Store, p: Id, j: nat, a: Id, b: Id, s: Shape, root: Id)
    requires s.Keys == st.Keys && root in s && Pair(st, p, j, a, b) && a != root && b != root
    ensures SamePlace(s, MergeShape(s, a, b), root) && SamePlace(s, MergeShape(s, a, b), p)
  {
  }

  lemma LeavesToMerge(order: nat, st: Store, s: Shape, root: Id, p: Id, j: nat, loose: Loose, m: Contents)
    requires TreeOk(st, s, root, m) && Fill(order, st, root, loose)
    requires p in st && st[p].Internal? && j < |st[p].keys| && j + 1 < |st[p].children|
    requires st[p].children[j] in st && st[st[p].children[j]].Leaf?
    ensures var a, b := st[p].children[j], st[p].children[j + 1];
      && Pair(st, p, j, a, b) && st[b].Leaf? && a != root && b != root
      && st[b].next != a && st[b].next != b && st[b].next != p && (st[b].next != NULL ==> st[b].next in st)
  {
    hide TreeOk, Fill, FillOk, KeysOk, LeafOk, LeafHolds, InternalPair;
    var a, b := st[p].children[j], st[p].children[j + 1];
    TreeKeys(st, s, root, m);
    PairFacts(order, st, s, root, p, j, loose, m);
    LeafFacts(order, st, s, root, b, m);
    NotLinkedBack(st, s, p, j, a, b, root, m);
  }

  // The steps of a merge of two leaves.
  ghost function LeafFolded(st: Store, p: Id, j: nat, a: Id, b: Id): Store
    requires Pair(st, p, j, a, b) && st[a].Leaf? && st[b].Leaf? && (st[b].next != NULL ==> st[b].next in st)
    requires st[b].next != p
  {
    var l, r := st[a], st[b];
    var st1 := st[a := l.(keys := l.keys + r.keys, values := l.values + r.values, next := r.next)];
    var st2 := if r.next != NULL then st1[r.next := Relinked(st1[r.next], a)] else st1;
    st2[p := WithoutChild(st2[p], j)] - {b}
  }

  lemma LeafFoldedOk(st: Store, p: Id, j: nat, a: Id, b: Id)
    requires Pair(st, p, j, a, b) && st[a].Leaf? && st[b].Leaf? && (st[b].next != NULL ==> st[b].next in st)
    requires NULL !in st && st[b].next != a && st[b].next != b && st[b].next != p
    ensures MergedLeaf(st, p, j, a, b, LeafFolded(st, p, j, a, b)) && LeafFolded(st, p, j, a, b).Keys <= st.Keys
  {
  }

  // The same for two internal nodes, whose children get a new parent.
  ghost function InternalFolded(st: Store, p: Id, j: nat, a: Id, b: Id): Store
    requires Pair(st, p, j, a, b) && st[a].Internal? && st[b].Internal? && p !in st[b].children
  {
    var l, r := st[a], st[b];
    var st1 := st[a := l.(keys := l.keys + [st[p].keys[j]] + r.keys, children := l.children + r.children)];
    var st2 := Adopted(st1, r.children, a);
    st2[p := WithoutChild(st2[p], j)] - {b}
  }

  lemma InternalFoldedOk(st: Store, p: Id, j: nat, a: Id, b: Id)
    requires Pair(st, p, j, a, b) && st[a].Internal? && st[b].Internal? && p !in st[b].children
    requires a !in st[b].children && b !in st[b].children
    ensures MergedInternal(st, p, j, a, b, InternalFolded(st, p, j, a, b))
    ensures InternalFolded(st, p, j, a, b).Keys <= st.Keys
  {
  }

  lemma LeavesMerged(order: nat, st: Store, s: Shape, root: Id, p: Id, j: nat, a: Id, b: Id, loose: Id,
                     st': Store, m: Contents)
    requires order >= 3 && TreeOk(st, s, root, m) && Fill(order, st, root, Under(loose))
    requires (loose == a || loose == b) && Pair(st, p, j, a, b) && st[a].Leaf? && st[b].Leaf?
    requires a != root && b != root && |st[a].keys| + |st[b].keys| < 2 * Minimum(order, st[a])
    requires st[b].next != a && st[b].next != b && st[b].next != p
    requires (st[b].next != NULL ==> st[b].next in st) && st' == LeafFolded(st, p, j, a, b)
    ensures a in s && b in s && st'.Keys <= st.Keys
    ensures var s' := MergeShape(s, a, b);
      SamePlace(s, s', root) && SamePlace(s, s', p) && TreeOk(st', s', root, m) && Fill(order, st', root, Under(p))
    ensures MergedLeaf(st, p, j, a, b, st')
  {
    hide TreeOk, Fill, LeafFolded, MergedLeaf, MergedInternal, MergeShape;
    TreeKeys(st, s, root, m);
    LeafFoldedOk(st, p, j, a, b);
    MergedLeafTree(st, s, root, p, j, a, b, st', MergeShape(s, a, b), m);
    MergedFill(order, st, root, p, j, a, b, loose, st');
    MergedPlaces(st, p, j, a, b, s, root);
  }

  lemma InternalsMerged(order: nat, st: Store, s: Shape, root: Id, p: Id, j: nat, a: Id, b: Id, loose: Id,
                        st': Store, m: Contents)
    requires order >= 3 && TreeOk(st, s, root, m) && Fill(order, st, root, Under(loose))
    requires (loose == a || loose == b) && Pair(st, p, j, a, b) && st[a].Internal? && st[b].Internal?
    requires a != root && b != root && |st[a].keys| + |st[b].keys| < 2 * Minimum(order, st[a])
    requires (forall c :: c in st[b].children ==> c != a && c != b && c != p) && st' == InternalFolded(st, p, j, a, b)
    ensures a in s && b in s && st'.Keys <= st.Keys
    ensures var s' := MergeShape(s, a, b);
      SamePlace(s, s', root) && SamePlace(s, s', p) && TreeOk(st', s', root, m) && Fill(order, st', root, Under(p))
    ensures MergedInternal(st, p, j, a, b, st')
  {
    hide TreeOk, Fill, InternalFolded, MergedLeaf, MergedInternal, MergeShape;
    TreeKeys(st, s, root, m);
    InternalFoldedOk(st, p, j, a, b);
    MergedInternalTree(st, s, root, p, j, a, b, st', MergeShape(s, a, b), m);
    MergedFill(order, st, root, p, j, a, b, loose, st');
    MergedPlaces(st, p, j, a, b, s, root);
  }

  // A root leaf is the whole tree.
  lemma LastLeaf(st: Store, s: Shape, root: Id, m: Contents)
    requires TreeOk(st, s, root, m) && st[root].Leaf?
    ensures st.Keys == {root}
    ensures st[root].keys == [] ==> m == map[]
  {
    LeafFacts(3, st, s, root, root, m);
    assert ParentOk(st, s, root, root);
    forall id | id in st ensures id == root { assert ParentOk(st, s, root, id); }
    if st[root].keys == [] {
      forall k | k in m ensures k in st[root].keys { assert Within(s[root], k); }
      assert m.Keys == {};
    }
  }

  lemma RootChild(order: nat, st: Store, s: Shape, root: Id, m: Contents)
    requires TreeOk(st, s, root, m) && st[root].Internal? && st[root].keys == []
    ensures |st[root].children| == 1 && st[root].children[0] in st && st[root].children[0] != root
  {
    InternalFacts(st, s, root, root, m);
  }

  lemma RootShrunk(order: nat, st: Store, s: Shape, root: Id, top: Id, st': Store, m: Contents)
    requires order >= 3 && TreeOk(st, s, root, m) && Fill(order, st, root, Under(root))
    requires st[root].Internal? && st[root].children == [top] && top in st && top != root
    requires st' == st[top := WithParent(st[top], NULL)] - {root}
    ensures TreeOk(st', s - {root}, top, m) && Fill(order, st', top, Settled)
  {
    hide NodesIn, Parents, Chain, Holds, Fill, ParentOk;
    assert Shrunk(st, root, top, st');
    ShrunkTree(st, s, root, top, st', s - {root}, m);
    ShrunkFill(order, st, root, top, st');
  }

  lemma ShrunkFill(order: nat, st: Store, root: Id, top: Id, st': Store)
    requires order >= 3 && Fill(order, st, root, Under(root)) && Shrunk(st, root, top, st')
    ensures Fill(order, st', top, Settled)
  {
    forall id | id in st' ensures FillOk(order, top, Settled, id, st'[id]) {
      assert FillOk(order, root, Under(root), id, st[id]);
    }
  }

  // ---------------------------------------------------------------- scanning the chain

  // The scan stands before position index of leaf, and has passed every key below from.
  ghost predicate ScanState(st: Store, s: Shape, leaf: Id, index: nat, from: int, m: Contents) {
    && leaf in st && leaf in s && st[leaf].Leaf? && KeysOk(st[leaf], s[leaf]) && LeafHolds(st[leaf], s[leaf], m)
    && index <= |st[leaf].keys|
    && (forall i :: 0 <= i < |st[leaf].keys| ==> (st[leaf].keys[i] < from <==> i < index))
    && (s[leaf].hi.At? ==> from <= s[leaf].hi.key)
    && (s[leaf].lo.At? ==> forall k :: k in m && from <= k ==> s[leaf].lo.key <= k)
  }

  lemma LevelsAreNodesOnPath(st: Store, s: Shape, root: Id, m: Contents)
    requires TreeOk(st, s, root, m)
    ensures forall path, leaf :: PathTo(st, root, path, leaf) && st[leaf].Leaf? ==> |path| == s[root].level + 1
  {
    TreeIsLinked(st, s, root);
    forall path, leaf | PathTo(st, root, path, leaf) && st[leaf].Leaf? ensures |path| == s[root].level + 1 {
      PathStaysInTree(st, s, root, path);
      assert NodeOk(st, s, leaf, st[leaf], s[leaf]);
    }
  }

  lemma KeysSorted(n: Node, p: Place)
    requires KeysOk(n, p)
    ensures Sorted(n.keys)
  {
  }

  lemma ScanStart(st: Store, s: Shape, leaf: Id, index: nat, lower: int, m: Contents)
    requires leaf in st && leaf in s && st[leaf].Leaf? && KeysOk(st[leaf], s[leaf]) && LeafHolds(st[leaf], s[leaf], m)
    requires Within(s[leaf], lower) && index <= |st[leaf].keys|
    requires forall i :: 0 <= i < |st[leaf].keys| ==> (st[leaf].keys[i] < lower <==> i < index)
    ensures ScanState(st, s, leaf, index, lower, m)
  {
  }

  lemma ScanBounds(st: Store, s: Shape, leaf: Id, index: nat, from: int, m: Contents)
    requires ScanState(st, s, leaf, index, from, m)
    ensures leaf in st && leaf in s && st[leaf].Leaf? && index <= |st[leaf].keys| == |st[leaf].values|
  {
  }

  lemma ScanStep(st: Store, s: Shape, leaf: Id, index: nat, from: int, m: Contents)
    requires ScanState(st, s, leaf, index, from, m) && index < |st[leaf].keys|
    ensures from <= st[leaf].keys[index]
    ensures forall k :: from <= k < st[leaf].keys[index] ==> k !in m
    ensures st[leaf].keys[index] in m && m[st[leaf].keys[index]] == st[leaf].values[index]
    ensures ScanState(st, s, leaf, index + 1, st[leaf].keys[index] + 1, m)
  {
    var key := st[leaf].keys[index];
    assert Within(s[leaf], key);
  }

  // The nodes to the right of a leaf.
  ghost function LeavesBeyond(s: Shape, leaf: Id): set<Id>
    requires leaf in s
  {
    set id | id in s && s[id].lo.At? && (s[leaf].lo.At? ==> s[leaf].lo.key < s[id].lo.key)
  }

  lemma ScanNext(st: Store, s: Shape, root: Id, leaf: Id, index: nat, from: int, m: Contents)
    requires TreeOk(st, s, root, m) && ScanState(st, s, leaf, index, from, m) && index == |st[leaf].keys|
    ensures var n := st[leaf].next;
      if n == NULL then forall k :: from <= k ==> k !in m
      else n in s && ScanState(st, s, n, 0, from, m) && LeavesBeyond(s, n) < LeavesBeyond(s, leaf)
  {
    var n := st[leaf].next;
    assert NextOk(st, s, leaf, st[leaf], s[leaf]) && Tight(st[leaf], s[leaf]);
    forall k | k in m && from <= k ensures s[leaf].hi.At? && s[leaf].hi.key <= k {
      assert !Within(s[leaf], k);
    }
    if n != NULL {
      LeafFacts(3, st, s, root, n, m);
      assert n in LeavesBeyond(s, leaf) && n !in LeavesBeyond(s, n);
      forall i | 0 <= i < |st[n].keys| ensures from <= st[n].keys[i] { assert Within(s[n], st[n].keys[i]); }
      assert Tight(st[n], s[n]);
    }
  }

  // ---------------------------------------------------------------- the class

  class BPlusTree {
    const order: nat
    var size: nat
    var root: Id
    var nodes: Store
    // The address the allocator hands out next.
    var nextId: Id
    ghost var shape: Shape
    ghost var contents: Contents

    // A non-empty tree, all but settled.
    ghost predicate Stands(loose: Loose)
      reads this
    {
      && order >= 3
      && TreeOk(nodes, shape, root, contents)
      && Fill(order, nodes, root, loose)
      && IdsBelow(nodes, nextId)
    }

    ghost predicate Valid()
      reads this
    {
      && order >= 3
      && size == |contents|
      && nextId > NULL
      && if root == NULL then nodes == map[] && shape == map[] && contents == map[] else Stands(Settled)
    }

    constructor (order: nat)
      requires order >= 3
      ensures Valid() && this.order == order && contents == map[]
    {
      this.order := order;
      size, root, nodes, nextId := 0, NULL, map[], 1;
      shape, contents := map[], map[];
    }

    // The source throws on an order below 3.
    static method Create(order: nat) returns (tree: BPlusTree?)
      ensures tree == null <==> order < 3
      ensures tree != null ==> fresh(tree) && tree.Valid() && tree.order == order && tree.contents == map[]
    {
      if order < 3 { return null; }
      tree := new BPlusTree(order);
    }

    // ---------------------------------------------------------------- search

    // The invariant is more than a search needs.
    lemma CanSearch()
      requires Valid()
      ensures NULL !in nodes
        && (root != NULL ==> Searchable(nodes, root, shape) && KeysOf(nodes, shape) == contents.Keys)
    {
      if root != NULL {
        assert ParentOk(nodes, shape, root, root);
        TreeIsLinked(nodes, shape, root);
        KeysAreContents(nodes, shape, root, contents);
      }
    }

    method Find(key: int) returns (found: bool, leaf: Id, index: nat)
      requires Valid()
      ensures found == (key in contents)
      ensures found ==> root != NULL && leaf in nodes && nodes[leaf].Leaf? && Within(shape[leaf], key)
      ensures found ==> index < |nodes[leaf].keys| == |nodes[leaf].values|
      ensures found ==> nodes[leaf].keys[index] == key && nodes[leaf].values[index] == contents[key]
    {
      CanSearch();
      found, leaf, index := Lookup(nodes, root, key, shape);
      if found { LeafFacts(order, nodes, shape, root, leaf, contents); }
    }

    method Contains(key: int) returns (found: bool)
      requires Valid()
      ensures found == (key in contents)
    {
      var leaf, index;
      found, leaf, index := Find(key);
    }

    method Search(key: int) returns (postings: seq<RecordID>)
      requires Valid()
      ensures postings == if key in contents then contents[key] else []
    {
      var found, leaf, index := Find(key);
      postings := if found then nodes[leaf].values[index] else [];
    }

    method Empty() returns (empty: bool)
      requires Valid()
      ensures empty == (contents == map[])
    {
      empty := root == NULL;
      if !empty { SomeKey(); }
    }

    // No key is kept without a record.
    lemma ListsAreNotEmpty()
      requires Valid()
      ensures NonEmpty(contents)
    {
      if root != NULL {
        TreeIsLinked(nodes, shape, root);
        assert ParentOk(nodes, shape, root, root);
        forall k | k in contents ensures contents[k] != [] {
          var leaf := LeafFor(nodes, shape, root, root, k);
          assert LeafHolds(nodes[leaf], shape[leaf], contents);
          assert NodeOk(nodes, shape, leaf, nodes[leaf], shape[leaf]);
        }
      }
    }

    // Between two operations every node but the root is at least half full, and no node is over-full.
    lemma HalfFull()
      requires Valid()
      ensures forall id :: id in nodes ==>
        && 1 <= |nodes[id].keys| <= order - 1
        && (nodes[id].Internal? ==> |nodes[id].children| == |nodes[id].keys| + 1)
        && (nodes[id].Leaf? && id != root ==> 2 * |nodes[id].keys| >= order - 1)
        && (nodes[id].Internal? && id != root ==> 2 * |nodes[id].children| >= order)
    {
      if root != NULL {
        forall id | id in nodes ensures FillOk(order, root, Settled, id, nodes[id])
          && NodeOk(nodes, shape, id, nodes[id], shape[id]) {}
      }
    }

    // A tree that stands has a leaf, and a settled leaf has a key.
    lemma SomeKey()
      requires Stands(Settled)
      ensures contents != map[]
    {
      assert ParentOk(nodes, shape, root, root);
      TreeIsLinked(nodes, shape, root);
      var leaf := LeafFor(nodes, shape, root, root, 0);
      assert FillOk(order, root, Settled, leaf, nodes[leaf]) && LeafHolds(nodes[leaf], shape[leaf], contents);
      assert nodes[leaf].keys[0] in contents;
    }

    // Inclusive on both ends: descends once, then walks the leaf chain.
    method RangeSearch(lower: int, upper: int) returns (result: seq<RecordID>)
      requires Valid()
      ensures result == InRange(contents, lower, upper)
    {
      hide TreeOk, Fill, KeysOk, Sorted, LeafOk, LeafHolds, Linked, KeysOf, LeavesBeyond, ScanState, InRange, IdsBelow;
      result := [];
      if root == NULL || upper < lower {
        InRangeGap(contents, lower, upper);
        return;
      }
      CanSearch();
      var leaf := FindLeaf(nodes, root, lower, shape);
      LeafFacts(order, nodes, shape, root, leaf, contents);
      InRangeGap(contents, lower, lower - 1);
      KeysSorted(nodes[leaf], shape[leaf]);
      var index: nat := LowerBoundIndex(nodes[leaf].keys, lower);
      ScanStart(nodes, shape, leaf, index, lower, contents);
      // Everything below from has been collected.
      ghost var from := lower;
      while leaf != NULL
        invariant lower <= from <= upper + 1
        invariant leaf == NULL || (leaf in shape && ScanState(nodes, shape, leaf, index, from, contents))
        invariant leaf == NULL ==> forall k :: from <= k ==> k !in contents
        invariant result == InRange(contents, lower, from - 1)
        decreases leaf != NULL, if leaf == NULL then {} else LeavesBeyond(shape, leaf)
      {
        ScanBounds(nodes, shape, leaf, index, from, contents);
        while index < |nodes[leaf].keys|
          invariant leaf in nodes && nodes[leaf].Leaf? && |nodes[leaf].values| == |nodes[leaf].keys|
          invariant index <= |nodes[leaf].keys| && lower <= from <= upper + 1
          invariant ScanState(nodes, shape, leaf, index, from, contents)
          invariant result == InRange(contents, lower, from - 1)
        {
          var key := nodes[leaf].keys[index];
          ScanStep(nodes, shape, leaf, index, from, contents);
          if upper < key {
            InRangeDone(contents, lower, from, upper);
            return;
          }
          InRangeStep(contents, lower, from, key);
          result := result + nodes[leaf].values[index];
          from := key + 1;
          index := index + 1;
        }
        ScanNext(nodes, shape, root, leaf, index, from, contents);
        leaf := nodes[leaf].next;
        index := 0;
      }
      InRangeDone(contents, lower, from, upper);
    }

    method Size() returns (n: nat)
      requires Valid()
      ensures n == |contents|
    {
      n := size;
    }

    // Number of levels: 0 for the empty tree, 1 for a lone root leaf. So it is one more than the edges from the
    // root to any leaf, which rule I24 wants.
    method Height() returns (height: nat)
      requires Valid()
      ensures height == if root == NULL then 0 else shape[root].level + 1
      ensures forall path, leaf ::
        root != NULL && PathTo(nodes, root, path, leaf) && nodes[leaf].Leaf? ==> height == |path|
    {
      if root != NULL { LevelsAreNodesOnPath(nodes, shape, root, contents); }
      if root == NULL { return 0; }
      height := 1;
      var node := root;
      while !nodes[node].Leaf?
        invariant node in nodes && height + shape[node].level == shape[root].level + 1
        decreases shape[node].level
      {
        assert NodeOk(nodes, shape, node, nodes[node], shape[node]);
        assert ChildOk(nodes, shape, node, nodes[node], shape[node], 0);
        node := nodes[node].children[0];
        height := height + 1;
      }
      assert NodeOk(nodes, shape, node, nodes[node], shape[node]);
    }

    // No sequence of operations leads to a tree that Validate rejects.
    method Validate() returns (ok: bool)
      requires Valid()
      ensures ok
    {
      hide NodesIn, Parents, Chain, Holds, Fill, ParentOk, BPlusValidate.Accepted;
      ghost var s, run: seq<Id> := shape, [];
      if root != NULL {
        BPlusValidate.TreeTyped(nodes, shape, root, contents);
        run := BPlusValidate.TreeAccepted(order, nodes, shape, root, contents);
      }
      ok, s, run := BPlusValidate.Validate(order, nodes, root, size, shape, run);
    }

    // ---------------------------------------------------------------- insert helpers

    method Insert(key: int, record: RecordID)
      requires Valid()
      modifies this
      ensures Valid() && contents == Inserted(old(contents), key, record)
      ensures key in contents && contents[key] == (if key in old(contents) then old(contents)[key] else []) + [record]
      ensures forall k :: k != key ==>
        (k in contents <==> k in old(contents)) && (k in contents ==> contents[k] == old(contents)[k])
    {
      InsertedList(contents, key, record);
      if root == NULL {
        InsertFirst(key, record);
        assert [] + [record] == [record];
        return;
      }
      CanSearch();
      var leaf := FindLeaf(nodes, root, key, shape);
      InsertIntoLeaf(leaf, key, record);
    }

    method InsertFirst(key: int, record: RecordID)
      requires Valid() && root == NULL
      modifies this
      ensures Valid() && contents == map[key := [record]]
    {
      hide TreeOk, Fill, IdsBelow;
      LoneLeaf(order, nextId, key, record);
      nodes := map[nextId := Leaf([key], [[record]], NULL, NULL, NULL)];
      root := nextId;
      nextId := nextId + 1;
      size := size + 1;
      shape := map[root := Place(Open, Open, 0)];
      contents := map[key := [record]];
    }

    method InsertIntoLeaf(leaf: Id, key: int, record: RecordID)
      requires Valid() && root != NULL && leaf in nodes && nodes[leaf].Leaf? && Within(shape[leaf], key)
      modifies this
      ensures Valid() && contents == Inserted(old(contents), key, record)
      ensures LeafTook(order, old(nodes), leaf, key, record, key !in old(contents), nodes)
    {
      hide TreeOk, Fill, FillOk, KeysOk, Sorted, LeafOk, LeafHolds, IdsBelow, Inserted, LeafSplitAt, LeafTook, KeyTook;
      ghost var st, m := nodes, contents;
      LeafToEdit(nodes, shape, root, leaf, contents);
      var index := LowerBoundIndex(nodes[leaf].keys, key);
      contents := Inserted(contents, key, record);
      if index < |nodes[leaf].keys| && !(key < nodes[leaf].keys[index]) {
        nodes := nodes[leaf := WithPostings(nodes[leaf], index, nodes[leaf].values[index] + [record])];
        PostingsReplaced(order, st, shape, root, leaf, index, st[leaf].values[index] + [record], m);
        InsertedBehind(m, key, record);
        IdsKept(st, nodes, nextId);
        OneLeafEdited(order, st, leaf, key, record, nodes);
        return;
      }
      nodes := nodes[leaf := WithKey(nodes[leaf], index, key, record)];
      size := size + 1;
      KeyAdded(order, st, shape, root, leaf, index, key, record, m);
      IdsKept(st, nodes, nextId);
      ghost var n := nodes[leaf];
      if |nodes[leaf].keys| > MaxKeys(order) {
        SplitLeaf(leaf);
      }
      OneKeyTaken(order, st, leaf, index, key, record, n, nodes);
    }

    method SplitLeaf(leaf: Id)
      requires Stands(Over(leaf)) && size == |contents|
      requires leaf in nodes && nodes[leaf].Leaf? && |nodes[leaf].keys| == order
      modifies `nodes, `root, `nextId, `shape
      ensures Valid() && LeafSplitAt(old(nodes), leaf, (order + 1) / 2, nodes)
      decreases shape[root].level - shape[leaf].level, 1
    {
      hide TreeOk, Fill, FillOk, KeysOk, LeafOk, LeafHolds, CutLeaf, CutShape, Pending, LeavesKept, LeafSplitAt,
        KeptUpTo, ParentTold, IdsBelow, Valid;
      ghost var st := nodes;
      LeafToSplit(nodes, shape, root, leaf, contents);
      var splitPoint := (|nodes[leaf].keys| + 1) / 2;
      var newLeaf := MoveUpperHalf(leaf, splitPoint);
      LeafSplit(order, st, shape, root, leaf, newLeaf, nodes, contents);
      ghost var cut := nodes;
      // The separator is copied up: the key stays in the leaf.
      var separator := nodes[newLeaf].keys[0];
      shape := CutShape(shape, leaf, separator, newLeaf);
      InsertIntoParent(leaf, separator, newLeaf);
      LeafSplitInTwo(st, leaf, splitPoint, newLeaf, cut, nodes);
    }

    // Moves the keys from splitPoint on to a new leaf and splices it into the leaf chain.
    method MoveUpperHalf(leaf: Id, splitPoint: nat) returns (newLeaf: Id)
      requires leaf in nodes && nodes[leaf].Leaf? && splitPoint <= |nodes[leaf].keys| == |nodes[leaf].values|
      requires IdsBelow(nodes, nextId)
      requires nodes[leaf].next != leaf
      requires nodes[leaf].next != NULL ==> nodes[leaf].next in nodes && nodes[nodes[leaf].next].Leaf?
      requires NULL !in nodes
      modifies `nodes, `nextId
      ensures CutLeaf(old(nodes), leaf, splitPoint, newLeaf, nodes) && IdsBelow(nodes, nextId)
    {
      var n := nodes[leaf];
      newLeaf := nextId;
      nextId := nextId + 1;
      nodes := nodes[newLeaf := Leaf(n.keys[splitPoint..], n.values[splitPoint..], NULL, n.next, leaf)];
      nodes := nodes[leaf := n.(keys := n.keys[..splitPoint], values := n.values[..splitPoint])];
      if n.next != NULL {
        nodes := nodes[n.next := nodes[n.next].(previous := newLeaf)];
      }
      nodes := nodes[leaf := nodes[leaf].(next := newLeaf)];
    }

    method InsertIntoParent(left: Id, key: int, right: Id)
      requires order >= 3 && size == |contents| && IdsBelow(nodes, nextId)
      requires Pending(nodes, shape, root, left, key, right, contents)
      requires Fill(order, nodes, root, Settled) && |nodes[left].keys| >= Minimum(order, nodes[left])
      modifies `nodes, `root, `nextId, `shape
      ensures Valid() && LeavesKept(old(nodes), nodes) && KeptUpTo(old(nodes), old(shape), left, nodes)
      ensures if left == old(root) then root in nodes && nodes[root] == Internal([key], [left, right], NULL)
              else ParentTold(order, old(nodes), old(shape), left, key, right, nodes)
      decreases shape[root].level - shape[left].level, 0
    {
      hide TreeOk, Fill, FillOk, Pending, LeavesKept, KeptUpTo, KeptUnder, InternalSplitAt, ParentTold, Attached,
        IdsBelow;
      ghost var st := nodes;
      if left == root {
        GrowRoot(left, key, right);
        return;
      }
      PendingFacts(nodes, shape, root, left, key, right, contents);
      var parent := nodes[left].parent;
      var index := ChildIndex(nodes[parent].children, left);
      nodes := nodes[parent := WithChild(nodes[parent], index, key, right)];
      nodes := nodes[right := WithParent(nodes[right], parent)];
      ghost var attached, s := nodes, shape;
      ParentTakes(order, st, s, root, left, key, right, index, nextId, attached, contents);
      if |nodes[parent].keys| > MaxKeys(order) {
        SplitInternal(parent);
        LeavesKeptByBoth(st, attached, nodes);
        KeptTwice(st, s, left, parent, attached, nodes);
      }
      ToldByAttaching(order, st, s, left, key, right, index, attached, nodes);
    }

    // The root was split: the tree grows a level.
    method GrowRoot(left: Id, key: int, right: Id)
      requires order >= 3 && size == |contents| && IdsBelow(nodes, nextId) && left == root
      requires Pending(nodes, shape, root, left, key, right, contents)
      requires Fill(order, nodes, root, Settled) && |nodes[left].keys| >= Minimum(order, nodes[left])
      modifies `nodes, `root, `nextId, `shape
      ensures Valid() && LeavesKept(old(nodes), nodes) && KeptUpTo(old(nodes), old(shape), left, nodes)
      ensures root == old(nextId) && root in nodes && nodes[root] == Internal([key], [left, right], NULL)
    {
      hide TreeOk, Fill, FillOk, Pending, LeavesKept, KeptUpTo, IdsBelow;
      RootIds(nodes, shape, left, key, right, nextId, contents);
      ghost var st, s := nodes, shape;
      var newRoot := nextId;
      nextId := nextId + 1;
      nodes := nodes[newRoot := Internal([key], [left, right], NULL)];
      nodes := nodes[left := WithParent(nodes[left], newRoot)];
      nodes := nodes[right := WithParent(nodes[right], newRoot)];
      root := newRoot;
      shape := shape[newRoot := Place(Open, Open, shape[left].level + 1)];
      RootGrown(order, st, s, left, key, right, newRoot, nodes, shape, contents);
      RootGrownKeeps(st, s, left, key, right, newRoot, nodes);
    }

    method SplitInternal(node: Id)
      requires Stands(Over(node)) && size == |contents|
      requires node in nodes && nodes[node].Internal? && |nodes[node].keys| == order
      modifies `nodes, `root, `nextId, `shape
      ensures Valid() && LeavesKept(old(nodes), nodes) && KeptUnder(old(nodes), old(shape), node, nodes)
      ensures InternalSplitAt(old(nodes), old(shape), node, order / 2, nodes)
      decreases shape[root].level - shape[node].level, 1
    {
      hide TreeOk, Fill, FillOk, CutInternal, CutShape, Pending, LeavesKept, KeptUpTo, KeptUnder, InternalSplitAt,
        ParentTold, IdsBelow, Valid;
      ghost var st, s := nodes, shape;
      InternalFacts(nodes, shape, root, node, contents);
      var mid := |nodes[node].keys| / 2;
      var separator := nodes[node].keys[mid];
      var newNode := MoveUpperChildren(node, mid);
      InternalSplit(order, st, shape, root, node, newNode, nodes, contents);
      shape := CutShape(shape, node, separator, newNode);
      // keys[mid] moves up; it is not left behind.
      ghost var cut := nodes;
      CutInternalLeavesKept(st, node, mid, newNode, cut);
      InsertIntoParent(node, separator, newNode);
      LeavesKeptByBoth(st, cut, nodes);
      CutKeepsUnder(st, s, node, mid, newNode, cut, nodes);
    }

    // Moves the keys and children beyond keys[mid] to a new node.
    method MoveUpperChildren(node: Id, mid: nat) returns (newNode: Id)
      requires node in nodes && nodes[node].Internal? && mid < |nodes[node].keys|
      requires |nodes[node].children| == |nodes[node].keys| + 1
      requires forall c :: c in nodes[node].children ==> c in nodes && c != node
      requires IdsBelow(nodes, nextId)
      modifies `nodes, `nextId
      ensures CutInternal(old(nodes), node, mid, newNode, nodes) && IdsBelow(nodes, nextId)
    {
      var n := nodes[node];
      newNode := nextId;
      nextId := nextId + 1;
      nodes := nodes[newNode := Internal(n.keys[mid + 1..], n.children[mid + 1..], NULL)];
      Adopt(n.children[mid + 1..], newNode);
      nodes := nodes[node := n.(keys := n.keys[..mid], children := n.children[..mid + 1])];
    }

    // for (child : children) child->parent = p
    method Adopt(children: seq<Id>, p: Id)
      requires forall c :: c in children ==> c in nodes
      modifies `nodes
      ensures nodes == Adopted(old(nodes), children, p)
    {
      var i := 0;
      while i < |children|
        invariant i <= |children|
        invariant nodes == Adopted(old(nodes), children[..i], p)
      {
        nodes := nodes[children[i] := WithParent(nodes[children[i]], p)];
        i := i + 1;
      }
      assert children[..i] == children;
    }

    // ---------------------------------------------------------------- delete helpers

    static method EraseFirst(postings: seq<RecordID>, record: RecordID) returns (rest: seq<RecordID>)
      ensures rest == WithoutFirst(postings, record)
    {
      var i := 0;
      while i < |postings|
        invariant i <= |postings| && record !in postings[..i]
      {
        if postings[i] == record {
          WithoutFirstAt(postings, record, i);
          return postings[..i] + postings[i + 1..];
        }
        i := i + 1;
      }
      WithoutFirstAbsent(postings, record);
      rest := postings;
    }

    method Remove(key: int, record: RecordID)
      requires Valid()
      modifies this
      ensures Valid() && contents == Removed(old(contents), key, record)
      ensures forall k :: k != key ==>
        (k in contents <==> k in old(contents)) && (k in contents ==> contents[k] == old(contents)[k])
      ensures key !in old(contents) || record !in old(contents)[key] ==> contents == old(contents)
      ensures key in old(contents) ==>
        var list := old(contents)[key];
        forall i :: 0 <= i < |list| && list[i] == record && record !in list[..i] ==>
          if |list| == 1 then key !in contents else key in contents && contents[key] == list[..i] + list[i + 1..]
    {
      hide TreeOk, Fill, FillOk, KeysOk, LeafOk, LeafHolds, IdsBelow, Removed, NonEmpty, WithoutFirst;
      ListsAreNotEmpty();
      RemovedList(contents, key, record);
      var found, leaf, index := Find(key);
      RemovedCases(contents, key, record);
      if !found { return; }
      ghost var st, m := nodes, contents;
      var rest := EraseFirst(nodes[leaf].values[index], record);
      nodes := nodes[leaf := WithPostings(nodes[leaf], index, rest)];
      contents := Removed(contents, key, record);
      if rest != [] {
        PostingsReplaced(order, st, shape, root, leaf, index, rest, m);
        IdsKept(st, nodes, nextId);
        return;
      }
      nodes := nodes[leaf := WithoutKey(nodes[leaf], index)];
      assert nodes == st[leaf := WithoutKey(st[leaf], index)];
      IdsKept(st, nodes, nextId);
      size := size - 1;
      KeyDropped(order, st, shape, root, leaf, index, m);
      FixUnderflow(leaf);
    }

    method Update(oldKey: int, newKey: int, record: RecordID) returns (updated: bool)
      requires Valid()
      modifies this
      ensures Valid() && contents == Updated(old(contents), oldKey, newKey, record)
      ensures updated == (oldKey in old(contents)) && (!updated ==> contents == old(contents))
      ensures forall k :: k != oldKey && k != newKey ==>
        (k in contents <==> k in old(contents)) && (k in contents ==> contents[k] == old(contents)[k])
      ensures updated && oldKey != newKey ==>
        newKey in contents
        && contents[newKey] == (if newKey in old(contents) then old(contents)[newKey] else []) + [record]
      ensures updated && record !in old(contents)[oldKey] ==>
        oldKey in contents
        && contents[oldKey] == old(contents)[oldKey] + if oldKey == newKey then [record] else []
      ensures updated ==>
        var list := old(contents)[oldKey];
        forall i :: 0 <= i < |list| && list[i] == record && record !in list[..i] ==>
          var rest := list[..i] + list[i + 1..];
          if oldKey == newKey then oldKey in contents && contents[oldKey] == rest + [record]
          else if rest == [] then oldKey !in contents
          else oldKey in contents && contents[oldKey] == rest
    {
      hide Valid, Inserted, Removed;
      var found := Contains(oldKey);
      if !found { return false; }
      Remove(oldKey, record);
      Insert(newKey, record);
      updated := true;
    }

    method Clear()
      requires Valid()
      modifies this
      ensures Valid() && contents == map[]
    {
      hide TreeOk, Fill, IdsBelow;
      nodes, root, size := map[], NULL, 0;
      shape, contents := map[], map[];
    }

    method FixUnderflow(node: Id)
      requires root != NULL && Stands(Under(node)) && node in nodes && size == |contents|
      modifies `nodes, `root, `shape
      ensures Valid() && KeptUnder(old(nodes), old(shape), node, nodes)
      ensures if node == old(root) then RootShrink(old(nodes), old(root), nodes, root)
              else Mended(order, old(nodes), old(shape), node, nodes)
      decreases shape[root].level - shape[node].level
    {
      hide TreeOk, Fill, FillOk, IdsBelow, Rotated, Merged, RootShrink, ShapeMerged, MergedBelow, Mended, KeptUnder,
        KeptUpTo, InternalPair, Pair;
      ghost var st, s := nodes, shape;
      if node == root {
        ShrinkRoot();
        RootKeeps(st, s, node, nodes, root, contents);
        return;
      }
      var minimum := Minimum(order, nodes[node]);
      if |nodes[node].keys| >= minimum {
        UnderOrSettled(order, nodes, root, node);
        EnoughKeys(order, st, s, root, node, contents);
        IdsKept(st, nodes, nextId);
        return;
      }
      UnderflowFacts(order, nodes, shape, root, node, contents);
      var parent := nodes[node].parent;
      var index := ChildIndex(nodes[parent].children, node);
      ChildrenAround(order, st, s, root, parent, index, node, contents);
      var leftSibling := if index > 0 then nodes[parent].children[index - 1] else NULL;
      var rightSibling := if index + 1 < |nodes[parent].children| then nodes[parent].children[index + 1] else NULL;

      if leftSibling != NULL && |nodes[leftSibling].keys| > minimum {
        BorrowFromLeft(node, parent, index, leftSibling);
        RotatedKeeps(st, s, parent, index - 1, leftSibling, node, |st[leftSibling].keys| - 1, node, nodes);
        MendedFromLeft(order, st, s, node, index, nodes);
        return;
      }
      if rightSibling != NULL && |nodes[rightSibling].keys| > minimum {
        BorrowFromRight(node, parent, index, rightSibling);
        RotatedKeeps(st, s, parent, index, node, rightSibling, |st[node].keys| + 1, node, nodes);
        MendedFromRight(order, st, s, node, index, nodes);
        return;
      }
      // No sibling can spare a key, so merge, always into the left of the pair.
      ghost var a, b, first := leftSibling, node, if index > 0 then index - 1 else 0;
      if leftSibling != NULL {
        MergeNodes(leftSibling, node, parent, index, node);
      } else {
        a, b, first := node, rightSibling, index;
        MergeNodes(node, rightSibling, parent, index + 1, node);
      }
      ghost var mid, places := nodes, shape;
      FixUnderflow(parent);
      MergedKeeps(st, s, parent, first, a, b, node, mid, places, nodes);
      MendedByMerge(order, st, s, node, index, nodes);
    }

    // node is a key short, donor has one to spare, and they are next to each other under parent: the children
    // j and j + 1.
    ghost predicate CanBorrow(node: Id, donor: Id, parent: Id, j: nat)
      reads this
    {
      && root != NULL && Stands(Under(node)) && size == |contents|
      && parent in nodes && nodes[parent].Internal?
      && j + 1 < |nodes[parent].children| == |nodes[parent].keys| + 1
      && node in nodes && donor in nodes
      && |nodes[node].keys| < Minimum(order, nodes[node]) < |nodes[donor].keys|
    }

    method BorrowFromLeft(node: Id, parent: Id, index: nat, ghost left: Id)
      requires index > 0 && CanBorrow(node, left, parent, index - 1)
      requires nodes[parent].children[index] == node && nodes[parent].children[index - 1] == left
      modifies `nodes, `shape
      ensures Valid()
      ensures Rotated(old(nodes), parent, index - 1, left, node, |old(nodes)[left].keys| - 1, nodes)
    {
      hide TreeOk, Fill, IdsBelow, RotatedLeaf, RotatedInternal;
      if nodes[node].Leaf? {
        BorrowKeyFromLeft(node, parent, index, left);
      } else {
        BorrowChildFromLeft(node, parent, index, left);
      }
    }

    method BorrowKeyFromLeft(node: Id, parent: Id, index: nat, ghost left: Id)
      requires index > 0 && CanBorrow(node, left, parent, index - 1)
      requires nodes[parent].children[index] == node && nodes[parent].children[index - 1] == left
      requires nodes[node].Leaf?
      modifies `nodes, `shape
      ensures Valid()
      ensures RotatedLeaf(old(nodes), parent, index - 1, left, node, |old(nodes)[left].keys| - 1, nodes)
    {
      hide TreeOk, Fill, FillOk, IdsBelow, RotatedLeaf, InternalPair, RotateShape;
      ghost var st := nodes;
      PairFacts(order, nodes, shape, root, parent, index - 1, Under(node), contents);
      var leftSibling := nodes[parent].children[index - 1];
      var target, source := nodes[node], nodes[leftSibling];
      var last := |source.keys| - 1;
      nodes := nodes[node := target.(keys := [source.keys[last]] + target.keys,
                                     values := [source.values[last]] + target.values)];
      nodes := nodes[leftSibling := source.(keys := source.keys[..last], values := source.values[..last])];
      nodes := nodes[parent := WithKeys(nodes[parent], nodes[parent].keys[index - 1 := nodes[node].keys[0]])];
      KeyBorrowedFromLeft(order, st, shape, root, parent, index - 1, left, node, nextId, nodes, contents);
      shape := RotateShape(shape, left, nodes[parent].keys[index - 1], node);
    }

    method BorrowChildFromLeft(node: Id, parent: Id, index: nat, ghost left: Id)
      requires index > 0 && CanBorrow(node, left, parent, index - 1)
      requires nodes[parent].children[index] == node && nodes[parent].children[index - 1] == left
      requires nodes[node].Internal?
      modifies `nodes, `shape
      ensures Valid()
      ensures RotatedInternal(old(nodes), parent, index - 1, left, node, |old(nodes)[left].keys| - 1, nodes)
    {
      hide TreeOk, Fill, FillOk, IdsBelow, RotatedInternal, InternalPair, RotateShape;
      ghost var st := nodes;
      PairFacts(order, nodes, shape, root, parent, index - 1, Under(node), contents);
      var leftSibling := nodes[parent].children[index - 1];
      var target, source := nodes[node], nodes[leftSibling];
      var last := |source.keys| - 1;
      // Rotate through the parent.
      var moved := source.children[last + 1];
      InternalPairMoved(st, leftSibling, node, moved);
      nodes := nodes[node := target.(keys := [nodes[parent].keys[index - 1]] + target.keys,
                                     children := [moved] + target.children)];
      nodes := nodes[moved := WithParent(nodes[moved], node)];
      nodes := nodes[parent := WithKeys(nodes[parent], nodes[parent].keys[index - 1 := source.keys[last]])];
      nodes := nodes[leftSibling := source.(keys := source.keys[..last], children := source.children[..last + 1])];
      ChildBorrowedFromLeft(order, st, shape, root, parent, index - 1, left, node, moved, nextId, nodes, contents);
      shape := RotateShape(shape, left, nodes[parent].keys[index - 1], node);
    }

    method BorrowFromRight(node: Id, parent: Id, index: nat, ghost right: Id)
      requires CanBorrow(node, right, parent, index)
      requires nodes[parent].children[index] == node && nodes[parent].children[index + 1] == right
      modifies `nodes, `shape
      ensures Valid()
      ensures Rotated(old(nodes), parent, index, node, right, |old(nodes)[node].keys| + 1, nodes)
    {
      hide TreeOk, Fill, IdsBelow, RotatedLeaf, RotatedInternal;
      if nodes[node].Leaf? {
        BorrowKeyFromRight(node, parent, index, right);
      } else {
        BorrowChildFromRight(node, parent, index, right);
      }
    }

    method BorrowKeyFromRight(node: Id, parent: Id, index: nat, ghost right: Id)
      requires CanBorrow(node, right, parent, index)
      requires nodes[parent].children[index] == node && nodes[parent].children[index + 1] == right
      requires nodes[node].Leaf?
      modifies `nodes, `shape
      ensures Valid()
      ensures RotatedLeaf(old(nodes), parent, index, node, right, |old(nodes)[node].keys| + 1, nodes)
    {
      hide TreeOk, Fill, FillOk, IdsBelow, RotatedLeaf, InternalPair, RotateShape;
      ghost var st := nodes;
      PairFacts(order, nodes, shape, root, parent, index, Under(node), contents);
      var rightSibling := nodes[parent].children[index + 1];
      var target, source := nodes[node], nodes[rightSibling];
      nodes := nodes[node := target.(keys := target.keys + [source.keys[0]],
                                     values := target.values + [source.values[0]])];
      nodes := nodes[rightSibling := source.(keys := source.keys[1..], values := source.values[1..])];
      nodes := nodes[parent := WithKeys(nodes[parent], nodes[parent].keys[index := nodes[rightSibling].keys[0]])];
      KeyBorrowedFromRight(order, st, shape, root, parent, index, node, right, nextId, nodes, contents);
      shape := RotateShape(shape, node, nodes[parent].keys[index], right);
    }

    method BorrowChildFromRight(node: Id, parent: Id, index: nat, ghost right: Id)
      requires CanBorrow(node, right, parent, index)
      requires nodes[parent].children[index] == node && nodes[parent].children[index + 1] == right
      requires nodes[node].Internal?
      modifies `nodes, `shape
      ensures Valid()
      ensures RotatedInternal(old(nodes), parent, index, node, right, |old(nodes)[node].keys| + 1, nodes)
    {
      hide TreeOk, Fill, FillOk, IdsBelow, RotatedInternal, InternalPair, RotateShape;
      ghost var st := nodes;
      PairFacts(order, nodes, shape, root, parent, index, Under(node), contents);
      var rightSibling := nodes[parent].children[index + 1];
      var target, source := nodes[node], nodes[rightSibling];
      var moved := source.children[0];
      InternalPairMoved(st, node, rightSibling, moved);
      nodes := nodes[node := target.(keys := target.keys + [nodes[parent].keys[index]],
                                     children := target.children + [moved])];
      nodes := nodes[moved := WithParent(nodes[moved], node)];
      nodes := nodes[parent := WithKeys(nodes[parent], nodes[parent].keys[index := source.keys[0]])];
      nodes := nodes[rightSibling := source.(keys := source.keys[1..], children := source.children[1..])];
      ChildBorrowedFromRight(order, st, shape, root, parent, index, node, right, moved, nextId, nodes, contents);
      shape := RotateShape(shape, node, nodes[parent].keys[index], right);
    }

    // right, at rightIndex under parent, comes next to left; they have too few keys for two nodes.
    ghost predicate CanMerge(left: Id, right: Id, parent: Id, rightIndex: nat, loose: Id)
      reads this
    {
      && root != NULL && Stands(Under(loose)) && (loose == left || loose == right) && size == |contents|
      && parent in nodes && nodes[parent].Internal?
      && 0 < rightIndex < |nodes[parent].children| == |nodes[parent].keys| + 1
      && nodes[parent].children[rightIndex - 1] == left && nodes[parent].children[rightIndex] == right
      && left in nodes && right in nodes
      && |nodes[left].keys| + |nodes[right].keys| < 2 * Minimum(order, nodes[left])
    }

    // Folds right into left.
    method MergeNodes(left: Id, right: Id, parent: Id, rightIndex: nat, ghost loose: Id)
      requires CanMerge(left, right, parent, rightIndex, loose)
      modifies `nodes, `shape
      ensures root != NULL && Stands(Under(parent)) && parent in nodes
      ensures Merged(old(nodes), parent, rightIndex - 1, left, right, nodes)
      ensures SamePlace(old(shape), shape, root) && SamePlace(old(shape), shape, parent)
      ensures ShapeMerged(old(shape), left, right, shape)
    {
      hide TreeOk, Fill, IdsBelow, MergedLeaf, MergedInternal, ShapeMerged;
      if nodes[left].Leaf? {
        MergeLeaves(left, right, parent, rightIndex, loose);
      } else {
        MergeInternals(left, right, parent, rightIndex, loose);
      }
    }

    method MergeLeaves(left: Id, right: Id, parent: Id, rightIndex: nat, ghost loose: Id)
      requires CanMerge(left, right, parent, rightIndex, loose) && nodes[left].Leaf?
      modifies `nodes, `shape
      ensures Stands(Under(parent)) && parent in nodes
      ensures MergedLeaf(old(nodes), parent, rightIndex - 1, left, right, nodes)
      ensures SamePlace(old(shape), shape, root) && SamePlace(old(shape), shape, parent)
      ensures ShapeMerged(old(shape), left, right, shape)
    {
      hide TreeOk, Fill, FillOk, KeysOk, LeafOk, LeafHolds, InternalPair, MergedLeaf, MergeShape, IdsBelow;
      ghost var st := nodes;
      LeavesToMerge(order, nodes, shape, root, parent, rightIndex - 1, Under(loose), contents);
      var l, r := nodes[left], nodes[right];
      nodes := nodes[left := l.(keys := l.keys + r.keys, values := l.values + r.values, next := r.next)];
      if r.next != NULL {
        nodes := nodes[r.next := Relinked(nodes[r.next], left)];
      }
      nodes := nodes[parent := WithoutChild(nodes[parent], rightIndex - 1)];
      nodes := nodes - {right};
      LeavesMerged(order, st, shape, root, parent, rightIndex - 1, left, right, loose, nodes, contents);
      IdsKept(st, nodes, nextId);
      shape := MergeShape(shape, left, right);
    }

    method MergeInternals(left: Id, right: Id, parent: Id, rightIndex: nat, ghost loose: Id)
      requires CanMerge(left, right, parent, rightIndex, loose) && nodes[left].Internal?
      modifies `nodes, `shape
      ensures Stands(Under(parent)) && parent in nodes
      ensures MergedInternal(old(nodes), parent, rightIndex - 1, left, right, nodes)
      ensures SamePlace(old(shape), shape, root) && SamePlace(old(shape), shape, parent)
      ensures ShapeMerged(old(shape), left, right, shape)
    {
      hide TreeOk, Fill, FillOk, InternalPair, MergedInternal, MergeShape, IdsBelow;
      ghost var st := nodes;
      PairFacts(order, nodes, shape, root, parent, rightIndex - 1, Under(loose), contents);
      InternalPairApart(st, left, right, parent);
      var l, r := nodes[left], nodes[right];
      nodes := nodes[left := l.(keys := l.keys + [nodes[parent].keys[rightIndex - 1]] + r.keys,
                                children := l.children + r.children)];
      Adopt(r.children, left);
      nodes := nodes[parent := WithoutChild(nodes[parent], rightIndex - 1)];
      nodes := nodes - {right};
      InternalsMerged(order, st, shape, root, parent, rightIndex - 1, left, right, loose, nodes, contents);
      IdsKept(st, nodes, nextId);
      shape := MergeShape(shape, left, right);
    }

    // An internal root without keys has one child, which takes over.
    method CollapseRoot()
      requires root != NULL && Stands(Under(root)) && size == |contents|
      requires root in nodes && nodes[root].Internal? && nodes[root].keys == []
      modifies `nodes, `root, `shape
      ensures Valid() && RootShrink(old(nodes), old(root), nodes, root)
    {
      hide TreeOk, Fill, FillOk, IdsBelow;
      TreeKeys(nodes, shape, root, contents);
      RootChild(order, nodes, shape, root, contents);
      ghost var st := nodes;
      var oldRoot := root;
      root := nodes[oldRoot].children[0];
      nodes := nodes[root := WithParent(nodes[root], NULL)];
      nodes := nodes - {oldRoot};
      IdsKept(st, nodes, nextId);
      RootShrunk(order, st, shape, oldRoot, root, nodes, contents);
      shape := shape - {oldRoot};
    }

    // The root is the only node allowed to be under-full; it goes when it has no keys left.
    method ShrinkRoot()
      requires root != NULL && Stands(Under(root)) && size == |contents|
      modifies `nodes, `root, `shape
      ensures Valid()
      ensures RootShrink(old(nodes), old(root), nodes, root)
    {
      hide NodesIn, Parents, Chain, Holds, Fill, ParentOk;
      if |nodes[root].keys| > 0 {
        UnderOrSettled(order, nodes, root, root);
        return;
      }
      if nodes[root].Leaf? {
        LastLeaf(nodes, shape, root, contents);
        nodes := nodes - {root};
        shape := map[];
        root := NULL;
        return;
      }
      CollapseRoot();
    }
  }
}
