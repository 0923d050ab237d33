/** Searching a node heap (BPlusTree.hpp, Search Helpers).  Nothing here needs the whole
    invariant of the tree: a Linked shape with an unbounded root window is enough, however the
    tree was built. */
module BPlusSearch {
  import opened BPlusNodes

  ghost predicate Searchable(st: Store, root: Id, s: Shape) {
    Linked(st, s, root) && s[root].lo == Open && s[root].hi == Open
  }

  // ---------------------------------------------------------------- reachability

  ghost predicate IsChild(st: Store, id: Id, child: Id) {
    id in st && st[id].Internal? && child in st && child in st[id].children
  }

  // A way down from root along child pointers.
  ghost predicate Path(st: Store, root: Id, path: seq<Id>) {
    && path != [] && path[0] == root && root in st
    && forall i :: 0 <= i < |path| - 1 ==> IsChild(st, path[i], path[i + 1])
  }

  ghost predicate PathTo(st: Store, root: Id, path: seq<Id>, id: Id) {
    Path(st, root, path) && path[|path| - 1] == id && id in st
  }

  ghost predicate Reaches(st: Store, root: Id, id: Id) {
    exists path :: PathTo(st, root, path, id)
  }

  // Some leaf below root holds the key.
  ghost predicate HeldBelow(st: Store, root: Id, key: int) {
    exists id :: id in st && Reaches(st, root, id) && st[id].Leaf? && key in st[id].keys
  }

  // Every path of a linked tree stays in it, a level down with each step.
  lemma {:induction false} PathStaysInTree(st: Store, s: Shape, root: Id, path: seq<Id>)
    requires Linked(st, s, root) && Path(st, root, path)
    ensures var id := path[|path| - 1]; id in s && s[id].level + |path| - 1 == s[root].level
    decreases |path|
  {
    if |path| > 1 {
      var above := path[..|path| - 1];
      PathStaysInTree(st, s, root, above);
      var p := path[|path| - 2];
      assert above[|above| - 1] == p && IsChild(st, p, path[|path| - 1]);
      ChildLinks(st, s, p, st[p], s[p]);
    }
  }

  lemma PathExtends(st: Store, root: Id, path: seq<Id>, id: Id, child: Id)
    requires PathTo(st, root, path, id) && IsChild(st, id, child)
    ensures PathTo(st, root, path + [child], child)
  {
    var longer := path + [child];
    forall i | 0 <= i < |longer| - 1 ensures IsChild(st, longer[i], longer[i + 1]) {
      assert longer[i] == path[i];
      if i + 1 < |path| { assert IsChild(st, path[i], path[i + 1]); }
    }
  }

  lemma {:induction false} PathFor(st: Store, s: Shape, root: Id, id: Id) returns (path: seq<Id>)
    requires Linked(st, s, root) && id in s
    ensures PathTo(st, root, path, id)
    decreases s[root].level - s[id].level
  {
    hide Path;
    if id == root {
      path := [root];
      RootPath(st, root);
    } else {
      assert Hangs(st, s, root, id);
      var p := st[id].parent;
      assert p != root ==> Hangs(st, s, root, p);
      assert NodeOk(st, s, p, st[p], s[p]);
      ChildLinks(st, s, p, st[p], s[p]);
      path := PathFor(st, s, root, p);
      PathExtends(st, root, path, p, id);
      path := path + [id];
    }
  }

  lemma RootPath(st: Store, root: Id)
    requires root in st
    ensures PathTo(st, root, [root], root)
  {
  }

  // The nodes of a linked shape are those reachable from its top, no more and no fewer.
  lemma ShapeIsWhatRootReaches(st: Store, s: Shape, root: Id, id: Id)
    requires Linked(st, s, root)
    ensures id in s <==> Reaches(st, root, id)
  {
    if id in s {
      var path := PathFor(st, s, root, id);
    }
    if Reaches(st, root, id) {
      var path :| PathTo(st, root, path, id);
      PathStaysInTree(st, s, root, path);
    }
  }

  lemma KeysOfIsHeldBelow(st: Store, s: Shape, root: Id, key: int)
    requires Linked(st, s, root)
    ensures key in KeysOf(st, s) <==> HeldBelow(st, root, key)
  {
    if key in KeysOf(st, s) {
      var id :| id in s && st[id].Leaf? && key in st[id].keys;
      ShapeIsWhatRootReaches(st, s, root, id);
    }
    if HeldBelow(st, root, key) {
      var id :| id in st && Reaches(st, root, id) && st[id].Leaf? && key in st[id].keys;
      ShapeIsWhatRootReaches(st, s, root, id);
    }
  }

  // ---------------------------------------------------------------- searching

  method UpperBoundIndex(keys: seq<int>, key: int) returns (index: nat)
    requires Sorted(keys)
    ensures index <= |keys|
    ensures forall i :: 0 <= i < |keys| ==> (keys[i] <= key <==> i < index)
  {
    var left, right := 0, |keys| - 1;
    while left <= right
      invariant 0 <= left <= right + 1 <= |keys|
      invariant forall i :: 0 <= i < left ==> keys[i] <= key
      invariant forall i :: right < i < |keys| ==> key < keys[i]
    {
      var mid := left + (right - left) / 2;
      if !(key < keys[mid]) {
        left := mid + 1;
      } else {
        right := mid - 1;
      }
    }
    index := left;
  }

  method LowerBoundIndex(keys: seq<int>, key: int) returns (index: nat)
    requires Sorted(keys)
    ensures index <= |keys|
    ensures forall i :: 0 <= i < |keys| ==> (keys[i] < key <==> i < index)
  {
    var left, right := 0, |keys| - 1;
    while left <= right
      invariant 0 <= left <= right + 1 <= |keys|
      invariant forall i :: 0 <= i < left ==> keys[i] < key
      invariant forall i :: right < i < |keys| ==> key <= keys[i]
    {
      var mid := left + (right - left) / 2;
      if keys[mid] < key {
        left := mid + 1;
      } else {
        right := mid - 1;
      }
    }
    index := left;
  }

  method ChildIndex(children: seq<Id>, child: Id) returns (index: nat)
    ensures index <= |children| && child !in children[..index]
    ensures child in children ==> index < |children| && children[index] == child
    ensures child !in children ==> index == |children|
  {
    index := 0;
    while index < |children|
      invariant index <= |children| && child !in children[..index]
    {
      if children[index] == child { return; }
      index := index + 1;
    }
  }

  method FindLeaf(st: Store, root: Id, key: int, ghost s: Shape) returns (leaf: Id)
    requires root != NULL ==> Searchable(st, root, s)
    ensures root == NULL ==> leaf == NULL
    ensures root != NULL ==> leaf in s && leaf in st && st[leaf].Leaf? && Within(s[leaf], key)
  {
    if root == NULL { return NULL; }
    leaf := root;
    while !st[leaf].Leaf?
      invariant leaf in s && Within(s[leaf], key)
      decreases s[leaf].level
    {
      assert NodeOk(st, s, leaf, st[leaf], s[leaf]);
      var index := UpperBoundIndex(st[leaf].keys, key);
      assert ChildOk(st, s, leaf, st[leaf], s[leaf], index);
      leaf := st[leaf].children[index];
    }
  }

  // FindLeaf plus LowerBoundIndex: found exactly when some leaf under the root holds the key.
  method Lookup(st: Store, root: Id, key: int, ghost s: Shape) returns (found: bool, leaf: Id, index: nat)
    requires NULL !in st && (root != NULL ==> Searchable(st, root, s))
    ensures root == NULL ==> !found
    ensures root != NULL ==> found == HeldBelow(st, root, key) == (key in KeysOf(st, s))
    ensures found ==> leaf in st && leaf in s && st[leaf].Leaf? && Within(s[leaf], key)
    ensures found ==> index < |st[leaf].keys| == |st[leaf].values| && st[leaf].keys[index] == key
  {
    hide KeysOf, HeldBelow;
    index := 0;
    leaf := FindLeaf(st, root, key, s);
    if leaf == NULL { return false, leaf, index; }
    assert NodeOk(st, s, leaf, st[leaf], s[leaf]);
    index := LowerBoundIndex(st[leaf].keys, key);
    found := !(index == |st[leaf].keys| || key < st[leaf].keys[index]);
    KeyIsInItsLeaf(st, s, root, leaf, key);
    KeysOfIsHeldBelow(st, s, root, key);
  }
}
