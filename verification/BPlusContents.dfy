/** What the B+ tree is for: an index from keys to posting lists (BPlusTree.hpp, Basic Operations
    and Search), as functions on a finite map, and the laws those functions obey. */
module BPlusContents {
  import opened BPlusNodes

  // Insert appends to the posting list of the key, opening one if there is none.
  function Inserted(m: Contents, key: int, record: RecordID): Contents {
    m[key := (if key in m then m[key] else []) + [record]]
  }

  // The list without the first entry equal to record.
  function WithoutFirst(postings: seq<RecordID>, record: RecordID): seq<RecordID> {
    if postings == [] then []
    else if postings[0] == record then postings[1..]
    else [postings[0]] + WithoutFirst(postings[1..], record)
  }

  // Remove drops the first matching record; the key goes only when its list is empty.
  function Removed(m: Contents, key: int, record: RecordID): Contents {
    if key !in m then m
    else
      var rest := WithoutFirst(m[key], record);
      if rest == [] then m - {key} else m[key := rest]
  }

  // Update: the old key must exist, but the record need not be on its list.
  function Updated(m: Contents, oldKey: int, newKey: int, record: RecordID): Contents {
    if oldKey in m then Inserted(Removed(m, oldKey, record), newKey, record) else m
  }

  function Postings(m: Contents, key: int): seq<RecordID> {
    if key in m then m[key] else []
  }

  // The posting lists of the keys in [lower, upper], in ascending order of the keys.
  function InRange(m: Contents, lower: int, upper: int): seq<RecordID>
    decreases upper - lower
  {
    if upper < lower then [] else Postings(m, lower) + InRange(m, lower + 1, upper)
  }

  ghost predicate NonEmpty<K, V>(m: map<K, seq<V>>) {
    forall k :: k in m ==> m[k] != []
  }

  // ---------------------------------------------------------------- laws

  lemma {:induction false} InRangeSplit(m: Contents, lower: int, mid: int, upper: int)
    requires lower <= mid <= upper + 1
    ensures InRange(m, lower, upper) == InRange(m, lower, mid - 1) + InRange(m, mid, upper)
    decreases mid - lower
  {
    if lower < mid {
      InRangeSplit(m, lower + 1, mid, upper);
      assert InRange(m, lower, upper) == Postings(m, lower) + InRange(m, lower + 1, upper);
    }
  }

  lemma InRangeOfOne(m: Contents, key: int)
    ensures InRange(m, key, key) == if key in m then m[key] else []
  {
    assert InRange(m, key + 1, key) == [];
  }

  lemma {:induction false} InRangeGap(m: Contents, lower: int, upper: int)
    requires forall k :: lower <= k <= upper ==> k !in m
    ensures InRange(m, lower, upper) == []
    decreases upper - lower
  {
    if lower <= upper { InRangeGap(m, lower + 1, upper); }
  }

  // No other keys between: scanning one key further appends exactly its postings.
  lemma InRangeStep(m: Contents, lower: int, from: int, key: int)
    requires lower <= from <= key
    requires forall k :: from <= k < key ==> k !in m
    ensures InRange(m, lower, key) == InRange(m, lower, from - 1) + Postings(m, key)
  {
    InRangeSplit(m, lower, from, key);
    InRangeSplit(m, from, key, key);
    InRangeGap(m, from, key - 1);
  }

  // Nothing left to collect.
  lemma InRangeDone(m: Contents, lower: int, from: int, upper: int)
    requires lower <= from <= upper + 1
    requires forall k :: from <= k <= upper ==> k !in m
    ensures InRange(m, lower, upper) == InRange(m, lower, from - 1)
  {
    InRangeSplit(m, lower, from, upper);
    InRangeGap(m, from, upper);
  }

  lemma {:induction false} WithoutFirstOfAppend(postings: seq<RecordID>, record: RecordID)
    requires record !in postings
    ensures WithoutFirst(postings + [record], record) == postings
  {
    if postings != [] {
      WithoutFirstOfAppend(postings[1..], record);
      assert (postings + [record])[1..] == postings[1..] + [record];
    }
  }

  lemma {:induction false} WithoutFirstAt(postings: seq<RecordID>, record: RecordID, i: nat)
    requires i < |postings| && postings[i] == record && record !in postings[..i]
    ensures WithoutFirst(postings, record) == postings[..i] + postings[i + 1..]
  {
    if i > 0 {
      assert postings[1..][..i - 1] == postings[..i][1..];
      WithoutFirstAt(postings[1..], record, i - 1);
      assert postings[0] == postings[..i][0];
      assert postings[..i] == [postings[0]] + postings[1..][..i - 1];
    }
  }

  lemma {:induction false} WithoutFirstAbsent(postings: seq<RecordID>, record: RecordID)
    requires record !in postings
    ensures WithoutFirst(postings, record) == postings
  {
    if postings != [] { WithoutFirstAbsent(postings[1..], record); }
  }

  // Remove undoes Insert of a record that was not yet listed under the key.
  lemma RemoveUndoesInsert(m: Contents, key: int, record: RecordID)
    requires NonEmpty(m) && record !in Postings(m, key)
    ensures Removed(Inserted(m, key, record), key, record) == m
  {
    WithoutFirstOfAppend(Postings(m, key), record);
  }

  // What Insert leaves under every key.
  lemma InsertedList(m: Contents, key: int, record: RecordID)
    ensures var m' := Inserted(m, key, record);
      && key in m' && m'[key] == (if key in m then m[key] else []) + [record]
      && forall k :: k != key ==> (k in m' <==> k in m) && (k in m ==> m'[k] == m[k])
  {
  }

  lemma RemovedCases(m: Contents, key: int, record: RecordID)
    ensures Removed(m, key, record) ==
      if key !in m then m
      else if WithoutFirst(m[key], record) == [] then m - {key} else m[key := WithoutFirst(m[key], record)]
  {
  }

  // What Remove leaves under every key: the first entry equal to the record goes, and the key with the last one.
  lemma RemovedList(m: Contents, key: int, record: RecordID)
    requires NonEmpty(m)
    ensures var m' := Removed(m, key, record);
      && (forall k :: k != key ==> (k in m' <==> k in m) && (k in m ==> m'[k] == m[k]))
      && (key !in m || record !in m[key] ==> m' == m)
      && (key in m ==> forall i :: 0 <= i < |m[key]| && m[key][i] == record && record !in m[key][..i] ==>
            if |m[key]| == 1 then key !in m' else key in m' && m'[key] == m[key][..i] + m[key][i + 1..])
  {
    if key in m {
      var list := m[key];
      if record !in list { WithoutFirstAbsent(list, record); }
      forall i | 0 <= i < |list| && list[i] == record && record !in list[..i]
        ensures WithoutFirst(list, record) == list[..i] + list[i + 1..]
      {
        WithoutFirstAt(list, record, i);
      }
    }
  }

  // Inserting touches the range exactly when the key lies in it.
  lemma PostingsOfInserted(m: Contents, key: int, record: RecordID, k: int)
    ensures Postings(Inserted(m, key, record), k) == Postings(m, k) + if k == key then [record] else []
  {
  }

  lemma {:induction false} InRangeOfInserted(m: Contents, key: int, record: RecordID, lower: int, upper: int)
    ensures multiset(InRange(Inserted(m, key, record), lower, upper)) ==
            multiset(InRange(m, lower, upper)) + (if lower <= key <= upper then multiset{record} else multiset{})
    decreases upper - lower
  {
    hide Inserted, Postings;
    if lower <= upper {
      var m' := Inserted(m, key, record);
      var list, list' := Postings(m, lower), Postings(m', lower);
      PostingsOfInserted(m, key, record, lower);
      var rest, rest' := InRange(m, lower + 1, upper), InRange(m', lower + 1, upper);
      assert InRange(m, lower, upper) == list + rest && InRange(m', lower, upper) == list' + rest';
      InRangeOfInserted(m, key, record, lower + 1, upper);
    }
  }

  // ---------------------------------------------------------------- where the written rules and the code part

  ghost predicate NoDuplicates(m: Contents) {
    forall k, i, j :: k in m && 0 <= i < j < |m[k]| ==> m[k][i] != m[k][j]
  }

  // Rule I20 promises at most one entry per document, whatever is inserted.  The code appends
  // blindly, so it keeps the rule exactly when the pair is new.
  lemma NoDuplicatesIffNew(m: Contents, key: int, record: RecordID)
    requires NoDuplicates(m)
    ensures NoDuplicates(Inserted(m, key, record)) <==> record !in Postings(m, key)
  {
    var m' := Inserted(m, key, record);
    var list := Postings(m, key);
    assert m'[key] == list + [record];
    if record in list {
      var i :| 0 <= i < |list| && list[i] == record;
      assert m'[key][i] == m'[key][|list|];
    } else {
      forall k, i, j | k in m' && 0 <= i < j < |m'[k]| ensures m'[k][i] != m'[k][j] {
        if k != key { assert m'[k] == m[k]; }
      }
    }
  }

  ghost predicate Ascending(m: Contents) {
    forall k, i, j :: k in m && 0 <= i < j < |m[k]| ==> m[k][i].documentID < m[k][j].documentID
  }

  // It also promises ascending lists.  The code keeps them so exactly when the new document is the largest.
  lemma AscendingIffLargest(m: Contents, key: int, record: RecordID)
    requires Ascending(m)
    ensures Ascending(Inserted(m, key, record)) <==>
            forall i :: 0 <= i < |Postings(m, key)| ==> Postings(m, key)[i].documentID < record.documentID
  {
    var m' := Inserted(m, key, record);
    var list := Postings(m, key);
    assert m'[key] == list + [record];
    if Ascending(m') {
      forall i | 0 <= i < |list| ensures list[i].documentID < record.documentID {
        assert m'[key][i].documentID < m'[key][|list|].documentID;
      }
    }
    if forall i :: 0 <= i < |list| ==> list[i].documentID < record.documentID {
      forall k, i, j | k in m' && 0 <= i < j < |m'[k]| ensures m'[k][i].documentID < m'[k][j].documentID {
        if k != key { assert m'[k] == m[k]; }
      }
    }
  }

  // The (key, record) pairs, the record by its place on the list.
  function Pairs<K, V>(m: map<K, seq<V>>): set<(K, int)> {
    set k, i | k in m && 0 <= i < |m[k]| :: (k, i)
  }

  function FirstPairs<K>(keys: set<K>): set<(K, int)> {
    set k | k in keys :: (k, 0)
  }

  lemma {:induction false} FirstPairsCount<K>(keys: set<K>)
    ensures |FirstPairs(keys)| == |keys|
    decreases |keys|
  {
    if keys != {} {
      var k :| k in keys;
      FirstPairsCount(keys - {k});
      assert FirstPairs(keys) == FirstPairs(keys - {k}) + {(k, 0)};
    }
  }

  lemma FirstPairsAreAll<K, V>(m: map<K, seq<V>>)
    requires NonEmpty(m)
    ensures FirstPairs(m.Keys) <= Pairs(m)
    ensures Pairs(m) <= FirstPairs(m.Keys) <==> forall k :: k in m ==> |m[k]| == 1
  {
    if k :| k in m && |m[k]| != 1 {
      assert (k, 1) in Pairs(m) && (k, 1) !in FirstPairs(m.Keys);
    }
  }

  lemma SubsetOfSameSize<A>(part: set<A>, whole: set<A>)
    requires part <= whole
    ensures |part| == |whole| <==> whole <= part
  {
    assert whole == part + (whole - part);
    if |part| == |whole| { assert whole - part == {}; }
    if whole <= part { assert whole == part; }
  }

  // Rule I23 wants Size to count pairs.  The code counts keys: the two agree exactly when no list is longer
  // than 1.
  lemma SizeCountsPairsIff<K, V>(m: map<K, seq<V>>)
    requires NonEmpty(m)
    ensures |Pairs(m)| == |m| <==> forall k :: k in m ==> |m[k]| == 1
  {
    hide Pairs, FirstPairs;
    FirstPairsCount(m.Keys);
    FirstPairsAreAll(m);
    SubsetOfSameSize(FirstPairs(m.Keys), Pairs(m));
  }

  // ---------------------------------------------------------------- how far pairs and keys drift apart

  // The pairs of one key.
  function Row<K(==)>(k: K, n: nat): set<(K, int)> {
    set i | 0 <= i < n :: (k, i)
  }

  lemma {:induction false} RowCount<K>(k: K, n: nat)
    ensures |Row(k, n)| == n
  {
    if n > 0 {
      RowCount(k, n - 1);
      assert Row(k, n) == Row(k, n - 1) + {(k, n - 1)};
    }
  }

  // Replacing the list of a key replaces its row.
  lemma PairsWithList<K, V>(m: map<K, seq<V>>, k: K, list: seq<V>)
    ensures |Pairs(m[k := list])| == |Pairs(m - {k})| + |list|
  {
    var rest, row := Pairs(m - {k}), Row(k, |list|);
    RowCount(k, |list|);
    assert rest !! row;
    assert Pairs(m[k := list]) == rest + row;
  }

  lemma PairsWithoutKey<K, V>(m: map<K, seq<V>>, k: K)
    ensures |Pairs(m)| == |Pairs(m - {k})| + if k in m then |m[k]| else 0
    ensures |m| == |m - {k}| + if k in m then 1 else 0
  {
    hide Pairs;
    if k in m {
      PairsWithList(m, k, m[k]);
      assert m[k := m[k]] == m;
      assert m.Keys == (m - {k}).Keys + {k};
    } else {
      assert m - {k} == m;
    }
  }

  lemma UpdateApart<K, V>(m: map<K, V>, k: K, v: V)
    ensures m[k := v] - {k} == m - {k}
  {
  }

  // An insertion under a key that is there adds a pair and no key, any other a pair and a key.
  lemma PairsAfterInsert(m: Contents, key: int, record: RecordID)
    ensures |Pairs(Inserted(m, key, record))| == |Pairs(m)| + 1
    ensures |Inserted(m, key, record)| == |m| + if key in m then 0 else 1
  {
    hide Pairs;
    PairsWithoutKey(m, key);
    PairsWithoutKey(Inserted(m, key, record), key);
    UpdateApart(m, key, Postings(m, key) + [record]);
  }

  lemma {:induction false} WithoutFirstLength(postings: seq<RecordID>, record: RecordID)
    ensures |WithoutFirst(postings, record)| == |postings| - if record in postings then 1 else 0
  {
    if postings != [] && postings[0] != record {
      WithoutFirstLength(postings[1..], record);
      assert record in postings <==> record in postings[1..];
    }
  }

  // A removal takes a pair if the record is listed, and a key if it was the only one listed.
  lemma PairsAfterRemove(m: Contents, key: int, record: RecordID)
    requires NonEmpty(m)
    ensures var listed := record in Postings(m, key);
      && |Pairs(Removed(m, key, record))| == |Pairs(m)| - (if listed then 1 else 0)
      && |Removed(m, key, record)| == |m| - (if listed && |Postings(m, key)| == 1 then 1 else 0)
  {
    if key in m {
      var rest := WithoutFirst(m[key], record);
      WithoutFirstLength(m[key], record);
      PairsWithoutKey(m, key);
      if rest != [] {
        PairsWithList(m, key, rest);
        assert (m[key := rest]).Keys == m.Keys;
      }
    }
  }

  // Rule I23 is broken by an insertion exactly when the key is there already, ...
  lemma SizeStaysPairsIffNewKey(m: Contents, key: int, record: RecordID)
    requires |Pairs(m)| == |m|
    ensures var m' := Inserted(m, key, record); |Pairs(m')| == |m'| <==> key !in m
  {
    PairsAfterInsert(m, key, record);
  }

  // ... and never by a removal; one that leaves the key mends it when the index was one pair ahead.
  lemma SizeIsPairsAfterRemoveIff(m: Contents, key: int, record: RecordID)
    requires NonEmpty(m)
    ensures var m' := Removed(m, key, record);
      |Pairs(m')| == |m'| <==>
      |Pairs(m)| == |m| + if record in Postings(m, key) && |m[key]| > 1 then 1 else 0
    ensures |Pairs(m)| == |m| ==> var m' := Removed(m, key, record); |Pairs(m')| == |m'|
  {
    PairsAfterRemove(m, key, record);
    SizeCountsPairsIff(m);
    assert |Pairs(m)| == |m| && key in m ==> |m[key]| == 1;
  }

  // ---------------------------------------------------------------- a failing input

  // The same record twice under one key: a duplicate, no strict order, and two pairs for one key.
  lemma InsertedTwice(record: RecordID)
    ensures var m := Inserted(Inserted(map[], 7, record), 7, record);
      && m == map[7 := [record, record]] && !NoDuplicates(m) && !Ascending(m)
      && |Pairs(m)| == 2 && |m| == 1
  {
    var m := Inserted(Inserted(map[], 7, record), 7, record);
    assert m[7] == [record, record] && m.Keys == {7};
    assert m[7][0] == m[7][1];
    assert |Pairs(m)| == 2 by {
      PairsAfterInsert(map[], 7, record);
      PairsAfterInsert(Inserted(map[], 7, record), 7, record);
      var none: Contents := map[];
      assert Pairs(none) == {};
    }
  }
}
