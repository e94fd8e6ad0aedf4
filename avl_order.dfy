/**
 * What insert, remove, search and the traversals do to the stored records: BST
 * order, the key set, the in-order record sequence and the node count. None of
 * this depends on the stored heights, so it holds for the removal path too.
 */
module AvlOrder {
  import opened AvlTree

  /** The IDs occurring in a record sequence. */
  function Ids(s: seq<Entry>): set<nat>
  {
    if s == [] then {} else {s[0].id} + Ids(s[1..])
  }

  // ---------------------------------------------------------------------------
  // Record sequences

  lemma {:induction false} IdsAppend(a: seq<Entry>, b: seq<Entry>)
    ensures Ids(a + b) == Ids(a) + Ids(b)
  {
    if a == [] {
      assert a + b == b;
    } else {
      assert (a + b)[1..] == a[1..] + b;
      IdsAppend(a[1..], b);
    }
  }

  lemma {:induction false} IdAt(s: seq<Entry>, i: nat)
    requires i < |s|
    ensures s[i].id in Ids(s)
  {
    if i > 0 {
      assert s[1..][i - 1] == s[i];
      IdAt(s[1..], i - 1);
    }
  }

  lemma {:induction false} IdIndex(s: seq<Entry>, k: nat) returns (i: nat)
    requires k in Ids(s)
    ensures i < |s| && s[i].id == k
  {
    if s[0].id == k {
      i := 0;
    } else {
      var j := IdIndex(s[1..], k);
      i := j + 1;
    }
  }

  lemma {:induction false} MemberIdInIds(s: seq<Entry>, e: Entry)
    requires e in s
    ensures e.id in Ids(s)
  {
    var i :| 0 <= i < |s| && s[i] == e;
    IdAt(s, i);
  }

  /** A record sequence split around one record is sorted when both sides are and the record separates them. */
  lemma SortedSplitIntro(a: seq<Entry>, e: Entry, b: seq<Entry>)
    requires Sorted(a) && Sorted(b)
    requires forall k :: k in Ids(a) ==> k < e.id
    requires forall k :: k in Ids(b) ==> e.id < k
    ensures Sorted(a + [e] + b)
  {
    var s := a + [e] + b;
    forall i, j | 0 <= i < j < |s| ensures s[i].id < s[j].id {
      if i < |a| {
        assert s[i] == a[i];
        IdAt(a, i);
      }
      if j > |a| {
        assert s[j] == b[j - |a| - 1];
        IdAt(b, j - |a| - 1);
      }
      if i > |a| {
        assert s[i] == b[i - |a| - 1];
      }
      if j < |a| {
        assert s[j] == a[j];
      }
    }
  }

  /** Conversely, each side of a sorted sequence is sorted and lies on its side of the splitting record. */
  lemma SortedSplitElim(a: seq<Entry>, e: Entry, b: seq<Entry>)
    requires Sorted(a + [e] + b)
    ensures Sorted(a) && Sorted(b)
    ensures forall k :: k in Ids(a) ==> k < e.id
    ensures forall k :: k in Ids(b) ==> e.id < k
  {
    var s := a + [e] + b;
    assert s[|a|] == e;
    forall i, j | 0 <= i < j < |a| ensures a[i].id < a[j].id {
      assert s[i] == a[i] && s[j] == a[j];
    }
    forall i, j | 0 <= i < j < |b| ensures b[i].id < b[j].id {
      assert s[|a| + 1 + i] == b[i] && s[|a| + 1 + j] == b[j];
    }
    forall k | k in Ids(a) ensures k < e.id {
      var i := IdIndex(a, k);
      assert s[i] == a[i];
    }
    forall k | k in Ids(b) ensures e.id < k {
      var j := IdIndex(b, k);
      assert s[|a| + 1 + j] == b[j];
    }
  }

  lemma {:induction false} SortedTail(s: seq<Entry>)
    requires s != [] && Sorted(s)
    ensures Sorted(s[1..]) && forall k :: k in Ids(s[1..]) ==> s[0].id < k
  {
    assert s == [] + [s[0]] + s[1..];
    SortedSplitElim([], s[0], s[1..]);
  }

  lemma {:induction false} SortedCons(e: Entry, s: seq<Entry>)
    requires Sorted(s) && forall k :: k in Ids(s) ==> e.id < k
    ensures Sorted([e] + s)
  {
    assert [e] + s == [] + [e] + s;
    SortedSplitIntro([], e, s);
  }

  lemma {:induction false} IdsDrop(s: seq<Entry>, id: nat)
    ensures Ids(DropId(s, id)) == Ids(s) - {id}
  {
    if s != [] {
      IdsDrop(s[1..], id);
      IdsAppend(if s[0].id == id then [] else [s[0]], DropId(s[1..], id));
    }
  }

  lemma {:induction false} DropAbsent(s: seq<Entry>, id: nat)
    requires id !in Ids(s)
    ensures DropId(s, id) == s
  {
    if s != [] {
      DropAbsent(s[1..], id);
    }
  }

  lemma {:induction false} DropAppend(a: seq<Entry>, b: seq<Entry>, id: nat)
    ensures DropId(a + b, id) == DropId(a, id) + DropId(b, id)
  {
    if a == [] {
      assert a + b == b;
    } else {
      assert (a + b)[1..] == a[1..] + b;
      DropAppend(a[1..], b, id);
    }
  }

  /** Dropping an ID that is only on the left of a split leaves the rest alone. */
  lemma DropLeft(a: seq<Entry>, x: Entry, b: seq<Entry>, id: nat)
    requires id != x.id && id !in Ids(b)
    ensures DropId(a + [x] + b, id) == DropId(a, id) + [x] + b
  {
    DropAppend(a + [x], b, id);
    DropAppend(a, [x], id);
    DropAbsent(b, id);
  }

  /** Dropping an ID that is only on the right of a split leaves the rest alone. */
  lemma DropRight(a: seq<Entry>, x: Entry, b: seq<Entry>, id: nat)
    requires id != x.id && id !in Ids(a)
    ensures DropId(a + [x] + b, id) == a + [x] + DropId(b, id)
  {
    DropAppend(a + [x], b, id);
    DropAppend(a, [x], id);
    DropAbsent(a, id);
  }

  /** Dropping the splitting record's ID, absent on both sides, removes just that record. */
  lemma DropMiddle(a: seq<Entry>, x: Entry, b: seq<Entry>)
    requires x.id !in Ids(a) && x.id !in Ids(b)
    ensures DropId(a + [x] + b, x.id) == a + b
  {
    DropAppend(a + [x], b, x.id);
    DropAppend(a, [x], x.id);
    DropAbsent(a, x.id);
    DropAbsent(b, x.id);
    assert [x][1..] == [];
    assert DropId([x], x.id) == [];
    assert a + [] == a;
  }

  /** Dropping an ID from a sorted sequence keeps it sorted. */
  lemma {:induction false} DropSorted(s: seq<Entry>, id: nat)
    requires Sorted(s)
    ensures Sorted(DropId(s, id))
  {
    if s != [] {
      SortedTail(s);
      DropSorted(s[1..], id);
      IdsDrop(s[1..], id);
      if s[0].id != id {
        SortedCons(s[0], DropId(s[1..], id));
      }
    }
  }

  /** In a sorted sequence, dropping the ID found at position i removes exactly position i. */
  lemma {:induction false} DropAtRank(s: seq<Entry>, i: nat)
    requires Sorted(s) && i < |s|
    ensures DropId(s, s[i].id) == s[..i] + s[i + 1..]
  {
    var id, rest := s[i].id, s[1..];
    SortedTail(s);
    if i == 0 {
      DropAbsent(rest, id);
      assert DropId(s, id) == [] + DropId(rest, id);
      assert s[..i] + s[i + 1..] == rest;
    } else {
      assert s[0].id < id;
      assert rest[i - 1] == s[i];
      DropAtRank(rest, i - 1);
      assert DropId(s, id) == [s[0]] + DropId(rest, id);
      assert rest[..i - 1] + rest[i..] == s[1..i] + s[i + 1..];
      assert s[..i] == [s[0]] + s[1..i];
    }
  }

  lemma {:induction false} IdsSortedInsert(s: seq<Entry>, e: Entry)
    ensures Ids(SortedInsert(s, e)) == Ids(s) + {e.id}
  {
    if s != [] && e.id >= s[0].id {
      IdsSortedInsert(s[1..], e);
    }
  }

  /** Inserting a fresh ID into a sorted sequence keeps it sorted. */
  lemma {:induction false} SortedInsertSorted(s: seq<Entry>, e: Entry)
    requires Sorted(s) && e.id !in Ids(s)
    ensures Sorted(SortedInsert(s, e))
  {
    if s == [] {
    } else if e.id < s[0].id {
      SortedTail(s);
      SortedCons(e, s);
    } else {
      SortedTail(s);
      SortedInsertSorted(s[1..], e);
      IdsSortedInsert(s[1..], e);
      SortedCons(s[0], SortedInsert(s[1..], e));
    }
  }

  /** Records after the insertion point are untouched. */
  lemma {:induction false} SortedInsertBefore(a: seq<Entry>, x: Entry, b: seq<Entry>, e: Entry)
    requires e.id < x.id
    ensures SortedInsert(a + [x] + b, e) == SortedInsert(a, e) + [x] + b
  {
    if a == [] {
      assert a + [x] + b == [x] + b;
    } else if e.id < a[0].id {
    } else {
      assert (a + [x] + b)[0] == a[0];
      assert (a + [x] + b)[1..] == a[1..] + [x] + b;
      SortedInsertBefore(a[1..], x, b, e);
    }
  }

  /** Records before the insertion point are untouched. */
  lemma {:induction false} SortedInsertAfter(a: seq<Entry>, c: seq<Entry>, e: Entry)
    requires forall k :: k in Ids(a) ==> k < e.id
    ensures SortedInsert(a + c, e) == a + SortedInsert(c, e)
  {
    if a != [] {
      assert Ids(a) == {a[0].id} + Ids(a[1..]);
      assert (a + c)[0] == a[0] && (a + c)[1..] == a[1..] + c;
      SortedInsertAfter(a[1..], c, e);
      assert a + SortedInsert(c, e) == [a[0]] + (a[1..] + SortedInsert(c, e));
    } else {
      assert a + c == c;
    }
  }

  // ---------------------------------------------------------------------------
  // Trees and their record sequences

  /** The key set is the set of IDs of the in-order records. */
  lemma {:induction false} KeysAreIds(t: Tree)
    ensures Keys(t) == Ids(Entries(t))
  {
    if t.Node? {
      KeysAreIds(t.left);
      KeysAreIds(t.right);
      IdsAppend(Entries(t.left) + [Entry(t.id, t.name)], Entries(t.right));
      IdsAppend(Entries(t.left), [Entry(t.id, t.name)]);
    }
  }

  /** BST order holds exactly when the in-order IDs are strictly ascending. */
  lemma {:induction false} BstIffSorted(t: Tree)
    ensures Bst(t) <==> Sorted(Entries(t))
  {
    if t.Node? {
      BstIffSorted(t.left);
      BstIffSorted(t.right);
      KeysAreIds(t.left);
      KeysAreIds(t.right);
      if Sorted(Entries(t)) {
        SortedSplitElim(Entries(t.left), Entry(t.id, t.name), Entries(t.right));
      }
      if Bst(t) {
        SortedSplitIntro(Entries(t.left), Entry(t.id, t.name), Entries(t.right));
      }
    }
  }

  /** IDs are distinct: in a BST the key set has one ID per node. */
  lemma {:induction false} BstKeysDistinct(t: Tree)
    requires Bst(t)
    ensures |Keys(t)| == Size(t)
  {
    if t.Node? {
      BstKeysDistinct(t.left);
      BstKeysDistinct(t.right);
      assert t.id !in Keys(t.left) && t.id !in Keys(t.right);
      assert Keys(t.left) !! Keys(t.right) by {
        forall k | k in Keys(t.left) ensures k !in Keys(t.right) {
        }
      }
      assert |Keys(t.left) + {t.id}| == |Keys(t.left)| + 1;
    }
  }

  lemma {:induction false} EntriesLength(t: Tree)
    ensures |Entries(t)| == Size(t)
  {
    if t.Node? {
      EntriesLength(t.left);
      EntriesLength(t.right);
    }
  }

  /** Two trees with the same in-order records agree on BST order and key set. */
  lemma SameEntries(t: Tree, u: Tree)
    requires Entries(t) == Entries(u)
    ensures Bst(t) <==> Bst(u)
    ensures Keys(t) == Keys(u)
  {
    BstIffSorted(t);
    BstIffSorted(u);
    KeysAreIds(t);
    KeysAreIds(u);
  }

  // ---------------------------------------------------------------------------
  // Insert

  lemma InsertLeftStep(t: Tree, id: nat, name: string)
    requires t.Node? && Bst(t) && id < t.id
    requires Insert(t.left, id, name).None? <==> id in Keys(t.left)
    requires Insert(t.left, id, name).Some? ==>
      Entries(Insert(t.left, id, name).value) == SortedInsert(Entries(t.left), Entry(id, name))
    ensures Insert(t, id, name).None? <==> id in Keys(t)
    ensures Insert(t, id, name).Some? ==>
      Entries(Insert(t, id, name).value) == SortedInsert(Entries(t), Entry(id, name))
  {
    var e, ek := Entry(id, name), Entry(t.id, t.name);
    assert id !in Keys(t.right);
    match Insert(t.left, id, name)
    case None =>
    case Some(l) =>
      assert Insert(t, id, name) == Some(Rebalance(t.(left := l)));
      assert Entries(t.(left := l)) == Entries(l) + [ek] + Entries(t.right);
      SortedInsertBefore(Entries(t.left), ek, Entries(t.right), e);
  }

  lemma InsertRightStep(t: Tree, id: nat, name: string)
    requires t.Node? && Bst(t) && id > t.id
    requires Insert(t.right, id, name).None? <==> id in Keys(t.right)
    requires Insert(t.right, id, name).Some? ==>
      Entries(Insert(t.right, id, name).value) == SortedInsert(Entries(t.right), Entry(id, name))
    ensures Insert(t, id, name).None? <==> id in Keys(t)
    ensures Insert(t, id, name).Some? ==>
      Entries(Insert(t, id, name).value) == SortedInsert(Entries(t), Entry(id, name))
  {
    var e, ek := Entry(id, name), Entry(t.id, t.name);
    var front := Entries(t.left) + [ek];
    assert id !in Keys(t.left);
    assert Entries(t) == front + Entries(t.right);
    match Insert(t.right, id, name)
    case None =>
    case Some(r) =>
      assert Insert(t, id, name) == Some(Rebalance(t.(right := r)));
      assert Entries(t.(right := r)) == front + Entries(r);
      KeysAreIds(t.left);
      IdsAppend(Entries(t.left), [ek]);
      SortedInsertAfter(front, Entries(t.right), e);
  }

  lemma {:induction false} InsertEntries(t: Tree, id: nat, name: string)
    requires Bst(t)
    ensures Insert(t, id, name).None? <==> id in Keys(t)
    ensures Insert(t, id, name).Some? ==>
      Entries(Insert(t, id, name).value) == SortedInsert(Entries(t), Entry(id, name))
  {
    if t.Nil? || id == t.id {
    } else if id < t.id {
      InsertEntries(t.left, id, name);
      InsertLeftStep(t, id, name);
    } else {
      InsertEntries(t.right, id, name);
      InsertRightStep(t, id, name);
    }
  }

  /**
   * RecursiveInsert on a BST: it fails exactly on a present ID; otherwise the result
   * is a BST whose in-order records are the old ones with the new record in ID order,
   * whose key set gains exactly the new ID and which has one more node.
   */
  lemma InsertSpec(t: Tree, id: nat, name: string)
    requires Bst(t)
    ensures Insert(t, id, name).None? <==> id in Keys(t)
    ensures Insert(t, id, name).Some? ==>
      var u := Insert(t, id, name).value;
      Bst(u) && Keys(u) == Keys(t) + {id} && Size(u) == Size(t) + 1 &&
      Entries(u) == SortedInsert(Entries(t), Entry(id, name))
  {
    InsertEntries(t, id, name);
    if Insert(t, id, name).Some? {
      var u := Insert(t, id, name).value;
      BstIffSorted(t);
      BstIffSorted(u);
      KeysAreIds(t);
      KeysAreIds(u);
      SortedInsertSorted(Entries(t), Entry(id, name));
      IdsSortedInsert(Entries(t), Entry(id, name));
    }
  }

  // ---------------------------------------------------------------------------
  // Remove

  lemma DeleteLeftStep(t: Tree, id: nat)
    requires t.Node? && Bst(t) && id < t.id
    requires Delete(t.left, id).None? <==> id !in Keys(t.left)
    requires Delete(t.left, id).Some? ==> Entries(Delete(t.left, id).value) == DropId(Entries(t.left), id)
    ensures Delete(t, id).None? <==> id !in Keys(t)
    ensures Delete(t, id).Some? ==> Entries(Delete(t, id).value) == DropId(Entries(t), id)
  {
    var ek := Entry(t.id, t.name);
    assert id !in Keys(t.right);
    match Delete(t.left, id)
    case None =>
    case Some(l) =>
      assert Delete(t, id) == Some(Rebalance(t.(left := l)));
      assert Entries(t.(left := l)) == Entries(l) + [ek] + Entries(t.right);
      KeysAreIds(t.right);
      DropLeft(Entries(t.left), ek, Entries(t.right), id);
  }

  lemma DeleteRightStep(t: Tree, id: nat)
    requires t.Node? && Bst(t) && id > t.id
    requires Delete(t.right, id).None? <==> id !in Keys(t.right)
    requires Delete(t.right, id).Some? ==> Entries(Delete(t.right, id).value) == DropId(Entries(t.right), id)
    ensures Delete(t, id).None? <==> id !in Keys(t)
    ensures Delete(t, id).Some? ==> Entries(Delete(t, id).value) == DropId(Entries(t), id)
  {
    var ek := Entry(t.id, t.name);
    assert id !in Keys(t.left);
    match Delete(t.right, id)
    case None =>
    case Some(r) =>
      assert Delete(t, id) == Some(Rebalance(t.(right := r)));
      assert Entries(t.(right := r)) == Entries(t.left) + [ek] + Entries(r);
      KeysAreIds(t.left);
      DropRight(Entries(t.left), ek, Entries(t.right), id);
  }

  /** The in-order records of a node, split around it, without the node's own ID. */
  lemma DropHere(t: Tree)
    requires t.Node? && Bst(t)
    ensures DropId(Entries(t), t.id) == Entries(t.left) + Entries(t.right)
  {
    assert t.id !in Keys(t.left) && t.id !in Keys(t.right);
    KeysAreIds(t.left);
    KeysAreIds(t.right);
    DropMiddle(Entries(t.left), Entry(t.id, t.name), Entries(t.right));
  }

  /** The two-child case: the successor's record takes the place of the removed one. */
  lemma DeleteTwoChildren(t: Tree)
    requires t.Node? && t.left.Node? && t.right.Node?
    ensures Delete(t, t.id).Some?
    ensures Entries(Delete(t, t.id).value) == Entries(t.left) + Entries(t.right)
  {
    var s := Leftmost(t.right);
    var u := Node(t.left, s.id, s.name, s.height, RemoveLeftmost(t.right));
    assert Delete(t, t.id) == Some(u);
    assert Entries(u) == Entries(t.left) + ([Entry(s.id, s.name)] + Entries(RemoveLeftmost(t.right)));
  }

  /**
   * The two-child case of RecursiveRemove: the in-order successor, which is the
   * least ID above the removed one, becomes the new root of the subtree.
   */
  lemma DeleteTwoChildrenSuccessor(t: Tree)
    requires t.Node? && Bst(t) && t.left.Node? && t.right.Node?
    ensures Delete(t, t.id).Some? && Delete(t, t.id).value.id == Leftmost(t.right).id
    ensures Leftmost(t.right).id in Keys(t) && t.id < Leftmost(t.right).id
    ensures forall k :: k in Keys(t) && t.id < k ==> Leftmost(t.right).id <= k
  {
    DeleteTwoChildren(t);
    LeftmostIsMin(t.right);
  }

  lemma DeleteHereStep(t: Tree)
    requires t.Node? && Bst(t)
    ensures Delete(t, t.id).Some?
    ensures Entries(Delete(t, t.id).value) == DropId(Entries(t), t.id)
  {
    DropHere(t);
    if t.left.Node? && t.right.Node? {
      DeleteTwoChildren(t);
    } else if t.left.Node? {
      assert Entries(t.right) == [];
    } else if t.right.Node? {
      assert Entries(t.left) == [];
    }
  }

  lemma {:induction false} DeleteEntries(t: Tree, id: nat)
    requires Bst(t)
    ensures Delete(t, id).None? <==> id !in Keys(t)
    ensures Delete(t, id).Some? ==> Entries(Delete(t, id).value) == DropId(Entries(t), id)
  {
    if t.Nil? {
    } else if id < t.id {
      DeleteEntries(t.left, id);
      DeleteLeftStep(t, id);
    } else if id > t.id {
      DeleteEntries(t.right, id);
      DeleteRightStep(t, id);
    } else {
      DeleteHereStep(t);
    }
  }

  /**
   * RecursiveRemove on a BST: it fails exactly on an absent ID; otherwise the result
   * is a BST whose in-order records are the old ones without that ID, whose key set
   * loses exactly that ID and which has one node fewer.
   */
  lemma DeleteSpec(t: Tree, id: nat)
    requires Bst(t)
    ensures Delete(t, id).None? <==> id !in Keys(t)
    ensures Delete(t, id).Some? ==>
      var u := Delete(t, id).value;
      Bst(u) && Keys(u) == Keys(t) - {id} && Size(u) + 1 == Size(t) &&
      Entries(u) == DropId(Entries(t), id)
  {
    DeleteEntries(t, id);
    if Delete(t, id).Some? {
      var u := Delete(t, id).value;
      BstIffSorted(t);
      BstIffSorted(u);
      KeysAreIds(t);
      KeysAreIds(u);
      DropSorted(Entries(t), id);
      IdsDrop(Entries(t), id);
    }
  }

  /**
   * Removal by rank on a BST: for an index inside [0, Size) the ID at that in-order
   * position is removed and exactly that position disappears from the record sequence.
   */
  lemma RemoveAtRankSpec(t: Tree, i: int)
    requires Bst(t)
    ensures IdAtRank(t, i).Some? <==> 0 <= i < Size(t)
    ensures IdAtRank(t, i).Some? ==>
      var d := Delete(t, IdAtRank(t, i).value);
      d.Some? && Entries(d.value) == Entries(t)[..i] + Entries(t)[i + 1..]
  {
    EntriesLength(t);
    if 0 <= i < Size(t) {
      var id := Entries(t)[i].id;
      BstIffSorted(t);
      KeysAreIds(t);
      IdAt(Entries(t), i);
      DeleteSpec(t, id);
      DropAtRank(Entries(t), i);
    }
  }

  /** In-order position 0 holds the leftmost node, where a walk to rank 0 stops. */
  lemma {:induction false} RankZeroIsLeftmost(t: Tree)
    requires t.Node?
    ensures IdAtRank(t, 0) == Some(Leftmost(t).id)
  {
    assert Entries(t) == Entries(t.left) + ([Entry(t.id, t.name)] + Entries(t.right));
    if t.left.Node? {
      RankZeroIsLeftmost(t.left);
    }
  }

  /** The root sits at the in-order position counting the nodes of its left subtree. */
  lemma RankOfRoot(t: Tree)
    requires t.Node?
    ensures IdAtRank(t, Size(t.left)) == Some(t.id)
  {
    EntriesLength(t);
    EntriesLength(t.left);
    assert Entries(t) == Entries(t.left) + ([Entry(t.id, t.name)] + Entries(t.right));
  }

  lemma {:induction false} DropSortedInsert(s: seq<Entry>, e: Entry)
    requires e.id !in Ids(s)
    ensures DropId(SortedInsert(s, e), e.id) == s
  {
    if s == [] {
      assert DropId([e], e.id) == [] + DropId([], e.id);
    } else if e.id < s[0].id {
      assert ([e] + s)[1..] == s;
      DropAbsent(s, e.id);
    } else {
      DropSortedInsert(s[1..], e);
      assert ([s[0]] + SortedInsert(s[1..], e))[1..] == SortedInsert(s[1..], e);
    }
  }

  /** Removing an ID right after inserting it gives back the records and the keys. */
  lemma InsertThenRemove(t: Tree, id: nat, name: string)
    requires Bst(t) && id !in Keys(t)
    ensures Insert(t, id, name).Some?
    ensures
      var d := Delete(Insert(t, id, name).value, id);
      d.Some? && Entries(d.value) == Entries(t) && Keys(d.value) == Keys(t) && Size(d.value) == Size(t)
  {
    InsertSpec(t, id, name);
    var u := Insert(t, id, name).value;
    DeleteSpec(u, id);
    KeysAreIds(t);
    DropSortedInsert(Entries(t), Entry(id, name));
  }

  /** The same ID inserted twice: the second insertion fails whatever the name. */
  lemma InsertTwiceFailsOnce(t: Tree, id: nat, name: string, other: string)
    requires Bst(t) && id !in Keys(t)
    ensures Insert(t, id, name).Some? && Insert(Insert(t, id, name).value, id, other).None?
  {
    InsertSpec(t, id, name);
    InsertSpec(Insert(t, id, name).value, id, other);
  }

  /** The same ID removed twice: the first removal succeeds and the second fails. */
  lemma RemoveTwiceSucceedsOnce(t: Tree, id: nat)
    requires Bst(t) && id in Keys(t)
    ensures Delete(t, id).Some? && Delete(Delete(t, id).value, id).None?
  {
    DeleteSpec(t, id);
    DeleteSpec(Delete(t, id).value, id);
  }

  /** The in-order successor search lands on the least ID of the subtree. */
  lemma {:induction false} LeftmostIsMin(t: Tree)
    requires t.Node? && Bst(t)
    ensures forall k :: k in Keys(t) ==> Leftmost(t).id <= k
  {
    if t.left.Node? {
      LeftmostIsMin(t.left);
    }
  }

  // ---------------------------------------------------------------------------
  // Search and traversals

  /** Search by ID on a BST yields a name exactly when that (ID, name) record is stored. */
  lemma {:induction false} SearchSpec(t: Tree, id: nat, name: string)
    requires Bst(t)
    ensures Search(t, id) == Some(name) <==> Entry(id, name) in Entries(t)
    ensures Search(t, id).None? <==> id !in Keys(t)
  {
    if t.Node? {
      KeysAreIds(t.left);
      KeysAreIds(t.right);
      SearchSpec(t.left, id, name);
      SearchSpec(t.right, id, name);
      if Entry(id, name) in Entries(t.left) {
        MemberIdInIds(Entries(t.left), Entry(id, name));
      }
      if Entry(id, name) in Entries(t.right) {
        MemberIdInIds(Entries(t.right), Entry(id, name));
      }
    }
  }

  /** Search by name reports an ID exactly when a record with that ID carries the name. */
  lemma {:induction false} NameMatchesSpec(t: Tree, name: string, id: nat)
    ensures id in NameMatches(t, name) <==> Entry(id, name) in Entries(t)
    ensures |NameMatches(t, name)| <= Size(t)
  {
    if t.Node? {
      NameMatchesSpec(t.left, name, id);
      NameMatchesSpec(t.right, name, id);
    }
  }

  /** The in-order traversal lists, position by position, the names of the in-order records. */
  lemma {:induction false} InorderNamesSpec(t: Tree)
    ensures |InorderNames(t)| == |Entries(t)| == Size(t)
    ensures forall i :: 0 <= i < |Entries(t)| ==> InorderNames(t)[i] == Entries(t)[i].name
  {
    EntriesLength(t);
    if t.Node? {
      InorderNamesSpec(t.left);
      InorderNamesSpec(t.right);
      var n := |Entries(t.left)|;
      forall i | 0 <= i < |Entries(t)| ensures InorderNames(t)[i] == Entries(t)[i].name {
        if i < n {
        } else if i == n {
        } else {
          assert InorderNames(t)[i] == InorderNames(t.right)[i - n - 1];
          assert Entries(t)[i] == Entries(t.right)[i - n - 1];
        }
      }
    }
  }

  /** Each traversal lists one name per node. */
  lemma {:induction false} TraversalLengths(t: Tree)
    ensures |PreorderNames(t)| == |InorderNames(t)| == |PostorderNames(t)| == Size(t)
  {
    if t.Node? {
      TraversalLengths(t.left);
      TraversalLengths(t.right);
    }
  }

  /** The three traversals hold the same names with the same multiplicities. */
  lemma {:induction false} TraversalMultisets(t: Tree)
    ensures multiset(PreorderNames(t)) == multiset(InorderNames(t)) == multiset(PostorderNames(t))
  {
    if t.Node? {
      var l, r := t.left, t.right;
      TraversalMultisets(l);
      TraversalMultisets(r);
      var m := multiset([t.name]);
      calc {
        multiset(PreorderNames(t));
        { assert PreorderNames(t) == [t.name] + PreorderNames(l) + PreorderNames(r); }
        m + multiset(PreorderNames(l)) + multiset(PreorderNames(r));
        multiset(InorderNames(l)) + m + multiset(InorderNames(r));
        { assert InorderNames(t) == InorderNames(l) + [t.name] + InorderNames(r); }
        multiset(InorderNames(t));
      }
      calc {
        multiset(PostorderNames(t));
        { assert PostorderNames(t) == PostorderNames(l) + PostorderNames(r) + [t.name]; }
        multiset(PostorderNames(l)) + multiset(PostorderNames(r)) + m;
        multiset(InorderNames(l)) + m + multiset(InorderNames(r));
        { assert InorderNames(t) == InorderNames(l) + [t.name] + InorderNames(r); }
        multiset(InorderNames(t));
      }
    }
  }

  /**
   * The three traversals visit every node once: they hold the same names with the same
   * multiplicities, pre-order starts at the root and post-order ends there.
   */
  lemma TraversalsSameNodes(t: Tree)
    ensures |PreorderNames(t)| == |PostorderNames(t)| == Size(t)
    ensures multiset(PreorderNames(t)) == multiset(InorderNames(t)) == multiset(PostorderNames(t))
    ensures t.Node? ==> PreorderNames(t)[0] == t.name && PostorderNames(t)[Size(t) - 1] == t.name
  {
    TraversalLengths(t);
    TraversalMultisets(t);
  }
}
