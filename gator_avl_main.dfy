/**
 * The GatorAVL class of GatorAVL_Main.cpp: the same engine behind a numeric-ID
 * interface. An ID is accepted when `to_string` renders it in eight characters, a
 * name when it is made of letters only (no spaces), and RemoveInorder removes the
 * record it finds by calling Remove with that record's ID.
 */
module GatorAvlMain {
  import opened AvlTree
  import opened AvlOrder
  import opened AvlBalance
  import opened AvlWalks
  import opened GatorInput

  /** IDs this variant accepts: eight decimal digits with no leading zero. */
  predicate EightDigitId(id: nat) { 10000000 <= id < IdLimit }

  class GatorAVL {
    var root: Tree
    var size: int

    /** The class invariant: BST order, `size` counts the nodes, every ID has eight digits. */
    ghost predicate Valid()
      reads this
    {
      Bst(root) && size == Size(root) && forall k :: k in Keys(root) ==> EightDigitId(k)
    }

    constructor ()
      ensures Valid() && root == Nil && size == 0
    {
      root := Nil;
      size := 0;
    }

    /**
     * Insert: fails on an ID of other than eight digits, on a name with a non-letter
     * and on a duplicate ID, changing nothing; otherwise the record joins the tree
     * in ID order and `size` grows by one. An AVL tree stays AVL.
     */
    method Insert(name: string, id: nat) returns (ok: bool)
      requires Valid()
      modifies this
      ensures Valid()
      ensures ok <==> EightDigitId(id) && LettersOnly(name) && id !in old(Keys(root))
      ensures ok ==> Keys(root) == old(Keys(root)) + {id} && size == old(size) + 1
      ensures ok ==> Entries(root) == SortedInsert(old(Entries(root)), Entry(id, name))
      ensures ok ==> Some(root) == AvlTree.Insert(old(root), id, name)
      ensures ok && old(Avl(root)) ==> Avl(root)
      ensures !ok ==> root == old(root) && size == old(size)
    {
      EightDigits(id);
      if DecimalLength(id) != 8 {
        return false;
      }
      var nameOk := CheckLetters(name);
      if !nameOk {
        return false;
      }
      InsertSpec(root, id, name);
      var r := AvlTree.Insert(root, id, name);
      if r.None? {
        return false;
      }
      if Avl(root) {
        InsertKeepsAvl(root, id, name);
      }
      root := r.value;
      size := size + 1;
      return true;
    }

    /**
     * Remove: fails on an ID of other than eight digits or an absent ID, changing
     * nothing; otherwise exactly that record leaves the tree and `size` drops by one.
     */
    method Remove(id: nat) returns (ok: bool)
      requires Valid()
      modifies this
      ensures Valid()
      ensures ok <==> EightDigitId(id) && id in old(Keys(root))
      ensures ok ==> Keys(root) == old(Keys(root)) - {id} && size == old(size) - 1
      ensures ok ==> Entries(root) == DropId(old(Entries(root)), id)
      ensures ok ==> Some(root) == Delete(old(root), id)
      ensures !ok ==> root == old(root) && size == old(size)
    {
      EightDigits(id);
      if DecimalLength(id) != 8 {
        return false;
      }
      DeleteSpec(root, id);
      var r := RecursiveRemove(root, id);
      if r.None? {
        return false;
      }
      root := r.value;
      size := size - 1;
      return true;
    }

    /**
     * RemoveInorder: fails on an index outside [0, size), changing nothing; otherwise
     * the walk stops at in-order position `index` and Remove is called with that
     * record's ID, so exactly that position leaves the in-order sequence.
     */
    method RemoveInorder(index: int) returns (ok: bool)
      requires Valid()
      modifies this
      ensures Valid()
      ensures ok <==> 0 <= index < old(size)
      ensures ok ==>
        index < |old(Entries(root))| &&
        Entries(root) == old(Entries(root))[..index] + old(Entries(root))[index + 1..]
      ensures ok ==> size == old(size) - 1
      ensures ok ==> Some(root) == Delete(old(root), IdAtRank(old(root), index).value)
      ensures !ok ==> root == old(root) && size == old(size)
    {
      if index > size - 1 || index < 0 {
        return false;
      }
      RemoveAtRankSpec(root, index);
      var rest, hit := RankWalk(root, index);
      if hit.None? {
        return false;
      }
      DeleteSpec(root, hit.value);
      var removed := Remove(hit.value);
      return true;
    }

    /** Search by ID: the stored name, None for a rejected or absent ID. */
    method SearchId(id: nat) returns (name: Option<string>)
      requires Valid()
      ensures forall n :: name == Some(n) <==> EightDigitId(id) && Entry(id, n) in Entries(root)
    {
      EightDigits(id);
      if DecimalLength(id) != 8 {
        return None;
      }
      forall n
        ensures AvlTree.Search(root, id) == Some(n) <==> Entry(id, n) in Entries(root)
      {
        SearchSpec(root, id, n);
      }
      return AvlTree.Search(root, id);
    }

    /**
     * Search by name: the IDs of the matching records in pre-order, rejected (empty)
     * for a name with a non-letter; an empty answer is reported as unsuccessful.
     */
    method SearchName(name: string) returns (ids: seq<nat>)
      requires Valid()
      ensures ids == (if LettersOnly(name) then NameMatches(root, name) else [])
      ensures forall k :: k in ids <==> LettersOnly(name) && Entry(k, name) in Entries(root)
      ensures |ids| <= size
    {
      var nameOk := CheckLetters(name);
      if !nameOk {
        return [];
      }
      ids := CollectNameMatches(root, name, []);
      NameMatchesSpec(root, name, 0);
      forall k
        ensures k in ids <==> Entry(k, name) in Entries(root)
      {
        NameMatchesSpec(root, name, k);
      }
    }

    /** Inorder: one name per node, in ascending ID order. */
    method Inorder() returns (names: seq<string>)
      requires Valid()
      ensures |names| == |Entries(root)| == size
      ensures forall i :: 0 <= i < |names| ==> names[i] == Entries(root)[i].name
    {
      names := CollectInorder(root, []);
      InorderNamesSpec(root);
    }

    /** Preorder: one name per node, the root's first, each subtree after its root. */
    method Preorder() returns (names: seq<string>)
      requires Valid()
      ensures names == PreorderNames(root)
      ensures |names| == size && multiset(names) == multiset(InorderNames(root))
      ensures root.Node? ==> names[0] == root.name
    {
      names := CollectPreorder(root, []);
      TraversalsSameNodes(root);
    }

    /** Postorder: one name per node, each subtree before its root, the root's last. */
    method Postorder() returns (names: seq<string>)
      requires Valid()
      ensures names == PostorderNames(root)
      ensures |names| == size && multiset(names) == multiset(InorderNames(root))
      ensures root.Node? ==> names[size - 1] == root.name
    {
      names := CollectPostorder(root, []);
      TraversalsSameNodes(root);
    }

    method GetRoot() returns (r: Tree)
      ensures r == root
    {
      return root;
    }

    /** GetSize: the number of distinct IDs stored. */
    method GetSize() returns (n: int)
      requires Valid()
      ensures n == |Keys(root)|
    {
      BstKeysDistinct(root);
      return size;
    }

    /**
     * GetLevelCount (and PrintLevelCount): the root's stored height, 0 when empty;
     * the real height of the tree whenever the stored heights are correct.
     */
    method GetLevelCount() returns (levels: int)
      ensures levels == H(root)
      ensures HeightsOk(root) ==> levels == TrueHeight(root)
    {
      if root.Nil? {
        return 0;
      }
      if HeightsOk(root) {
        StoredHeightIsTrue(root);
      }
      return root.height;
    }
  }
}
