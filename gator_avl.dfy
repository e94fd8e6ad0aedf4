/**
 * The GatorAVL class of GatorAVL.cpp, the variant the Catch tests build. Its state
 * is the root link and the node count; every public operation validates its
 * arguments, runs the engine and reports success instead of printing it.
 *
 * IDs arrive as text in the source and go through `stol`; here each ID argument is
 * the outcome of that check: None where the text is rejected, otherwise the parsed
 * value, which eight characters keep below IdLimit.
 */
module GatorAvl {
  import opened AvlTree
  import opened AvlOrder
  import opened AvlBalance
  import opened AvlWalks
  import opened GatorInput

  /** What Search reports: a name for an ID, matching IDs for a name, or failure. */
  datatype SearchOutcome = Unsuccessful | NameOf(name: string) | IdsOf(ids: seq<nat>)

  class GatorAVL {
    var root: Tree
    var size: int

    /** The class invariant: BST order, `size` counts the nodes, IDs fit eight digits. */
    ghost predicate Valid()
      reads this
    {
      Bst(root) && size == Size(root) && forall k :: k in Keys(root) ==> k < IdLimit
    }

    constructor ()
      ensures Valid() && root == Nil && size == 0
    {
      root := Nil;
      size := 0;
    }

    /**
     * Insert: fails on a rejected ID, on a name with a character other than a letter
     * or a space, and on a duplicate ID, changing nothing; otherwise the record joins
     * the tree in ID order and `size` grows by one. An AVL tree stays AVL.
     */
    method Insert(name: string, id: Option<nat>) returns (ok: bool)
      requires Valid()
      requires id.Some? ==> id.value < IdLimit
      modifies this
      ensures Valid()
      ensures ok <==> id.Some? && LettersOrSpaces(name) && id.value !in old(Keys(root))
      ensures ok ==> Keys(root) == old(Keys(root)) + {id.value} && size == old(size) + 1
      ensures ok ==> Entries(root) == SortedInsert(old(Entries(root)), Entry(id.value, name))
      ensures ok ==> Some(root) == AvlTree.Insert(old(root), id.value, name)
      ensures ok && old(Avl(root)) ==> Avl(root)
      ensures !ok ==> root == old(root) && size == old(size)
    {
      if id.None? {
        return false;
      }
      var nameOk := CheckLettersOrSpaces(name);
      if !nameOk {
        return false;
      }
      InsertSpec(root, id.value, name);
      var r := AvlTree.Insert(root, id.value, name);
      if r.None? {
        return false;
      }
      if Avl(root) {
        InsertKeepsAvl(root, id.value, name);
      }
      root := r.value;
      size := size + 1;
      return true;
    }

    /**
     * Remove: fails on a rejected or absent ID, changing nothing; otherwise exactly
     * that record leaves the tree and `size` drops by one.
     */
    method Remove(id: Option<nat>) returns (ok: bool)
      requires Valid()
      modifies this
      ensures Valid()
      ensures ok <==> id.Some? && id.value in old(Keys(root))
      ensures ok ==> Keys(root) == old(Keys(root)) - {id.value} && size == old(size) - 1
      ensures ok ==> Entries(root) == DropId(old(Entries(root)), id.value)
      ensures ok ==> Some(root) == Delete(old(root), id.value)
      ensures !ok ==> root == old(root) && size == old(size)
    {
      if id.None? {
        return false;
      }
      DeleteSpec(root, id.value);
      var r := RecursiveRemove(root, id.value);
      if r.None? {
        return false;
      }
      root := r.value;
      size := size - 1;
      return true;
    }

    /**
     * RemoveInorder: fails on an index outside [0, size), changing nothing; otherwise
     * the walk stops at in-order position `index` and that record is removed through
     * Remove, so exactly that position leaves the in-order sequence.
     */
    method RemoveInorder(index: int) returns (ok: bool)
      requires Valid()
      modifies this
      ensures Valid()
      ensures ok <==> 0 <= index < old(size)
      ensures ok ==>
        index < |old(Entries(root))| &&
        Entries(root) == old(Entries(root))[..index] + old(Entries(root))[index + 1..]
      ensures ok ==> size == old(size) - 1
      ensures ok ==> Some(root) == Delete(old(root), IdAtRank(old(root), index).value)
      ensures !ok ==> root == old(root) && size == old(size)
    {
      if index > size - 1 || index < 0 {
        return false;
      }
      RemoveAtRankSpec(root, index);
      var rest, hit := RankWalk(root, index);
      if hit.None? {
        return false;
      }
      DeleteSpec(root, hit.value);
      var removed := Remove(Some(hit.value));
      return true;
    }

    /**
     * Search: a term not starting with a digit is a name, rejected unless made of
     * letters and spaces, and answered with the matching IDs in pre-order; any other
     * term is an ID, answered with its record's name. A rejected ID, an absent ID
     * and a name without matches are all unsuccessful.
     */
    method Search(term: string, id: Option<nat>) returns (out: SearchOutcome)
      requires Valid()
      ensures (|term| == 0 || !IsDigit(term[0])) ==>
        (out.IdsOf? <==> LettersOrSpaces(term) && exists k :: Entry(k, term) in Entries(root))
      ensures out.IdsOf? ==> out.ids == NameMatches(root, term)
      ensures out.IdsOf? ==> forall k :: k in out.ids <==> Entry(k, term) in Entries(root)
      ensures (|term| == 0 || !IsDigit(term[0])) ==> !out.NameOf?
      ensures |term| > 0 && IsDigit(term[0]) ==>
        forall name :: out == NameOf(name) <==> id.Some? && Entry(id.value, name) in Entries(root)
      ensures |term| > 0 && IsDigit(term[0]) ==> !out.IdsOf?
    {
      if |term| == 0 || !IsDigit(term[0]) {
        var nameOk := CheckLettersOrSpaces(term);
        if !nameOk {
          return Unsuccessful;
        }
        var ids := CollectNameMatches(root, term, []);
        forall k
          ensures k in ids <==> Entry(k, term) in Entries(root)
        {
          NameMatchesSpec(root, term, k);
        }
        if ids == [] {
          return Unsuccessful;
        }
        assert Entry(ids[0], term) in Entries(root);
        return IdsOf(ids);
      }
      if id.None? {
        return Unsuccessful;
      }
      forall name
        ensures AvlTree.Search(root, id.value) == Some(name) <==> Entry(id.value, name) in Entries(root)
      {
        SearchSpec(root, id.value, name);
      }
      match AvlTree.Search(root, id.value)
      case None => return Unsuccessful;
      case Some(name) => return NameOf(name);
    }

    /** Inorder: one name per node, in ascending ID order. */
    method Inorder() returns (names: seq<string>)
      requires Valid()
      ensures |names| == |Entries(root)| == size
      ensures forall i :: 0 <= i < |names| ==> names[i] == Entries(root)[i].name
    {
      names := CollectInorder(root, []);
      InorderNamesSpec(root);
    }

    /** Preorder: one name per node, the root's first, each subtree after its root. */
    method Preorder() returns (names: seq<string>)
      requires Valid()
      ensures names == PreorderNames(root)
      ensures |names| == size && multiset(names) == multiset(InorderNames(root))
      ensures root.Node? ==> names[0] == root.name
    {
      names := CollectPreorder(root, []);
      TraversalsSameNodes(root);
    }

    /** Postorder: one name per node, each subtree before its root, the root's last. */
    method Postorder() returns (names: seq<string>)
      requires Valid()
      ensures names == PostorderNames(root)
      ensures |names| == size && multiset(names) == multiset(InorderNames(root))
      ensures root.Node? ==> names[size - 1] == root.name
    {
      names := CollectPostorder(root, []);
      TraversalsSameNodes(root);
    }

    method GetRoot() returns (r: Tree)
      ensures r == root
    {
      return root;
    }

    /** GetSize: the number of distinct IDs stored. */
    method GetSize() returns (n: int)
      requires Valid()
      ensures n == |Keys(root)|
    {
      BstKeysDistinct(root);
      return size;
    }

    /**
     * GetLevelCount (and PrintLevelCount): the root's stored height, 0 when empty;
     * the real height of the tree whenever the stored heights are correct.
     */
    method GetLevelCount() returns (levels: int)
      ensures levels == H(root)
      ensures HeightsOk(root) ==> levels == TrueHeight(root)
    {
      if root.Nil? {
        return 0;
      }
      if HeightsOk(root) {
        StoredHeightIsTrue(root);
      }
      return root.height;
    }
  }
}
