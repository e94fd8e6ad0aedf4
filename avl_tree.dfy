/**
 * The balancing engine of GatorAVL, shared word for word by GatorAVL.cpp and
 * GatorAVL_Main.cpp. A node owns its two children exclusively, so a subtree is a
 * value: every operation that rewrites links in place and returns the new subtree
 * root is a function from the old subtree to the new one.
 *
 * The stored `height` is a field, not a computed value: the engine only refreshes it
 * where the source calls FindHeight, and the two-child removal leaves it stale.
 */
module AvlTree {

  datatype Option<T> = None | Some(value: T)

  /** One stored record, as an in-order walk meets it. */
  datatype Entry = Entry(id: nat, name: string)

  /** A GatorNode (name, gatorID, stored height, left and right child); Nil is a null link. */
  datatype Tree = Nil | Node(left: Tree, id: nat, name: string, height: nat, right: Tree)

  function Max(a: int, b: int): int { if a < b then b else a }

  /** The stored height of a link, an absent child counting as 0. */
  function H(t: Tree): nat { if t.Nil? then 0 else t.height }

  /** GatorNode::FindHeight: one more than the taller child's stored height. */
  function FindHeight(t: Tree): (h: nat)
    requires t.Node?
    ensures h >= 1 && h > H(t.left) && h > H(t.right)
    ensures h == H(t.left) + 1 || h == H(t.right) + 1
  {
    1 + Max(H(t.left), H(t.right))
  }

  /** GatorNode::FindBF: left stored height minus right stored height. */
  function FindBF(t: Tree): (b: int)
    requires t.Node?
    ensures b + H(t.right) == H(t.left)
    ensures t.left.Nil? ==> b <= 0
    ensures t.right.Nil? ==> b >= 0
  {
    H(t.left) - H(t.right)
  }

  // ---------------------------------------------------------------------------
  // Abstract views of a subtree

  /** In-order sequence of (ID, name) records. */
  function Entries(t: Tree): seq<Entry>
  {
    if t.Nil? then [] else Entries(t.left) + [Entry(t.id, t.name)] + Entries(t.right)
  }

  /** The set of IDs stored in a subtree. */
  function Keys(t: Tree): set<nat>
  {
    if t.Nil? then {} else Keys(t.left) + {t.id} + Keys(t.right)
  }

  /** Number of nodes reachable from a link. */
  function Size(t: Tree): nat
  {
    if t.Nil? then 0 else Size(t.left) + 1 + Size(t.right)
  }

  /** BST order: every ID on the left is smaller and every ID on the right larger. */
  predicate Bst(t: Tree)
  {
    t.Nil? ||
    (Bst(t.left) && Bst(t.right) &&
     (forall k :: k in Keys(t.left) ==> k < t.id) &&
     (forall k :: k in Keys(t.right) ==> t.id < k))
  }

  /** Every stored height is what FindHeight would compute from the children. */
  predicate HeightsOk(t: Tree)
  {
    t.Nil? || (HeightsOk(t.left) && HeightsOk(t.right) && t.height == FindHeight(t))
  }

  /** Every node's balance factor lies in [-1, 1]. */
  predicate Balanced(t: Tree)
  {
    t.Nil? || (Balanced(t.left) && Balanced(t.right) && -1 <= FindBF(t) <= 1)
  }

  /** The AVL invariant: correct stored heights and balance everywhere. */
  predicate Avl(t: Tree)
  {
    HeightsOk(t) && Balanced(t)
  }

  /** IDs strictly ascending along a record sequence. */
  predicate Sorted(s: seq<Entry>)
  {
    forall i, j :: 0 <= i < j < |s| ==> s[i].id < s[j].id
  }

  /** The record sequence with `e` placed before the first record of larger ID. */
  function SortedInsert(s: seq<Entry>, e: Entry): seq<Entry>
  {
    if s == [] then [e]
    else if e.id < s[0].id then [e] + s
    else [s[0]] + SortedInsert(s[1..], e)
  }

  /** The record sequence without the records whose ID is `id`. */
  function DropId(s: seq<Entry>, id: nat): seq<Entry>
  {
    if s == [] then []
    else (if s[0].id == id then [] else [s[0]]) + DropId(s[1..], id)
  }

  // ---------------------------------------------------------------------------
  // Rotations and rebalancing

  /**
   * RotateLeft: the old right child becomes the subtree root and keeps its stored
   * height; the old root becomes its left child, takes over the right child's left
   * subtree, and is the only node whose height is recomputed.
   */
  function RotateLeft(t: Tree): (r: Tree)
    requires t.Node? && t.right.Node?
    ensures r.Node? && r.id == t.right.id && r.height == t.right.height
    ensures r.left.Node? && r.left.id == t.id && r.left.height == FindHeight(r.left)
    ensures r.left.left == t.left && r.left.right == t.right.left && r.right == t.right.right
    ensures Entries(r) == Entries(t) && Size(r) == Size(t)
  {
    var down := Node(t.left, t.id, t.name, 0, t.right.left);
    Node(down.(height := FindHeight(down)), t.right.id, t.right.name, t.right.height, t.right.right)
  }

  /** RotateRight: the mirror image of RotateLeft. */
  function RotateRight(t: Tree): (r: Tree)
    requires t.Node? && t.left.Node?
    ensures r.Node? && r.id == t.left.id && r.height == t.left.height
    ensures r.right.Node? && r.right.id == t.id && r.right.height == FindHeight(r.right)
    ensures r.right.right == t.right && r.right.left == t.left.right && r.left == t.left.left
    ensures Entries(r) == Entries(t) && Size(r) == Size(t)
  {
    var down := Node(t.left.right, t.id, t.name, 0, t.right);
    Node(t.left.left, t.left.id, t.left.name, t.left.height, down.(height := FindHeight(down)))
  }

  /** RotateLeftRight: rotate the left child left, then the node right. */
  function RotateLeftRight(t: Tree): (r: Tree)
    requires t.Node? && t.left.Node? && t.left.right.Node?
    ensures r.Node? && r.id == t.left.right.id
    ensures Entries(r) == Entries(t) && Size(r) == Size(t)
  {
    RotateRight(t.(left := RotateLeft(t.left)))
  }

  /** RotateRightLeft: rotate the right child right, then the node left. */
  function RotateRightLeft(t: Tree): (r: Tree)
    requires t.Node? && t.right.Node? && t.right.left.Node?
    ensures r.Node? && r.id == t.right.left.id
    ensures Entries(r) == Entries(t) && Size(r) == Size(t)
  {
    RotateLeft(t.(right := RotateRight(t.right)))
  }

  /**
   * BalanceNode. A single rotation is chosen only when the heavy child leans the
   * same way strictly (factor < 0 on the right, > 0 on the left); a factor of 0
   * selects the double rotation. Where the heavy child has no inner child the
   * source's double rotation would follow a null link; this definition takes the
   * single rotation there instead (see BalanceAsWritten in AvlBalance).
   */
  function Balance(t: Tree): (r: Tree)
    requires t.Node?
    ensures r.Node? && Entries(r) == Entries(t) && Size(r) == Size(t)
    ensures -1 <= FindBF(t) <= 1 ==> r == t
  {
    var bf := FindBF(t);
    if bf < -1 then
      if FindBF(t.right) < 0 || t.right.left.Nil? then RotateLeft(t) else RotateRightLeft(t)
    else if bf > 1 then
      if FindBF(t.left) > 0 || t.left.right.Nil? then RotateRight(t) else RotateLeftRight(t)
    else
      t
  }

  /** The step at every level of the unwind: BalanceNode, then FindHeight on the result. */
  function Rebalance(t: Tree): (r: Tree)
    requires t.Node?
    ensures r.Node? && Entries(r) == Entries(t) && Size(r) == Size(t)
    ensures r.height == FindHeight(r)
  {
    var b := Balance(t);
    b.(height := FindHeight(b))
  }

  // ---------------------------------------------------------------------------
  // Insert and remove

  /**
   * RecursiveInsert: None is the exception thrown on a duplicate ID; no link is
   * rewritten before it is thrown.
   */
  function Insert(t: Tree, id: nat, name: string): (r: Option<Tree>)
    ensures r.Some? ==> r.value.Node? && Size(r.value) == Size(t) + 1
  {
    if t.Nil? then Some(Node(Nil, id, name, 1, Nil))
    else if id == t.id then None
    else if id < t.id then
      match Insert(t.left, id, name)
      case None => None
      case Some(l) => Some(Rebalance(t.(left := l)))
    else
      match Insert(t.right, id, name)
      case None => None
      case Some(r) => Some(Rebalance(t.(right := r)))
  }

  /** The in-order successor inside a right subtree: its leftmost node. */
  function Leftmost(t: Tree): (s: Tree)
    requires t.Node?
    ensures s.Node? && s.left.Nil? && s.id in Keys(t)
  {
    if t.left.Nil? then t else Leftmost(t.left)
  }

  /**
   * Splices the leftmost node out of a subtree: its parent adopts its right child.
   * No height on the way down is recomputed.
   */
  function RemoveLeftmost(t: Tree): (r: Tree)
    requires t.Node?
    ensures Entries(t) == [Entry(Leftmost(t).id, Leftmost(t).name)] + Entries(r)
    ensures Size(t) == Size(r) + 1
  {
    if t.left.Nil? then t.right else t.(left := RemoveLeftmost(t.left))
  }

  /**
   * RecursiveRemove: None is the exception thrown at a null link when the ID is
   * absent. A node with two children is replaced by its in-order successor, which
   * keeps its own stored height, and is returned without rebalancing.
   */
  function Delete(t: Tree, id: nat): (r: Option<Tree>)
    ensures r.Some? ==> Size(r.value) + 1 == Size(t)
  {
    if t.Nil? then None
    else if id < t.id then
      match Delete(t.left, id)
      case None => None
      case Some(l) => Some(Rebalance(t.(left := l)))
    else if id > t.id then
      match Delete(t.right, id)
      case None => None
      case Some(r) => Some(Rebalance(t.(right := r)))
    else if t.left.Nil? && t.right.Nil? then Some(Nil)
    else if t.right.Nil? then Some(t.left)
    else if t.left.Nil? then Some(t.right)
    else
      var s := Leftmost(t.right);
      Some(Node(t.left, s.id, s.name, s.height, RemoveLeftmost(t.right)))
  }

  /** The ID of the node at in-order position `i`, when there is one. */
  function IdAtRank(t: Tree, i: int): Option<nat>
  {
    if 0 <= i < |Entries(t)| then Some(Entries(t)[i].id) else None
  }

  // ---------------------------------------------------------------------------
  // Queries

  /** RecursiveSearch by ID: BST descent, the name on a match, None at a null link. */
  function Search(t: Tree, id: nat): (r: Option<string>)
    ensures r.Some? ==> Entry(id, r.value) in Entries(t)
  {
    if t.Nil? then None
    else if t.id == id then Some(t.name)
    else if id < t.id then Search(t.left, id)
    else Search(t.right, id)
  }

  /** RecursiveSearch by name: the IDs of the nodes carrying `name`, in pre-order. */
  function NameMatches(t: Tree, name: string): seq<nat>
  {
    if t.Nil? then []
    else (if t.name == name then [t.id] else []) + NameMatches(t.left, name) + NameMatches(t.right, name)
  }

  /** RecursiveInorder: names in left, self, right order. */
  function InorderNames(t: Tree): seq<string>
  {
    if t.Nil? then [] else InorderNames(t.left) + [t.name] + InorderNames(t.right)
  }

  /** RecursivePreorder: names in self, left, right order. */
  function PreorderNames(t: Tree): seq<string>
  {
    if t.Nil? then [] else [t.name] + PreorderNames(t.left) + PreorderNames(t.right)
  }

  /** RecursivePostorder: names in left, right, self order. */
  function PostorderNames(t: Tree): seq<string>
  {
    if t.Nil? then [] else PostorderNames(t.left) + PostorderNames(t.right) + [t.name]
  }
}
