/**
 * Concrete runs of the engine: the removal that makes BalanceNode follow a null
 * link, the stale height left by a two-child removal, the imbalance a zero balance
 * factor leaves behind. Every node is named by `nm`, a naming of the IDs, so each
 * run holds whatever names the records carry. Each engine call is checked on its
 * own, between named intermediate trees, one level of the recursion at a time.
 */
module AvlScenarios {
  import opened AvlTree
  import opened AvlBalance

  /** A node with no children, carrying the name `nm` gives its ID. */
  function Leaf(nm: nat -> string, id: nat): Tree { Node(Nil, id, nm(id), 1, Nil) }

  // ---------------------------------------------------------------------------
  // The null link reached by BalanceNode: insert 20, 10, 30, 25, remove 20, remove 10

  function NullLink2(nm: nat -> string): Tree
  {
    Node(Leaf(nm, 10), 20, nm(20), 2, Nil)
  }

  function NullLink3(nm: nat -> string): Tree
  {
    Node(Leaf(nm, 10), 20, nm(20), 2, Leaf(nm, 30))
  }

  function NullLink4(nm: nat -> string): Tree
  {
    Node(Leaf(nm, 10), 20, nm(20), 3, Node(Leaf(nm, 25), 30, nm(30), 2, Nil))
  }

  /** After removing 20: 25 keeps its leaf height, 30 keeps height 2 with no children. */
  function NullLink5(nm: nat -> string): Tree
  {
    Node(Leaf(nm, 10), 25, nm(25), 1, Node(Nil, 30, nm(30), 2, Nil))
  }

  function NullLink6(nm: nat -> string): Tree
  {
    Node(Leaf(nm, 25), 30, nm(30), 2, Nil)
  }

  /** NullLink5 with the removed leaf 10 cut off: the node BalanceNode meets on the way back up. */
  function NullLinkUnwound(nm: nat -> string): Tree
  {
    Node(Nil, 25, nm(25), 1, Node(Nil, 30, nm(30), 2, Nil))
  }

  lemma NullLinkInsert1(nm: nat -> string)
    ensures Insert(Nil, 20, nm(20)) == Some(Leaf(nm, 20))
  {
  }

  lemma NullLinkInsert2(nm: nat -> string)
    ensures Insert(Leaf(nm, 20), 10, nm(10)) == Some(NullLink2(nm))
  {
    assert Insert(Nil, 10, nm(10)) == Some(Leaf(nm, 10));
  }

  lemma NullLinkInsert3(nm: nat -> string)
    ensures Insert(NullLink2(nm), 30, nm(30)) == Some(NullLink3(nm))
  {
    assert Insert(Nil, 30, nm(30)) == Some(Leaf(nm, 30));
  }

  lemma NullLinkInsert4(nm: nat -> string)
    ensures Insert(NullLink3(nm), 25, nm(25)) == Some(NullLink4(nm))
  {
    assert Insert(Nil, 25, nm(25)) == Some(Leaf(nm, 25));
    assert Insert(Leaf(nm, 30), 25, nm(25)) == Some(Node(Leaf(nm, 25), 30, nm(30), 2, Nil));
  }

  lemma NullLinkRemove20(nm: nat -> string)
    ensures Delete(NullLink4(nm), 20) == Some(NullLink5(nm))
  {
    assert Leftmost(Leaf(nm, 25)) == Leaf(nm, 25);
    assert Leftmost(Node(Leaf(nm, 25), 30, nm(30), 2, Nil)) == Leaf(nm, 25);
    assert RemoveLeftmost(Leaf(nm, 25)) == Nil;
    assert RemoveLeftmost(Node(Leaf(nm, 25), 30, nm(30), 2, Nil)) == Node(Nil, 30, nm(30), 2, Nil);
  }

  lemma NullLinkRemove10(nm: nat -> string)
    ensures Delete(NullLink5(nm), 10) == Some(NullLink6(nm))
  {
    assert Delete(Leaf(nm, 10), 10) == Some(Nil);
  }

  lemma NullLinkUnwind(nm: nat -> string)
    ensures BalanceAsWritten(NullLinkUnwound(nm)) == None
  {
  }

  /**
   * Insert 20, 10, 30, 25, remove 20, then remove 10. On the way back up from the
   * second removal BalanceNode meets 25 right-heavy by 2 over 30, whose factor is 0,
   * and rotates 30 to the right although it has no left child; the corrected
   * Balance completes the removal of the present ID 10.
   */
  lemma RemovalReachesNullLink(nm: nat -> string)
    ensures Insert(Nil, 20, nm(20)) == Some(Leaf(nm, 20)) && Insert(Leaf(nm, 20), 10, nm(10)) == Some(NullLink2(nm))
    ensures Insert(NullLink2(nm), 30, nm(30)) == Some(NullLink3(nm)) && Insert(NullLink3(nm), 25, nm(25)) == Some(NullLink4(nm))
    ensures Delete(NullLink4(nm), 20) == Some(NullLink5(nm))
    ensures Delete(Leaf(nm, 10), 10) == Some(Nil) && NullLink5(nm) == Node(Leaf(nm, 10), 25, nm(25), 1, NullLinkUnwound(nm).right)
    ensures BalanceAsWritten(NullLinkUnwound(nm)) == None
    ensures Delete(NullLink5(nm), 10) == Some(NullLink6(nm))
  {
    NullLinkInsert1(nm);
    NullLinkInsert2(nm);
    NullLinkInsert3(nm);
    NullLinkInsert4(nm);
    NullLinkRemove20(nm);
    NullLinkUnwind(nm);
    NullLinkRemove10(nm);
  }

  // ---------------------------------------------------------------------------
  // A stale height: insert 1, 2, 3, remove 2

  function Stale2(nm: nat -> string): Tree
  {
    Node(Nil, 1, nm(1), 2, Leaf(nm, 2))
  }

  function Stale3(nm: nat -> string): Tree
  {
    Node(Leaf(nm, 1), 2, nm(2), 2, Leaf(nm, 3))
  }

  function Stale4(nm: nat -> string): Tree
  {
    Node(Leaf(nm, 1), 3, nm(3), 1, Nil)
  }

  lemma StaleInsert1(nm: nat -> string)
    ensures Insert(Nil, 1, nm(1)) == Some(Leaf(nm, 1))
  {
  }

  lemma StaleInsert2(nm: nat -> string)
    ensures Insert(Leaf(nm, 1), 2, nm(2)) == Some(Stale2(nm))
  {
    assert Insert(Nil, 2, nm(2)) == Some(Leaf(nm, 2));
  }

  lemma StaleInsert3(nm: nat -> string)
    ensures Insert(Stale2(nm), 3, nm(3)) == Some(Stale3(nm))
  {
    assert Insert(Nil, 3, nm(3)) == Some(Leaf(nm, 3));
    assert Insert(Leaf(nm, 2), 3, nm(3)) == Some(Node(Nil, 2, nm(2), 2, Leaf(nm, 3)));
  }

  lemma StaleRemove2(nm: nat -> string)
    ensures Delete(Stale3(nm), 2) == Some(Stale4(nm))
  {
    assert Leftmost(Leaf(nm, 3)) == Leaf(nm, 3);
    assert RemoveLeftmost(Leaf(nm, 3)) == Nil;
  }

  lemma Stale3Valid(nm: nat -> string)
    ensures Avl(Stale3(nm))
  {
    assert HeightsOk(Nil) && Balanced(Nil);
    assert HeightsOk(Leaf(nm, 1)) && Balanced(Leaf(nm, 1));
    assert HeightsOk(Leaf(nm, 3)) && Balanced(Leaf(nm, 3));
    assert HeightsOk(Node(Leaf(nm, 1), 2, nm(2), 2, Leaf(nm, 3))) && Balanced(Node(Leaf(nm, 1), 2, nm(2), 2, Leaf(nm, 3)));
  }

  lemma Stale4Heights(nm: nat -> string)
    ensures H(Stale4(nm)) == 1 && TrueHeight(Stale4(nm)) == 2
  {
    assert TrueHeight(Leaf(nm, 1)) == 1;
  }

  /**
   * Insert 1, 2, 3 (rotated to root 2 of height 2), then remove 2: the successor 3
   * keeps its leaf height, so the level count reads 1 for a tree of two levels.
   */
  lemma TwoChildRemovalLeavesStaleHeight(nm: nat -> string)
    ensures Insert(Nil, 1, nm(1)) == Some(Leaf(nm, 1)) && Insert(Leaf(nm, 1), 2, nm(2)) == Some(Stale2(nm))
    ensures Insert(Stale2(nm), 3, nm(3)) == Some(Stale3(nm)) && Avl(Stale3(nm))
    ensures Delete(Stale3(nm), 2) == Some(Stale4(nm))
    ensures H(Stale4(nm)) == 1 && TrueHeight(Stale4(nm)) == 2 && !HeightsOk(Stale4(nm))
  {
    StaleInsert1(nm);
    StaleInsert2(nm);
    StaleInsert3(nm);
    StaleRemove2(nm);
    Stale3Valid(nm);
    Stale4Heights(nm);
  }

  // ---------------------------------------------------------------------------
  // A zero balance factor selects the double rotation

  /** An AVL tree: 50 over 20 (over 10) and 70; 70 over 60 (over 55) and 80 (over 75 and 85). */
  function ZeroFactorTree(nm: nat -> string): Tree
  {
    Node(Node(Leaf(nm, 10), 20, nm(20), 2, Nil), 50, nm(50), 4, Node(Node(Leaf(nm, 55), 60, nm(60), 2, Nil), 70, nm(70), 3, Node(Leaf(nm, 75), 80, nm(80), 2, Leaf(nm, 85))))
  }

  /** After removing 10: 70, now without a left child, has factor -2. */
  function ZeroFactorResult(nm: nat -> string): Tree
  {
    Node(Node(Leaf(nm, 20), 50, nm(50), 2, Leaf(nm, 55)), 60, nm(60), 4, Node(Nil, 70, nm(70), 3, Node(Leaf(nm, 75), 80, nm(80), 2, Leaf(nm, 85))))
  }

  lemma ZeroFactorHeights(nm: nat -> string)
    ensures HeightsOk(ZeroFactorTree(nm))
  {
    assert HeightsOk(Nil);
    assert HeightsOk(Leaf(nm, 10));
    assert HeightsOk(Node(Leaf(nm, 10), 20, nm(20), 2, Nil));
    assert HeightsOk(Leaf(nm, 55));
    assert HeightsOk(Node(Leaf(nm, 55), 60, nm(60), 2, Nil));
    assert HeightsOk(Leaf(nm, 75));
    assert HeightsOk(Leaf(nm, 85));
    assert HeightsOk(Node(Leaf(nm, 75), 80, nm(80), 2, Leaf(nm, 85)));
    assert HeightsOk(Node(Node(Leaf(nm, 55), 60, nm(60), 2, Nil), 70, nm(70), 3, Node(Leaf(nm, 75), 80, nm(80), 2, Leaf(nm, 85))));
  }

  lemma ZeroFactorBalanced(nm: nat -> string)
    ensures Balanced(ZeroFactorTree(nm))
  {
    assert Balanced(Nil);
    assert Balanced(Leaf(nm, 10));
    assert Balanced(Node(Leaf(nm, 10), 20, nm(20), 2, Nil));
    assert Balanced(Leaf(nm, 55));
    assert Balanced(Node(Leaf(nm, 55), 60, nm(60), 2, Nil));
    assert Balanced(Leaf(nm, 75));
    assert Balanced(Leaf(nm, 85));
    assert Balanced(Node(Leaf(nm, 75), 80, nm(80), 2, Leaf(nm, 85)));
    assert Balanced(Node(Node(Leaf(nm, 55), 60, nm(60), 2, Nil), 70, nm(70), 3, Node(Leaf(nm, 75), 80, nm(80), 2, Leaf(nm, 85))));
  }

  lemma ZeroFactorBst(nm: nat -> string)
    ensures Bst(ZeroFactorTree(nm))
  {
    assert Bst(Nil) && Keys(Nil) == {};
    assert Keys(Leaf(nm, 10)) == {10};
    assert Bst(Leaf(nm, 10));
    assert Keys(Node(Leaf(nm, 10), 20, nm(20), 2, Nil)) == {10, 20};
    assert Bst(Node(Leaf(nm, 10), 20, nm(20), 2, Nil));
    assert Keys(Leaf(nm, 55)) == {55};
    assert Bst(Leaf(nm, 55));
    assert Keys(Node(Leaf(nm, 55), 60, nm(60), 2, Nil)) == {55, 60};
    assert Bst(Node(Leaf(nm, 55), 60, nm(60), 2, Nil));
    assert Keys(Leaf(nm, 75)) == {75};
    assert Bst(Leaf(nm, 75));
    assert Keys(Leaf(nm, 85)) == {85};
    assert Bst(Leaf(nm, 85));
    assert Keys(Node(Leaf(nm, 75), 80, nm(80), 2, Leaf(nm, 85))) == {75, 80, 85};
    assert Bst(Node(Leaf(nm, 75), 80, nm(80), 2, Leaf(nm, 85)));
    assert Keys(Node(Node(Leaf(nm, 55), 60, nm(60), 2, Nil), 70, nm(70), 3, Node(Leaf(nm, 75), 80, nm(80), 2, Leaf(nm, 85)))) == {55, 60, 70, 75, 80, 85};
    assert Bst(Node(Node(Leaf(nm, 55), 60, nm(60), 2, Nil), 70, nm(70), 3, Node(Leaf(nm, 75), 80, nm(80), 2, Leaf(nm, 85))));
  }

  lemma ZeroFactorRemove10(nm: nat -> string)
    ensures Delete(ZeroFactorTree(nm), 10) == Some(ZeroFactorResult(nm))
  {
    assert Delete(Leaf(nm, 10), 10) == Some(Nil);
    assert Delete(Node(Leaf(nm, 10), 20, nm(20), 2, Nil), 10) == Some(Leaf(nm, 20));
  }

  lemma ZeroFactorUnbalanced(nm: nat -> string)
    ensures !Balanced(ZeroFactorResult(nm))
  {
    assert !Balanced(ZeroFactorResult(nm).right);
  }

  /**
   * Removing 10 makes 50 right-heavy by 2 over 70, whose factor is 0; BalanceNode
   * then takes the double rotation and the result has 70 at factor -2.
   */
  lemma ZeroFactorDoubleRotationLeavesImbalance(nm: nat -> string)
    ensures Bst(ZeroFactorTree(nm)) && Avl(ZeroFactorTree(nm))
    ensures Delete(ZeroFactorTree(nm), 10) == Some(ZeroFactorResult(nm)) && !Balanced(ZeroFactorResult(nm))
  {
    ZeroFactorHeights(nm);
    ZeroFactorBalanced(nm);
    ZeroFactorBst(nm);
    ZeroFactorRemove10(nm);
    ZeroFactorUnbalanced(nm);
  }
}
