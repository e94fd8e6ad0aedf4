/**
 * Heights and balance: what the stored heights mean, why insertion keeps the AVL
 * invariant, and the source's BalanceNode as written, which can follow a null link.
 */
module AvlBalance {
  import opened AvlTree

  /** The height of a subtree counted from scratch, ignoring stored heights. */
  function TrueHeight(t: Tree): nat
  {
    if t.Nil? then 0 else 1 + Max(TrueHeight(t.left), TrueHeight(t.right))
  }

  /**
   * Where every stored height is what FindHeight computes, the stored height is the
   * real height and FindBF is the real difference of the children's heights.
   */
  lemma {:induction false} StoredHeightIsTrue(t: Tree)
    requires HeightsOk(t)
    ensures H(t) == TrueHeight(t)
    ensures t.Node? ==> FindBF(t) == TrueHeight(t.left) - TrueHeight(t.right)
  {
    if t.Node? {
      StoredHeightIsTrue(t.left);
      StoredHeightIsTrue(t.right);
    }
  }

  // ---------------------------------------------------------------------------
  // Insertion keeps the AVL invariant

  /** Left-left or left-right case of an insertion: the rotations restore the old height. */
  lemma RebalanceLeftHeavy(n: Tree)
    requires n.Node? && n.left.Node? && Avl(n.left) && Avl(n.right)
    requires FindBF(n) == 2 && FindBF(n.left) != 0
    ensures Avl(Rebalance(n)) && H(Rebalance(n)) == H(n.left)
  {
    var l, r := n.left, n.right;
    if FindBF(l) > 0 {
      var a, b := l.left, l.right;
      var down := Node(b, n.id, n.name, H(a), r);
      assert H(a) == H(b) + 1 && H(r) == H(b);
      assert Balance(n) == RotateRight(n) == Node(a, l.id, l.name, l.height, down);
      assert HeightsOk(down) && Balanced(down);
    } else {
      var a, c := l.left, l.right;
      assert H(c) == H(a) + 1 && H(r) == H(a);
      assert HeightsOk(c) && Balanced(c) && c.height == FindHeight(c);
      var c1, c2 := c.left, c.right;
      assert H(c1) <= H(a) && H(c2) <= H(a) && H(a) <= H(c1) + 1 && H(a) <= H(c2) + 1;
      var lower := Node(a, l.id, l.name, H(a) + 1, c1);
      var upper := Node(c2, n.id, n.name, H(a) + 1, r);
      assert RotateLeft(l) == Node(lower, c.id, c.name, c.height, c2);
      assert Balance(n) == RotateLeftRight(n) == Node(lower, c.id, c.name, c.height, upper);
      assert HeightsOk(lower) && Balanced(lower);
      assert HeightsOk(upper) && Balanced(upper);
    }
  }

  /** Right-right or right-left case of an insertion: the mirror image. */
  lemma RebalanceRightHeavy(n: Tree)
    requires n.Node? && n.right.Node? && Avl(n.left) && Avl(n.right)
    requires FindBF(n) == -2 && FindBF(n.right) != 0
    ensures Avl(Rebalance(n)) && H(Rebalance(n)) == H(n.right)
  {
    var l, r := n.left, n.right;
    if FindBF(r) < 0 {
      var a, b := r.left, r.right;
      var down := Node(l, n.id, n.name, H(a) + 1, a);
      assert H(b) == H(a) + 1 && H(l) == H(a);
      assert Balance(n) == RotateLeft(n) == Node(down, r.id, r.name, r.height, b);
      assert HeightsOk(down) && Balanced(down);
    } else {
      var c, b := r.left, r.right;
      assert H(c) == H(b) + 1 && H(l) == H(b);
      assert HeightsOk(c) && Balanced(c) && c.height == FindHeight(c);
      var c1, c2 := c.left, c.right;
      assert H(c1) <= H(b) && H(c2) <= H(b) && H(b) <= H(c1) + 1 && H(b) <= H(c2) + 1;
      var lower := Node(c2, r.id, r.name, H(b) + 1, b);
      var upper := Node(l, n.id, n.name, H(b) + 1, c1);
      assert RotateRight(r) == Node(c1, c.id, c.name, c.height, lower);
      assert Balance(n) == RotateRightLeft(n) == Node(upper, c.id, c.name, c.height, lower);
      assert HeightsOk(lower) && Balanced(lower);
      assert HeightsOk(upper) && Balanced(upper);
    }
  }

  /** What insertion promises about a subtree: the claim InsertKeepsAvl proves by induction. */
  ghost predicate InsertGrowsByOne(t: Tree, u: Tree)
  {
    Avl(u) && (H(u) == H(t) || H(u) == H(t) + 1) &&
    (t.Node? && H(u) == H(t) + 1 ==> FindBF(u) != 0)
  }

  /** One level of the unwind after an insertion into the left subtree. */
  lemma InsertLeftKeepsAvl(t: Tree, id: nat, name: string, l: Tree)
    requires t.Node? && Avl(t) && id < t.id
    requires Insert(t.left, id, name) == Some(l) && InsertGrowsByOne(t.left, l)
    ensures Insert(t, id, name) == Some(Rebalance(t.(left := l)))
    ensures InsertGrowsByOne(t, Rebalance(t.(left := l)))
  {
    var n := t.(left := l);
    if FindBF(n) == 2 {
      RebalanceLeftHeavy(n);
    } else {
      assert Balance(n) == n;
    }
  }

  /** One level of the unwind after an insertion into the right subtree. */
  lemma InsertRightKeepsAvl(t: Tree, id: nat, name: string, r: Tree)
    requires t.Node? && Avl(t) && id > t.id
    requires Insert(t.right, id, name) == Some(r) && InsertGrowsByOne(t.right, r)
    ensures Insert(t, id, name) == Some(Rebalance(t.(right := r)))
    ensures InsertGrowsByOne(t, Rebalance(t.(right := r)))
  {
    var n := t.(right := r);
    if FindBF(n) == -2 {
      RebalanceRightHeavy(n);
    } else {
      assert Balance(n) == n;
    }
  }

  /**
   * Insertion into an AVL tree with correct stored heights yields such a tree. The
   * height grows by at most one, and when a non-empty subtree grows its new root
   * leans towards the growth (factor not 0), which is what makes the strict test in
   * BalanceNode pick the right rotation one level up.
   */
  lemma {:induction false} InsertKeepsAvl(t: Tree, id: nat, name: string)
    requires Avl(t) && Insert(t, id, name).Some?
    ensures var u := Insert(t, id, name).value;
      Avl(u) && (H(u) == H(t) || H(u) == H(t) + 1) &&
      (t.Node? && H(u) == H(t) + 1 ==> FindBF(u) != 0)
  {
    if t.Node? {
      if id < t.id {
        InsertKeepsAvl(t.left, id, name);
        InsertLeftKeepsAvl(t, id, name, Insert(t.left, id, name).value);
      } else {
        InsertKeepsAvl(t.right, id, name);
        InsertRightKeepsAvl(t, id, name, Insert(t.right, id, name).value);
      }
    }
  }

  // ---------------------------------------------------------------------------
  // BalanceNode as written

  /**
   * BalanceNode exactly as the source has it, None standing for the null
   * dereference: the double rotation first rotates the heavy child, whose inner
   * child it assumes present. Wherever the source completes, it agrees with Balance.
   */
  function BalanceAsWritten(t: Tree): (r: Option<Tree>)
    requires t.Node?
    ensures r.Some? ==> r.value == Balance(t)
    ensures r.None? ==>
      (FindBF(t) < -1 && t.right.left.Nil? && t.right.height > FindHeight(t.right)) ||
      (FindBF(t) > 1 && t.left.right.Nil? && t.left.height > FindHeight(t.left))
  {
    var bf := FindBF(t);
    if bf < -1 then
      if FindBF(t.right) < 0 then Some(RotateLeft(t))
      else if t.right.left.Nil? then None
      else Some(RotateRightLeft(t))
    else if bf > 1 then
      if FindBF(t.left) > 0 then Some(RotateRight(t))
      else if t.left.right.Nil? then None
      else Some(RotateLeftRight(t))
    else
      Some(t)
  }

  /**
   * The null dereference needs a heavy child whose stored height is at least 2 while
   * it has no children: with correct heights below the node it cannot happen, so on
   * every tree that insertion builds Balance is BalanceNode.
   */
  lemma BalanceAsWrittenSafe(t: Tree)
    requires t.Node? && HeightsOk(t.left) && HeightsOk(t.right)
    ensures BalanceAsWritten(t) == Some(Balance(t))
  {
    if t.right.Node? {
      assert t.right.height == FindHeight(t.right);
    }
    if t.left.Node? {
      assert t.left.height == FindHeight(t.left);
    }
  }
}
