/**
 * The parts of the engine that work step by step: the successor search loop inside
 * RecursiveRemove, the counting walk of RecursiveRemoveInorder, and the traversals
 * and name search that push results into a vector passed by reference. Each is a
 * method proved equal to the function that specifies it.
 */
module AvlWalks {
  import opened AvlTree
  import opened AvlOrder

  /** The successor search loop: follow left links down to the leftmost node. */
  method FindSuccessor(t: Tree) returns (s: Tree)
    requires t.Node?
    ensures s == Leftmost(t)
  {
    s := t;
    while s.left.Node?
      invariant s.Node? && Leftmost(s) == Leftmost(t)
      decreases s
    {
      s := s.left;
    }
  }

  /**
   * RecursiveRemove, step by step: None where the source throws at a null link; a
   * node with two children is replaced by the successor that FindSuccessor locates,
   * spliced out of the right subtree.
   */
  method RecursiveRemove(t: Tree, id: nat) returns (r: Option<Tree>)
    ensures r == Delete(t, id)
    decreases t
  {
    if t.Nil? {
      return None;
    }
    if id < t.id {
      var l := RecursiveRemove(t.left, id);
      if l.None? {
        return None;
      }
      return Some(Rebalance(t.(left := l.value)));
    } else if id > t.id {
      var rt := RecursiveRemove(t.right, id);
      if rt.None? {
        return None;
      }
      return Some(Rebalance(t.(right := rt.value)));
    }
    if t.left.Nil? && t.right.Nil? {
      return Some(Nil);
    } else if t.right.Nil? {
      return Some(t.left);
    } else if t.left.Nil? {
      return Some(t.right);
    }
    var s := FindSuccessor(t.right);
    return Some(Node(t.left, s.id, s.name, s.height, RemoveLeftmost(t.right)));
  }

  /**
   * RecursiveRemoveInorder's walk: `count` is decremented at every node visited in
   * order, and the walk stops at the node where it is 0, reporting that node's ID
   * (the caller then removes it). Without a hit, `rest` is what is left of the count.
   */
  method RankWalk(t: Tree, count: int) returns (rest: int, hit: Option<nat>)
    requires count >= 0
    ensures hit == IdAtRank(t, count)
    ensures hit.None? ==> rest == count - Size(t)
    decreases t
  {
    if t.Nil? {
      return count, None;
    }
    EntriesLength(t.left);
    EntriesLength(t.right);
    assert Entries(t) == Entries(t.left) + [Entry(t.id, t.name)] + Entries(t.right);
    rest, hit := RankWalk(t.left, count);
    if hit.Some? {
      return;
    }
    if rest != 0 {
      rest := rest - 1;
    } else {
      return rest, Some(t.id);
    }
    rest, hit := RankWalk(t.right, rest);
  }

  /** RecursiveInorder: appends the subtree's names in left, self, right order. */
  method CollectInorder(t: Tree, acc: seq<string>) returns (out: seq<string>)
    ensures out == acc + InorderNames(t)
    decreases t
  {
    if t.Nil? {
      return acc;
    }
    out := CollectInorder(t.left, acc);
    out := out + [t.name];
    out := CollectInorder(t.right, out);
  }

  /** RecursivePreorder: appends the subtree's names in self, left, right order. */
  method CollectPreorder(t: Tree, acc: seq<string>) returns (out: seq<string>)
    ensures out == acc + PreorderNames(t)
    decreases t
  {
    if t.Nil? {
      return acc;
    }
    out := acc + [t.name];
    out := CollectPreorder(t.left, out);
    out := CollectPreorder(t.right, out);
  }

  /** RecursivePostorder: appends the subtree's names in left, right, self order. */
  method CollectPostorder(t: Tree, acc: seq<string>) returns (out: seq<string>)
    ensures out == acc + PostorderNames(t)
    decreases t
  {
    if t.Nil? {
      return acc;
    }
    out := CollectPostorder(t.left, acc);
    out := CollectPostorder(t.right, out);
    out := out + [t.name];
  }

  /**
   * RecursiveSearch by name: visits every node in pre-order and reports the ID of
   * each node carrying the name (the source prints it and sets `found`).
   */
  method CollectNameMatches(t: Tree, name: string, acc: seq<nat>) returns (out: seq<nat>)
    ensures out == acc + NameMatches(t, name)
    decreases t
  {
    if t.Nil? {
      return acc;
    }
    out := acc;
    if t.name == name {
      out := out + [t.id];
    }
    out := CollectNameMatches(t.left, name, out);
    out := CollectNameMatches(t.right, name, out);
  }
}
