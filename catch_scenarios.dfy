/**
 * The small scenarios of the Catch tests (CatchTests.cpp), replayed on the engine:
 * fourteen records inserted with descending IDs, removals by rank, and the level
 * counts the tests expect. The tests name the records Jacob (99999999), Jack, Jake,
 * Lauren (99999996), Dustin, Gabriel, Jerold, John (99999992), Joe, Makayla, Mick,
 * Carlos, Jane and Cassidy (99999986); every lemma holds for any naming `nm` of the
 * IDs, that one included. Each engine call is checked on its own, between named
 * intermediate trees, one level of the recursion at a time.
 */
module CatchScenarios {
  import opened AvlTree
  import opened AvlOrder
  import opened AvlBalance
  import opened AvlScenarios

  function Grow1(nm: nat -> string): Tree
  {
    Leaf(nm, 99999999)
  }

  function Grow2(nm: nat -> string): Tree
  {
    Node(Leaf(nm, 99999998), 99999999, nm(99999999), 2, Nil)
  }

  function Grow3(nm: nat -> string): Tree
  {
    Node(Leaf(nm, 99999997), 99999998, nm(99999998), 2, Leaf(nm, 99999999))
  }

  function Grow4(nm: nat -> string): Tree
  {
    Node(Node(Leaf(nm, 99999996), 99999997, nm(99999997), 2, Nil), 99999998, nm(99999998), 3, Leaf(nm, 99999999))
  }

  function Grow5(nm: nat -> string): Tree
  {
    Node(Node(Leaf(nm, 99999995), 99999996, nm(99999996), 2, Leaf(nm, 99999997)), 99999998, nm(99999998), 3, Leaf(nm, 99999999))
  }

  function Grow6(nm: nat -> string): Tree
  {
    Node(Node(Leaf(nm, 99999994), 99999995, nm(99999995), 2, Nil), 99999996, nm(99999996), 3, Node(Leaf(nm, 99999997), 99999998, nm(99999998), 2, Leaf(nm, 99999999)))
  }

  /** After the seven inserts of IDs 99999999 down to 99999993: the perfect tree rooted at Lauren. */
  function Grow7(nm: nat -> string): Tree
  {
    Node(Node(Leaf(nm, 99999993), 99999994, nm(99999994), 2, Leaf(nm, 99999995)), 99999996, nm(99999996), 3, Node(Leaf(nm, 99999997), 99999998, nm(99999998), 2, Leaf(nm, 99999999)))
  }

  function Grow8(nm: nat -> string): Tree
  {
    Node(Node(Node(Leaf(nm, 99999992), 99999993, nm(99999993), 2, Nil), 99999994, nm(99999994), 3, Leaf(nm, 99999995)), 99999996, nm(99999996), 4, Node(Leaf(nm, 99999997), 99999998, nm(99999998), 2, Leaf(nm, 99999999)))
  }

  function Grow9(nm: nat -> string): Tree
  {
    Node(Node(Node(Leaf(nm, 99999991), 99999992, nm(99999992), 2, Leaf(nm, 99999993)), 99999994, nm(99999994), 3, Leaf(nm, 99999995)), 99999996, nm(99999996), 4, Node(Leaf(nm, 99999997), 99999998, nm(99999998), 2, Leaf(nm, 99999999)))
  }

  function Grow10(nm: nat -> string): Tree
  {
    Node(Node(Node(Leaf(nm, 99999990), 99999991, nm(99999991), 2, Nil), 99999992, nm(99999992), 3, Node(Leaf(nm, 99999993), 99999994, nm(99999994), 2, Leaf(nm, 99999995))), 99999996, nm(99999996), 4, Node(Leaf(nm, 99999997), 99999998, nm(99999998), 2, Leaf(nm, 99999999)))
  }

  function Grow11(nm: nat -> string): Tree
  {
    Node(Node(Node(Leaf(nm, 99999989), 99999990, nm(99999990), 2, Leaf(nm, 99999991)), 99999992, nm(99999992), 3, Node(Leaf(nm, 99999993), 99999994, nm(99999994), 2, Leaf(nm, 99999995))), 99999996, nm(99999996), 4, Node(Leaf(nm, 99999997), 99999998, nm(99999998), 2, Leaf(nm, 99999999)))
  }

  function Grow12(nm: nat -> string): Tree
  {
    Node(Node(Node(Leaf(nm, 99999988), 99999989, nm(99999989), 2, Nil), 99999990, nm(99999990), 3, Leaf(nm, 99999991)), 99999992, nm(99999992), 4, Node(Node(Leaf(nm, 99999993), 99999994, nm(99999994), 2, Leaf(nm, 99999995)), 99999996, nm(99999996), 3, Node(Leaf(nm, 99999997), 99999998, nm(99999998), 2, Leaf(nm, 99999999))))
  }

  function Grow13(nm: nat -> string): Tree
  {
    Node(Node(Node(Leaf(nm, 99999987), 99999988, nm(99999988), 2, Leaf(nm, 99999989)), 99999990, nm(99999990), 3, Leaf(nm, 99999991)), 99999992, nm(99999992), 4, Node(Node(Leaf(nm, 99999993), 99999994, nm(99999994), 2, Leaf(nm, 99999995)), 99999996, nm(99999996), 3, Node(Leaf(nm, 99999997), 99999998, nm(99999998), 2, Leaf(nm, 99999999))))
  }

  /** After all fourteen inserts: four levels, rooted at John. */
  function Grow14(nm: nat -> string): Tree
  {
    Node(Node(Node(Leaf(nm, 99999986), 99999987, nm(99999987), 2, Nil), 99999988, nm(99999988), 3, Node(Leaf(nm, 99999989), 99999990, nm(99999990), 2, Leaf(nm, 99999991))), 99999992, nm(99999992), 4, Node(Node(Leaf(nm, 99999993), 99999994, nm(99999994), 2, Leaf(nm, 99999995)), 99999996, nm(99999996), 3, Node(Leaf(nm, 99999997), 99999998, nm(99999998), 2, Leaf(nm, 99999999))))
  }

  function Trim1(nm: nat -> string): Tree
  {
    Node(Node(Leaf(nm, 99999987), 99999988, nm(99999988), 3, Node(Leaf(nm, 99999989), 99999990, nm(99999990), 2, Leaf(nm, 99999991))), 99999992, nm(99999992), 4, Node(Node(Leaf(nm, 99999993), 99999994, nm(99999994), 2, Leaf(nm, 99999995)), 99999996, nm(99999996), 3, Node(Leaf(nm, 99999997), 99999998, nm(99999998), 2, Leaf(nm, 99999999))))
  }

  function Trim2(nm: nat -> string): Tree
  {
    Node(Node(Leaf(nm, 99999988), 99999989, nm(99999989), 3, Node(Nil, 99999990, nm(99999990), 2, Leaf(nm, 99999991))), 99999992, nm(99999992), 4, Node(Node(Leaf(nm, 99999993), 99999994, nm(99999994), 2, Leaf(nm, 99999995)), 99999996, nm(99999996), 3, Node(Leaf(nm, 99999997), 99999998, nm(99999998), 2, Leaf(nm, 99999999))))
  }

  function Trim3(nm: nat -> string): Tree
  {
    Node(Node(Leaf(nm, 99999989), 99999990, nm(99999990), 2, Leaf(nm, 99999991)), 99999992, nm(99999992), 4, Node(Node(Leaf(nm, 99999993), 99999994, nm(99999994), 2, Leaf(nm, 99999995)), 99999996, nm(99999996), 3, Node(Leaf(nm, 99999997), 99999998, nm(99999998), 2, Leaf(nm, 99999999))))
  }

  function Trim4(nm: nat -> string): Tree
  {
    Node(Node(Nil, 99999990, nm(99999990), 2, Leaf(nm, 99999991)), 99999992, nm(99999992), 4, Node(Node(Leaf(nm, 99999993), 99999994, nm(99999994), 2, Leaf(nm, 99999995)), 99999996, nm(99999996), 3, Node(Leaf(nm, 99999997), 99999998, nm(99999998), 2, Leaf(nm, 99999999))))
  }

  function Trim5(nm: nat -> string): Tree
  {
    Node(Node(Leaf(nm, 99999991), 99999992, nm(99999992), 2, Leaf(nm, 99999993)), 99999994, nm(99999994), 4, Node(Leaf(nm, 99999995), 99999996, nm(99999996), 3, Node(Leaf(nm, 99999997), 99999998, nm(99999998), 2, Leaf(nm, 99999999))))
  }

  function Trim6(nm: nat -> string): Tree
  {
    Node(Node(Nil, 99999992, nm(99999992), 2, Leaf(nm, 99999993)), 99999994, nm(99999994), 4, Node(Leaf(nm, 99999995), 99999996, nm(99999996), 3, Node(Leaf(nm, 99999997), 99999998, nm(99999998), 2, Leaf(nm, 99999999))))
  }

  /** After seven removals at rank 0: three levels again. */
  function Trim7(nm: nat -> string): Tree
  {
    Node(Node(Leaf(nm, 99999993), 99999994, nm(99999994), 2, Leaf(nm, 99999995)), 99999996, nm(99999996), 3, Node(Leaf(nm, 99999997), 99999998, nm(99999998), 2, Leaf(nm, 99999999)))
  }

  function Trim8(nm: nat -> string): Tree
  {
    Node(Node(Nil, 99999994, nm(99999994), 2, Leaf(nm, 99999995)), 99999996, nm(99999996), 3, Node(Leaf(nm, 99999997), 99999998, nm(99999998), 2, Leaf(nm, 99999999)))
  }

  function Trim9(nm: nat -> string): Tree
  {
    Node(Leaf(nm, 99999995), 99999996, nm(99999996), 3, Node(Leaf(nm, 99999997), 99999998, nm(99999998), 2, Leaf(nm, 99999999)))
  }

  function Trim10(nm: nat -> string): Tree
  {
    Node(Leaf(nm, 99999996), 99999997, nm(99999997), 3, Node(Nil, 99999998, nm(99999998), 2, Leaf(nm, 99999999)))
  }

  /** After four more: a root over two leaves. */
  function Trim11(nm: nat -> string): Tree
  {
    Node(Leaf(nm, 99999997), 99999998, nm(99999998), 2, Leaf(nm, 99999999))
  }

  /** After removing rank 3 of Grow7: the successor of Lauren takes the root. */
  function Less1(nm: nat -> string): Tree
  {
    Node(Node(Leaf(nm, 99999993), 99999994, nm(99999994), 2, Leaf(nm, 99999995)), 99999997, nm(99999997), 1, Node(Nil, 99999998, nm(99999998), 2, Leaf(nm, 99999999)))
  }

  function Less2(nm: nat -> string): Tree
  {
    Node(Node(Nil, 99999994, nm(99999994), 2, Leaf(nm, 99999995)), 99999997, nm(99999997), 3, Node(Nil, 99999998, nm(99999998), 2, Leaf(nm, 99999999)))
  }

  function Less3(nm: nat -> string): Tree
  {
    Node(Leaf(nm, 99999995), 99999997, nm(99999997), 3, Node(Nil, 99999998, nm(99999998), 2, Leaf(nm, 99999999)))
  }

  function Less4(nm: nat -> string): Tree { Grow3(nm) }

  // ---------------------------------------------------------------------------
  // The fourteen inserts

  lemma GrowStep1(nm: nat -> string)
    ensures Insert(Nil, 99999999, nm(99999999)) == Some(Grow1(nm))
  {
  }

  lemma GrowStep2(nm: nat -> string)
    ensures Insert(Grow1(nm), 99999998, nm(99999998)) == Some(Grow2(nm))
  {
    assert Insert(Nil, 99999998, nm(99999998)) == Some(Leaf(nm, 99999998));
  }

  lemma GrowStep3(nm: nat -> string)
    ensures Insert(Grow2(nm), 99999997, nm(99999997)) == Some(Grow3(nm))
  {
    assert Insert(Nil, 99999997, nm(99999997)) == Some(Leaf(nm, 99999997));
    assert Insert(Leaf(nm, 99999998), 99999997, nm(99999997)) == Some(Node(Leaf(nm, 99999997), 99999998, nm(99999998), 2, Nil));
  }

  lemma GrowStep4(nm: nat -> string)
    ensures Insert(Grow3(nm), 99999996, nm(99999996)) == Some(Grow4(nm))
  {
    assert Insert(Nil, 99999996, nm(99999996)) == Some(Leaf(nm, 99999996));
    assert Insert(Leaf(nm, 99999997), 99999996, nm(99999996)) == Some(Node(Leaf(nm, 99999996), 99999997, nm(99999997), 2, Nil));
  }

  lemma GrowStep5(nm: nat -> string)
    ensures Insert(Grow4(nm), 99999995, nm(99999995)) == Some(Grow5(nm))
  {
    assert Insert(Nil, 99999995, nm(99999995)) == Some(Leaf(nm, 99999995));
    assert Insert(Leaf(nm, 99999996), 99999995, nm(99999995)) == Some(Node(Leaf(nm, 99999995), 99999996, nm(99999996), 2, Nil));
    assert Insert(Node(Leaf(nm, 99999996), 99999997, nm(99999997), 2, Nil), 99999995, nm(99999995)) == Some(Node(Leaf(nm, 99999995), 99999996, nm(99999996), 2, Leaf(nm, 99999997)));
  }

  lemma GrowStep6(nm: nat -> string)
    ensures Insert(Grow5(nm), 99999994, nm(99999994)) == Some(Grow6(nm))
  {
    assert Insert(Nil, 99999994, nm(99999994)) == Some(Leaf(nm, 99999994));
    assert Insert(Leaf(nm, 99999995), 99999994, nm(99999994)) == Some(Node(Leaf(nm, 99999994), 99999995, nm(99999995), 2, Nil));
    assert Insert(Node(Leaf(nm, 99999995), 99999996, nm(99999996), 2, Leaf(nm, 99999997)), 99999994, nm(99999994)) == Some(Node(Node(Leaf(nm, 99999994), 99999995, nm(99999995), 2, Nil), 99999996, nm(99999996), 3, Leaf(nm, 99999997)));
  }

  lemma GrowStep7(nm: nat -> string)
    ensures Insert(Grow6(nm), 99999993, nm(99999993)) == Some(Grow7(nm))
  {
    assert Insert(Nil, 99999993, nm(99999993)) == Some(Leaf(nm, 99999993));
    assert Insert(Leaf(nm, 99999994), 99999993, nm(99999993)) == Some(Node(Leaf(nm, 99999993), 99999994, nm(99999994), 2, Nil));
    assert Insert(Node(Leaf(nm, 99999994), 99999995, nm(99999995), 2, Nil), 99999993, nm(99999993)) == Some(Node(Leaf(nm, 99999993), 99999994, nm(99999994), 2, Leaf(nm, 99999995)));
  }

  lemma GrowStep8(nm: nat -> string)
    ensures Insert(Grow7(nm), 99999992, nm(99999992)) == Some(Grow8(nm))
  {
    assert Insert(Nil, 99999992, nm(99999992)) == Some(Leaf(nm, 99999992));
    assert Insert(Leaf(nm, 99999993), 99999992, nm(99999992)) == Some(Node(Leaf(nm, 99999992), 99999993, nm(99999993), 2, Nil));
    assert Insert(Node(Leaf(nm, 99999993), 99999994, nm(99999994), 2, Leaf(nm, 99999995)), 99999992, nm(99999992)) == Some(Node(Node(Leaf(nm, 99999992), 99999993, nm(99999993), 2, Nil), 99999994, nm(99999994), 3, Leaf(nm, 99999995)));
  }

  lemma GrowStep9(nm: nat -> string)
    ensures Insert(Grow8(nm), 99999991, nm(99999991)) == Some(Grow9(nm))
  {
    assert Insert(Nil, 99999991, nm(99999991)) == Some(Leaf(nm, 99999991));
    assert Insert(Leaf(nm, 99999992), 99999991, nm(99999991)) == Some(Node(Leaf(nm, 99999991), 99999992, nm(99999992), 2, Nil));
    assert Insert(Node(Leaf(nm, 99999992), 99999993, nm(99999993), 2, Nil), 99999991, nm(99999991)) == Some(Node(Leaf(nm, 99999991), 99999992, nm(99999992), 2, Leaf(nm, 99999993)));
    assert Insert(Node(Node(Leaf(nm, 99999992), 99999993, nm(99999993), 2, Nil), 99999994, nm(99999994), 3, Leaf(nm, 99999995)), 99999991, nm(99999991)) == Some(Node(Node(Leaf(nm, 99999991), 99999992, nm(99999992), 2, Leaf(nm, 99999993)), 99999994, nm(99999994), 3, Leaf(nm, 99999995)));
  }

  lemma GrowStep10(nm: nat -> string)
    ensures Insert(Grow9(nm), 99999990, nm(99999990)) == Some(Grow10(nm))
  {
    assert Insert(Nil, 99999990, nm(99999990)) == Some(Leaf(nm, 99999990));
    assert Insert(Leaf(nm, 99999991), 99999990, nm(99999990)) == Some(Node(Leaf(nm, 99999990), 99999991, nm(99999991), 2, Nil));
    assert Insert(Node(Leaf(nm, 99999991), 99999992, nm(99999992), 2, Leaf(nm, 99999993)), 99999990, nm(99999990)) == Some(Node(Node(Leaf(nm, 99999990), 99999991, nm(99999991), 2, Nil), 99999992, nm(99999992), 3, Leaf(nm, 99999993)));
    assert Insert(Node(Node(Leaf(nm, 99999991), 99999992, nm(99999992), 2, Leaf(nm, 99999993)), 99999994, nm(99999994), 3, Leaf(nm, 99999995)), 99999990, nm(99999990)) == Some(Node(Node(Leaf(nm, 99999990), 99999991, nm(99999991), 2, Nil), 99999992, nm(99999992), 3, Node(Leaf(nm, 99999993), 99999994, nm(99999994), 2, Leaf(nm, 99999995))));
  }

  lemma GrowStep11(nm: nat -> string)
    ensures Insert(Grow10(nm), 99999989, nm(99999989)) == Some(Grow11(nm))
  {
    assert Insert(Nil, 99999989, nm(99999989)) == Some(Leaf(nm, 99999989));
    assert Insert(Leaf(nm, 99999990), 99999989, nm(99999989)) == Some(Node(Leaf(nm, 99999989), 99999990, nm(99999990), 2, Nil));
    assert Insert(Node(Leaf(nm, 99999990), 99999991, nm(99999991), 2, Nil), 99999989, nm(99999989)) == Some(Node(Leaf(nm, 99999989), 99999990, nm(99999990), 2, Leaf(nm, 99999991)));
    assert Insert(Node(Node(Leaf(nm, 99999990), 99999991, nm(99999991), 2, Nil), 99999992, nm(99999992), 3, Node(Leaf(nm, 99999993), 99999994, nm(99999994), 2, Leaf(nm, 99999995))), 99999989, nm(99999989)) == Some(Node(Node(Leaf(nm, 99999989), 99999990, nm(99999990), 2, Leaf(nm, 99999991)), 99999992, nm(99999992), 3, Node(Leaf(nm, 99999993), 99999994, nm(99999994), 2, Leaf(nm, 99999995))));
  }

  lemma GrowStep12(nm: nat -> string)
    ensures Insert(Grow11(nm), 99999988, nm(99999988)) == Some(Grow12(nm))
  {
    assert Insert(Nil, 99999988, nm(99999988)) == Some(Leaf(nm, 99999988));
    assert Insert(Leaf(nm, 99999989), 99999988, nm(99999988)) == Some(Node(Leaf(nm, 99999988), 99999989, nm(99999989), 2, Nil));
    assert Insert(Node(Leaf(nm, 99999989), 99999990, nm(99999990), 2, Leaf(nm, 99999991)), 99999988, nm(99999988)) == Some(Node(Node(Leaf(nm, 99999988), 99999989, nm(99999989), 2, Nil), 99999990, nm(99999990), 3, Leaf(nm, 99999991)));
    assert Insert(Node(Node(Leaf(nm, 99999989), 99999990, nm(99999990), 2, Leaf(nm, 99999991)), 99999992, nm(99999992), 3, Node(Leaf(nm, 99999993), 99999994, nm(99999994), 2, Leaf(nm, 99999995))), 99999988, nm(99999988)) == Some(Node(Node(Node(Leaf(nm, 99999988), 99999989, nm(99999989), 2, Nil), 99999990, nm(99999990), 3, Leaf(nm, 99999991)), 99999992, nm(99999992), 4, Node(Leaf(nm, 99999993), 99999994, nm(99999994), 2, Leaf(nm, 99999995))));
  }

  lemma GrowStep13(nm: nat -> string)
    ensures Insert(Grow12(nm), 99999987, nm(99999987)) == Some(Grow13(nm))
  {
    assert Insert(Nil, 99999987, nm(99999987)) == Some(Leaf(nm, 99999987));
    assert Insert(Leaf(nm, 99999988), 99999987, nm(99999987)) == Some(Node(Leaf(nm, 99999987), 99999988, nm(99999988), 2, Nil));
    assert Insert(Node(Leaf(nm, 99999988), 99999989, nm(99999989), 2, Nil), 99999987, nm(99999987)) == Some(Node(Leaf(nm, 99999987), 99999988, nm(99999988), 2, Leaf(nm, 99999989)));
    assert Insert(Node(Node(Leaf(nm, 99999988), 99999989, nm(99999989), 2, Nil), 99999990, nm(99999990), 3, Leaf(nm, 99999991)), 99999987, nm(99999987)) == Some(Node(Node(Leaf(nm, 99999987), 99999988, nm(99999988), 2, Leaf(nm, 99999989)), 99999990, nm(99999990), 3, Leaf(nm, 99999991)));
  }

  lemma GrowStep14(nm: nat -> string)
    ensures Insert(Grow13(nm), 99999986, nm(99999986)) == Some(Grow14(nm))
  {
    assert Insert(Nil, 99999986, nm(99999986)) == Some(Leaf(nm, 99999986));
    assert Insert(Leaf(nm, 99999987), 99999986, nm(99999986)) == Some(Node(Leaf(nm, 99999986), 99999987, nm(99999987), 2, Nil));
    assert Insert(Node(Leaf(nm, 99999987), 99999988, nm(99999988), 2, Leaf(nm, 99999989)), 99999986, nm(99999986)) == Some(Node(Node(Leaf(nm, 99999986), 99999987, nm(99999987), 2, Nil), 99999988, nm(99999988), 3, Leaf(nm, 99999989)));
    assert Insert(Node(Node(Leaf(nm, 99999987), 99999988, nm(99999988), 2, Leaf(nm, 99999989)), 99999990, nm(99999990), 3, Leaf(nm, 99999991)), 99999986, nm(99999986)) == Some(Node(Node(Leaf(nm, 99999986), 99999987, nm(99999987), 2, Nil), 99999988, nm(99999988), 3, Node(Leaf(nm, 99999989), 99999990, nm(99999990), 2, Leaf(nm, 99999991))));
  }

  /** One insertion step keeps a valid tree valid: InsertKeepsAvl and InsertSpec together. */
  lemma InsertStepValid(t: Tree, id: nat, name: string, u: Tree)
    requires Avl(t) && Bst(t) && Insert(t, id, name) == Some(u)
    ensures Avl(u) && Bst(u)
  {
    InsertKeepsAvl(t, id, name);
    InsertSpec(t, id, name);
  }

  lemma GrowValid1(nm: nat -> string)
    ensures Avl(Grow1(nm)) && Bst(Grow1(nm))
  {
    GrowStep1(nm);
    InsertStepValid(Nil, 99999999, nm(99999999), Grow1(nm));
  }

  lemma GrowValid2(nm: nat -> string)
    ensures Avl(Grow2(nm)) && Bst(Grow2(nm))
  {
    GrowValid1(nm);
    GrowStep2(nm);
    InsertStepValid(Grow1(nm), 99999998, nm(99999998), Grow2(nm));
  }

  lemma GrowValid3(nm: nat -> string)
    ensures Avl(Grow3(nm)) && Bst(Grow3(nm))
  {
    GrowValid2(nm);
    GrowStep3(nm);
    InsertStepValid(Grow2(nm), 99999997, nm(99999997), Grow3(nm));
  }

  lemma GrowValid4(nm: nat -> string)
    ensures Avl(Grow4(nm)) && Bst(Grow4(nm))
  {
    GrowValid3(nm);
    GrowStep4(nm);
    InsertStepValid(Grow3(nm), 99999996, nm(99999996), Grow4(nm));
  }

  lemma GrowValid5(nm: nat -> string)
    ensures Avl(Grow5(nm)) && Bst(Grow5(nm))
  {
    GrowValid4(nm);
    GrowStep5(nm);
    InsertStepValid(Grow4(nm), 99999995, nm(99999995), Grow5(nm));
  }

  lemma GrowValid6(nm: nat -> string)
    ensures Avl(Grow6(nm)) && Bst(Grow6(nm))
  {
    GrowValid5(nm);
    GrowStep6(nm);
    InsertStepValid(Grow5(nm), 99999994, nm(99999994), Grow6(nm));
  }

  lemma GrowValid7(nm: nat -> string)
    ensures Avl(Grow7(nm)) && Bst(Grow7(nm))
  {
    GrowValid6(nm);
    GrowStep7(nm);
    InsertStepValid(Grow6(nm), 99999993, nm(99999993), Grow7(nm));
  }

  lemma GrowValid8(nm: nat -> string)
    ensures Avl(Grow8(nm)) && Bst(Grow8(nm))
  {
    GrowValid7(nm);
    GrowStep8(nm);
    InsertStepValid(Grow7(nm), 99999992, nm(99999992), Grow8(nm));
  }

  lemma GrowValid9(nm: nat -> string)
    ensures Avl(Grow9(nm)) && Bst(Grow9(nm))
  {
    GrowValid8(nm);
    GrowStep9(nm);
    InsertStepValid(Grow8(nm), 99999991, nm(99999991), Grow9(nm));
  }

  lemma GrowValid10(nm: nat -> string)
    ensures Avl(Grow10(nm)) && Bst(Grow10(nm))
  {
    GrowValid9(nm);
    GrowStep10(nm);
    InsertStepValid(Grow9(nm), 99999990, nm(99999990), Grow10(nm));
  }

  lemma GrowValid11(nm: nat -> string)
    ensures Avl(Grow11(nm)) && Bst(Grow11(nm))
  {
    GrowValid10(nm);
    GrowStep11(nm);
    InsertStepValid(Grow10(nm), 99999989, nm(99999989), Grow11(nm));
  }

  lemma GrowValid12(nm: nat -> string)
    ensures Avl(Grow12(nm)) && Bst(Grow12(nm))
  {
    GrowValid11(nm);
    GrowStep12(nm);
    InsertStepValid(Grow11(nm), 99999988, nm(99999988), Grow12(nm));
  }

  lemma GrowValid13(nm: nat -> string)
    ensures Avl(Grow13(nm)) && Bst(Grow13(nm))
  {
    GrowValid12(nm);
    GrowStep13(nm);
    InsertStepValid(Grow12(nm), 99999987, nm(99999987), Grow13(nm));
  }

  lemma GrowValid14(nm: nat -> string)
    ensures Avl(Grow14(nm)) && Bst(Grow14(nm))
  {
    GrowValid13(nm);
    GrowStep14(nm);
    InsertStepValid(Grow13(nm), 99999986, nm(99999986), Grow14(nm));
  }

  // ---------------------------------------------------------------------------
  // Removals at rank 0

  lemma TrimRank1(nm: nat -> string)
    ensures IdAtRank(Grow14(nm), 0) == Some(99999986)
  {
    assert Leftmost(Leaf(nm, 99999986)) == Leaf(nm, 99999986);
    assert Leftmost(Node(Leaf(nm, 99999986), 99999987, nm(99999987), 2, Nil)) == Leaf(nm, 99999986);
    assert Leftmost(Node(Node(Leaf(nm, 99999986), 99999987, nm(99999987), 2, Nil), 99999988, nm(99999988), 3, Node(Leaf(nm, 99999989), 99999990, nm(99999990), 2, Leaf(nm, 99999991)))) == Leaf(nm, 99999986);
    RankZeroIsLeftmost(Grow14(nm));
  }

  lemma TrimStep1(nm: nat -> string)
    ensures Delete(Grow14(nm), 99999986) == Some(Trim1(nm))
  {
    assert Delete(Leaf(nm, 99999986), 99999986) == Some(Nil);
    assert Delete(Node(Leaf(nm, 99999986), 99999987, nm(99999987), 2, Nil), 99999986) == Some(Leaf(nm, 99999987));
    assert Delete(Node(Node(Leaf(nm, 99999986), 99999987, nm(99999987), 2, Nil), 99999988, nm(99999988), 3, Node(Leaf(nm, 99999989), 99999990, nm(99999990), 2, Leaf(nm, 99999991))), 99999986) == Some(Node(Leaf(nm, 99999987), 99999988, nm(99999988), 3, Node(Leaf(nm, 99999989), 99999990, nm(99999990), 2, Leaf(nm, 99999991))));
  }

  lemma TrimRank2(nm: nat -> string)
    ensures IdAtRank(Trim1(nm), 0) == Some(99999987)
  {
    assert Leftmost(Leaf(nm, 99999987)) == Leaf(nm, 99999987);
    assert Leftmost(Node(Leaf(nm, 99999987), 99999988, nm(99999988), 3, Node(Leaf(nm, 99999989), 99999990, nm(99999990), 2, Leaf(nm, 99999991)))) == Leaf(nm, 99999987);
    RankZeroIsLeftmost(Trim1(nm));
  }

  lemma TrimStep2(nm: nat -> string)
    ensures Delete(Trim1(nm), 99999987) == Some(Trim2(nm))
  {
    assert Delete(Leaf(nm, 99999987), 99999987) == Some(Nil);
    assert Delete(Node(Leaf(nm, 99999987), 99999988, nm(99999988), 3, Node(Leaf(nm, 99999989), 99999990, nm(99999990), 2, Leaf(nm, 99999991))), 99999987) == Some(Node(Leaf(nm, 99999988), 99999989, nm(99999989), 3, Node(Nil, 99999990, nm(99999990), 2, Leaf(nm, 99999991))));
  }

  lemma TrimRank3(nm: nat -> string)
    ensures IdAtRank(Trim2(nm), 0) == Some(99999988)
  {
    assert Leftmost(Leaf(nm, 99999988)) == Leaf(nm, 99999988);
    assert Leftmost(Node(Leaf(nm, 99999988), 99999989, nm(99999989), 3, Node(Nil, 99999990, nm(99999990), 2, Leaf(nm, 99999991)))) == Leaf(nm, 99999988);
    RankZeroIsLeftmost(Trim2(nm));
  }

  lemma TrimStep3(nm: nat -> string)
    ensures Delete(Trim2(nm), 99999988) == Some(Trim3(nm))
  {
    assert Delete(Leaf(nm, 99999988), 99999988) == Some(Nil);
    assert Delete(Node(Leaf(nm, 99999988), 99999989, nm(99999989), 3, Node(Nil, 99999990, nm(99999990), 2, Leaf(nm, 99999991))), 99999988) == Some(Node(Leaf(nm, 99999989), 99999990, nm(99999990), 2, Leaf(nm, 99999991)));
  }

  lemma TrimRank4(nm: nat -> string)
    ensures IdAtRank(Trim3(nm), 0) == Some(99999989)
  {
    assert Leftmost(Leaf(nm, 99999989)) == Leaf(nm, 99999989);
    assert Leftmost(Node(Leaf(nm, 99999989), 99999990, nm(99999990), 2, Leaf(nm, 99999991))) == Leaf(nm, 99999989);
    RankZeroIsLeftmost(Trim3(nm));
  }

  lemma TrimStep4(nm: nat -> string)
    ensures Delete(Trim3(nm), 99999989) == Some(Trim4(nm))
  {
    assert Delete(Leaf(nm, 99999989), 99999989) == Some(Nil);
    assert Delete(Node(Leaf(nm, 99999989), 99999990, nm(99999990), 2, Leaf(nm, 99999991)), 99999989) == Some(Node(Nil, 99999990, nm(99999990), 2, Leaf(nm, 99999991)));
  }

  lemma TrimRank5(nm: nat -> string)
    ensures IdAtRank(Trim4(nm), 0) == Some(99999990)
  {
    assert Leftmost(Node(Nil, 99999990, nm(99999990), 2, Leaf(nm, 99999991))) == Node(Nil, 99999990, nm(99999990), 2, Leaf(nm, 99999991));
    RankZeroIsLeftmost(Trim4(nm));
  }

  lemma TrimStep5(nm: nat -> string)
    ensures Delete(Trim4(nm), 99999990) == Some(Trim5(nm))
  {
    assert Delete(Node(Nil, 99999990, nm(99999990), 2, Leaf(nm, 99999991)), 99999990) == Some(Leaf(nm, 99999991));
  }

  lemma TrimRank6(nm: nat -> string)
    ensures IdAtRank(Trim5(nm), 0) == Some(99999991)
  {
    assert Leftmost(Leaf(nm, 99999991)) == Leaf(nm, 99999991);
    assert Leftmost(Node(Leaf(nm, 99999991), 99999992, nm(99999992), 2, Leaf(nm, 99999993))) == Leaf(nm, 99999991);
    RankZeroIsLeftmost(Trim5(nm));
  }

  lemma TrimStep6(nm: nat -> string)
    ensures Delete(Trim5(nm), 99999991) == Some(Trim6(nm))
  {
    assert Delete(Leaf(nm, 99999991), 99999991) == Some(Nil);
    assert Delete(Node(Leaf(nm, 99999991), 99999992, nm(99999992), 2, Leaf(nm, 99999993)), 99999991) == Some(Node(Nil, 99999992, nm(99999992), 2, Leaf(nm, 99999993)));
  }

  lemma TrimRank7(nm: nat -> string)
    ensures IdAtRank(Trim6(nm), 0) == Some(99999992)
  {
    assert Leftmost(Node(Nil, 99999992, nm(99999992), 2, Leaf(nm, 99999993))) == Node(Nil, 99999992, nm(99999992), 2, Leaf(nm, 99999993));
    RankZeroIsLeftmost(Trim6(nm));
  }

  lemma TrimStep7(nm: nat -> string)
    ensures Delete(Trim6(nm), 99999992) == Some(Trim7(nm))
  {
    assert Delete(Node(Nil, 99999992, nm(99999992), 2, Leaf(nm, 99999993)), 99999992) == Some(Leaf(nm, 99999993));
  }

  lemma TrimRank8(nm: nat -> string)
    ensures IdAtRank(Trim7(nm), 0) == Some(99999993)
  {
    assert Leftmost(Leaf(nm, 99999993)) == Leaf(nm, 99999993);
    assert Leftmost(Node(Leaf(nm, 99999993), 99999994, nm(99999994), 2, Leaf(nm, 99999995))) == Leaf(nm, 99999993);
    RankZeroIsLeftmost(Trim7(nm));
  }

  lemma TrimStep8(nm: nat -> string)
    ensures Delete(Trim7(nm), 99999993) == Some(Trim8(nm))
  {
    assert Delete(Leaf(nm, 99999993), 99999993) == Some(Nil);
    assert Delete(Node(Leaf(nm, 99999993), 99999994, nm(99999994), 2, Leaf(nm, 99999995)), 99999993) == Some(Node(Nil, 99999994, nm(99999994), 2, Leaf(nm, 99999995)));
  }

  lemma TrimRank9(nm: nat -> string)
    ensures IdAtRank(Trim8(nm), 0) == Some(99999994)
  {
    assert Leftmost(Node(Nil, 99999994, nm(99999994), 2, Leaf(nm, 99999995))) == Node(Nil, 99999994, nm(99999994), 2, Leaf(nm, 99999995));
    RankZeroIsLeftmost(Trim8(nm));
  }

  lemma TrimStep9(nm: nat -> string)
    ensures Delete(Trim8(nm), 99999994) == Some(Trim9(nm))
  {
    assert Delete(Node(Nil, 99999994, nm(99999994), 2, Leaf(nm, 99999995)), 99999994) == Some(Leaf(nm, 99999995));
  }

  lemma TrimRank10(nm: nat -> string)
    ensures IdAtRank(Trim9(nm), 0) == Some(99999995)
  {
    assert Leftmost(Leaf(nm, 99999995)) == Leaf(nm, 99999995);
    RankZeroIsLeftmost(Trim9(nm));
  }

  lemma TrimStep10(nm: nat -> string)
    ensures Delete(Trim9(nm), 99999995) == Some(Trim10(nm))
  {
    assert Delete(Leaf(nm, 99999995), 99999995) == Some(Nil);
  }

  lemma TrimRank11(nm: nat -> string)
    ensures IdAtRank(Trim10(nm), 0) == Some(99999996)
  {
    assert Leftmost(Leaf(nm, 99999996)) == Leaf(nm, 99999996);
    RankZeroIsLeftmost(Trim10(nm));
  }

  lemma TrimStep11(nm: nat -> string)
    ensures Delete(Trim10(nm), 99999996) == Some(Trim11(nm))
  {
    assert Delete(Leaf(nm, 99999996), 99999996) == Some(Nil);
  }

  // ---------------------------------------------------------------------------
  // Inorder Removals

  lemma Grow7Rank3(nm: nat -> string)
    ensures IdAtRank(Grow7(nm), 3) == Some(99999996)
  {
    assert Size(Leaf(nm, 99999993)) == 1 && Size(Leaf(nm, 99999995)) == 1;
    assert Size(Node(Leaf(nm, 99999993), 99999994, nm(99999994), 2, Leaf(nm, 99999995))) == 3;
    RankOfRoot(Grow7(nm));
  }

  lemma Grow7Remove3(nm: nat -> string)
    ensures Delete(Grow7(nm), 99999996) == Some(Less1(nm))
  {
    assert Leftmost(Leaf(nm, 99999997)) == Leaf(nm, 99999997);
    assert Leftmost(Node(Leaf(nm, 99999997), 99999998, nm(99999998), 2, Leaf(nm, 99999999))) == Leaf(nm, 99999997);
    assert RemoveLeftmost(Leaf(nm, 99999997)) == Nil;
    assert RemoveLeftmost(Node(Leaf(nm, 99999997), 99999998, nm(99999998), 2, Leaf(nm, 99999999))) == Node(Nil, 99999998, nm(99999998), 2, Leaf(nm, 99999999));
  }

  lemma Less1Rank0(nm: nat -> string)
    ensures IdAtRank(Less1(nm), 0) == Some(99999993)
  {
    assert Leftmost(Leaf(nm, 99999993)) == Leaf(nm, 99999993);
    assert Leftmost(Node(Leaf(nm, 99999993), 99999994, nm(99999994), 2, Leaf(nm, 99999995))) == Leaf(nm, 99999993);
    RankZeroIsLeftmost(Less1(nm));
  }

  lemma Less1Remove0(nm: nat -> string)
    ensures Delete(Less1(nm), 99999993) == Some(Less2(nm))
  {
    assert Delete(Leaf(nm, 99999993), 99999993) == Some(Nil);
    assert Delete(Node(Leaf(nm, 99999993), 99999994, nm(99999994), 2, Leaf(nm, 99999995)), 99999993) == Some(Node(Nil, 99999994, nm(99999994), 2, Leaf(nm, 99999995)));
  }

  lemma Less2Rank0(nm: nat -> string)
    ensures IdAtRank(Less2(nm), 0) == Some(99999994)
  {
    assert Leftmost(Node(Nil, 99999994, nm(99999994), 2, Leaf(nm, 99999995))) == Node(Nil, 99999994, nm(99999994), 2, Leaf(nm, 99999995));
    RankZeroIsLeftmost(Less2(nm));
  }

  lemma Less2Remove0(nm: nat -> string)
    ensures Delete(Less2(nm), 99999994) == Some(Less3(nm))
  {
    assert Delete(Node(Nil, 99999994, nm(99999994), 2, Leaf(nm, 99999995)), 99999994) == Some(Leaf(nm, 99999995));
  }

  lemma Less3Rank0(nm: nat -> string)
    ensures IdAtRank(Less3(nm), 0) == Some(99999995)
  {
    assert Leftmost(Leaf(nm, 99999995)) == Leaf(nm, 99999995);
    RankZeroIsLeftmost(Less3(nm));
  }

  lemma Less3Remove0(nm: nat -> string)
    ensures Delete(Less3(nm), 99999995) == Some(Less4(nm))
  {
    assert Delete(Leaf(nm, 99999995), 99999995) == Some(Nil);
    assert Less4(nm) == Node(Leaf(nm, 99999997), 99999998, nm(99999998), 2, Leaf(nm, 99999999));
  }

  lemma Less4Rank9(nm: nat -> string)
    ensures IdAtRank(Less4(nm), 9).None? && Size(Less4(nm)) == 3
  {
    assert Size(Leaf(nm, 99999997)) == 1 && Size(Leaf(nm, 99999999)) == 1;
    EntriesLength(Less4(nm));
  }

  /**
   * The removals of the "Inorder Removals" test: rank 0 of the empty tree does not
   * exist; rank 3 takes Lauren (99999996) from the root, and Jake (99999997) replaces
   * it; three removals of rank 0 leave Jack (99999998) at the root of three records;
   * rank 9 is then out of range.
   */
  lemma InorderRemovalsScenario(nm: nat -> string)
    ensures IdAtRank(Nil, 0).None?
    ensures IdAtRank(Grow7(nm), 3) == Some(99999996) && Delete(Grow7(nm), 99999996) == Some(Less1(nm))
    ensures Less1(nm).id == 99999997 && Less1(nm).name == nm(99999997)
    ensures IdAtRank(Less1(nm), 0) == Some(99999993) && Delete(Less1(nm), 99999993) == Some(Less2(nm))
    ensures IdAtRank(Less2(nm), 0) == Some(99999994) && Delete(Less2(nm), 99999994) == Some(Less3(nm))
    ensures IdAtRank(Less3(nm), 0) == Some(99999995) && Delete(Less3(nm), 99999995) == Some(Less4(nm))
    ensures Less4(nm).id == 99999998 && Less4(nm).name == nm(99999998) && Size(Less4(nm)) == 3 && IdAtRank(Less4(nm), 9).None?
  {
    Grow7Rank3(nm);
    Grow7Remove3(nm);
    Less1Rank0(nm);
    Less1Remove0(nm);
    Less2Rank0(nm);
    Less2Remove0(nm);
    Less3Rank0(nm);
    Less3Remove0(nm);
    Less4Rank9(nm);
  }

  // ---------------------------------------------------------------------------
  // Level Correctness and Height Correctness

  /** The first seven inserts of "Inorder Removals": an AVL tree whose root is Lauren (99999996). */
  lemma SevenInsertsRootLauren(nm: nat -> string)
    ensures Insert(Grow6(nm), 99999993, nm(99999993)) == Some(Grow7(nm))
    ensures Avl(Grow7(nm)) && Bst(Grow7(nm)) && Grow7(nm).id == 99999996 && Grow7(nm).name == nm(99999996)
  {
    GrowStep7(nm);
    GrowValid7(nm);
  }

  /**
   * "Level Correctness" and "Height Correctness", first half: the fourteen inserts
   * with descending IDs keep the tree AVL (InsertKeepsAvl at every step) and reach
   * a root of stored height 4, John (99999992).
   */
  lemma FourteenInsertsReachLevelFour(nm: nat -> string)
    ensures Insert(Grow13(nm), 99999986, nm(99999986)) == Some(Grow14(nm))
    ensures Avl(Grow14(nm)) && Bst(Grow14(nm)) && H(Grow14(nm)) == 4 && Grow14(nm).id == 99999992
  {
    GrowStep14(nm);
    GrowValid14(nm);
  }

  /** Second half: seven removals at rank 0 take out the seven lowest IDs. */
  lemma SevenTrimsFromFourteen(nm: nat -> string)
    ensures IdAtRank(Grow14(nm), 0) == Some(99999986) && Delete(Grow14(nm), 99999986) == Some(Trim1(nm))
    ensures IdAtRank(Trim1(nm), 0) == Some(99999987) && Delete(Trim1(nm), 99999987) == Some(Trim2(nm))
    ensures IdAtRank(Trim2(nm), 0) == Some(99999988) && Delete(Trim2(nm), 99999988) == Some(Trim3(nm))
    ensures IdAtRank(Trim3(nm), 0) == Some(99999989) && Delete(Trim3(nm), 99999989) == Some(Trim4(nm))
    ensures IdAtRank(Trim4(nm), 0) == Some(99999990) && Delete(Trim4(nm), 99999990) == Some(Trim5(nm))
    ensures IdAtRank(Trim5(nm), 0) == Some(99999991) && Delete(Trim5(nm), 99999991) == Some(Trim6(nm))
    ensures IdAtRank(Trim6(nm), 0) == Some(99999992) && Delete(Trim6(nm), 99999992) == Some(Trim7(nm))
  {
    TrimRank1(nm);
    TrimStep1(nm);
    TrimRank2(nm);
    TrimStep2(nm);
    TrimRank3(nm);
    TrimStep3(nm);
    TrimRank4(nm);
    TrimStep4(nm);
    TrimRank5(nm);
    TrimStep5(nm);
    TrimRank6(nm);
    TrimStep6(nm);
    TrimRank7(nm);
    TrimStep7(nm);
  }

  /** The root drops to stored height 3 over two children of height 2. */
  lemma SevenTrimsReachLevelThree(nm: nat -> string)
    ensures Delete(Trim6(nm), 99999992) == Some(Trim7(nm))
    ensures H(Trim7(nm)) == 3 && H(Trim7(nm).left) == 2 && H(Trim7(nm).right) == 2
  {
    TrimStep7(nm);
  }

  /** Four more removals at rank 0 leave two leaves of height 1 under the root. */
  lemma FourMoreTrimsLeaveLeaves(nm: nat -> string)
    ensures IdAtRank(Trim7(nm), 0) == Some(99999993) && Delete(Trim7(nm), 99999993) == Some(Trim8(nm))
    ensures IdAtRank(Trim8(nm), 0) == Some(99999994) && Delete(Trim8(nm), 99999994) == Some(Trim9(nm))
    ensures IdAtRank(Trim9(nm), 0) == Some(99999995) && Delete(Trim9(nm), 99999995) == Some(Trim10(nm))
    ensures IdAtRank(Trim10(nm), 0) == Some(99999996) && Delete(Trim10(nm), 99999996) == Some(Trim11(nm))
    ensures Trim11(nm).left.Node? && Trim11(nm).right.Node? && H(Trim11(nm).left) == 1 && H(Trim11(nm).right) == 1
  {
    TrimRank8(nm);
    TrimStep8(nm);
    TrimRank9(nm);
    TrimStep9(nm);
    TrimRank10(nm);
    TrimStep10(nm);
    TrimRank11(nm);
    TrimStep11(nm);
  }
}
