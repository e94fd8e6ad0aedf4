# GatorAVL in Dafny

A model of the AVL tree engine of COP3530_AVLTree. The engine stores student records: an 8-digit GatorID and a name. It consists of:

- the height and balance-factor helpers of a `GatorNode`;
- the four rotations and `BalanceNode`;
- recursive insert and remove;
- removal by in-order rank;
- search by ID and by name;
- the three traversals;
- the `GatorAVL` class. It holds `root` and `size` and wraps all of the above.

The engine appears word for word in `GatorAVL.cpp` and `GatorAVL_Main.cpp`. The table below cites `GatorAVL.cpp` for it. The two front ends differ, so each gets its own class.

A node owns its children exclusively, so a subtree is modelled as a value: `datatype Tree = Nil | Node(left, id, name, height, right)`. Each operation that rewrites links in place and returns the new subtree root is a function from the old subtree to the new one. `height` is a stored field. The engine refreshes it only where the source calls `FindHeight`. The loops and the by-reference accumulators of the source are methods proved equal to those functions:

- the successor walk;
- the rank count-down;
- the traversals that `push_back` into a vector.

The classes are Dafny classes. Their methods update `root` and `size` and keep this invariant: BST order, `size` equal to the node count, and IDs within range.

Modules:

- `AvlTree` (`avl_tree.dfy`): the engine.
- `AvlOrder` (`avl_order.dfy`): what insert, remove, rank, search and the traversals do to the in-order record sequence.
- `AvlBalance` (`avl_balance.dfy`): stored heights, the AVL invariant under insertion, and `BalanceNode` as written.
- `AvlWalks` (`avl_walks.dfy`): the loop and accumulator forms.
- `GatorInput` (`gator_input.dfy`): name and ID validation.
- `GatorAvl` (`gator_avl.dfy`) and `GatorAvlMain` (`gator_avl_main.dfy`): the two classes.
- `AvlScenarios` (`avl_scenarios.dfy`) and `CatchScenarios` (`catch_scenarios.dfy`): concrete runs of the engine. The IDs and tree shapes are literal. The names are a parameter `nm` mapping each ID to its name, so every run holds for any naming, the Catch tests' names included.

## Model

| member | source | states |
|---|---|---|
| AvlTree.FindHeight | COP3530_AVLTree/GatorAVL.cpp:12-28 | the result is one more than the taller child's stored height: at least 1, above both children, and equal to one of them plus 1; an absent child counts as 0 |
| AvlTree.FindBF | COP3530_AVLTree/GatorAVL.cpp:30-46 | the factor plus the right child's stored height is the left child's; an absent child counts as 0, so the factor is at most 0 without a left child and at least 0 without a right child |
| AvlBalance.StoredHeightIsTrue | COP3530_AVLTree/GatorAVL.cpp:12-46 | where every stored height is what FindHeight computes, the stored height is the real height and FindBF is the real left-minus-right height difference |
| AvlTree.RotateLeft | COP3530_AVLTree/GatorAVL.cpp:50-57 | the old right child becomes the root and keeps its stored height; the old root becomes its left child, adopts the right child's left subtree, and is the only node whose height is recomputed; the in-order records and the node count are unchanged |
| AvlTree.RotateRight | COP3530_AVLTree/GatorAVL.cpp:59-66 | the mirror image of RotateLeft, with the same preservation of records and count |
| AvlTree.RotateLeftRight | COP3530_AVLTree/GatorAVL.cpp:68-71 | the left child's right child becomes the root; the in-order records and the count are unchanged |
| AvlTree.RotateRightLeft | COP3530_AVLTree/GatorAVL.cpp:73-76 | the right child's left child becomes the root; the in-order records and the count are unchanged |
| AvlTree.Balance | COP3530_AVLTree/GatorAVL.cpp:78-97 | BalanceNode with a guard on the null link (see Findings): it returns its argument untouched when the factor is in [-1, 1], and it never changes the in-order records or the count |
| AvlBalance.BalanceAsWritten | COP3530_AVLTree/GatorAVL.cpp:78-97 | BalanceNode exactly as written. Where it completes, it equals Balance. It fails (the null dereference) only when the heavy child has no inner child and a stored height above what its children give |
| AvlBalance.BalanceAsWrittenSafe | COP3530_AVLTree/GatorAVL.cpp:78-97 | when the children's stored heights are correct, BalanceNode as written never follows a null link and equals Balance |
| AvlBalance.RebalanceLeftHeavy | COP3530_AVLTree/GatorAVL.cpp:88-95 | at a node left-heavy by 2 whose left child leans, the right or left-right rotation yields an AVL subtree of the left child's height |
| AvlBalance.RebalanceRightHeavy | COP3530_AVLTree/GatorAVL.cpp:80-87 | the mirror case: the left or right-left rotation yields an AVL subtree of the right child's height |
| AvlTree.Rebalance | COP3530_AVLTree/GatorAVL.cpp:113-115 | the step at each level of the unwind: BalanceNode, then FindHeight; the new root's stored height is correct and the records and count are kept |
| AvlTree.Insert | COP3530_AVLTree/GatorAVL.cpp:99-118 | when insertion succeeds, the new tree is non-empty and has one node more |
| AvlOrder.InsertSpec | COP3530_AVLTree/GatorAVL.cpp:99-118 | on a BST, insertion fails exactly when the ID is present. Otherwise the result is a BST whose key set gains exactly that ID, with one node more, and whose in-order records are the old ones with the new record placed in ID order |
| AvlBalance.InsertLeftKeepsAvl | COP3530_AVLTree/GatorAVL.cpp:106-116 | one level of the unwind after inserting left: if the left subtree stayed AVL and grew by at most one, leaning when it grew, then BalanceNode and FindHeight at this node restore the same promise one level up |
| AvlBalance.InsertRightKeepsAvl | COP3530_AVLTree/GatorAVL.cpp:109-116 | the mirror step after inserting right |
| AvlBalance.InsertKeepsAvl | COP3530_AVLTree/GatorAVL.cpp:99-118 | insertion into an AVL tree with correct stored heights gives such a tree; the height grows by at most 1, and when it grows the new root leans (factor not 0) |
| AvlOrder.InsertTwiceFailsOnce | COP3530_AVLTree/GatorAVL.cpp:104-105 | inserting an absent ID succeeds, and inserting the same ID again, under any name, fails |
| AvlTree.Leftmost | COP3530_AVLTree/GatorAVL.cpp:146-157 | the successor is a node of the subtree that has no left child |
| AvlOrder.LeftmostIsMin | COP3530_AVLTree/GatorAVL.cpp:146-157 | in a BST the leftmost node holds the smallest ID |
| AvlWalks.FindSuccessor | COP3530_AVLTree/GatorAVL.cpp:153-156 | the while loop down the left links reaches the leftmost node of the right subtree |
| AvlTree.RemoveLeftmost | COP3530_AVLTree/GatorAVL.cpp:145-164 | splicing out the successor removes exactly its record from the front of the in-order records and one node from the count |
| AvlTree.Delete | COP3530_AVLTree/GatorAVL.cpp:120-171 | when removal succeeds, the tree has one node fewer |
| AvlOrder.DeleteSpec | COP3530_AVLTree/GatorAVL.cpp:120-171 | on a BST, removal fails exactly when the ID is absent. Otherwise the result is a BST whose key set loses exactly that ID, with one node fewer, and whose in-order records are the old ones without that ID's record |
| AvlOrder.DeleteTwoChildrenSuccessor | COP3530_AVLTree/GatorAVL.cpp:145-164 | removing a node with two children on a BST puts its in-order successor at the root of the subtree: a stored ID above the removed one and the least such ID |
| AvlWalks.RecursiveRemove | COP3530_AVLTree/GatorAVL.cpp:120-171 | the remove with its successor loop returns exactly what Delete defines |
| AvlOrder.InsertThenRemove | COP3530_AVLTree/GatorAVL.cpp:99-171 | on a BST, removing an ID just inserted succeeds and gives back the original in-order records, key set and count |
| AvlOrder.RemoveTwiceSucceedsOnce | COP3530_AVLTree/GatorAVL.cpp:121-123 | removing a present ID succeeds, and removing it again fails |
| AvlWalks.RankWalk | COP3530_AVLTree/GatorAVL.cpp:173-191 | the in-order count-down stops at the record of in-order position `count`; when it finds none, it has counted down by the number of nodes |
| AvlOrder.RankZeroIsLeftmost | COP3530_AVLTree/GatorAVL.cpp:173-191 | in-order position 0 of a non-empty tree is its leftmost node |
| AvlOrder.RankOfRoot | COP3530_AVLTree/GatorAVL.cpp:173-191 | the root sits at in-order position equal to the size of its left subtree |
| AvlOrder.RemoveAtRankSpec | COP3530_AVLTree/GatorAVL.cpp:173-191 | on a BST, a rank exists exactly when it lies in [0, size). Removing the ID found there deletes exactly that position from the in-order records |
| AvlTree.Search | COP3530_AVLTree/GatorAVL.cpp:193-206 | the descent yields a name only for a stored (ID, name) record; SearchSpec gives the converse on a BST |
| AvlOrder.SearchSpec | COP3530_AVLTree/GatorAVL.cpp:193-206 | on a BST, the descent yields a name exactly when the tree holds that (ID, name) record, and not-found exactly when the ID is absent |
| AvlOrder.NameMatchesSpec | COP3530_AVLTree/GatorAVL.cpp:208-220 | an ID is reported for a name exactly when the tree holds that (ID, name) record; there are at most as many reports as nodes |
| AvlWalks.CollectNameMatches | COP3530_AVLTree/GatorAVL.cpp:208-220 | the by-reference accumulator gains the matching IDs in pre-order |
| AvlOrder.InorderNamesSpec | COP3530_AVLTree/GatorAVL.cpp:222-231 | the in-order walk lists one name per node, the i-th being the name of the i-th record in ascending ID order |
| AvlOrder.TraversalsSameNodes | COP3530_AVLTree/GatorAVL.cpp:222-253 | pre-order and post-order list one name per node, the same names as in-order, with the root first or last respectively |
| AvlWalks.CollectInorder | COP3530_AVLTree/GatorAVL.cpp:222-231 | the vector gains the names left, self, right |
| AvlWalks.CollectPreorder | COP3530_AVLTree/GatorAVL.cpp:233-242 | the vector gains the names self, left, right |
| AvlWalks.CollectPostorder | COP3530_AVLTree/GatorAVL.cpp:244-253 | the vector gains the names left, right, self |
| AvlOrder.BstKeysDistinct | COP3530_AVLTree/GatorAVL.cpp:297-305 | in a BST the IDs are pairwise distinct, so the node count equals the number of IDs |
| GatorInput.CheckLettersOrSpaces | COP3530_AVLTree/GatorAVL.cpp:291-296 | the loop accepts a name exactly when every character is a letter or a space |
| GatorInput.CheckLetters | COP3530_AVLTree/GatorAVL_Main.cpp:339-344 | the loop accepts a name exactly when every character is a letter |
| GatorInput.EightDigits | COP3530_AVLTree/GatorAVL_Main.cpp:335-338 | an ID renders in exactly eight decimal characters iff it lies in [10000000, 100000000) |
| GatorAvl.GatorAVL.constructor | COP3530_AVLTree/GatorAVL.cpp:268-271 | an empty tree of size 0 that satisfies the invariant |
| GatorAvl.GatorAVL.Insert | COP3530_AVLTree/GatorAVL.cpp:277-306 | succeeds iff the ID text was accepted, the name is letters and spaces, and the ID is new. On success: the key set gains the ID, size grows by 1, the record joins in ID order, and an AVL tree stays AVL. On failure nothing changes. The invariant is kept |
| GatorAvl.GatorAVL.Remove | COP3530_AVLTree/GatorAVL.cpp:308-330 | succeeds iff the ID text was accepted and the ID is present. On success the key set loses the ID, size drops by 1, and exactly that record leaves. On failure nothing changes. The invariant is kept |
| GatorAvl.GatorAVL.RemoveInorder | COP3530_AVLTree/GatorAVL.cpp:411-423 | succeeds iff 0 <= index < size (index 0 on an empty tree fails and leaves the root empty). On success exactly in-order position `index` leaves the records and size drops by 1. On failure nothing changes |
| GatorAvl.GatorAVL.Search | COP3530_AVLTree/GatorAVL.cpp:332-361 | a term not starting with a digit is a name and never yields a name: it yields IDs iff the name is letters and spaces and some record carries it, and the IDs reported are the matching records' IDs, in the pre-order sequence of the walk. A term starting with a digit is an ID: it yields a name iff the ID was accepted and that (ID, name) record is stored |
| GatorAvl.GatorAVL.Inorder | COP3530_AVLTree/GatorAVL.cpp:363-374 | size names, the i-th being the name of the record with the i-th smallest ID |
| GatorAvl.GatorAVL.Preorder | COP3530_AVLTree/GatorAVL.cpp:376-387 | size names, the same as in-order, the root's first |
| GatorAvl.GatorAVL.Postorder | COP3530_AVLTree/GatorAVL.cpp:389-400 | size names, the same as in-order, the root's last |
| GatorAvl.GatorAVL.GetRoot | COP3530_AVLTree/GatorAVL.cpp:425-427 | the root link itself |
| GatorAvl.GatorAVL.GetSize | COP3530_AVLTree/GatorAVL.cpp:429-431 | the number of distinct IDs stored |
| GatorAvl.GatorAVL.GetLevelCount | COP3530_AVLTree/GatorAVL.cpp:433-440 | the root's stored height, 0 when empty; the real height of the tree whenever the stored heights are correct |
| GatorAvlMain.GatorAVL.constructor | COP3530_AVLTree/GatorAVL_Main.cpp:325-328 | an empty tree of size 0 that satisfies the invariant |
| GatorAvlMain.GatorAVL.Insert | COP3530_AVLTree/GatorAVL_Main.cpp:334-354 | succeeds iff the ID has eight decimal digits, the name is letters only, and the ID is new; on success and on failure, the same state change as the text front end |
| GatorAvlMain.GatorAVL.Remove | COP3530_AVLTree/GatorAVL_Main.cpp:356-370 | succeeds iff the ID has eight digits and is present; on success exactly that record leaves and size drops by 1; on failure nothing changes |
| GatorAvlMain.GatorAVL.RemoveInorder | COP3530_AVLTree/GatorAVL_Main.cpp:442-454 | succeeds iff 0 <= index < size; it finds the record at that in-order position and calls Remove with its ID, so exactly that position leaves the records; on failure nothing changes |
| GatorAvlMain.GatorAVL.SearchId | COP3530_AVLTree/GatorAVL_Main.cpp:372-378 | yields a name iff the ID has eight digits and that (ID, name) record is stored |
| GatorAvlMain.GatorAVL.SearchName | COP3530_AVLTree/GatorAVL_Main.cpp:380-392 | a name with a non-letter yields nothing. Otherwise the result is the matching IDs in pre-order: exactly the IDs of the records carrying that name, and no more of them than size |
| GatorAvlMain.GatorAVL.Inorder | COP3530_AVLTree/GatorAVL_Main.cpp:394-405 | size names in ascending ID order |
| GatorAvlMain.GatorAVL.Preorder | COP3530_AVLTree/GatorAVL_Main.cpp:407-418 | size names, the same as in-order, the root's first |
| GatorAvlMain.GatorAVL.Postorder | COP3530_AVLTree/GatorAVL_Main.cpp:420-431 | size names, the same as in-order, the root's last |
| GatorAvlMain.GatorAVL.GetRoot | COP3530_AVLTree/GatorAVL_Main.cpp:456-458 | the root link itself |
| GatorAvlMain.GatorAVL.GetSize | COP3530_AVLTree/GatorAVL_Main.cpp:460-462 | the number of distinct IDs stored |
| GatorAvlMain.GatorAVL.GetLevelCount | COP3530_AVLTree/GatorAVL_Main.cpp:464-471 | the root's stored height, 0 when empty; the real height whenever the stored heights are correct |
| AvlScenarios.RemovalReachesNullLink | COP3530_AVLTree/GatorAVL.cpp:120-171 | for any naming: insert 20, 10, 30, 25, then remove 20, then remove 10: on the way back up, BalanceNode as written follows a null link, while Delete with the corrected Balance completes |
| AvlScenarios.TwoChildRemovalLeavesStaleHeight | COP3530_AVLTree/GatorAVL.cpp:145-164 | for any naming: insert 1, 2, 3 (an AVL tree rooted at 2), then remove 2: the successor keeps stored height 1 over a tree of two levels |
| AvlScenarios.ZeroFactorDoubleRotationLeavesImbalance | COP3530_AVLTree/GatorAVL.cpp:78-97 | for any naming: removing from an AVL tree makes a node heavy by 2 over a child of factor 0; the double rotation then leaves a node at factor -2 |
| CatchScenarios.SevenInsertsRootLauren | COP3530_AVLTree/CatchTests.cpp:32-39 | the seven descending inserts give a BST, AVL tree rooted at ID 99999996 (Lauren), carrying that ID's name |
| CatchScenarios.InorderRemovalsScenario | COP3530_AVLTree/CatchTests.cpp:26-51 | rank 0 of an empty tree does not exist; rank 3 of the seven is ID 99999996 (Lauren), and removing it puts 99999997 (Jake) at the root; three removals at rank 0 take out 99999993, 99999994 and 99999995 and leave 99999998 (Jack) at the root of three records; rank 9 is then out of range |
| CatchScenarios.FourteenInsertsReachLevelFour | COP3530_AVLTree/CatchTests.cpp:74-92 | the fourteen descending inserts give a BST, AVL tree rooted at ID 99999992 whose root has stored height 4 |
| CatchScenarios.SevenTrimsFromFourteen | COP3530_AVLTree/CatchTests.cpp:94-96 | seven removals at rank 0 take out the seven smallest IDs one by one |
| CatchScenarios.SevenTrimsReachLevelThree | COP3530_AVLTree/CatchTests.cpp:118-126 | after them the root has stored height 3 and both children height 2 |
| CatchScenarios.FourMoreTrimsLeaveLeaves | COP3530_AVLTree/CatchTests.cpp:128-132 | four more removals at rank 0 leave a root over two leaves of height 1 |

## Left out

- Console output: "successful"/"unsuccessful" lines, comma-joined traversals, and the zero-padded printing of IDs. Operations return booleans, options and sequences instead.
- ID text parsing in GatorAVL.cpp (`stol` with its position count and the 8-character check). The ID argument of that class is the outcome: None for rejected text, otherwise the value. Eight characters keep the value below 100000000. Leading whitespace, signs and zero padding accepted by `stol` are not modelled.
- The zero-padded re-formatting in RecursiveRemoveInorder of GatorAVL.cpp. That function renders the found ID as text only to pass it back to Remove; the model passes the ID directly.
- `isalpha` is taken as ASCII letters; locale-dependent letters are not modelled.
- Memory management: `new`, `delete`, ClearTree and the destructor. Subtrees are values.
- Exceptions are used as control flow in the source. They are modelled as None results and early returns. No link is rewritten before a throw, so a failing call leaves the tree unchanged, and the model makes the same promise.
- `size` is an `unsigned int`, and the check `index > size - 1 || index < 0` relies on unsigned wrap-around. It is modelled on integers with the same outcome: failure unless 0 <= index < size. 32-bit overflow of `size` is not modelled.
- The commented-out command loop in GatorAVL_Main.cpp (lines 474-527). It is console input parsing.
- The "Big Tree" and "Duplicate GatorIDs" Catch tests (500 and 7 inserts) are not replayed as concrete runs; evaluating them on literal trees is beyond the verifier's budget. Their size and duplicate assertions follow from the general lemmas InsertSpec, DeleteSpec, InsertTwiceFailsOnce and RemoveTwiceSucceedsOnce. Of their root-ID assertions (CatchTests.cpp:12, 16 and 21), the one at line 16 follows from DeleteTwoChildrenSuccessor once the root holding 99999744 has two children, and the one at line 21 from DeleteSpec, since one key is left; the tree shape after 500 inserts, and so the root 99999744 at line 12, is not established. The other Catch scenarios are replayed on the engine functions, not on the class.
- AvlTree.Delete: no AVL or stored-height promise, because the source keeps neither: see TwoChildRemovalLeavesStaleHeight and ZeroFactorDoubleRotationLeavesImbalance.
- AvlWalks.FindSuccessor: the source's loop stops at the successor's parent, so it can splice the successor out in place. The model walks to the successor itself and splices it out with RemoveLeftmost.
- A factor of 0 on the heavy child selects the double rotation, as in the code (`<` 0 and `>` 0 at GatorAVL.cpp:81 and 89). Textbook AVL would take a single rotation there.
- Search by name reports matches in pre-order (self, left, right), as the code does, not in ascending ID order.

## Findings

| source | as written | input that shows it | evidently intended | confidence | as-written member | corrected member |
|---|---|---|---|---|---|---|
| COP3530_AVLTree/GatorAVL.cpp:78-97 (same at GatorAVL_Main.cpp:138-157) | A two-child removal leaves stale heights. BalanceNode can then see a heavy child of factor 0 that has no inner child, and the double rotation dereferences that null grandchild | Insert 00000020, 00000010, 00000030, 00000025; remove 00000020; remove 00000010 | removing a present ID always succeeds and keeps BST order | not executed | AvlBalance.BalanceAsWritten, AvlScenarios.RemovalReachesNullLink | AvlTree.Balance, AvlOrder.DeleteSpec |
