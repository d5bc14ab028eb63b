# Collision detection core of a 2-D line-segment simulator, in Dafny

The simulator moves line segments ("lines") in a square box. At each time step
it finds every pair of lines that intersect now or within the step. The core
has four parts, and this project models each of them:

- **The quadtree spatial index** (`Quadtree.c`): `make_quadtree`,
  `parse_CollisionWorld_to_Quadtree`, `insert_line`,
  `reassign_current_to_quadrants`, `can_fit` and `detect_collisions`.
  - Every node lives in the global `quadtrees` registry. In the model the
    registry is a sequence of node values, and parent and child pointers are
    registry indices. Class `Quadtree.Quadtrees` owns that sequence.
  - A node's line buffer `lines[0..numOfLines)` with its `capacity` is a
    sequence plus an explicit capacity that doubles when the buffer is full.
  - Proved: the registry invariant `WellFormed` (four children or none, exact
    quarter boxes, depth at most `MAX_DEPTH`, the buffer never overflows, every
    line stored below a root fits its node, a split node keeps only lines that
    fit no quadrant) holds after every insertion.
  - Proved: an insertion at node t grows the multiset of stored lines by
    exactly the inserted line, and adds it to t's subtree. Every node it
    registers lies in t's subtree, and nothing outside that subtree changes.
- **Pair enumeration in `detect_collisions`** (module `CollisionDetection`).
  - The loops are modelled as sequential loops that append to one event list.
  - Specification functions list the pairs the loops visit, in loop order.
  - Lemmas state that every unordered pair inside a node, and every (node line,
    strict-ancestor line) pair, is visited exactly once.
  - Another set of lemmas states that the event list receives exactly the pairs
    whose classification is not `NO_INTERSECTION`, in id order.
- **The geometry kernel** (`IntersectionDetection.c`): `crossProduct`,
  `direction`, `onSegment`, `intersectLines`, `pointInParallelogram` and the
  four-way classifier `intersect`. These are pure functions over exact reals.
  Lemmas cover their symmetries and every branch of `intersect`.
- **The event list and its reducer** (`IntersectionEventListReducer.c`). The
  event list is a linked list class with a ghost node sequence. `reduce`
  splices the right list onto the left and empties the right; it is proved to
  be concatenation of the abstract event sequences. `identity` is the empty
  list.
- **The FIFO ring buffer** (`queue.c`). It is a class over an array of
  `QUEUESIZE` slots. The index invariant relates `first`, `last` and `count`.
  The abstract contents are a window of the array, and FIFO order is stated on
  that window.

Files: `lines.dfy` (vectors and lines), `intersection_detection.dfy`,
`intersection_event_list.dfy` (event list and reducer), `quadtree_nodes.dfy`
(node layout, `can_fit`, the registry invariant), `quadtree.dfy` (insertion),
`detect_collisions.dfy`, `queue.dfy`.

Two details of the code are modelled as written:

- `can_fit` tests the line's box moved by `velocity`, not by `velocity * dt`
  (Quadtree.c:146-149).
- `detect_collisions` calls `intersect(l1, l2)` with two arguments although
  `intersect` takes a time step. The model passes the time step explicitly
  (`CollisionDetection.DetectCollisionsAt`).

## Model

| member | source | states |
|---|---|---|
| QuadtreeNodes.MakeQuadtree | Quadtree.c:4-13 | a new node is an empty leaf with no children; its box is exactly [x_lo, x_hi] x [y_lo, y_hi], and it has the given capacity, depth and parent |
| QuadtreeNodes.CanFitIffEndpointsInBox | Quadtree.c:138-150 | can_fit holds iff both endpoints lie in the half-open box [p1, p2), both as they are and after moving by the velocity |
| QuadtreeNodes.FitsAtMostOneQuadrant | Quadtree.c:53-88 | no line fits two different quadrants of a node: the quarter boxes are disjoint and half-open |
| QuadtreeNodes.QuadrantInsideNode | Quadtree.c:53-88 | a line that fits a quadrant of a non-inverted box fits the box itself |
| QuadtreeNodes.QuadrantsTile | Quadtree.c:53-88 | the four quarter boxes split at the midpoint tile the node's box: each point of the box lies in exactly one quarter, and no point outside it lies in any |
| QuadtreeNodes.GrowsTransitive | Quadtree.c:29-122 | the registry growth relation (nodes stay registered; parent, depth and box never change; children once added stay) composes across successive insertions |
| QuadtreeNodes.WellFormedIsExcept | Quadtree.c:29-122 | the full registry invariant implies the relaxed one that holds between subdivision and reassignment |
| QuadtreeNodes.ShapesOkAfterUpdate | Quadtree.c:32 | replacing one node by a node with the same shape (only its lines and capacity differ) keeps every node's shape conditions |
| QuadtreeNodes.WellFormedAfterUpdate | Quadtree.c:32 | such a replacement that keeps the node's own line invariants keeps the registry well formed and is a growth step |
| QuadtreeNodes.AllLinesAppendNode | Quadtree.c:19-20 | registering a node adds exactly its lines to the multiset of stored lines |
| QuadtreeNodes.AllLinesUpdate | Quadtree.c:32 | replacing a node changes the multiset of stored lines by the difference of the two nodes' lines |
| QuadtreeNodes.AllLinesSameLines | Quadtree.c:41-45 | replacing a node by one that holds the same lines leaves the multiset of stored lines unchanged |
| QuadtreeNodes.AllLinesStore | Quadtree.c:46 | storing one more line at a node adds exactly that line to the multiset of stored lines |
| QuadtreeNodes.ParentDepth | Quadtree.c:54-88 | in a well-shaped registry a node's parent is registered exactly one level up |
| QuadtreeNodes.InSubtreeGrows | Quadtree.c:29-122 | subtree membership of old nodes is the same before and after a growth step |
| QuadtreeNodes.InSubtreeOfParent | Quadtree.c:105-112 | a node below a child of t is in t's subtree |
| QuadtreeNodes.UnchangedOutsideParent | Quadtree.c:105-112 | a change confined to the subtree of a child of t is confined to the subtree of t |
| QuadtreeNodes.UnchangedOutsideTransitive | Quadtree.c:124-135 | two successive changes confined to one subtree are confined to it together |
| QuadtreeNodes.NewBelowParent | Quadtree.c:105-112 | nodes added below a child of t are added below t |
| QuadtreeNodes.NewBelowTransitive | Quadtree.c:124-135 | two successive changes that add nodes only below one node add nodes only below it together |
| QuadtreeNodes.SubtreeLinesGain | Quadtree.c:29-122 | a change confined to a node's subtree, adding nodes only below it, adds the lines it gains to that subtree |
| QuadtreeNodes.SubtreeLinesOfLaterRoot | Quadtree.c:16-24 | the subtree of a root registered after all older nodes, below which every later node lies, holds exactly the lines gained since |
| QuadtreeNodes.NotBelowLater | Quadtree.c:16-24 | no earlier node lies in the subtree of a node registered after all of them |
| Quadtree.PushGrowingFits | Quadtree.c:41-46 | after doubling when full and then writing at numOfLines, the buffer still holds numOfLines <= capacity, and capacity never falls below N |
| Quadtree.PushGrowingOk | Quadtree.c:34-47 | a line stored where insert_line stores it keeps the node's placement invariant |
| Quadtree.Subdivided | Quadtree.c:53-101 | subdivision registers four new nodes in quadrant order and points the node at them; every other node is unchanged |
| Quadtree.SubdividedWellFormed | Quadtree.c:48-102 | subdividing a full leaf above MAX_DEPTH keeps the tree well formed, except that the node may hold lines that now fit a quadrant; the stored lines are unchanged |
| Quadtree.SubdividedAllLines | Quadtree.c:53-101 | subdivision moves no line |
| Quadtree.ReassignToNode | Quadtree.c:113-121 | during reassignment a line that fits no quadrant stays at the node, which has room for it |
| Quadtree.ReassignToQuadrant | Quadtree.c:105-112 | during reassignment a line that fits quadrant k is stored by that quadrant, which is still an open leaf |
| Quadtree.StoreLine | Quadtree.c:32 | storing a line that respects the node's placement keeps the tree well formed, adds exactly that line, and changes only that node |
| Quadtree.InsertIntoOpenLeaf | Quadtree.c:31-33 | a leaf holding fewer than N lines stores the line at numOfLines and nothing else changes |
| Quadtree.InsertAtMaxDepth | Quadtree.c:34-47 | a node at MAX_DEPTH stores the line, doubling its capacity exactly when numOfLines == capacity, and never gains children |
| Quadtree.AlreadySplit | Quadtree.c:104 | a node that already has children passes the line on to the quadrant choice unchanged |
| Quadtree.QuadrantsRegistered | Quadtree.c:48-102 | the quadrants of a node with children are registered one level below it, so the node is above MAX_DEPTH |
| Quadtree.QuadrantChild | Quadtree.c:105-112 | can_fit on quadrant k of a node is the same as fitting the k-th quarter of the node's box |
| Quadtree.DispatchDone | Quadtree.c:105-112 | inserting the line into the quadrant that can hold it completes the insertion at the node |
| Quadtree.StoreAtNode | Quadtree.c:113-121 | a line that fits no quadrant stays at the node, whose buffer doubles when full |
| Quadtree.SubdividedReady | Quadtree.c:48-91 | right after subdivision the node has four distinct, empty, childless quadrants: the state in which reassignment starts |
| Quadtree.SplitReady | Quadtree.c:48-102 | after subdivision and reassignment the node has four quadrants registered after all old nodes, and the stored lines are unchanged |
| Quadtree.GainedOne | Quadtree.c:21-24 | one more insertion adds its line to the lines gained so far |
| Quadtree.ReassignBegin | Quadtree.c:125-131 | copying the node's lines out and clearing its list starts the reinsertion loop |
| Quadtree.ReassignCanInsert | Quadtree.c:132-133 | each reinsertion call meets insert_line's demands: the tree is well formed and the line fits the node |
| Quadtree.ReassignStepToNode | Quadtree.c:132-133 | a reinserted line that fits no quadrant stays at the node |
| Quadtree.ReassignStepToQuadrant | Quadtree.c:132-133 | a reinserted line that fits quadrant k goes to that quadrant |
| Quadtree.ReassignStep | Quadtree.c:132-133 | one more reinsertion keeps the loop's state: the node holds the lines so far that fit no quadrant, and each quadrant holds those that fit it, in order |
| Quadtree.ReassignFinish | Quadtree.c:124-135 | when the loop ends every line of the node is in the quadrant it fits, or at the node if it fits none |
| Quadtree.SubdividedOutside | Quadtree.c:48-102 | subdivision followed by reassignment changes no node outside the split node's subtree |
| Quadtree.InsertedSubtreeLines | Quadtree.c:29-122 | an insertion at t adds the line, and only it, to the multiset of lines held by t's subtree |
| Quadtree.ParsedSubtree | Quadtree.c:16-26 | after parsing, every node from the new root on lies in its subtree, and that subtree holds exactly the world's lines |
| Quadtree.RegisterRoot | Quadtree.c:17-20 | registering a fresh root after a well-formed registry keeps it well formed, with no new lines |
| Quadtree.KeepsEarlierNodes | Quadtree.c:21-24 | insertions below the newest root leave every earlier node untouched |
| Quadtree.ParseStep | Quadtree.c:21-24 | inserting the next world line at the root keeps the registry well formed and adds exactly that line |
| Quadtree.Quadtrees.Subdivide | Quadtree.c:53-101 | the registry becomes Subdivided of the old one; it is ready for reassignment, it has grown, and it holds the same lines |
| Quadtree.Quadtrees.Reassign | Quadtree.c:124-135 | every line of the node is reinserted: each lands in the one quadrant it fits, in order, or stays at the node; nothing else changes, and the stored lines are the same multiset |
| Quadtree.Quadtrees.InsertLine | Quadtree.c:29-122 | the tree stays well formed and gains exactly the line, in the node's subtree; nothing outside that subtree changes and every node added lies in it; an open leaf and a node at MAX_DEPTH store it; a full leaf first splits into four quadrants registered at the end, its lines are reassigned as Reassign states, and the line is then routed from that state; a node with children passes it to the one quadrant it fits (only that quadrant's subtree changes or grows), or keeps it |
| Quadtree.Quadtrees.Dispatch | Quadtree.c:104-121 | the line goes to the first of q1..q4 whose can_fit holds, and stays at the node only if it fits none of them; the insertion below that quadrant changes and adds only nodes of the quadrant's subtree |
| Quadtree.Quadtrees.ParseCollisionWorld | Quadtree.c:16-26 | a new root with the world box is registered after the old nodes, which are unchanged; the registry stays well formed; its lines are the old ones plus exactly the world's lines; every node from the root on lies in the root's subtree, which holds exactly the world's lines |
| IntersectionDetection.CrossProductAntisymmetric | IntersectionDetection.c:160-162 | crossProduct(x1, y1, x2, y2) == -crossProduct(x2, y2, x1, y1) |
| IntersectionDetection.DirectionAtEndpoints | IntersectionDetection.c:148-150 | direction(pi, pj, pk) is zero when pk is pi or pj |
| IntersectionDetection.DirectionSwap | IntersectionDetection.c:148-150 | swapping pi and pj negates direction |
| IntersectionDetection.OnSegmentSymmetric | IntersectionDetection.c:154-157 | onSegment is symmetric in the segment's two endpoints |
| IntersectionDetection.OnSegmentEndpoints | IntersectionDetection.c:154-157 | both endpoints are on the segment |
| IntersectionDetection.IntersectLinesSwap | IntersectionDetection.c:109-135 | intersectLines is unchanged when the two segments are swapped |
| IntersectionDetection.IntersectLinesReverse | IntersectionDetection.c:109-135 | intersectLines is unchanged when either segment's endpoints are reversed |
| IntersectionDetection.IntersectLinesSharedEndpoint | IntersectionDetection.c:109-135 | segments that share an endpoint intersect |
| IntersectionDetection.StraddleCommonPoint | IntersectionDetection.c:116-121 | segments that straddle each other share a point, which lies on both at parameters in [0, 1] |
| IntersectionDetection.StraddleBoxesOverlap | IntersectionDetection.c:116-121 | segments that straddle each other have overlapping bounding boxes |
| IntersectionDetection.IntersectLinesBoxesOverlap | IntersectionDetection.c:109-135 | segments that intersectLines reports have overlapping bounding boxes |
| IntersectionDetection.PointOnSideLineNotInside | IntersectionDetection.c:95-106 | a point on the line through either pair of opposite sides is not strictly inside the parallelogram |
| IntersectionDetection.CornersNotInside | IntersectionDetection.c:95-106 | no corner of the parallelogram is inside it |
| IntersectionDetection.CollapsedParallelogram | IntersectionDetection.c:95-106 | a parallelogram collapsed onto a single segment has no point inside |
| IntersectionDetection.SegmentMeetsBoxes | IntersectionDetection.c:38-50 | if l1 meets a segment between two corners of the swept parallelogram, the fast reject does not fire |
| IntersectionDetection.IntersectDisjointBoxes | IntersectionDetection.c:38-50 | when l1's box misses the box of the swept parallelogram, the result is NO_INTERSECTION |
| IntersectionDetection.IntersectAlreadyIff | IntersectionDetection.c:49-54 | the result is ALREADY_INTERSECTED exactly when the two segments intersect at the start of the step: the fast reject never hides such a pair |
| IntersectionDetection.CrossingDefeatsReject | IntersectionDetection.c:49-58 | if l1 crosses any edge of the swept parallelogram, the fast reject does not fire |
| IntersectionDetection.IntersectTwoCrossings | IntersectionDetection.c:56-62 | with exactly two edge crossings the result is L2_WITH_L1 |
| IntersectionDetection.IntersectNoCrossing | IntersectionDetection.c:64-71 | with no edge crossing the result is L1_WITH_L2 or NO_INTERSECTION, and past the fast reject it is L1_WITH_L2 exactly when both endpoints of l1 are strictly inside the parallelogram |
| IntersectionDetection.IntersectOneCrossing | IntersectionDetection.c:64-91 | with exactly one edge crossing the result is never NO_INTERSECTION; an enclosed l1 gives L1_WITH_L2; otherwise the tag follows the crossed rail and the sign of the angle |
| IntersectionDetection.CollapsedRail | IntersectionDetection.c:52-58 | a rail collapsed to an endpoint of l2 is crossed only where l1 already touches l2 |
| IntersectionDetection.IntersectWithoutRelativeMotion | IntersectionDetection.c:26-92 | with no relative motion (or a zero time step) the result is ALREADY_INTERSECTED for segments that meet and NO_INTERSECTION otherwise |
| IntersectionEventList.EventsLength | IntersectionEventListReducer.c:23-27 | a chain of n nodes holds n events |
| IntersectionEventList.EventsAppend | IntersectionEventListReducer.c:23-27 | the events of two joined chains are the events of the first followed by those of the second |
| IntersectionEventList.LinkedAppend | IntersectionEventListReducer.c:24-25 | linking the left tail to the right head makes one chain of both lists |
| IntersectionEventList.LinkedNoRepeat | IntersectionEventListReducer.c:24 | a chain that ends in a null `next` visits no node twice |
| IntersectionEventList.LinkedUnique | IntersectionEventListReducer.c:24 | a null-terminated chain has no repeated node |
| IntersectionEventList.WithinAppend | IntersectionEventListReducer.c:23-27 | the nodes of the joined chain are owned by the union of the two lists |
| IntersectionEventList.EventList.Acyclic | IntersectionEventListReducer.c:24 | a valid list is acyclic |
| IntersectionEventList.EventList.constructor | IntersectionEventListReducer.c:35 | a new list is empty: null head and tail, no events |
| IntersectionEventList.EventList.AppendNode | Quadtree.c:194-196 | the new event is appended at the tail; the old nodes are unchanged, and one fresh node is added |
| IntersectionEventListReducer.Reduce | IntersectionEventListReducer.c:4-31 | left's events become old left ++ old right, neither lost nor duplicated, and right becomes empty (head and tail null, owning no node); an empty left takes right's head and tail; an empty right leaves left unchanged; otherwise left's old tail links to right's head and right's tail becomes left's tail |
| IntersectionEventListReducer.Identity | IntersectionEventListReducer.c:34-36 | the value becomes the empty list, the unit of Reduce |
| Queue.WindowPush | queue.c:44-48 | writing x to the slot after the last element extends the queue window by x at the back |
| Queue.WindowPop | queue.c:57-59 | advancing first by one slot drops the front element from the window |
| Queue.Queue.InitQueue | queue.c:33-38 | first = 0, last = QUEUESIZE - 1, count = 0: the index invariant holds and the queue is empty |
| Queue.Queue.Enqueue | queue.c:40-49 | a full queue (count >= QUEUESIZE) is left unchanged; otherwise last advances by one slot modulo QUEUESIZE, x is written to that slot and no other, count grows by one, first stays, and x joins the back of the contents; the index invariant is preserved |
| Queue.Queue.Dequeue | queue.c:51-63 | returns the front element and removes it, leaving the rest in order; first advances by one slot modulo QUEUESIZE, count drops by one, last stays, and the slots are not written; the index invariant is preserved |
| Queue.Queue.Empty | queue.c:65-69 | returns 1 exactly when the queue holds no element, and 0 otherwise |
| CollisionDetection.Canonical | Quadtree.c:188-192 | the pair is put in id order: the same two lines, the smaller id first, and strictly ordered when the ids differ |
| CollisionDetection.CanonicalSymmetric | Quadtree.c:188-192 | the two orders of a pair of lines with different ids give the same ordered pair |
| CollisionDetection.ReportAppend | Quadtree.c:179-227 | the events of two runs of pairs, one after the other, are the first run's events followed by the second's |
| CollisionDetection.ReportLength | Quadtree.c:194-196 | each examined pair appends at most one event |
| CollisionDetection.ReportComplete | Quadtree.c:188-197 | every examined pair with different ids whose ordered classification is not NO_INTERSECTION is reported as that ordered pair with its type |
| CollisionDetection.ReportSound | Quadtree.c:188-197 | every reported event is an examined pair in strict id order whose type is the one intersect gives it, never NO_INTERSECTION |
| CollisionDetection.NodeChecksSound | Quadtree.c:183-186 | every pair listed for the first i rows is (lines[x], lines[y]) with x < i and x < y |
| CollisionDetection.NodeChecksComplete | Quadtree.c:183-186 | every (lines[x], lines[y]) with x < y and x in the first i rows is listed |
| CollisionDetection.NodeChecksNoDups | Quadtree.c:183-186 | a node with distinct lines yields no pair twice |
| CollisionDetection.NodeChecksLength | Quadtree.c:183-186 | the first i rows hold i * (2n - i - 1) / 2 pairs |
| CollisionDetection.NodeChecksCount | Quadtree.c:183-186 | a node of n lines yields n(n-1)/2 pairs |
| CollisionDetection.NodeChecksOnce | Quadtree.c:183-198 | the pairs of a node are exactly its unordered pairs (lines[x], lines[y]) with x < y, n(n-1)/2 of them, each once when the lines are distinct |
| CollisionDetection.CrossChecksSound | Quadtree.c:208-211 | every pair listed is (cur[t], anc[a]) for a visited ancestor line a |
| CollisionDetection.CrossChecksComplete | Quadtree.c:208-211 | every (cur[t], anc[a]) with a visited is listed |
| CollisionDetection.CrossChecksNoDups | Quadtree.c:208-211 | distinct lines on both sides yield no pair twice |
| CollisionDetection.CrossChecksLength | Quadtree.c:208-211 | s ancestor lines against n node lines give s * n pairs |
| CollisionDetection.CrossChecksOnce | Quadtree.c:208-224 | the pairs of a node against one ancestor are exactly all (node line, ancestor line) pairs, |anc| * |cur| of them, each once when the lines are distinct |
| CollisionDetection.ShapesAncestry | Quadtree.c:202-205 | in every tree the quadtree builds, the parent chain of each node can be walked up to depth 0 |
| CollisionDetection.AncestorAt | Quadtree.c:202-205 | following parent d times reaches a registered node exactly d levels up |
| CollisionDetection.AncestorShift | Quadtree.c:203-205 | walking d + 1 steps from a node is walking d steps from its parent |
| CollisionDetection.AncestorIsAncestor | Quadtree.c:202-205 | every node the walk reaches is a strict ancestor of the current node |
| CollisionDetection.AncestorReached | Quadtree.c:202-205 | every strict ancestor is reached, by the walk whose length is the difference of depths: the walk visits the parents 1..depth |
| CollisionDetection.AncestorsDistinctAt | Quadtree.c:201-225 | the id condition on all ancestors 1..n holds for each one |
| CollisionDetection.AncestorsDistinctIntro | Quadtree.c:201-225 | the id condition on each ancestor 1..n gives it on all of them |
| CollisionDetection.NodeChecksDistinct | Quadtree.c:183-198 | inside a node whose lines have distinct ids, every pair has two different ids |
| CollisionDetection.CrossChecksDistinct | Quadtree.c:208-224 | against an ancestor sharing no id with the node, every pair has two different ids |
| CollisionDetection.AncestorChecksDistinct | Quadtree.c:201-225 | every pair of a node with its ancestors has two different ids |
| CollisionDetection.ComparableDistinct | Quadtree.c:179-227 | in a tree whose ids meet intersect's demand, every examined pair has two different ids, so the swap always yields compareLines(l1, l2) < 0 |
| CollisionDetection.IdsDistinctComparable | Quadtree.c:179-227 | a tree whose stored lines all have different ids meets that demand |
| CollisionDetection.SlotsInAllLines | Quadtree.c:16-24 | two different line slots of the registry are two elements of its multiset of stored lines, counted apart |
| CollisionDetection.WorldIdsDistinct | Quadtree.c:16-24 | a registry holding exactly the lines of a world whose ids differ has no id in two slots |
| CollisionDetection.WorldComparable | Quadtree.c:16-24 | a well-formed tree holding exactly the lines of such a world, as parsing builds into an empty registry, can be walked up and meets intersect's demand, so DetectCollisions may be called on it |
| CollisionDetection.AncestorChecksSound | Quadtree.c:201-225 | every pair listed for the ancestor levels 1..i pairs a line of the node with a line of the ancestor d steps up, for some d in 1..i |
| CollisionDetection.AncestorChecksComplete | Quadtree.c:201-225 | every pair of a line of the node with a line of the ancestor d steps up, d in 1..i, is listed |
| CollisionDetection.AncestorChecksNoDups | Quadtree.c:201-225 | when the tree's ids all differ, no pair of a node with its ancestors is listed twice |
| CollisionDetection.AncestorChecksOnce | Quadtree.c:201-227 | the pairs of a node with its ancestors are exactly the pairs (node line, line of a strict ancestor), each once when the tree's ids all differ |
| CollisionDetection.AllChecksSound | Quadtree.c:179-227 | every pair listed for nodes 0..m-1 pairs two lines of one node in storage order, or a line of a node with a line of a strict ancestor |
| CollisionDetection.AllChecksComplete | Quadtree.c:179-227 | every pair of a node, own or with an ancestor, is listed for each prefix of nodes that contains it |
| CollisionDetection.AllChecksNoDups | Quadtree.c:179-227 | when the tree's ids all differ, no pair is listed twice over the whole tree |
| CollisionDetection.AllChecksOnce | Quadtree.c:179-227 | over the whole tree, the pairs are exactly each node's pairs (lines[x], lines[y]) with x < y and its pairs with every strict ancestor, each once when the tree's ids all differ |
| CollisionDetection.NodePairs | Quadtree.c:183-198 | the nested loops over i < j list exactly the node's pairs, in the order they are examined |
| CollisionDetection.CrossPairs | Quadtree.c:208-224 | the nested loops over check_source_index and tree_index list exactly the node-against-ancestor pairs, in order |
| CollisionDetection.WalkUp | Quadtree.c:202-205 | the walk of i + 1 parent steps reaches the ancestor i + 1 levels up |
| CollisionDetection.AncestorPairs | Quadtree.c:201-225 | the loop over ancestor levels lists the node's pairs with each ancestor 1..depth in turn |
| CollisionDetection.CollisionPairs | Quadtree.c:179-227 | the loop over the registry lists, node by node, the node's own pairs and then its ancestor pairs |
| CollisionDetection.TestPair | Quadtree.c:188-197 | swap into id order, classify, and append an event only when the type is not NO_INTERSECTION |
| CollisionDetection.TestPairs | Quadtree.c:188-197 | examining the pairs in order appends exactly their reported events, in order |
| CollisionDetection.DetectCollisions | Quadtree.c:178-227 | the event list gains exactly the reported events of all pairs the loops visit, in serial loop order |
| CollisionDetection.DetectCollisionsAt | Quadtree.c:178-227 | the same, with intersect at the given time step as the classifier |

## Left out

- Parallelism: the `cilk_for` loops of `detect_collisions` are sequential loops
  in index order. The reducer view is one event list. Cilk's reducer
  registration and the `REDUCER_VIEW` machinery are not modelled. `Reduce` is
  proved to be concatenation, so any serial-order combination of views yields
  the serial events.
- IntersectionEventListReducer.Reduce: it requires the two lists to be
  different lists with no node in common, which the Cilk runtime guarantees
  for distinct views; the source does not test it.
- Memory management: `malloc`, `realloc` and `free`, and failure of any of
  them, are not modelled. Buffer growth is the capacity doubling plus a
  sequence append. `delete_Quadtree` and `IntersectionEventList_destroy` only
  release memory and are not modelled.
- Floating point: coordinates are exact reals, so rounding is not modelled.
  Dafny's real division matches the source's `/2` on exact values.
- `getIntersectionPoint`: not used by `intersect`, and it divides by a value
  that may be zero; not modelled.
- `Vec_angle` is not part of this model. It is the function parameter
  `angleOf`; only the sign of its result matters.
- Vec.h and Line.h are not part of this model. `compareLines` is modelled as a
  comparison of line ids (a strict total order on different ids).
  `Vec_add`, `Vec_subtract` and `Vec_multiply` are plain vector arithmetic.
  `top_left` and `bottom_right` are the componentwise minimum and maximum of
  the endpoints. `relative_vector` is p2 - p1.
- IntersectionEventList.c is not part of this model. `IntersectionEventList_make`
  is modelled as the empty list (`EventList` constructor), and
  `IntersectionEventList_appendNode` as an append at the tail whose `next` is
  null (`EventList.AppendNode`).
- Queue.Queue.constructor: it only allocates the `QUEUESIZE` slots that the C
  struct embeds, so it has no counterpart in queue.c; `InitQueue` sets the
  indices.
- queue.h is not part of this model. `QUEUESIZE` is 1000 here; only its being
  positive matters. The element type stands for `void*`.
- Queue.Queue.Dequeue: it requires `count > 0`, because the source has no
  emptiness check (it is commented out at queue.c:55) and dequeuing an empty
  queue reads a stale slot and drives `count` negative.
- CollisionDetection.DetectCollisions: it requires that every pair it examines
  has two different ids, which is the assertion at the head of `intersect`
  (IntersectionDetection.c:27). The swap-then-classify step of a pair with
  equal ids, where that assertion would fail, yields no event in the model.
- CollisionDetection.DetectCollisions: the classifier is abstracted as a
  function value, together with a ghost function giving the events of one
  pair. `DetectCollisionsAt` instantiates it with `intersect` at a time step.
- CollisionDetection.DetectCollisions: the pairs are listed first
  (`CollisionPairs`) and examined afterwards in the same order (`TestPairs`).
  The source interleaves listing and examining. `intersect` has no side
  effects, so the appended events and their order are the same.
- Quadtree.Quadtrees.Subdivide: the four new nodes are registered at
  subdivision time. The source registers them after reassignment
  (Quadtree.c:91-101). Reassignment of at most N lines into four empty leaves
  of capacity N never subdivides again, so it registers no node and the
  registry order is the same.
- Quadtree.Quadtrees.ParseCollisionWorld: the world box (`BOX_XMIN`,
  `BOX_YMIN`, `BOX_XMAX`, `BOX_YMAX`, from a header that is not part of this
  model) is the pair of parameters `boxMin` and `boxMax`. The world's line
  array is a sequence. The function's return value is the root's registry
  index.
- The insertion lemmas take the registry invariant `WellFormed` as a
  precondition. The source asserts four children or none but does not check
  the rest. Every registry the model's methods build meets it.
- `insert_line` asserts at Quadtree.c:35-38 that a node at MAX_DEPTH has no
  children; the model proves this from the invariant rather than checking it.
- Quadtree_test.c targets an older interface and is not modelled.
