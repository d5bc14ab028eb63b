/**
 * Building the quadtree (Quadtree.c): insertion of a line into a node, the
 * subdivision of a full node into four quadrants with the reinsertion of its
 * lines, and the parse of a world's lines into a fresh root.
 *
 * The `quadtrees` registry with its count `numQuadtrees` is the field `nodes`
 * of a `Quadtrees` object; every method that adds a node appends it there.
 */
module Quadtree {
  import opened Lines
  import opened QuadtreeNodes

  /** The first test of insert_line: a leaf that still has room below N. */
  predicate IsOpenLeaf(n: Node)
  {
    |n.lines| < N && !HasChildren(n)
  }

  /** Line 32: the line is written at index numOfLines, which is incremented. */
  function Push(n: Node, l: Line): (r: Node)
    ensures SameShape(n, r) && r.capacity == n.capacity
    ensures r.lines == n.lines + [l]
  {
    n.(lines := n.lines + [l])
  }

  /** Lines 41-46 and 115-120: the buffer doubles when full, then the line is written at index numOfLines. */
  function PushGrowing(n: Node, l: Line): (r: Node)
    ensures SameShape(n, r) && r.lines == n.lines + [l]
    ensures r.capacity == if |n.lines| == n.capacity then 2 * n.capacity else n.capacity
  {
    var grown := if |n.lines| == n.capacity then n.(capacity := 2 * n.capacity) else n;
    grown.(lines := grown.lines + [l])
  }

  /** Doubling keeps the buffer from overflowing. */
  lemma PushGrowingFits(n: Node, l: Line)
    requires BufferOk(n)
    ensures BufferOk(PushGrowing(n, l))
  {
  }

  /** Two nodes with the same box have the same quarters. */
  lemma SameQuarters(a: Node, b: Node, l: Line)
    requires a.p1 == b.p1 && a.p2 == b.p2
    ensures forall k :: 1 <= k <= 4 ==> FitsQuadrant(l, a, k) == FitsQuadrant(l, b, k)
  {
  }

  /** A line stored where insert_line stores it keeps the node's placement invariant. */
  lemma PushGrowingOk(n: Node, l: Line)
    requires LinesOk(n) && (n.parent.Some? ==> CanFit(l, n))
    requires HasChildren(n) ==> FitsNoQuadrant(l, n)
    requires !HasChildren(n) && n.depth < MAX_DEPTH ==> |n.lines| < N
    ensures LinesOk(PushGrowing(n, l))
  {
    var r := PushGrowing(n, l);
    PushGrowingFits(n, l);
    forall x | x in r.lines
      ensures (r.parent.Some? ==> CanFit(x, r)) && (HasChildren(r) ==> FitsNoQuadrant(x, r))
    {
      SameQuarters(n, r, x);
    }
  }

  /** Taking one more line of a sequence appends that line. */
  lemma TakeOneMore(s: seq<Line>, i: nat)
    requires i < |s|
    ensures s[..i + 1] == s[..i] + [s[i]]
  {
  }

  /** The registry index of quadrant k. */
  function Child(n: Node, k: int): nat
    requires 1 <= k <= 4 && HasChildren(n) && FourOrNone(n)
  {
    Quadrant(n, k).value
  }

  // ---------------------------------------------------------------------------
  // Subdivision

  /** Quadrant k of node t as make_quadtree builds it: empty, capacity N, one level deeper. */
  function Quarter(n: Node, k: int, t: nat): (r: Node)
    requires 1 <= k <= 4
    ensures r.lines == [] && !HasChildren(r) && FourOrNone(r) && r.capacity == N
    ensures r.p1 == QuadrantLo(n, k) && r.p2 == QuadrantHi(n, k)
    ensures r.depth == n.depth + 1 && r.parent == Some(t)
  {
    MakeQuadtree(N, QuadrantLo(n, k).x, QuadrantLo(n, k).y, QuadrantHi(n, k).x, QuadrantHi(n, k).y, n.depth + 1, Some(t))
  }

  /** The registry after lines 53-101: node t points at four new nodes appended in quadrant order. */
  function Subdivided(nodes: seq<Node>, t: nat): (r: seq<Node>)
    requires t < |nodes|
    ensures |r| == |nodes| + 4
    ensures forall i :: 0 <= i < |nodes| && i != t ==> SameAt(nodes, r, i)
    ensures r[t] == nodes[t].(quadrant1 := Some(|nodes|), quadrant2 := Some(|nodes| + 1),
                              quadrant3 := Some(|nodes| + 2), quadrant4 := Some(|nodes| + 3))
    ensures forall k :: 1 <= k <= 4 ==> r[|nodes| + k - 1] == Quarter(nodes[t], k, t)
  {
    var n := nodes[t];
    var k := |nodes|;
    nodes[t := n.(quadrant1 := Some(k), quadrant2 := Some(k + 1), quadrant3 := Some(k + 2), quadrant4 := Some(k + 3))]
    + [Quarter(n, 1, t)] + [Quarter(n, 2, t)] + [Quarter(n, 3, t)] + [Quarter(n, 4, t)]
  }

  /** A new quadrant is a childless node one level below t, which now points at it. */
  lemma SubdividedShapeNew(nodes: seq<Node>, t: nat, i: nat)
    requires WellFormed(nodes) && t < |nodes| && !HasChildren(nodes[t]) && nodes[t].depth < MAX_DEPTH
    requires |nodes| <= i < |nodes| + 4
    ensures ShapeOk(Subdivided(nodes, t), i)
  {
    assert Subdivided(nodes, t)[i] == Quarter(nodes[t], i - |nodes| + 1, t);
  }

  /** A node other than t keeps its shape: its parent and children keep their boxes and depths. */
  lemma SubdividedShapeOld(nodes: seq<Node>, t: nat, i: nat)
    requires WellFormed(nodes) && t < |nodes| && !HasChildren(nodes[t]) && nodes[t].depth < MAX_DEPTH
    requires i < |nodes| && i != t
    ensures ShapeOk(Subdivided(nodes, t), i)
  {
    var after := Subdivided(nodes, t);
    assert ShapeOk(nodes, i);
    if HasChildren(nodes[i]) {
      assert ChildOk(nodes, i, 1) && ChildOk(nodes, i, 2) && ChildOk(nodes, i, 3) && ChildOk(nodes, i, 4);
      assert ChildOk(after, i, 1) && ChildOk(after, i, 2) && ChildOk(after, i, 3) && ChildOk(after, i, 4);
    }
  }

  /** Node t points at its four new quadrants, in quadrant order. */
  lemma SubdividedShapeSplit(nodes: seq<Node>, t: nat)
    requires WellFormed(nodes) && t < |nodes| && !HasChildren(nodes[t]) && nodes[t].depth < MAX_DEPTH
    ensures ShapeOk(Subdivided(nodes, t), t)
  {
    var after := Subdivided(nodes, t);
    var k := |nodes|;
    assert ShapeOk(nodes, t);
    assert after[k] == Quarter(nodes[t], 1, t);
    assert after[k + 1] == Quarter(nodes[t], 2, t);
    assert after[k + 2] == Quarter(nodes[t], 3, t);
    assert after[k + 3] == Quarter(nodes[t], 4, t);
    assert ChildOk(after, t, 1) && ChildOk(after, t, 2) && ChildOk(after, t, 3) && ChildOk(after, t, 4);
  }

  lemma SubdividedShapeAt(nodes: seq<Node>, t: nat, i: nat)
    requires WellFormed(nodes) && t < |nodes| && !HasChildren(nodes[t]) && nodes[t].depth < MAX_DEPTH
    requires i < |nodes| + 4
    ensures ShapeOk(Subdivided(nodes, t), i)
  {
    if i >= |nodes| {
      SubdividedShapeNew(nodes, t, i);
    } else if i != t {
      SubdividedShapeOld(nodes, t, i);
    } else {
      SubdividedShapeSplit(nodes, t);
    }
  }

  /** Node i after subdivision: old nodes keep their lines and frame, new quadrants are empty. */
  lemma SubdividedLinesAt(nodes: seq<Node>, t: nat, i: nat)
    requires WellFormed(nodes) && t < |nodes| && !HasChildren(nodes[t]) && nodes[t].depth < MAX_DEPTH
    requires i < |nodes| + 4
    ensures PlacedOkAt(Subdivided(nodes, t), i) && (i != t ==> PinnedOkAt(Subdivided(nodes, t), i))
    ensures i < |nodes| ==> FrameKeptAt(nodes, Subdivided(nodes, t), i)
  {
    var after := Subdivided(nodes, t);
    if i < |nodes| {
      assert LinesOkAt(nodes, i);
      if i != t {
        assert SameAt(nodes, after, i);
      }
    } else {
      assert after[i] == Quarter(nodes[t], i - |nodes| + 1, t);
    }
  }

  /** Subdivision moves no line: the new quadrants start empty. */
  lemma SubdividedAllLines(nodes: seq<Node>, t: nat)
    requires t < |nodes|
    ensures AllLines(Subdivided(nodes, t)) == AllLines(nodes)
  {
    var n := nodes[t];
    var k := |nodes|;
    var s0 := nodes[t := n.(quadrant1 := Some(k), quadrant2 := Some(k + 1), quadrant3 := Some(k + 2), quadrant4 := Some(k + 3))];
    AllLinesSameLines(nodes, t, s0[t]);
    AllLinesAppendNode(s0, Quarter(n, 1, t));
    AllLinesAppendNode(s0 + [Quarter(n, 1, t)], Quarter(n, 2, t));
    AllLinesAppendNode(s0 + [Quarter(n, 1, t)] + [Quarter(n, 2, t)], Quarter(n, 3, t));
    AllLinesAppendNode(s0 + [Quarter(n, 1, t)] + [Quarter(n, 2, t)] + [Quarter(n, 3, t)], Quarter(n, 4, t));
  }

  /** Subdivision keeps the tree well formed, except that t may hold lines that now fit a quadrant. */
  lemma SubdividedWellFormed(nodes: seq<Node>, t: nat)
    requires WellFormed(nodes) && t < |nodes| && !HasChildren(nodes[t]) && nodes[t].depth < MAX_DEPTH
    ensures WellFormedExcept(Subdivided(nodes, t), t) && Grows(nodes, Subdivided(nodes, t))
    ensures AllLines(Subdivided(nodes, t)) == AllLines(nodes)
  {
    var after := Subdivided(nodes, t);
    forall i | 0 <= i < |after|
      ensures ShapeOk(after, i)
      ensures PlacedOkAt(after, i) && (i != t ==> PinnedOkAt(after, i))
      ensures i < |nodes| ==> FrameKeptAt(nodes, after, i)
    {
      SubdividedShapeAt(nodes, t, i);
      SubdividedLinesAt(nodes, t, i);
    }
    SubdividedAllLines(nodes, t);
  }

  // ---------------------------------------------------------------------------
  // Reassignment

  /** The lines of ls that fit quadrant k of n, in order. */
  function Fitting(ls: seq<Line>, n: Node, k: int): (r: seq<Line>)
    requires 1 <= k <= 4
    ensures |r| <= |ls|
  {
    if ls == [] then []
    else Fitting(ls[..|ls| - 1], n, k) + (if FitsQuadrant(ls[|ls| - 1], n, k) then [ls[|ls| - 1]] else [])
  }

  /** The lines of ls that fit none of n's quadrants, in order. */
  function Unfitting(ls: seq<Line>, n: Node): (r: seq<Line>)
    ensures |r| <= |ls|
  {
    if ls == [] then []
    else Unfitting(ls[..|ls| - 1], n) + (if FitsNoQuadrant(ls[|ls| - 1], n) then [ls[|ls| - 1]] else [])
  }

  lemma FittingSnoc(ls: seq<Line>, x: Line, n: Node, k: int)
    requires 1 <= k <= 4
    ensures Fitting(ls + [x], n, k) == Fitting(ls, n, k) + (if FitsQuadrant(x, n, k) then [x] else [])
  {
    assert (ls + [x])[..|ls|] == ls;
  }

  lemma UnfittingSnoc(ls: seq<Line>, x: Line, n: Node)
    ensures Unfitting(ls + [x], n) == Unfitting(ls, n) + (if FitsNoQuadrant(x, n) then [x] else [])
  {
    assert (ls + [x])[..|ls|] == ls;
  }

  /** The four quadrants of a node are four distinct nodes other than the node itself. */
  predicate DistinctChildren(n: Node, t: nat)
    requires HasChildren(n) && FourOrNone(n)
  {
    var c1, c2, c3, c4 := Child(n, 1), Child(n, 2), Child(n, 3), Child(n, 4);
    c1 != c2 && c1 != c3 && c1 != c4 && c2 != c3 && c2 != c4 && c3 != c4
    && c1 != t && c2 != t && c3 != t && c4 != t
  }

  /**
   * The effect on quadrant k when a line that fits it is inserted at a node with
   * children: only the quadrant's subtree changes, every node added lies in
   * that subtree, and a quadrant that is an open leaf simply stores the line.
   */
  ghost predicate Dispatched(before: seq<Node>, after: seq<Node>, l: Line, t: nat, k: int)
    requires t < |before| && 1 <= k <= 4
  {
    HasChildren(before[t]) && FourOrNone(before[t]) && FitsQuadrant(l, before[t], k) && Child(before[t], k) < |before|
    ==>
      var c := Child(before[t], k);
      && UnchangedOutside(before, after, c) && NewBelow(before, after, c)
      && (IsOpenLeaf(before[c]) ==> after == before[c := Push(before[c], l)])
  }

  /**
   * Lines 105-121 from a node t with children in registry `mid`: a line that
   * fits no quadrant stays at t, and one that fits quadrant k goes there.
   */
  ghost predicate Routed(mid: seq<Node>, after: seq<Node>, l: Line, t: nat)
    requires t < |mid|
  {
    && (HasChildren(mid[t]) && FitsNoQuadrant(l, mid[t]) ==> after == mid[t := PushGrowing(mid[t], l)])
    && (forall k :: 1 <= k <= 4 ==> Dispatched(mid, after, l, t, k))
  }

  /** The state of reassignment after i of the node's lines `current` have been inserted again. */
  ghost predicate Reassigned(start: seq<Node>, nodes: seq<Node>, box: Node, current: seq<Line>, i: nat, t: nat)
    requires i <= |current| && t < |start| && HasChildren(box) && FourOrNone(box)
  {
    && |nodes| == |start|
    && nodes[t] == start[t].(lines := Unfitting(current[..i], box))
    && (forall k :: 1 <= k <= 4 ==>
          Child(box, k) < |start| && nodes[Child(box, k)] == start[Child(box, k)].(lines := Fitting(current[..i], box, k)))
    && (forall j :: 0 <= j < |nodes| && j != t && !IsQuadrantOf(box, j) ==> SameAt(start, nodes, j))
  }

  /** A reinserted line that fits no quadrant stays at the node, which has room for it. */
  lemma ReassignToNode(start: seq<Node>, before: seq<Node>, after: seq<Node>, box: Node,
                       current: seq<Line>, i: nat, t: nat)
    requires i < |current| <= N && t < |start| && HasChildren(box) && FourOrNone(box) && DistinctChildren(box, t)
    requires start[t].lines == [] && N <= start[t].capacity && box.p1 == start[t].p1 && box.p2 == start[t].p2
    requires Reassigned(start, before, box, current, i, t)
    requires FitsNoQuadrant(current[i], box)
    requires after == before[t := PushGrowing(before[t], current[i])]
    ensures Reassigned(start, after, box, current, i + 1, t)
  {
    var x := current[i];
    TakeOneMore(current, i);
    UnfittingSnoc(current[..i], x, box);
    forall k | 1 <= k <= 4
      ensures Fitting(current[..i + 1], box, k) == Fitting(current[..i], box, k)
    {
      FittingSnoc(current[..i], x, box, k);
    }
  }

  /** A reinserted line that fits quadrant k is stored by that quadrant, which is still an open leaf. */
  lemma ReassignToQuadrant(start: seq<Node>, before: seq<Node>, after: seq<Node>, box: Node,
                           current: seq<Line>, i: nat, t: nat, k: int)
    requires i < |current| <= N && t < |start| && HasChildren(box) && FourOrNone(box) && DistinctChildren(box, t)
    requires 1 <= k <= 4 && FitsQuadrant(current[i], box, k)
    requires Reassigned(start, before, box, current, i, t)
    requires !HasChildren(start[Child(box, k)]) && start[Child(box, k)].lines == []
    requires IsOpenLeaf(before[Child(box, k)]) ==> after == before[Child(box, k) := Push(before[Child(box, k)], current[i])]
    ensures Reassigned(start, after, box, current, i + 1, t)
  {
    var x := current[i];
    TakeOneMore(current, i);
    UnfittingSnoc(current[..i], x, box);
    forall j | 1 <= j <= 4
      ensures Fitting(current[..i + 1], box, j) == Fitting(current[..i], box, j) + (if j == k then [x] else [])
    {
      FittingSnoc(current[..i], x, box, j);
      if j != k {
        FitsAtMostOneQuadrant(x, box, j, k);
      }
    }
    assert IsOpenLeaf(before[Child(box, k)]);
  }

  // ---------------------------------------------------------------------------
  // Storing a line at a node

  /** Storing a line at t that respects t's placement keeps the tree well formed and changes t alone. */
  lemma StoreLine(nodes: seq<Node>, t: nat, l: Line, n: Node)
    requires WellFormed(nodes) && t < |nodes| && SameShape(nodes[t], n)
    requires n.lines == nodes[t].lines + [l] && LinesOk(n)
    ensures WellFormed(nodes[t := n]) && Grows(nodes, nodes[t := n])
    ensures AllLines(nodes[t := n]) == AllLines(nodes) + multiset{l}
    ensures UnchangedOutside(nodes, nodes[t := n], t)
  {
    WellFormedIsExcept(nodes, t);
    WellFormedAfterUpdate(nodes, t, n);
    AllLinesStore(nodes, t, n, l);
  }

  // ---------------------------------------------------------------------------
  // What one insertion does

  /** Node t now points at four quadrants registered at indices from, from + 1, from + 2 and from + 3. */
  predicate SplitFrom(n: Node, from: nat)
  {
    n.quadrant1 == Some(from) && n.quadrant2 == Some(from + 1) && n.quadrant3 == Some(from + 2) && n.quadrant4 == Some(from + 3)
  }

  /**
   * The effect of insert_line(l, t) on the registry `before`: the tree stays
   * well formed and gains exactly the line l, nothing outside t's subtree
   * changes, every node added lies in t's subtree, and the branch the source
   * takes decides where l goes. A full leaf above MAX_DEPTH is first split:
   * it gets four quadrants, registered next, its lines are reassigned as
   * ReassignDone says, and l is then routed from that state.
   */
  ghost predicate Inserted(before: seq<Node>, after: seq<Node>, l: Line, t: nat)
    requires t < |before|
  {
    && WellFormed(after) && Grows(before, after)
    && AllLines(after) == AllLines(before) + multiset{l}
    && UnchangedOutside(before, after, t) && NewBelow(before, after, t)
    && (IsOpenLeaf(before[t]) ==> after == before[t := Push(before[t], l)])
    && (!IsOpenLeaf(before[t]) && before[t].depth == MAX_DEPTH ==> after == before[t := PushGrowing(before[t], l)])
    && (!IsOpenLeaf(before[t]) && !HasChildren(before[t]) && before[t].depth < MAX_DEPTH ==>
          && |after| >= |before| + 4 && SplitFrom(after[t], |before|)
          && exists mid :: |mid| == |before| + 4 && ReassignDone(Subdivided(before, t), mid, t) && Routed(mid, after, l, t))
    && Routed(before, after, l, t)
  }

  /** Lines 31-33: an open leaf stores the line. */
  lemma InsertIntoOpenLeaf(nodes: seq<Node>, l: Line, t: nat)
    requires WellFormed(nodes) && t < |nodes| && (nodes[t].parent.Some? ==> CanFit(l, nodes[t]))
    requires IsOpenLeaf(nodes[t])
    ensures Inserted(nodes, nodes[t := Push(nodes[t], l)], l, t)
  {
    assert ShapeOk(nodes, t) && LinesOkAt(nodes, t);
    StoreLine(nodes, t, l, Push(nodes[t], l));
  }

  /** Lines 34-47: a node at MAX_DEPTH stores the line, doubling its buffer when it is full. */
  lemma InsertAtMaxDepth(nodes: seq<Node>, l: Line, t: nat)
    requires WellFormed(nodes) && t < |nodes| && (nodes[t].parent.Some? ==> CanFit(l, nodes[t]))
    requires !IsOpenLeaf(nodes[t]) && nodes[t].depth == MAX_DEPTH
    ensures Inserted(nodes, nodes[t := PushGrowing(nodes[t], l)], l, t)
  {
    assert ShapeOk(nodes, t) && LinesOkAt(nodes, t);
    PushGrowingOk(nodes[t], l);
    StoreLine(nodes, t, l, PushGrowing(nodes[t], l));
  }

  /**
   * The registry `mid` from which a line is passed on to a quadrant: `entry`
   * itself when t already has children, otherwise `entry` after subdivision
   * and reassignment of t's lines.
   */
  ghost predicate Ready(entry: seq<Node>, mid: seq<Node>, l: Line, t: nat)
    requires t < |entry|
  {
    && WellFormed(mid) && Grows(entry, mid) && t < |mid|
    && AllLines(mid) == AllLines(entry)
    && UnchangedOutside(entry, mid, t)
    && HasChildren(mid[t]) && FourOrNone(mid[t]) && mid[t].depth == entry[t].depth
    && (mid[t].parent.Some? ==> CanFit(l, mid[t]))
    && NewBelow(entry, mid, t)
    && (HasChildren(entry[t]) ==> mid == entry)
    && (!HasChildren(entry[t]) ==>
          |mid| == |entry| + 4 && SplitFrom(mid[t], |entry|) && ReassignDone(Subdivided(entry, t), mid, t))
  }

  /** A node that already has children passes the line on as it is. */
  lemma AlreadySplit(nodes: seq<Node>, l: Line, t: nat)
    requires WellFormed(nodes) && t < |nodes| && (nodes[t].parent.Some? ==> CanFit(l, nodes[t]))
    requires HasChildren(nodes[t])
    ensures Ready(nodes, nodes, l, t)
  {
    assert ShapeOk(nodes, t);
    forall i | 0 <= i < |nodes|
      ensures FrameKeptAt(nodes, nodes, i)
    {
    }
  }

  /** The quadrants of a node with children are registered one level below it. */
  lemma QuadrantsRegistered(nodes: seq<Node>, t: nat)
    requires WellFormed(nodes) && t < |nodes| && HasChildren(nodes[t])
    ensures FourOrNone(nodes[t]) && nodes[t].depth < MAX_DEPTH
    ensures forall k :: 1 <= k <= 4 ==> Child(nodes[t], k) < |nodes| && nodes[Child(nodes[t], k)].depth == nodes[t].depth + 1
  {
    assert ShapeOk(nodes, t);
    assert ChildOk(nodes, t, 1) && ChildOk(nodes, t, 2) && ChildOk(nodes, t, 3) && ChildOk(nodes, t, 4);
  }

  /** Quadrant k of a node with children, and the equivalence of can_fit on it with fitting that quarter. */
  lemma QuadrantChild(nodes: seq<Node>, t: nat, k: int, l: Line)
    requires WellFormed(nodes) && t < |nodes| && HasChildren(nodes[t]) && 1 <= k <= 4
    ensures FourOrNone(nodes[t]) && Child(nodes[t], k) < |nodes|
    ensures nodes[Child(nodes[t], k)].depth == nodes[t].depth + 1 <= MAX_DEPTH
    ensures nodes[Child(nodes[t], k)].parent == Some(t)
    ensures CanFit(l, nodes[Child(nodes[t], k)]) <==> FitsQuadrant(l, nodes[t], k)
  {
    assert ShapeOk(nodes, t);
    assert ChildOk(nodes, t, k);
  }

  /** Lines 105-114: after the line has gone to quadrant k, the insertion at t is complete. */
  lemma DispatchDone(entry: seq<Node>, mid: seq<Node>, after: seq<Node>, l: Line, t: nat, k: int)
    requires 1 <= k <= 4 && WellFormed(entry) && t < |entry| && Ready(entry, mid, l, t)
    requires !IsOpenLeaf(entry[t]) && entry[t].depth < MAX_DEPTH
    requires Child(mid[t], k) < |mid| && CanFit(l, mid[Child(mid[t], k)])
    requires Inserted(mid, after, l, Child(mid[t], k))
    ensures Inserted(entry, after, l, t)
  {
    var c := Child(mid[t], k);
    QuadrantChild(mid, t, k, l);
    GrowsTransitive(entry, mid, after);
    UnchangedOutsideParent(mid, after, c, t);
    UnchangedOutsideTransitive(entry, mid, after, t);
    assert FrameKeptAt(mid, after, t) && FrameKeptAt(mid, after, c);
    NewBelowParent(mid, after, c, t);
    NewBelowTransitive(entry, mid, after, t);
    forall j | 1 <= j <= 4 && j != k
      ensures !FitsQuadrant(l, mid[t], j)
    {
      FitsAtMostOneQuadrant(l, mid[t], j, k);
    }
    assert Routed(mid, after, l, t);
  }

  /** Lines 115-120: a line that fits no quadrant stays at the node, whose buffer doubles when full. */
  lemma StoreAtNode(entry: seq<Node>, mid: seq<Node>, l: Line, t: nat)
    requires WellFormed(entry) && t < |entry| && Ready(entry, mid, l, t)
    requires !IsOpenLeaf(entry[t]) && entry[t].depth < MAX_DEPTH
    requires forall k :: 1 <= k <= 4 ==> Child(mid[t], k) < |mid| && !CanFit(l, mid[Child(mid[t], k)])
    ensures Inserted(entry, mid[t := PushGrowing(mid[t], l)], l, t)
  {
    forall k | 1 <= k <= 4
      ensures !FitsQuadrant(l, mid[t], k)
    {
      QuadrantChild(mid, t, k, l);
    }
    assert FitsNoQuadrant(l, mid[t]);
    var after := mid[t := PushGrowing(mid[t], l)];
    assert LinesOkAt(mid, t);
    PushGrowingOk(mid[t], l);
    StoreLine(mid, t, l, PushGrowing(mid[t], l));
    GrowsTransitive(entry, mid, after);
    UnchangedOutsideTransitive(entry, mid, after, t);
    NewBelowTransitive(entry, mid, after, t);
    assert Routed(mid, after, l, t);
  }

  // ---------------------------------------------------------------------------
  // Subdivision followed by reassignment

  /** Node t has four fresh quadrants: distinct, registered, empty and without children. */
  predicate FreshQuadrants(nodes: seq<Node>, t: nat)
    requires t < |nodes|
  {
    && HasChildren(nodes[t]) && FourOrNone(nodes[t]) && DistinctChildren(nodes[t], t)
    && |nodes[t].lines| <= N <= nodes[t].capacity
    && forall k :: 1 <= k <= 4 ==>
         Child(nodes[t], k) < |nodes| && nodes[Child(nodes[t], k)].lines == [] && !HasChildren(nodes[Child(nodes[t], k)])
  }

  /** The state in which insert_line calls reassign_current_to_quadrants: right after t was subdivided. */
  ghost predicate ReassignReady(nodes: seq<Node>, t: nat)
    requires t < |nodes|
  {
    WellFormedExcept(nodes, t) && FreshQuadrants(nodes, t)
  }

  /** The effect of reassign_current_to_quadrants: each line of t moves to the quadrant it fits, or stays at t. */
  ghost predicate ReassignDone(before: seq<Node>, after: seq<Node>, t: nat)
    requires t < |before| && HasChildren(before[t]) && FourOrNone(before[t])
  {
    && WellFormed(after) && Grows(before, after) && |after| == |before|
    && AllLines(after) == AllLines(before)
    && after[t] == before[t].(lines := Unfitting(before[t].lines, before[t]))
    && (forall k :: 1 <= k <= 4 ==>
          Child(before[t], k) < |before|
          && after[Child(before[t], k)] == before[Child(before[t], k)].(lines := Fitting(before[t].lines, before[t], k)))
    && (forall i :: 0 <= i < |before| && i != t && !IsQuadrantOf(before[t], i) ==> SameAt(before, after, i))
  }

  /** Subdivision of a full leaf above MAX_DEPTH leaves it ready for reassignment. */
  lemma SubdividedReady(nodes: seq<Node>, t: nat)
    requires WellFormed(nodes) && t < |nodes| && !HasChildren(nodes[t]) && nodes[t].depth < MAX_DEPTH
    ensures ReassignReady(Subdivided(nodes, t), t)
  {
    SubdividedWellFormed(nodes, t);
    assert LinesOkAt(nodes, t);
    var after := Subdivided(nodes, t);
    forall k | 1 <= k <= 4
      ensures Child(after[t], k) < |after| && after[Child(after[t], k)].lines == [] && !HasChildren(after[Child(after[t], k)])
    {
      assert after[|nodes| + k - 1] == Quarter(nodes[t], k, t);
    }
  }

  /** Lines 48-102: after subdivision and reassignment, t has four quadrants and the registry holds the same lines. */
  lemma SplitReady(entry: seq<Node>, divided: seq<Node>, mid: seq<Node>, l: Line, t: nat)
    requires WellFormed(entry) && t < |entry| && (entry[t].parent.Some? ==> CanFit(l, entry[t]))
    requires !HasChildren(entry[t]) && entry[t].depth < MAX_DEPTH
    requires divided == Subdivided(entry, t) && ReassignReady(divided, t)
    requires ReassignDone(divided, mid, t)
    ensures Ready(entry, mid, l, t)
  {
    SubdividedWellFormed(entry, t);
    GrowsTransitive(entry, divided, mid);
    SubdividedOutside(entry, divided, mid, t);
    forall i | |entry| <= i < |mid|
      ensures InSubtree(mid, t, i)
    {
      assert FrameKeptAt(divided, mid, i) && FrameKeptAt(divided, mid, t);
      assert divided[i] == Quarter(entry[t], i - |entry| + 1, t);
      assert InSubtree(mid, t, t);
    }
  }

  /** insert_line(l, t) adds l, and only l, to the lines held by t's subtree. */
  lemma InsertedSubtreeLines(before: seq<Node>, after: seq<Node>, l: Line, t: nat)
    requires WellFormed(before) && t < |before| && Inserted(before, after, l, t)
    ensures SubtreeLines(after, t) == SubtreeLines(before, t) + multiset{l}
  {
    SubtreeLinesGain(before, after, t, multiset{l});
  }

  /** A well-formed registry that grew from start by exactly the lines done. */
  ghost predicate Gained(start: seq<Node>, nodes: seq<Node>, done: seq<Line>)
  {
    WellFormed(nodes) && Grows(start, nodes) && AllLines(nodes) == AllLines(start) + multiset(done)
  }

  /** One more insertion adds its line to those gained. */
  lemma GainedOne(start: seq<Node>, before: seq<Node>, after: seq<Node>, done: seq<Line>, l: Line, t: nat)
    requires Gained(start, before, done) && t < |before| && Inserted(before, after, l, t)
    ensures Gained(start, after, done + [l])
  {
    GrowsTransitive(start, before, after);
  }

  /** The state of the reassignment loop after i of the lines of entry[t] are inserted again at the cleared node. */
  ghost predicate ReassignLoop(entry: seq<Node>, nodes: seq<Node>, i: nat, t: nat)
    requires t < |entry| && FreshQuadrants(entry, t) && i <= |entry[t].lines|
  {
    var box := entry[t];
    var start := entry[t := box.(lines := [])];
    Gained(start, nodes, box.lines[..i]) && Reassigned(start, nodes, box, box.lines, i, t)
  }

  /** Lines 125-128: clearing the node's list starts the loop. */
  lemma ReassignBegin(entry: seq<Node>, t: nat)
    requires t < |entry| && ReassignReady(entry, t)
    ensures ReassignLoop(entry, entry[t := entry[t].(lines := [])], 0, t)
  {
    var start := entry[t := entry[t].(lines := [])];
    WellFormedAfterUpdate(entry, t, start[t]);
    AllLinesUpdate(entry, t, start[t]);
    forall i | 0 <= i < |start|
      ensures FrameKeptAt(start, start, i)
    {
    }
  }

  /** The next line of the loop may be inserted at t, and that call descends in the recursion measure. */
  lemma ReassignCanInsert(entry: seq<Node>, nodes: seq<Node>, i: nat, t: nat)
    requires t < |entry| && ReassignReady(entry, t) && i < |entry[t].lines| && ReassignLoop(entry, nodes, i, t)
    ensures WellFormed(nodes) && t < |nodes| && HasChildren(nodes[t]) && nodes[t].depth == entry[t].depth
    ensures nodes[t].parent.Some? ==> CanFit(entry[t].lines[i], nodes[t])
  {
    assert PlacedOkAt(entry, t);
    assert entry[t].lines[i] in entry[t].lines;
  }

  /** A reinserted line that fits no quadrant of t stays at t. */
  lemma ReassignStepToNode(entry: seq<Node>, before: seq<Node>, after: seq<Node>, i: nat, t: nat)
    requires t < |entry| && FreshQuadrants(entry, t) && i < |entry[t].lines| && ReassignLoop(entry, before, i, t)
    requires t < |before| && Inserted(before, after, entry[t].lines[i], t)
    requires FitsNoQuadrant(entry[t].lines[i], entry[t])
    ensures ReassignLoop(entry, after, i + 1, t)
  {
    var box, current := entry[t], entry[t].lines;
    var start := entry[t := box.(lines := [])];
    TakeOneMore(current, i);
    GainedOne(start, before, after, current[..i], current[i], t);
    SameQuarters(box, before[t], current[i]);
    ReassignToNode(start, before, after, box, current, i, t);
  }

  /** A reinserted line that fits quadrant k of t goes to that quadrant. */
  lemma ReassignStepToQuadrant(entry: seq<Node>, before: seq<Node>, after: seq<Node>, i: nat, t: nat, k: int)
    requires t < |entry| && FreshQuadrants(entry, t) && i < |entry[t].lines| && ReassignLoop(entry, before, i, t)
    requires t < |before| && Inserted(before, after, entry[t].lines[i], t)
    requires 1 <= k <= 4 && FitsQuadrant(entry[t].lines[i], entry[t], k)
    ensures ReassignLoop(entry, after, i + 1, t)
  {
    var box, current := entry[t], entry[t].lines;
    var start := entry[t := box.(lines := [])];
    TakeOneMore(current, i);
    GainedOne(start, before, after, current[..i], current[i], t);
    SameQuarters(box, before[t], current[i]);
    assert Dispatched(before, after, current[i], t, k);
    ReassignToQuadrant(start, before, after, box, current, i, t, k);
  }

  /** Lines 129-133: one more line inserted at t keeps the loop's state. */
  lemma ReassignStep(entry: seq<Node>, before: seq<Node>, after: seq<Node>, i: nat, t: nat)
    requires t < |entry| && FreshQuadrants(entry, t) && i < |entry[t].lines| && ReassignLoop(entry, before, i, t)
    requires t < |before| && Inserted(before, after, entry[t].lines[i], t)
    ensures ReassignLoop(entry, after, i + 1, t)
  {
    var x := entry[t].lines[i];
    if FitsQuadrant(x, entry[t], 1) {
      ReassignStepToQuadrant(entry, before, after, i, t, 1);
    } else if FitsQuadrant(x, entry[t], 2) {
      ReassignStepToQuadrant(entry, before, after, i, t, 2);
    } else if FitsQuadrant(x, entry[t], 3) {
      ReassignStepToQuadrant(entry, before, after, i, t, 3);
    } else if FitsQuadrant(x, entry[t], 4) {
      ReassignStepToQuadrant(entry, before, after, i, t, 4);
    } else {
      ReassignStepToNode(entry, before, after, i, t);
    }
  }

  /** When the loop ends every line of t has been reassigned. */
  lemma ReassignFinish(entry: seq<Node>, nodes: seq<Node>, i: nat, t: nat)
    requires t < |entry| && ReassignReady(entry, t) && i == |entry[t].lines| && ReassignLoop(entry, nodes, i, t)
    ensures ReassignDone(entry, nodes, t)
  {
    var box := entry[t];
    var start := entry[t := box.(lines := [])];
    assert box.lines[..i] == box.lines;
    AllLinesUpdate(entry, t, start[t]);
    forall j | 0 <= j < |entry|
      ensures FrameKeptAt(entry, nodes, j)
    {
      assert FrameKeptAt(start, nodes, j);
    }
    forall j | 0 <= j < |entry| && j != t && !IsQuadrantOf(box, j)
      ensures SameAt(entry, nodes, j)
    {
      assert SameAt(start, nodes, j);
    }
  }

  /** Subdivision and reassignment change only t among the nodes registered before them. */
  lemma SubdividedOutside(entry: seq<Node>, divided: seq<Node>, after: seq<Node>, t: nat)
    requires t < |entry| && divided == Subdivided(entry, t) && |after| == |divided|
    requires forall i :: 0 <= i < |after| && i != t && !IsQuadrantOf(divided[t], i) ==> SameAt(divided, after, i)
    ensures UnchangedOutside(entry, after, t)
  {
    forall i | 0 <= i < |entry| && !InSubtree(entry, t, i)
      ensures SameAt(entry, after, i)
    {
      assert i != t && SameAt(entry, divided, i);
      assert !IsQuadrantOf(divided[t], i);
      assert SameAt(divided, after, i);
    }
  }

  // ---------------------------------------------------------------------------
  // Parsing a world

  /**
   * The registry after a root with box [boxMin, boxMax) was registered after
   * `entry` and the lines `done` were inserted into it; every node from the
   * root on lies in the root's subtree.
   */
  ghost predicate Parsed(entry: seq<Node>, nodes: seq<Node>, boxMin: Vec, boxMax: Vec, done: seq<Line>)
  {
    var root := |entry|;
    && WellFormed(nodes) && root < |nodes| && nodes[..root] == entry
    && nodes[root].parent.None? && nodes[root].depth == 0
    && nodes[root].p1 == boxMin && nodes[root].p2 == boxMax
    && AllLines(nodes) == AllLines(entry) + multiset(done)
    && NewBelow(entry, nodes, root)
  }

  /** The lines of a parsed world are exactly those of the new root's subtree. */
  lemma ParsedSubtree(entry: seq<Node>, nodes: seq<Node>, boxMin: Vec, boxMax: Vec, done: seq<Line>)
    requires WellFormed(entry) && Parsed(entry, nodes, boxMin, boxMax, done)
    ensures forall i :: |entry| <= i < |nodes| ==> InSubtree(nodes, |entry|, i)
    ensures SubtreeLines(nodes, |entry|) == multiset(done)
  {
    SubtreeLinesOfLaterRoot(entry, nodes, multiset(done));
  }

  /** Lines 17-21: registering a fresh root. */
  lemma RegisterRoot(nodes: seq<Node>, tree: Node)
    requires WellFormed(nodes) && tree.parent.None? && tree.depth == 0 && tree.lines == [] && !HasChildren(tree)
    requires FourOrNone(tree) && tree.capacity == N
    ensures Parsed(nodes, nodes + [tree], tree.p1, tree.p2, [])
  {
    var after := nodes + [tree];
    forall i | 0 <= i < |after|
      ensures ShapeOk(after, i) && LinesOkAt(after, i)
    {
      if i < |nodes| {
        assert ShapeOk(nodes, i) && LinesOkAt(nodes, i);
        if HasChildren(nodes[i]) {
          assert ChildOk(nodes, i, 1) && ChildOk(nodes, i, 2) && ChildOk(nodes, i, 3) && ChildOk(nodes, i, 4);
        }
      }
    }
    assert after[..|nodes|] == nodes;
    AllLinesAppendNode(nodes, tree);
    assert InSubtree(after, |nodes|, |nodes|);
  }

  /** Insertion below a node registered after all others leaves the others untouched. */
  lemma KeepsEarlierNodes(before: seq<Node>, after: seq<Node>, root: nat)
    requires root < |before| && ShapesOk(before[..root]) && UnchangedOutside(before, after, root)
    ensures after[..root] == before[..root]
  {
    forall i | 0 <= i < root
      ensures after[i] == before[i]
    {
      NotBelowLater(before, root, i);
      assert SameAt(before, after, i);
    }
  }

  /** Lines 22-24: inserting the next world line at the root. */
  lemma ParseStep(entry: seq<Node>, before: seq<Node>, after: seq<Node>, boxMin: Vec, boxMax: Vec, done: seq<Line>, l: Line)
    requires WellFormed(entry) && Parsed(entry, before, boxMin, boxMax, done)
    requires Inserted(before, after, l, |entry|)
    ensures Parsed(entry, after, boxMin, boxMax, done + [l])
  {
    var root := |entry|;
    assert FrameKeptAt(before, after, root);
    KeepsEarlierNodes(before, after, root);
    NewBelowTransitive(entry, before, after, root);
  }

  // ---------------------------------------------------------------------------
  // The registry and its operations

  class Quadtrees {
    /** The registry: quadtrees[0..numQuadtrees). */
    var nodes: seq<Node>

    ghost predicate Valid()
      reads this
    {
      WellFormed(nodes)
    }

    constructor ()
      ensures Valid() && nodes == []
    {
      nodes := [];
    }

    /** Lines 53-88 and 94-101: the four quadrants of node t, registered in quadrant order. */
    method Subdivide(t: nat)
      requires WellFormed(nodes) && t < |nodes| && !HasChildren(nodes[t]) && nodes[t].depth < MAX_DEPTH
      modifies this
      ensures nodes == Subdivided(old(nodes), t)
      ensures ReassignReady(nodes, t) && Grows(old(nodes), nodes)
      ensures AllLines(nodes) == old(AllLines(nodes))
    {
      SubdividedWellFormed(nodes, t);
      SubdividedReady(nodes, t);
      var n := nodes[t];
      var k := |nodes|;
      nodes := nodes[t := n.(quadrant1 := Some(k), quadrant2 := Some(k + 1), quadrant3 := Some(k + 2), quadrant4 := Some(k + 3))]
               + [Quarter(n, 1, t)] + [Quarter(n, 2, t)] + [Quarter(n, 3, t)] + [Quarter(n, 4, t)];
    }

    /**
     * reassign_current_to_quadrants, called right after subdivision: the lines are
     * copied out, the node's list is cleared, and each line is inserted again at
     * the node. Each lands in the quadrant it fits, or stays at the node.
     */
    method Reassign(t: nat)
      requires t < |nodes| && ReassignReady(nodes, t)
      modifies this
      decreases MAX_DEPTH - nodes[t].depth, 0, 2
      ensures ReassignDone(old(nodes), nodes, t)
    {
      var current := nodes[t].lines;
      ghost var entry := nodes;
      ReassignBegin(entry, t);
      nodes := nodes[t := nodes[t].(lines := [])];
      var i := 0;
      while i < |current|
        invariant i <= |current| && ReassignLoop(entry, nodes, i, t)
      {
        ghost var before := nodes;
        ReassignCanInsert(entry, nodes, i, t);
        InsertLine(current[i], t);
        ReassignStep(entry, before, nodes, i, t);
        i := i + 1;
      }
      ReassignFinish(entry, nodes, i, t);
    }

    /**
     * insert_line: a state machine over the node. An open leaf stores the line; a
     * node at MAX_DEPTH stores it, doubling its buffer when full; a full leaf
     * above MAX_DEPTH first subdivides and reassigns its lines. A node with
     * children then passes the line to the first quadrant it fits, or stores it.
     */
    method InsertLine(l: Line, t: nat)
      requires WellFormed(nodes) && t < |nodes|
      requires nodes[t].parent.Some? ==> CanFit(l, nodes[t])
      modifies this
      decreases MAX_DEPTH - nodes[t].depth, if HasChildren(nodes[t]) then 0 else 1, 1
      ensures Inserted(old(nodes), nodes, l, t)
      ensures SubtreeLines(nodes, t) == old(SubtreeLines(nodes, t)) + multiset{l}
    {
      var n := nodes[t];
      if |n.lines| < N && n.quadrant1.None? {
        InsertIntoOpenLeaf(nodes, l, t);
        InsertedSubtreeLines(nodes, nodes[t := Push(n, l)], l, t);
        nodes := nodes[t := Push(n, l)];
        return;
      } else if n.depth == MAX_DEPTH {
        InsertAtMaxDepth(nodes, l, t);
        InsertedSubtreeLines(nodes, nodes[t := PushGrowing(n, l)], l, t);
        nodes := nodes[t := PushGrowing(n, l)];
        return;
      }
      assert ShapeOk(nodes, t);
      ghost var entry := nodes;
      if n.quadrant1.None? {
        Subdivide(t);
        ghost var divided := nodes;
        Reassign(t);
        SplitReady(entry, divided, nodes, l, t);
      } else {
        AlreadySplit(nodes, l, t);
      }
      Dispatch(l, t, entry);
      InsertedSubtreeLines(entry, nodes, l, t);
    }

    /** Lines 105-121: the line goes to the first quadrant of t that can hold it, or else stays at t. */
    method Dispatch(l: Line, t: nat, ghost entry: seq<Node>)
      requires WellFormed(entry) && t < |entry| && Ready(entry, nodes, l, t)
      requires !IsOpenLeaf(entry[t]) && entry[t].depth < MAX_DEPTH
      modifies this
      decreases MAX_DEPTH - nodes[t].depth, 0, 0
      ensures Inserted(entry, nodes, l, t)
    {
      ghost var mid := nodes;
      var m := nodes[t];
      QuadrantsRegistered(nodes, t);
      if CanFit(l, nodes[Child(m, 1)]) {
        InsertLine(l, Child(m, 1));
        DispatchDone(entry, mid, nodes, l, t, 1);
      } else if CanFit(l, nodes[Child(m, 2)]) {
        InsertLine(l, Child(m, 2));
        DispatchDone(entry, mid, nodes, l, t, 2);
      } else if CanFit(l, nodes[Child(m, 3)]) {
        InsertLine(l, Child(m, 3));
        DispatchDone(entry, mid, nodes, l, t, 3);
      } else if CanFit(l, nodes[Child(m, 4)]) {
        InsertLine(l, Child(m, 4));
        DispatchDone(entry, mid, nodes, l, t, 4);
      } else {
        StoreAtNode(entry, mid, l, t);
        nodes := nodes[t := PushGrowing(m, l)];
      }
    }

    /**
     * parse_CollisionWorld_to_Quadtree: a new root with box [boxMin, boxMax) is
     * registered and every line of the world is inserted into it. BOX_XMIN,
     * BOX_YMIN, BOX_XMAX and BOX_YMAX come from a header outside this model and
     * are the parameters boxMin and boxMax.
     */
    method ParseCollisionWorld(worldLines: seq<Line>, boxMin: Vec, boxMax: Vec) returns (root: nat)
      requires WellFormed(nodes)
      modifies this
      ensures WellFormed(nodes) && root == old(|nodes|) && root < |nodes|
      ensures nodes[..root] == old(nodes)
      ensures nodes[root].parent.None? && nodes[root].depth == 0
      ensures nodes[root].p1 == boxMin && nodes[root].p2 == boxMax
      ensures AllLines(nodes) == old(AllLines(nodes)) + multiset(worldLines)
      ensures forall i :: root <= i < |nodes| ==> InSubtree(nodes, root, i)
      ensures SubtreeLines(nodes, root) == multiset(worldLines)
    {
      var tree := MakeQuadtree(N, boxMin.x, boxMin.y, boxMax.x, boxMax.y, 0, None);
      root := |nodes|;
      RegisterRoot(nodes, tree);
      nodes := nodes + [tree];
      var i := 0;
      while i < |worldLines|
        invariant i <= |worldLines| && Parsed(old(nodes), nodes, boxMin, boxMax, worldLines[..i])
      {
        ghost var before := nodes;
        InsertLine(worldLines[i], root);
        ParseStep(old(nodes), before, nodes, boxMin, boxMax, worldLines[..i], worldLines[i]);
        TakeOneMore(worldLines, i);
        i := i + 1;
      }
      assert worldLines[..i] == worldLines;
      ParsedSubtree(old(nodes), nodes, boxMin, boxMax, worldLines);
    }
  }
}
