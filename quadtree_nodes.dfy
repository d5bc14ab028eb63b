/**
 * Quadtree nodes (struct Quadtree of Quadtree.h) and the invariants the
 * insertion code of Quadtree.c keeps.
 *
 * Every node lives in the `quadtrees` registry, modelled as a sequence of node
 * values; a node's parent and its four quadrants are registry indices (the
 * source's pointers). The buffer `lines[0..numOfLines)` is the sequence
 * `lines` (so `numOfLines` is `|lines|`), and `capacity` is the size of the
 * allocated buffer.
 */
module QuadtreeNodes {
  import opened Lines

  /** Maximum number of lines in a leaf before it adds its children. */
  const N: nat := 64
  /** Maximum depth of a node. */
  const MAX_DEPTH: nat := 2

  datatype Option<T> = None | Some(value: T)

  datatype Node = Node(
    parent: Option<nat>,
    quadrant1: Option<nat>,
    quadrant2: Option<nat>,
    quadrant3: Option<nat>,
    quadrant4: Option<nat>,
    lines: seq<Line>,
    capacity: nat,
    depth: nat,
    p1: Vec,
    p2: Vec)

  /** make_quadtree: an empty leaf with the given box, depth and parent. */
  function MakeQuadtree(capacity: nat, xLo: real, yLo: real, xHi: real, yHi: real,
                        depth: nat, parent: Option<nat>): (r: Node)
    ensures r.lines == [] && !HasChildren(r) && r.quadrant2.None? && r.quadrant3.None? && r.quadrant4.None?
    ensures r.p1 == Vec(xLo, yLo) && r.p2 == Vec(xHi, yHi)
    ensures r.capacity == capacity && r.depth == depth && r.parent == parent
  {
    Node(parent, None, None, None, None, [], capacity, depth, Vec(xLo, yLo), Vec(xHi, yHi))
  }

  /** The source tests `quadrant_1` to tell a node with children from a leaf. */
  predicate HasChildren(n: Node)
  {
    n.quadrant1.Some?
  }

  function Quadrant(n: Node, k: int): Option<nat>
    requires 1 <= k <= 4
  {
    if k == 1 then n.quadrant1 else if k == 2 then n.quadrant2
    else if k == 3 then n.quadrant3 else n.quadrant4
  }

  /** The midpoint p1 + (p2 - p1)/2 at which a node is split. */
  function Mid(n: Node): Vec
  {
    Vec(n.p1.x + (n.p2.x - n.p1.x) / 2.0, n.p1.y + (n.p2.y - n.p1.y) / 2.0)
  }

  /** Low corner of quadrant k: q1 = [mid.x, hi.x] x [lo.y, mid.y], q2 = [lo, mid], q3 = [lo.x, mid.x] x [mid.y, hi.y], q4 = [mid, hi]. */
  function QuadrantLo(n: Node, k: int): Vec
    requires 1 <= k <= 4
  {
    var mid := Mid(n);
    if k == 1 then Vec(mid.x, n.p1.y)
    else if k == 2 then n.p1
    else if k == 3 then Vec(n.p1.x, mid.y)
    else mid
  }

  function QuadrantHi(n: Node, k: int): Vec
    requires 1 <= k <= 4
  {
    var mid := Mid(n);
    if k == 1 then Vec(n.p2.x, mid.y)
    else if k == 2 then mid
    else if k == 3 then Vec(mid.x, n.p2.y)
    else n.p2
  }

  /**
   * can_fit against a box: the line's bounding box lies in [lo, hi) in x and in y,
   * both as it is and moved by its velocity.
   */
  predicate CanFitBox(line: Line, lo: Vec, hi: Vec)
  {
    var tl := TopLeft(line);
    var br := BottomRight(line);
    && tl.x >= lo.x && br.x < hi.x && tl.y >= lo.y && br.y < hi.y
    && tl.x + line.velocity.x >= lo.x && br.x + line.velocity.x < hi.x
    && tl.y + line.velocity.y >= lo.y && br.y + line.velocity.y < hi.y
  }

  /** can_fit(line, tree) */
  predicate CanFit(line: Line, tree: Node)
  {
    CanFitBox(line, tree.p1, tree.p2)
  }

  predicate FitsQuadrant(line: Line, n: Node, k: int)
    requires 1 <= k <= 4
  {
    CanFitBox(line, QuadrantLo(n, k), QuadrantHi(n, k))
  }

  predicate FitsNoQuadrant(line: Line, n: Node)
  {
    !FitsQuadrant(line, n, 1) && !FitsQuadrant(line, n, 2)
    && !FitsQuadrant(line, n, 3) && !FitsQuadrant(line, n, 4)
  }

  /** A point lies in the half-open box [lo, hi). */
  predicate InBox(p: Vec, lo: Vec, hi: Vec)
  {
    lo.x <= p.x < hi.x && lo.y <= p.y < hi.y
  }

  /** can_fit holds exactly when both endpoints lie in the box at the start and at the end of the step. */
  lemma CanFitIffEndpointsInBox(line: Line, lo: Vec, hi: Vec)
    ensures CanFitBox(line, lo, hi) <==>
              && InBox(line.p1, lo, hi) && InBox(line.p2, lo, hi)
              && InBox(Add(line.p1, line.velocity), lo, hi) && InBox(Add(line.p2, line.velocity), lo, hi)
  {
  }

  /** The four quadrants are disjoint half-open boxes: a line fits at most one of them. */
  lemma FitsAtMostOneQuadrant(line: Line, n: Node, j: int, k: int)
    requires 1 <= j <= 4 && 1 <= k <= 4 && j != k
    ensures !(FitsQuadrant(line, n, j) && FitsQuadrant(line, n, k))
  {
  }

  /** A line that fits a quadrant of a box that is not inverted fits the box itself. */
  lemma QuadrantInsideNode(line: Line, n: Node, k: int)
    requires 1 <= k <= 4 && n.p1.x <= n.p2.x && n.p1.y <= n.p2.y
    requires FitsQuadrant(line, n, k)
    ensures CanFit(line, n)
  {
  }

  /** The quadrants tile a box that is not inverted: each point of it lies in exactly one. */
  lemma QuadrantsTile(p: Vec, n: Node)
    requires n.p1.x <= n.p2.x && n.p1.y <= n.p2.y
    ensures InBox(p, n.p1, n.p2) <==>
              InBox(p, QuadrantLo(n, 1), QuadrantHi(n, 1)) || InBox(p, QuadrantLo(n, 2), QuadrantHi(n, 2))
              || InBox(p, QuadrantLo(n, 3), QuadrantHi(n, 3)) || InBox(p, QuadrantLo(n, 4), QuadrantHi(n, 4))
    ensures forall j, k :: 1 <= j < k <= 4 ==>
              !(InBox(p, QuadrantLo(n, j), QuadrantHi(n, j)) && InBox(p, QuadrantLo(n, k), QuadrantHi(n, k)))
  {
  }

  // ---------------------------------------------------------------------------
  // Shape of the tree

  /** All four quadrant pointers are set, or none is. */
  predicate FourOrNone(n: Node)
  {
    n.quadrant1.Some? == n.quadrant2.Some? == n.quadrant3.Some? == n.quadrant4.Some?
  }

  /** Quadrant k of node i is a registered node whose parent is i, one level deeper, with exactly the k-th quarter box. */
  ghost predicate ChildOk(nodes: seq<Node>, i: nat, k: int)
    requires i < |nodes| && 1 <= k <= 4
  {
    var q := Quadrant(nodes[i], k);
    && q.Some? && q.value < |nodes|
    && nodes[q.value].parent == Some(i)
    && nodes[q.value].depth == nodes[i].depth + 1
    && nodes[q.value].p1 == QuadrantLo(nodes[i], k)
    && nodes[q.value].p2 == QuadrantHi(nodes[i], k)
  }

  predicate IsQuadrantOf(n: Node, i: nat)
  {
    n.quadrant1 == Some(i) || n.quadrant2 == Some(i) || n.quadrant3 == Some(i) || n.quadrant4 == Some(i)
  }

  ghost predicate ShapeOk(nodes: seq<Node>, i: nat)
    requires i < |nodes|
  {
    var n := nodes[i];
    && n.depth <= MAX_DEPTH
    && FourOrNone(n)
    && (HasChildren(n) ==>
          && n.depth < MAX_DEPTH
          && ChildOk(nodes, i, 1) && ChildOk(nodes, i, 2) && ChildOk(nodes, i, 3) && ChildOk(nodes, i, 4)
          && n.quadrant1 != n.quadrant2 && n.quadrant1 != n.quadrant3 && n.quadrant1 != n.quadrant4
          && n.quadrant2 != n.quadrant3 && n.quadrant2 != n.quadrant4 && n.quadrant3 != n.quadrant4)
    && (n.parent.None? ==> n.depth == 0)
    && (n.parent.Some? ==>
          n.parent.value < |nodes| && HasChildren(nodes[n.parent.value]) && IsQuadrantOf(nodes[n.parent.value], i))
  }

  ghost predicate ShapesOk(nodes: seq<Node>)
  {
    forall i :: 0 <= i < |nodes| ==> ShapeOk(nodes, i)
  }

  // ---------------------------------------------------------------------------
  // Lines held by a node

  /** The buffer never overflows, and capacity never drops below N. */
  predicate BufferOk(n: Node)
  {
    N <= n.capacity && |n.lines| <= n.capacity
  }

  /**
   * Placement: a leaf below MAX_DEPTH holds at most N lines, and a line held
   * by a node other than a root fits that node.
   */
  predicate PlacedOk(n: Node)
  {
    && BufferOk(n)
    && (!HasChildren(n) && n.depth < MAX_DEPTH ==> |n.lines| <= N)
    && (n.parent.Some? ==> forall l :: l in n.lines ==> CanFit(l, n))
  }

  /** A node with children keeps only the lines that fit none of its quadrants. */
  predicate PinnedOk(n: Node)
  {
    HasChildren(n) ==> forall l :: l in n.lines ==> FitsNoQuadrant(l, n)
  }

  predicate LinesOk(n: Node)
  {
    PlacedOk(n) && PinnedOk(n)
  }

  predicate LinesOkAt(nodes: seq<Node>, i: nat)
  {
    i < |nodes| && LinesOk(nodes[i])
  }

  predicate PlacedOkAt(nodes: seq<Node>, i: nat)
  {
    i < |nodes| && PlacedOk(nodes[i])
  }

  predicate PinnedOkAt(nodes: seq<Node>, i: nat)
  {
    i < |nodes| && PinnedOk(nodes[i])
  }

  /** The registry invariant kept by every insertion. */
  ghost predicate WellFormed(nodes: seq<Node>)
  {
    ShapesOk(nodes) && forall i :: 0 <= i < |nodes| ==> LinesOkAt(nodes, i)
  }

  /** As WellFormed, except that node t may still hold lines that fit one of its quadrants. */
  ghost predicate WellFormedExcept(nodes: seq<Node>, t: nat)
  {
    && ShapesOk(nodes)
    && (forall i :: 0 <= i < |nodes| ==> PlacedOkAt(nodes, i))
    && (forall i :: 0 <= i < |nodes| && i != t ==> PinnedOkAt(nodes, i))
  }

  // ---------------------------------------------------------------------------
  // How the registry may change

  /** Two nodes agree on everything but their lines and capacity. */
  predicate SameShape(a: Node, b: Node)
  {
    && a.parent == b.parent && a.depth == b.depth && a.p1 == b.p1 && a.p2 == b.p2
    && a.quadrant1 == b.quadrant1 && a.quadrant2 == b.quadrant2
    && a.quadrant3 == b.quadrant3 && a.quadrant4 == b.quadrant4
  }

  /** Registered nodes stay registered; their parent, depth and box never change, and children once added stay. */
  ghost predicate Grows(before: seq<Node>, after: seq<Node>)
  {
    && |before| <= |after|
    && forall i :: 0 <= i < |before| ==> FrameKeptAt(before, after, i)
  }

  /** Node i keeps its parent, depth and box, and its children if it has them. */
  predicate FrameKeptAt(before: seq<Node>, after: seq<Node>, i: nat)
  {
    && i < |before| && i < |after|
    && after[i].parent == before[i].parent && after[i].depth == before[i].depth
    && after[i].p1 == before[i].p1 && after[i].p2 == before[i].p2
    && (HasChildren(before[i]) ==> SameShape(before[i], after[i]))
  }

  /** Node i is the same in both registries. */
  predicate SameAt(before: seq<Node>, after: seq<Node>, i: nat)
  {
    i < |before| && i < |after| && after[i] == before[i]
  }

  lemma GrowsTransitive(a: seq<Node>, b: seq<Node>, c: seq<Node>)
    requires Grows(a, b) && Grows(b, c)
    ensures Grows(a, c)
  {
    forall i | 0 <= i < |a|
      ensures FrameKeptAt(a, c, i)
    {
      assert FrameKeptAt(a, b, i) && FrameKeptAt(b, c, i);
    }
  }

  /** A well-formed registry is well formed except at any node. */
  lemma WellFormedIsExcept(nodes: seq<Node>, t: nat)
    requires WellFormed(nodes)
    ensures WellFormedExcept(nodes, t)
  {
    forall i | 0 <= i < |nodes|
      ensures PlacedOkAt(nodes, i) && PinnedOkAt(nodes, i)
    {
      assert LinesOkAt(nodes, i);
    }
  }

  /** Replacing one node by another of the same shape keeps the shape invariant. */
  lemma ShapesOkAfterUpdate(nodes: seq<Node>, t: nat, n: Node)
    requires ShapesOk(nodes) && t < |nodes| && SameShape(nodes[t], n)
    ensures ShapesOk(nodes[t := n])
  {
    var after := nodes[t := n];
    forall i | 0 <= i < |after|
      ensures ShapeOk(after, i)
    {
      assert ShapeOk(nodes, i);
      assert SameShape(nodes[i], after[i]);
      if HasChildren(after[i]) {
        assert ChildOk(after, i, 1) && ChildOk(after, i, 2) && ChildOk(after, i, 3) && ChildOk(after, i, 4) by {
          assert ChildOk(nodes, i, 1) && ChildOk(nodes, i, 2) && ChildOk(nodes, i, 3) && ChildOk(nodes, i, 4);
          assert forall k :: 0 <= k < |nodes| ==> SameShape(nodes[k], after[k]);
        }
      }
      if after[i].parent.Some? {
        assert SameShape(nodes[after[i].parent.value], after[after[i].parent.value]);
      }
    }
  }

  /** Replacing the lines of node t by lines that respect its placement keeps the invariant. */
  lemma WellFormedAfterUpdate(nodes: seq<Node>, t: nat, n: Node)
    requires WellFormedExcept(nodes, t) && t < |nodes| && SameShape(nodes[t], n) && LinesOk(n)
    ensures WellFormed(nodes[t := n])
    ensures Grows(nodes, nodes[t := n])
  {
    var after := nodes[t := n];
    ShapesOkAfterUpdate(nodes, t, n);
    forall i | 0 <= i < |after|
      ensures LinesOkAt(after, i) && FrameKeptAt(nodes, after, i)
    {
      if i != t {
        assert PlacedOkAt(nodes, i) && PinnedOkAt(nodes, i);
      }
    }
  }

  // ---------------------------------------------------------------------------
  // The lines stored in the registry

  /** The lines held by all registered nodes, counted with multiplicity. */
  function AllLines(nodes: seq<Node>): multiset<Line>
  {
    if nodes == [] then multiset{} else AllLines(nodes[..|nodes| - 1]) + multiset(nodes[|nodes| - 1].lines)
  }

  lemma AllLinesAppendNode(nodes: seq<Node>, n: Node)
    ensures AllLines(nodes + [n]) == AllLines(nodes) + multiset(n.lines)
  {
    assert (nodes + [n])[..|nodes|] == nodes;
  }

  /** Replacing one node's lines replaces exactly those lines in the registry. */
  lemma {:induction false} AllLinesUpdate(nodes: seq<Node>, t: nat, n: Node)
    requires t < |nodes|
    ensures AllLines(nodes[t := n]) + multiset(nodes[t].lines) == AllLines(nodes) + multiset(n.lines)
  {
    var last := |nodes| - 1;
    var after := nodes[t := n];
    if t == last {
      assert after[..last] == nodes[..last];
    } else {
      var prefix := nodes[..last];
      assert after[..last] == prefix[t := n];
      assert prefix[t] == nodes[t];
      AllLinesUpdate(prefix, t, n);
      var rest := multiset(nodes[last].lines);
      var mt, mn := multiset(nodes[t].lines), multiset(n.lines);
      calc {
        AllLines(after) + mt;
        (AllLines(prefix[t := n]) + rest) + mt;
        (AllLines(prefix[t := n]) + mt) + rest;
        (AllLines(prefix) + mn) + rest;
        (AllLines(prefix) + rest) + mn;
        AllLines(nodes) + mn;
      }
    }
  }

  /** Changing a node other than its lines leaves the registry's lines as they are. */
  lemma {:induction false} AllLinesSameLines(nodes: seq<Node>, t: nat, n: Node)
    requires t < |nodes| && n.lines == nodes[t].lines
    ensures AllLines(nodes[t := n]) == AllLines(nodes)
  {
    var last := |nodes| - 1;
    var after := nodes[t := n];
    if t == last {
      assert after[..last] == nodes[..last];
    } else {
      assert after[..last] == nodes[..last][t := n];
      AllLinesSameLines(nodes[..last], t, n);
    }
  }

  /** Storing one more line at node t adds exactly that line to the registry. */
  lemma AllLinesStore(nodes: seq<Node>, t: nat, n: Node, l: Line)
    requires t < |nodes| && n.lines == nodes[t].lines + [l]
    ensures AllLines(nodes[t := n]) == AllLines(nodes) + multiset{l}
  {
    AllLinesUpdate(nodes, t, n);
    var a, b, m := AllLines(nodes[t := n]), AllLines(nodes), multiset(nodes[t].lines);
    assert multiset(n.lines) == m + multiset{l};
    assert a + m == b + m + multiset{l};
    forall y
      ensures a[y] == (b + multiset{l})[y]
    {
      assert (a + m)[y] == (b + m + multiset{l})[y];
    }
  }

  // ---------------------------------------------------------------------------
  // Subtrees

  /** i is root or lies below root: walking up parents from i reaches root. */
  ghost predicate InSubtree(nodes: seq<Node>, root: nat, i: nat)
    requires i < |nodes|
    decreases nodes[i].depth
  {
    || i == root
    || (&& nodes[i].parent.Some? && nodes[i].parent.value < |nodes|
        && nodes[nodes[i].parent.value].depth < nodes[i].depth
        && InSubtree(nodes, root, nodes[i].parent.value))
  }

  /** Nodes outside root's subtree are as they were. */
  ghost predicate UnchangedOutside(before: seq<Node>, after: seq<Node>, root: nat)
  {
    && |before| <= |after|
    && forall i :: 0 <= i < |before| && !InSubtree(before, root, i) ==> SameAt(before, after, i)
  }

  /** A parent's depth is one less than its child's. */
  lemma ParentDepth(nodes: seq<Node>, i: nat)
    requires ShapesOk(nodes) && i < |nodes| && nodes[i].parent.Some?
    ensures nodes[i].parent.value < |nodes|
    ensures nodes[nodes[i].parent.value].depth + 1 == nodes[i].depth
  {
    var p := nodes[i].parent.value;
    assert ShapeOk(nodes, i);
    assert ShapeOk(nodes, p);
    assert ChildOk(nodes, p, 1) && ChildOk(nodes, p, 2) && ChildOk(nodes, p, 3) && ChildOk(nodes, p, 4);
  }

  /** Growing the registry does not change which old nodes lie in a subtree. */
  lemma {:induction false} InSubtreeGrows(a: seq<Node>, b: seq<Node>, root: nat, i: nat)
    requires ShapesOk(a) && Grows(a, b) && i < |a|
    ensures InSubtree(a, root, i) == InSubtree(b, root, i)
    decreases a[i].depth
  {
    if i != root && a[i].parent.Some? {
      var p := a[i].parent.value;
      ParentDepth(a, i);
      assert FrameKeptAt(a, b, i) && FrameKeptAt(a, b, p);
      InSubtreeGrows(a, b, root, p);
    } else {
      assert FrameKeptAt(a, b, i);
    }
  }

  /** The subtree of a child lies within the subtree of its parent. */
  lemma {:induction false} InSubtreeOfParent(nodes: seq<Node>, c: nat, t: nat, i: nat)
    requires ShapesOk(nodes) && c < |nodes| && nodes[c].parent == Some(t) && i < |nodes|
    requires InSubtree(nodes, c, i)
    ensures InSubtree(nodes, t, i)
    decreases nodes[i].depth
  {
    ParentDepth(nodes, c);
    if i != c {
      var p := nodes[i].parent.value;
      InSubtreeOfParent(nodes, c, t, p);
    }
  }

  /** Changes confined to a child's subtree are confined to its parent's subtree. */
  lemma UnchangedOutsideParent(before: seq<Node>, after: seq<Node>, c: nat, t: nat)
    requires ShapesOk(before) && c < |before| && before[c].parent == Some(t)
    requires UnchangedOutside(before, after, c)
    ensures UnchangedOutside(before, after, t)
  {
    forall i | 0 <= i < |before| && !InSubtree(before, t, i)
      ensures SameAt(before, after, i)
    {
      if InSubtree(before, c, i) {
        InSubtreeOfParent(before, c, t, i);
      }
    }
  }

  lemma UnchangedOutsideTransitive(a: seq<Node>, b: seq<Node>, c: seq<Node>, root: nat)
    requires ShapesOk(a) && Grows(a, b)
    requires UnchangedOutside(a, b, root) && UnchangedOutside(b, c, root)
    ensures UnchangedOutside(a, c, root)
  {
    forall i | 0 <= i < |a| && !InSubtree(a, root, i)
      ensures SameAt(a, c, i)
    {
      InSubtreeGrows(a, b, root, i);
      assert SameAt(a, b, i) && SameAt(b, c, i);
    }
  }

  /** A node whose parents all precede `root` in the registry is not below root. */
  lemma {:induction false} NotBelowLater(nodes: seq<Node>, root: nat, i: nat)
    requires root <= |nodes| && i < root && ShapesOk(nodes[..root])
    requires forall j :: 0 <= j < root ==> nodes[j] == nodes[..root][j]
    ensures !InSubtree(nodes, root, i)
    decreases nodes[i].depth
  {
    var prefix := nodes[..root];
    assert ShapeOk(prefix, i);
    if nodes[i].parent.Some? {
      ParentDepth(prefix, i);
      NotBelowLater(nodes, root, nodes[i].parent.value);
    }
  }

  /** Every node registered after `before` lies in root's subtree. */
  ghost predicate NewBelow(before: seq<Node>, after: seq<Node>, root: nat)
  {
    forall i :: |before| <= i < |after| ==> InSubtree(after, root, i)
  }

  /** Nodes added below a child are added below its parent. */
  lemma NewBelowParent(before: seq<Node>, after: seq<Node>, c: nat, t: nat)
    requires ShapesOk(after) && c < |after| && after[c].parent == Some(t)
    requires NewBelow(before, after, c)
    ensures NewBelow(before, after, t)
  {
    forall i | |before| <= i < |after|
      ensures InSubtree(after, t, i)
    {
      InSubtreeOfParent(after, c, t, i);
    }
  }

  lemma NewBelowTransitive(a: seq<Node>, b: seq<Node>, c: seq<Node>, root: nat)
    requires ShapesOk(b) && Grows(b, c) && NewBelow(a, b, root) && NewBelow(b, c, root)
    ensures NewBelow(a, c, root)
  {
    forall i | |a| <= i < |c|
      ensures InSubtree(c, root, i)
    {
      if i < |b| {
        InSubtreeGrows(b, c, root, i);
      }
    }
  }

  /** The lines held by those of the first m nodes that lie in root's subtree (inside) or not (!inside). */
  ghost function LinesIn(nodes: seq<Node>, root: nat, m: nat, inside: bool): multiset<Line>
    requires m <= |nodes|
  {
    if m == 0 then multiset{}
    else
      LinesIn(nodes, root, m - 1, inside)
      + (if InSubtree(nodes, root, m - 1) == inside then multiset(nodes[m - 1].lines) else multiset{})
  }

  /** The lines held by root's subtree, counted with multiplicity. */
  ghost function SubtreeLines(nodes: seq<Node>, root: nat): multiset<Line>
  {
    LinesIn(nodes, root, |nodes|, true)
  }

  lemma {:induction false} LinesInSplit(nodes: seq<Node>, root: nat, m: nat)
    requires m <= |nodes|
    ensures AllLines(nodes[..m]) == LinesIn(nodes, root, m, true) + LinesIn(nodes, root, m, false)
  {
    if m > 0 {
      LinesInSplit(nodes, root, m - 1);
      assert nodes[..m][..m - 1] == nodes[..m - 1];
    }
  }

  lemma {:induction false} LinesOutsideKept(before: seq<Node>, after: seq<Node>, root: nat, m: nat)
    requires ShapesOk(before) && Grows(before, after) && UnchangedOutside(before, after, root) && m <= |before|
    ensures LinesIn(after, root, m, false) == LinesIn(before, root, m, false)
  {
    if m > 0 {
      LinesOutsideKept(before, after, root, m - 1);
      InSubtreeGrows(before, after, root, m - 1);
    }
  }

  lemma {:induction false} LinesOutsideNone(before: seq<Node>, after: seq<Node>, root: nat, m: nat)
    requires NewBelow(before, after, root) && |before| <= m <= |after|
    ensures LinesIn(after, root, m, false) == LinesIn(after, root, |before|, false)
  {
    if m > |before| {
      LinesOutsideNone(before, after, root, m - 1);
    }
  }

  lemma {:induction false} LinesInsideNone(nodes: seq<Node>, root: nat, m: nat)
    requires m <= root <= |nodes| && ShapesOk(nodes[..root])
    requires forall j :: 0 <= j < root ==> nodes[j] == nodes[..root][j]
    ensures LinesIn(nodes, root, m, true) == multiset{}
  {
    if m > 0 {
      LinesInsideNone(nodes, root, m - 1);
      NotBelowLater(nodes, root, m - 1);
    }
  }

  /**
   * A change that leaves every node outside root's subtree as it was and adds
   * nodes only below root adds the lines it gains to root's subtree.
   */
  lemma SubtreeLinesGain(before: seq<Node>, after: seq<Node>, root: nat, gained: multiset<Line>)
    requires ShapesOk(before) && Grows(before, after)
    requires UnchangedOutside(before, after, root) && NewBelow(before, after, root)
    requires AllLines(after) == AllLines(before) + gained
    ensures SubtreeLines(after, root) == SubtreeLines(before, root) + gained
  {
    assert before[..|before|] == before && after[..|after|] == after;
    LinesInSplit(before, root, |before|);
    LinesInSplit(after, root, |after|);
    LinesOutsideKept(before, after, root, |before|);
    LinesOutsideNone(before, after, root, |after|);
    var s1, s0, o := SubtreeLines(after, root), SubtreeLines(before, root), LinesIn(before, root, |before|, false);
    assert s1 + o == s0 + o + gained;
    forall y
      ensures s1[y] == (s0 + gained)[y]
    {
      assert (s1 + o)[y] == (s0 + o + gained)[y];
    }
  }

  /**
   * A root registered after the nodes of `entry`, below which every later node
   * lies, holds in its subtree exactly the lines the registry gained.
   */
  lemma SubtreeLinesOfLaterRoot(entry: seq<Node>, nodes: seq<Node>, gained: multiset<Line>)
    requires ShapesOk(entry) && |entry| <= |nodes| && nodes[..|entry|] == entry
    requires NewBelow(entry, nodes, |entry|)
    requires AllLines(nodes) == AllLines(entry) + gained
    ensures SubtreeLines(nodes, |entry|) == gained
  {
    var root := |entry|;
    assert nodes[..|nodes|] == nodes;
    LinesInSplit(nodes, root, |nodes|);
    LinesInSplit(nodes, root, root);
    LinesInsideNone(nodes, root, root);
    LinesOutsideNone(entry, nodes, root, |nodes|);
    var s, o := SubtreeLines(nodes, root), AllLines(entry);
    assert s + o == o + gained;
    forall y
      ensures s[y] == gained[y]
    {
      assert (s + o)[y] == (o + gained)[y];
    }
  }
}
