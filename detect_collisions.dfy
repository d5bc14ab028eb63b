/**
 * Collision detection over the quadtree (Quadtree.c, detect_collisions).
 *
 * For every node of the registry, every pair of lines held by the node is
 * tested, and then every line of the node is tested against every line of each
 * of its strict ancestors. Each pair is put in id order before `intersect` is
 * called, and only results other than NoIntersection are appended to the event
 * list.
 *
 * The Cilk loops are run one after the other, in index order, so the events
 * arrive in the order the serial elision of the program appends them. The
 * pairs tested are described by specification functions in the shape of the
 * loops (NodeChecks, CrossChecks, AncestorChecks, AllChecks), whose lemmas say
 * which pairs of lines they hold and how often; Report turns a sequence of
 * pairs into the events appended. The method side lists the pairs with the
 * loops of the source (CollisionPairs) and then tests them in that order
 * (TestPairs).
 */
module CollisionDetection {
  import opened Lines
  import opened IntersectionDetection
  import opened IntersectionEventList
  import opened QuadtreeNodes

  // ---------------------------------------------------------------------------
  // One test

  /**
   * The intersection test detect_collisions calls, as a value: defined at
   * least on every pair in id order, which is what `intersect` demands.
   * IntersectAt is the test of IntersectionDetection at a given time step.
   */
  type IntersectTest = f: (Line, Line) --> IntersectionType
    | forall a: Line, b: Line :: CompareLines(a, b) < 0 ==> f.requires(a, b)
    witness (a: Line, b: Line) => NoIntersection

  function IntersectAt(time: real, angleOf: (Vec, Vec) -> real): (test: IntersectTest)
    ensures forall a: Line, b: Line :: CompareLines(a, b) < 0 ==> test(a, b) == Intersect(a, b, time, angleOf)
  {
    var f := (a: Line, b: Line) requires CompareLines(a, b) < 0 => Intersect(a, b, time, angleOf);
    assert forall a: Line, b: Line :: CompareLines(a, b) < 0 ==> f.requires(a, b);
    f
  }

  /** The swap before `intersect`: the pair in id order. */
  function Canonical(l1: Line, l2: Line): (r: (Line, Line))
    ensures r == (l1, l2) || r == (l2, l1)
    ensures r.0.id <= r.1.id
    ensures l1.id != l2.id ==> CompareLines(r.0, r.1) < 0
  {
    if CompareLines(l1, l2) > 0 then (l2, l1) else (l1, l2)
  }

  /** The pair of lines in either order yields the same tested pair. */
  lemma CanonicalSymmetric(l1: Line, l2: Line)
    requires l1.id != l2.id
    ensures Canonical(l1, l2) == Canonical(l2, l1)
  {
    var r := Canonical(l1, l2);
    if r == (l1, l2) {
      assert l1.id < l2.id;
    } else {
      assert l2.id < l1.id;
    }
  }

  /** Every pair of the sequence is made of two lines with different ids. */
  predicate Distinct(checks: seq<(Line, Line)>)
  {
    forall p :: p in checks ==> p.0.id != p.1.id
  }

  /**
   * The events one test appends: none, or the ordered pair with its
   * intersection type. `intersect` asserts that the ids differ; a pair with
   * equal ids yields no event here, and DetectCollisions' precondition rules
   * such pairs out (ComparableDistinct).
   */
  function Emit(l1: Line, l2: Line, test: IntersectTest): seq<IntersectionEvent>
  {
    var c := Canonical(l1, l2);
    if CompareLines(c.0, c.1) >= 0 then []
    else
      var ty := test(c.0, c.1);
      if ty == NoIntersection then [] else [IntersectionEvent(c.0, c.1, ty)]
  }

  /**
   * The loops are specified over the events of one test as a function value,
   * `emit`, tied to the test by EmitsFor; the loops only ever append whole
   * results of `emit`, whatever they are.
   */
  type Emitter = (Line, Line) -> seq<IntersectionEvent>

  ghost predicate EmitsFor(emit: Emitter, test: IntersectTest)
  {
    forall a: Line, b: Line {:trigger Emit(a, b, test)} :: emit(a, b) == Emit(a, b, test)
  }

  /** The events of one test, for a given test. */
  function EmitFor(test: IntersectTest): (emit: Emitter)
    ensures EmitsFor(emit, test)
  {
    (a: Line, b: Line) => Emit(a, b, test)
  }

  /** The events appended by testing the pairs in order. */
  function Report(checks: seq<(Line, Line)>, emit: Emitter): seq<IntersectionEvent>
    decreases |checks|
  {
    if checks == [] then []
    else
      var last := checks[|checks| - 1];
      Report(checks[..|checks| - 1], emit) + emit(last.0, last.1)
  }

  lemma ReportSnoc(checks: seq<(Line, Line)>, p: (Line, Line), emit: Emitter)
    ensures Report(checks + [p], emit) == Report(checks, emit) + emit(p.0, p.1)
  {
    assert (checks + [p])[..|checks|] == checks;
  }

  lemma SplitLast<T>(s: seq<T>)
    requires s != []
    ensures s == s[..|s| - 1] + [s[|s| - 1]]
  {
  }

  lemma AppendSnoc<T>(a: seq<T>, b: seq<T>, x: T)
    ensures a + (b + [x]) == (a + b) + [x]
  {
  }

  lemma AppendAssoc<T>(a: seq<T>, b: seq<T>, c: seq<T>)
    ensures (a + b) + c == a + (b + c)
  {
  }

  lemma AppendNil<T>(a: seq<T>)
    ensures a + [] == a
  {
  }

  /** Testing two runs of pairs one after the other appends the events of the first, then of the second. */
  lemma {:induction false} ReportAppend(a: seq<(Line, Line)>, b: seq<(Line, Line)>, emit: Emitter)
    ensures Report(a + b, emit) == Report(a, emit) + Report(b, emit)
    decreases |b|
  {
    if b == [] {
      assert a + b == a;
    } else {
      var b', x := b[..|b| - 1], b[|b| - 1];
      SplitLast(b);
      ReportAppend(a, b', emit);
      AppendSnoc(a, b', x);
      ReportSnoc(a + b', x, emit);
      ReportSnoc(b', x, emit);
    }
  }

  /** Each test appends at most one event. */
  lemma {:induction false} ReportLength(checks: seq<(Line, Line)>, test: IntersectTest, emit: Emitter)
    requires EmitsFor(emit, test)
    ensures |Report(checks, emit)| <= |checks|
    decreases |checks|
  {
    if checks != [] {
      var last := checks[|checks| - 1];
      ReportLength(checks[..|checks| - 1], test, emit);
      assert emit(last.0, last.1) == Emit(last.0, last.1, test);
    }
  }

  /** Every tested pair of different ids whose intersection type is not NoIntersection is reported, in id order. */
  lemma {:induction false} ReportComplete(checks: seq<(Line, Line)>, p: (Line, Line), test: IntersectTest, emit: Emitter)
    requires EmitsFor(emit, test)
    requires p in checks && p.0.id != p.1.id
    ensures var c := Canonical(p.0, p.1);
            test(c.0, c.1) != NoIntersection ==>
              IntersectionEvent(c.0, c.1, test(c.0, c.1)) in Report(checks, emit)
    decreases |checks|
  {
    var last := checks[|checks| - 1];
    SplitLast(checks);
    if p != last {
      ReportComplete(checks[..|checks| - 1], p, test, emit);
    } else {
      assert emit(last.0, last.1) == Emit(last.0, last.1, test);
    }
  }

  /**
   * Every reported event comes from a tested pair, put in id order, and carries
   * the intersection type `intersect` gives that ordered pair, which is not
   * NoIntersection.
   */
  lemma {:induction false} ReportSound(checks: seq<(Line, Line)>, e: IntersectionEvent, test: IntersectTest, emit: Emitter)
    requires EmitsFor(emit, test)
    requires e in Report(checks, emit)
    ensures CompareLines(e.l1, e.l2) < 0
    ensures e.intersectionType == test(e.l1, e.l2)
    ensures e.intersectionType != NoIntersection
    ensures exists p :: p in checks && Canonical(p.0, p.1) == (e.l1, e.l2)
    decreases |checks|
  {
    var init := checks[..|checks| - 1];
    var last := checks[|checks| - 1];
    SplitLast(checks);
    if e in Report(init, emit) {
      ReportSound(init, e, test, emit);
      var p :| p in init && Canonical(p.0, p.1) == (e.l1, e.l2);
      assert p in checks;
    } else {
      assert emit(last.0, last.1) == Emit(last.0, last.1, test);
      assert last in checks;
    }
  }

  // ---------------------------------------------------------------------------
  // The pairs of lines tested, in loop order

  /** No element occurs twice. */
  predicate NoDups<T(==)>(s: seq<T>)
  {
    forall p, q :: 0 <= p < q < |s| ==> s[p] != s[q]
  }

  lemma NoDupsAppend<T>(a: seq<T>, b: seq<T>)
    requires NoDups(a) && NoDups(b)
    requires forall x :: x in a ==> x !in b
    ensures NoDups(a + b)
  {
    forall p, q | 0 <= p < q < |a + b|
      ensures (a + b)[p] != (a + b)[q]
    {
      if q < |a| {
        assert (a + b)[p] == a[p] && (a + b)[q] == a[q];
      } else if p < |a| {
        assert (a + b)[p] == a[p] && a[p] in a;
        assert (a + b)[q] == b[q - |a|];
      } else {
        assert (a + b)[p] == b[p - |a|] && (a + b)[q] == b[q - |a|];
      }
    }
  }

  /** No two lines of the node share an id. */
  ghost predicate LinesDistinct(ls: seq<Line>)
  {
    forall x, y :: 0 <= x < y < |ls| ==> ls[x].id != ls[y].id
  }

  /** No line of the node shares an id with a line of the ancestor. */
  ghost predicate CrossDistinct(cur: seq<Line>, anc: seq<Line>)
  {
    forall s, t :: 0 <= s < |anc| && 0 <= t < |cur| ==> cur[t].id != anc[s].id
  }

  /** Lines 184-197: the pairs (ls[i], ls[y]) for i < y < j. */
  function RowChecks(ls: seq<Line>, i: nat, j: nat): seq<(Line, Line)>
    requires i < |ls| && j <= |ls|
  {
    seq(if j > i then j - i - 1 else 0, p requires 0 <= p < j - i - 1 => (ls[i], ls[i + 1 + p]))
  }

  lemma RowChecksSnoc(ls: seq<Line>, i: nat, j: nat)
    requires i < j < |ls|
    ensures RowChecks(ls, i, j + 1) == RowChecks(ls, i, j) + [(ls[i], ls[j])]
  {
  }

  /** Lines 183-198: the pairs of rows 0..i-1. */
  function NodeChecks(ls: seq<Line>, i: nat): seq<(Line, Line)>
    requires i <= |ls|
  {
    if i == 0 then [] else NodeChecks(ls, i - 1) + RowChecks(ls, i - 1, |ls|)
  }

  lemma {:induction false} NodeChecksSound(ls: seq<Line>, i: nat, q: (Line, Line))
    requires i <= |ls| && q in NodeChecks(ls, i)
    ensures exists x, y :: 0 <= x < i && x < y < |ls| && q == (ls[x], ls[y])
  {
    var row := RowChecks(ls, i - 1, |ls|);
    if q in NodeChecks(ls, i - 1) {
      NodeChecksSound(ls, i - 1, q);
    } else {
      var p :| 0 <= p < |row| && row[p] == q;
      assert q == (ls[i - 1], ls[i + p]);
    }
  }

  lemma {:induction false} NodeChecksComplete(ls: seq<Line>, i: nat, x: nat, y: nat)
    requires x < i <= |ls| && x < y < |ls|
    ensures (ls[x], ls[y]) in NodeChecks(ls, i)
  {
    if x < i - 1 {
      NodeChecksComplete(ls, i - 1, x, y);
    } else {
      assert RowChecks(ls, x, |ls|)[y - x - 1] == (ls[x], ls[y]);
    }
  }

  lemma {:induction false} NodeChecksNoDups(ls: seq<Line>, i: nat)
    requires i <= |ls| && LinesDistinct(ls)
    ensures NoDups(NodeChecks(ls, i))
  {
    if i > 0 {
      NodeChecksNoDups(ls, i - 1);
      var done := NodeChecks(ls, i - 1);
      var row := RowChecks(ls, i - 1, |ls|);
      forall q | q in done
        ensures q !in row
      {
        NodeChecksSound(ls, i - 1, q);
      }
      NoDupsAppend(done, row);
    }
  }

  lemma {:induction false} NodeChecksLength(ls: seq<Line>, i: nat)
    requires i <= |ls|
    ensures 2 * |NodeChecks(ls, i)| == i * (2 * |ls| - i - 1)
  {
    if i > 0 {
      NodeChecksLength(ls, i - 1);
      var n := |ls|;
      assert (i - 1) * (2 * n - i) + 2 * (n - i) == i * (2 * n - i - 1);
    }
  }

  lemma NodeChecksCount(ls: seq<Line>)
    ensures 2 * |NodeChecks(ls, |ls|)| == |ls| * (|ls| - 1)
  {
    NodeChecksLength(ls, |ls|);
    assert 2 * |ls| - |ls| - 1 == |ls| - 1;
  }

  /**
   * Lines 183-198 test every pair of lines (ls[x], ls[y]) with x < y, and
   * nothing else: n(n-1)/2 tests, none of them twice when the ids differ.
   */
  lemma NodeChecksOnce(ls: seq<Line>)
    ensures forall q :: q in NodeChecks(ls, |ls|) ==> exists x, y :: 0 <= x < y < |ls| && q == (ls[x], ls[y])
    ensures forall x, y :: 0 <= x < y < |ls| ==> (ls[x], ls[y]) in NodeChecks(ls, |ls|)
    ensures 2 * |NodeChecks(ls, |ls|)| == |ls| * (|ls| - 1)
    ensures LinesDistinct(ls) ==> NoDups(NodeChecks(ls, |ls|))
  {
    forall q | q in NodeChecks(ls, |ls|)
      ensures exists x, y :: 0 <= x < y < |ls| && q == (ls[x], ls[y])
    {
      NodeChecksSound(ls, |ls|, q);
    }
    forall x, y | 0 <= x < y < |ls|
      ensures (ls[x], ls[y]) in NodeChecks(ls, |ls|)
    {
      NodeChecksComplete(ls, |ls|, x, y);
    }
    NodeChecksCount(ls);
    if LinesDistinct(ls) {
      NodeChecksNoDups(ls, |ls|);
    }
  }

  /** Lines 210-225, one value of check_source_index: the pairs (cur[x], anc[s]) for x < t. */
  function CrossRow(cur: seq<Line>, anc: seq<Line>, s: nat, t: nat): seq<(Line, Line)>
    requires s < |anc| && t <= |cur|
  {
    seq(t, x requires 0 <= x < t => (cur[x], anc[s]))
  }

  lemma CrossRowSnoc(cur: seq<Line>, anc: seq<Line>, s: nat, t: nat)
    requires s < |anc| && t < |cur|
    ensures CrossRow(cur, anc, s, t + 1) == CrossRow(cur, anc, s, t) + [(cur[t], anc[s])]
  {
  }

  /** Lines 209-226: the pairs of check_source_index 0..s-1. */
  function CrossChecks(cur: seq<Line>, anc: seq<Line>, s: nat): seq<(Line, Line)>
    requires s <= |anc|
  {
    if s == 0 then [] else CrossChecks(cur, anc, s - 1) + CrossRow(cur, anc, s - 1, |cur|)
  }

  lemma {:induction false} CrossChecksSound(cur: seq<Line>, anc: seq<Line>, s: nat, q: (Line, Line))
    requires s <= |anc| && q in CrossChecks(cur, anc, s)
    ensures exists a, t :: 0 <= a < s && 0 <= t < |cur| && q == (cur[t], anc[a])
  {
    var row := CrossRow(cur, anc, s - 1, |cur|);
    if q in CrossChecks(cur, anc, s - 1) {
      CrossChecksSound(cur, anc, s - 1, q);
    } else {
      var t :| 0 <= t < |row| && row[t] == q;
      assert q == (cur[t], anc[s - 1]);
    }
  }

  lemma {:induction false} CrossChecksComplete(cur: seq<Line>, anc: seq<Line>, s: nat, a: nat, t: nat)
    requires a < s <= |anc| && t < |cur|
    ensures (cur[t], anc[a]) in CrossChecks(cur, anc, s)
  {
    if a < s - 1 {
      CrossChecksComplete(cur, anc, s - 1, a, t);
    } else {
      assert CrossRow(cur, anc, a, |cur|)[t] == (cur[t], anc[a]);
    }
  }

  lemma {:induction false} CrossChecksNoDups(cur: seq<Line>, anc: seq<Line>, s: nat)
    requires s <= |anc| && LinesDistinct(cur) && LinesDistinct(anc)
    ensures NoDups(CrossChecks(cur, anc, s))
  {
    if s > 0 {
      CrossChecksNoDups(cur, anc, s - 1);
      var done := CrossChecks(cur, anc, s - 1);
      var row := CrossRow(cur, anc, s - 1, |cur|);
      forall q | q in done
        ensures q !in row
      {
        CrossChecksSound(cur, anc, s - 1, q);
      }
      NoDupsAppend(done, row);
    }
  }

  lemma {:induction false} CrossChecksLength(cur: seq<Line>, anc: seq<Line>, s: nat)
    requires s <= |anc|
    ensures |CrossChecks(cur, anc, s)| == s * |cur|
  {
    if s > 0 {
      CrossChecksLength(cur, anc, s - 1);
      assert (s - 1) * |cur| + |cur| == s * |cur|;
    }
  }

  /**
   * Lines 209-226 test every line of the node against every line of the
   * ancestor, and nothing else: |anc| * |cur| tests, none of them twice when
   * the ids differ within each node.
   */
  lemma CrossChecksOnce(cur: seq<Line>, anc: seq<Line>)
    ensures forall q :: q in CrossChecks(cur, anc, |anc|) ==> exists a, t :: 0 <= a < |anc| && 0 <= t < |cur| && q == (cur[t], anc[a])
    ensures forall a, t :: 0 <= a < |anc| && 0 <= t < |cur| ==> (cur[t], anc[a]) in CrossChecks(cur, anc, |anc|)
    ensures |CrossChecks(cur, anc, |anc|)| == |anc| * |cur|
    ensures LinesDistinct(cur) && LinesDistinct(anc) ==> NoDups(CrossChecks(cur, anc, |anc|))
  {
    forall q | q in CrossChecks(cur, anc, |anc|)
      ensures exists a, t :: 0 <= a < |anc| && 0 <= t < |cur| && q == (cur[t], anc[a])
    {
      CrossChecksSound(cur, anc, |anc|, q);
    }
    forall a, t | 0 <= a < |anc| && 0 <= t < |cur|
      ensures (cur[t], anc[a]) in CrossChecks(cur, anc, |anc|)
    {
      CrossChecksComplete(cur, anc, |anc|, a, t);
    }
    CrossChecksLength(cur, anc, |anc|);
    if LinesDistinct(cur) && LinesDistinct(anc) {
      CrossChecksNoDups(cur, anc, |anc|);
    }
  }

  // ---------------------------------------------------------------------------
  // The ancestor walk

  /** A node below the root has a registered parent one level up. */
  ghost predicate ParentOk(nodes: seq<Node>, i: nat)
    requires i < |nodes|
  {
    nodes[i].depth > 0 ==>
      && nodes[i].parent.Some?
      && nodes[i].parent.value < |nodes|
      && nodes[nodes[i].parent.value].depth + 1 == nodes[i].depth
  }

  /** What the walk up the tree needs: every node's parent chain reaches depth 0. */
  ghost predicate AncestryOk(nodes: seq<Node>)
  {
    forall i :: 0 <= i < |nodes| ==> ParentOk(nodes, i)
  }

  /** Every tree the quadtree builds can be walked up. */
  lemma ShapesAncestry(nodes: seq<Node>)
    requires ShapesOk(nodes)
    ensures AncestryOk(nodes)
  {
    forall i | 0 <= i < |nodes|
      ensures ParentOk(nodes, i)
    {
      assert ShapeOk(nodes, i);
      if nodes[i].parent.Some? {
        ParentDepth(nodes, i);
      }
    }
  }

  /** Lines 202-205: the node reached by following `parent` d times from node k. */
  function AncestorAt(nodes: seq<Node>, k: nat, d: nat): (a: nat)
    requires AncestryOk(nodes) && k < |nodes| && 1 <= d <= nodes[k].depth
    ensures a < |nodes| && nodes[a].depth + d == nodes[k].depth
    decreases d
  {
    if d == 1 then
      assert ParentOk(nodes, k);
      nodes[k].parent.value
    else
      var b := AncestorAt(nodes, k, d - 1);
      assert ParentOk(nodes, b);
      nodes[b].parent.value
  }

  /** Walking d+1 steps from k is walking d steps from k's parent. */
  lemma {:induction false} AncestorShift(nodes: seq<Node>, k: nat, d: nat)
    requires AncestryOk(nodes) && k < |nodes| && 1 <= d < nodes[k].depth
    ensures ParentOk(nodes, k)
    ensures AncestorAt(nodes, k, d + 1) == AncestorAt(nodes, nodes[k].parent.value, d)
    decreases d
  {
    assert ParentOk(nodes, k);
    if d > 1 {
      AncestorShift(nodes, k, d - 1);
    }
  }

  /** Each node the walk reaches is a strict ancestor of k. */
  lemma {:induction false} AncestorIsAncestor(nodes: seq<Node>, k: nat, d: nat)
    requires AncestryOk(nodes) && k < |nodes| && 1 <= d <= nodes[k].depth
    ensures AncestorAt(nodes, k, d) != k
    ensures InSubtree(nodes, AncestorAt(nodes, k, d), k)
    decreases d
  {
    assert ParentOk(nodes, k);
    var p := nodes[k].parent.value;
    if d == 1 {
      assert InSubtree(nodes, p, p);
    } else {
      AncestorShift(nodes, k, d - 1);
      AncestorIsAncestor(nodes, p, d - 1);
    }
  }

  /** Every strict ancestor of k is reached, by the walk of the length the depths differ by. */
  lemma {:induction false} AncestorReached(nodes: seq<Node>, k: nat, a: nat)
    requires AncestryOk(nodes) && k < |nodes| && a < |nodes| && a != k && InSubtree(nodes, a, k)
    ensures nodes[a].depth < nodes[k].depth
    ensures AncestorAt(nodes, k, nodes[k].depth - nodes[a].depth) == a
    decreases nodes[k].depth
  {
    var p := nodes[k].parent.value;
    assert ParentOk(nodes, k);
    if p == a {
    } else {
      AncestorReached(nodes, p, a);
      AncestorShift(nodes, k, nodes[p].depth - nodes[a].depth);
    }
  }

  // ---------------------------------------------------------------------------
  // All pairs tested

  /** Lines 201-227, levels 0..i-1: the node's lines against those of the ancestors 1..i steps up. */
  function AncestorChecks(nodes: seq<Node>, k: nat, i: nat): seq<(Line, Line)>
    requires AncestryOk(nodes) && k < |nodes| && i <= nodes[k].depth
  {
    if i == 0 then []
    else
      var anc := nodes[AncestorAt(nodes, k, i)].lines;
      AncestorChecks(nodes, k, i - 1) + CrossChecks(nodes[k].lines, anc, |anc|)
  }

  /** No line of node k shares an id with a line of the ancestors 1..i steps up. */
  ghost predicate AncestorsDistinct(nodes: seq<Node>, k: nat, i: nat)
    requires AncestryOk(nodes) && k < |nodes| && i <= nodes[k].depth
  {
    i == 0 ||
    (AncestorsDistinct(nodes, k, i - 1) && CrossDistinct(nodes[k].lines, nodes[AncestorAt(nodes, k, i)].lines))
  }

  lemma {:induction false} AncestorsDistinctAt(nodes: seq<Node>, k: nat, n: nat, d: nat)
    requires AncestryOk(nodes) && k < |nodes| && n <= nodes[k].depth && AncestorsDistinct(nodes, k, n)
    requires 1 <= d <= n
    ensures CrossDistinct(nodes[k].lines, nodes[AncestorAt(nodes, k, d)].lines)
  {
    if d < n {
      AncestorsDistinctAt(nodes, k, n - 1, d);
    }
  }

  lemma {:induction false} AncestorsDistinctIntro(nodes: seq<Node>, k: nat, n: nat)
    requires AncestryOk(nodes) && k < |nodes| && n <= nodes[k].depth
    requires forall d :: 1 <= d <= n ==> CrossDistinct(nodes[k].lines, nodes[AncestorAt(nodes, k, d)].lines)
    ensures AncestorsDistinct(nodes, k, n)
  {
    if n > 0 {
      AncestorsDistinctIntro(nodes, k, n - 1);
    }
  }

  /** The ids met by the tests of node k differ. */
  ghost predicate ComparableAt(nodes: seq<Node>, k: nat)
    requires AncestryOk(nodes) && k < |nodes|
  {
    LinesDistinct(nodes[k].lines) && AncestorsDistinct(nodes, k, nodes[k].depth)
  }

  /** What `intersect` demands of the tree: every pair it is given has two different ids. */
  ghost predicate Comparable(nodes: seq<Node>)
  {
    AncestryOk(nodes) && forall k :: 0 <= k < |nodes| ==> ComparableAt(nodes, k)
  }

  /** Lines 179-227, nodes 0..m-1: each node's own pairs, then its pairs with its ancestors. */
  function AllChecks(nodes: seq<Node>, m: nat): seq<(Line, Line)>
    requires AncestryOk(nodes) && m <= |nodes|
  {
    if m == 0 then []
    else
      var k := m - 1;
      AllChecks(nodes, k) + NodeChecks(nodes[k].lines, |nodes[k].lines|) + AncestorChecks(nodes, k, nodes[k].depth)
  }

  /** Within a node whose ids differ, every pair tested has two different ids. */
  lemma NodeChecksDistinct(ls: seq<Line>)
    requires LinesDistinct(ls)
    ensures Distinct(NodeChecks(ls, |ls|))
  {
    forall q | q in NodeChecks(ls, |ls|)
      ensures q.0.id != q.1.id
    {
      NodeChecksSound(ls, |ls|, q);
    }
  }

  /** Against an ancestor none of whose ids the node shares, every pair tested has two different ids. */
  lemma CrossChecksDistinct(cur: seq<Line>, anc: seq<Line>)
    requires CrossDistinct(cur, anc)
    ensures Distinct(CrossChecks(cur, anc, |anc|))
  {
    forall q | q in CrossChecks(cur, anc, |anc|)
      ensures q.0.id != q.1.id
    {
      CrossChecksSound(cur, anc, |anc|, q);
    }
  }

  lemma {:induction false} AncestorChecksDistinct(nodes: seq<Node>, k: nat, i: nat)
    requires AncestryOk(nodes) && k < |nodes| && i <= nodes[k].depth && AncestorsDistinct(nodes, k, i)
    ensures Distinct(AncestorChecks(nodes, k, i))
  {
    if i > 0 {
      AncestorChecksDistinct(nodes, k, i - 1);
      CrossChecksDistinct(nodes[k].lines, nodes[AncestorAt(nodes, k, i)].lines);
    }
  }

  /**
   * In a tree meeting `intersect`'s demand, every pair detect_collisions tests
   * has two different ids, so no test falls on the equal-ids case of Emit.
   */
  lemma {:induction false} ComparableDistinct(nodes: seq<Node>, m: nat)
    requires Comparable(nodes) && m <= |nodes|
    ensures Distinct(AllChecks(nodes, m))
  {
    if m > 0 {
      var k := m - 1;
      ComparableDistinct(nodes, k);
      assert ComparableAt(nodes, k);
      NodeChecksDistinct(nodes[k].lines);
      AncestorChecksDistinct(nodes, k, nodes[k].depth);
    }
  }

  /** No two line slots of the tree hold the same id. */
  ghost predicate IdsDistinct(nodes: seq<Node>)
  {
    forall a, b, x, y ::
      (0 <= a < |nodes| && 0 <= b < |nodes| && 0 <= x < |nodes[a].lines| && 0 <= y < |nodes[b].lines| && (a != b || x != y))
      ==> nodes[a].lines[x].id != nodes[b].lines[y].id
  }

  lemma IdsDiffer(nodes: seq<Node>, a: nat, x: nat, b: nat, y: nat)
    requires IdsDistinct(nodes) && a < |nodes| && b < |nodes| && x < |nodes[a].lines| && y < |nodes[b].lines|
    requires a != b || x != y
    ensures nodes[a].lines[x] != nodes[b].lines[y]
  {
  }

  /** A tree whose line ids are all different meets what `intersect` demands. */
  lemma IdsDistinctComparable(nodes: seq<Node>)
    requires AncestryOk(nodes) && IdsDistinct(nodes)
    ensures Comparable(nodes)
  {
    forall k | 0 <= k < |nodes|
      ensures ComparableAt(nodes, k)
    {
      forall d | 1 <= d <= nodes[k].depth
        ensures CrossDistinct(nodes[k].lines, nodes[AncestorAt(nodes, k, d)].lines)
      {
        var a := AncestorAt(nodes, k, d);
        assert a != k;
      }
      AncestorsDistinctIntro(nodes, k, nodes[k].depth);
    }
  }

  /** Two different slots of a sequence are two elements of its multiset, counted apart. */
  lemma SlotsPair<T>(s: seq<T>, x: nat, y: nat)
    requires x < |s| && y < |s| && x != y
    ensures multiset{s[x], s[y]} <= multiset(s)
  {
    var i, j := if x < y then x else y, if x < y then y else x;
    assert s == s[..j] + s[j..];
    assert s[..j][i] == s[i] && s[j..][0] == s[j];
    assert multiset(s) == multiset(s[..j]) + multiset(s[j..]);
  }

  lemma {:induction false} SlotInAllLines(nodes: seq<Node>, a: nat, x: nat)
    requires a < |nodes| && x < |nodes[a].lines|
    ensures nodes[a].lines[x] in AllLines(nodes)
  {
    var last := |nodes| - 1;
    if a < last {
      SlotInAllLines(nodes[..last], a, x);
    } else {
      assert nodes[a].lines[x] in multiset(nodes[last].lines);
    }
  }

  /** Two different line slots of the registry are two elements of its multiset of lines, counted apart. */
  lemma {:induction false} SlotsInAllLines(nodes: seq<Node>, a: nat, x: nat, b: nat, y: nat)
    requires a < |nodes| && b < |nodes| && x < |nodes[a].lines| && y < |nodes[b].lines| && (a != b || x != y)
    ensures multiset{nodes[a].lines[x], nodes[b].lines[y]} <= AllLines(nodes)
  {
    var last := |nodes| - 1;
    var prefix := nodes[..last];
    var own := multiset(nodes[last].lines);
    var la, lb := nodes[a].lines[x], nodes[b].lines[y];
    assert AllLines(nodes) == AllLines(prefix) + own;
    if a < last && b < last {
      SlotsInAllLines(prefix, a, x, b, y);
    } else if a < last {
      SlotInAllLines(prefix, a, x);
      assert lb in own;
    } else if b < last {
      SlotInAllLines(prefix, b, y);
      assert la in own;
    } else {
      SlotsPair(nodes[last].lines, x, y);
    }
    PairInSum(la, lb, AllLines(prefix), own);
  }

  lemma PairInSum(p: Line, q: Line, m: multiset<Line>, n: multiset<Line>)
    requires || multiset{p, q} <= m || multiset{p, q} <= n
             || (p in m && q in n) || (q in m && p in n)
    ensures multiset{p, q} <= m + n
  {
  }

  /** A list of lines whose ids differ holds each line at most once. */
  lemma {:induction false} DistinctAtMostOnce(ws: seq<Line>, v: Line)
    requires LinesDistinct(ws)
    ensures multiset(ws)[v] <= 1
  {
    if ws != [] {
      var n := |ws| - 1;
      var init := ws[..n];
      assert ws == init + [ws[n]];
      assert LinesDistinct(init);
      DistinctAtMostOnce(init, v);
      if v == ws[n] {
        forall i | 0 <= i < n
          ensures init[i] != v
        {
          assert init[i].id != ws[n].id;
        }
      }
    }
  }

  /** A registry holding exactly the lines of a list whose ids differ has all its ids different. */
  lemma WorldIdsDistinct(nodes: seq<Node>, ws: seq<Line>)
    requires AllLines(nodes) == multiset(ws) && LinesDistinct(ws)
    ensures IdsDistinct(nodes)
  {
    forall a, b, x, y |
      0 <= a < |nodes| && 0 <= b < |nodes| && 0 <= x < |nodes[a].lines| && 0 <= y < |nodes[b].lines| && (a != b || x != y)
      ensures nodes[a].lines[x].id != nodes[b].lines[y].id
    {
      var la, lb := nodes[a].lines[x], nodes[b].lines[y];
      SlotsInAllLines(nodes, a, x, b, y);
      DistinctAtMostOnce(ws, la);
      assert multiset{la, lb}[la] <= multiset(ws)[la] && multiset{la, lb}[lb] <= multiset(ws)[lb];
      assert la in ws && lb in ws;
      var i :| 0 <= i < |ws| && ws[i] == la;
      var j :| 0 <= j < |ws| && ws[j] == lb;
    }
  }

  /**
   * A tree whose lines are exactly those of a world with different ids, as
   * parse_CollisionWorld_to_Quadtree builds into an empty registry, meets what
   * `intersect` demands of every pair detect_collisions tests.
   */
  lemma WorldComparable(nodes: seq<Node>, ws: seq<Line>)
    requires WellFormed(nodes) && AllLines(nodes) == multiset(ws) && LinesDistinct(ws)
    ensures AncestryOk(nodes) && Comparable(nodes)
  {
    ShapesAncestry(nodes);
    WorldIdsDistinct(nodes, ws);
    IdsDistinctComparable(nodes);
  }

  /** q pairs two lines of node k, the first stored before the second. */
  ghost predicate NodePair(nodes: seq<Node>, k: nat, q: (Line, Line))
    requires k < |nodes|
  {
    exists x, y :: 0 <= x < y < |nodes[k].lines| && q == (nodes[k].lines[x], nodes[k].lines[y])
  }

  /** q pairs a line of node k with a line of a strict ancestor a of k. */
  ghost predicate AncestorPair(nodes: seq<Node>, k: nat, q: (Line, Line))
    requires k < |nodes|
  {
    exists a, t, s ::
      && 0 <= a < |nodes| && a != k && InSubtree(nodes, a, k)
      && 0 <= t < |nodes[k].lines| && 0 <= s < |nodes[a].lines|
      && q == (nodes[k].lines[t], nodes[a].lines[s])
  }

  /** Each pair of levels 1..i pairs a line of node k with a line of the ancestor d steps up. */
  lemma {:induction false} AncestorChecksSound(nodes: seq<Node>, k: nat, i: nat, q: (Line, Line))
    returns (d: nat, t: nat, s: nat)
    requires AncestryOk(nodes) && k < |nodes| && i <= nodes[k].depth && q in AncestorChecks(nodes, k, i)
    ensures 1 <= d <= i && t < |nodes[k].lines| && s < |nodes[AncestorAt(nodes, k, d)].lines|
    ensures q == (nodes[k].lines[t], nodes[AncestorAt(nodes, k, d)].lines[s])
  {
    var anc := nodes[AncestorAt(nodes, k, i)].lines;
    if q in AncestorChecks(nodes, k, i - 1) {
      d, t, s := AncestorChecksSound(nodes, k, i - 1, q);
    } else {
      CrossChecksSound(nodes[k].lines, anc, |anc|, q);
      d := i;
      s, t :| 0 <= s < |anc| && 0 <= t < |nodes[k].lines| && q == (nodes[k].lines[t], anc[s]);
    }
  }

  lemma {:induction false} AncestorChecksComplete(nodes: seq<Node>, k: nat, i: nat, d: nat, t: nat, s: nat)
    requires AncestryOk(nodes) && k < |nodes| && 1 <= d <= i <= nodes[k].depth
    requires t < |nodes[k].lines| && s < |nodes[AncestorAt(nodes, k, d)].lines|
    ensures (nodes[k].lines[t], nodes[AncestorAt(nodes, k, d)].lines[s]) in AncestorChecks(nodes, k, i)
  {
    var anc := nodes[AncestorAt(nodes, k, i)].lines;
    var cross := CrossChecks(nodes[k].lines, anc, |anc|);
    assert AncestorChecks(nodes, k, i) == AncestorChecks(nodes, k, i - 1) + cross;
    if d < i {
      AncestorChecksComplete(nodes, k, i - 1, d, t, s);
    } else {
      CrossChecksComplete(nodes[k].lines, anc, |anc|, s, t);
      assert (nodes[k].lines[t], anc[s]) in cross;
    }
  }

  /** A pair of the ancestor levels is an AncestorPair whose first line is the t-th of node k. */
  lemma AncestorChecksPair(nodes: seq<Node>, k: nat, q: (Line, Line)) returns (t: nat)
    requires AncestryOk(nodes) && k < |nodes| && q in AncestorChecks(nodes, k, nodes[k].depth)
    ensures t < |nodes[k].lines| && q.0 == nodes[k].lines[t]
    ensures AncestorPair(nodes, k, q)
  {
    var d, s;
    d, t, s := AncestorChecksSound(nodes, k, nodes[k].depth, q);
    var a := AncestorAt(nodes, k, d);
    AncestorIsAncestor(nodes, k, d);
    assert q == (nodes[k].lines[t], nodes[a].lines[s]);
  }

  /** Each AncestorPair of node k is among the pairs of its ancestor levels. */
  lemma AncestorPairChecked(nodes: seq<Node>, k: nat, q: (Line, Line))
    requires AncestryOk(nodes) && k < |nodes| && AncestorPair(nodes, k, q)
    ensures q in AncestorChecks(nodes, k, nodes[k].depth)
  {
    var a, t, s :|
      && 0 <= a < |nodes| && a != k && InSubtree(nodes, a, k)
      && 0 <= t < |nodes[k].lines| && 0 <= s < |nodes[a].lines|
      && q == (nodes[k].lines[t], nodes[a].lines[s]);
    AncestorReached(nodes, k, a);
    var d := nodes[k].depth - nodes[a].depth;
    assert nodes[AncestorAt(nodes, k, d)].lines == nodes[a].lines;
    AncestorChecksComplete(nodes, k, nodes[k].depth, d, t, s);
  }

  lemma {:induction false} AncestorChecksNoDups(nodes: seq<Node>, k: nat, i: nat)
    requires AncestryOk(nodes) && k < |nodes| && i <= nodes[k].depth && IdsDistinct(nodes)
    ensures NoDups(AncestorChecks(nodes, k, i))
  {
    if i > 0 {
      AncestorChecksNoDups(nodes, k, i - 1);
      var b := AncestorAt(nodes, k, i);
      var cur, anc := nodes[k].lines, nodes[b].lines;
      IdsDistinctLines(nodes, k);
      IdsDistinctLines(nodes, b);
      var done, cross := AncestorChecks(nodes, k, i - 1), CrossChecks(cur, anc, |anc|);
      assert AncestorChecks(nodes, k, i) == done + cross;
      CrossChecksNoDups(cur, anc, |anc|);
      forall q | q in done
        ensures q !in cross
      {
        AncestorLevelsApart(nodes, k, i, q);
        CrossChecksSecond(cur, anc, q);
      }
      NoDupsAppend(done, cross);
    }
  }

  /** The pairs of the levels below i share no second line with those of level i. */
  lemma AncestorLevelsApart(nodes: seq<Node>, k: nat, i: nat, q: (Line, Line))
    requires AncestryOk(nodes) && k < |nodes| && 1 <= i <= nodes[k].depth && IdsDistinct(nodes)
    requires q in AncestorChecks(nodes, k, i - 1)
    ensures q.1 !in nodes[AncestorAt(nodes, k, i)].lines
  {
    var b := AncestorAt(nodes, k, i);
    var d, t, s := AncestorChecksSound(nodes, k, i - 1, q);
    var e := AncestorAt(nodes, k, d);
    forall a | 0 <= a < |nodes[b].lines|
      ensures q.1 != nodes[b].lines[a]
    {
      IdsDiffer(nodes, e, s, b, a);
    }
  }

  lemma CrossChecksSecond(cur: seq<Line>, anc: seq<Line>, q: (Line, Line))
    ensures q in CrossChecks(cur, anc, |anc|) ==> q.1 in anc
  {
    if q in CrossChecks(cur, anc, |anc|) {
      CrossChecksSound(cur, anc, |anc|, q);
    }
  }

  lemma IdsDistinctLines(nodes: seq<Node>, k: nat)
    requires IdsDistinct(nodes) && k < |nodes|
    ensures LinesDistinct(nodes[k].lines)
  {
    forall x, y | 0 <= x < y < |nodes[k].lines|
      ensures nodes[k].lines[x].id != nodes[k].lines[y].id
    {
      IdsDiffer(nodes, k, x, k, y);
    }
  }

  /**
   * Lines 201-227 test each line of node k against each line of each strict
   * ancestor of k, and nothing else; none of them twice when the ids of the
   * tree all differ.
   */
  lemma AncestorChecksOnce(nodes: seq<Node>, k: nat)
    requires AncestryOk(nodes) && k < |nodes|
    ensures forall q :: q in AncestorChecks(nodes, k, nodes[k].depth) <==> AncestorPair(nodes, k, q)
    ensures IdsDistinct(nodes) ==> NoDups(AncestorChecks(nodes, k, nodes[k].depth))
  {
    forall q
      ensures q in AncestorChecks(nodes, k, nodes[k].depth) <==> AncestorPair(nodes, k, q)
    {
      if q in AncestorChecks(nodes, k, nodes[k].depth) {
        var _ := AncestorChecksPair(nodes, k, q);
      }
      if AncestorPair(nodes, k, q) {
        AncestorPairChecked(nodes, k, q);
      }
    }
    if IdsDistinct(nodes) {
      AncestorChecksNoDups(nodes, k, nodes[k].depth);
    }
  }

  /** Each pair of nodes 0..m-1 is a NodePair or an AncestorPair of one of them, k, whose first line is of k. */
  lemma {:induction false} AllChecksSound(nodes: seq<Node>, m: nat, q: (Line, Line)) returns (k: nat, t: nat)
    requires AncestryOk(nodes) && m <= |nodes| && q in AllChecks(nodes, m)
    ensures k < m && t < |nodes[k].lines| && q.0 == nodes[k].lines[t]
    ensures NodePair(nodes, k, q) || AncestorPair(nodes, k, q)
  {
    var j := m - 1;
    var ls := nodes[j].lines;
    if q in AllChecks(nodes, j) {
      k, t := AllChecksSound(nodes, j, q);
    } else if q in NodeChecks(ls, |ls|) {
      NodeChecksOnce(ls);
      var x, y :| 0 <= x < y < |ls| && q == (ls[x], ls[y]);
      k, t := j, x;
    } else {
      k := j;
      t := AncestorChecksPair(nodes, j, q);
    }
  }

  lemma {:induction false} AllChecksComplete(nodes: seq<Node>, m: nat, k: nat, q: (Line, Line))
    requires AncestryOk(nodes) && k < m <= |nodes|
    requires q in NodeChecks(nodes[k].lines, |nodes[k].lines|) || q in AncestorChecks(nodes, k, nodes[k].depth)
    ensures q in AllChecks(nodes, m)
  {
    var j := m - 1;
    var ls := nodes[j].lines;
    var done, own, up := AllChecks(nodes, j), NodeChecks(ls, |ls|), AncestorChecks(nodes, j, nodes[j].depth);
    assert AllChecks(nodes, m) == done + own + up;
    if k < j {
      AllChecksComplete(nodes, j, k, q);
      assert q in done;
    }
  }

  /** A pair of nodes 0..k-1 has no line of node k as its first line. */
  lemma EarlierNodesApart(nodes: seq<Node>, k: nat, q: (Line, Line))
    requires AncestryOk(nodes) && k < |nodes| && IdsDistinct(nodes) && q in AllChecks(nodes, k)
    ensures q.0 !in nodes[k].lines
  {
    var j, t := AllChecksSound(nodes, k, q);
    forall x | 0 <= x < |nodes[k].lines|
      ensures q.0 != nodes[k].lines[x]
    {
      IdsDiffer(nodes, j, t, k, x);
    }
  }

  /** Both lines of a pair within a node are lines of that node. */
  lemma OwnPairLines(ls: seq<Line>, q: (Line, Line))
    ensures q in NodeChecks(ls, |ls|) ==> q.0 in ls && q.1 in ls
  {
    if q in NodeChecks(ls, |ls|) {
      NodeChecksSound(ls, |ls|, q);
    }
  }

  /** A pair of node k with an ancestor has a line of k first and, when the ids differ, no line of k second. */
  lemma UpPairLines(nodes: seq<Node>, k: nat, q: (Line, Line))
    requires AncestryOk(nodes) && k < |nodes| && IdsDistinct(nodes)
    ensures q in AncestorChecks(nodes, k, nodes[k].depth) ==> q.0 in nodes[k].lines && q.1 !in nodes[k].lines
  {
    if q in AncestorChecks(nodes, k, nodes[k].depth) {
      var d, t, s := AncestorChecksSound(nodes, k, nodes[k].depth, q);
      var a := AncestorAt(nodes, k, d);
      AncestorIsAncestor(nodes, k, d);
      forall x | 0 <= x < |nodes[k].lines|
        ensures q.1 != nodes[k].lines[x]
      {
        IdsDiffer(nodes, a, s, k, x);
      }
    }
  }

  lemma {:induction false} AllChecksNoDups(nodes: seq<Node>, m: nat)
    requires AncestryOk(nodes) && m <= |nodes| && IdsDistinct(nodes)
    ensures NoDups(AllChecks(nodes, m))
  {
    if m > 0 {
      var k := m - 1;
      var ls := nodes[k].lines;
      var done, own, up := AllChecks(nodes, k), NodeChecks(ls, |ls|), AncestorChecks(nodes, k, nodes[k].depth);
      AllChecksNoDups(nodes, k);
      IdsDistinctLines(nodes, k);
      NodeChecksNoDups(ls, |ls|);
      AncestorChecksNoDups(nodes, k, nodes[k].depth);
      forall q | q in done
        ensures q !in own && q !in up
      {
        EarlierNodesApart(nodes, k, q);
        OwnPairLines(ls, q);
        UpPairLines(nodes, k, q);
      }
      NoDupsAppend(done, own);
      forall q | q in own
        ensures q !in up
      {
        OwnPairLines(ls, q);
        UpPairLines(nodes, k, q);
      }
      NoDupsAppend(done + own, up);
    }
  }

  /**
   * Lines 179-227 test, over the whole tree, each pair of lines of one node
   * (the first stored before the second) and each pair of a line of a node
   * with a line of a strict ancestor, and nothing else; none of them twice
   * when the ids of the tree all differ.
   */
  lemma AllChecksOnce(nodes: seq<Node>)
    requires AncestryOk(nodes)
    ensures forall q :: q in AllChecks(nodes, |nodes|) <==>
                        exists k :: 0 <= k < |nodes| && (NodePair(nodes, k, q) || AncestorPair(nodes, k, q))
    ensures IdsDistinct(nodes) ==> NoDups(AllChecks(nodes, |nodes|))
  {
    forall q
      ensures q in AllChecks(nodes, |nodes|) <==>
              exists k :: 0 <= k < |nodes| && (NodePair(nodes, k, q) || AncestorPair(nodes, k, q))
    {
      if q in AllChecks(nodes, |nodes|) {
        var k, _ := AllChecksSound(nodes, |nodes|, q);
      }
      if exists k :: 0 <= k < |nodes| && (NodePair(nodes, k, q) || AncestorPair(nodes, k, q)) {
        var k :| 0 <= k < |nodes| && (NodePair(nodes, k, q) || AncestorPair(nodes, k, q));
        var ls := nodes[k].lines;
        NodeChecksOnce(ls);
        AncestorChecksOnce(nodes, k);
        AllChecksComplete(nodes, |nodes|, k, q);
      }
    }
    if IdsDistinct(nodes) {
      AllChecksNoDups(nodes, |nodes|);
    }
  }

  // ---------------------------------------------------------------------------
  // detect_collisions: the pairs visited

  /** Lines 183-198: the nested loops over i < j, listing the pairs of one node in the order they are tested. */
  method NodePairs(ls: seq<Line>) returns (checks: seq<(Line, Line)>)
    ensures checks == NodeChecks(ls, |ls|)
  {
    checks := [];
    var i := 0;
    while i < |ls|
      invariant i <= |ls| && checks == NodeChecks(ls, i)
    {
      ghost var before := checks;
      var j := i + 1;
      while j < |ls|
        invariant i + 1 <= j <= |ls| && checks == before + RowChecks(ls, i, j)
      {
        checks := checks + [(ls[i], ls[j])];
        RowChecksSnoc(ls, i, j);
        j := j + 1;
      }
      i := i + 1;
    }
  }

  /** Lines 209-226: every line of the node against every line of one ancestor, in the order they are tested. */
  method CrossPairs(cur: seq<Line>, anc: seq<Line>) returns (checks: seq<(Line, Line)>)
    ensures checks == CrossChecks(cur, anc, |anc|)
  {
    checks := [];
    var s := 0;
    while s < |anc|
      invariant s <= |anc| && checks == CrossChecks(cur, anc, s)
    {
      ghost var before := checks;
      var t := 0;
      while t < |cur|
        invariant t <= |cur| && checks == before + CrossRow(cur, anc, s, t)
      {
        checks := checks + [(cur[t], anc[s])];
        CrossRowSnoc(cur, anc, s, t);
        t := t + 1;
      }
      s := s + 1;
    }
  }

  /** Lines 202-205: from node k, follow `parent` i + 1 times. */
  method WalkUp(nodes: seq<Node>, k: nat, i: nat) returns (checking: nat)
    requires AncestryOk(nodes) && k < |nodes| && i < nodes[k].depth
    ensures checking == AncestorAt(nodes, k, i + 1)
    ensures checking < |nodes| && nodes[checking].depth + i + 1 == nodes[k].depth
  {
    assert ParentOk(nodes, k);
    checking := nodes[k].parent.value;
    var j := 0;
    while j < i
      invariant j <= i && checking == AncestorAt(nodes, k, j + 1)
    {
      assert ParentOk(nodes, checking);
      checking := nodes[checking].parent.value;
      j := j + 1;
    }
  }

  /** Lines 201-227: walk up to each ancestor in turn and list its pairs with node k. */
  method AncestorPairs(nodes: seq<Node>, k: nat) returns (checks: seq<(Line, Line)>)
    requires AncestryOk(nodes) && k < |nodes|
    ensures checks == AncestorChecks(nodes, k, nodes[k].depth)
  {
    checks := [];
    var i := 0;
    while i < nodes[k].depth
      invariant i <= nodes[k].depth && checks == AncestorChecks(nodes, k, i)
    {
      var checking := WalkUp(nodes, k, i);
      var against := CrossPairs(nodes[k].lines, nodes[checking].lines);
      checks := checks + against;
      i := i + 1;
    }
  }

  /** Lines 179-227: node after node, its own pairs and then its pairs with its ancestors. */
  method CollisionPairs(nodes: seq<Node>) returns (checks: seq<(Line, Line)>)
    requires AncestryOk(nodes)
    ensures checks == AllChecks(nodes, |nodes|)
  {
    checks := [];
    var k := 0;
    while k < |nodes|
      invariant k <= |nodes| && checks == AllChecks(nodes, k)
    {
      var own := NodePairs(nodes[k].lines);
      var above := AncestorPairs(nodes, k);
      checks := checks + own + above;
      k := k + 1;
    }
  }

  // ---------------------------------------------------------------------------
  // detect_collisions: the tests

  /**
   * Lines 188-197, and again 214-224: put the pair in id order, call
   * `intersect`, and append the event unless the result is NoIntersection.
   */
  method TestPair(list: EventList, l1: Line, l2: Line, test: IntersectTest, ghost emit: Emitter)
    requires EmitsFor(emit, test)
    requires list.Valid() && l1.id != l2.id
    modifies list, list.Repr
    ensures list.Valid()
    ensures list.Contents() == old(list.Contents()) + emit(l1, l2)
    ensures fresh(list.Repr - old(list.Repr))
  {
    assert emit(l1, l2) == Emit(l1, l2, test);
    var a, b := l1, l2;
    if CompareLines(a, b) > 0 {
      a, b := b, a;
    }
    var intersectionType := test(a, b);
    if intersectionType != NoIntersection {
      list.AppendNode(a, b, intersectionType);
    } else {
      AppendNil(list.Contents());
    }
  }

  /** The pairs tested one after the other, each test appending its event, if any. */
  method TestPairs(list: EventList, checks: seq<(Line, Line)>, test: IntersectTest, ghost emit: Emitter)
    requires EmitsFor(emit, test)
    requires list.Valid() && Distinct(checks)
    modifies list, list.Repr
    ensures list.Valid()
    ensures list.Contents() == old(list.Contents()) + Report(checks, emit)
    ensures fresh(list.Repr - old(list.Repr))
  {
    var n := 0;
    while n < |checks|
      invariant n <= |checks| && list.Valid()
      invariant list.Contents() == old(list.Contents()) + Report(checks[..n], emit)
      invariant fresh(list.Repr - old(list.Repr))
    {
      var p := checks[n];
      assert checks[..n + 1] == checks[..n] + [p];
      TestPair(list, p.0, p.1, test, emit);
      ReportSnoc(checks[..n], p, emit);
      AppendAssoc(old(list.Contents()), Report(checks[..n], emit), emit(p.0, p.1));
      n := n + 1;
    }
    assert checks[..n] == checks;
  }

  /**
   * detect_collisions: every node's pairs, then its pairs with its ancestors,
   * node after node; the events appended are those of AllChecks.
   */
  method DetectCollisions(list: EventList, nodes: seq<Node>, test: IntersectTest, ghost emit: Emitter)
    requires EmitsFor(emit, test)
    requires list.Valid() && Comparable(nodes)
    modifies list, list.Repr
    ensures list.Valid()
    ensures list.Contents() == old(list.Contents()) + Report(AllChecks(nodes, |nodes|), emit)
  {
    var checks := CollisionPairs(nodes);
    ComparableDistinct(nodes, |nodes|);
    TestPairs(list, checks, test, emit);
  }

  /** detect_collisions with `intersect` at the given time step. */
  method DetectCollisionsAt(list: EventList, nodes: seq<Node>, time: real, angleOf: (Vec, Vec) -> real)
    requires list.Valid() && Comparable(nodes)
    modifies list, list.Repr
    ensures list.Valid()
    ensures list.Contents() == old(list.Contents()) + Report(AllChecks(nodes, |nodes|), EmitFor(IntersectAt(time, angleOf)))
  {
    var test := IntersectAt(time, angleOf);
    DetectCollisions(list, nodes, test, EmitFor(test));
  }
}
