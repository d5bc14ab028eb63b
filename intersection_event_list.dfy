/**
 * The singly linked event list that collision detection appends to
 * (IntersectionEventList.h is not part of this model; its `make` and
 * `appendNode` are taken to build an empty list and to append a node at the
 * tail, whose `next` is null).
 *
 * A list is a `head`/`tail` pair of node references. The ghost sequence `nodes`
 * names the nodes from head to tail; `Valid` ties the references to it and
 * `Contents` is the abstract sequence of events.
 */
module IntersectionEventList {
  import opened Lines
  import opened IntersectionDetection

  datatype IntersectionEvent = IntersectionEvent(l1: Line, l2: Line, intersectionType: IntersectionType)

  class EventNode {
    const event: IntersectionEvent
    var next: EventNode?

    constructor (e: IntersectionEvent)
      ensures event == e && next == null
    {
      event := e;
      next := null;
    }
  }

  /** The events held by a chain of nodes, in order. */
  function Events(ns: seq<EventNode>): seq<IntersectionEvent>
  {
    if ns == [] then [] else [ns[0].event] + Events(ns[1..])
  }

  lemma {:induction false} EventsLength(ns: seq<EventNode>)
    ensures |Events(ns)| == |ns|
  {
    if ns != [] {
      EventsLength(ns[1..]);
    }
  }

  /** The events of two chains laid end to end are the events of the first, then of the second. */
  lemma {:induction false} EventsAppend(a: seq<EventNode>, b: seq<EventNode>)
    ensures Events(a + b) == Events(a) + Events(b)
  {
    if a == [] {
      assert a + b == b;
    } else {
      assert (a + b)[1..] == a[1..] + b;
      EventsAppend(a[1..], b);
    }
  }

  /** No node occurs in both chains. */
  ghost predicate Disjoint(a: seq<EventNode>, b: seq<EventNode>)
  {
    forall i, j :: 0 <= i < |a| && 0 <= j < |b| ==> a[i] != b[j]
  }

  /** Each node's `next` is the node after it. */
  ghost predicate Linked(ns: seq<EventNode>)
    reads ns
  {
    forall i {:trigger ns[i].next} :: 0 <= i < |ns| - 1 ==> ns[i].next == ns[i + 1]
  }

  /** No node occurs twice. */
  ghost predicate Unique(ns: seq<EventNode>)
  {
    forall i, j :: 0 <= i < j < |ns| ==> ns[i] != ns[j]
  }

  /** Every node is in the set. */
  ghost predicate Within(ns: seq<EventNode>, s: set<object>)
  {
    forall i :: 0 <= i < |ns| ==> ns[i] in s
  }

  /** Two chains, the first ending in the second's first node, make one chain. */
  lemma LinkedAppend(a: seq<EventNode>, b: seq<EventNode>)
    requires Linked(a) && Linked(b)
    requires a != [] && b != [] ==> a[|a| - 1].next == b[0]
    ensures Linked(a + b)
  {
    forall i | 0 <= i < |a| + |b| - 1
      ensures (a + b)[i].next == (a + b)[i + 1]
    {
      if i >= |a| {
        assert (a + b)[i] == b[i - |a|];
      }
    }
  }

  /** A chain whose last node ends the list visits no node twice. */
  lemma {:induction false} LinkedNoRepeat(ns: seq<EventNode>, i: nat, j: nat)
    requires Linked(ns) && ns != [] && ns[|ns| - 1].next == null
    requires i < j < |ns|
    ensures ns[i] != ns[j]
    decreases |ns| - j
  {
    assert ns[i].next == ns[i + 1];
    if j < |ns| - 1 && ns[i] == ns[j] {
      assert ns[j].next == ns[j + 1];
      LinkedNoRepeat(ns, i + 1, j + 1);
    }
  }

  lemma LinkedUnique(ns: seq<EventNode>)
    requires Linked(ns) && (ns != [] ==> ns[|ns| - 1].next == null)
    ensures Unique(ns)
  {
    forall i, j | 0 <= i < j < |ns|
      ensures ns[i] != ns[j]
    {
      LinkedNoRepeat(ns, i, j);
    }
  }

  lemma WithinAppend(a: seq<EventNode>, b: seq<EventNode>, s: set<object>, t: set<object>)
    requires Within(a, s) && Within(b, t)
    ensures Within(a + b, s + t)
  {
  }

  class EventList {
    var head: EventNode?
    var tail: EventNode?
    ghost var nodes: seq<EventNode>
    ghost var Repr: set<object>

    /** head..tail is an acyclic chain through `next` visiting exactly `nodes`, all of them in Repr. */
    ghost predicate Valid()
      reads this, nodes
    {
      && (head == null <==> |nodes| == 0)
      && (tail == null <==> |nodes| == 0)
      && (|nodes| > 0 ==> head == nodes[0] && tail == nodes[|nodes| - 1] && tail.next == null)
      && Linked(nodes)
      && Within(nodes, Repr)
    }

    ghost function Contents(): seq<IntersectionEvent>
      reads this
    {
      Events(nodes)
    }

    /** A valid list is acyclic: no node occurs twice in it. */
    lemma Acyclic()
      requires Valid()
      ensures Unique(nodes)
    {
      LinkedUnique(nodes);
    }

    /** IntersectionEventList_make: the empty list. */
    constructor ()
      ensures Valid() && Contents() == [] && nodes == [] && Repr == {}
      ensures head == null && tail == null
    {
      head := null;
      tail := null;
      nodes := [];
      Repr := {};
    }

    /** IntersectionEventList_appendNode: a fresh node holding the event becomes the new tail. */
    method AppendNode(l1: Line, l2: Line, intersectionType: IntersectionType)
      requires Valid()
      modifies this, Repr
      ensures Valid()
      ensures Contents() == old(Contents()) + [IntersectionEvent(l1, l2, intersectionType)]
      ensures |nodes| == |old(nodes)| + 1 && nodes[..|old(nodes)|] == old(nodes)
      ensures fresh(nodes[|old(nodes)|]) && Repr == old(Repr) + {nodes[|old(nodes)|]}
    {
      var n := new EventNode(IntersectionEvent(l1, l2, intersectionType));
      if tail == null {
        head := n;
      } else {
        tail.next := n;
      }
      tail := n;
      nodes := nodes + [n];
      Repr := Repr + {n};
      EventsAppend(old(nodes), [n]);
    }
  }
}

/**
 * The Cilk reducer over event lists (IntersectionEventListReducer.c): the
 * identity is the empty list and `reduce` splices the right list onto the left
 * in constant time, then empties the right list.
 */
module IntersectionEventListReducer {
  import opened IntersectionEventList

  /** IntersectionEventList_reduce: *left = *left ++ *right, and *right is reset. */
  method Reduce(left: EventList, right: EventList)
    requires left != right
    requires left.Valid() && right.Valid()
    requires Disjoint(left.nodes, right.nodes)
    modifies left, right, left.Repr
    ensures left.Valid() && right.Valid()
    ensures left.nodes == old(left.nodes) + old(right.nodes)
    ensures left.Repr == old(left.Repr) + old(right.Repr)
    ensures left.Contents() == old(left.Contents()) + old(right.Contents())
    ensures right.head == null && right.tail == null && right.Contents() == [] && right.Repr == {}
    ensures old(left.head) == null ==> left.head == old(right.head) && left.tail == old(right.tail)
    ensures old(left.head) != null && old(right.head) == null ==>
              left.head == old(left.head) && left.tail == old(left.tail)
    ensures old(left.head) != null && old(right.head) != null ==>
              && left.head == old(left.head) && left.tail == old(right.tail)
              && old(left.tail).next == old(right.head)
  {
    ghost var ln: seq<EventNode>, rn: seq<EventNode> := left.nodes, right.nodes;
    ghost var lr: set<object>, rr: set<object> := left.Repr, right.Repr;
    if left.head == null {
      left.head := right.head;
      left.tail := right.tail;
    } else if right.head == null {
    } else {
      forall i | 0 <= i < |ln| - 1
        ensures ln[i] != left.tail
      {
        assert ln[i].next == ln[i + 1];
      }
      left.tail.next := right.head;
      left.tail := right.tail;
    }
    right.head, right.tail := null, null;
    left.nodes := ln + rn;
    left.Repr := lr + rr;
    right.nodes := [];
    right.Repr := {};
    LinkedAppend(ln, rn);
    WithinAppend(ln, rn, lr, rr);
    EventsAppend(ln, rn);
  }

  /** IntersectionEventList_identity: *value becomes the empty list. */
  method Identity(value: EventList)
    modifies value
    ensures value.Valid() && value.Contents() == [] && value.head == null && value.tail == null
  {
    value.head, value.tail := null, null;
    value.nodes := [];
    value.Repr := {};
  }
}
