/** The intrusive circular doubly linked lists of snow_os/snow.c, link by link.

    A ring is given by the sequence of its nodes; the first one is the list head that the
    kernel keeps (sched_list, timer_list or the list of a semaphore or mutex), and the
    others are the nodes inside threads and timers. */
module SnowList {

  /** What a node is part of: a list head, or a thread's list or wakeup timer. */
  datatype Id = SchedList | TimerList | WaitList(obj: nat) | ThreadLink(thread: nat) | TimerLink(thread: nat)

  /** `id` stands for holder_of, which finds the structure around a node. */
  class Node {
    const id: Id
    var next: Node
    var prev: Node

    constructor (id: Id)
      ensures this.id == id && IsRing([this])
    {
      this.id := id;
      next := this;
      prev := this;
    }
  }

  /** The nodes are different, and next and prev lead once around them, each the inverse of
      the other. */
  ghost predicate IsRing(ring: seq<Node>)
    reads ring
  {
    && ring != []
    && (forall i, j :: 0 <= i < j < |ring| ==> ring[i] != ring[j])
    && ring[0].prev == ring[|ring| - 1] && ring[|ring| - 1].next == ring[0]
    && (forall i {:trigger ring[i].next} :: 0 <= i < |ring| - 1 ==> ring[i].next == ring[i + 1])
    && (forall i {:trigger ring[i].prev} :: 0 < i < |ring| ==> ring[i].prev == ring[i - 1])
  }

  /** Some node's successor is among them and does not lead back to it. */
  ghost predicate Broken(nodes: seq<Node>)
    reads nodes, set i | 0 <= i < |nodes| :: nodes[i].next
  {
    exists i :: 0 <= i < |nodes| && nodes[i].next in nodes && nodes[i].next.prev != nodes[i]
  }

  lemma RingNotBroken(ring: seq<Node>)
    requires IsRing(ring)
    ensures !Broken(ring)
  {
    forall i | 0 <= i < |ring|
      ensures ring[i].next.prev == ring[i]
    {
      assert i < |ring| - 1 ==> ring[i].next == ring[i + 1] && ring[i + 1].prev == ring[i];
    }
  }

  /** The links after the k-th node of a ring has been put at its end again. */
  ghost predicate PutAgain(ring: seq<Node>, k: nat)
    reads ring
  {
    && 1 <= k < |ring|
    && (forall i, j :: 0 <= i < j < |ring| ==> ring[i] != ring[j])
    && ring[0].prev == ring[k] && ring[k].prev == ring[|ring| - 1] && ring[|ring| - 1].next == ring[k]
    && (k < |ring| - 1 ==> ring[k].next == ring[0])
    && (forall i {:trigger ring[i].next} :: 0 <= i < |ring| - 1 && i != k ==> ring[i].next == ring[i + 1])
    && (forall i {:trigger ring[i].prev} :: 0 < i < |ring| && i != k ==> ring[i].prev == ring[i - 1])
  }

  /** list_init */
  method ListInit(list: Node)
    modifies list
    ensures list.next == list && list.prev == list && IsRing([list])
  {
    list.next := list;
    list.prev := list;
  }

  /** list_insert between two neighbours, the k-th node and the next. */
  method ListInsert(node: Node, prev: Node, next: Node, ghost ring: seq<Node>, ghost k: nat)
    requires IsRing(ring) && node !in ring && k < |ring|
    requires prev == ring[k] && next == ring[k].next
    modifies node, ring
    ensures IsRing(ring[..k + 1] + [node] + ring[k + 1..])
  {
    next.prev := node;
    node.next := next;
    node.prev := prev;
    prev.next := node;
  }

  /** list_remove of the k-th node.  From a ring, the others stay a ring; a node that is
      alone stays so.  The writes are the same on any links. */
  method ListRemove(list: Node, ghost ring: seq<Node>, ghost k: nat)
    requires k < |ring| && list == ring[k] && list.next in ring && list.prev in ring
    modifies ring
    ensures list.next == list && list.prev == list
    ensures forall n :: n in ring && n != list ==>
      && n.prev == (if n == old(list.next) then old(list.prev) else old(n.prev))
      && n.next == (if n == old(list.prev) then old(list.next) else old(n.next))
    ensures old(IsRing(ring)) && |ring| > 1 ==> IsRing(ring[..k] + ring[k + 1..])
  {
    var prev, next := list.prev, list.next;
    next.prev := prev;
    prev.next := next;
    ListInit(list);
  }

  /** list_empty: asked of the head of a ring, whether the ring is nothing else. */
  method ListEmpty(list: Node, ghost ring: seq<Node>) returns (empty: bool)
    ensures empty <==> list.next == list
    ensures IsRing(ring) && list == ring[0] ==> (empty <==> ring == [list])
  {
    empty := list.next == list;
  }

  /** list_fifo_put: a new last node.  The links stay a ring exactly when the node was not
      on the list already. */
  method ListFifoPut(node: Node, fifo: Node, ghost ring: seq<Node>)
    requires IsRing(ring) && fifo == ring[0] && node != fifo
    modifies node, ring
    ensures node !in ring ==> IsRing(ring + [node])
    ensures forall k :: 0 <= k < |ring| && node == ring[k] ==> PutAgain(ring, k)
    ensures node in ring <==> Broken(ring + [node])
  {
    var prev := fifo.prev;
    fifo.prev := node;
    node.next := fifo;
    node.prev := prev;
    prev.next := node;
    if node in ring {
      ghost var k :| 0 <= k < |ring| && ring[k] == node;
      ghost var before := (ring + [node])[k - 1];
      assert before.next == node && node.prev != before && node in ring + [node];
    } else {
      RingNotBroken(ring + [node]);
    }
  }

  /** list_fifo_get: the first node after the head, or none.  After a node has been put
      twice, taking the first one does not mend the links. */
  method ListFifoGet(fifo: Node, ghost ring: seq<Node>, ghost again: nat) returns (first: Node?)
    requires ring != [] && fifo == ring[0] && (IsRing(ring) || PutAgain(ring, again))
    modifies ring
    ensures first == null <==> ring == [fifo]
    ensures first != null ==> first == ring[1]
    ensures old(IsRing(ring)) && first == null ==> IsRing(ring)
    ensures old(IsRing(ring)) && first != null ==> IsRing([fifo] + ring[2..]) && IsRing([first])
    ensures old(PutAgain(ring, again)) ==> Broken(ring)
  {
    var empty := ListEmpty(fifo, ring);
    if empty {
      return null;
    }
    first := fifo.next;
    assert first == ring[1];
    ListRemove(first, ring, 1);
    assert ring[..1] + ring[2..] == [fifo] + ring[2..];
    if old(PutAgain(ring, again)) {
      StillBroken(ring, again);
    }
  }

  /** What is left of the links of PutAgain when the first node has been taken out. */
  ghost predicate TakenAgain(ring: seq<Node>, k: nat)
    reads ring
  {
    && 1 <= k < |ring|
    && (forall i, j :: 0 <= i < j < |ring| ==> ring[i] != ring[j])
    && (if k == 1 then ring[0].next == ring[1] && ring[1].prev == ring[1]
        else if k == 2 then ring[2].prev == ring[0] && ring[|ring| - 1].next == ring[2]
        else ring[k - 1].next == ring[k] && ring[k].prev == ring[|ring| - 1])
  }

  lemma StillBroken(ring: seq<Node>, k: nat)
    requires TakenAgain(ring, k)
    ensures Broken(ring)
  {
    if k == 1 {
      assert ring[0].next.prev != ring[0];
    } else if k == 2 {
      assert ring[|ring| - 1].next.prev != ring[|ring| - 1];
    } else {
      assert ring[k - 1].next.prev != ring[k - 1];
    }
  }
}
