/** The threads and lists of snow_os/snow.c in memory: which node is linked where.

    Every node of the kernel is in exactly one ring.  The ring of sched_list, of
    timer_list and of each wait list spells the sequence that module Snow calls ready,
    timers and waits[o]; a node that is on no list is a ring of its own. */
module SnowLinks {
  import opened Basics
  import opened Snow
  import opened SnowSync
  import opened SnowList

  /** A ring: one of the kernel's lists, or a thread's node or timer that is on none. */
  datatype Slot = OnSched | OnTimers | OnWait(obj: nat) | Loose(thread: nat) | LooseTimer(thread: nat)

  /** The nodes of a list: its head, then those of its threads. */
  function Ring(head: Node, nodes: seq<Node>, list: seq<nat>): (ring: seq<Node>)
    requires forall i :: 0 <= i < |list| ==> list[i] < |nodes|
    ensures |ring| == |list| + 1 && ring[0] == head
    ensures forall i {:trigger ring[i]} :: 0 < i < |ring| ==> ring[i] == nodes[list[i - 1]]
  {
    [head] + seq(|list|, i requires 0 <= i < |list| => nodes[list[i]])
  }

  /** The nodes of the kernel, and the abstract lists that their links spell. */
  datatype Layout = Layout(
    sched: Node, timerList: Node, heads: seq<Node>, links: seq<Node>, timerLinks: seq<Node>,
    ready: seq<nat>, timers: seq<nat>, waits: seq<seq<nat>>,
    nodes: set<Node>)
  {
    /** Every node knows what it is part of, and lists hold existing threads. */
    ghost predicate Shape() {
      && |heads| == |waits| && |timerLinks| == |links|
      && sched.id == SchedList && timerList.id == TimerList
      && sched in nodes && timerList in nodes
      && (forall o :: 0 <= o < |heads| ==> heads[o].id == WaitList(o) && heads[o] in nodes)
      && (forall t :: 0 <= t < |links| ==> links[t].id == ThreadLink(t) && links[t] in nodes)
      && (forall t :: 0 <= t < |timerLinks| ==> timerLinks[t].id == TimerLink(t) && timerLinks[t] in nodes)
      && (forall i :: 0 <= i < |ready| ==> ready[i] < |links|)
      && (forall i :: 0 <= i < |timers| ==> timers[i] < |links|)
      && (forall o, i :: 0 <= o < |waits| && 0 <= i < |waits[o]| ==> waits[o][i] < |links|)
    }

    ghost predicate Waits(t: nat) {
      exists o :: 0 <= o < |waits| && t in waits[o]
    }

    /** No thread is on two lists. */
    ghost predicate Apart() {
      && (forall t :: t in ready ==> !Waits(t))
      && (forall t, o, p :: 0 <= o < |waits| && 0 <= p < |waits| && t in waits[o] && t in waits[p] ==> o == p)
    }

    ghost predicate IsSlot(x: Slot) {
      match x
      case OnSched => true
      case OnTimers => true
      case OnWait(o) => o < |heads|
      case Loose(t) => t < |links| && t !in ready && !Waits(t)
      case LooseTimer(t) => t < |timerLinks| && t !in timers
    }

    ghost function RingOf(x: Slot): (ring: seq<Node>)
      requires Shape() && IsSlot(x)
      ensures ring != []
    {
      match x
      case OnSched => Ring(sched, links, ready)
      case OnTimers => Ring(timerList, timerLinks, timers)
      case OnWait(o) => Ring(heads[o], links, waits[o])
      case Loose(t) => [links[t]]
      case LooseTimer(t) => [timerLinks[t]]
    }

    /** The slot of a node. */
    ghost predicate At(id: Id, x: Slot) {
      match id
      case SchedList => x == OnSched
      case TimerList => x == OnTimers
      case WaitList(o) => x == OnWait(o)
      case ThreadLink(t) =>
        (match x
         case OnSched => t in ready
         case OnWait(o) => o < |waits| && t in waits[o]
         case Loose(u) => u == t
         case _ => false)
      case TimerLink(t) =>
        (match x
         case OnTimers => t in timers
         case LooseTimer(u) => u == t
         case _ => false)
    }

    /** All links are as the lists say. */
    ghost predicate InPlace(m: Memory) {
      && Shape() && Apart() && m.Covers(nodes)
      && forall x: Slot :: IsSlot(x) ==> RingIn(m, RingOf(x))
    }

    /** The same, sealed: what it says is used only where Open is called. */
    ghost predicate Linked(m: Memory) {
      forall s: Seal {:trigger Opened(s)} :: Opened(s) ==> InPlace(m)
    }
  }

  datatype Seal = Seal

  predicate Opened(s: Seal) {
    true
  }

  lemma Open(l: Layout, m: Memory)
    requires l.Linked(m)
    ensures l.InPlace(m)
  {
    assert Opened(Seal);
  }

  // ---------- memory ----------

  /** The links of a set of nodes. */
  datatype Memory = Memory(nextOf: map<Node, Node>, prevOf: map<Node, Node>)
  {
    function Next(n: Node): (next: Node) {
      if n in nextOf then nextOf[n] else n
    }

    function Prev(n: Node): (prev: Node) {
      if n in prevOf then prevOf[n] else n
    }

    predicate Covers(nodes: set<Node>) {
      nextOf.Keys == prevOf.Keys == nodes
    }
  }

  ghost function MemoryOf(nodes: set<Node>): (m: Memory)
    reads nodes
    ensures m.Covers(nodes)
    ensures forall n {:trigger m.Next(n)} :: n in nodes ==> m.Next(n) == n.next
    ensures forall n {:trigger m.Prev(n)} :: n in nodes ==> m.Prev(n) == n.prev
  {
    Memory(map n | n in nodes :: n.next, map n | n in nodes :: n.prev)
  }

  ghost predicate Differ(ring: seq<Node>, i: nat, j: nat)
    requires i < |ring| && j < |ring|
  {
    ring[i] != ring[j]
  }

  lemma AllDiffer(m: Memory, ring: seq<Node>)
    requires RingIn(m, ring)
    ensures forall i, j :: 0 <= i < j < |ring| ==> ring[i] != ring[j]
  {
    forall i, j | 0 <= i < j < |ring|
      ensures ring[i] != ring[j]
    {
      assert Differ(ring, i, j);
    }
  }

  /** IsRing in a given memory. */
  ghost predicate RingIn(m: Memory, ring: seq<Node>) {
    && ring != []
    && (forall i, j :: 0 <= i < j < |ring| ==> Differ(ring, i, j))
    && m.Prev(ring[0]) == ring[|ring| - 1] && m.Next(ring[|ring| - 1]) == ring[0]
    && (forall i {:trigger m.Next(ring[i])} :: 0 <= i < |ring| - 1 ==> m.Next(ring[i]) == ring[i + 1])
    && (forall i {:trigger m.Prev(ring[i])} :: 0 < i < |ring| ==> m.Prev(ring[i]) == ring[i - 1])
  }

  predicate Inside(ring: seq<Node>, nodes: set<Node>) {
    forall n :: n in ring ==> n in nodes
  }

  lemma RingInMemory(nodes: set<Node>, ring: seq<Node>)
    requires Inside(ring, nodes)
    ensures RingIn(MemoryOf(nodes), ring) <==> IsRing(ring)
  {
    var m := MemoryOf(nodes);
    if RingIn(m, ring) {
      AllDiffer(m, ring);
    }
    assert forall i {:trigger ring[i]} :: 0 <= i < |ring| ==> m.Next(ring[i]) == ring[i].next && m.Prev(ring[i]) == ring[i].prev;
  }

  lemma RingMembers(l: Layout, x: Slot, n: Node)
    requires l.Shape() && l.IsSlot(x) && n in l.RingOf(x)
    ensures n in l.nodes && l.At(n.id, x)
  {
    var ring := l.RingOf(x);
    var i :| 0 <= i < |ring| && ring[i] == n;
    if x.OnSched? && i > 0 {
      assert l.ready[i - 1] in l.ready;
    } else if x.OnTimers? && i > 0 {
      assert l.timers[i - 1] in l.timers;
    } else if x.OnWait? && i > 0 {
      assert l.waits[x.obj][i - 1] in l.waits[x.obj];
    }
  }

  lemma RingInside(l: Layout, x: Slot)
    requires l.Shape() && l.IsSlot(x)
    ensures Inside(l.RingOf(x), l.nodes)
  {
    forall n | n in l.RingOf(x)
      ensures n in l.nodes
    {
      RingMembers(l, x, n);
    }
  }

  lemma OneSlot(l: Layout, id: Id, x: Slot, y: Slot)
    requires l.Apart() && l.IsSlot(x) && l.IsSlot(y) && l.At(id, x) && l.At(id, y)
    ensures x == y
  {
  }

  /** Different rings have no node in common. */
  lemma RingsDisjoint(l: Layout, x: Slot, y: Slot)
    requires l.Shape() && l.Apart() && l.IsSlot(x) && l.IsSlot(y) && x != y
    ensures forall n :: n in l.RingOf(x) ==> n !in l.RingOf(y)
  {
    forall n | n in l.RingOf(x) && n in l.RingOf(y)
      ensures false
    {
      RingMembers(l, x, n);
      RingMembers(l, y, n);
      OneSlot(l, n.id, x, y);
    }
  }

  /** Only the nodes of two rings may have changed. */
  ghost predicate SameBut(m: Memory, m': Memory, ring: seq<Node>, other: seq<Node>) {
    && m.Covers(m'.nextOf.Keys) && m'.Covers(m.nextOf.Keys)
    && (forall n :: n in m.nextOf && n !in ring && n !in other ==> m'.Next(n) == m.Next(n) && m'.Prev(n) == m.Prev(n))
  }

  /** Two memories agree outside the rings of two slots. */
  ghost predicate SameOutside(l: Layout, m: Memory, m': Memory, x: Slot, y: Slot)
    requires l.Shape() && l.IsSlot(x)
  {
    && m.Covers(l.nodes) && m'.Covers(l.nodes)
    && (forall n :: n in l.nodes && n !in l.RingOf(x) && (l.IsSlot(y) ==> n !in l.RingOf(y)) ==>
          m'.Next(n) == m.Next(n) && m'.Prev(n) == m.Prev(n))
  }

  lemma RingUntouched(l: Layout, m: Memory, m': Memory, x: Slot, y: Slot, z: Slot)
    requires l.InPlace(m) && l.IsSlot(x) && l.IsSlot(z) && z != x && z != y
    requires SameOutside(l, m, m', x, y)
    ensures RingIn(m', l.RingOf(z))
  {
    RingInside(l, z);
    RingsDisjoint(l, z, x);
    if l.IsSlot(y) {
      RingsDisjoint(l, z, y);
    }
    SameLinks(m, m', l.RingOf(z));
  }

  lemma SameLinks(m: Memory, m': Memory, ring: seq<Node>)
    requires RingIn(m, ring)
    requires forall n :: n in ring ==> m'.Next(n) == m.Next(n) && m'.Prev(n) == m.Prev(n)
    ensures RingIn(m', ring)
  {
  }

  /** Apart from two slots, every ring of l' is one of l. */
  ghost predicate OthersKept(l: Layout, l': Layout, x: Slot, y: Slot)
    requires l.Shape() && l'.Shape()
  {
    forall z: Slot :: z != x && z != y && l'.IsSlot(z) ==> l.IsSlot(z) && l'.RingOf(z) == l.RingOf(z)
  }

  /** Relinking the rings of two slots leaves the other rings as they are. */
  lemma Relinked(l: Layout, l': Layout, m: Memory, m': Memory, x: Slot, y: Slot)
    requires l.InPlace(m) && l'.Shape() && l'.Apart() && l.IsSlot(x) && l'.nodes == l.nodes
    requires SameOutside(l, m, m', x, y)
    requires OthersKept(l, l', x, y)
    requires l'.IsSlot(x) ==> RingIn(m', l'.RingOf(x))
    requires l'.IsSlot(y) ==> RingIn(m', l'.RingOf(y))
    ensures l'.InPlace(m')
  {
    forall z: Slot | l'.IsSlot(z) && z != x && z != y
      ensures RingIn(m', l'.RingOf(z))
    {
      RingUntouched(l, m, m', x, y, z);
    }
  }

  // ---------- what the list operations do to the layout ----------

  lemma {:induction false} WithoutIn(list: seq<nat>, t: nat)
    ensures forall u :: u in Without(list, t) <==> u in list && u != t
  {
    if list != [] {
      WithoutIn(list[1..], t);
      assert list == [list[0]] + list[1..];
    }
  }

  lemma {:induction false} WithoutAt(list: seq<nat>, k: nat)
    requires k < |list| && Distinct(list)
    ensures Without(list, list[k]) == list[..k] + list[k + 1..]
  {
    var rest := list[1..];
    if k == 0 {
      assert list[0] !in rest;
      WithoutAbsent(rest, list[0]);
    } else {
      assert Distinct(rest);
      WithoutAt(rest, k - 1);
      assert list[0] != list[k] && rest[k - 1] == list[k];
      assert list[..k] == [list[0]] + rest[..k - 1];
      assert list[k + 1..] == rest[k..];
    }
  }

  /** list_remove of a thread's node, from whichever list it is on */
  function Unlinked(l: Layout, t: nat): (l': Layout) {
    l.(ready := Without(l.ready, t), waits := WaitsWithout(l.waits, t))
  }

  lemma UnlinkedWaits(l: Layout, t: nat)
    ensures forall u :: Unlinked(l, t).Waits(u) <==> l.Waits(u) && u != t
  {
    var l' := Unlinked(l, t);
    forall u
      ensures l'.Waits(u) <==> l.Waits(u) && u != t
    {
      forall o | 0 <= o < |l.waits|
        ensures u in l'.waits[o] <==> u in l.waits[o] && u != t
      {
        WithoutIn(l.waits[o], t);
      }
      if l.Waits(u) && u != t {
        var o :| 0 <= o < |l.waits| && u in l.waits[o];
        assert u in l'.waits[o];
      }
    }
  }

  lemma UnlinkedLoose(l: Layout, t: nat)
    requires t < |l.links|
    ensures Unlinked(l, t).IsSlot(Loose(t))
  {
    UnlinkedWaits(l, t);
    WithoutIn(l.ready, t);
  }

  lemma UnlinkedShape(l: Layout, t: nat)
    requires l.Shape() && l.Apart()
    ensures Unlinked(l, t).Shape() && Unlinked(l, t).Apart()
  {
    var l' := Unlinked(l, t);
    UnlinkedWaits(l, t);
    WithoutIn(l.ready, t);
    WithoutBelow(l.ready, t, |l.links|);
    forall o | 0 <= o < |l.waits|
      ensures forall i :: 0 <= i < |l'.waits[o]| ==> l'.waits[o][i] < |l.links|
      ensures forall u :: u in l'.waits[o] <==> u in l.waits[o] && u != t
    {
      WithoutBelow(l.waits[o], t, |l.links|);
      WithoutIn(l.waits[o], t);
    }
  }

  /** The other rings stay. */
  lemma UnlinkedRings(l: Layout, t: nat, x: Slot, z: Slot)
    requires l.Shape() && l.Apart() && l.IsSlot(x) && t < |l.links| && l.At(ThreadLink(t), x) && Unlinked(l, t).Shape()
    requires z != x && z != Loose(t) && Unlinked(l, t).IsSlot(z)
    ensures l.IsSlot(z) && Unlinked(l, t).RingOf(z) == l.RingOf(z)
  {
    UnlinkedWaits(l, t);
    WithoutIn(l.ready, t);
    if z.OnSched? {
      WithoutAbsent(l.ready, t);
    } else if z.OnWait? {
      assert t !in l.waits[z.obj];
      WithoutAbsent(l.waits[z.obj], t);
    }
  }

  /** The nodes of a list without its k-th thread. */
  lemma RingCut(head: Node, nodes: seq<Node>, list: seq<nat>, k: nat)
    requires forall i :: 0 <= i < |list| ==> list[i] < |nodes|
    requires k < |list| && forall i, j :: 0 <= i < j < |list| + 1 ==> Ring(head, nodes, list)[i] != Ring(head, nodes, list)[j]
    ensures forall i :: 0 <= i < |Without(list, list[k])| ==> Without(list, list[k])[i] < |nodes|
    ensures Ring(head, nodes, Without(list, list[k])) == Ring(head, nodes, list)[..k + 1] + Ring(head, nodes, list)[k + 2..]
  {
    DistinctThreads(head, nodes, list);
    WithoutAt(list, k);
    RingOfCut(head, nodes, list, k, Without(list, list[k]));
  }

  lemma DistinctThreads(head: Node, nodes: seq<Node>, list: seq<nat>)
    requires forall i :: 0 <= i < |list| ==> list[i] < |nodes|
    requires forall i, j :: 0 <= i < j < |list| + 1 ==> Ring(head, nodes, list)[i] != Ring(head, nodes, list)[j]
    ensures Distinct(list)
  {
    forall i, j | 0 <= i < j < |list|
      ensures list[i] != list[j]
    {
      assert Ring(head, nodes, list)[i + 1] != Ring(head, nodes, list)[j + 1];
    }
  }

  lemma RingOfCut(head: Node, nodes: seq<Node>, list: seq<nat>, k: nat, cut: seq<nat>)
    requires k < |list| && cut == list[..k] + list[k + 1..] && forall i :: 0 <= i < |list| ==> list[i] < |nodes|
    ensures forall i :: 0 <= i < |cut| ==> cut[i] < |nodes|
    ensures Ring(head, nodes, cut) == Ring(head, nodes, list)[..k + 1] + Ring(head, nodes, list)[k + 2..]
  {
  }

  /** Where the node of thread t is. */
  lemma FindThread(l: Layout, t: nat) returns (x: Slot, k: nat)
    requires l.Shape() && l.Apart() && t < |l.links|
    ensures l.IsSlot(x) && l.At(ThreadLink(t), x) && k < |l.RingOf(x)| && l.RingOf(x)[k] == l.links[t]
    ensures x == Loose(t) || k > 0
    ensures x == Loose(t) <==> t !in l.ready && !l.Waits(t)
  {
    if t in l.ready {
      var i :| 0 <= i < |l.ready| && l.ready[i] == t;
      x, k := OnSched, i + 1;
    } else if l.Waits(t) {
      var o :| 0 <= o < |l.waits| && t in l.waits[o];
      var i :| 0 <= i < |l.waits[o]| && l.waits[o][i] == t;
      x, k := OnWait(o), i + 1;
    } else {
      x, k := Loose(t), 0;
    }
  }

  lemma FindTimer(l: Layout, t: nat) returns (x: Slot, k: nat)
    requires l.Shape() && t < |l.timerLinks|
    ensures l.IsSlot(x) && k < |l.RingOf(x)| && l.RingOf(x)[k] == l.timerLinks[t]
    ensures if t in l.timers then x == OnTimers && k > 0 else x == LooseTimer(t)
  {
    if t in l.timers {
      var i :| 0 <= i < |l.timers| && l.timers[i] == t;
      x, k := OnTimers, i + 1;
    } else {
      x, k := LooseTimer(t), 0;
    }
  }

  /** sched_list gains or loses thread t. */
  lemma ReadyChanged(l: Layout, t: nat, list: seq<nat>)
    requires l.Shape() && l.Apart() && t < |l.links| && !l.Waits(t)
    requires (forall u :: u != t ==> (u in list <==> u in l.ready))
    requires forall i :: 0 <= i < |list| ==> list[i] < |l.links|
    ensures var l' := l.(ready := list);
      && l'.Shape() && l'.Apart()
      && OthersKept(l, l', OnSched, Loose(t))
  {
    var l' := l.(ready := list);
    assert forall u :: l'.Waits(u) <==> l.Waits(u);
  }

  /** The list of object o gains or loses thread t. */
  lemma WaitsChanged(l: Layout, o: nat, t: nat, list: seq<nat>)
    requires l.Shape() && l.Apart() && o < |l.waits| && t < |l.links| && t !in l.ready
    requires forall p :: 0 <= p < |l.waits| && p != o ==> t !in l.waits[p]
    requires forall u :: u != t ==> (u in list <==> u in l.waits[o])
    requires forall i :: 0 <= i < |list| ==> list[i] < |l.links|
    ensures var l' := l.(waits := l.waits[o := list]);
      && l'.Shape() && l'.Apart()
      && OthersKept(l, l', OnWait(o), Loose(t))
  {
    var l' := l.(waits := l.waits[o := list]);
    forall u | u != t
      ensures l'.Waits(u) <==> l.Waits(u)
    {
      if l.Waits(u) {
        var p :| 0 <= p < |l.waits| && u in l.waits[p];
        assert u in l'.waits[p];
      }
      if l'.Waits(u) {
        var p :| 0 <= p < |l'.waits| && u in l'.waits[p];
        assert u in l.waits[p];
      }
    }
    forall u, p, q | 0 <= p < |l'.waits| && 0 <= q < |l'.waits| && u in l'.waits[p] && u in l'.waits[q]
      ensures p == q
    {
      if u != t {
        assert u in l.waits[p] && u in l.waits[q];
      }
    }
    forall u | u in l'.ready
      ensures !l'.Waits(u)
    {
      assert !l.Waits(u);
    }
  }

  /** timer_list gains or loses the timer of thread t. */
  lemma TimersChanged(l: Layout, t: nat, list: seq<nat>)
    requires l.Shape() && l.Apart() && t < |l.links|
    requires forall u :: u != t ==> (u in list <==> u in l.timers)
    requires forall i :: 0 <= i < |list| ==> list[i] < |l.links|
    ensures var l' := l.(timers := list);
      && l'.Shape() && l'.Apart()
      && OthersKept(l, l', OnTimers, LooseTimer(t))
  {
    var l' := l.(timers := list);
    assert forall u :: l'.Waits(u) <==> l.Waits(u);
  }

  // ---------- each operation keeps every node in its ring ----------

  lemma UnlinkedOthers(l: Layout, t: nat, x: Slot)
    requires l.Shape() && l.Apart() && l.IsSlot(x) && t < |l.links| && l.At(ThreadLink(t), x) && Unlinked(l, t).Shape()
    ensures OthersKept(l, Unlinked(l, t), x, Loose(t))
  {
    forall z: Slot | z != x && z != Loose(t) && Unlinked(l, t).IsSlot(z)
      ensures l.IsSlot(z) && Unlinked(l, t).RingOf(z) == l.RingOf(z)
    {
      UnlinkedRings(l, t, x, z);
    }
  }

  lemma AfterUnlink(l: Layout, m: Memory, m': Memory, t: nat, x: Slot, k: nat)
    requires l.InPlace(m) && t < |l.links| && l.IsSlot(x) && l.At(ThreadLink(t), x)
    requires k < |l.RingOf(x)| && l.RingOf(x)[k] == l.links[t] && (x == Loose(t) || k > 0)
    requires SameBut(m, m', l.RingOf(x), l.RingOf(x)) && RingIn(m', [l.links[t]])
    requires |l.RingOf(x)| > 1 ==> RingIn(m', l.RingOf(x)[..k] + l.RingOf(x)[k + 1..])
    ensures Unlinked(l, t).InPlace(m')
  {
    var l' := UnlinkedLayout(l, m, m', t, x, k);
    Relinked(l, l', m, m', x, Loose(t));
  }

  lemma UnlinkedLayout(l: Layout, m: Memory, m': Memory, t: nat, x: Slot, k: nat) returns (l': Layout)
    requires l.InPlace(m) && t < |l.links| && l.IsSlot(x) && l.At(ThreadLink(t), x)
    requires k < |l.RingOf(x)| && l.RingOf(x)[k] == l.links[t] && (x == Loose(t) || k > 0)
    requires SameBut(m, m', l.RingOf(x), l.RingOf(x)) && RingIn(m', [l.links[t]])
    requires |l.RingOf(x)| > 1 ==> RingIn(m', l.RingOf(x)[..k] + l.RingOf(x)[k + 1..])
    ensures l' == Unlinked(l, t) && l'.Shape() && l'.Apart() && l'.nodes == l.nodes
    ensures SameOutside(l, m, m', x, Loose(t)) && OthersKept(l, l', x, Loose(t))
    ensures l'.IsSlot(x) ==> RingIn(m', l'.RingOf(x))
    ensures l'.IsSlot(Loose(t)) ==> RingIn(m', l'.RingOf(Loose(t)))
  {
    l' := Unlinked(l, t);
    UnlinkedShape(l, t);
    UnlinkedOthers(l, t, x);
    UnlinkedSameOutside(l, m, m', t, x);
    UnlinkedLonely(l, m', t);
    if x != Loose(t) {
      UnlinkedRest(l, m, m', t, x, k);
    }
  }

  lemma UnlinkedLonely(l: Layout, m': Memory, t: nat)
    requires t < |l.links| && Unlinked(l, t).Shape() && RingIn(m', [l.links[t]])
    ensures Unlinked(l, t).IsSlot(Loose(t)) ==> RingIn(m', Unlinked(l, t).RingOf(Loose(t)))
  {
  }

  lemma UnlinkedRest(l: Layout, m: Memory, m': Memory, t: nat, x: Slot, k: nat)
    requires l.Shape() && l.Apart() && t < |l.links| && l.IsSlot(x) && l.At(ThreadLink(t), x) && x != Loose(t)
    requires 0 < k < |l.RingOf(x)| && l.RingOf(x)[k] == l.links[t] && Unlinked(l, t).Shape()
    requires RingIn(m, l.RingOf(x)) && RingIn(m', l.RingOf(x)[..k] + l.RingOf(x)[k + 1..])
    ensures Unlinked(l, t).IsSlot(x) && RingIn(m', Unlinked(l, t).RingOf(x))
  {
    UnlinkedCut(l, m, t, x, k);
  }

  lemma UnlinkedSameOutside(l: Layout, m: Memory, m': Memory, t: nat, x: Slot)
    requires l.Shape() && m.Covers(l.nodes) && l.IsSlot(x) && SameBut(m, m', l.RingOf(x), l.RingOf(x))
    ensures SameOutside(l, m, m', x, Loose(t))
  {
  }

  lemma UnlinkedCut(l: Layout, m: Memory, t: nat, x: Slot, k: nat)
    requires l.Shape() && l.Apart() && t < |l.links| && l.IsSlot(x) && l.At(ThreadLink(t), x) && x != Loose(t)
    requires 0 < k < |l.RingOf(x)| && l.RingOf(x)[k] == l.links[t] && Unlinked(l, t).Shape()
    requires RingIn(m, l.RingOf(x))
    ensures Unlinked(l, t).IsSlot(x) && Unlinked(l, t).RingOf(x) == l.RingOf(x)[..k] + l.RingOf(x)[k + 1..]
  {
    AllDiffer(m, l.RingOf(x));
    if x.OnSched? {
      ListCut(l, l.sched, l.ready, t, k);
    } else {
      ListCut(l, l.heads[x.obj], l.waits[x.obj], t, k);
    }
  }

  lemma ListCut(l: Layout, head: Node, list: seq<nat>, t: nat, k: nat)
    requires l.Shape() && t < |l.links| && 0 < k < |list| + 1 && forall i :: 0 <= i < |list| ==> list[i] < |l.links|
    requires Ring(head, l.links, list)[k] == l.links[t]
    requires forall i, j :: 0 <= i < j < |list| + 1 ==> Ring(head, l.links, list)[i] != Ring(head, l.links, list)[j]
    ensures forall i :: 0 <= i < |Without(list, t)| ==> Without(list, t)[i] < |l.links|
    ensures Ring(head, l.links, Without(list, t)) == Ring(head, l.links, list)[..k] + Ring(head, l.links, list)[k + 1..]
  {
    assert l.links[list[k - 1]].id == ThreadLink(t);
    RingCut(head, l.links, list, k - 1);
  }

  lemma ReadyRelinked(l: Layout, m: Memory, m': Memory, t: nat, list: seq<nat>)
    requires l.InPlace(m) && t < |l.links| && !l.Waits(t)
    requires (forall u :: u != t ==> (u in list <==> u in l.ready))
    requires forall i :: 0 <= i < |list| ==> list[i] < |l.links|
    requires SameOutside(l, m, m', OnSched, Loose(t))
    requires RingIn(m', Ring(l.sched, l.links, list)) && (t !in list ==> RingIn(m', [l.links[t]]))
    ensures l.(ready := list).InPlace(m')
  {
    var l' := l.(ready := list);
    ReadyChanged(l, t, list);
    assert RingIn(m', l'.RingOf(OnSched));
    assert l'.IsSlot(Loose(t)) ==> RingIn(m', l'.RingOf(Loose(t)));
    Relinked(l, l', m, m', OnSched, Loose(t));
  }

  lemma WaitsRelinked(l: Layout, m: Memory, m': Memory, o: nat, t: nat, list: seq<nat>)
    requires l.InPlace(m) && o < |l.waits| && t < |l.links| && t !in l.ready
    requires forall p :: 0 <= p < |l.waits| && p != o ==> t !in l.waits[p]
    requires forall u :: u != t ==> (u in list <==> u in l.waits[o])
    requires forall i :: 0 <= i < |list| ==> list[i] < |l.links|
    requires SameOutside(l, m, m', OnWait(o), Loose(t))
    requires RingIn(m', Ring(l.heads[o], l.links, list)) && (t !in list ==> RingIn(m', [l.links[t]]))
    ensures l.(waits := l.waits[o := list]).InPlace(m')
  {
    var l' := l.(waits := l.waits[o := list]);
    WaitsChanged(l, o, t, list);
    assert RingIn(m', l'.RingOf(OnWait(o)));
    assert l'.IsSlot(Loose(t)) ==> RingIn(m', l'.RingOf(Loose(t))) by {
      assert t in list ==> t in l'.waits[o];
    }
    Relinked(l, l', m, m', OnWait(o), Loose(t));
  }

  lemma TimersRelinked(l: Layout, m: Memory, m': Memory, t: nat, list: seq<nat>)
    requires l.InPlace(m) && t < |l.links|
    requires forall u :: u != t ==> (u in list <==> u in l.timers)
    requires forall i :: 0 <= i < |list| ==> list[i] < |l.links|
    requires SameOutside(l, m, m', OnTimers, LooseTimer(t))
    requires RingIn(m', Ring(l.timerList, l.timerLinks, list)) && (t !in list ==> RingIn(m', [l.timerLinks[t]]))
    ensures l.(timers := list).InPlace(m')
  {
    var l' := l.(timers := list);
    TimersChanged(l, t, list);
    assert RingIn(m', l'.RingOf(OnTimers));
    assert l'.IsSlot(LooseTimer(t)) ==> RingIn(m', l'.RingOf(LooseTimer(t)));
    Relinked(l, l', m, m', OnTimers, LooseTimer(t));
  }

  lemma RingPut(head: Node, nodes: seq<Node>, list: seq<nat>, t: nat)
    requires t < |nodes| && forall i :: 0 <= i < |list| ==> list[i] < |nodes|
    ensures Ring(head, nodes, list + [t]) == Ring(head, nodes, list) + [nodes[t]]
    ensures t in list + [t] && forall u :: u != t ==> (u in list + [t] <==> u in list)
  {
    assert (list + [t])[|list|] == t;
  }

  lemma RingGet(head: Node, nodes: seq<Node>, list: seq<nat>)
    requires list != [] && forall i :: 0 <= i < |list| ==> list[i] < |nodes|
    ensures Ring(head, nodes, list[1..]) == [head] + Ring(head, nodes, list)[2..]
    ensures list[0] in list && forall u :: u != list[0] ==> (u in list[1..] <==> u in list)
  {
    assert list == [list[0]] + list[1..];
  }

  lemma RingInsert(head: Node, nodes: seq<Node>, list: seq<nat>, t: nat, i: nat)
    requires t < |nodes| && i <= |list| && forall j :: 0 <= j < |list| ==> list[j] < |nodes|
    ensures forall j :: 0 <= j < |list| + 1 ==> (list[..i] + [t] + list[i..])[j] < |nodes|
    ensures var ring := Ring(head, nodes, list);
      Ring(head, nodes, list[..i] + [t] + list[i..]) == ring[..i + 1] + [nodes[t]] + ring[i + 1..]
    ensures t in list[..i] + [t] + list[i..] && forall u :: u != t ==> (u in list[..i] + [t] + list[i..] <==> u in list)
  {
    assert list == list[..i] + list[i..];
    assert (list[..i] + [t] + list[i..])[i] == t;
  }

  lemma ReadyOutside(l: Layout, m: Memory, m': Memory, t: nat)
    requires l.Shape() && m.Covers(l.nodes) && l.IsSlot(Loose(t)) && SameBut(m, m', l.RingOf(OnSched), [l.links[t]])
    ensures SameOutside(l, m, m', OnSched, Loose(t))
  {
  }

  lemma AfterReadyPut(l: Layout, m: Memory, m': Memory, t: nat)
    requires l.InPlace(m) && l.IsSlot(Loose(t)) && SameBut(m, m', l.RingOf(OnSched), [l.links[t]])
    requires RingIn(m', l.RingOf(OnSched) + [l.links[t]])
    ensures l.(ready := l.ready + [t]).InPlace(m')
  {
    ReadyOutside(l, m, m', t);
    RingPut(l.sched, l.links, l.ready, t);
    ReadyRelinked(l, m, m', t, l.ready + [t]);
  }

  lemma AfterReadyGet(l: Layout, m: Memory, m': Memory)
    requires l.InPlace(m) && l.ready != [] && SameBut(m, m', l.RingOf(OnSched), l.RingOf(OnSched))
    requires RingIn(m', [l.sched] + l.RingOf(OnSched)[2..]) && RingIn(m', [l.links[l.ready[0]]])
    ensures l.(ready := l.ready[1..]).InPlace(m')
  {
    assert SameOutside(l, m, m', OnSched, Loose(l.ready[0]));
    RingGet(l.sched, l.links, l.ready);
    ReadyRelinked(l, m, m', l.ready[0], l.ready[1..]);
  }

  lemma AfterWaitPut(l: Layout, m: Memory, m': Memory, o: nat, t: nat)
    requires l.InPlace(m) && o < |l.waits| && l.IsSlot(Loose(t)) && SameBut(m, m', l.RingOf(OnWait(o)), [l.links[t]])
    requires RingIn(m', l.RingOf(OnWait(o)) + [l.links[t]])
    ensures l.(waits := l.waits[o := l.waits[o] + [t]]).InPlace(m')
  {
    assert SameOutside(l, m, m', OnWait(o), Loose(t));
    RingPut(l.heads[o], l.links, l.waits[o], t);
    WaitsRelinked(l, m, m', o, t, l.waits[o] + [t]);
  }

  lemma AfterWaitGet(l: Layout, m: Memory, m': Memory, o: nat)
    requires l.InPlace(m) && o < |l.waits| && l.waits[o] != [] && SameBut(m, m', l.RingOf(OnWait(o)), l.RingOf(OnWait(o)))
    requires RingIn(m', [l.heads[o]] + l.RingOf(OnWait(o))[2..]) && RingIn(m', [l.links[l.waits[o][0]]])
    ensures l.(waits := l.waits[o := l.waits[o][1..]]).InPlace(m')
  {
    assert SameOutside(l, m, m', OnWait(o), Loose(l.waits[o][0]));
    RingGet(l.heads[o], l.links, l.waits[o]);
    WaitsRelinked(l, m, m', o, l.waits[o][0], l.waits[o][1..]);
  }

  lemma AfterTimerUnlink(l: Layout, m: Memory, m': Memory, t: nat, x: Slot, k: nat)
    requires l.InPlace(m) && t < |l.links| && l.IsSlot(x) && (if t in l.timers then x == OnTimers && k > 0 else x == LooseTimer(t))
    requires k < |l.RingOf(x)| && l.RingOf(x)[k] == l.timerLinks[t]
    requires SameBut(m, m', l.RingOf(x), l.RingOf(x)) && RingIn(m', [l.timerLinks[t]])
    requires |l.RingOf(x)| > 1 ==> RingIn(m', l.RingOf(x)[..k] + l.RingOf(x)[k + 1..])
    ensures l.(timers := Without(l.timers, t)).InPlace(m')
  {
    if t in l.timers {
      AfterLinkedTimer(l, m, m', t, k, l.RingOf(OnTimers));
    } else {
      AfterLooseTimer(l, m, m', t);
    }
  }

  lemma AfterLinkedTimer(l: Layout, m: Memory, m': Memory, t: nat, k: nat, ring: seq<Node>)
    requires l.InPlace(m) && t < |l.links| && ring == l.RingOf(OnTimers)
    requires 0 < k < |ring| && ring[k] == l.timerLinks[t]
    requires SameBut(m, m', ring, ring) && RingIn(m', [l.timerLinks[t]]) && RingIn(m', ring[..k] + ring[k + 1..])
    ensures l.(timers := Without(l.timers, t)).InPlace(m')
  {
    WithoutIn(l.timers, t);
    AllDiffer(m, ring);
    TimersCut(l, t, k);
    TimersSameOutside(l, m, m', t);
    TimersRelinked(l, m, m', t, Without(l.timers, t));
  }

  lemma TimersSameOutside(l: Layout, m: Memory, m': Memory, t: nat)
    requires l.Shape() && m.Covers(l.nodes) && SameBut(m, m', l.RingOf(OnTimers), l.RingOf(OnTimers))
    ensures SameOutside(l, m, m', OnTimers, LooseTimer(t))
  {
  }

  lemma AfterLooseTimer(l: Layout, m: Memory, m': Memory, t: nat)
    requires l.InPlace(m) && t < |l.links| && t !in l.timers
    requires SameBut(m, m', [l.timerLinks[t]], [l.timerLinks[t]]) && RingIn(m', [l.timerLinks[t]])
    ensures l.(timers := Without(l.timers, t)).InPlace(m')
  {
    WithoutAbsent(l.timers, t);
    assert SameOutside(l, m, m', LooseTimer(t), LooseTimer(t));
    Relinked(l, l, m, m', LooseTimer(t), LooseTimer(t));
  }

  lemma TimersCut(l: Layout, t: nat, k: nat)
    requires l.Shape() && t < |l.links| && 0 < k < |l.RingOf(OnTimers)| && l.RingOf(OnTimers)[k] == l.timerLinks[t]
    requires forall i, j :: 0 <= i < j < |l.RingOf(OnTimers)| ==> l.RingOf(OnTimers)[i] != l.RingOf(OnTimers)[j]
    ensures forall i :: 0 <= i < |Without(l.timers, t)| ==> Without(l.timers, t)[i] < |l.links|
    ensures Ring(l.timerList, l.timerLinks, Without(l.timers, t)) == l.RingOf(OnTimers)[..k] + l.RingOf(OnTimers)[k + 1..]
  {
    assert l.timerLinks[l.timers[k - 1]].id == TimerLink(t);
    RingCut(l.timerList, l.timerLinks, l.timers, k - 1);
  }

  lemma AfterTimerInsert(l: Layout, m: Memory, m': Memory, t: nat, i: nat)
    requires l.InPlace(m) && l.IsSlot(LooseTimer(t)) && i <= |l.timers| && SameBut(m, m', l.RingOf(OnTimers), [l.timerLinks[t]])
    requires RingIn(m', l.RingOf(OnTimers)[..i + 1] + [l.timerLinks[t]] + l.RingOf(OnTimers)[i + 1..])
    ensures l.(timers := l.timers[..i] + [t] + l.timers[i..]).InPlace(m')
  {
    assert SameOutside(l, m, m', OnTimers, LooseTimer(t));
    RingInsert(l.timerList, l.timerLinks, l.timers, t, i);
    TimersRelinked(l, m, m', t, l.timers[..i] + [t] + l.timers[i..]);
  }

  /** Where snow_timer_add inserts. */
  lemma {:induction false} TimerInsertAt(timers: seq<Timer>, x: Timer, i: nat)
    requires i <= |timers| && forall j :: 0 <= j < i ==> timers[j].us < x.us
    requires i < |timers| ==> x.us <= timers[i].us
    ensures TimerInsert(timers, x) == timers[..i] + [x] + timers[i..]
  {
    if i > 0 {
      TimerInsertAt(timers[1..], x, i - 1);
      assert timers[..i] == [timers[0]] + timers[1..][..i - 1];
    }
  }

  /** While all links are as the lists say, no node is broken. */
  lemma InPlaceNotBroken(l: Layout, m: Memory, n: Node)
    requires l.InPlace(m) && (n == l.sched || n in l.links)
    ensures m.Prev(m.Next(n)) == n
  {
    var x, k := OnSched, 0;
    if n in l.links {
      var t :| 0 <= t < |l.links| && l.links[t] == n;
      x, k := FindThread(l, t);
    }
    var ring := l.RingOf(x);
    assert RingIn(m, ring);
    assert k < |ring| - 1 ==> m.Next(ring[k]) == ring[k + 1] && m.Prev(ring[k + 1]) == ring[k];
  }

  // ---------- the list operations on nodes in memory ----------

  /** list_remove of the k-th node of a ring */
  method RemoveNode(node: Node, ghost nodes: set<Node>, ghost ring: seq<Node>, ghost k: nat)
    requires RingIn(MemoryOf(nodes), ring) && Inside(ring, nodes) && k < |ring| && node == ring[k]
    modifies nodes
    ensures SameBut(old(MemoryOf(nodes)), MemoryOf(nodes), ring, ring)
    ensures RingIn(MemoryOf(nodes), [node])
    ensures |ring| > 1 ==> RingIn(MemoryOf(nodes), ring[..k] + ring[k + 1..])
  {
    RingInMemory(nodes, ring);
    ListRemove(node, ring, k);
    RemovedInMemory(nodes, ring, k);
  }

  lemma RemovedInMemory(nodes: set<Node>, ring: seq<Node>, k: nat)
    requires Inside(ring, nodes) && k < |ring| && ring[k].next == ring[k] && ring[k].prev == ring[k]
    requires |ring| > 1 ==> IsRing(ring[..k] + ring[k + 1..])
    ensures RingIn(MemoryOf(nodes), [ring[k]])
    ensures |ring| > 1 ==> RingIn(MemoryOf(nodes), ring[..k] + ring[k + 1..])
  {
    RingInMemory(nodes, [ring[k]]);
    if |ring| > 1 {
      RingInMemory(nodes, ring[..k] + ring[k + 1..]);
    }
  }

  /** list_insert of a node outside a ring, behind its i-th node */
  method InsertNode(node: Node, prev: Node, next: Node, ghost nodes: set<Node>, ghost ring: seq<Node>, ghost i: nat)
    requires RingIn(MemoryOf(nodes), ring) && Inside(ring, nodes) && node in nodes && node !in ring
    requires i < |ring| && prev == ring[i] && next == prev.next
    modifies nodes
    ensures SameBut(old(MemoryOf(nodes)), MemoryOf(nodes), ring, [node])
    ensures RingIn(MemoryOf(nodes), ring[..i + 1] + [node] + ring[i + 1..])
  {
    RingInMemory(nodes, ring);
    ListInsert(node, prev, next, ring, i);
    RingInMemory(nodes, ring[..i + 1] + [node] + ring[i + 1..]);
  }

  /** list_fifo_put of a node */
  method PutNode(node: Node, fifo: Node, ghost nodes: set<Node>, ghost ring: seq<Node>)
    requires RingIn(MemoryOf(nodes), ring) && Inside(ring, nodes) && node in nodes && fifo == ring[0] && node != fifo
    modifies nodes
    ensures SameBut(old(MemoryOf(nodes)), MemoryOf(nodes), ring, [node])
    ensures node !in ring ==> RingIn(MemoryOf(nodes), ring + [node])
    ensures forall k :: 0 <= k < |ring| && node == ring[k] ==> PutAgain(ring, k)
  {
    RingInMemory(nodes, ring);
    ListFifoPut(node, fifo, ring);
    RingInMemory(nodes, ring + [node]);
  }

  // ---------- the list operations on the kernel's lists ----------

  /** list_remove of a thread's node, whichever list it is on */
  method UnlinkThread(node: Node, ghost nodes: set<Node>, ghost l: Layout, ghost t: nat)
    requires l.Linked(MemoryOf(nodes)) && t < |l.links| && node == l.links[t]
    modifies nodes
    ensures Unlinked(l, t).Linked(MemoryOf(nodes))
  {
    ghost var m := MemoryOf(nodes);
    Open(l, m);
    ghost var x, k := FindThread(l, t);
    RingInside(l, x);
    RemoveNode(node, nodes, l.RingOf(x), k);
    AfterUnlink(l, m, MemoryOf(nodes), t, x, k);
  }

  /** list_remove of a thread's timer */
  method UnlinkTimer(node: Node, ghost nodes: set<Node>, ghost l: Layout, ghost t: nat)
    requires l.Linked(MemoryOf(nodes)) && t < |l.links| == |l.timerLinks| && node == l.timerLinks[t]
    modifies nodes
    ensures l.(timers := Without(l.timers, t)).Linked(MemoryOf(nodes))
  {
    ghost var m := MemoryOf(nodes);
    Open(l, m);
    ghost var x, k := FindTimer(l, t);
    RingInside(l, x);
    RemoveNode(node, nodes, l.RingOf(x), k);
    AfterTimerUnlink(l, m, MemoryOf(nodes), t, x, k);
  }

  /** list_insert of a loose timer behind the i-th node of timer_list */
  method InsertTimer(node: Node, prev: Node, next: Node, ghost nodes: set<Node>, ghost l: Layout, ghost t: nat, ghost i: nat)
    requires l.Linked(MemoryOf(nodes)) && l.IsSlot(LooseTimer(t)) && node == l.timerLinks[t]
    requires i <= |l.timers| && next == prev.next
    requires if i == 0 then prev == l.timerList else l.timers[i - 1] < |l.timerLinks| && prev == l.timerLinks[l.timers[i - 1]]
    modifies nodes
    ensures l.(timers := l.timers[..i] + [t] + l.timers[i..]).Linked(MemoryOf(nodes))
  {
    ghost var m := MemoryOf(nodes);
    Open(l, m);
    Elsewhere(l, node, LooseTimer(t), OnTimers);
    RingInside(l, OnTimers);
    InsertNode(node, prev, next, nodes, l.RingOf(OnTimers), i);
    AfterTimerInsert(l, m, MemoryOf(nodes), t, i);
  }

  lemma Elsewhere(l: Layout, node: Node, y: Slot, x: Slot)
    requires l.Shape() && l.Apart() && l.IsSlot(x) && l.IsSlot(y) && x != y && l.RingOf(y) == [node]
    ensures node in l.nodes && node !in l.RingOf(x)
  {
    assert node in l.RingOf(y);
    RingsDisjoint(l, y, x);
  }

  /** list_fifo_put of a thread on sched_list: the rings stay as they should be if the
      thread was on no list; if it was on sched_list already, that list is put together
      wrong. */
  method PutReady(node: Node, fifo: Node, ghost nodes: set<Node>, ghost l: Layout, ghost t: nat)
    requires l.Linked(MemoryOf(nodes)) && t < |l.links| && !l.Waits(t) && node == l.links[t] && fifo == l.sched
    modifies nodes
    ensures t !in l.ready ==> l.(ready := l.ready + [t]).Linked(MemoryOf(nodes))
    ensures t in l.ready ==> l.nodes == nodes && Twice(l)
  {
    ghost var m := MemoryOf(nodes);
    ghost var ring := ReadyRing(l, nodes, t);
    PutNode(node, fifo, nodes, ring);
    if t !in l.ready {
      AfterReadyPut(l, m, MemoryOf(nodes), t);
    }
  }

  lemma ReadyRing(l: Layout, nodes: set<Node>, t: nat) returns (ring: seq<Node>)
    requires l.Linked(MemoryOf(nodes)) && t < |l.links| && !l.Waits(t)
    ensures l.InPlace(MemoryOf(nodes)) && l.nodes == nodes
    ensures ring == l.RingOf(OnSched) && RingIn(MemoryOf(nodes), ring) && Inside(ring, nodes)
    ensures l.links[t] in nodes && l.links[t] != l.sched
    ensures t in l.ready ==> exists k: nat :: k < |ring| && ring[k] == l.links[t]
    ensures t !in l.ready ==> l.IsSlot(Loose(t)) && l.links[t] !in ring
  {
    Open(l, MemoryOf(nodes));
    ring := l.RingOf(OnSched);
    RingInside(l, OnSched);
    if t in l.ready {
      var k :| 0 <= k < |l.ready| && l.ready[k] == t;
      assert ring[k + 1] == l.links[t];
    } else {
      Elsewhere(l, l.links[t], Loose(t), OnSched);
    }
  }

  /** Some thread on sched_list has been put there again; sealed like Linked. */
  ghost predicate Twice(l: Layout)
    reads l.nodes
  {
    forall s: Seal {:trigger Opened(s)} :: Opened(s) ==> PutTwice(l)
  }

  ghost predicate PutTwice(l: Layout)
    reads l.nodes
  {
    l.Shape() && Inside(l.RingOf(OnSched), l.nodes) && exists k: nat :: PutAgain(l.RingOf(OnSched), k)
  }

  /** Some link of sched_list does not lead back; sealed like Linked. */
  ghost predicate Corrupt(l: Layout)
    reads l.nodes
  {
    forall s: Seal {:trigger Opened(s)} :: Opened(s) ==> LinkLost(l)
  }

  ghost predicate LinkLost(l: Layout)
    reads l.nodes
  {
    && l.Shape() && Inside(l.RingOf(OnSched), l.nodes)
    && exists n :: n in l.RingOf(OnSched) && n.next in l.nodes && n.next.prev != n
  }

  /** Then the links are not those of any layout. */
  lemma CorruptFitsNothing(l: Layout, l': Layout)
    requires Corrupt(l) && l'.sched == l.sched && l'.links == l.links && l'.nodes == l.nodes
    ensures !l'.Linked(MemoryOf(l.nodes))
  {
    if l'.Linked(MemoryOf(l.nodes)) {
      var m := MemoryOf(l.nodes);
      assert Opened(Seal);
      Open(l', m);
      var n :| n in l.RingOf(OnSched) && n.next in l.nodes && n.next.prev != n;
      var i :| 0 <= i < |l.RingOf(OnSched)| && l.RingOf(OnSched)[i] == n;
      assert m.Next(n) == n.next && m.Prev(n.next) == n.next.prev;
      InPlaceNotBroken(l', m, n);
    }
  }

  /** list_fifo_put of a loose thread on a wait list */
  method PutWait(node: Node, fifo: Node, ghost nodes: set<Node>, ghost l: Layout, ghost o: nat, ghost t: nat)
    requires l.Linked(MemoryOf(nodes)) && o < |l.waits| == |l.heads| && l.IsSlot(Loose(t)) && node == l.links[t] && fifo == l.heads[o]
    modifies nodes
    ensures l.(waits := l.waits[o := l.waits[o] + [t]]).Linked(MemoryOf(nodes))
  {
    ghost var m := MemoryOf(nodes);
    Open(l, m);
    Elsewhere(l, node, Loose(t), OnWait(o));
    RingInside(l, OnWait(o));
    PutNode(node, fifo, nodes, l.RingOf(OnWait(o)));
    AfterWaitPut(l, m, MemoryOf(nodes), o, t);
  }

  /** list_fifo_get of sched_list; `twice` when it has been put together wrong. */
  method GetReady(fifo: Node, ghost nodes: set<Node>, ghost l: Layout, ghost twice: bool) returns (t: Option<nat>)
    requires l.nodes == nodes && fifo == l.sched && (if twice then Twice(l) else l.Linked(MemoryOf(nodes)))
    modifies nodes
    ensures t == if l.ready == [] then None else Some(l.ready[0])
    ensures if twice then Corrupt(l) else
      (if l.ready == [] then l.Linked(MemoryOf(nodes)) else l.(ready := l.ready[1..]).Linked(MemoryOf(nodes)))
  {
    ghost var m := MemoryOf(nodes);
    ghost var ring, k := RingToGet(l, nodes, twice);
    var first := GetFirst(fifo, nodes, ring, k);
    t := if first == null then None else Some(first.id.thread);
    if !twice {
      AfterGet(l, m, MemoryOf(nodes));
    }
  }

  lemma RingToGet(l: Layout, nodes: set<Node>, twice: bool) returns (ring: seq<Node>, k: nat)
    requires l.nodes == nodes && (if twice then Twice(l) else l.Linked(MemoryOf(nodes)))
    ensures l.Shape() && ring == l.RingOf(OnSched) && Inside(ring, nodes)
    ensures if twice then PutAgain(ring, k) else IsRing(ring) && l.InPlace(MemoryOf(nodes))
    ensures |ring| > 1 ==> ring[1].id == ThreadLink(l.ready[0])
  {
    if twice {
      assert Opened(Seal);
      ring := l.RingOf(OnSched);
      k :| PutAgain(ring, k);
    } else {
      Open(l, MemoryOf(nodes));
      ring, k := l.RingOf(OnSched), 0;
      RingInside(l, OnSched);
      RingInMemory(nodes, ring);
    }
  }

  /** list_fifo_get of a ring, or of a list that has been put together wrong */
  method GetFirst(fifo: Node, ghost nodes: set<Node>, ghost ring: seq<Node>, ghost k: nat) returns (first: Node?)
    requires Inside(ring, nodes) && ring != [] && fifo == ring[0] && (PutAgain(ring, k) || IsRing(ring))
    modifies nodes
    ensures SameBut(old(MemoryOf(nodes)), MemoryOf(nodes), ring, ring)
    ensures if |ring| == 1 then first == null else first == ring[1]
    ensures old(PutAgain(ring, k)) ==> Broken(ring)
    ensures old(IsRing(ring)) && |ring| == 1 ==> RingIn(MemoryOf(nodes), ring)
    ensures old(IsRing(ring)) && |ring| > 1 ==> RingIn(MemoryOf(nodes), [fifo] + ring[2..]) && RingIn(MemoryOf(nodes), [ring[1]])
  {
    first := ListFifoGet(fifo, ring, k);
    if |ring| == 1 {
      RingInMemory(nodes, ring);
    } else {
      RingInMemory(nodes, [fifo] + ring[2..]);
      RingInMemory(nodes, [ring[1]]);
    }
  }

  lemma AfterGet(l: Layout, m: Memory, m': Memory)
    requires l.InPlace(m) && SameBut(m, m', l.RingOf(OnSched), l.RingOf(OnSched))
    requires if l.ready == [] then RingIn(m', l.RingOf(OnSched))
             else RingIn(m', [l.sched] + l.RingOf(OnSched)[2..]) && RingIn(m', [l.RingOf(OnSched)[1]])
    ensures if l.ready == [] then l.Linked(m') else l.(ready := l.ready[1..]).Linked(m')
  {
    if l.ready == [] {
      assert SameOutside(l, m, m', OnSched, OnSched);
      Relinked(l, l, m, m', OnSched, OnSched);
    } else {
      AfterReadyGet(l, m, m');
    }
  }

  /** list_fifo_get of a wait list */
  method GetWait(fifo: Node, ghost nodes: set<Node>, ghost l: Layout, ghost o: nat) returns (t: nat)
    requires l.Linked(MemoryOf(nodes)) && o < |l.waits| == |l.heads| && l.waits[o] != [] && fifo == l.heads[o]
    modifies nodes
    ensures t == l.waits[o][0] && l.(waits := l.waits[o := l.waits[o][1..]]).Linked(MemoryOf(nodes))
  {
    ghost var m := MemoryOf(nodes);
    Open(l, m);
    RingInside(l, OnWait(o));
    RingInMemory(nodes, l.RingOf(OnWait(o)));
    var first := GetFirst(fifo, nodes, l.RingOf(OnWait(o)), 0);
    t := first.id.thread;
    AfterWaitGet(l, m, MemoryOf(nodes), o);
  }

  /** Heads of empty lists, one for each object */
  method MakeHeads(n: nat) returns (heads: seq<Node>)
    ensures |heads| == n && forall o :: 0 <= o < n ==> heads[o].id == WaitList(o)
    ensures forall o :: 0 <= o < n ==> fresh(heads[o]) && heads[o].next == heads[o] && heads[o].prev == heads[o]
  {
    heads := [];
    while |heads| < n
      invariant |heads| <= n && forall o :: 0 <= o < |heads| ==> heads[o].id == WaitList(o)
      invariant forall o :: 0 <= o < |heads| ==> fresh(heads[o]) && heads[o].next == heads[o] && heads[o].prev == heads[o]
    {
      var h := new Node(WaitList(|heads|));
      heads := heads + [h];
    }
  }

  /** The empty lists of snow_start and of the init functions */
  method MakeLists(n: nat) returns (sched: Node, timerList: Node, heads: seq<Node>, ghost l: Layout)
    ensures fresh(l.nodes) && l.Linked(MemoryOf(l.nodes)) && |heads| == n
    ensures l == Layout(sched, timerList, heads, [], [], [], [], seq(n, o => []), l.nodes)
  {
    sched := new Node(SchedList);
    timerList := new Node(SnowList.TimerList);
    heads := MakeHeads(n);
    ghost var nodes := {sched, timerList} + (set h | h in heads);
    l := Layout(sched, timerList, heads, [], [], [], [], seq(n, o => []), nodes);
    SelfLinked(nodes);
    NoThreadsLinked(l, MemoryOf(nodes));
  }

  lemma SelfLinked(nodes: set<Node>)
    requires forall h :: h in nodes ==> h.next == h && h.prev == h
    ensures MemoryOf(nodes).Covers(nodes)
    ensures forall n :: n in nodes ==> MemoryOf(nodes).Next(n) == n && MemoryOf(nodes).Prev(n) == n
  {
  }

  lemma NoThreadsLinked(l: Layout, m: Memory)
    requires l.Shape() && |l.links| == 0 && m.Covers(l.nodes)
    requires l.ready == l.timers == [] && forall o :: 0 <= o < |l.waits| ==> l.waits[o] == []
    requires forall n :: n in l.nodes ==> m.Next(n) == n && m.Prev(n) == n
    ensures l.Linked(m)
  {
    forall x: Slot | l.IsSlot(x)
      ensures |l.RingOf(x)| == 1
    {
      assert x.OnWait? ==> l.waits[x.obj] == [];
    }
  }

  // ---------- new threads ----------

  /** One more thread, on no list */
  function Longer(l: Layout, node: Node, timer: Node): (l': Layout) {
    l.(links := l.links + [node], timerLinks := l.timerLinks + [timer], nodes := l.nodes + {node, timer})
  }

  /** l' is l with one more thread. */
  predicate HasNew(l: Layout, node: Node, timer: Node, l': Layout) {
    && l'.sched == l.sched && l'.timerList == l.timerList && l'.heads == l.heads
    && l'.links == l.links + [node] && l'.timerLinks == l.timerLinks + [timer]
    && l'.ready == l.ready && l'.timers == l.timers && l'.waits == l.waits
  }

  /** The nodes of a new thread, on no list */
  method NewNodes(t: nat, ghost l: Layout, ghost nodes: set<Node>) returns (node: Node, timer: Node, ghost l': Layout)
    requires l.Linked(MemoryOf(nodes)) && l.nodes == nodes && t == |l.links|
    ensures l'.nodes == nodes + {node, timer} && fresh(node) && fresh(timer) && HasNew(l, node, timer, l')
    ensures l'.Linked(MemoryOf(l'.nodes)) && t !in l'.ready && !l'.Waits(t)
  {
    ghost var m := MemoryOf(nodes);
    node := new Node(ThreadLink(t));
    timer := new Node(TimerLink(t));
    assert MemoryOf(nodes) == m;
    Grown(l, nodes, node, timer);
    l' := Longer(l, node, timer);
  }

  lemma Grown(l: Layout, nodes: set<Node>, node: Node, timer: Node)
    requires l.Linked(MemoryOf(nodes)) && l.nodes == nodes && node !in nodes && timer !in nodes
    requires node.id == ThreadLink(|l.links|) && timer.id == TimerLink(|l.links|)
    requires IsRing([node]) && IsRing([timer])
    ensures Longer(l, node, timer).Linked(MemoryOf(nodes + {node, timer}))
    ensures Longer(l, node, timer).IsSlot(Loose(|l.links|))
  {
    var l', m, m' := Longer(l, node, timer), MemoryOf(nodes), MemoryOf(nodes + {node, timer});
    Open(l, m);
    GrownShape(l, node, timer);
    forall x: Slot | l'.IsSlot(x)
      ensures RingIn(m', l'.RingOf(x))
    {
      if x == Loose(|l.links|) || x == LooseTimer(|l.links|) {
        RingInMemory(nodes + {node, timer}, l'.RingOf(x));
      } else {
        GrownRing(l, node, timer, x);
        RingInside(l, x);
        SameLinks(m, m', l.RingOf(x));
      }
    }
  }

  lemma GrownShape(l: Layout, node: Node, timer: Node)
    requires l.Shape() && l.Apart() && node.id == ThreadLink(|l.links|) && timer.id == TimerLink(|l.links|)
    ensures Longer(l, node, timer).Shape() && Longer(l, node, timer).Apart()
    ensures Longer(l, node, timer).IsSlot(Loose(|l.links|))
  {
    var l', n := Longer(l, node, timer), |l.links|;
    assert forall u :: l'.Waits(u) <==> l.Waits(u);
    assert n !in l.ready;
    assert !l.Waits(n);
  }

  lemma GrownRing(l: Layout, node: Node, timer: Node, x: Slot)
    requires l.Shape() && Longer(l, node, timer).Shape() && Longer(l, node, timer).IsSlot(x)
    requires x != Loose(|l.links|) && x != LooseTimer(|l.links|)
    ensures l.IsSlot(x) && Longer(l, node, timer).RingOf(x) == l.RingOf(x)
  {
    var l' := Longer(l, node, timer);
    assert forall u :: l'.Waits(u) <==> l.Waits(u);
  }
}
