/** alarm_insert of alarm_cond.c on the linked list it changes in place. */
module AlarmList {
  import opened AlarmThread

  class Node {
    const alarm: Alarm
    var link: Node?

    constructor (alarm: Alarm)
      ensures this.alarm == alarm
    {
      this.alarm := alarm;
      link := null;
    }
  }

  class List {
    var head: Node?
    ghost var nodes: seq<Node>

    ghost predicate Valid()
      reads this, nodes
    {
      && (head == null <==> nodes == [])
      && (forall i, j :: 0 <= i < j < |nodes| ==> nodes[i] != nodes[j])
      && (nodes != [] ==>
            && head == nodes[0] && nodes[|nodes| - 1].link == null
            && forall i {:trigger nodes[i].link} :: 0 <= i < |nodes| - 1 ==> nodes[i].link == nodes[i + 1])
    }

    ghost function Contents(): (s: seq<Alarm>)
      reads this
      ensures |s| == |nodes|
    {
      seq(|nodes|, i requires 0 <= i < |nodes| reads this => nodes[i].alarm)
    }

    constructor ()
      ensures Valid() && Contents() == []
    {
      head := null;
      nodes := [];
    }

    /** The search loop.  `last` stands for the link field to change: null for the list
        header. */
    method FindPlace(alarm: Alarm) returns (last: Node?, next: Node?, ghost k: nat)
      requires Valid()
      ensures k <= |nodes|
      ensures next == if k < |nodes| then nodes[k] else null
      ensures last == if k > 0 then nodes[k - 1] else null
      ensures forall j :: 0 <= j < k ==> nodes[j].alarm.time < alarm.time
      ensures next != null ==> next.alarm.time >= alarm.time
    {
      last, next, k := null, head, 0;
      while next != null && next.alarm.time < alarm.time
        invariant 0 <= k <= |nodes|
        invariant next == if k < |nodes| then nodes[k] else null
        invariant last == if k > 0 then nodes[k - 1] else null
        invariant forall j :: 0 <= j < k ==> nodes[j].alarm.time < alarm.time
        decreases |nodes| - k
      {
        last := next;
        next := next.link;
        k := k + 1;
      }
    }

    /** The two assignments that link the alarm in at position k. */
    method LinkIn(alarm: Node, last: Node?, next: Node?, ghost k: nat)
      requires Valid() && alarm !in nodes && k <= |nodes|
      requires next == if k < |nodes| then nodes[k] else null
      requires last == if k > 0 then nodes[k - 1] else null
      modifies this, nodes, alarm
      ensures Valid() && nodes == old(nodes)[..k] + [alarm] + old(nodes)[k..]
    {
      alarm.link := next;
      if last == null {
        head := alarm;
      } else {
        last.link := alarm;
      }
      nodes := nodes[..k] + [alarm] + nodes[k..];
    }

    /** alarm_insert up to its signal: the alarm goes before the first not earlier one. */
    method InsertNode(alarm: Node)
      requires Valid() && alarm !in nodes
      modifies this, nodes, alarm
      ensures Valid() && Contents() == Insert(old(Contents()), alarm.alarm)
    {
      var last, next, k := FindPlace(alarm.alarm);
      InsertAt(Contents(), alarm.alarm, k);
      LinkIn(alarm, last, next, k);
    }
  }

  lemma {:induction false} InsertAt(list: seq<Alarm>, a: Alarm, k: nat)
    requires k <= |list| && forall j :: 0 <= j < k ==> list[j].time < a.time
    requires k < |list| ==> list[k].time >= a.time
    ensures Insert(list, a) == list[..k] + [a] + list[k..]
  {
    if k > 0 {
      InsertAt(list[1..], a, k - 1);
      assert list[..k] == [list[0]] + list[1..][..k - 1];
      assert list[k..] == list[1..][k - 1..];
    }
  }
}
