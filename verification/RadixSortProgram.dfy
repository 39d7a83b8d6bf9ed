/** The radix sort as radix_sort.c runs it, on ten circular doubly linked lists. */
module RadixSortProgram {
  import opened RadixSort
  import opened Numerals
  import opened Sequences

  class Node {
    const num: nat
    var next: Node
    var prev: Node
    ghost const owner: Ring   // the list the node was made for

    constructor (num: nat, ghost owner: Ring)
      ensures this.num == num && next == this && prev == this && this.owner == owner
    {
      this.num := num;
      this.owner := owner;
      next := this;
      prev := this;
    }
  }

  /** One slot of the array of list heads, with the nodes of its list in order. */
  class Ring {
    var head: Node?
    ghost var nodes: seq<Node>

    ghost predicate Valid()
      reads this, nodes
    {
      && (head == null <==> nodes == [])
      && (forall i :: 0 <= i < |nodes| ==> nodes[i].owner == this)
      && (forall i, j :: 0 <= i < j < |nodes| ==> nodes[i] != nodes[j])
      && (nodes != [] ==>
            && head == nodes[0] && nodes[0].prev == nodes[|nodes| - 1] && nodes[|nodes| - 1].next == nodes[0]
            && (forall i {:trigger nodes[i].next} :: 0 <= i < |nodes| - 1 ==> nodes[i].next == nodes[i + 1])
            && (forall i {:trigger nodes[i].prev} :: 0 < i < |nodes| ==> nodes[i].prev == nodes[i - 1]))
    }

    ghost function Values(): (s: seq<nat>)
      reads this
      ensures |s| == |nodes|
    {
      seq(|nodes|, i requires 0 <= i < |nodes| reads this => nodes[i].num)
    }

    constructor ()
      ensures Valid() && nodes == []
    {
      head := null;
      nodes := [];
    }

    /** addNum: a new last element. */
    method AddNum(num: nat)
      requires Valid()
      modifies this, nodes
      ensures Valid() && Values() == old(Values()) + [num]
      ensures |nodes| == |old(nodes)| + 1 && old(nodes) == nodes[..|old(nodes)|] && fresh(nodes[|old(nodes)|])
    {
      var node := new Node(num, this);
      if head == null {
        head := node;
      } else {
        node.next := head;
        head.prev.next := node;
        node.prev := head.prev;
        head.prev := node;
      }
      nodes := nodes + [node];
    }

    /** The end of sort's inner loop: the first element is unlinked and freed. */
    method RemoveFirst()
      requires Valid() && head != null
      modifies this, nodes
      ensures Valid() && Values() == old(Values())[1..] && nodes == old(nodes)[1..]
    {
      var first := head;
      if first == first.next {
        head := null;
      } else {
        first.prev.next := first.next;
        first.next.prev := first.prev;
        head := first.next;
      }
      nodes := nodes[1..];
    }
  }

  /** The array of ten list heads. */
  class Lists {
    const rings: seq<Ring>
    ghost var repr: set<Node>

    ghost predicate Valid()
      reads this, rings, repr
    {
      && |rings| == 10
      && (forall i, j :: 0 <= i < j < |rings| ==> rings[i] != rings[j])
      && (forall i, n :: 0 <= i < |rings| && n in rings[i].nodes ==> n in repr)
      && (forall i :: 0 <= i < |rings| ==> rings[i].Valid())
    }

    ghost function Values(): (b: Buckets)
      requires |rings| == 10
      reads rings
    {
      seq(10, i requires 0 <= i < 10 reads rings => rings[i].Values())
    }

    constructor ()
      ensures Valid() && Values() == NO_BUCKETS && repr == {} && fresh(rings)
    {
      var rs: seq<Ring> := [];
      while |rs| < 10
        invariant |rs| <= 10
        invariant forall i, j :: 0 <= i < j < |rs| ==> rs[i] != rs[j]
        invariant forall i :: 0 <= i < |rs| ==> rs[i].Valid() && rs[i].nodes == [] && fresh(rs[i])
      {
        var r := new Ring();
        rs := rs + [r];
      }
      rings := rs;
      repr := {};
    }

    method AddTo(radix: nat, num: nat)
      requires Valid() && radix < 10
      modifies rings[radix], rings[radix].nodes, this
      ensures Valid() && fresh(repr - old(repr))
      ensures rings[radix].Values() == old(rings[radix].Values()) + [num]
      ensures forall i :: 0 <= i < 10 && i != radix ==> rings[i].nodes == old(rings[i].nodes)
    {
      var ring := rings[radix];
      ring.AddNum(num);
      repr := repr + {ring.nodes[|ring.nodes| - 1]};
    }

    /** One number goes to the list of its digit. */
    method Put(base: nat, num: nat)
      requires Valid() && base >= 1
      modifies this, rings, repr
      ensures Valid() && Values() == RadixSort.Put(old(Values()), base, num)
      ensures fresh(repr - old(repr))
    {
      ghost var d := Digit(num, base);
      AddTo(num / base % 10, num);
      assert forall i :: 0 <= i < 10 && i != d ==> rings[i].Values() == old(rings[i].Values());
    }
  }

  lemma DistributeNext(done: seq<nat>, base: nat, x: nat)
    requires base >= 1
    ensures Distribute(done + [x], base) == Put(Distribute(done, base), base, x)
  {
    assert (done + [x])[..|done|] == done;
  }

  /** One round of sort's inner loop: the first element moves to the barrel. */
  method MoveFirst(ring: Ring, barrel: Lists, base: nat, ghost moved: seq<nat>) returns (ghost moved': seq<nat>)
    requires ring.Valid() && ring.head != null && barrel.Valid() && base >= 1 && ring !in barrel.rings
    requires forall n :: n in ring.nodes ==> n !in barrel.repr
    requires barrel.Values() == Distribute(moved, base)
    modifies ring, ring.nodes, barrel, barrel.rings, barrel.repr
    ensures ring.Valid() && ring.nodes == old(ring.nodes)[1..]
    ensures barrel.Valid() && fresh(barrel.repr - old(barrel.repr))
    ensures barrel.Values() == Distribute(moved', base)
    ensures moved' + ring.Values() == moved + old(ring.Values())
  {
    var num := ring.head.num;
    ghost var vs := ring.Values();
    assert vs[0] == num;
    moved' := moved + [num];
    ShiftFirst(moved, vs);
    DistributeNext(moved, base, num);
    PutBeside(ring, barrel, base, num);
    ring.RemoveFirst();
  }

  /** What a list that is not in the barrel sees of a number going there: nothing. */
  method PutBeside(ghost ring: Ring, barrel: Lists, base: nat, num: nat)
    requires ring.Valid() && barrel.Valid() && base >= 1 && ring !in barrel.rings
    requires forall n :: n in ring.nodes ==> n !in barrel.repr
    modifies barrel, barrel.rings, barrel.repr
    ensures ring.Valid() && ring.Values() == old(ring.Values()) && ring.nodes == old(ring.nodes)
    ensures forall n :: n in ring.nodes ==> n !in barrel.repr
    ensures barrel.Valid() && barrel.Values() == RadixSort.Put(old(barrel.Values()), base, num)
    ensures fresh(barrel.repr - old(barrel.repr))
  {
    barrel.Put(base, num);
  }

  /** sort's inner loop: the elements of one list move to the barrel in order. */
  method EmptyRing(ring: Ring, barrel: Lists, base: nat, ghost done: seq<nat>)
    requires ring.Valid() && barrel.Valid() && base >= 1 && ring !in barrel.rings
    requires forall n :: n in ring.nodes ==> n !in barrel.repr
    requires barrel.Values() == Distribute(done, base)
    modifies ring, ring.nodes, barrel, barrel.rings, barrel.repr
    ensures ring.Valid() && ring.nodes == []
    ensures barrel.Valid() && fresh(barrel.repr - old(barrel.repr))
    ensures barrel.Values() == Distribute(done + old(ring.Values()), base)
  {
    ghost var moved, k := done, 0;
    while ring.head != null
      invariant ring.Valid() && 0 <= k <= |old(ring.nodes)| && ring.nodes == old(ring.nodes)[k..]
      invariant barrel.Valid() && fresh(barrel.repr - old(barrel.repr))
      invariant barrel.Values() == Distribute(moved, base)
      invariant moved + ring.Values() == done + old(ring.Values())
      decreases |ring.nodes|
    {
      moved := MoveFirst(ring, barrel, base, moved);
      k := k + 1;
    }
    assert moved + ring.Values() == moved;
  }

  /** The power of ten that sort computes by counting its argument down. */
  method ComputeBase(power: nat) returns (base: nat)
    requires power >= 1
    ensures base == Power(10, power - 1)
  {
    base := 1;
    var p := power - 1;
    while p != 0
      invariant 0 <= p <= power - 1 && base == Power(10, power - 1 - p)
      decreases p
    {
      base := base * 10;
      p := p - 1;
    }
  }

  /** What sort's outer loop knows of the lists it has not yet emptied. */
  ghost predicate Untouched(chain: Lists, i: nat, vals: Buckets, nodes: set<Node>)
    requires |chain.rings| == 10
    reads chain.rings, nodes
  {
    && (forall j, n :: i <= j < 10 && n in chain.rings[j].nodes ==> n in nodes)
    && (forall j :: i <= j < 10 ==> chain.rings[j].Valid() && chain.rings[j].Values() == vals[j])
  }

  /** sort: one pass by the digit of the given power. */
  method Sort(chain: Lists, power: nat) returns (barrel: Lists)
    requires chain.Valid() && power >= 1
    modifies chain.rings, chain.repr
    ensures barrel.Valid() && fresh(barrel) && fresh(barrel.rings) && fresh(barrel.repr)
    ensures barrel.Values() == Pass(old(chain.Values()), Power(10, power - 1))
  {
    ghost var vals, nodes := chain.Values(), chain.repr;
    barrel := new Lists();
    var base := ComputeBase(power);
    var i := 0;
    while i < 10
      invariant 0 <= i <= 10 && Untouched(chain, i, vals, nodes)
      invariant barrel.Valid() && fresh(barrel) && fresh(barrel.rings) && fresh(barrel.repr)
      invariant barrel.Values() == Distribute(Flatten(vals, i), base)
    {
      SortRing(chain, i, barrel, base, vals, nodes);
      i := i + 1;
    }
  }

  method SortRing(chain: Lists, i: nat, barrel: Lists, base: nat, ghost vals: Buckets, ghost nodes: set<Node>)
    requires |chain.rings| == 10 && i < 10 && base >= 1 && Untouched(chain, i, vals, nodes)
    requires forall j, k :: 0 <= j < k < 10 ==> chain.rings[j] != chain.rings[k]
    requires barrel.Valid() && barrel.Values() == Distribute(Flatten(vals, i), base)
    requires (forall j :: 0 <= j < 10 ==> chain.rings[j] !in barrel.rings) && nodes !! barrel.repr
    modifies chain.rings[i], chain.rings[i].nodes, barrel, barrel.rings, barrel.repr
    ensures Untouched(chain, i + 1, vals, nodes)
    ensures barrel.Valid() && fresh(barrel.repr - old(barrel.repr))
    ensures barrel.Values() == Distribute(Flatten(vals, i + 1), base)
  {
    EmptyRing(chain.rings[i], barrel, base, Flatten(vals, i));
  }

  /** The first loop of main: the file is distributed by last digit. */
  method ReadFile(file: seq<nat>) returns (foo: Lists)
    ensures foo.Valid() && fresh(foo) && fresh(foo.rings) && fresh(foo.repr)
    ensures foo.Values() == Distribute(file, 1)
  {
    foo := new Lists();
    var i := 0;
    while i < |file|
      invariant 0 <= i <= |file| && foo.Valid() && fresh(foo) && fresh(foo.rings) && fresh(foo.repr)
      invariant foo.Values() == Distribute(file[..i], 1)
    {
      TakeNext(file, i);
      DistributeNext(file[..i], 1, file[i]);
      foo.Put(1, file[i]);
      i := i + 1;
    }
    TakeAll(file);
  }

  /** Pass `radix` turns a stable sort by radix - 1 digits into one by radix digits. */
  method NextPass(foo: Lists, radix: nat, ghost now: seq<nat>, ghost xs: seq<nat>)
    returns (r: Lists, ghost next: seq<nat>)
    requires foo.Valid() && radix >= 1 && InOrder(foo.Values()) == now
    requires StableByDigits(now, xs, radix - 1)
    modifies foo.rings, foo.repr
    ensures r.Valid() && fresh(r) && fresh(r.rings) && fresh(r.repr) && InOrder(r.Values()) == next
    ensures StableByDigits(next, xs, radix)
  {
    StableByNext(now, xs, radix - 1);
    next := InOrder(Distribute(now, Power(10, radix - 1)));
    r := Sort(foo, radix);
  }

  /** The second loop of main: one pass per digit of max. */
  method RunPasses(start: Lists, max: nat, ghost xs: seq<nat>)
    returns (foo: Lists, ghost now: seq<nat>, ghost k: nat)
    requires start.Valid() && InOrder(start.Values()) == xs
    modifies start.rings, start.repr
    ensures foo.Valid() && InOrder(foo.Values()) == now && k == |DigitsOf(max)|
    ensures StableByDigits(now, xs, k)
  {
    StableByNothing(xs);
    foo, now, k := start, xs, 0;
    var m, radix := max, 1;
    while m > 0
      invariant 0 <= m && k + |DigitsOf(m)| == |DigitsOf(max)| && radix == k + 1
      invariant foo.Valid() && InOrder(foo.Values()) == now && StableByDigits(now, xs, k)
      invariant foo == start || (fresh(foo) && fresh(foo.rings) && fresh(foo.repr))
      decreases m
    {
      foo, now := NextPass(foo, radix, now, xs);
      m, radix, k := m / 10, radix + 1, k + 1;
    }
  }

  /** main: the lists read in order finally hold the sorted file, and for max > 0 they
      are its stable sort by the digits of max. */
  method SortFile(file: seq<nat>, max: nat) returns (foo: Lists)
    ensures foo.Valid()
    ensures max > 0 ==> StableSorted(InOrder(foo.Values()), file, Power(10, |DigitsOf(max)|))
    ensures (forall x :: x in file ==> x <= max) ==> SortedFile(InOrder(foo.Values()), file)
  {
    foo := ReadFile(file);
    ghost var out, k;
    foo, out, k := RunPasses(foo, max, InOrder(foo.Values()));
    OpenStable(out, InOrder(Distribute(file, 1)), k);
    if max > 0 {
      StableOfInput(out, file, |DigitsOf(max)|);
    }
    if forall x :: x in file ==> x <= max {
      AllDigitsSort(out, file, max);
    }
  }
}
