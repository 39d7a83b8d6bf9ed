/** The binary heap of programming_pearls/heap.c.  A heap is a sequence whose element 0
    is the sentinel; the elements proper are at 1 .. |h| - 1. */
module Heap {

  const SENTINEL := -1

  /** Every element whose parent is at `from` or later is no smaller than its parent. */
  ghost predicate HeapFrom(h: seq<int>, from: int) {
    forall j :: 2 <= j < |h| && j / 2 >= from ==> Ordered(h, j)
  }

  predicate Ordered(h: seq<int>, j: int)
    requires 2 <= j < |h|
  {
    h[j / 2] <= h[j]
  }

  ghost predicate IsHeap(h: seq<int>) {
    |h| >= 1 && HeapFrom(h, 1)
  }

  lemma {:induction false} RootIsMinimal(h: seq<int>, i: nat)
    requires IsHeap(h) && 1 <= i < |h|
    ensures h[1] <= h[i]
  {
    if i > 1 {
      assert Ordered(h, i);
      RootIsMinimal(h, i / 2);
    }
  }

  // ---------- moving a hole down ----------

  /** The smaller child, the left one on a tie. */
  function Child(h: seq<int>, i: nat): (c: nat)
    requires 1 <= i && 2 * i < |h|
    ensures c / 2 == i && i < c < |h|
    ensures forall j :: 2 <= j < |h| && j / 2 == i ==> h[c] <= h[j]
  {
    if 2 * i + 1 < |h| && h[2 * i + 1] < h[2 * i] then 2 * i + 1 else 2 * i
  }

  /** Placing x below the hole at i: smaller children move up. */
  function Sift(h: seq<int>, i: nat, x: int): (r: seq<int>)
    requires 1 <= i < |h|
    ensures |r| == |h| && r[0] == h[0]
    decreases |h| - i
  {
    if 2 * i < |h| && h[Child(h, i)] < x
    then Sift(h[i := h[Child(h, i)]], Child(h, i), x)
    else h[i := x]
  }

  lemma {:induction false} SiftPermutes(h: seq<int>, i: nat, x: int)
    requires 1 <= i < |h|
    ensures multiset(Sift(h, i, x)) == multiset(h[i := x])
    decreases |h| - i
  {
    if 2 * i < |h| && h[Child(h, i)] < x {
      var c := Child(h, i);
      SiftPermutes(h[i := h[c]], c, x);
    }
  }

  /** All edges are in order except those that touch the hole at i, whose parent is
      no larger than x and than the hole's children. */
  ghost predicate HoleAt(h: seq<int>, i: nat, x: int, from: int)
    requires 1 <= i < |h|
  {
    && (forall j :: 2 <= j < |h| && j / 2 >= from && j != i && j / 2 != i ==> Ordered(h, j))
    && (i / 2 >= from && i >= 2 ==>
          h[i / 2] <= x && forall j :: 2 <= j < |h| && j / 2 == i ==> h[i / 2] <= h[j])
  }

  lemma HoleFilled(h: seq<int>, i: nat, x: int, from: int)
    requires 1 <= i < |h| && from >= 1 && HoleAt(h, i, x, from)
    requires 2 * i < |h| ==> x <= h[Child(h, i)]
    ensures HeapFrom(h[i := x], from)
  {
    var r := h[i := x];
    forall j | 2 <= j < |r| && j / 2 >= from
      ensures Ordered(r, j)
    {
      if j != i && j / 2 != i {
        assert Ordered(h, j);
      }
    }
  }

  lemma HoleMoves(h: seq<int>, i: nat, x: int, from: int)
    requires 1 <= from <= i && 2 * i < |h| && HoleAt(h, i, x, from) && h[Child(h, i)] < x
    ensures HoleAt(h[i := h[Child(h, i)]], Child(h, i), x, from)
  {
    var c := Child(h, i);
    var r := h[i := h[c]];
    forall j | 2 <= j < |r| && j / 2 >= from && j != c && j / 2 != c
      ensures Ordered(r, j)
    {
      if j != i && j / 2 != i {
        assert Ordered(h, j);
      }
    }
    forall j | 2 <= j < |r| && j / 2 == c
      ensures r[c / 2] <= r[j]
    {
      assert Ordered(h, j);
    }
  }

  lemma {:induction false} SiftOrders(h: seq<int>, i: nat, x: int, from: int)
    requires 1 <= from <= i < |h| && HoleAt(h, i, x, from)
    ensures HeapFrom(Sift(h, i, x), from)
    decreases |h| - i
  {
    if 2 * i < |h| && h[Child(h, i)] < x {
      HoleMoves(h, i, x, from);
      SiftOrders(h[i := h[Child(h, i)]], Child(h, i), x, from);
    } else {
      HoleFilled(h, i, x, from);
    }
  }

  /** percolateDown at i turns two heaps below i into one at i. */
  lemma SiftBuilds(h: seq<int>, i: nat)
    requires 1 <= i < |h| && HeapFrom(h, i + 1)
    ensures HeapFrom(Sift(h, i, h[i]), i)
    ensures multiset(Sift(h, i, h[i])) == multiset(h)
  {
    HoleHere(h, i);
    SiftOrders(h, i, h[i], i);
    SiftKeepsElements(h, i);
  }

  lemma SiftKeepsElements(h: seq<int>, i: nat)
    requires 1 <= i < |h|
    ensures multiset(Sift(h, i, h[i])) == multiset(h)
  {
    SiftPermutes(h, i, h[i]);
    assert h[i := h[i]] == h;
  }

  lemma HoleHere(h: seq<int>, i: nat)
    requires 1 <= i < |h| && HeapFrom(h, i + 1)
    ensures HoleAt(h, i, h[i], i)
  {
  }

  // ---------- deleting the minimum ----------

  /** What each delMin leaves: the last element sifted down from the root. */
  function DeleteMin(h: seq<int>): (r: seq<int>)
    requires |h| >= 2
    ensures |r| == |h| - 1
  {
    var n := |h| - 1;
    if n == 1 then h[..1] else Sift(h[..n], 1, h[n])
  }

  lemma DeleteMinKeepsHeap(h: seq<int>)
    requires IsHeap(h) && |h| >= 2
    ensures IsHeap(DeleteMin(h))
    ensures multiset(DeleteMin(h)) == multiset(h) - multiset{h[1]}
    ensures forall i :: 1 <= i < |h| ==> h[1] <= h[i]
  {
    var n := |h| - 1;
    assert h == h[..n] + [h[n]];
    if n > 1 {
      forall j | 2 <= j < n && j / 2 >= 1 && j != 1 && j / 2 != 1
        ensures Ordered(h[..n], j)
      {
        assert Ordered(h, j);
      }
      SiftOrders(h[..n], 1, h[n], 1);
      SiftPermutes(h[..n], 1, h[n]);
    }
    forall i | 1 <= i < |h|
      ensures h[1] <= h[i]
    {
      RootIsMinimal(h, i);
    }
  }

  /** The elements proper. */
  ghost function Elements(h: seq<int>): (m: multiset<int>)
    requires |h| >= 1
  {
    multiset(h[1..])
  }

  lemma ElementsOf(h: seq<int>)
    requires |h| >= 1
    ensures multiset(h) == Elements(h) + multiset{h[0]}
  {
    assert h == [h[0]] + h[1..];
  }

  lemma DeleteMinElements(h: seq<int>)
    requires IsHeap(h) && |h| >= 2
    ensures Elements(h) == Elements(DeleteMin(h)) + multiset{h[1]}
  {
    DeleteMinKeepsHeap(h);
    ElementsOf(h);
    ElementsOf(DeleteMin(h));
    assert h[1] in multiset(h) by { assert h[1] in h; }
  }

  lemma MinimumBelow(h: seq<int>, y: int)
    requires IsHeap(h) && |h| >= 2 && y in Elements(h)
    ensures h[1] <= y
  {
    assert y in h[1..];
    var k :| 0 <= k < |h[1..]| && h[1..][k] == y;
    RootIsMinimal(h, k + 1);
  }

  // ---------- inserting ----------

  /** The climb from pos meets an element no larger than x: the sentinel, or else the
      root on the way to it. */
  predicate Stops(h: seq<int>, pos: nat, x: int)
    requires 1 <= pos < |h|
  {
    h[0] <= x || (pos >= 2 && h[1] <= x)
  }

  /** Placing x above the hole at pos: larger ancestors move down. */
  function Rise(h: seq<int>, pos: nat, x: int): (r: seq<int>)
    requires 1 <= pos < |h| && Stops(h, pos, x)
    ensures |r| == |h| && r[0] == h[0]
    decreases pos
  {
    if x < h[pos / 2] then Rise(h[pos := h[pos / 2]], pos / 2, x) else h[pos := x]
  }

  lemma {:induction false} RisePermutes(h: seq<int>, pos: nat, x: int)
    requires 1 <= pos < |h| && Stops(h, pos, x)
    ensures multiset(Rise(h, pos, x)) == multiset(h[pos := x])
    decreases pos
  {
    if x < h[pos / 2] {
      RisePermutes(h[pos := h[pos / 2]], pos / 2, x);
    }
  }

  /** All edges are in order except those at the hole, whose children are no smaller
      than x and than the hole's parent. */
  ghost predicate HoleBelow(h: seq<int>, pos: nat, x: int)
    requires 1 <= pos < |h|
  {
    && (forall j :: 2 <= j < |h| && j != pos && j / 2 != pos ==> Ordered(h, j))
    && (forall j :: 2 <= j < |h| && j / 2 == pos ==> x <= h[j] && (pos >= 2 ==> h[pos / 2] <= h[j]))
  }

  lemma HoleRises(h: seq<int>, pos: nat, x: int)
    requires 2 <= pos < |h| && HoleBelow(h, pos, x) && x < h[pos / 2]
    ensures HoleBelow(h[pos := h[pos / 2]], pos / 2, x)
  {
    var p := pos / 2;
    var r := h[pos := h[p]];
    forall j | 2 <= j < |r| && j != p && j / 2 != p
      ensures Ordered(r, j)
    {
      if j / 2 != pos {
        assert Ordered(h, j);
      }
    }
    forall j | 2 <= j < |r| && j / 2 == p
      ensures x <= r[j] && (p >= 2 ==> r[p / 2] <= r[j])
    {
      if j != pos {
        assert Ordered(h, j);
      }
      if p >= 2 {
        assert Ordered(h, p);
      }
    }
  }

  lemma {:induction false} RiseOrders(h: seq<int>, pos: nat, x: int)
    requires 1 <= pos < |h| && Stops(h, pos, x) && HoleBelow(h, pos, x)
    ensures IsHeap(Rise(h, pos, x))
    decreases pos
  {
    if x < h[pos / 2] {
      HoleRises(h, pos, x);
      RiseOrders(h[pos := h[pos / 2]], pos / 2, x);
    } else {
      var r := h[pos := x];
      forall j | 2 <= j < |r|
        ensures Ordered(r, j)
      {
        if j != pos && j / 2 != pos {
          assert Ordered(h, j);
        }
      }
    }
  }

  /** The new last slot, whatever it held before, is a hole. */
  lemma InsertKeepsHeap(h: seq<int>, stale: int, x: int)
    requires IsHeap(h) && Stops(h + [stale], |h|, x)
    ensures var r := Rise(h + [stale], |h|, x);
      IsHeap(r) && multiset(r) == multiset(h) + multiset{x}
  {
    var e := h + [stale];
    HoleAtEnd(h, stale, x);
    RiseOrders(e, |h|, x);
    RisePermutes(e, |h|, x);
    assert e[|h| := x] == h + [x];
  }

  lemma HoleAtEnd(h: seq<int>, stale: int, x: int)
    requires IsHeap(h)
    ensures HoleBelow(h + [stale], |h|, x)
  {
    var e := h + [stale];
    forall j | 2 <= j < |e| && j != |h| && j / 2 != |h|
      ensures Ordered(e, j)
    {
      assert Ordered(h, j);
    }
  }

  /** The array and position after k rounds of insert's loop. */
  function Climb(h: seq<int>, pos: nat, k: nat): (r: (seq<int>, nat))
    requires pos < |h|
    ensures |r.0| == |h| && r.1 < |h|
  {
    if k == 0 then (h, pos)
    else var (g, p) := Climb(h, pos, k - 1); (g[p := g[p / 2]], p / 2)
  }

  /** As long as the loop goes on, k rounds of it lead to the same result. */
  lemma {:induction false} ClimbThenRise(h: seq<int>, pos: nat, x: int, k: nat)
    requires 1 <= pos < |h| && Stops(h, pos, x)
    requires forall i :: 0 <= i < k ==> GoesOnAfter(h, pos, x, i)
    ensures var (g, p) := Climb(h, pos, k); 1 <= p && Stops(g, p, x) && Rise(g, p, x) == Rise(h, pos, x)
  {
    if k > 0 {
      ClimbThenRise(h, pos, x, k - 1);
      assert GoesOnAfter(h, pos, x, k - 1);
    }
  }

  predicate GoesOnAfter(h: seq<int>, pos: nat, x: int, i: nat)
    requires pos < |h|
  {
    var (g, p) := Climb(h, pos, i); x < g[p / 2]
  }

  /** Below both the sentinel and the root, the loop of insert never ends. */
  lemma {:induction false} InsertLoopsForever(h: seq<int>, stale: int, x: int, k: nat)
    requires IsHeap(h) && !Stops(h + [stale], |h|, x)
    ensures var (g, p) := Climb(h + [stale], |h|, k); x < g[p / 2]
    ensures var (g, p) := Climb(h + [stale], |h|, k);
      forall i :: 0 <= i < |h| ==> x < g[i]
  {
    if k == 0 {
      forall i | 0 <= i < |h|
        ensures x < h[i]
      {
        if i >= 1 {
          RootIsMinimal(h, i);
        }
      }
    } else {
      InsertLoopsForever(h, stale, x, k - 1);
    }
  }

  // ---------- checkHeap ----------

  /** The number of faults reported in the subtree at pos. */
  function CheckHeap(h: seq<int>, pos: nat): (faults: nat)
    requires pos >= 1
    decreases |h| - pos
  {
    if 2 * pos >= |h| then 0
    else if h[2 * pos] < h[pos] then 1
    else if 2 * pos + 1 < |h| && h[2 * pos + 1] < h[pos] then 1
    else CheckHeap(h, 2 * pos) + CheckHeap(h, 2 * pos + 1)
  }

  predicate Under(pos: nat, j: nat)
    decreases j
  {
    j == pos || (j > pos && Under(pos, j / 2))
  }

  lemma {:induction false} UnderChild(pos: nat, j: nat)
    requires pos >= 1 && Under(pos, j) && j != pos
    ensures Under(2 * pos, j) || Under(2 * pos + 1, j)
  {
    if j / 2 != pos {
      UnderChild(pos, j / 2);
    }
  }

  lemma {:induction false} UnderParent(pos: nat, child: nat, j: nat)
    requires pos >= 1 && child / 2 == pos && Under(child, j)
    ensures Under(pos, j) && j > pos
    decreases j
  {
    if j != child {
      UnderParent(pos, child, j / 2);
    }
  }

  lemma {:induction false} UnderRoot(j: nat)
    requires j >= 1
    ensures Under(1, j)
  {
    if j > 1 {
      UnderRoot(j / 2);
    }
  }

  lemma {:induction false} CheckHeapSubtree(h: seq<int>, pos: nat)
    requires pos >= 1
    ensures CheckHeap(h, pos) == 0 <==>
      forall j :: 2 <= j < |h| && j != pos && Under(pos, j) ==> Ordered(h, j)
    decreases |h| - pos
  {
    if 2 * pos < |h| {
      var l, r := 2 * pos, 2 * pos + 1;
      CheckHeapSubtree(h, l);
      CheckHeapSubtree(h, r);
      assert Under(pos, l) && Under(pos, r);
      if CheckHeap(h, pos) == 0 {
        forall j | 2 <= j < |h| && j != pos && Under(pos, j)
          ensures Ordered(h, j)
        {
          UnderChild(pos, j);
        }
      } else if forall j :: 2 <= j < |h| && j != pos && Under(pos, j) ==> Ordered(h, j) {
        assert Ordered(h, l) && (r < |h| ==> Ordered(h, r));
        forall j | 2 <= j < |h|
          ensures Under(l, j) ==> Ordered(h, j)
          ensures Under(r, j) ==> Ordered(h, j)
        {
          if Under(l, j) { UnderParent(pos, l, j); }
          if Under(r, j) { UnderParent(pos, r, j); }
        }
      }
    } else {
      forall j | 2 <= j < |h| && j != pos
        ensures !Under(pos, j)
      {
      }
    }
  }

  /** checkHeap reports nothing exactly for heaps. */
  lemma CheckHeapExact(h: seq<int>)
    requires |h| >= 1
    ensures CheckHeap(h, 1) == 0 <==> IsHeap(h)
  {
    CheckHeapSubtree(h, 1);
    forall j | 2 <= j < |h|
      ensures Under(1, j)
    {
      UnderRoot(j);
    }
  }

  // ---------- how many faults checkHeap reports ----------

  predicate Faulty(h: seq<int>, p: nat)
    requires p >= 1
  {
    (2 * p < |h| && h[2 * p] < h[p]) || (2 * p + 1 < |h| && h[2 * p + 1] < h[p])
  }

  /** The faulty positions under pos that are under no other faulty one */
  ghost function TopFaults(h: seq<int>, pos: nat): (faults: set<nat>)
    requires pos >= 1
  {
    set p | pos <= p < |h| && IsTopFault(h, pos, p)
  }

  ghost predicate IsTopFault(h: seq<int>, pos: nat, p: nat)
    requires pos >= 1
  {
    && p >= 1 && Under(pos, p) && Faulty(h, p)
    && forall q :: pos <= q < p && Under(pos, q) && Under(q, p) ==> !Faulty(h, q)
  }

  lemma {:induction false} UnderTrans(pos: nat, q: nat, p: nat)
    requires Under(pos, q) && Under(q, p)
    ensures Under(pos, p)
    decreases p
  {
    if p != q {
      UnderTrans(pos, q, p / 2);
    }
  }

  lemma {:induction false} UnderOneChild(pos: nat, j: nat)
    requires pos >= 1 && Under(2 * pos, j)
    ensures !Under(2 * pos + 1, j)
    decreases j
  {
    if j > 2 * pos + 1 {
      UnderOneChild(pos, j / 2);
    }
  }

  /** checkHeap reports every topmost fault once. */
  lemma {:induction false} CheckHeapCounts(h: seq<int>, pos: nat)
    requires pos >= 1
    ensures CheckHeap(h, pos) == |TopFaults(h, pos)|
    decreases |h| - pos
  {
    if 2 * pos >= |h| {
      assert TopFaults(h, pos) == {};
    } else if Faulty(h, pos) {
      assert IsTopFault(h, pos, pos);
      forall p | p in TopFaults(h, pos)
        ensures p == pos
      {
        assert Under(pos, pos);
      }
      assert TopFaults(h, pos) == {pos};
    } else {
      CheckHeapCounts(h, 2 * pos);
      CheckHeapCounts(h, 2 * pos + 1);
      SplitFaults(h, pos);
    }
  }

  lemma SplitFaults(h: seq<int>, pos: nat)
    requires pos >= 1 && !Faulty(h, pos)
    ensures |TopFaults(h, pos)| == |TopFaults(h, 2 * pos)| + |TopFaults(h, 2 * pos + 1)|
  {
    var l, r := TopFaults(h, 2 * pos), TopFaults(h, 2 * pos + 1);
    forall p | 1 <= p < |h|
      ensures IsTopFault(h, pos, p) <==> IsTopFault(h, 2 * pos, p) || IsTopFault(h, 2 * pos + 1, p)
    {
      TopFaultBelow(h, pos, p);
    }
    assert TopFaults(h, pos) == l + r;
    forall p | p in l
      ensures p !in r
    {
      UnderOneChild(pos, p);
    }
  }

  /** A position under pos is pos or under one of its children. */
  lemma UnderSplit(pos: nat, q: nat)
    requires pos >= 1
    ensures Under(pos, q) <==> q == pos || Under(2 * pos, q) || Under(2 * pos + 1, q)
  {
    if Under(pos, q) && q != pos { UnderChild(pos, q); }
    if Under(2 * pos, q) { UnderParent(pos, 2 * pos, q); }
    if Under(2 * pos + 1, q) { UnderParent(pos, 2 * pos + 1, q); }
  }

  /** What lies between pos and a position under its child lies under that child. */
  lemma Between(pos: nat, child: nat, q: nat, p: nat)
    requires pos >= 1 && (child == 2 * pos || child == 2 * pos + 1)
    requires Under(child, p) && Under(pos, q) && Under(q, p) && q != pos
    ensures Under(child, q)
  {
    UnderSplit(pos, q);
    var other := if child == 2 * pos then 2 * pos + 1 else 2 * pos;
    if Under(other, q) {
      UnderTrans(other, q, p);
      UnderOneChild(pos, p);
    }
  }

  lemma TopFaultBelow(h: seq<int>, pos: nat, p: nat)
    requires pos >= 1 && !Faulty(h, pos)
    ensures IsTopFault(h, pos, p) <==> IsTopFault(h, 2 * pos, p) || IsTopFault(h, 2 * pos + 1, p)
  {
    UnderSplit(pos, p);
    if IsTopFault(h, pos, p) {
      var child := if Under(2 * pos, p) then 2 * pos else 2 * pos + 1;
      forall q | child <= q < p && Under(child, q) && Under(q, p)
        ensures !Faulty(h, q)
      {
        UnderSplit(pos, q);
      }
      assert IsTopFault(h, child, p);
    }
    TopFaultAbove(h, pos, 2 * pos, p);
    TopFaultAbove(h, pos, 2 * pos + 1, p);
  }

  lemma TopFaultAbove(h: seq<int>, pos: nat, child: nat, p: nat)
    requires pos >= 1 && !Faulty(h, pos) && (child == 2 * pos || child == 2 * pos + 1)
    ensures IsTopFault(h, child, p) ==> IsTopFault(h, pos, p)
  {
    UnderSplit(pos, p);
    if IsTopFault(h, child, p) {
      forall q | pos <= q < p && Under(pos, q) && Under(q, p)
        ensures !Faulty(h, q)
      {
        if q != pos {
          Between(pos, child, q, p);
        }
      }
    }
  }
}
