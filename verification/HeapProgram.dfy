/** The heap as heap.c stores it: an array with the sentinel at index 0, changed in
    place by loops that are proved to compute the functions of module Heap. */
module HeapProgram {
  import H = Heap

  class Heap {
    const capacity: nat
    const elements: array<int>
    var size: nat

    ghost predicate Valid()
      reads this
    {
      elements.Length == capacity + 1 && size <= capacity
    }

    /** The sentinel and the elements in use. */
    ghost function Contents(): (h: seq<int>)
      requires Valid()
      reads this, elements
    {
      elements[..size + 1]
    }

    /** createHeap */
    constructor (capacity: nat)
      ensures Valid() && this.capacity == capacity && size == 0 && fresh(elements)
      ensures Contents() == [H.SENTINEL] && H.IsHeap(Contents())
    {
      this.capacity := capacity;
      elements := new int[capacity + 1];
      size := 0;
      new;
      elements[0] := H.SENTINEL;
      assert elements[..1] == [H.SENTINEL];
    }

    /** insert; the loop ends exactly when the number is not below both the sentinel
        and the root. */
    method Insert(num: int) returns (ok: bool)
      requires Valid()
      requires size == capacity || elements[0] <= num || (size >= 1 && elements[1] <= num)
      modifies this, elements
      ensures Valid() && ok == (old(size) < capacity)
      ensures !ok ==> size == old(size) && Contents() == old(Contents())
      ensures ok && H.IsHeap(old(Contents())) ==>
        H.IsHeap(Contents()) && multiset(Contents()) == old(multiset(Contents())) + multiset{num}
    {
      if size == capacity {
        return false;
      }
      ghost var h := Contents();
      size := size + 1;
      assert Contents() == h + [elements[size]];
      if H.IsHeap(h) {
        H.InsertKeepsHeap(h, elements[size], num);
      }
      PercolateUp(num);
      ok := true;
    }

    /** The loop of insert, from the new last slot. */
    method PercolateUp(num: int)
      requires Valid() && size >= 1 && H.Stops(Contents(), size, num)
      modifies elements
      ensures Contents() == H.Rise(old(Contents()), size, num)
    {
      var pos := size;
      while num < elements[pos / 2]
        invariant 1 <= pos <= size && H.Stops(Contents(), pos, num)
        invariant H.Rise(Contents(), pos, num) == H.Rise(old(Contents()), size, num)
        decreases pos
      {
        ghost var now := Contents();
        elements[pos] := elements[pos / 2];
        assert Contents() == now[pos := now[pos / 2]];
        pos := pos / 2;
      }
      ghost var now := Contents();
      elements[pos] := num;
      assert Contents() == now[pos := num];
    }

    /** percolateDown; with no element at pos it only rewrites that slot. */
    method PercolateDown(pos: nat)
      requires Valid() && 1 <= pos < elements.Length
      modifies elements
      ensures pos <= size ==> Contents() == H.Sift(old(Contents()), pos, old(elements[pos]))
      ensures pos > size ==> elements[..] == old(elements[..])
    {
      var target := elements[pos];
      var i := pos;
      while 2 * i <= size
        invariant 1 <= i < elements.Length && (i <= size <==> pos <= size)
        invariant pos > size ==> i == pos && elements[..] == old(elements[..])
        invariant pos <= size ==> H.Sift(Contents(), i, target) == H.Sift(old(Contents()), pos, target)
        decreases size - i
      {
        var child := ChildOf(i);
        if elements[child] < target {
          ghost var now := Contents();
          elements[i] := elements[child];
          assert Contents() == now[i := now[child]];
          i := child;
        } else {
          break;
        }
      }
      ghost var now := Contents();
      elements[i] := target;
      assert pos <= size ==> Contents() == now[i := target];
    }

    /** The smaller of one or two children */
    method ChildOf(i: nat) returns (child: nat)
      requires Valid() && 1 <= i && 2 * i <= size
      ensures child == H.Child(Contents(), i) && i < child <= size
    {
      child := 2 * i;
      if child < size && elements[child + 1] < elements[child] {
        child := child + 1;
      }
    }

    /** buildHeap makes a heap of any array. */
    method BuildHeap()
      requires Valid()
      modifies elements
      ensures H.IsHeap(Contents()) && multiset(Contents()) == old(multiset(Contents()))
      ensures elements[0] == old(elements[0])
    {
      var i := size / 2;
      while i > 0
        invariant 0 <= i <= size / 2 && H.HeapFrom(Contents(), i + 1)
        invariant multiset(Contents()) == old(multiset(Contents())) && elements[0] == old(elements[0])
      {
        H.SiftBuilds(Contents(), i);
        PercolateDown(i);
        i := i - 1;
      }
    }

    /** The array during a deletion: the last element is to be sifted from `hole`. */
    ghost predicate Deleting(h: seq<int>, hole: nat)
      requires Valid() && |h| >= 2
      reads this, elements
    {
      var n := |h| - 1;
      && size == n && elements[n] == h[n] && elements[0] == h[0] && 1 <= hole <= n
      && (n == 1 ==> hole == 1)
      && (n >= 2 ==> hole < n && H.Sift(elements[..n], hole, h[n]) == H.Sift(h[..n], 1, h[n]))
    }

    /** The choice between the children at left and left + 1, the last slot excluded. */
    method SmallerChild(left: nat, ghost hole: nat) returns (child: nat)
      requires Valid() && 1 <= hole && left == 2 * hole < size
      ensures child == H.Child(elements[..size], hole) && child / 2 == hole && child < size
    {
      child := left;
      if left + 1 < size && elements[left + 1] < elements[left] {
        child := left + 1;
      }
    }

    /** The smaller child moves into the hole. */
    method MoveUp(hole: nat, child: nat, ghost h: seq<int>)
      requires Valid() && |h| >= 2 && Deleting(h, hole) && 2 * hole < size
      requires child == H.Child(elements[..size], hole) && elements[child] < h[size]
      modifies elements
      ensures Deleting(h, child)
    {
      ghost var now := elements[..size];
      elements[hole] := elements[child];
      assert elements[..size] == now[hole := now[child]];
    }

    /** The common end of delMin and delMin2. */
    method FinishDeletion(hole: nat, ghost h: seq<int>)
      requires Valid() && |h| >= 2 && Deleting(h, hole)
      requires 2 * hole < size ==> h[size] <= elements[H.Child(elements[..size], hole)]
      modifies this, elements
      ensures Valid() && Contents() == H.DeleteMin(h)
    {
      ghost var now, n := elements[..size], size;
      elements[hole] := elements[size];
      assert n >= 2 ==> elements[..n] == now[hole := h[n]];
      size := size - 1;
      assert n == 1 ==> elements[..1] == h[..1];
    }

    /** delMin */
    method DelMin() returns (min: int)
      requires Valid()
      modifies this, elements
      ensures Valid()
      ensures old(size) == 0 ==> min == -1 && size == 0 && Contents() == old(Contents())
      ensures old(size) > 0 ==> min == old(elements[1]) && Contents() == H.DeleteMin(old(Contents()))
    {
      if size == 0 {
        return -1;
      }
      min := elements[1];
      ghost var h := Contents();
      assert h[..size] == elements[..size];
      var pos := 2;
      ghost var hole := 1;
      while pos < size
        invariant Valid() && Deleting(h, hole) && pos == 2 * hole
        decreases size - pos
      {
        pos := SmallerChild(pos, hole);
        if elements[pos] < elements[size] {
          MoveUp(pos / 2, pos, h);
          hole := pos;
        } else {
          break;
        }
        pos := pos * 2;
      }
      assert pos / 2 == hole;
      FinishDeletion(pos / 2, h);
    }

    /** delMin2 */
    method DelMin2() returns (min: int)
      requires Valid()
      modifies this, elements
      ensures Valid()
      ensures old(size) == 0 ==> min == -1 && size == 0 && Contents() == old(Contents())
      ensures old(size) > 0 ==> min == old(elements[1]) && Contents() == H.DeleteMin(old(Contents()))
    {
      if size == 0 {
        return -1;
      }
      min := elements[1];
      ghost var h := Contents();
      assert h[..size] == elements[..size];
      var i := 1;
      while i * 2 < size
        invariant Valid() && Deleting(h, i)
        decreases size - i
      {
        var child := SmallerChild(i * 2, i);
        if elements[child] < elements[size] {
          MoveUp(i, child, h);
        } else {
          break;
        }
        i := child;
      }
      FinishDeletion(i, h);
    }

    /** delMin3 */
    method DelMin3() returns (min: int)
      requires Valid()
      modifies this, elements
      ensures Valid()
      ensures old(size) == 0 ==> min == -1 && size == 0 && Contents() == old(Contents())
      ensures old(size) > 0 ==> min == old(elements[1]) && Contents() == H.DeleteMin(old(Contents()))
    {
      if size == 0 {
        return -1;
      }
      min := elements[1];
      ghost var h, n := Contents(), size;
      elements[1] := elements[size];
      size := size - 1;
      if n >= 2 {
        assert Contents() == h[..n][1 := h[n]];
        SiftIgnoresHole(h[..n], 1, h[n], h[n]);
      }
      PercolateDown(1);
      assert n == 1 ==> elements[..1] == h[..1];
    }

    /** The last loop of main: draining a heap yields its elements in order. */
    method Drain() returns (out: seq<int>)
      requires Valid() && H.IsHeap(Contents())
      modifies this, elements
      ensures Valid() && size == 0
      ensures forall i, j :: 0 <= i < j < |out| ==> out[i] <= out[j]
      ensures multiset(out) == old(H.Elements(Contents()))
    {
      out := [];
      while size > 0
        invariant Valid() && H.IsHeap(Contents())
        invariant Drained(out, H.Elements(Contents()), old(H.Elements(Contents())))
        decreases size
      {
        ghost var h := Contents();
        H.DeleteMinKeepsHeap(h);
        DrainStep(h, out, old(H.Elements(Contents())));
        var min := DelMin3();
        out := out + [min];
      }
      assert Contents()[1..] == [];
    }
  }

  /** The output so far is sorted, below what is left, and nothing is lost. */
  ghost predicate Drained(out: seq<int>, left: multiset<int>, all: multiset<int>) {
    && multiset(out) + left == all
    && (forall i, j :: 0 <= i < j < |out| ==> out[i] <= out[j])
    && (forall i, y :: 0 <= i < |out| && y in left ==> out[i] <= y)
  }

  lemma DrainStep(h: seq<int>, out: seq<int>, all: multiset<int>)
    requires |h| >= 2 && H.IsHeap(h) && Drained(out, H.Elements(h), all)
    ensures Drained(out + [h[1]], H.Elements(H.DeleteMin(h)), all)
  {
    H.DeleteMinElements(h);
    var left := H.Elements(H.DeleteMin(h));
    forall y | y in left
      ensures y in H.Elements(h) && h[1] <= y
    {
      H.MinimumBelow(h, y);
    }
    assert h[1] in H.Elements(h);
    assert multiset(out + [h[1]]) == multiset(out) + multiset{h[1]};
  }

  /** The old element at the hole does not matter. */
  lemma SiftIgnoresHole(h: seq<int>, i: nat, x: int, y: int)
    requires 1 <= i < |h|
    ensures H.Sift(h[i := y], i, x) == H.Sift(h, i, x)
  {
    if 2 * i < |h| {
      var c := H.Child(h, i);
      assert H.Child(h[i := y], i) == c;
      assert h[i := y][i := h[c]] == h[i := h[c]];
    }
    assert h[i := y][i := x] == h[i := x];
  }
}
