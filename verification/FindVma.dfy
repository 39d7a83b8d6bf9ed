/** find_vma of kernel_practice.c: a search tree of memory areas with a one-entry cache. */
module FindVma {
  import opened Basics

  /** The addresses from `start` up to but excluding `end`. */
  datatype Area = Area(start: nat, end: nat)

  datatype Tree = Empty | Node(left: Tree, area: Area, right: Tree)

  /** The areas of a tree by address. */
  function Areas(t: Tree): (s: seq<Area>) {
    match t
    case Empty => []
    case Node(l, a, r) => Areas(l) + [a] + Areas(r)
  }

  /** Non-empty, disjoint and in order. */
  ghost predicate Sorted(s: seq<Area>) {
    && (forall i :: 0 <= i < |s| ==> s[i].start < s[i].end)
    && (forall i, j :: 0 <= i < j < |s| ==> s[i].end <= s[j].start)
  }

  /** The plain search: the first area that ends after addr. */
  function Lowest(s: seq<Area>, addr: nat): (r: Option<Area>) {
    if s == [] then None
    else if s[0].end > addr then Some(s[0])
    else Lowest(s[1..], addr)
  }

  /** Lowest really is the lowest: it ends after addr and nothing before it does. */
  lemma {:induction false} LowestIsLowest(s: seq<Area>, addr: nat) returns (k: nat)
    ensures k <= |s| && forall i :: 0 <= i < k ==> s[i].end <= addr
    ensures if k < |s| then s[k].end > addr && Lowest(s, addr) == Some(s[k]) else Lowest(s, addr) == None
  {
    if s == [] {
      k := 0;
    } else if s[0].end > addr {
      k := 0;
    } else {
      k := LowestIsLowest(s[1..], addr);
      assert forall i :: 0 < i < k + 1 ==> s[i] == s[1..][i - 1];
      k := k + 1;
    }
  }

  lemma {:induction false} LowestAppend(a: seq<Area>, b: seq<Area>, addr: nat)
    ensures Lowest(a + b, addr) == if Lowest(a, addr) == None then Lowest(b, addr) else Lowest(a, addr)
  {
    if a == [] {
      assert a + b == b;
    } else {
      assert (a + b)[0] == a[0] && (a + b)[1..] == a[1..] + b;
      LowestAppend(a[1..], b, addr);
    }
  }

  lemma {:induction false} LowestNone(s: seq<Area>, addr: nat)
    requires forall i :: 0 <= i < |s| ==> s[i].end <= addr
    ensures Lowest(s, addr) == None
  {
    if s != [] {
      LowestNone(s[1..], addr);
    }
  }

  lemma SortedParts(l: seq<Area>, a: Area, r: seq<Area>)
    requires Sorted(l + [a] + r)
    ensures Sorted(l) && Sorted(r) && a.start < a.end
    ensures forall i :: 0 <= i < |l| ==> l[i].end <= a.start
  {
    var s := l + [a] + r;
    assert s[|l|] == a;
    SortedSlice(s, 0, |l|);
    SortedSlice(s, |l| + 1, |s|);
    assert s[..|l|] == l && s[|l| + 1..] == r;
    assert forall i :: 0 <= i < |l| ==> s[i] == l[i];
  }

  lemma SortedSlice(s: seq<Area>, i: nat, j: nat)
    requires Sorted(s) && i <= j <= |s|
    ensures Sorted(s[i..j])
  {
  }

  /** One step of the descent. */
  lemma LowestNode(t: Tree, addr: nat)
    requires t.Node? && Sorted(Areas(t))
    ensures Sorted(Areas(t.left)) && Sorted(Areas(t.right))
    ensures Lowest(Areas(t), addr) ==
      if t.area.end <= addr then Lowest(Areas(t.right), addr)
      else if t.area.start <= addr || Lowest(Areas(t.left), addr) == None then Some(t.area)
      else Lowest(Areas(t.left), addr)
  {
    var l, a, r := Areas(t.left), t.area, Areas(t.right);
    SortedParts(l, a, r);
    LowestAppend(l + [a], r, addr);
    LowestAppend(l, [a], addr);
    assert Lowest([a], addr) == if a.end > addr then Some(a) else None;
    if a.start <= addr {
      LowestNone(l, addr);
    }
  }

  /** An area that contains addr is the lowest that ends after it. */
  lemma ContainingIsLowest(s: seq<Area>, addr: nat, a: Area)
    requires Sorted(s) && a in s && a.start <= addr < a.end
    ensures Lowest(s, addr) == Some(a)
  {
    var k := LowestIsLowest(s, addr);
    var i :| 0 <= i < |s| && s[i] == a;
    assert k <= i && s[k].end > addr;
  }

  class Mm {
    const root: Tree
    var cache: Option<Area>

    ghost predicate Valid()
      reads this
    {
      Sorted(Areas(root)) && (cache.Some? ==> cache.value in Areas(root))
    }

    constructor (root: Tree)
      requires Sorted(Areas(root))
      ensures Valid() && this.root == root
    {
      this.root := root;
      cache := None;
    }
  }

  /** find_vma: the answer does not depend on what the cache holds. */
  method Find(mm: Mm?, addr: nat) returns (vma: Option<Area>)
    requires mm != null ==> mm.Valid()
    modifies mm
    ensures mm == null ==> vma == None
    ensures mm != null ==> mm.Valid() && vma == Lowest(Areas(mm.root), addr)
    ensures mm != null ==> mm.cache == if vma == None then old(mm.cache) else vma
  {
    vma := None;
    if mm != null {
      vma := mm.cache;
      if vma.Some? && vma.value.end > addr && vma.value.start <= addr {
        ContainingIsLowest(Areas(mm.root), addr, vma.value);
      } else {
        var node := mm.root;
        vma := None;
        while node.Node?
          invariant Sorted(Areas(node)) && mm.cache == old(mm.cache)
          invariant Lowest(Areas(mm.root), addr) ==
            if Lowest(Areas(node), addr) == None then vma else Lowest(Areas(node), addr)
          decreases node
        {
          LowestNode(node, addr);
          if node.area.end > addr {
            vma := Some(node.area);
            if node.area.start <= addr {
              break;
            }
            node := node.left;
          } else {
            node := node.right;
          }
        }
        if vma.Some? {
          LowestMember(Areas(mm.root), addr);
          mm.cache := vma;
        }
      }
    }
  }

  lemma LowestMember(s: seq<Area>, addr: nat)
    ensures Lowest(s, addr).Some? ==> Lowest(s, addr).value in s
  {
    var k := LowestIsLowest(s, addr);
  }

  /** Any sequence of lookups gives the answers of the plain search. */
  method FindAll(mm: Mm, addrs: seq<nat>) returns (rs: seq<Option<Area>>)
    requires mm.Valid()
    modifies mm
    ensures mm.Valid() && |rs| == |addrs|
    ensures forall i :: 0 <= i < |addrs| ==> rs[i] == Lowest(Areas(mm.root), addrs[i])
  {
    rs := [];
    while |rs| < |addrs|
      invariant mm.Valid() && |rs| <= |addrs|
      invariant forall i :: 0 <= i < |rs| ==> rs[i] == Lowest(Areas(mm.root), addrs[i])
    {
      var r := Find(mm, addrs[|rs|]);
      rs := rs + [r];
    }
  }
}
