/** The two in-place rotations of programming_pearls/reverse.c: three reversals, and
    following the cycles of the index map x -> (x + num) mod len. */
module Rotation {
  import opened NumberTheory

  function RotateLeft(s: seq<char>, num: nat): (r: seq<char>)
    requires num <= |s|
    ensures |r| == |s|
  {
    s[num..] + s[..num]
  }

  /** Rotating moves the element at (i + num) mod len to i. */
  lemma RotateLeftAt(s: seq<char>, num: nat, i: nat)
    requires num <= |s| && i < |s|
    ensures RotateLeft(s, num)[i] == s[(i + num) % |s|]
  {
    var n := |s|;
    if i + num < n {
      ModUnique(i + num, n, 0, i + num);
    } else {
      ModUnique(i + num, n, 1, i + num - n);
    }
  }

  // ---------- three reversals ----------

  /** The elements from the last to the first. */
  function Backwards(s: seq<char>): (r: seq<char>)
    ensures |r| == |s|
  {
    if s == [] then [] else [s[|s| - 1]] + Backwards(s[..|s| - 1])
  }

  lemma {:induction false} BackwardsAt(s: seq<char>, k: nat)
    requires k < |s|
    ensures Backwards(s)[k] == s[|s| - 1 - k]
  {
    if k > 0 {
      BackwardsAt(s[..|s| - 1], k - 1);
    }
  }

  lemma {:induction false} BackwardsConcat(s: seq<char>, t: seq<char>)
    ensures Backwards(s + t) == Backwards(t) + Backwards(s)
  {
    if t == [] {
      assert s + t == s;
    } else {
      assert (s + t)[..|s + t| - 1] == s + t[..|t| - 1];
      BackwardsConcat(s, t[..|t| - 1]);
    }
  }

  lemma {:induction false} BackwardsTwice(s: seq<char>)
    ensures Backwards(Backwards(s)) == s
  {
    if s != [] {
      var last := [s[|s| - 1]];
      BackwardsConcat(last, Backwards(s[..|s| - 1]));
      BackwardsTwice(s[..|s| - 1]);
      assert last[..0] == [];
      assert Backwards(last) == last;
    }
  }

  /** The elements from start to end in opposite order, the others where they were. */
  function Flipped(s: seq<char>, start: int, end: int): (r: seq<char>)
    requires 0 <= start <= end + 1 <= |s|
    ensures |r| == |s|
  {
    s[..start] + Backwards(s[start..end + 1]) + s[end + 1..]
  }

  lemma FlippedAt(s: seq<char>, start: int, end: int, k: nat)
    requires 0 <= start <= end + 1 <= |s| && k < |s|
    ensures Flipped(s, start, end)[k] == if start <= k <= end then s[start + end - k] else s[k]
  {
    if start <= k <= end {
      BackwardsAt(s[start..end + 1], k - start);
    }
  }

  /** Flipping both parts and then the whole is a rotation. */
  lemma ThreeFlips(s: seq<char>, num: nat)
    requires num <= |s|
    ensures Flipped(Flipped(Flipped(s, 0, num - 1), num, |s| - 1), 0, |s| - 1) == RotateLeft(s, num)
  {
    var n, a, b := |s|, s[..num], s[num..];
    var s1 := Flipped(s, 0, num - 1);
    assert s1 == Backwards(a) + b;
    var s2 := Flipped(s1, num, n - 1);
    assert s1[num..n] == b;
    assert s2 == Backwards(a) + Backwards(b);
    assert s2[0..n] == s2;
    BackwardsConcat(Backwards(a), Backwards(b));
    BackwardsTwice(a);
    BackwardsTwice(b);
  }

  /** (start + end) / 2 in C, which rounds toward zero. */
  function Middle(start: int, end: int): (m: int) {
    if start + end >= 0 then (start + end) / 2 else -((-(start + end)) / 2)
  }

  lemma MiddleRoundsToZero(start: int, end: int)
    ensures var n, m := start + end, Middle(start, end);
      (n >= 0 ==> 0 <= n - 2 * m <= 1) && (n <= 0 ==> 0 <= 2 * m - n <= 1)
  {
  }

  /** Both elements that one round of reverse swaps are in the array. */
  predicate SwapsInside(len: nat, start: int, end: int, i: int) {
    0 <= i < len && 0 <= end - (i - start) < len
  }

  /** Every element that reverse touches is in the array. */
  ghost predicate StaysInside(len: nat, start: int, end: int) {
    forall i :: start <= i <= Middle(start, end) ==> SwapsInside(len, start, end, i)
  }

  /** For a range of the array, which may be empty, reverse stays inside exactly when the
      range is not 0 .. -1: its middle rounds to 0, and the loop touches s[-1]. */
  lemma StaysInsideIff(len: nat, start: int, end: int)
    requires 0 <= start <= end + 1 <= len
    ensures StaysInside(len, start, end) <==> start + end >= 0
  {
    if start + end < 0 {
      assert Middle(start, end) == 0 && !SwapsInside(len, start, end, 0);
    }
  }

  /** The three calls of main stay inside exactly for 1 <= num <= len. */
  lemma ThreeCallsStayInsideIff(len: nat, num: int)
    ensures StaysInside(len, 0, num - 1) && StaysInside(len, num, len - 1) && StaysInside(len, 0, len - 1)
       <==> 1 <= num <= len
  {
    if 1 <= num <= len {
      StaysInsideIff(len, 0, num - 1);
      StaysInsideIff(len, num, len - 1);
      StaysInsideIff(len, 0, len - 1);
    } else if num >= 0 {
      assert !SwapsInside(len, 0, num - 1, 0);
    } else {
      assert num <= Middle(num, len - 1) && !SwapsInside(len, num, len - 1, num);
    }
  }

  /** reverse; `defined` is false where the C code would touch an element outside. */
  method Reverse(s: array<char>, start: int, end: int) returns (defined: bool)
    modifies s
    ensures defined <==> StaysInside(s.Length, start, end)
    ensures defined ==>
      s[..] == if 0 <= start <= end + 1 <= s.Length then Flipped(old(s[..]), start, end) else old(s[..])
  {
    var middle := Middle(start, end);
    var i := start;
    ghost var inside := 0 <= start <= end + 1 <= s.Length && 0 <= start + end;
    while i <= middle
      invariant start <= i && (i <= middle + 1 || i == start)
      invariant forall j :: start <= j < i ==> SwapsInside(s.Length, start, end, j)
      invariant inside ==> HalfFlipped(s[..], old(s[..]), start, end, i)
      invariant !inside ==> i == start && s[..] == old(s[..])
    {
      if !SwapsInside(s.Length, start, end, i) {
        return false;
      }
      ghost var now := s[..];
      var tmp := s[i];
      s[i] := s[end - (i - start)];
      s[end - (i - start)] := tmp;
      if inside {
        HalfNext(now, s[..], old(s[..]), start, end, i);
      }
      i := i + 1;
    }
    defined := true;
    if 0 <= start <= end + 1 <= s.Length {
      StaysInsideIff(s.Length, start, end);
      HalfIsAll(s[..], old(s[..]), start, end, i);
    }
  }

  /** The elements before i, and those that mirror them, are exchanged. */
  ghost predicate HalfFlipped(now: seq<char>, was: seq<char>, start: int, end: int, i: int)
    requires 0 <= start <= end + 1 <= |was|
  {
    && |now| == |was| && start <= i <= Middle(start, end) + 1
    && (forall k :: 0 <= k < |was| ==>
          now[k] == if start <= k < i || start + end - i < k <= end then Flipped(was, start, end)[k] else was[k])
  }

  lemma HalfNext(now: seq<char>, next: seq<char>, was: seq<char>, start: int, end: int, i: int)
    requires 0 <= start <= end + 1 <= |was| && start + end >= 0
    requires HalfFlipped(now, was, start, end, i) && i <= Middle(start, end)
    requires next == now[i := now[start + end - i]][start + end - i := now[i]]
    ensures HalfFlipped(next, was, start, end, i + 1)
  {
    FlippedAt(was, start, end, i);
    FlippedAt(was, start, end, start + end - i);
  }

  lemma HalfIsAll(now: seq<char>, was: seq<char>, start: int, end: int, i: int)
    requires 0 <= start <= end + 1 <= |was| && start + end >= 0
    requires HalfFlipped(now, was, start, end, i) && i > Middle(start, end)
    ensures now == Flipped(was, start, end)
  {
    forall k | 0 <= k < |was|
      ensures now[k] == Flipped(was, start, end)[k]
    {
      FlippedAt(was, start, end, k);
    }
  }

  /** The three calls of main, one after the other. */
  method RotateByReversal(s: array<char>, num: int) returns (defined: bool)
    modifies s
    ensures defined <==> 1 <= num <= s.Length
    ensures defined ==> s[..] == RotateLeft(old(s[..]), num)
  {
    ThreeCallsStayInsideIff(s.Length, num);
    if 0 <= num <= s.Length {
      ThreeFlips(s[..], num);
    }
    defined := Reverse(s, 0, num - 1);
    if defined {
      defined := Reverse(s, num, s.Length - 1);
    }
    if defined {
      defined := Reverse(s, 0, s.Length - 1);
    }
  }

  // ---------- cycles ----------

  /** The index reached from `start` after k moves. */
  function Orbit(start: nat, k: nat, num: nat, len: nat): (x: nat)
    requires len > 0
    ensures x < len
  {
    (start + k * num) % len
  }

  /** The indices reached by the first k moves, in order. */
  ghost predicate IsPath(path: seq<nat>, start: nat, k: nat, num: nat, len: nat)
    requires len > 0
  {
    |path| == k && forall j :: 0 <= j < k ==> path[j] == Orbit(start, j, num, len)
  }

  lemma OrbitNext(start: nat, k: nat, num: nat, len: nat)
    requires len > 0
    ensures (Orbit(start, k, num, len) + num) % len == Orbit(start, k + 1, num, len)
  {
    ModAddLeft(start + k * num, num, len);
    assert start + k * num + num == start + (k + 1) * num;
  }

  /** The number of cycles and their common length. */
  function Cycles(num: nat, len: nat): (g: nat)
    requires 1 <= num && 1 <= len
    ensures g >= 1
  {
    Gcd(num, len)
  }

  function CycleLength(num: nat, len: nat): (l: nat)
    requires 1 <= num && 1 <= len
  {
    len / Cycles(num, len)
  }

  lemma CycleFacts(num: nat, len: nat)
    requires num >= 1 && len >= 1
    ensures var g, l := Cycles(num, len), CycleLength(num, len);
      g * l == len && l >= 1 && g <= num && Divides(g, num) && Divides(g, len)
  {
    GcdDivides(num, len);
    DividesBound(Cycles(num, len), len);
    DividesBound(Cycles(num, len), num);
  }

  /** A cycle's length times num is a multiple of len. */
  lemma CycleCloses(num: nat, len: nat)
    requires num >= 1 && len >= 1
    ensures Divides(len, CycleLength(num, len) * num)
  {
    CycleFacts(num, len);
    var g, l := Cycles(num, len), CycleLength(num, len);
    var q := num / g;
    assert num == g * q;
    assert l * (g * q) == g * l * q;
    MultipleDivides(len, q);
  }

  lemma OrbitPeriod(start: nat, num: nat, len: nat)
    requires num >= 1 && len >= 1 && start < len
    ensures Orbit(start, CycleLength(num, len), num, len) == start
  {
    var l := CycleLength(num, len);
    CycleCloses(num, len);
    CongruentIffDivides(start + l * num, start, len);
    ModUnique(start, len, 0, start);
  }

  /** No shorter number of moves returns to where it started. */
  lemma NoShorterPeriod(d: nat, num: nat, len: nat)
    requires num >= 1 && len >= 1 && Divides(len, d * num) && 0 < d
    ensures d >= CycleLength(num, len)
  {
    var g, l := Cycles(num, len), CycleLength(num, len);
    CycleFacts(num, len);
    var a, b := Bezout(num, len).0, Bezout(num, len).1;
    BezoutIdentity(num, len);
    DividesProduct(len, d * num, a);
    MultipleDivides(len, d * b);
    DividesSum(len, d * num * a, len * (d * b));
    BezoutTimes(d, num, a, len, b, g);
    assert Divides(len, d * g);
    assert d * g >= 1 * 1;
    DividesBound(len, d * g);
    CancelLess(l, d, g);
  }

  lemma BezoutTimes(d: int, num: int, a: int, len: int, b: int, g: int)
    requires num * a + len * b == g
    ensures d * num * a + len * (d * b) == d * g
  {
    assert d * (num * a + len * b) == d * (num * a) + d * (len * b);
    assert d * (num * a) == d * num * a;
    assert d * (len * b) == len * (d * b);
  }

  lemma CancelLess(l: int, d: int, g: int)
    requires g >= 1 && g * l <= d * g
    ensures l <= d
  {
    if l > d {
      Grows(g, d, l);
    }
  }

  lemma Grows(g: int, d: int, l: int)
    requires g >= 1 && d < l
    ensures d * g < g * l
  {
    var more := l - d;
    assert g * l == g * d + g * more;
  }

  lemma OrbitDistinct(start: nat, i: nat, j: nat, num: nat, len: nat)
    requires num >= 1 && len >= 1 && i < j < CycleLength(num, len)
    ensures Orbit(start, i, num, len) != Orbit(start, j, num, len)
  {
    if Orbit(start, i, num, len) == Orbit(start, j, num, len) {
      CongruentIffDivides(start + j * num, start + i * num, len);
      assert start + j * num - (start + i * num) == (j - i) * num;
      NoShorterPeriod(j - i, num, len);
    }
  }

  /** A cycle stays in its residue class modulo the number of cycles ... */
  lemma OrbitResidue(start: nat, k: nat, num: nat, len: nat)
    requires num >= 1 && len >= 1
    ensures var g := Cycles(num, len); Orbit(start, k, num, len) % g == start % g
  {
    var g := Cycles(num, len);
    CycleFacts(num, len);
    var n := start + k * num;
    var x := n % len;
    assert n == len * (n / len) + x;
    DividesProduct(g, num, k);
    DividesProduct(g, len, n / len);
    DividesSum(g, len * (n / len), k * num);
    assert start - x == len * (n / len) - k * num;
    CongruentIffDivides(start, x, g);
  }

  /** ... and covers all of it. */
  lemma OrbitCovers(start: nat, x: nat, num: nat, len: nat) returns (j: nat)
    requires num >= 1 && len >= 1 && x < len
    requires x % Cycles(num, len) == start % Cycles(num, len)
    ensures j < CycleLength(num, len) && Orbit(start, j, num, len) == x
  {
    CongruentIffDivides(x, start, Cycles(num, len));
    j := MovesTo(start, x, num, len);
    CongruentIffDivides(x, start + j * num, len);
    ModUnique(x, len, 0, x);
  }

  /** The Bezout coefficient of num gives the number of moves. */
  lemma MovesTo(start: int, x: int, num: nat, len: nat) returns (j: nat)
    requires num >= 1 && len >= 1 && Divides(Cycles(num, len), x - start)
    ensures j < CycleLength(num, len) && Divides(len, x - (start + j * num))
  {
    var g, l := Cycles(num, len), CycleLength(num, len);
    CycleFacts(num, len);
    var t := (x - start) / g;
    var a, b := Bezout(num, len).0, Bezout(num, len).1;
    BezoutIdentity(num, len);
    BezoutTimes(t, num, a, len, b, g);
    var q := t * a / l;
    j := t * a % l;
    CycleCloses(num, len);
    DividesProduct(len, l * num, q);
    MultipleDivides(len, t * b);
    DividesSum(len, l * num * q, len * (t * b));
    Regroup(start, x, t, g, num, a, b, len, l, q, j);
  }

  lemma Regroup(start: int, x: int, t: int, g: int, num: int, a: int, b: int, len: int, l: int, q: int, j: int)
    requires x - start == t * g && t * num * a + len * (t * b) == t * g && t * a == l * q + j
    ensures x - (start + j * num) == l * num * q + len * (t * b)
  {
    calc {
      t * num * a;
      t * a * num;
      (l * q + j) * num;
      l * q * num + j * num;
      l * num * q + j * num;
    }
  }

  ghost predicate Visited(x: nat, start: nat, k: nat, num: nat, len: nat)
    requires len > 0
  {
    exists j :: 0 <= j < k && Orbit(start, j, num, len) == x
  }

  /** The array after k moves of one cycle: visited indices hold their successor's
      old element, all others their own. */
  ghost predicate Moved(now: seq<char>, was: seq<char>, start: nat, k: nat, num: nat)
    requires |now| == |was| > 0
  {
    && (forall j :: 0 <= j < k ==> MovedAt(now, was, start, num, j))
    && (forall x :: 0 <= x < |was| ==> KeptAt(now, was, start, k, num, x))
  }

  ghost predicate MovedAt(now: seq<char>, was: seq<char>, start: nat, num: nat, j: nat)
    requires |now| == |was| > 0
  {
    now[Orbit(start, j, num, |was|)] == was[Orbit(start, j + 1, num, |was|)]
  }

  ghost predicate KeptAt(now: seq<char>, was: seq<char>, start: nat, k: nat, num: nat, x: nat)
    requires |now| == |was| > 0 && x < |was|
  {
    Visited(x, start, k, num, |was|) || now[x] == was[x]
  }

  lemma MovedNext(now: seq<char>, was: seq<char>, start: nat, k: nat, num: nat, c: char)
    requires num >= 1 && |was| == |now| > 0 && k < CycleLength(num, |was|) && Moved(now, was, start, k, num)
    requires c == was[Orbit(start, k + 1, num, |was|)]
    ensures Moved(now[Orbit(start, k, num, |was|) := c], was, start, k + 1, num)
  {
    var len := |was|;
    var here := Orbit(start, k, num, len);
    var next := now[here := c];
    forall j | 0 <= j < k + 1
      ensures MovedAt(next, was, start, num, j)
    {
      if j < k {
        OrbitDistinct(start, j, k, num, len);
        assert MovedAt(now, was, start, num, j);
      }
    }
    forall x {:trigger next[x]} | 0 <= x < len
      ensures KeptAt(next, was, start, k + 1, num, x)
    {
      assert KeptAt(now, was, start, k, num, x);
    }
  }

  /** The inner loop of move, which visits each index of one residue class once. */
  method FollowCycle(s: array<char>, num: nat, start: nat, count: nat)
    returns (count': nat, ghost visited: seq<nat>)
    requires num >= 1 && start < s.Length
    modifies s
    ensures count' == count + |visited|
    ensures IsPath(visited, start, CycleLength(num, s.Length), num, s.Length)
    ensures Moved(s[..], old(s[..]), start, CycleLength(num, s.Length), num)
  {
    var len := s.Length;
    ghost var was, l, k := s[..], CycleLength(num, len), 0;
    CycleFacts(num, len);
    ModUnique(start, len, 0, start);
    var curr := start;
    var tmp := s[curr];
    count', visited := count, [];
    while true
      invariant 0 <= k < l && curr == Orbit(start, k, num, len) && count' == count + k
      invariant IsPath(visited, start, k, num, len)
      invariant Moved(s[..], was, start, k, num)
      decreases l - k
    {
      ghost var now := s[..];
      count', visited := count' + 1, visited + [curr];
      var next := (curr + num) % len;
      OrbitNext(start, k, num, len);
      if next == start {
        ClosesAt(start, k, num, len);
        MovedNext(now, was, start, k, num, tmp);
        s[curr] := tmp;
        assert s[..] == now[curr := tmp];
        break;
      } else {
        OrbitPeriod(start, num, len);
        NextUnvisitedAfter(now, was, start, k, num);
        MovedNext(now, was, start, k, num, now[next]);
        s[curr] := s[next];
        assert s[..] == now[curr := now[next]];
        curr := next;
        k := k + 1;
      }
    }
  }

  lemma ClosesAt(start: nat, k: nat, num: nat, len: nat)
    requires num >= 1 && len >= 1 && start < len && k < CycleLength(num, len)
    requires Orbit(start, k + 1, num, len) == start
    ensures k + 1 == CycleLength(num, len)
  {
    if k + 1 < CycleLength(num, len) {
      ModUnique(start, len, 0, start);
      OrbitDistinct(start, 0, k + 1, num, len);
    }
  }

  lemma NextUnvisitedAfter(now: seq<char>, was: seq<char>, start: nat, k: nat, num: nat)
    requires num >= 1 && |was| == |now| > 0 && start < |was| && Moved(now, was, start, k, num)
    requires k < CycleLength(num, |was|) && Orbit(start, k + 1, num, |was|) != start
    ensures k + 1 < CycleLength(num, |was|)
    ensures now[Orbit(start, k + 1, num, |was|)] == was[Orbit(start, k + 1, num, |was|)]
  {
    var len := |was|;
    OrbitPeriod(start, num, len);
    forall j | 0 <= j < k
      ensures Orbit(start, j, num, len) != Orbit(start, k + 1, num, len)
    {
      OrbitDistinct(start, j, k + 1, num, len);
    }
    assert !Visited(Orbit(start, k + 1, num, len), start, k, num, len);
    assert KeptAt(now, was, start, k, num, Orbit(start, k + 1, num, len));
  }

  /** The classes below `start` are rotated, the others untouched. */
  ghost predicate Rotated(now: seq<char>, was: seq<char>, start: nat, num: nat)
    requires num >= 1 && |was| == |now| > 0
  {
    forall x :: 0 <= x < |was| ==> RotatedAt(now, was, start, num, x)
  }

  ghost predicate RotatedAt(now: seq<char>, was: seq<char>, start: nat, num: nat, x: nat)
    requires num >= 1 && x < |was| == |now|
  {
    now[x] == if x % Cycles(num, |was|) < start then was[(x + num) % |was|] else was[x]
  }

  lemma RotatedNext(now: seq<char>, next: seq<char>, was: seq<char>, start: nat, num: nat)
    requires num >= 1 && |was| == |now| == |next| > 0 && start < Cycles(num, |was|)
    requires Rotated(now, was, start, num) && Moved(next, now, start, CycleLength(num, |was|), num)
    ensures Rotated(next, was, start + 1, num)
  {
    var len, g, l := |was|, Cycles(num, |was|), CycleLength(num, |was|);
    ModUnique(start, g, 0, start);
    forall x {:trigger next[x]} | 0 <= x < len
      ensures RotatedAt(next, was, start + 1, num, x)
    {
      assert KeptAt(next, now, start, l, num, x) && RotatedAt(now, was, start, num, x);
      if x % g == start {
        var j := OrbitCovers(start, x, num, len);
        OrbitNext(start, j, num, len);
        OrbitResidue(start, j + 1, num, len);
        assert MovedAt(next, now, start, num, j) && RotatedAt(now, was, start, num, Orbit(start, j + 1, num, len));
      } else {
        forall j | 0 <= j < l
          ensures Orbit(start, j, num, len) != x
        {
          OrbitResidue(start, j, num, len);
        }
        assert !Visited(x, start, l, num, len);
      }
    }
  }

  /** The indices visited so far: all of the classes below `start`, each once. */
  ghost predicate VisitedOnce(visited: seq<nat>, start: nat, g: nat, len: nat)
    requires g >= 1
  {
    && (forall i, j :: 0 <= i < j < |visited| ==> visited[i] != visited[j])
    && (forall x :: x in visited <==> 0 <= x < len && x % g < start)
  }

  /** One path for each of the first n classes. */
  ghost predicate ArePaths(paths: seq<seq<nat>>, n: nat, num: nat, len: nat)
    requires num >= 1 && len >= 1
  {
    |paths| == n && forall i :: 0 <= i < n ==> IsPath(paths[i], i, CycleLength(num, len), num, len)
  }

  function Joined(paths: seq<seq<nat>>): (all: seq<nat>) {
    if paths == [] then [] else Joined(paths[..|paths| - 1]) + paths[|paths| - 1]
  }

  lemma JoinedNext(paths: seq<seq<nat>>, path: seq<nat>)
    ensures Joined(paths + [path]) == Joined(paths) + path
  {
    assert (paths + [path])[..|paths|] == paths;
  }

  lemma {:induction false} PathsOnce(paths: seq<seq<nat>>, n: nat, num: nat, len: nat)
    requires num >= 1 && len >= 1 && n <= Cycles(num, len) && ArePaths(paths, n, num, len)
    ensures VisitedOnce(Joined(paths), n, Cycles(num, len), len)
    ensures |Joined(paths)| == n * CycleLength(num, len)
  {
    if n > 0 {
      PathsOnce(paths[..n - 1], n - 1, num, len);
      ClassVisitedOnce(Joined(paths[..n - 1]), paths[n - 1], n - 1, num, len);
    }
  }

  lemma ClassVisitedOnce(visited: seq<nat>, more: seq<nat>, start: nat, num: nat, len: nat)
    requires num >= 1 && len >= 1 && start < Cycles(num, len) && VisitedOnce(visited, start, Cycles(num, len), len)
    requires IsPath(more, start, CycleLength(num, len), num, len)
    ensures VisitedOnce(visited + more, start + 1, Cycles(num, len), len)
  {
    var g := Cycles(num, len);
    ModUnique(start, g, 0, start);
    forall j | 0 <= j < |more|
      ensures more[j] < len && more[j] % g == start
    {
      OrbitResidue(start, j, num, len);
    }
    forall i, j | 0 <= i < j < |more|
      ensures more[i] != more[j]
    {
      OrbitDistinct(start, i, j, num, len);
    }
    forall x | 0 <= x < len && x % g == start
      ensures x in more
    {
      var j := OrbitCovers(start, x, num, len);
      assert more[j] == x;
    }
    AllOnce(visited, more, start, g, len);
  }

  lemma AllOnce(visited: seq<nat>, more: seq<nat>, start: nat, g: nat, len: nat)
    requires g >= 1 && VisitedOnce(visited, start, g, len)
    requires forall i, j :: 0 <= i < j < |more| ==> more[i] != more[j]
    requires forall j :: 0 <= j < |more| ==> more[j] < len && more[j] % g == start
    requires forall x :: 0 <= x < len && x % g == start ==> x in more
    ensures VisitedOnce(visited + more, start + 1, g, len)
  {
    var all := visited + more;
    forall i, j | 0 <= i < j < |all|
      ensures all[i] != all[j]
    {
      assert i < |visited| ==> all[i] in visited;
      assert j < |visited| ==> all[j] in visited;
    }
    forall x
      ensures x in all <==> 0 <= x < len && x % g < start + 1
    {
      assert x in all <==> x in visited || x in more;
    }
  }

  /** move: a rotation by num mod len, the same as the three reversals where those stay
      inside.  Each index of the array is visited exactly once, and `count` is the number
      of visits.  Nothing moves unless num is positive; `defined` is false where the C
      code would touch an element of an empty array. */
  method Move(s: array<char>, num: int) returns (defined: bool, count: nat, ghost visited: seq<nat>)
    modifies s
    ensures defined <==> num <= 0 || s.Length > 0
    ensures num <= 0 || s.Length == 0 ==> s[..] == old(s[..]) && count == 0
    ensures defined && num >= 1 ==>
      && s[..] == RotateLeft(old(s[..]), num % s.Length)
      && (num <= s.Length ==> s[..] == RotateLeft(old(s[..]), num))
      && count == |visited| == s.Length
      && (forall i, j :: 0 <= i < j < |visited| ==> visited[i] != visited[j])
      && (forall x :: x in visited <==> 0 <= x < s.Length)
  {
    defined, count, visited := num <= 0 || s.Length > 0, 0, [];
    if num >= 1 && s.Length > 0 {
      ghost var paths;
      count, paths := MoveCycles(s, num);
      visited := Joined(paths);
      PathsOnce(paths, |paths|, num, s.Length);
      AllRotated(s[..], old(s[..]), num);
      RotateFull(old(s[..]), num);
    }
  }

  /** The outer loop of move. */
  method MoveCycles(s: array<char>, num: nat) returns (count: nat, ghost paths: seq<seq<nat>>)
    requires num >= 1 && s.Length > 0
    modifies s
    ensures Rotated(s[..], old(s[..]), Cycles(num, s.Length), num)
    ensures ArePaths(paths, Cycles(num, s.Length), num, s.Length) && count == |Joined(paths)| == s.Length
  {
    var len := s.Length;
    ghost var was := s[..];
    count, paths := 0, [];
    var start := 0;
    CyclesBound(num, len);
    while start < num
      invariant 0 <= start < Cycles(num, len) && count == |Joined(paths)|
      invariant Rotated(s[..], was, start, num)
      invariant ArePaths(paths, start, num, len)
    {
      ghost var now := s[..];
      ghost var path;
      count, path := FollowCycle(s, num, start, count);
      RotatedNext(now, s[..], was, start, num);
      JoinedNext(paths, path);
      paths := paths + [path];
      AllCounted(paths, start + 1, num, len);
      if count == len {
        return;
      }
      start := start + 1;
    }
  }

  lemma CyclesBound(num: nat, len: nat)
    requires num >= 1 && len >= 1
    ensures 1 <= Cycles(num, len) <= num && Cycles(num, len) <= len
  {
    CycleFacts(num, len);
    DividesBound(Cycles(num, len), len);
  }

  /** The count reaches len exactly when the last class has been visited. */
  lemma AllCounted(paths: seq<seq<nat>>, n: nat, num: nat, len: nat)
    requires num >= 1 && len >= 1 && n <= Cycles(num, len) && ArePaths(paths, n, num, len)
    ensures |Joined(paths)| == len <==> n == Cycles(num, len)
  {
    CycleFacts(num, len);
    PathsOnce(paths, n, num, len);
    LessTimes(n, Cycles(num, len), CycleLength(num, len));
  }

  lemma RotateFull(s: seq<char>, num: nat)
    requires |s| > 0
    ensures num <= |s| ==> RotateLeft(s, num % |s|) == RotateLeft(s, num)
  {
    if num == |s| {
      ModUnique(num, num, 1, 0);
    } else if num < |s| {
      ModUnique(num, |s|, 0, num);
    }
  }

  lemma LessTimes(a: nat, b: nat, l: nat)
    requires a <= b && l >= 1
    ensures a * l == b * l <==> a == b
  {
    assert b * l - a * l == (b - a) * l;
    assert b - a >= 1 ==> (b - a) * l >= 1 * 1;
  }

  lemma AllRotated(now: seq<char>, was: seq<char>, num: nat)
    requires num >= 1 && |was| == |now| > 0 && Rotated(now, was, Cycles(num, |was|), num)
    ensures now == RotateLeft(was, num % |was|)
  {
    forall x | 0 <= x < |was|
      ensures now[x] == RotateLeft(was, num % |was|)[x]
    {
      RotateLeftAt(was, num % |was|, x);
      ModAddLeft(num, x, |was|);
      assert RotatedAt(now, was, Cycles(num, |was|), num, x);
    }
  }
}
