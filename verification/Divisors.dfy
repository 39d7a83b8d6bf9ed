/** Divisor generation of python/projecteuler/12.py: prime factors by trial division,
    all selections of k positions by shifting marks, and the sorted list of products. */
module Divisors {
  import opened Basics
  import opened NumberTheory
  import opened Sequences

  // ---------- prime factors ----------

  function Product(s: seq<nat>): (p: nat) {
    if s == [] then 1 else s[0] * Product(s[1..])
  }

  ghost predicate AllPrime(s: seq<nat>) {
    forall i :: 0 <= i < |s| ==> Prime(s[i])
  }

  lemma {:induction false} ProductAppend(s: seq<nat>, x: nat)
    ensures Product(s + [x]) == Product(s) * x
  {
    if s == [] {
      assert Product([x]) == x * Product([]);
      assert s + [x] == [x];
    } else {
      assert (s + [x])[0] == s[0] && (s + [x])[1..] == s[1..] + [x];
      ProductAppend(s[1..], x);
      var a, b := s[0], Product(s[1..]);
      assert a * (b * x) == a * b * x;
    }
  }

  lemma {:induction false} ProductPositive(s: seq<nat>)
    requires AllPrime(s)
    ensures Product(s) >= 1 && (s != [] ==> Product(s) >= 2)
  {
    if s != [] {
      ProductPositive(s[1..]);
      assert Prime(s[0]);
    }
  }

  /** A number no smaller number above one divides is prime when it divides n. */
  lemma FirstDivisorPrime(i: nat, n: nat)
    requires i >= 2 && n >= 1 && Divides(i, n) && forall d :: 2 <= d < i ==> !Divides(d, n)
    ensures Prime(i)
  {
    forall d | 2 <= d < i
      ensures !Divides(d, i)
    {
      if Divides(d, i) {
        DividesTrans(d, i, n);
      }
    }
  }

  method GetPrimeFactors(num: nat) returns (factors: seq<nat>)
    requires num >= 1
    ensures AllPrime(factors) && Product(factors) == num
    ensures forall a, b :: 0 <= a < b < |factors| ==> factors[a] <= factors[b]
  {
    var n: int := num;
    var i: int := 1;
    factors := [];
    while true
      invariant 1 <= n && 1 <= i && (n > 1 ==> i < n)
      invariant AllPrime(factors) && Product(factors) * n == num
      invariant forall d :: 2 <= d <= i ==> !Divides(d, n)
      invariant forall a, b :: 0 <= a < b < |factors| ==> factors[a] <= factors[b]
      invariant forall a, d :: 0 <= a < |factors| && 2 <= d < factors[a] ==> !Divides(d, n)
      decreases n, n - i
    {
      i := i + 1;
      if n % i == 0 {
        assert Divides(i, n);
        FirstDivisorPrime(i, n);
        DividesBound(i, n);
        ProductAppend(factors, i);
        QuotientSmaller(Product(factors), i, n);
        NoNewDivisors(i, n);
        n := n / i;
        factors := factors + [i];
        i := 1;
      }
      if n == 1 {
        break;
      }
      MultipleDivides(n, 1);
    }
  }

  /** What does not divide n does not divide a quotient of it. */
  lemma NoNewDivisors(i: nat, n: nat)
    requires i >= 1 && n >= 1 && Divides(i, n)
    ensures forall d :: d >= 1 && !Divides(d, n) ==> !Divides(d, n / i)
  {
    forall d | d >= 1 && Divides(d, n / i)
      ensures Divides(d, n)
    {
      assert n == n / i * i;
      MultipleDivides(n / i, i);
      if n / i > 0 {
        DividesTrans(d, n / i, n);
      }
    }
  }

  lemma QuotientSmaller(p: nat, i: nat, n: nat)
    requires i >= 2 && n >= 1 && i * (n / i) == n
    ensures n / i < n && p * i * (n / i) == p * n
  {
    var q := n / i;
    assert p * i * q == p * (i * q);
    assert i * q >= 2 * q;
  }

  // ---------- all selections of k positions ----------

  function Ones(m: seq<bool>): (k: nat)
    ensures k <= |m|
  {
    if m == [] then 0 else Ones(m[..|m| - 1]) + (if m[|m| - 1] then 1 else 0)
  }

  function Block(b: bool, n: nat): (m: seq<bool>)
    ensures |m| == n
  {
    seq(n, _ => b)
  }

  /** The number of ways to select k of n positions. */
  function Choose(n: nat, k: nat): (c: nat)
    ensures k <= n ==> c >= 1
    ensures k == n ==> c == 1
    ensures k > n ==> c == 0
  {
    if k > n then 0 else if k == 0 then 1 else Choose(n - 1, k) + Choose(n - 1, k - 1)
  }

  /** The j-th selection in the order the generator visits them: first those without
      the last position, then those with it. */
  function MarkAt(n: nat, k: nat, j: nat): (m: seq<bool>)
    requires j < Choose(n, k)
    ensures |m| == n
    decreases n
  {
    if k == 0 then Block(false, n)
    else if j < Choose(n - 1, k) then MarkAt(n - 1, k, j) + [false]
    else MarkAt(n - 1, k - 1, j - Choose(n - 1, k)) + [true]
  }

  /** The first marks leave the last position out, the others have it. */
  lemma MarkOff(n: nat, k: nat, j: nat)
    requires n >= 1 && k >= 1 && j < Choose(n - 1, k)
    ensures j < Choose(n, k) && MarkAt(n, k, j) == MarkAt(n - 1, k, j) + [false]
  {
  }

  lemma MarkOn(n: nat, k: nat, j: nat)
    requires n >= 1 && k >= 1 && j < Choose(n - 1, k - 1)
    ensures Choose(n - 1, k) + j < Choose(n, k)
    ensures MarkAt(n, k, Choose(n - 1, k) + j) == MarkAt(n - 1, k - 1, j) + [true]
  {
  }

  lemma OnesNext(m: seq<bool>, b: bool)
    ensures Ones(m + [b]) == Ones(m) + if b then 1 else 0
  {
    assert (m + [b])[..|m|] == m;
  }

  lemma {:induction false} MarkOnes(n: nat, k: nat, j: nat)
    requires j < Choose(n, k)
    ensures Ones(MarkAt(n, k, j)) == k
    decreases n
  {
    if k == 0 {
      OnesBlock(false, n);
    } else if j < Choose(n - 1, k) {
      MarkOnes(n - 1, k, j);
      OnesNext(MarkAt(n - 1, k, j), false);
    } else {
      MarkOnes(n - 1, k - 1, j - Choose(n - 1, k));
      OnesNext(MarkAt(n - 1, k - 1, j - Choose(n - 1, k)), true);
    }
  }

  /** No selection is listed twice. */
  lemma {:induction false} MarkDistinct(n: nat, k: nat, i: nat, j: nat)
    requires i < j < Choose(n, k)
    ensures MarkAt(n, k, i) != MarkAt(n, k, j)
    decreases n
  {
    var x, y, c := MarkAt(n, k, i), MarkAt(n, k, j), Choose(n - 1, k);
    if j < c {
      MarkDistinct(n - 1, k, i, j);
      assert x[..n - 1] == MarkAt(n - 1, k, i) && y[..n - 1] == MarkAt(n - 1, k, j);
    } else if i < c {
      assert x[n - 1] != y[n - 1];
    } else {
      MarkDistinct(n - 1, k - 1, i - c, j - c);
      assert x[..n - 1] == MarkAt(n - 1, k - 1, i - c) && y[..n - 1] == MarkAt(n - 1, k - 1, j - c);
    }
  }

  /** No selection is missing. */
  lemma {:induction false} MarkComplete(m: seq<bool>, n: nat, k: nat) returns (j: nat)
    requires |m| == n && Ones(m) == k
    ensures j < Choose(n, k) && MarkAt(n, k, j) == m
    decreases n
  {
    if k == 0 {
      j := NoneChosen(m, n);
    } else {
      var c, b := m[..n - 1], m[n - 1];
      j := MarkComplete(c, n - 1, if b then k - 1 else k);
      j := MarkExtends(n, k, c, b, j);
      assert m == c + [b];
    }
  }

  lemma NoneChosen(m: seq<bool>, n: nat) returns (j: nat)
    requires |m| == n && Ones(m) == 0
    ensures j < Choose(n, 0) && MarkAt(n, 0, j) == m
  {
    NoOnes(m);
    j := 0;
  }

  lemma MarkExtends(n: nat, k: nat, c: seq<bool>, b: bool, i: nat) returns (j: nat)
    requires n >= 1 && k >= 1
    requires if b then i < Choose(n - 1, k - 1) && MarkAt(n - 1, k - 1, i) == c
             else i < Choose(n - 1, k) && MarkAt(n - 1, k, i) == c
    ensures j < Choose(n, k) && MarkAt(n, k, j) == c + [b]
  {
    if b {
      MarkOn(n, k, i);
      j := Choose(n - 1, k) + i;
    } else {
      MarkOff(n, k, i);
      j := i;
    }
  }

  lemma {:induction false} NoOnes(m: seq<bool>)
    requires Ones(m) == 0
    ensures m == Block(false, |m|)
    decreases |m|
  {
    if m != [] {
      NoOnes(m[..|m| - 1]);
      assert m == m[..|m| - 1] + [false];
    }
  }

  lemma {:induction false} OnesBlock(b: bool, n: nat)
    ensures Ones(Block(b, n)) == if b then n else 0
  {
    if n > 0 {
      OnesBlock(b, n - 1);
      assert Block(b, n)[..n - 1] == Block(b, n - 1);
    }
  }

  // ---------- one step of the generator ----------

  /** Position i is the first with a one before a zero. */
  predicate FirstDrop(m: seq<bool>, i: nat) {
    && i + 1 < |m| && m[i] && !m[i + 1]
    && forall j :: 0 <= j < i ==> !(m[j] && !m[j + 1])
  }

  /** The mark moves one to the right and the ones before it go back to the start. */
  function Shift(m: seq<bool>, i: nat): (r: seq<bool>)
    requires i + 1 < |m|
    ensures |r| == |m|
  {
    var c := Ones(m[..i]);
    Block(true, c) + Block(false, i - c) + [false, true] + m[i + 2..]
  }

  ghost predicate Follows(m: seq<bool>, r: seq<bool>) {
    exists i {:trigger FirstDrop(m, i)} :: 0 <= i && FirstDrop(m, i) && r == Shift(m, i)
  }

  function First(n: nat, k: nat): (m: seq<bool>)
    requires k <= n
    ensures |m| == n
  {
    Block(true, k) + Block(false, n - k)
  }

  function Last(n: nat, k: nat): (m: seq<bool>)
    requires k <= n
    ensures |m| == n
  {
    Block(false, n - k) + Block(true, k)
  }

  lemma {:induction false} MarkFirst(n: nat, k: nat)
    requires k <= n
    ensures MarkAt(n, k, 0) == First(n, k)
  {
    if k == 0 {
      assert First(n, 0) == Block(false, n);
    } else if k < n {
      MarkFirst(n - 1, k);
      assert First(n, k) == First(n - 1, k) + [false];
    } else {
      MarkFirst(n - 1, k - 1);
      assert First(n, k) == First(n - 1, k - 1) + [true];
    }
  }

  lemma {:induction false} MarkLast(n: nat, k: nat)
    requires k <= n
    ensures MarkAt(n, k, Choose(n, k) - 1) == Last(n, k)
  {
    if k == 0 {
      assert Last(n, 0) == Block(false, n);
    } else {
      MarkLast(n - 1, k - 1);
      assert Last(n, k) == Last(n - 1, k - 1) + [true];
    }
  }

  lemma FollowsExtend(m: seq<bool>, r: seq<bool>, b: bool)
    requires Follows(m, r)
    ensures Follows(m + [b], r + [b])
  {
    var i :| 0 <= i && FirstDrop(m, i) && r == Shift(m, i);
    assert (m + [b])[..i] == m[..i];
    assert (m + [b])[i + 2..] == m[i + 2..] + [b];
    assert FirstDrop(m + [b], i);
    assert Shift(m + [b], i) == r + [b];
  }

  lemma {:induction false} OnesLast(n: nat, k: nat)
    requires k <= n
    ensures Ones(Last(n, k)) == k
  {
    if k == 0 {
      assert Last(n, 0) == Block(false, n);
      OnesBlock(false, n);
    } else {
      assert Last(n, k)[..n - 1] == Last(n - 1, k - 1);
      OnesLast(n - 1, k - 1);
    }
  }

  /** From the last selection without the new position to the first one with it. */
  lemma FollowsBoundary(n: nat, k: nat)
    requires 1 <= k < n
    ensures Follows(Last(n - 1, k) + [false], First(n - 1, k - 1) + [true])
  {
    var m, r := Last(n - 1, k) + [false], First(n - 1, k - 1) + [true];
    var i := n - 2;
    assert FirstDrop(m, i);
    assert m[..i] == Last(n - 2, k - 1);
    OnesLast(n - 2, k - 1);
    assert m[i + 2..] == [];
    assert Shift(m, i) == r;
  }

  /** Each listed selection is followed by the next one. */
  lemma {:induction false} MarkFollows(n: nat, k: nat, j: nat)
    requires j + 1 < Choose(n, k)
    ensures NextFollows(n, k, j)
    decreases n
  {
    var c := TwoChoices(n, k, j);
    if j + 1 < c {
      MarkFollows(n - 1, k, j);
      FollowsOff(n, k, j);
    } else if j + 1 == c {
      MarkFollowsBoundary(n, k);
    } else {
      MarkFollows(n - 1, k - 1, j - c);
      FollowsOn(n, k, j - c);
    }
  }

  ghost predicate NextFollows(n: nat, k: nat, j: nat) {
    j + 1 < Choose(n, k) && Follows(MarkAt(n, k, j), MarkAt(n, k, j + 1))
  }

  lemma TwoChoices(n: nat, k: nat, j: nat) returns (c: nat)
    requires j + 1 < Choose(n, k)
    ensures n >= 1 && k >= 1 && c == Choose(n - 1, k) && j + 1 < c + Choose(n - 1, k - 1)
    ensures j < c ==> k < n
  {
    c := Choose(n - 1, k);
  }

  lemma FollowsOff(n: nat, k: nat, j: nat)
    requires n >= 1 && k >= 1 && NextFollows(n - 1, k, j)
    ensures NextFollows(n, k, j)
  {
    MarkOff(n, k, j);
    MarkOff(n, k, j + 1);
    FollowsExtend(MarkAt(n - 1, k, j), MarkAt(n - 1, k, j + 1), false);
  }

  lemma FollowsOn(n: nat, k: nat, i: nat)
    requires n >= 1 && k >= 1 && NextFollows(n - 1, k - 1, i)
    ensures NextFollows(n, k, Choose(n - 1, k) + i)
  {
    MarkOn(n, k, i);
    MarkOn(n, k, i + 1);
    FollowsExtend(MarkAt(n - 1, k - 1, i), MarkAt(n - 1, k - 1, i + 1), true);
  }

  lemma MarkFollowsBoundary(n: nat, k: nat)
    requires 1 <= k < n
    ensures NextFollows(n, k, Choose(n - 1, k) - 1)
  {
    MarkLast(n - 1, k);
    MarkFirst(n - 1, k - 1);
    FollowsBoundary(n, k);
  }

  /** The loops after a drop at i: clear the marks up to i, then set the first ones. */
  method ShiftMark(mark: seq<bool>, i: nat) returns (m: seq<bool>)
    requires i + 1 < |mark| && mark[i] && !mark[i + 1]
    ensures m == Shift(mark, i)
  {
    var moved := mark[i := false][i + 1 := true];
    var cleared, count := ClearOnes(moved, i + 1);
    m := SetOnes(cleared, count);
    ShiftIsMove(mark, i, moved);
  }

  /** The first inner loop counts and clears the ones in the first n positions. */
  method ClearOnes(mark: seq<bool>, n: nat) returns (m: seq<bool>, count: nat)
    requires n <= |mark|
    ensures m == Block(false, n) + mark[n..] && count == Ones(mark[..n])
  {
    m, count := mark, 0;
    var j := 0;
    ghost var head := [];
    while j < n
      invariant 0 <= j <= n && m == Block(false, j) + mark[j..]
      invariant head == mark[..j] && count == Ones(head)
    {
      OnesNext(head, mark[j]);
      BlockNext(mark, j, false);
      head := head + [mark[j]];
      if m[j] {
        count := count + 1;
        m := m[j := false];
      }
      j := j + 1;
    }
  }

  /** The second one sets as many at the front. */
  method SetOnes(mark: seq<bool>, count: nat) returns (m: seq<bool>)
    requires count <= |mark|
    ensures m == Block(true, count) + mark[count..]
  {
    m := mark;
    var j := 0;
    while j < count
      invariant 0 <= j <= count && m == Block(true, j) + mark[j..]
    {
      BlockNext(mark, j, true);
      m := m[j := true];
      j := j + 1;
    }
  }

  lemma BlockNext(mark: seq<bool>, j: nat, b: bool)
    requires j < |mark|
    ensures var m := Block(b, j) + mark[j..];
      m[j := b] == Block(b, j + 1) + mark[j + 1..] && (m[j] == b ==> m == Block(b, j + 1) + mark[j + 1..])
  {
    var m := Block(b, j) + mark[j..];
    assert m[j := b] == Block(b, j + 1) + mark[j + 1..];
    assert m[j] == b ==> m == m[j := b];
  }

  lemma ShiftIsMove(mark: seq<bool>, i: nat, moved: seq<bool>)
    requires i + 1 < |mark| && mark[i] && !mark[i + 1] && moved == mark[i := false][i + 1 := true]
    ensures var c := Ones(moved[..i + 1]); var cleared := Block(false, i + 1) + moved[i + 1..];
      c <= i && Block(true, c) + cleared[c..] == Shift(mark, i)
  {
    OnesNext(mark[..i], false);
    assert moved[..i + 1] == mark[..i] + [false];
    assert moved[i + 1..] == [true] + mark[i + 2..];
  }

  predicate StopsHere(m: seq<bool>, i: nat)
    requires i < |m|
  {
    m[i] && (i + 1 == |m| || !m[i + 1])
  }

  ghost predicate HasDrop(m: seq<bool>) {
    exists i :: 0 <= i && FirstDrop(m, i)
  }

  /** One pass of the generator's inner loop; `found` is false where the source runs
      off the end of the list and leaves through the exception. */
  method Advance(mark: seq<bool>) returns (found: bool, m: seq<bool>)
    requires Ones(mark) >= 1
    ensures found <==> HasDrop(mark)
    ensures found ==> Follows(mark, m)
  {
    m := mark;
    var i := 0;
    while i < |mark|
      invariant 0 <= i <= |mark|
      invariant forall j :: 0 <= j < i ==> !StopsHere(mark, j)
    {
      if mark[i] {
        if i + 1 == |mark| {
          NoDrop(mark);
          return false, m;
        }
        if !mark[i + 1] {
          m := ShiftMark(mark, i);
          DropHere(mark, i);
          return true, m;
        }
      }
      i := i + 1;
    }
    AllClear(mark);
    assert false;
  }

  lemma DropHere(m: seq<bool>, i: nat)
    requires i + 1 < |m| && m[i] && !m[i + 1]
    requires forall j :: 0 <= j < i ==> !StopsHere(m, j)
    ensures FirstDrop(m, i)
  {
    forall j | 0 <= j < i
      ensures !(m[j] && !m[j + 1])
    {
      assert !StopsHere(m, j);
    }
  }

  lemma NoDrop(m: seq<bool>)
    requires m != [] && forall j :: 0 <= j < |m| - 1 ==> !StopsHere(m, j)
    ensures !HasDrop(m)
  {
    forall i | 0 <= i
      ensures !FirstDrop(m, i)
    {
      assert i < |m| - 1 ==> !StopsHere(m, i);
    }
  }

  lemma {:induction false} AllClear(m: seq<bool>)
    requires forall j :: 0 <= j < |m| ==> !StopsHere(m, j)
    ensures Ones(m) == 0
  {
    forall j | 0 <= j < |m|
      ensures !m[j]
    {
      ClearFrom(m, j);
    }
    assert m == Block(false, |m|);
    OnesBlock(false, |m|);
  }

  lemma {:induction false} ClearFrom(m: seq<bool>, j: nat)
    requires j < |m| && forall j :: 0 <= j < |m| ==> !StopsHere(m, j)
    ensures !m[j]
    decreases |m| - j
  {
    assert !StopsHere(m, j);
    if j + 1 < |m| {
      ClearFrom(m, j + 1);
    }
  }

  lemma LastHasNoDrop(n: nat, k: nat)
    requires k <= n
    ensures !HasDrop(Last(n, k))
  {
  }

  lemma NextIsUnique(m: seq<bool>, next: seq<bool>, r: seq<bool>)
    requires Follows(m, next)
    ensures HasDrop(m)
    ensures Follows(m, r) ==> r == next
  {
    var i :| 0 <= i && FirstDrop(m, i) && next == Shift(m, i);
    if Follows(m, r) {
    }
  }

  function Select(list: seq<nat>, m: seq<bool>): (r: seq<nat>)
    requires |list| == |m|
  {
    if m == [] then []
    else
      var n := |m| - 1;
      Select(list[..n], m[..n]) + (if m[n] then [list[n]] else [])
  }

  /** The generator starts at the first mark, goes from each mark to the next and
      stops at the last. */
  ghost predicate Generates(marks: seq<seq<bool>>, n: nat, k: nat)
    requires k <= n
  {
    && |marks| >= 1 && marks[0] == First(n, k)
    && (forall j :: 0 <= j < |marks| ==> |marks[j]| == n && Ones(marks[j]) == k)
    && (forall j :: 0 <= j < |marks| - 1 ==> GoesOn(marks, j))
    && !HasDrop(marks[|marks| - 1])
  }

  ghost predicate GoesOn(marks: seq<seq<bool>>, j: nat)
    requires j + 1 < |marks|
  {
    Follows(marks[j], marks[j + 1])
  }

  function AllMarks(n: nat, k: nat): (marks: seq<seq<bool>>) {
    seq(Choose(n, k), j requires 0 <= j < Choose(n, k) => MarkAt(n, k, j))
  }

  lemma AllMarksGenerated(n: nat, k: nat)
    requires k <= n
    ensures Generates(AllMarks(n, k), n, k)
  {
    var marks := AllMarks(n, k);
    MarkFirst(n, k);
    MarkLast(n, k);
    LastHasNoDrop(n, k);
    forall j | 0 <= j < |marks|
      ensures |marks[j]| == n && Ones(marks[j]) == k
    {
      MarkOnes(n, k, j);
    }
    forall j | 0 <= j < |marks| - 1
      ensures GoesOn(marks, j)
    {
      MarkFollows(n, k, j);
    }
  }

  method GenerateCombos(list: seq<nat>, num: nat, ghost marks: seq<seq<bool>>) returns (combos: seq<seq<nat>>)
    requires 1 <= num <= |list| && Generates(marks, |list|, num)
    ensures |combos| == |marks|
    ensures forall j :: 0 <= j < |combos| ==> combos[j] == Select(list, marks[j])
  {
    var n := |list|;
    var mark := Block(true, num) + Block(false, n - num);
    combos := [];
    while true
      invariant |combos| < |marks| && mark == marks[|combos|]
      invariant forall j :: 0 <= j < |combos| ==> combos[j] == Select(list, marks[j])
      decreases |marks| - |combos|
    {
      ghost var j := |combos|;
      combos := combos + [Select(list, mark)];
      var found, next := Advance(mark);
      if j + 1 < |marks| {
        assert GoesOn(marks, j);
        NextIsUnique(mark, marks[j + 1], next);
      }
      if !found {
        break;
      }
      mark := next;
    }
  }

  /** get_combine: every selection of num positions of the list, each exactly once. */
  method GetCombine(list: seq<nat>, num: nat) returns (combos: seq<seq<nat>>)
    requires 1 <= num <= |list|
    ensures |combos| == Choose(|list|, num)
    ensures forall j :: 0 <= j < |combos| ==> combos[j] == Select(list, MarkAt(|list|, num, j))
  {
    AllMarksGenerated(|list|, num);
    combos := GenerateCombos(list, num, AllMarks(|list|, num));
  }

  // ---------- divisors as products of selections ----------

  lemma {:induction false} SelectPrimes(list: seq<nat>, m: seq<bool>)
    requires |list| == |m| && AllPrime(list)
    ensures AllPrime(Select(list, m)) && |Select(list, m)| == Ones(m)
    decreases |m|
  {
    if m != [] {
      var n := |m| - 1;
      SelectPrimes(list[..n], m[..n]);
    }
  }

  lemma {:induction false} SelectDivides(list: seq<nat>, m: seq<bool>)
    requires |list| == |m| && AllPrime(list)
    ensures Product(Select(list, m)) >= 1 && Divides(Product(Select(list, m)), Product(list))
    decreases |m|
  {
    if m != [] {
      var n := |m| - 1;
      var chosen, p := Select(list[..n], m[..n]), list[n];
      SelectDivides(list[..n], m[..n]);
      assert Prime(p);
      DividesScaled(Product(chosen), Product(list[..n]), p);
      LastFactor(list);
      if m[n] {
        ProductAppend(chosen, p);
      } else {
        assert chosen + [] == chosen;
      }
    }
  }

  lemma LastFactor(list: seq<nat>)
    requires list != []
    ensures Product(list) == Product(list[..|list| - 1]) * list[|list| - 1]
  {
    assert list == list[..|list| - 1] + [list[|list| - 1]];
    ProductAppend(list[..|list| - 1], list[|list| - 1]);
  }

  lemma DividesScaled(d: nat, n: nat, p: nat)
    requires d >= 1 && p >= 1 && Divides(d, n)
    ensures Divides(d, n * p) && d * p >= 1 && Divides(d * p, n * p)
  {
    DividesProduct(d, n, p);
    assert d * p >= 1 * 1;
    var q := n / d;
    assert n * p == d * q * p == d * p * q;
    MultipleDivides(d * p, q);
  }

  /** Every divisor of a product of primes is the product of a selection of them. */
  lemma {:induction false} DivisorSelected(ps: seq<nat>, d: nat) returns (m: seq<bool>)
    requires AllPrime(ps) && d >= 1 && Divides(d, Product(ps))
    ensures |m| == |ps| && Product(Select(ps, m)) == d
    decreases |ps|
  {
    if ps == [] {
      DividesBound(d, 1);
      m := [];
    } else {
      var n := |ps| - 1;
      var qs, p := ps[..n], ps[n];
      assert Prime(p) && AllPrime(qs);
      var e := WithoutFactor(ps, qs, p, d);
      var rest := DivisorSelected(qs, e);
      m := rest + [Divides(p, d)];
      SelectNext(ps, qs, p, rest, Divides(p, d));
    }
  }

  /** The part of a divisor that the first factors have to give. */
  lemma WithoutFactor(ps: seq<nat>, qs: seq<nat>, p: nat, d: nat) returns (e: nat)
    requires ps == qs + [p] && AllPrime(qs) && Prime(p) && d >= 1 && Divides(d, Product(ps))
    ensures e >= 1 && Divides(e, Product(qs)) && d == if Divides(p, d) then e * p else e
  {
    ProductAppend(qs, p);
    ProductPositive(qs);
    if Divides(p, d) {
      CancelFactor(d, Product(qs), p);
      e := d / p;
    } else {
      PrimeCoprimeTo(p, d);
      assert Product(qs) * p == p * Product(qs);
      GaussLemma(d, p, Product(qs));
      e := d;
    }
  }

  lemma SelectNext(ps: seq<nat>, qs: seq<nat>, p: nat, rest: seq<bool>, b: bool)
    requires ps == qs + [p] && |rest| == |qs|
    ensures Product(Select(ps, rest + [b])) == Product(Select(qs, rest)) * if b then p else 1
  {
    var m := rest + [b];
    assert m[..|rest|] == rest && ps[..|qs|] == qs;
    if b {
      ProductAppend(Select(qs, rest), p);
    } else {
      assert Select(qs, rest) + [] == Select(qs, rest);
    }
  }

  lemma CancelFactor(d: nat, n: nat, p: nat)
    requires p >= 1 && d >= 1 && Divides(p, d) && Divides(d, n * p)
    ensures d / p >= 1 && d / p * p == d && Divides(d / p, n)
  {
    DividesBound(p, d);
    var e := d / p;
    var q := n * p / d;
    assert n * p == d * q == e * p * q == e * q * p;
    assert (n - e * q) * p == 0;
    assert n == e * q;
    MultipleDivides(e, q);
  }

  lemma PrimeCoprimeTo(p: nat, d: nat)
    requires Prime(p) && d >= 1 && !Divides(p, d)
    ensures Gcd(p, d) == 1
  {
    var g := Gcd(p, d);
    GcdDivides(p, d);
    DividesBound(g, p);
    assert Divides(g, p);
  }

  // ---------- get_factors ----------

  predicate Ascending(s: seq<nat>) {
    forall i, j :: 0 <= i < j < |s| ==> s[i] < s[j]
  }

  /** The list methods append-if-absent and sort on a list without repetitions. */
  function SortedInsert(s: seq<nat>, x: nat): (r: seq<nat>)
    requires Ascending(s) && x !in s
    ensures Ascending(r) && |r| == |s| + 1
    ensures forall y :: y in r <==> y in s || y == x
  {
    if s == [] then [x]
    else if x < s[0] then [x] + s
    else
      var r := SortedInsert(s[1..], x);
      assert forall y :: y in s <==> y == s[0] || y in s[1..];
      assert forall i :: 0 <= i < |r| ==> r[i] in s[1..] || r[i] == x;
      [s[0]] + r
  }

  function Sort(s: seq<nat>): (r: seq<nat>)
    requires Distinct(s)
    ensures Ascending(r) && |r| == |s|
    ensures forall y :: y in r <==> y in s
  {
    if s == [] then []
    else
      assert forall y :: y in s <==> y == s[0] || y in s[1..];
      assert s[0] !in s[1..];
      SortedInsert(Sort(s[1..]), s[0])
  }

  ghost predicate Factors(factors: seq<nat>, num: nat) {
    Distinct(factors) && forall x :: x in factors ==> 2 <= x && Divides(x, num)
  }

  ghost predicate IsProduct(x: nat, combos: seq<seq<nat>>) {
    exists j :: 0 <= j < |combos| && x == Product(combos[j])
  }

  method AddProducts(factors: seq<nat>, combos: seq<seq<nat>>, num: nat) returns (r: seq<nat>)
    requires num >= 1 && Factors(factors, num)
    requires forall j :: 0 <= j < |combos| ==> Product(combos[j]) >= 2 && Divides(Product(combos[j]), num)
    ensures Factors(r, num) && factors <= r
    ensures forall j :: 0 <= j < |combos| ==> Product(combos[j]) in r
    ensures forall i :: |factors| <= i < |r| ==> IsProduct(r[i], combos)
  {
    r := factors;
    var j := 0;
    while j < |combos|
      invariant 0 <= j <= |combos| && Factors(r, num) && factors <= r
      invariant forall t :: 0 <= t < j ==> Product(combos[t]) in r
      invariant forall i :: |factors| <= i < |r| ==> IsProduct(r[i], combos)
    {
      var x := Product(combos[j]);
      DividesBound(x, num);
      if x !in r && x <= num {
        r := r + [x];
      }
      j := j + 1;
    }
  }

  /** All products of selections of up to k positions are among the factors. */
  ghost predicate Covers(factors: seq<nat>, ps: seq<nat>, k: nat) {
    forall m :: |m| == |ps| && 1 <= Ones(m) <= k ==> Product(Select(ps, m)) in factors
  }

  lemma CoversNext(factors: seq<nat>, r: seq<nat>, ps: seq<nat>, k: nat, combos: seq<seq<nat>>)
    requires Covers(factors, ps, k) && factors <= r && |combos| == Choose(|ps|, k + 1)
    requires forall j :: 0 <= j < |combos| ==> combos[j] == Select(ps, MarkAt(|ps|, k + 1, j))
    requires forall j :: 0 <= j < |combos| ==> Product(combos[j]) in r
    ensures Covers(r, ps, k + 1)
  {
    forall m | |m| == |ps| && 1 <= Ones(m) <= k + 1
      ensures Product(Select(ps, m)) in r
    {
      if Ones(m) == k + 1 {
        InCombos(r, ps, k + 1, combos, m);
      } else {
        StillThere(factors, r, Product(Select(ps, m)));
      }
    }
  }

  lemma InCombos(r: seq<nat>, ps: seq<nat>, k: nat, combos: seq<seq<nat>>, m: seq<bool>)
    requires |m| == |ps| && Ones(m) == k && |combos| == Choose(|ps|, k)
    requires forall j :: 0 <= j < |combos| ==> combos[j] == Select(ps, MarkAt(|ps|, k, j))
    requires forall j :: 0 <= j < |combos| ==> Product(combos[j]) in r
    ensures Product(Select(ps, m)) in r
  {
    var j := MarkComplete(m, |ps|, k);
    assert combos[j] == Select(ps, m);
  }

  lemma StillThere(factors: seq<nat>, r: seq<nat>, x: nat)
    requires factors <= r && x in factors
    ensures x in r
  {
    var i :| 0 <= i < |factors| && factors[i] == x;
    assert r[i] == x;
  }

  lemma CombosDivide(ps: seq<nat>, k: nat, combos: seq<seq<nat>>, j: nat)
    requires AllPrime(ps) && k >= 1 && |combos| == Choose(|ps|, k) && j < |combos|
    requires forall j :: 0 <= j < |combos| ==> combos[j] == Select(ps, MarkAt(|ps|, k, j))
    ensures Product(combos[j]) >= 2 && Divides(Product(combos[j]), Product(ps))
  {
    var m := MarkAt(|ps|, k, j);
    MarkOnes(|ps|, k, j);
    SelectPrimes(ps, m);
    SelectDivides(ps, m);
    ProductPositive(Select(ps, m));
  }

  /** get_factors: the strictly increasing list of all divisors. */
  method GetFactors(num: nat) returns (factors: seq<nat>)
    requires num >= 1
    ensures Ascending(factors)
    ensures forall d :: d in factors <==> d >= 1 && Divides(d, num)
  {
    var ps := GetPrimeFactors(num);
    factors := [];
    var i := 1;
    while i < |ps| + 1
      invariant 1 <= i <= |ps| + 1 && Factors(factors, num) && Covers(factors, ps, i - 1)
    {
      var combos := GetCombine(ps, i);
      forall j | 0 <= j < |combos|
        ensures Product(combos[j]) >= 2 && Divides(Product(combos[j]), num)
      {
        CombosDivide(ps, i, combos, j);
      }
      var r := AddProducts(factors, combos, num);
      CoversNext(factors, r, ps, i - 1, combos);
      factors := r;
      i := i + 1;
    }
    DivisorsCovered(factors, ps, num);
    var sorted := Sort(factors);
    assert forall i :: 0 <= i < |sorted| ==> sorted[i] in factors;
    factors := [1] + sorted;
  }

  lemma DivisorsCovered(factors: seq<nat>, ps: seq<nat>, num: nat)
    requires num >= 1 && AllPrime(ps) && Product(ps) == num
    requires Factors(factors, num) && Covers(factors, ps, |ps|)
    ensures forall d :: d in factors <==> d >= 2 && Divides(d, num)
  {
    forall d | d >= 2 && Divides(d, num)
      ensures d in factors
    {
      var m := DivisorSelected(ps, d);
      SelectPrimes(ps, m);
      assert Product(Select(ps, m)) in factors;
    }
  }
}
