/** The least-significant-digit radix sort of programming_pearls/radix_sort.c, on the
    values of its ten lists. */
module RadixSort {
  import opened NumberTheory
  import opened Numerals

  type Buckets = b: seq<seq<nat>> | |b| == 10 witness [[], [], [], [], [], [], [], [], [], []]

  const NO_BUCKETS: Buckets := [[], [], [], [], [], [], [], [], [], []]

  function Digit(x: nat, base: nat): (d: nat)
    requires base >= 1
    ensures d < 10
  {
    x / base % 10
  }

  /** The elements with a given digit, in their order. */
  function WithDigit(xs: seq<nat>, base: nat, d: nat): (r: seq<nat>)
    requires base >= 1
  {
    if xs == [] then []
    else
      var n := |xs| - 1;
      WithDigit(xs[..n], base, d) + (if Digit(xs[n], base) == d then [xs[n]] else [])
  }

  /** The elements with a given remainder, in their order. */
  function WithRest(xs: seq<nat>, m: nat, r: nat): (s: seq<nat>)
    requires m >= 1
  {
    if xs == [] then []
    else
      var n := |xs| - 1;
      WithRest(xs[..n], m, r) + (if xs[n] % m == r then [xs[n]] else [])
  }

  function Put(b: Buckets, base: nat, x: nat): (r: Buckets)
    requires base >= 1
  {
    var d := Digit(x, base);
    b[d := b[d] + [x]]
  }

  /** One pass over the elements xs. */
  function Distribute(xs: seq<nat>, base: nat): (b: Buckets)
    requires base >= 1
  {
    if xs == [] then NO_BUCKETS
    else
      var n := |xs| - 1;
      Put(Distribute(xs[..n], base), base, xs[n])
  }

  /** The first k lists, read one after the other. */
  function Flatten(b: seq<seq<nat>>, k: nat): (xs: seq<nat>)
    requires k <= |b|
  {
    if k == 0 then [] else Flatten(b, k - 1) + b[k - 1]
  }

  /** All ten lists, read one after the other. */
  function InOrder(b: Buckets): (xs: seq<nat>) {
    Flatten(b, |b|)
  }

  function Pass(b: Buckets, base: nat): (r: Buckets)
    requires base >= 1
  {
    Distribute(InOrder(b), base)
  }

  ghost predicate SortedBy(xs: seq<nat>, m: nat)
    requires m >= 1
  {
    forall i, j {:trigger RestAtMost(xs[i], xs[j], m)} :: 0 <= i < j < |xs| ==> RestAtMost(xs[i], xs[j], m)
  }

  predicate RestAtMost(x: nat, y: nat, m: nat)
    requires m >= 1
  {
    x % m <= y % m
  }

  ghost predicate SameRest(xs: seq<nat>, input: seq<nat>, m: nat, r: nat)
    requires m >= 1
  {
    WithRest(xs, m, r) == WithRest(input, m, r)
  }

  /** Sorted by remainder, and per remainder the elements of `input` in their order:
      the stable sort of the input by remainder. */
  ghost predicate StableSorted(xs: seq<nat>, input: seq<nat>, m: nat)
    requires m >= 1
  {
    && SortedBy(xs, m)
    && (forall r :: 0 <= r < m ==> SameRest(xs, input, m, r))
  }

  lemma {:induction false} DistributeBucket(xs: seq<nat>, base: nat, d: nat)
    requires base >= 1 && d < 10
    ensures Distribute(xs, base)[d] == WithDigit(xs, base, d)
  {
    if xs != [] {
      DistributeBucket(xs[..|xs| - 1], base, d);
    }
  }

  // ---------- a digit above a remainder is a larger remainder ----------

  lemma DigitAndRest(x: nat, base: nat)
    requires base >= 1
    ensures x % (10 * base) == Digit(x, base) * base + x % base
    ensures Digit(x, base) * base + x % base < 10 * base
  {
    var q, r := x / base, x % base;
    var d, p := q % 10, q / 10;
    assert q == 10 * p + d;
    assert x == base * (10 * p + d) + r;
    assert base * (10 * p + d) == 10 * base * p + base * d;
    DigitBound(d, base, r);
    ModUnique(x, 10 * base, p, d * base + r);
  }

  lemma DigitBound(d: nat, base: nat, r: nat)
    requires d < 10 && r < base
    ensures d * base + r < 10 * base
  {
    assert (9 - d) * base >= 0;
    assert (9 - d) * base == 9 * base - d * base;
  }

  /** Equal digit and remainder on both sides, or different ones on both sides. */
  lemma RestSplits(x: nat, base: nat, d: nat, r: nat)
    requires base >= 1 && d < 10 && r < base
    ensures x % (10 * base) == d * base + r <==> Digit(x, base) == d && x % base == r
  {
    DigitAndRest(x, base);
    if Digit(x, base) * base + x % base == d * base + r {
      ModUnique(d * base + r, base, d, r);
      ModUnique(Digit(x, base) * base + x % base, base, Digit(x, base), x % base);
    }
  }

  lemma {:induction false} RestOfDigit(xs: seq<nat>, base: nat, d: nat, r: nat)
    requires base >= 1 && d < 10 && r < base
    ensures WithRest(WithDigit(xs, base, d), base, r) == WithRest(xs, 10 * base, d * base + r)
  {
    if xs != [] {
      var n := |xs| - 1;
      RestOfDigit(xs[..n], base, d, r);
      RestSplits(xs[n], base, d, r);
      RestAppend(WithDigit(xs[..n], base, d), xs[n], base, r);
      if Digit(xs[n], base) != d {
        assert WithDigit(xs[..n], base, d) + [] == WithDigit(xs[..n], base, d);
      }
    }
  }

  lemma RestAppend(s: seq<nat>, x: nat, m: nat, r: nat)
    requires m >= 1
    ensures WithRest(s + [x], m, r) == WithRest(s, m, r) + (if x % m == r then [x] else [])
  {
    assert (s + [x])[..|s|] == s;
  }

  lemma {:induction false} DigitOfRest(xs: seq<nat>, base: nat, d: nat, r: nat)
    requires base >= 1 && d < 10 && r < base
    ensures WithDigit(WithRest(xs, base, r), base, d) == WithRest(xs, 10 * base, d * base + r)
  {
    if xs != [] {
      var n := |xs| - 1;
      DigitOfRest(xs[..n], base, d, r);
      RestSplits(xs[n], base, d, r);
      var s := WithRest(xs[..n], base, r);
      if xs[n] % base == r {
        assert (s + [xs[n]])[..|s|] == s;
      } else {
        assert s + [] == s;
      }
    }
  }

  // ---------- one pass ----------

  lemma {:induction false} RestConcat(a: seq<nat>, b: seq<nat>, m: nat, r: nat)
    requires m >= 1
    ensures WithRest(a + b, m, r) == WithRest(a, m, r) + WithRest(b, m, r)
    decreases |b|
  {
    if b == [] {
      assert a + b == a;
      assert WithRest(a, m, r) + [] == WithRest(a, m, r);
    } else {
      var n := |b| - 1;
      assert a + b == (a + b[..n]) + [b[n]];
      RestAppend(a + b[..n], b[n], m, r);
      RestConcat(a, b[..n], m, r);
    }
  }

  /** Of the bucket for digit e, only the elements with that digit can match.  In the
      next lemmas m is the larger modulus and v the remainder with digit d and rest r. */
  lemma {:induction false} BucketRest(xs: seq<nat>, base: nat, e: nat, d: nat, r: nat, m: nat, v: nat)
    requires base >= 1 && e < 10 && d < 10 && r < base && m == 10 * base && v == d * base + r
    ensures WithRest(WithDigit(xs, base, e), m, v) == if e == d then WithRest(xs, m, v) else []
  {
    if xs != [] {
      var n := |xs| - 1;
      BucketRest(xs[..n], base, e, d, r, m, v);
      RestSplits(xs[n], base, d, r);
      var s := WithDigit(xs[..n], base, e);
      RestAppend(s, xs[n], m, v);
      if Digit(xs[n], base) != e {
        assert s + [] == s;
      }
    }
  }

  /** The elements with one remainder of all lists are those of each list, in order. */
  lemma {:induction false} FlattenRest(b: seq<seq<nat>>, k: nat, m: nat, v: nat, rests: seq<seq<nat>>)
    requires k <= |b| == |rests| && m >= 1
    requires forall e :: 0 <= e < |b| ==> WithRest(b[e], m, v) == rests[e]
    ensures WithRest(Flatten(b, k), m, v) == Flatten(rests, k)
  {
    if k > 0 {
      FlattenRest(b, k - 1, m, v, rests);
      FlattenNext(b, k, m, v, rests);
    }
  }

  lemma FlattenNext(b: seq<seq<nat>>, k: nat, m: nat, v: nat, rests: seq<seq<nat>>)
    requires 0 < k <= |b| == |rests| && m >= 1
    requires WithRest(Flatten(b, k - 1), m, v) == Flatten(rests, k - 1) && WithRest(b[k - 1], m, v) == rests[k - 1]
    ensures WithRest(Flatten(b, k), m, v) == Flatten(rests, k)
  {
    RestConcat(Flatten(b, k - 1), b[k - 1], m, v);
  }

  lemma {:induction false} FlattenOne(rests: seq<seq<nat>>, k: nat, d: nat)
    requires k <= |rests| && forall e :: 0 <= e < |rests| && e != d ==> rests[e] == []
    ensures Flatten(rests, k) == if d < k then rests[d] else []
  {
    if k > 0 {
      FlattenOne(rests, k - 1, d);
    }
  }

  /** A bucket keeps the order of xs and holds one digit only. */
  lemma {:induction false} BucketSorted(xs: seq<nat>, base: nat, d: nat)
    requires base >= 1 && d < 10 && SortedBy(xs, base)
    ensures SortedBy(WithDigit(xs, base, d), base)
    ensures forall i :: 0 <= i < |WithDigit(xs, base, d)| ==>
      WithDigit(xs, base, d)[i] in xs && Digit(WithDigit(xs, base, d)[i], base) == d
  {
    if xs != [] {
      var n := |xs| - 1;
      var s := WithDigit(xs[..n], base, d);
      BucketSorted(xs[..n], base, d);
      forall i | 0 <= i < |s|
        ensures RestAtMost(s[i], xs[n], base) && s[i] in xs
      {
        assert s[i] in xs[..n];
        var j :| 0 <= j < n && xs[..n][j] == s[i];
        assert RestAtMost(xs[j], xs[n], base);
      }
    }
  }

  /** Within one digit the larger remainder orders like the smaller one, and a smaller
      digit comes first. */
  lemma DigitOrder(x: nat, y: nat, base: nat)
    requires base >= 1
    requires Digit(x, base) < Digit(y, base) || (Digit(x, base) == Digit(y, base) && RestAtMost(x, y, base))
    ensures RestAtMost(x, y, 10 * base)
  {
    DigitAndRest(x, base);
    DigitAndRest(y, base);
    if Digit(x, base) < Digit(y, base) {
      DigitGap(Digit(x, base), x % base, Digit(y, base), base);
    }
  }

  lemma DigitGap(dx: nat, rx: nat, dy: nat, base: nat)
    requires dx < dy && rx < base
    ensures dx * base + rx < dy * base
  {
    assert (dy - dx - 1) * base >= 0;
    assert (dy - dx - 1) * base == dy * base - dx * base - base;
  }

  lemma {:induction false} FlattenSorted(xs: seq<nat>, base: nat, k: nat)
    requires base >= 1 && k <= 10 && SortedBy(xs, base)
    ensures SortedBy(Flatten(Distribute(xs, base), k), 10 * base)
    ensures forall i :: 0 <= i < |Flatten(Distribute(xs, base), k)| ==>
      Digit(Flatten(Distribute(xs, base), k)[i], base) < k
  {
    if k > 0 {
      var b := Distribute(xs, base);
      var front, last := Flatten(b, k - 1), b[k - 1];
      FlattenSorted(xs, base, k - 1);
      DistributeBucket(xs, base, k - 1);
      BucketSorted(xs, base, k - 1);
      assert Flatten(b, k) == front + last;
      forall i, j | 0 <= i < j < |front + last|
        ensures RestAtMost((front + last)[i], (front + last)[j], 10 * base)
      {
        if j < |front| {
          assert RestAtMost(front[i], front[j], 10 * base);
        } else {
          if i >= |front| {
            assert RestAtMost(last[i - |front|], last[j - |front|], base);
          }
          DigitOrder((front + last)[i], (front + last)[j], base);
        }
      }
    }
  }

  lemma DistributeRest(xs: seq<nat>, input: seq<nat>, base: nat, m: nat, v: nat)
    requires base >= 1 && m == 10 * base && v < m
    requires forall r :: 0 <= r < base ==> SameRest(xs, input, base, r)
    ensures SameRest(InOrder(Distribute(xs, base)), input, m, v)
  {
    var d, r := SplitRest(v, base);
    assert SameRest(xs, input, base, r);
    InOrderRest(xs, base, d, r, m, v);
    DigitKeepsRest(xs, input, base, d, r, m, v);
  }

  /** Reading the lists in order gives the elements with one remainder in their order. */
  lemma InOrderRest(xs: seq<nat>, base: nat, d: nat, r: nat, m: nat, v: nat)
    requires base >= 1 && d < 10 && r < base && m == 10 * base && v == d * base + r
    ensures WithRest(InOrder(Distribute(xs, base)), m, v) == WithRest(xs, m, v)
  {
    var b := Distribute(xs, base);
    forall e | 0 <= e < |b|
      ensures WithRest(b[e], m, v) == if e == d then WithRest(xs, m, v) else []
    {
      DistributeBucket(xs, base, e);
      BucketRest(xs, base, e, d, r, m, v);
    }
    var rests := seq(|b|, e requires 0 <= e < |b| => WithRest(b[e], m, v));
    FlattenRest(b, |b|, m, v, rests);
    FlattenOne(rests, |b|, d);
  }

  lemma DigitKeepsRest(xs: seq<nat>, input: seq<nat>, base: nat, d: nat, r: nat, m: nat, v: nat)
    requires base >= 1 && d < 10 && r < base && m == 10 * base && v == d * base + r
    requires SameRest(xs, input, base, r)
    ensures WithRest(xs, m, v) == WithRest(input, m, v)
  {
    DigitOfRest(xs, base, d, r);
    DigitOfRest(input, base, d, r);
  }

  /** A pass turns the stable order by the last k digits into that by k + 1. */
  lemma DistributeStable(xs: seq<nat>, input: seq<nat>, base: nat)
    requires base >= 1 && StableSorted(xs, input, base)
    ensures StableSorted(InOrder(Distribute(xs, base)), input, 10 * base)
  {
    FlattenSorted(xs, base, |Distribute(xs, base)|);
    forall v | 0 <= v < 10 * base
      ensures SameRest(InOrder(Distribute(xs, base)), input, 10 * base, v)
    {
      DistributeRest(xs, input, base, 10 * base, v);
    }
  }

  lemma SplitRest(r: nat, base: nat) returns (d: nat, r': nat)
    requires base >= 1 && r < 10 * base
    ensures d < 10 && r' < base && r == d * base + r'
  {
    d, r' := r / base, r % base;
    assert r == base * d + r';
    assert d >= 10 ==> base * d >= base * 10;
  }

  // ---------- the whole program ----------

  /** now is the stable sort of xs by its last k digits. */
  ghost predicate StableByDigits(now: seq<nat>, xs: seq<nat>, k: nat) {
    forall p: nat {:trigger IsPower(p, k)} :: IsPower(p, k) && p >= 1 ==> StableSorted(now, xs, p)
  }

  predicate IsPower(p: nat, k: nat) {
    p == Power(10, k)
  }

  lemma OpenStable(now: seq<nat>, xs: seq<nat>, k: nat)
    requires StableByDigits(now, xs, k)
    ensures StableSorted(now, xs, Power(10, k))
  {
    assert IsPower(Power(10, k), k);
  }

  lemma StableByNothing(xs: seq<nat>)
    ensures StableByDigits(xs, xs, 0)
  {
  }

  /** A pass makes a stable sort by k digits one by k + 1. */
  lemma StableByNext(now: seq<nat>, xs: seq<nat>, k: nat)
    requires StableByDigits(now, xs, k)
    ensures StableByDigits(InOrder(Distribute(now, Power(10, k))), xs, k + 1)
  {
    OpenStable(now, xs, k);
    DistributeStable(now, xs, Power(10, k));
  }

  /** The first distribution by the last digit is itself a stable sort of the input. */
  lemma InitialStable(input: seq<nat>)
    ensures StableSorted(InOrder(Distribute(input, 1)), input, 10)
  {
    DistributeStable(input, input, 1);
  }

  lemma {:induction false} RestRefines(xs: seq<nat>, k: nat, r: nat)
    requires k >= 1
    ensures WithRest(WithRest(xs, 10, r % 10), Power(10, k), r) == WithRest(xs, Power(10, k), r)
  {
    if xs != [] {
      var n := |xs| - 1;
      RestRefines(xs[..n], k, r);
      var s := WithRest(xs[..n], 10, r % 10);
      RestAppend(s, xs[n], Power(10, k), r);
      LastDigit(xs[n], Power(10, k - 1));
      if xs[n] % 10 != r % 10 {
        assert s + [] == s;
      }
    }
  }

  lemma LastDigit(x: nat, p: nat)
    requires p >= 1
    ensures x % (10 * p) % 10 == x % 10
  {
    var q := x / (10 * p);
    assert x == 10 * p * q + x % (10 * p);
    assert 10 * p * q == 10 * (p * q);
    ModShift(x % (10 * p), 10, p * q);
  }

  /** A stable sort by k digits of the first distribution is one of the input file. */
  lemma StableOfInput(out: seq<nat>, input: seq<nat>, k: nat)
    requires k >= 1 && StableSorted(out, InOrder(Distribute(input, 1)), Power(10, k))
    ensures StableSorted(out, input, Power(10, k))
  {
    var xs := InOrder(Distribute(input, 1));
    InitialStable(input);
    forall r | 0 <= r < Power(10, k)
      ensures SameRest(out, input, Power(10, k), r)
    {
      assert SameRest(out, xs, Power(10, k), r);
      RestRefines(xs, k, r);
      RestRefines(input, k, r);
      assert SameRest(xs, input, 10, r % 10);
    }
  }

  ghost predicate SortedFile(out: seq<nat>, file: seq<nat>) {
    && multiset(out) == multiset(file)
    && (forall i, j :: 0 <= i < j < |out| ==> out[i] <= out[j])
  }

  /** Once all digits of max are used, the order is the order of the numbers. */
  lemma AllDigitsSort(out: seq<nat>, file: seq<nat>, max: nat)
    requires forall x :: x in file ==> x <= max
    requires StableSorted(out, InOrder(Distribute(file, 1)), Power(10, |DigitsOf(max)|))
    ensures SortedFile(out, file)
  {
    var k := |DigitsOf(max)|;
    DigitsEnough(max);
    InitialStable(file);
    StableIsPermutation(InOrder(Distribute(file, 1)), file, 10);
    StableIsPermutation(out, InOrder(Distribute(file, 1)), Power(10, k));
    forall i | 0 <= i < |out|
      ensures out[i] % Power(10, k) == out[i]
    {
      assert out[i] in multiset(out);
      assert out[i] in file;
      ModUnique(out[i], Power(10, k), 0, out[i]);
    }
    forall i, j | 0 <= i < j < |out|
      ensures out[i] <= out[j]
    {
      assert RestAtMost(out[i], out[j], Power(10, k));
    }
  }

  lemma {:induction false} RestCount(xs: seq<nat>, m: nat, v: nat, x: nat)
    requires m >= 1 && x % m == v
    ensures multiset(WithRest(xs, m, v))[x] == multiset(xs)[x]
  {
    if xs != [] {
      var ys, y := xs[..|xs| - 1], xs[|xs| - 1];
      assert xs == ys + [y];
      RestCount(ys, m, v, x);
      RestAppend(ys, y, m, v);
      assert y == x ==> y % m == v;
    }
  }

  lemma StableIsPermutation(xs: seq<nat>, input: seq<nat>, m: nat)
    requires m >= 1 && StableSorted(xs, input, m)
    ensures multiset(xs) == multiset(input)
  {
    forall x: nat
      ensures multiset(xs)[x] == multiset(input)[x]
    {
      RestCount(xs, m, x % m, x);
      RestCount(input, m, x % m, x);
      assert SameRest(xs, input, m, x % m);
    }
  }
}
