/** The quadratic-probing hash table of programming_pearls/hashTable.c: prime sizes,
    the probe sequence, and the entries it visits. */
module HashTable {
  import opened NumberTheory
  import opened Numerals

  const MODULUS: nat := 0x1_0000_0000   // unsigned int is 32 bits wide

  datatype Status = Empty | Legitimate | Deleted

  datatype Entry = Entry(value: nat, state: Status, repeat: int)

  // ---------- prime sizes ----------

  /** What isPrime answers: the primes, and everything below two. */
  ghost predicate Accepted(n: int) {
    n < 2 || Prime(n)
  }

  /** p is the least prime from n on. */
  ghost predicate LeastPrime(p: int, n: int) {
    Prime(p) && n <= p && forall m :: n <= m < p ==> !Prime(m)
  }

  method IsPrime(n: int) returns (r: bool)
    ensures r <==> Accepted(n)
  {
    var i := 2;
    while i * i <= n
      invariant i >= 2
      invariant forall d :: 2 <= d < i && n >= 2 ==> d < n && !Divides(d, n)
      decreases n - i
    {
      if n % i == 0 {
        assert Divides(i, n);
        return false;
      }
      i := i + 1;
    }
    if n >= 2 {
      NoSmallDivisor(n, i);
    }
    return true;
  }

  // A divisor d of n at or above the root pairs with n / d below it.
  lemma NoSmallDivisor(n: int, i: int)
    requires n >= 2 && i >= 2 && i * i > n
    requires forall d :: 2 <= d < i ==> d < n ==> !Divides(d, n)
    ensures Prime(n)
  {
    forall d | 2 <= d < n
      ensures !Divides(d, n)
    {
      if d >= i && Divides(d, n) {
        var e := n / d;
        DividesBound(d, n);
        assert e >= i ==> d * e >= i * i by { MulMonotone(i, d, i, e); }
        assert e != 1;
        MultipleDivides(e, d);
      }
    }
  }

  lemma MulMonotone(a: int, b: int, c: int, d: int)
    ensures 0 <= a <= b && 0 <= c <= d ==> a * c <= b * d
  {
    if 0 <= a <= b && 0 <= c <= d {
      assert a * c <= b * c <= b * d;
    }
  }

  /** The least number from `size` on that isPrime accepts; it always exists. */
  method NextPrime(size: int) returns (p: int)
    ensures p >= size && Accepted(p)
    ensures forall m :: size <= m < p ==> !Accepted(m)
  {
    ghost var bound := PrimeAbove(if size < 0 then 0 else size);
    p := size;
    var found := IsPrime(p);
    while !found
      invariant size <= p <= bound
      invariant found <==> Accepted(p)
      invariant forall m :: size <= m < p ==> !Accepted(m)
      decreases bound - p
    {
      p := p + 1;
      found := IsPrime(p);
    }
  }

  /** A table is rehashed at the insert that fills half of it, and its `filled` values then
      go one by one into a table of the least accepted size from the double on.  The last of
      those inserts leaves less than half of the new table filled if and only if the old
      size is at least 2; otherwise it rehashes the new table in turn, and rehash, which
      drops its result, goes on with a table that has been freed. */
  lemma RehashFitsIff(size: nat, filled: nat, next: int)
    requires size >= 1 && filled >= 1 && size / 2 <= filled && (filled > 1 ==> filled - 1 < size / 2)
    requires next >= 2 * size && Accepted(next) && forall m :: 2 * size <= m < next ==> !Accepted(m)
    ensures filled < next / 2 <==> size >= 2
  {
    if size == 1 {
      assert filled == 1;
      assert Accepted(2);
      assert next == 2;
    }
  }

  // ---------- the probe sequence ----------

  function HashFrom(hash: nat, value: nat): (h: nat)
    decreases value
  {
    if value == 0 then hash else HashFrom((hash * 32 + value % 10) % MODULUS, value / 10)
  }

  function Hash(value: nat, size: nat): (h: nat)
    requires size > 0
    ensures h < size
  {
    HashFrom(0, value) % size
  }

  /** The decimal digits of the value, the last one first, read as a numeral of base 32,
      modulo 2^32 and then the size. */
  lemma HashIsPositional(value: nat, size: nat)
    requires size > 0
    ensures Hash(value, size) == Places(DigitsOf(value), 32) % 0x1_0000_0000 % size
  {
    HashFromPlaces(0, value);
  }

  lemma {:induction false} HashFromPlaces(hash: nat, value: nat)
    requires hash < MODULUS
    ensures HashFrom(hash, value) == (hash * Power(32, |DigitsOf(value)|) + Places(DigitsOf(value), 32)) % MODULUS
    decreases value
  {
    if value > 0 {
      var d, ds := value % 10, DigitsOf(value / 10);
      assert DigitsOf(value)[1..] == ds;
      HashFromPlaces((hash * 32 + d) % MODULUS, value / 10);
      OneMoreDigit(hash, d, Power(32, |ds|), Places(ds, 32), MODULUS);
    }
  }

  lemma OneMoreDigit(hash: nat, d: nat, p: nat, rest: nat, m: nat)
    requires m > 0
    ensures ((hash * 32 + d) % m * p + rest) % m == (hash * (32 * p) + (d * p + rest)) % m
  {
    ReduceFirst(hash * 32 + d, p, rest, m);
    assert (hash * 32 + d) * p == hash * (32 * p) + d * p;
  }

  lemma ReduceFirst(a: nat, p: nat, b: nat, m: nat)
    requires m > 0
    ensures (a % m * p + b) % m == (a * p + b) % m
  {
    var q := a / m;
    assert a == m * q + a % m;
    assert a * p == m * (q * p) + a % m * p;
    ModShift(a % m * p + b, m, q * p);
  }

  method ComputeHash(value: nat, size: nat) returns (h: nat)
    requires size > 0
    ensures h == Hash(value, size) && h < size
  {
    var hashValue: nat := 0;
    var v: nat := value;
    while v != 0
      decreases v
      invariant HashFrom(hashValue, v) == HashFrom(0, value)
    {
      hashValue := (hashValue * 32 + v % 10) % MODULUS;
      v := v / 10;
    }
    h := hashValue % size;
  }

  /** The slot looked at after k collisions. */
  function Probe(h: nat, k: nat, size: nat): (pos: nat)
    requires size > 0
    ensures pos < size
  {
    (h + k * k) % size
  }

  lemma ProbeStart(h: nat, size: nat)
    requires h < size
    ensures Probe(h, 0, size) == h
  {
  }

  /** One addition and one conditional subtraction reach the next slot. */
  lemma ProbeNext(h: nat, k: nat, size: nat)
    requires size > 0 && 2 * k + 1 <= size
    ensures var next := Probe(h, k, size) + (2 * (k + 1) - 1);
      Probe(h, k + 1, size) == if next >= size then next - size else next
  {
    var a, step := h + k * k, 2 * k + 1;
    assert h + (k + 1) * (k + 1) == a + step;
    ModAddLeft(a, step, size);
    WrapOnce(a % size + step, size);
  }

  lemma WrapOnce(n: nat, size: nat)
    requires size > 0 && n < 2 * size
    ensures n % size == if n >= size then n - size else n
  {
    if n >= size {
      ModUnique(n, size, 1, n - size);
    }
  }

  /** Squares up to half a prime are distinct modulo it. */
  lemma ProbesDistinct(h: nat, i: nat, j: nat, size: nat)
    requires Prime(size) && i < j <= size / 2
    ensures Probe(h, i, size) != Probe(h, j, size)
  {
    if Probe(h, i, size) == Probe(h, j, size) {
      CongruentIffDivides(h + j * j, h + i * i, size);
      assert h + j * j - (h + i * i) == (j + i) * (j - i);
      EuclidLemma(size, j + i, j - i);
      if Divides(size, j + i) {
        DividesBound(size, j + i);
      } else {
        DividesBound(size, j - i);
      }
    }
  }

  ghost function ProbeSet(h: nat, k: nat, size: nat): (s: set<nat>)
    requires size > 0
  {
    set j | 0 <= j < k :: Probe(h, j, size)
  }

  lemma {:induction false} ProbeSetSize(h: nat, k: nat, size: nat)
    requires Prime(size) && k <= size / 2 + 1
    ensures |ProbeSet(h, k, size)| == k
  {
    if k == 0 {
      assert ProbeSet(h, 0, size) == {};
    } else {
      ProbeSetSize(h, k - 1, size);
      ProbeSetNext(h, k - 1, size);
    }
  }

  lemma ProbeSetNext(h: nat, k: nat, size: nat)
    requires Prime(size) && k <= size / 2
    ensures Probe(h, k, size) !in ProbeSet(h, k, size)
    ensures ProbeSet(h, k + 1, size) == ProbeSet(h, k, size) + {Probe(h, k, size)}
  {
    forall j | 0 <= j < k
      ensures Probe(h, j, size) != Probe(h, k, size)
    {
      ProbesDistinct(h, j, k, size);
    }
  }

  // ---------- entries ----------

  ghost function Occupied(es: seq<Entry>): (s: set<int>) {
    set i | 0 <= i < |es| && !es[i].state.Empty?
  }

  /** The first k slots of value v's probe sequence hold other values. */
  ghost predicate Passes(es: seq<Entry>, v: nat, k: nat)
    requires |es| > 0
  {
    forall j :: 0 <= j < k ==> PassesAt(es, v, j)
  }

  ghost predicate PassesAt(es: seq<Entry>, v: nat, j: nat)
    requires |es| > 0
  {
    var e := es[Probe(Hash(v, |es|), j, |es|)];
    !e.state.Empty? && e.value != v
  }

  /** The loop of find stops after exactly k collisions. */
  ghost predicate StopsAt(es: seq<Entry>, v: nat, k: nat)
    requires |es| > 0
  {
    Passes(es, v, k) && !PassesAt(es, v, k)
  }

  /** Every slot a search has passed is a different occupied one. */
  lemma PassesBound(es: seq<Entry>, v: nat, k: nat)
    requires Prime(|es|) && Passes(es, v, k) && k <= |es| / 2 + 1
    ensures k <= |Occupied(es)|
  {
    var h := Hash(v, |es|);
    var s := ProbeSet(h, k, |es|);
    ProbeSetSize(h, k, |es|);
    assert s <= Occupied(es) by {
      forall x | x in s
        ensures x in Occupied(es)
      {
        var j :| 0 <= j < k && x == Probe(h, j, |es|);
        assert PassesAt(es, v, j);
      }
    }
    SubsetSize(s, Occupied(es));
  }

  lemma {:induction false} SubsetSize(a: set<int>, b: set<int>)
    requires a <= b
    ensures |a| <= |b|
  {
    assert b == a + (b - a);
  }

  /** Sizes, load and placement: what every reachable table keeps. */
  ghost predicate Sound(es: seq<Entry>, filled: int) {
    && Prime(|es|)
    && filled == |Occupied(es)|
    && (forall i :: 0 <= i < |es| ==> !es[i].state.Deleted? && (es[i].state.Empty? ==> es[i].repeat == 0))
    && (forall i {:trigger Reachable(es, i)} :: 0 <= i < |es| && es[i].state.Legitimate? ==> Reachable(es, i))
  }

  /** Slot i is where the search for its own value stops. */
  ghost predicate Reachable(es: seq<Entry>, i: nat)
    requires i < |es|
  {
    exists k :: 0 <= k && StopsAt(es, es[i].value, k) && Probe(Hash(es[i].value, |es|), k, |es|) == i
  }

  /** The table as a map from value to total repeat count. */
  ghost predicate Represents(es: seq<Entry>, m: map<nat, int>) {
    && (forall i :: 0 <= i < |es| && es[i].state.Legitimate? ==> es[i].value in m && m[es[i].value] == es[i].repeat)
    && (forall v :: v in m ==> exists i :: 0 <= i < |es| && es[i].state.Legitimate? && es[i].value == v)
  }

  /** Where the search stops tells whether the value is present. */
  lemma StopMeaning(es: seq<Entry>, filled: int, m: map<nat, int>, v: nat, k: nat)
    requires Sound(es, filled) && Represents(es, m) && StopsAt(es, v, k)
    ensures var e := es[Probe(Hash(v, |es|), k, |es|)];
      if v in m then e.state.Legitimate? && e.value == v && e.repeat == m[v] else e.state.Empty?
  {
    if v in m {
      var i :| 0 <= i < |es| && es[i].state.Legitimate? && es[i].value == v;
      assert Reachable(es, i);
      var k' :| 0 <= k' && StopsAt(es, v, k') && Probe(Hash(v, |es|), k', |es|) == i;
    } else {
      assert !PassesAt(es, v, k);
    }
  }

  /** Filling the slot where the search for v stopped. */
  function Place(es: seq<Entry>, pos: nat, v: nat, repeat: int): (r: seq<Entry>)
    requires pos < |es|
  {
    es[pos := Entry(v, Legitimate, es[pos].repeat + repeat)]
  }

  lemma PassesKept(es: seq<Entry>, pos: nat, v: nat, repeat: int, u: nat, k: nat)
    requires pos < |es| && es[pos].state.Empty? && Passes(es, u, k)
    ensures Passes(Place(es, pos, v, repeat), u, k)
  {
    var es' := Place(es, pos, v, repeat);
    forall j | 0 <= j < k
      ensures PassesAt(es', u, j)
    {
      assert PassesAt(es, u, j);
    }
  }

  lemma PlaceReachable(es: seq<Entry>, filled: int, v: nat, k: nat, repeat: int, i: nat)
    requires Sound(es, filled) && StopsAt(es, v, k)
    requires var pos := Probe(Hash(v, |es|), k, |es|);
      es[pos].state.Empty? && i < |es| && Place(es, pos, v, repeat)[i].state.Legitimate?
    ensures Reachable(Place(es, Probe(Hash(v, |es|), k, |es|), v, repeat), i)
  {
    var pos := Probe(Hash(v, |es|), k, |es|);
    var es' := Place(es, pos, v, repeat);
    if i == pos {
      PassesKept(es, pos, v, repeat, v, k);
      assert StopsAt(es', v, k);
    } else {
      assert Reachable(es, i);
      var u := es[i].value;
      var k' :| 0 <= k' && StopsAt(es, u, k') && Probe(Hash(u, |es|), k', |es|) == i;
      PassesKept(es, pos, v, repeat, u, k');
      assert StopsAt(es', u, k');
    }
  }

  /** Filling an empty slot keeps the table sound and adds one occupied slot. */
  lemma PlaceSound(es: seq<Entry>, filled: int, v: nat, k: nat, repeat: int)
    requires Sound(es, filled) && StopsAt(es, v, k)
    requires es[Probe(Hash(v, |es|), k, |es|)].state.Empty?
    ensures Sound(Place(es, Probe(Hash(v, |es|), k, |es|), v, repeat), filled + 1)
  {
    var pos := Probe(Hash(v, |es|), k, |es|);
    var es' := Place(es, pos, v, repeat);
    assert Occupied(es') == Occupied(es) + {pos};
    forall i | 0 <= i < |es'| && es'[i].state.Legitimate?
      ensures Reachable(es', i)
    {
      PlaceReachable(es, filled, v, k, repeat, i);
    }
  }

  /** Adding to a present value changes no search. */
  lemma AddSound(es: seq<Entry>, filled: int, pos: nat, repeat: int)
    requires Sound(es, filled) && pos < |es| && es[pos].state.Legitimate?
    ensures Sound(Place(es, pos, es[pos].value, repeat), filled)
  {
    var es' := Place(es, pos, es[pos].value, repeat);
    assert Occupied(es') == Occupied(es);
    forall i | 0 <= i < |es'| && es'[i].state.Legitimate?
      ensures Reachable(es', i)
    {
      assert Reachable(es, i);
      var u := es[i].value;
      var k :| 0 <= k && StopsAt(es, u, k) && Probe(Hash(u, |es|), k, |es|) == i;
      forall j | 0 <= j <= k
        ensures PassesAt(es', u, j) == PassesAt(es, u, j)
      {
      }
      assert StopsAt(es', u, k);
    }
  }

  /** The map after `repeat` more occurrences of v. */
  function Added(m: map<nat, int>, v: nat, repeat: int): (r: map<nat, int>) {
    m[v := (if v in m then m[v] else 0) + repeat]
  }

  lemma PlaceRepresents(es: seq<Entry>, filled: int, m: map<nat, int>, v: nat, k: nat, repeat: int)
    requires Sound(es, filled) && Represents(es, m) && StopsAt(es, v, k)
    ensures Represents(Place(es, Probe(Hash(v, |es|), k, |es|), v, repeat), Added(m, v, repeat))
  {
    var pos := Probe(Hash(v, |es|), k, |es|);
    var es' := Place(es, pos, v, repeat);
    var m' := Added(m, v, repeat);
    StopMeaning(es, filled, m, v, k);
    forall i | 0 <= i < |es'| && es'[i].state.Legitimate?
      ensures es'[i].value in m' && m'[es'[i].value] == es'[i].repeat
    {
      if i != pos {
        OnePlace(es, filled, i, pos);
      }
    }
    forall u | u in m'
      ensures exists i :: 0 <= i < |es'| && es'[i].state.Legitimate? && es'[i].value == u
    {
      if u == v {
        assert es'[pos].value == v;
      } else {
        var i :| 0 <= i < |es| && es[i].state.Legitimate? && es[i].value == u;
        assert i != pos;
        assert es'[i].value == u;
      }
    }
  }

  /** A value occupies at most one slot. */
  lemma OnePlace(es: seq<Entry>, filled: int, i: nat, j: nat)
    requires Sound(es, filled) && i < |es| && j < |es|
    ensures es[i].state.Legitimate? && es[j].state.Legitimate? && es[i].value == es[j].value ==> i == j
  {
    if es[i].state.Legitimate? && es[j].state.Legitimate? && es[i].value == es[j].value {
      assert Reachable(es, i) && Reachable(es, j);
      var v := es[i].value;
      var k :| 0 <= k && StopsAt(es, v, k) && Probe(Hash(v, |es|), k, |es|) == i;
      var k' :| 0 <= k' && StopsAt(es, v, k') && Probe(Hash(v, |es|), k', |es|) == j;
    }
  }
}
