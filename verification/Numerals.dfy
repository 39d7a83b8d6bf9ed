/** Powers, the decimal digits of a number, and what a row of digits is worth. */
module Numerals {
  import opened NumberTheory

  function Power(b: nat, k: nat): (p: nat)
    ensures b >= 1 ==> p >= 1
  {
    if k == 0 then 1 else b * Power(b, k - 1)
  }

  /** The decimal digits of n, the last one first. */
  function DigitsOf(n: nat): (ds: seq<nat>)
    ensures forall i :: 0 <= i < |ds| ==> ds[i] < 10
  {
    if n == 0 then [] else [n % 10] + DigitsOf(n / 10)
  }

  /** Every digit times the power of the base that its place stands for, the first digit in
      the highest place. */
  function Places(ds: seq<nat>, base: nat): (v: nat) {
    if ds == [] then 0 else ds[0] * Power(base, |ds| - 1) + Places(ds[1..], base)
  }

  lemma {:induction false} DigitAt(n: nat, i: nat)
    requires i < |DigitsOf(n)|
    ensures DigitsOf(n)[i] == n / Power(10, i) % 10
    decreases i
  {
    if i > 0 {
      DigitAt(n / 10, i - 1);
      DropDigit(n, Power(10, i - 1));
    }
  }

  /** There are digits up to the last one that counts. */
  lemma {:induction false} DigitsEnough(n: nat)
    ensures n < Power(10, |DigitsOf(n)|)
    ensures n > 0 ==> Power(10, |DigitsOf(n)| - 1) <= n
  {
    if n > 0 {
      DigitsEnough(n / 10);
    }
  }

  lemma DropDigit(n: nat, p: nat)
    requires p > 0
    ensures n / (10 * p) == n / 10 / p
  {
    var x := n / 10;
    TenTimes(p, x / p);
    assert x == p * (x / p) + x % p;
    ModUnique(n, 10 * p, x / p, 10 * (x % p) + n % 10);
  }

  lemma TenTimes(p: nat, q: nat)
    ensures 10 * p * q == 10 * (p * q)
  {
  }

  /** A digit more on the right multiplies the rest by the base. */
  lemma {:induction false} PlacesAppend(ds: seq<nat>, d: nat, base: nat)
    ensures Places(ds + [d], base) == base * Places(ds, base) + d
  {
    if ds == [] {
      assert [] + [d] == [d] && [d][1..] == [];
    } else {
      assert (ds + [d])[1..] == ds[1..] + [d];
      PlacesAppend(ds[1..], d, base);
      Scale(base, ds[0], Power(base, |ds| - 1), Places(ds[1..], base));
    }
  }

  lemma Scale(base: nat, d: nat, p: nat, v: nat)
    ensures d * (base * p) + base * v == base * (d * p + v)
  {
    assert base * (d * p + v) == base * (d * p) + base * v;
    assert base * (d * p) == d * (base * p);
  }

  function Reversed(ds: seq<nat>): (r: seq<nat>)
    ensures |r| == |ds| && forall i :: 0 <= i < |ds| ==> r[i] == ds[|ds| - 1 - i]
  {
    if ds == [] then [] else Reversed(ds[1..]) + [ds[0]]
  }

  /** The digits of a number, read from the left, are worth the number. */
  lemma {:induction false} NumeralIsNumber(n: nat)
    ensures Places(Reversed(DigitsOf(n)), 10) == n
  {
    if n > 0 {
      assert DigitsOf(n)[1..] == DigitsOf(n / 10);
      NumeralIsNumber(n / 10);
      PlacesAppend(Reversed(DigitsOf(n / 10)), n % 10, 10);
    }
  }
}
