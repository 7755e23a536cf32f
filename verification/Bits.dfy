/** Bitwise and on natural numbers, as far as rounding with a mask needs it. */
module Bits {

  function Pow2(k: nat): (r: nat)
    ensures r > 0
  {
    if k == 0 then 1 else 2 * Pow2(k - 1)
  }

  function And(a: nat, b: nat): nat {
    if a == 0 || b == 0 then 0
    else 2 * And(a / 2, b / 2) + (if a % 2 == 1 && b % 2 == 1 then 1 else 0)
  }

  lemma {:induction false} AndAtMost(a: nat, b: nat)
    ensures And(a, b) <= a && And(a, b) <= b
  {
    if a != 0 && b != 0 { AndAtMost(a / 2, b / 2); }
  }

  lemma {:induction false} AndSame(a: nat)
    ensures And(a, a) == a
  {
    if a != 0 { AndSame(a / 2); }
  }

  /** A mask and its complement split a number. */
  lemma {:induction false} AndComplement(x: nat, m: nat, k: nat)
    requires x < Pow2(k) && m < Pow2(k)
    ensures And(x, m) + And(x, Pow2(k) - 1 - m) == x
  {
    if k > 0 && x > 0 {
      var c := Pow2(k) - 1 - m;
      assert c / 2 == Pow2(k - 1) - 1 - m / 2 && c % 2 == 1 - m % 2;
      AndComplement(x / 2, m / 2, k - 1);
      AndHalves(x, m);
      AndHalves(x, c);
    }
  }

  lemma AndHalves(a: nat, b: nat)
    ensures And(a, b) == 2 * And(a / 2, b / 2) + (if a % 2 == 1 && b % 2 == 1 then 1 else 0)
  {
  }

  /** The low `k` bits are the remainder. */
  lemma {:induction false} AndLowBits(x: nat, k: nat)
    ensures And(x, Pow2(k) - 1) == x % Pow2(k)
  {
    if k > 0 {
      var p := Pow2(k - 1);
      AndHalves(x, 2 * p - 1);
      AndLowBits(x / 2, k - 1);
      assert (2 * p - 1) / 2 == p - 1;
      HalfRemainder(x, p);
    }
  }

  lemma HalfRemainder(x: nat, p: nat)
    requires p > 0
    ensures x % (2 * p) == 2 * ((x / 2) % p) + x % 2
  {
    var h := x / 2;
    assert x == 2 * p * (h / p) + (2 * (h % p) + x % 2);
    RemainderOf(x, 2 * p, h / p, 2 * (h % p) + x % 2);
  }

  lemma RemainderOf(x: nat, d: nat, q: nat, r: nat)
    requires 0 <= r < d && x == d * q + r
    ensures x % d == r
  {
    assert x == d * (x / d) + x % d;
    RemainderUnique(d, q, r, x / d, x % d);
  }

  lemma FloorIsMultiple(x: nat, d: nat)
    requires d > 0
    ensures (x - x % d) % d == 0
  {
    assert x - x % d == d * (x / d) + 0;
    RemainderOf(x - x % d, d, x / d, 0);
  }

  lemma RemainderUnique(d: nat, q: nat, r: nat, q': nat, r': nat)
    requires r < d && r' < d && d * q + r == d * q' + r'
    ensures q == q' && r == r'
  {
    if q > q' { Apart(d, q, q'); }
    if q < q' { Apart(d, q', q); }
  }

  lemma Apart(d: nat, a: nat, b: nat)
    requires a > b
    ensures d * a >= d * b + d
  {
    assert d * a == d * (b + 1) + d * (a - b - 1);
  }

  ghost predicate IsPow2(a: nat) {
    exists k: nat :: Pow2(k) == a
  }

  /** A positive number shares no bit with its predecessor exactly when it is a power of two. */
  lemma {:induction false} PredecessorBits(a: nat)
    requires a > 0
    ensures And(a, a - 1) == 0 <==> IsPow2(a)
  {
    AndHalves(a, a - 1);
    if a == 1 {
      assert Pow2(0) == 1;
    } else if a % 2 == 1 {
      AndSame(a / 2);
      assert (a - 1) / 2 == a / 2;
      forall k: nat ensures Pow2(k) != a { }
    } else {
      assert (a - 1) / 2 == a / 2 - 1;
      PredecessorBits(a / 2);
      if IsPow2(a / 2) {
        var k: nat :| Pow2(k) == a / 2;
        assert Pow2(k + 1) == a;
      }
      if IsPow2(a) {
        var k: nat :| Pow2(k) == a;
        assert Pow2(k - 1) == a / 2;
      }
    }
  }
}
