/** What the base-128 decoders make of arbitrary bytes, written out without a loop. */
module Base128Exact {
  import opened Base128
  import opened Common

  /** Byte `n` is the first without its top bit. */
  predicate EndsAt(s: seq<Byte>, n: nat) {
    n < |s| && s[n] < 128 && forall k | 0 <= k < n :: s[k] >= 128
  }

  /** The low seven bits of the first `n` bytes, lowest first. */
  function Groups(s: seq<Byte>, n: nat): nat
    requires n <= |s|
  {
    if n == 0 then 0 else Groups(s, n - 1) + s[n - 1] % 128 * Scale(n - 1)
  }

  lemma {:induction false} GroupsBound(s: seq<Byte>, n: nat)
    requires n <= |s|
    ensures Groups(s, n) < Scale(n)
  {
    if n > 0 {
      GroupsBound(s, n - 1);
      AtMost127(s[n - 1] % 128, Scale(n - 1));
    }
  }

  lemma AtMost127(d: nat, m: nat)
    requires d < 128
    ensures d * m <= 127 * m
  {
  }

  lemma NinthScale()
    ensures Scale(9) == 0x8000_0000_0000_0000
  {
    assert Scale(3) == 128 * Scale(2);
    assert Scale(6) == 128 * Scale(5);
    assert Scale(8) == 128 * Scale(7);
  }

  /** Adding group `k` to the `k` lower ones, in 64 bits. */
  lemma NextGroup(s: seq<Byte>, k: nat)
    requires k < 10 && k < |s|
    ensures (Groups(s, k) + s[k] % 128 * Scale(k) % WORD64) == Groups(s, k + 1) % WORD64
    ensures k < 9 ==> Groups(s, k + 1) % WORD64 == Groups(s, k + 1)
  {
    GroupsBound(s, k);
    GroupsBound(s, k + 1);
    NinthScale();
    ScaleGrows(k, 9);
    if k < 9 {
      ScaleGrows(k + 1, 9);
      assert s[k] % 128 * Scale(k) < WORD64;
    } else {
      LastGroupOf(s[k] % 128, Groups(s, k));
    }
  }

  lemma LastGroupOf(d: nat, low: nat)
    requires d < 128 && low < 0x8000_0000_0000_0000
    ensures low + d * 0x8000_0000_0000_0000 % WORD64 == (low + d * 0x8000_0000_0000_0000) % WORD64
  {
    assert d * 0x8000_0000_0000_0000 == WORD64 * (d / 2) + d % 2 * 0x8000_0000_0000_0000;
  }

  lemma {:induction false} DecodeFromAt(s: seq<Byte>, k: nat, n: nat)
    requires EndsAt(s, n) && k <= n && k <= 9
    ensures DecodeFrom(s[k..], k, Groups(s, k)) ==
      if n < 10 then Done(Groups(s, n + 1) % WORD64, s[n + 1..]) else Fail("varint overflow")
    decreases n - k
  {
    NextGroup(s, k);
    assert s[k..][0] == s[k] && s[k..][1..] == s[k + 1..];
    if k < n {
      if k < 9 { DecodeFromAt(s, k + 1, n); }
    }
  }

  /** The 64-bit decoder takes the bytes up to the first without its top bit, if that is among the first ten, and
   *  gives the number they stand for, modulo 2^64. */
  lemma DecodeAt(s: seq<Byte>, n: nat)
    requires EndsAt(s, n)
    ensures Decode(s) == if n < 10 then Done(Groups(s, n + 1) % WORD64, s[n + 1..]) else Fail("varint overflow")
  {
    DecodeFromAt(s, 0, n);
    assert s[0..] == s;
  }

  lemma {:induction false} DecodeFromEndless(s: seq<Byte>, k: nat, acc: nat)
    requires forall i | 0 <= i < |s| :: s[i] >= 128
    ensures DecodeFrom(s, k, acc).Fail?
    decreases |s|
  {
    if k < 10 && s != [] { DecodeFromEndless(s[1..], k + 1, acc + s[0] % 128 * Scale(k) % WORD64); }
  }

  lemma {:induction false} Decode32FromEndless(s: seq<Byte>, k: nat, acc: nat)
    requires forall i | 0 <= i < |s| :: s[i] >= 128
    ensures Decode32From(s, k, acc).Fail?
    decreases |s|
  {
    if s != [] {
      Decode32FromEndless(s[1..], k + 1, if k >= 5 then acc else acc + s[0] % 128 * Scale(k) % WORD32);
    }
  }

  /** Bytes that all have their top bit set are no number. */
  lemma NoEnd(s: seq<Byte>)
    requires forall i | 0 <= i < |s| :: s[i] >= 128
    ensures Decode(s).Fail? && Decode32(s).Fail?
  {
    DecodeFromEndless(s, 0, 0);
    if s != [] { Decode32FromEndless(s[1..], 1, s[0] % 128); }
  }

  // ---- The 32-bit decoder ----

  /** The first five groups, in 32 bits. */
  function Low32(s: seq<Byte>, n: nat): nat
    requires n < |s|
  {
    Groups(s, Min(n + 1, 5)) % WORD32
  }

  /** A byte behind the fifth is allowed: it adds nothing, or it extends the sign of a negative number. */
  predicate Extension(low: nat, k: nat, byte: Byte) {
    byte % 128 == 0 || (low >= 0x8000_0000 && byte == if k < 9 then 0xFF else 0x01)
  }

  predicate Extends(s: seq<Byte>, from: nat, n: nat, low: nat) {
    n < |s| && forall k | from <= k <= n :: Extension(low, k, s[k])
  }

  lemma NextGroup32(s: seq<Byte>, k: nat)
    requires k < 5 && k < |s|
    ensures (Groups(s, k) + s[k] % 128 * Scale(k) % WORD32) == Groups(s, k + 1) % WORD32
    ensures k < 4 ==> Groups(s, k + 1) % WORD32 == Groups(s, k + 1)
  {
    GroupsBound(s, k);
    GroupsBound(s, k + 1);
    ScaleValues();
    ScaleGrows(k, 4);
    if k < 4 {
      ScaleGrows(k + 1, 4);
      assert s[k] % 128 * Scale(k) < WORD32;
    } else {
      LastGroup32(s[k] % 128, Groups(s, k));
    }
  }

  lemma LastGroup32(d: nat, low: nat)
    requires d < 128 && low < 0x1000_0000
    ensures low + d * 0x1000_0000 % WORD32 == (low + d * 0x1000_0000) % WORD32
  {
    assert d * 0x1000_0000 == WORD32 * (d / 16) + d % 16 * 0x1000_0000;
  }

  lemma {:induction false} Decode32FromHigh(s: seq<Byte>, k: nat, n: nat, low: nat)
    requires EndsAt(s, n) && 5 <= k <= n
    ensures Decode32From(s[k..], k, low) ==
      if Extends(s, k, n, low) then Done(low, s[n + 1..]) else Fail("varint overflow")
    decreases n - k
  {
    assert s[k..][0] == s[k] && s[k..][1..] == s[k + 1..];
    if k < n { Decode32FromHigh(s, k + 1, n, low); }
    assert Extends(s, k, n, low) <==> Extension(low, k, s[k]) && (k < n ==> Extends(s, k + 1, n, low));
  }

  lemma {:induction false} Decode32FromLow(s: seq<Byte>, k: nat, n: nat)
    requires EndsAt(s, n) && 1 <= k <= n && k <= 4
    ensures Decode32From(s[k..], k, Groups(s, k)) ==
      if (n == 4 ==> s[4] < 16) && Extends(s, 5, n, Low32(s, n)) then Done(Low32(s, n), s[n + 1..])
      else Fail("varint overflow")
    decreases n - k
  {
    NextGroup32(s, k);
    assert s[k..][0] == s[k] && s[k..][1..] == s[k + 1..];
    if k < n {
      if k < 4 { Decode32FromLow(s, k + 1, n); } else { Decode32FromHigh(s, 5, n, Low32(s, n)); }
    }
  }

  /** The 32-bit decoder gives the first five groups modulo 2^32.  It refuses a number whose fifth and last byte has
   *  bits beyond the 32nd, and one with further bytes that neither are empty nor extend a sign. */
  lemma Decode32At(s: seq<Byte>, n: nat)
    requires EndsAt(s, n)
    ensures Decode32(s) ==
      if (n == 4 ==> s[4] < 16) && Extends(s, 5, n, Low32(s, n)) then Done(Low32(s, n), s[n + 1..])
      else Fail("varint overflow")
  {
    NextGroup32(s, 0);
    assert Scale(0) == 1 && Groups(s, 0) == 0;
    if n > 0 { Decode32FromLow(s, 1, n); }
  }
}
