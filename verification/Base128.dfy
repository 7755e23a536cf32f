/** Base-128 integers as nanopb reads and writes them.
 *
 *  The reference is the plain loop of the Protocol Buffers encoding: seven bits a byte, lowest first, the top
 *  bit set on all bytes but the last.  The encoder works on two 32-bit halves instead; the decoders come for 64
 *  and for 32 bits.
 */
module Base128 {

  type Byte = b: int | 0 <= b < 256

  const WORD32 := 0x1_0000_0000
  const WORD64 := 0x1_0000_0000_0000_0000

  datatype Parsed<T> = Done(value: T, rest: seq<Byte>) | Fail(error: string)

  function Varint(v: nat): (r: seq<Byte>)
    ensures r != []
  {
    if v < 128 then [v] else [v % 128 + 128] + Varint(v / 128)
  }

  /** 128 to the power of `k`. */
  function Scale(k: nat): (r: nat)
    ensures r > 0
  {
    if k == 0 then 1 else 128 * Scale(k - 1)
  }

  lemma ScaleValues()
    ensures Scale(4) == 0x1000_0000 && Scale(5) == 0x8_0000_0000
    ensures Scale(9) == 0x8000_0000_0000_0000 && 2 * Scale(9) == WORD64
  {
    assert Scale(3) == 0x20_0000;
    assert Scale(7) == 128 * Scale(6);
  }

  // ---- The split-word encoder ----

  /** 2^32 shifted by `7 * i` bits: the bound of the low part when `i` bytes are out, and the weight of the high
   *  part. */
  function Weight(i: nat): nat {
    if i == 0 then WORD32 else if i == 1 then 0x200_0000 else if i == 2 then 0x4_0000 else if i == 3 then 0x800
        else 0x10
  }

  function HighBound(i: nat): nat {
    if i == 4 then 0x2000_0000 else if i == 5 then 0x40_0000 else if i == 6 then 0x8000 else if i == 7 then 0x100
        else if i == 8 then 2 else 1
  }

  /** Writes the 64-bit number with the given halves; never more than ten bytes. */
  method EncodeVarint32(low0: nat, high0: nat) returns (out: seq<Byte>)
    requires low0 < WORD32 && high0 < WORD32
    ensures out == Varint(low0 + high0 * WORD32) && |out| <= 10
  {
    hide Varint, HighBound, Weight;
    var buffer := new Byte[10];
    var low, high, byte: Byte := low0 / 128, high0, low0 % 128;
    var i: nat := 0;
    Start(low0, high0);
    while i < 4 && (low != 0 || high != 0)
      invariant i <= 4 && low >= 0 && byte < 128 && byte + 128 * low < Weight(i)
      invariant buffer[..i] + Varint(byte + 128 * low + high * Weight(i)) == Varint(low0 + high0 * WORD32)
      invariant high == high0
      decreases 4 - i
    {
      LowStep(byte, low, high, i);
      Append(buffer, i, byte + 128);
      i, byte, low := i + 1, low % 128, low / 128;
    }
    LowDone(byte, low, high, i);
    if high != 0 {
      byte, high := byte + high % 8 * 16, high / 8;
      while high != 0
        invariant 4 <= i <= 9 && byte < 128 && 0 <= high < HighBound(i)
        invariant buffer[..i] + Varint(byte + 128 * high) == Varint(low0 + high0 * WORD32)
        decreases high
      {
        HighStep(byte, high, i);
        Append(buffer, i, byte + 128);
        i, byte, high := i + 1, high % 128, high / 128;
      }
    }
    LastByte(byte);
    Append(buffer, i, byte);
    out := buffer[..i + 1];
  }

  method Append(buffer: array<Byte>, i: nat, b: Byte)
    requires i < buffer.Length
    modifies buffer
    ensures buffer[..i + 1] == old(buffer[..i]) + [b]
  {
    buffer[i] := b;
  }

  lemma Start(low0: nat, high0: nat)
    requires low0 < WORD32
    ensures low0 % 128 + 128 * (low0 / 128) < Weight(0)
    ensures low0 % 128 + 128 * (low0 / 128) + high0 * Weight(0) == low0 + high0 * WORD32
  {
  }

  lemma LowDone(byte: nat, low: nat, high: nat, i: nat)
    requires byte < 128 && byte + 128 * low < Weight(i) && high < WORD32 && i <= 4
    requires i == 4 || (low == 0 && high == 0)
    ensures low == 0
    ensures high == 0 ==> byte + 128 * low + high * Weight(i) == byte
    ensures high != 0 ==>
      && byte + high % 8 * 16 < 128 && high / 8 < HighBound(4) && i == 4
      && byte + 128 * low + high * Weight(i) == byte + high % 8 * 16 + 128 * (high / 8)
  {
  }

  lemma HighStep(byte: nat, high: nat, i: nat)
    requires byte < 128 && 0 < high < HighBound(i) && 4 <= i <= 9
    ensures i < 9 && high / 128 < HighBound(i + 1)
    ensures Varint(byte + 128 * high) == [byte + 128] + Varint(high % 128 + 128 * (high / 128))
  {
    OneByte(byte, high);
  }

  lemma LastByte(byte: nat)
    requires byte < 128
    ensures Varint(byte) == [byte]
  {
  }

  lemma OneByte(byte: nat, rest: nat)
    requires byte < 128 && rest > 0
    ensures Varint(byte + 128 * rest) == [byte + 128] + Varint(rest)
  {
    assert (byte + 128 * rest) % 128 == byte && (byte + 128 * rest) / 128 == rest;
  }

  lemma LowStep(byte: nat, low: nat, high: nat, i: nat)
    requires i < 4 && byte < 128 && (low != 0 || high != 0) && byte + 128 * low < Weight(i)
    ensures low % 128 + 128 * (low / 128) < Weight(i + 1)
    ensures Varint(byte + 128 * low + high * Weight(i))
        == [byte + 128] + Varint(low % 128 + 128 * (low / 128) + high * Weight(i + 1))
  {
    assert high * Weight(i) == 128 * (high * Weight(i + 1));
    OneByte(byte, low + high * Weight(i + 1));
  }

  /** The entry point: one byte at once, everything else in halves. */
  method EncodeVarint(v: nat) returns (out: seq<Byte>)
    requires v < WORD64
    ensures out == Varint(v) && |out| <= 10
  {
    if v <= 0x7F {
      out := [v];
    } else {
      out := EncodeVarint32(v % WORD32, v / WORD32);
    }
  }

  // ---- The 64-bit decoder ----

  /** The loop of the decoder from byte `k` on; shifting drops what exceeds 64 bits. */
  function DecodeFrom(s: seq<Byte>, k: nat, acc: nat): (r: Parsed<nat>)
    ensures r.Done? ==> |r.rest| < |s|
    decreases |s|
  {
    if k >= 10 then Fail("varint overflow")
    else if s == [] then Fail("end-of-stream")
    else
      var r := acc + s[0] % 128 * Scale(k) % WORD64;
      if s[0] >= 128 then DecodeFrom(s[1..], k + 1, r) else Done(r, s[1..])
  }

  function Decode(s: seq<Byte>): (r: Parsed<nat>)
    ensures r.Done? ==> |r.rest| < |s|
  {
    DecodeFrom(s, 0, 0)
  }

  lemma {:induction false} ScaleGrows(j: nat, k: nat)
    requires j <= k
    ensures Scale(j) <= Scale(k)
  {
    if j < k { ScaleGrows(j, k - 1); }
  }

  lemma EleventhByte(v: nat, k: nat)
    requires v > 0 && k >= 10
    ensures v * Scale(k) >= WORD64
  {
    ScaleValues();
    ScaleGrows(10, k);
    assert Scale(10) == 128 * Scale(9);
    AtLeast(v, Scale(k));
  }

  lemma AtLeast(v: nat, m: nat)
    requires v > 0
    ensures v * m >= m
  {
  }

  /** A number that fits into 64 bits has no eleventh byte. */
  lemma TenBytes(v: nat, k: nat)
    requires v > 0 && v * Scale(k) < WORD64
    ensures k < 10
  {
    if k >= 10 { EleventhByte(v, k); }
  }

  lemma DecodeStep(v: nat, k: nat, acc: nat, rest: seq<Byte>)
    requires k < 10
    ensures DecodeFrom(Varint(v) + rest, k, acc) ==
      if v >= 128 then DecodeFrom(Varint(v / 128) + rest, k + 1, acc + v % 128 * Scale(k) % WORD64)
      else Done(acc + v * Scale(k) % WORD64, rest)
  {
    Shape(v, rest);
    if v < 128 { HighBits(v); }
    hide Varint, Scale;
  }

  lemma {:induction false} DecodeFromInverts(v: nat, k: nat, acc: nat, rest: seq<Byte>)
    requires acc + v * Scale(k) < WORD64 && (v > 0 || k == 0)
    ensures DecodeFrom(Varint(v) + rest, k, acc) == Done(acc + v * Scale(k), rest)
    decreases v
  {
    var m := Scale(k);
    if v > 0 { TenBytes(v, k); }
    DecodeStep(v, k, acc, rest);
    assert Scale(k + 1) == 128 * m;
    hide Varint, Scale, DecodeFrom;
    if v < 128 {
      Fits(v * m);
    } else {
      Digits(v, m);
      Fits(v % 128 * m);
      var acc' := acc + v % 128 * m;
      assert acc' + v / 128 * (128 * m) == acc + v * m;
      DecodeFromInverts(v / 128, k + 1, acc', rest);
    }
  }

  lemma Fits(x: nat)
    requires x < WORD64
    ensures x % WORD64 == x
  {
  }

  lemma Digits(v: nat, m: nat)
    ensures v * m == v % 128 * m + v / 128 * (128 * m)
    ensures 0 <= v % 128 * m <= v * m
  {
    assert v == v % 128 + 128 * (v / 128);
    assert v * m == (v % 128 + 128 * (v / 128)) * m;
    assert 128 * (v / 128) * m == v / 128 * (128 * m);
  }

  /** Every 64-bit number comes back, and exactly its bytes are consumed. */
  lemma DecodeInverts(v: nat, rest: seq<Byte>)
    requires v < WORD64
    ensures Decode(Varint(v) + rest) == Done(v, rest)
  {
    DecodeFromInverts(v, 0, 0, rest);
  }

  /** Whatever the bytes, the result fits into 64 bits. */
  lemma {:induction false} DecodeBounded(s: seq<Byte>, k: nat, acc: nat)
    requires k < 10 ==> acc < Scale(k)
    ensures DecodeFrom(s, k, acc).Done? ==> DecodeFrom(s, k, acc).value < WORD64
    decreases |s|
  {
    if k < 10 && s != [] {
      var d := s[0] % 128;
      var r := acc + d * Scale(k) % WORD64;
      NextAcc(d, k, acc);
      if s[0] >= 128 { DecodeBounded(s[1..], k + 1, r); }
    }
  }

  lemma NextAcc(d: nat, k: nat, acc: nat)
    requires d < 128 && k < 10 && acc < Scale(k)
    ensures var r := acc + d * Scale(k) % WORD64; r < WORD64 && (k < 9 ==> r < Scale(k + 1))
  {
    ScaleValues();
    if k == 9 {
      LastGroup(d, acc);
    } else {
      GroupBound(acc, d, Scale(k));
      assert Scale(k + 1) == 128 * Scale(k);
      ScaleGrows(k + 1, 9);
      Fits(d * Scale(k));
    }
  }

  lemma LastGroup(d: nat, acc: nat)
    requires d < 128 && acc < 0x8000_0000_0000_0000
    ensures acc + d * 0x8000_0000_0000_0000 % WORD64 < WORD64
  {
    assert d * 0x8000_0000_0000_0000 == d % 2 * 0x8000_0000_0000_0000 + d / 2 * WORD64;
    assert d * 0x8000_0000_0000_0000 % WORD64 == d % 2 * 0x8000_0000_0000_0000;
  }

  // ---- The 32-bit decoder ----

  const BIT31 := 0x8000_0000

  /** What a byte beyond the 32nd bit must be for a negative number. */
  function SignByte(k: nat): nat {
    if k < 9 then 0xFF else 0x01
  }

  /** The loop of the 32-bit decoder from byte `k` on. */
  function Decode32From(s: seq<Byte>, k: nat, acc: nat): (r: Parsed<nat>)
    ensures r.Done? ==> |r.rest| < |s|
    decreases |s|
  {
    if s == [] then Fail("end-of-stream")
    else if k >= 5 && s[0] % 128 != 0 && (acc < BIT31 || s[0] != SignByte(k)) then Fail("varint overflow")
    else
      var r := if k >= 5 then acc else acc + s[0] % 128 * Scale(k) % WORD32;
      if s[0] >= 128 then Decode32From(s[1..], k + 1, r)
      else if k == 4 && s[0] / 16 % 8 != 0 then Fail("varint overflow")
      else Done(r, s[1..])
  }

  function Decode32(s: seq<Byte>): (r: Parsed<nat>)
    ensures r.Done? ==> |r.rest| < |s|
  {
    if s == [] then Fail("end-of-stream")
    else if s[0] < 128 then Done(s[0], s[1..])
    else Decode32From(s[1..], 1, s[0] % 128)
  }

  lemma SmallScales(k: nat)
    requires k <= 5
    ensures Scale(k) == if k == 0 then 1 else if k == 1 then 128 else if k == 2 then 0x4000 else if k == 3
        then 0x20_0000 else if k == 4 then 0x1000_0000 else 0x8_0000_0000
  {
    ScaleValues();
    assert Scale(1) == 128 * Scale(0);
    assert Scale(2) == 128 * Scale(1);
    assert Scale(3) == 128 * Scale(2);
  }

  /** The first byte of a number, and what follows it. */
  lemma Shape(r: nat, rest: seq<Byte>)
    ensures var s := Varint(r) + rest;
      && s != []
      && (r < 128 ==> s[0] == r && s[1..] == rest)
      && (r >= 128 ==> s[0] == r % 128 + 128 && s[0] % 128 == r % 128 && s[1..] == Varint(r / 128) + rest)
  {
    if r < 128 {
      assert Varint(r) == [r] + [];
      HeadTail(r, [], rest);
    } else {
      assert Varint(r) == [r % 128 + 128] + Varint(r / 128);
      HeadTail(r % 128 + 128, Varint(r / 128), rest);
      TopBit(r % 128);
    }
  }

  lemma HeadTail(b: Byte, s: seq<Byte>, rest: seq<Byte>)
    ensures ([b] + s + rest)[0] == b && ([b] + s + rest)[1..] == s + rest
  {
  }

  lemma TopBit(d: nat)
    requires d < 128
    ensures (d + 128) % 128 == d
  {
  }

  lemma HighBits(r: nat)
    requires r < 128
    ensures r % 128 == r && (r / 16 % 8 != 0 <==> r >= 16)
  {
  }

  /** One group of the first five. */
  lemma LowGroup(r: nat, k: nat, acc: nat, rest: seq<Byte>)
    requires 1 <= k <= 4
    ensures Decode32From(Varint(r) + rest, k, acc) ==
      if r >= 128 then Decode32From(Varint(r / 128) + rest, k + 1, acc + r % 128 * Scale(k) % WORD32)
      else if k == 4 && r >= 16 then Fail("varint overflow")
      else Done(acc + r * Scale(k) % WORD32, rest)
  {
    Shape(r, rest);
    if r < 128 { HighBits(r); }
    hide Scale, Varint, SignByte;
  }

  lemma GroupBound(acc: nat, d: nat, m: nat)
    requires acc < m && d < 128
    ensures acc + d * m < 128 * m
  {
    assert d * m <= 127 * m;
  }

  lemma {:induction false} Decode32FromInverts(v: nat, k: nat, acc: nat, rest: seq<Byte>)
    requires 0 < v && 1 <= k <= 4 && acc < Scale(k) && acc + v * Scale(k) < WORD32
    ensures Decode32From(Varint(v) + rest, k, acc) == Done(acc + v * Scale(k), rest)
    decreases v
  {
    var m := Scale(k);
    LowGroup(v, k, acc, rest);
    FifthIsSmall(v, k);
    if v >= 128 { FourthIsLast(v, k); }
    assert Scale(k + 1) == 128 * m;
    hide Scale, Decode32From, Varint;
    if v < 128 {
      Fits32(v * m);
    } else {
      Digits(v, m);
      GroupBound(acc, v % 128, m);
      Fits32(v % 128 * m);
      var acc' := acc + v % 128 * m;
      assert acc' + v / 128 * (128 * m) == acc + v * m;
      Decode32FromInverts(v / 128, k + 1, acc', rest);
    }
  }

  lemma Fits32(x: nat)
    requires x < WORD32
    ensures x % WORD32 == x
  {
  }

  lemma FifthIsSmall(v: nat, k: nat)
    requires v * Scale(k) < WORD32
    ensures k == 4 ==> v < 16
  {
    SmallScales(4);
  }

  lemma FourthIsLast(v: nat, k: nat)
    requires v >= 128 && k <= 4 && v * Scale(k) < WORD32
    ensures k < 4
  {
    SmallScales(4);
  }

  /** Beyond 35 bits, the five low groups leave the low word and the rest is only checked. */
  lemma {:induction false} Decode32Low(v: nat, r: nat, k: nat, acc: nat, rest: seq<Byte>)
    requires 1 <= k <= 4 && acc < Scale(k) && v == acc + r * Scale(k) && v >= Scale(5)
    ensures Decode32From(Varint(r) + rest, k, acc) == Decode32From(Varint(v / Scale(5)) + rest, 5, v % WORD32)
    decreases 4 - k
  {
    var m := Scale(k);
    LowGroup(r, k, acc, rest);
    MoreGroups(v, r, k, acc);
    Digits(r, m);
    GroupBound(acc, r % 128, m);
    assert Scale(k + 1) == 128 * m;
    if k < 4 {
      NoCarry(r % 128, k);
      hide Scale, Decode32From, Varint;
      Decode32Low(v, r / 128, k + 1, acc + r % 128 * m, rest);
    } else {
      hide Decode32From, Varint;
      FifthGroup(v, r, acc);
    }
  }

  lemma MoreGroups(v: nat, r: nat, k: nat, acc: nat)
    requires 1 <= k <= 4 && acc < Scale(k) && v == acc + r * Scale(k) && v >= Scale(5)
    ensures r >= 128
  {
    SmallScales(k);
    SmallScales(5);
    if r < 128 {
      GroupBound(acc, r, Scale(k));
      ScaleGrows(k + 1, 5);
    }
  }

  lemma NoCarry(d: nat, k: nat)
    requires d < 128 && k <= 3
    ensures d * Scale(k) % WORD32 == d * Scale(k)
  {
    SmallScales(k);
  }

  lemma FifthGroup(v: nat, r: nat, acc: nat)
    requires acc < Scale(4) && v == acc + r * Scale(4)
    ensures v / Scale(5) == r / 128 && v % WORD32 == acc + r % 128 * Scale(4) % WORD32
  {
    SmallScales(4);
    SmallScales(5);
    hide Scale;
    WordsOf(acc, r % 128 / 16, r % 128 % 16, r / 128);
    assert r == 16 * (r % 128 / 16) + r % 128 % 16 + 128 * (r / 128);
  }

  lemma WordsOf(acc: nat, a: nat, b: nat, q: nat)
    requires acc < 0x1000_0000 && a < 8 && b < 16
    ensures var d := 16 * a + b;
      var v := acc + (d + 128 * q) * 0x1000_0000;
      v / 0x8_0000_0000 == q && d * 0x1000_0000 % WORD32 == b * 0x1000_0000 && v % WORD32 == acc + b * 0x1000_0000
  {
    var d := 16 * a + b;
    var v := acc + (d + 128 * q) * 0x1000_0000;
    assert v == (acc + d * 0x1000_0000) + q * 0x8_0000_0000;
    Quotient(acc + d * 0x1000_0000, q);
    assert d * 0x1000_0000 == b * 0x1000_0000 + a * WORD32;
    Remainder(b * 0x1000_0000, a);
    assert v == (acc + b * 0x1000_0000) + (a + 8 * q) * WORD32;
    Remainder(acc + b * 0x1000_0000, a + 8 * q);
  }

  lemma Quotient(x: nat, q: nat)
    requires x < 0x8_0000_0000
    ensures (x + q * 0x8_0000_0000) / 0x8_0000_0000 == q
  {
  }

  lemma Remainder(x: nat, q: nat)
    requires x < WORD32
    ensures (x + q * WORD32) % WORD32 == x
  {
  }

  /** The decoder's test of the groups beyond the fifth, read as a number. */
  predicate TopGroupsPass(r: nat, k: nat, low: nat) {
    if r < 128 then low >= BIT31 && r == SignByte(k)
    else (r % 128 == 0 || (low >= BIT31 && r % 128 + 128 == SignByte(k))) && TopGroupsPass(r / 128, k + 1, low)
  }

  /** Group `k` of seven bits. */
  function Group(v: nat, k: nat): nat {
    v / Scale(k) % 128
  }

  predicate Uniform(g: nat) {
    g == 0 || g == 127
  }

  /** The numbers above 32 bits that pass: the top bit is set, the low word is negative, the groups 5 to 8 are each
   *  all zeros or all ones.  Bits 32 to 34 do not matter. */
  predicate Tolerated(v: nat) {
    && v >= 0x8000_0000_0000_0000 && v % WORD32 >= BIT31
    && Uniform(Group(v, 5)) && Uniform(Group(v, 6)) && Uniform(Group(v, 7)) && Uniform(Group(v, 8))
  }

  lemma GroupsOfTop(v: nat, r: nat)
    requires r == v / Scale(5)
    ensures Group(v, 5) == r % 128 && Group(v, 6) == r / 128 % 128
    ensures Group(v, 7) == r / 0x4000 % 128 && Group(v, 8) == r / 0x20_0000 % 128
  {
    ScaleValues();
    assert Scale(6) == 0x400_0000_0000 && Scale(7) == 0x2_0000_0000_0000 && Scale(8) == 0x100_0000_0000_0000;
  }

  lemma PassUnfolds(r: nat, low: nat)
    requires r < 0x2000_0000
    ensures TopGroupsPass(r, 5, low) <==>
      && r >= 0x1000_0000 && low >= BIT31 && Uniform(r % 128) && Uniform(r / 128 % 128)
      && Uniform(r / 0x4000 % 128) && Uniform(r / 0x20_0000 % 128)
  {
    var r6, r7, r8, r9 := r / 128, r / 128 / 128, r / 128 / 128 / 128, r / 128 / 128 / 128 / 128;
    assert r7 == r / 0x4000 && r8 == r / 0x20_0000 && r9 == r / 0x1000_0000;
    assert TopGroupsPass(r9, 9, low) <==> low >= BIT31 && r9 == 1;
    assert TopGroupsPass(r8, 8, low) <==> low >= BIT31 && r9 == 1 && Uniform(r8 % 128);
    assert TopGroupsPass(r7, 7, low) <==> low >= BIT31 && r9 == 1 && Uniform(r8 % 128) && Uniform(r7 % 128);
    assert TopGroupsPass(r6, 6, low) <==>
        low >= BIT31 && r9 == 1 && Uniform(r8 % 128) && Uniform(r7 % 128) && Uniform(r6 % 128);
  }

  lemma PassIffTolerated(v: nat)
    requires 0x8_0000_0000 <= v < WORD64
    ensures TopGroupsPass(v / Scale(5), 5, v % WORD32) <==> Tolerated(v)
  {
    ScaleValues();
    GroupsOfTop(v, v / Scale(5));
    PassUnfolds(v / Scale(5), v % WORD32);
    hide Group, Scale, TopGroupsPass;
  }

  lemma {:induction false} Decode32Top(r: nat, k: nat, low: nat, rest: seq<Byte>)
    requires r > 0 && k >= 5
    ensures Decode32From(Varint(r) + rest, k, low) ==
      if TopGroupsPass(r, k, low) then Done(low, rest) else Fail("varint overflow")
    decreases r
  {
    Shape(r, rest);
    hide Varint, Scale;
    if r >= 128 { Decode32Top(r / 128, k + 1, low, rest); }
  }

  /** What the 32-bit decoder makes of every 64-bit number the encoder can write: below 2^32 the number, for the
   *  tolerated ones the low word, and an error for all others. */
  lemma Decode32Exact(v: nat, rest: seq<Byte>)
    requires v < WORD64
    ensures Decode32(Varint(v) + rest) ==
      if v < WORD32 then Done(v, rest)
      else if Tolerated(v) then Done(v % WORD32, rest)
      else Fail("varint overflow")
  {
    FirstGroup(v, rest);
    SmallScales(1);
    SmallScales(5);
    if v >= 128 {
      hide Scale, Varint, Decode32, Decode32From, TopGroupsPass, Group;
      if v < WORD32 {
        Decode32FromInverts(v / 128, 1, v % 128, rest);
      } else if v < Scale(5) {
        FiveBytes(v / 128, 1, v % 128, rest);
      } else {
        Decode32Low(v, v / 128, 1, v % 128, rest);
        Decode32Top(v / Scale(5), 5, v % WORD32, rest);
        PassIffTolerated(v);
      }
    }
  }

  lemma FirstGroup(v: nat, rest: seq<Byte>)
    ensures Decode32(Varint(v) + rest) == if v < 128 then Done(v, rest)
        else Decode32From(Varint(v / 128) + rest, 1, v % 128)
  {
    Shape(v, rest);
    hide Varint, Decode32From;
  }

  /** Numbers of 33 to 35 bits are refused at their fifth byte. */
  lemma {:induction false} FiveBytes(r: nat, k: nat, acc: nat, rest: seq<Byte>)
    requires 1 <= k <= 4 && acc < Scale(k) && WORD32 <= acc + r * Scale(k) < 0x8_0000_0000
    ensures Decode32From(Varint(r) + rest, k, acc) == Fail("varint overflow")
    decreases r
  {
    var m := Scale(k);
    LowGroup(r, k, acc, rest);
    MiddleGroups(r, k, acc);
    if k < 4 {
      Digits(r, m);
      GroupBound(acc, r % 128, m);
      NoCarry(r % 128, k);
      assert Scale(k + 1) == 128 * m;
      hide Scale, Decode32From, Varint;
      FiveBytes(r / 128, k + 1, acc + r % 128 * m, rest);
    }
  }

  lemma MiddleGroups(r: nat, k: nat, acc: nat)
    requires 1 <= k <= 4 && acc < Scale(k) && WORD32 <= acc + r * Scale(k) < 0x8_0000_0000
    ensures if k == 4 then 16 <= r < 128 else r >= 128
  {
    SmallScales(k);
  }

  /** Below 2^32 the number itself, and for a negative 32-bit number written as 64 bits its low word. */
  lemma Decode32Inverts(v: nat, rest: seq<Byte>)
    requires v < WORD32 || WORD64 - BIT31 <= v < WORD64
    ensures Decode32(Varint(v) + rest) == Done(v % WORD32, rest)
  {
    Decode32Exact(v, rest);
    SmallScales(5);
    hide Scale, Varint, Decode32;
    if v >= WORD32 { ExtensionsPass(v); }
  }

  /** Of the tolerated numbers, those are sign extensions of their low word in which all of these groups and the
   *  bits 32 to 34 are ones. */
  lemma RealExtension(v: nat)
    requires v < WORD64 && Tolerated(v)
    ensures v >= WORD64 - BIT31 <==>
      Group(v, 5) == Group(v, 6) == Group(v, 7) == Group(v, 8) == 127 && v / WORD32 % 8 == 7
  {
    var r := v / 0x8_0000_0000;
    ScaleValues();
    GroupsOfTop(v, r);
    TopDigits(r);
    HighWord(v);
    hide Group, Scale;
    var g5, g6, g7, g8 := Group(v, 5), Group(v, 6), Group(v, 7), Group(v, 8);
    assert r == g5 + 128 * g6 + 0x4000 * g7 + 0x20_0000 * g8 + 0x1000_0000;
  }

  lemma TopDigits(r: nat)
    requires 0x1000_0000 <= r < 0x2000_0000
    ensures r == r % 128 + 128 * (r / 128 % 128) + 0x4000 * (r / 0x4000 % 128)
               + 0x20_0000 * (r / 0x20_0000 % 128) + 0x1000_0000
  {
    var a, b, c := r / 128, r / 0x4000, r / 0x20_0000;
    assert r == r % 128 + 128 * a;
    assert a == a % 128 + 128 * b;
    assert b == b % 128 + 128 * c;
    assert c == c % 128 + 128;
  }

  lemma HighWord(v: nat)
    requires v < WORD64
    ensures v / WORD32 == 8 * (v / 0x8_0000_0000) + v / WORD32 % 8
    ensures v == v % WORD32 + WORD32 * (v / WORD32)
  {
    assert v / WORD32 / 8 == v / 0x8_0000_0000;
  }

  lemma ExtensionsPass(v: nat)
    requires WORD64 - BIT31 <= v < WORD64
    ensures Tolerated(v)
  {
    var r := v / 0x8_0000_0000;
    ScaleValues();
    GroupsOfTop(v, r);
    assert r == 0x1FFF_FFFF;
    hide Group, Scale;
  }

  /** A number that is no sign extension and yet is read as a negative 32-bit number. */
  lemma ToleratedButNoExtension(rest: seq<Byte>)
    ensures Decode32(Varint(0x8000_0000_8000_0000) + rest) == Done(0x8000_0000, rest)
  {
    var v := 0x8000_0000_8000_0000;
    ScaleValues();
    GroupsOfTop(v, 0x1000_0000);
    Decode32Exact(v, rest);
    hide Group, Scale, Decode32, Varint;
  }

  // ---- Skipping ----

  function Skip(s: seq<Byte>): (r: Parsed<()>)
    ensures r.Done? ==> |r.rest| < |s|
  {
    if s == [] then Fail("end-of-stream") else if s[0] >= 128 then Skip(s[1..]) else Done((), s[1..])
  }

  lemma {:induction false} SkipConsumes(v: nat, rest: seq<Byte>)
    ensures Skip(Varint(v) + rest) == Done((), rest)
    decreases v
  {
    var s := Varint(v) + rest;
    if v < 128 {
      assert s[1..] == rest;
    } else {
      assert s[1..] == Varint(v / 128) + rest;
      SkipConsumes(v / 128, rest);
    }
  }

  // ---- Zig-zag ----

  predicate Int64(v: int) {
    -0x8000_0000_0000_0000 <= v < 0x8000_0000_0000_0000
  }

  /** As the encoder computes it, on 64-bit words: double, and complement if negative. */
  function ZigZag(v: int): nat
    requires Int64(v)
  {
    var word := v % WORD64;
    var doubled := 2 * word % WORD64;
    if v < 0 then WORD64 - 1 - doubled else doubled
  }

  function Signed64(word: nat): int {
    if word < 0x8000_0000_0000_0000 then word else word - WORD64
  }

  /** As the decoder computes it: halve, and complement if odd. */
  function UnZigZag(u: nat): int
    requires u < WORD64
  {
    if u % 2 == 1 then Signed64(WORD64 - 1 - u / 2) else Signed64(u / 2)
  }

  /** Zig-zag is a bijection between the signed and the unsigned 64-bit numbers. */
  lemma ZigZagInverts(v: int)
    requires Int64(v)
    ensures ZigZag(v) < WORD64 && UnZigZag(ZigZag(v)) == v
    ensures ZigZag(v) == if v < 0 then -2 * v - 1 else 2 * v
  {
    if v < 0 { assert v % WORD64 == v + WORD64; }
  }

  lemma UnZigZagInverts(u: nat)
    requires u < WORD64
    ensures Int64(UnZigZag(u)) && ZigZag(UnZigZag(u)) == u
  {
    var v := UnZigZag(u);
    if u % 2 == 1 { assert v == -(u / 2) - 1; assert v % WORD64 == v + WORD64; }
  }
}
