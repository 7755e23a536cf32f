/** What the decoder makes of arbitrary bytes: a value that the struct can hold, or an error with a reason. */
module PbSound {
  import opened Base128
  import opened PbMessage
  import opened PbEncode
  import opened PbDecode
  import opened PbRoundTrip
  import opened PbRecords

  // ---- Numbers ----

  /** The number a varint stands for in a field.  A signed field of at most 32 bits looks at the low 32 bits only,
   *  as a two's complement number. */
  ghost predicate StandsFor(l: LType, word: nat, n: int) {
    match l
    case UVarInt(_) => n == word
    case SVarInt(_) => n == if word % 2 == 0 then word / 2 else -(word / 2) - 1
    case VarInt(w) =>
      if w == Bits64 then -0x8000_0000_0000_0000 <= n < 0x8000_0000_0000_0000 && (word - n) % WORD64 == 0
      else -0x8000_0000 <= n < 0x8000_0000 && (word - n) % WORD32 == 0
    case _ => false
  }

  lemma Wraps(word: nat, w: Width)
    ensures var n := Signed(word, Range(w)); -(Range(w) / 2) <= n < Range(w) / 2 && (word - n) % Range(w) == 0
  {
    match w {
      case Bits8 => Wraps8(word);
      case Bits16 => Wraps16(word);
      case Bits32 => Wraps32(word);
      case Bits64 => Wraps64(word);
    }
  }

  lemma Wraps8(word: nat)
    ensures var n := Signed(word, 0x100); -0x80 <= n < 0x80 && (word - n) % 0x100 == 0
  {
  }

  lemma Wraps16(word: nat)
    ensures var n := Signed(word, 0x1_0000); -0x8000 <= n < 0x8000 && (word - n) % 0x1_0000 == 0
  {
  }

  lemma Wraps32(word: nat)
    ensures var n := Signed(word, WORD32); -0x8000_0000 <= n < 0x8000_0000 && (word - n) % WORD32 == 0
  {
  }

  lemma Wraps64(word: nat)
    ensures var n := Signed(word, WORD64);
      -0x8000_0000_0000_0000 <= n < 0x8000_0000_0000_0000 && (word - n) % WORD64 == 0
  {
  }

  /** Truncating to a width and back gives the same number exactly if it is within the width's range. */
  lemma FitsIff(n: int, w: Width)
    requires -(WORD64 / 2) <= n < WORD64 / 2
    ensures Signed(n % WORD64, Range(w)) == n <==> -(Range(w) / 2) <= n < Range(w) / 2
  {
    if -(Range(w) / 2) <= n < Range(w) / 2 {
      SignedInverts(n, w);
    } else {
      Wraps(n % WORD64, w);
    }
  }

  /** What is read as a number, whatever it is. */
  lemma NumberOf(l: LType, word: nat) returns (n: int)
    requires (l.VarInt? || l.UVarInt? || l.SVarInt?) && word < WORD64
    ensures StandsFor(l, word, n)
    ensures l.UVarInt? ==> n == word
    ensures l.SVarInt? ==> n == UnZigZag(word)
    ensures l.VarInt? ==> n == if l.width == Bits64 then Signed(word, WORD64) else Signed(word, WORD32)
    ensures !l.UVarInt? ==> -(WORD64 / 2) <= n < WORD64 / 2
  {
    match l {
      case UVarInt(_) => n := word;
      case SVarInt(_) => n := UnZigZag(word);
      case VarInt(w) =>
        n := if w == Bits64 then Signed(word, WORD64) else Signed(word, WORD32);
        Wraps(word, if w == Bits64 then Bits64 else Bits32);
    }
  }

  /** A number is read exactly if it lies in the range of its field, and then it is that number. */
  lemma DecIntExact(l: LType, s: seq<Byte>) returns (n: int)
    requires l.VarInt? || l.UVarInt? || l.SVarInt?
    ensures Decode(s).Fail? ==> DecInt(l, s) == Fail(Decode(s).error)
    ensures Decode(s).Done? ==>
      && StandsFor(l, Decode(s).value, n)
      && DecInt(l, s) == if Typed(l, Int(n)) then Done(Int(n), Decode(s).rest) else Fail("integer too large")
  {
    DecodeBounded(s, 0, 0);
    n := 0;
    if Decode(s).Done? {
      n := NumberOf(l, Decode(s).value);
      hide Decode, Signed, UnZigZag;
      if l.UVarInt? { Truncates(n, l.width); } else { FitsIff(n, l.width); }
    }
  }

  lemma Truncates(n: nat, w: Width)
    ensures n % Range(w) == n <==> n < Range(w)
  {
  }

  lemma {:induction false} LittleEndianBound(s: seq<Byte>)
    ensures FromLittleEndian(s) < Pow256(|s|)
  {
    if s != [] { LittleEndianBound(s[1..]); }
  }

  /** Byte `k` of a fixed-width number has the weight 256^k. */
  lemma {:induction false} LittleEndianAt(v: nat, n: nat, k: nat)
    requires k < n
    ensures Pow256(k) > 0 && LittleEndian(v, n)[k] == v / Pow256(k) % 256
  {
    PowPositive(k);
    if k > 0 {
      LittleEndianAt(v / 256, n - 1, k - 1);
      Divided(v, Pow256(k - 1));
    }
  }

  lemma {:induction false} PowPositive(k: nat)
    ensures Pow256(k) > 0
  {
    if k > 0 { PowPositive(k - 1); }
  }

  lemma Divided(v: nat, p: nat)
    requires p > 0
    ensures v / 256 / p == v / (256 * p)
  {
    var q, r := v / 256, v % 256;
    var a, b := q / p, q % p;
    assert v == 256 * (p * a + b) + r;
    assert 256 * (p * a) == (256 * p) * a;
    assert 256 * b + r < 256 * p;
    QuotientOf(v, 256 * p, a, 256 * b + r);
  }

  lemma QuotientOf(v: nat, m: nat, a: nat, r: nat)
    requires m > 0 && r < m && v == m * a + r
    ensures v / m == a
  {
    var q := v / m;
    assert q < a ==> m * (q + 1) <= m * a;
    assert q > a ==> m * (a + 1) <= m * q;
  }

  // ---- Descriptors whose sizes fit the 16-bit size type ----

  predicate SizedType(l: LType)
    decreases l
  {
    match l
    case String(size) => 1 <= size <= SIZE_MAX
    case FixedBytes(size) => size <= SIZE_MAX
    case Submessage(fs) => SizedDesc(fs)
    case _ => true
  }

  predicate SizedField(f: Field)
    decreases f
  {
    SizedType(f.ltype)
  }

  predicate SizedDesc(fs: seq<Field>)
    decreases fs
  {
    forall i | 0 <= i < |fs| :: SizedField(fs[i])
  }

  lemma {:induction false} ZeroHolds(l: LType)
    requires SizedType(l)
    ensures Holds(l, ZeroValue(l))
    decreases l
  {
    if l.Submessage? {
      forall i | 0 <= i < |l.fields| ensures HoldsSlot(l.fields[i], DefaultSlot(l.fields[i])) {
        assert SizedField(l.fields[i]);
        DefaultHolds(l.fields[i]);
      }
    }
  }

  lemma {:induction false} DefaultHolds(f: Field)
    requires SizedField(f)
    ensures HoldsSlot(f, DefaultSlot(f))
    decreases f
  {
    ZeroHolds(f.ltype);
  }

  lemma DefaultsHold(fs: seq<Field>)
    requires SizedDesc(fs)
    ensures HoldsAll(fs, Defaults(fs))
  {
    forall i | 0 <= i < |fs| ensures HoldsSlot(fs[i], Defaults(fs)[i]) {
      assert SizedField(fs[i]);
      DefaultHolds(fs[i]);
    }
  }

  // ---- Whatever is decoded can be held ----

  lemma NumberHolds(l: LType, s: seq<Byte>)
    requires (l.VarInt? || l.UVarInt? || l.SVarInt?) && DecInt(l, s).Done?
    ensures Holds(l, DecInt(l, s).value)
  {
    var n := DecIntExact(l, s);
    hide DecInt, Decode, Range;
  }

  lemma BlobHolds(l: LType, s: seq<Byte>)
    requires (l.Bytes? || l.String? || l.FixedBytes?) && SizedType(l) && DecBlob(l, s).Done?
    ensures Holds(l, DecBlob(l, s).value)
  {
    hide Decode32;
  }

  lemma FixedHolds(n: nat, s: seq<Byte>)
    requires (n == 4 || n == 8) && Read(s, n).Done?
    ensures FromLittleEndian(Read(s, n).value) < if n == 4 then WORD32 else WORD64
  {
    LittleEndianBound(Read(s, n).value);
    Powers256();
  }

  /** The base a submessage is decoded into can be held. */
  predicate BaseHolds(l: LType, base: Value) {
    l.Submessage? && base.Msg? && |base.slots| == |l.fields| ==> HoldsAll(l.fields, base.slots)
  }

  lemma HeldBase(l: LType, base: Value)
    requires Holds(l, base)
    ensures BaseHolds(l, base)
  {
  }

  lemma {:induction false} BodyHolds(l: LType, base: Value, s: seq<Byte>)
    requires SizedType(l) && BaseHolds(l, base) && DecBody(l, base, s).Done?
    ensures Holds(l, DecBody(l, base, s).value)
    decreases |s|, 1
  {
    match l {
      case VarInt(_) => NumberHolds(l, s);
      case UVarInt(_) => NumberHolds(l, s);
      case SVarInt(_) => NumberHolds(l, s);
      case Fixed32 => FixedHolds(4, s);
      case Fixed64 => FixedHolds(8, s);
      case Bytes(_) => BlobHolds(l, s);
      case String(_) => BlobHolds(l, s);
      case FixedBytes(_) => BlobHolds(l, s);
      case Submessage(fs) => SubmessageHolds(l, base, s);
    }
  }

  lemma {:induction false} SubmessageHolds(l: LType, base: Value, s: seq<Byte>)
    requires l.Submessage? && SizedType(l) && BaseHolds(l, base) && DecBody(l, base, s).Done?
    ensures Holds(l, DecBody(l, base, s).value)
    decreases |s|, 0
  {
    var fs := l.fields;
    DefaultsHold(fs);
    var p := Substream(s);
    var slots := if base.Msg? && |base.slots| == |fs| then base.slots else Defaults(fs);
    hide DecMessage, Substream, Defaults;
    MessageHolds(fs, slots, p.value);
  }

  lemma {:induction false} PackedHolds(l: LType, max: nat, vs: seq<Value>, s: seq<Byte>)
    requires SizedType(l) && Packable(l) && HoldsEach(l, vs) && |vs| <= max && DecPacked(l, max, vs, s).Done?
    ensures HoldsEach(l, DecPacked(l, max, vs, s).value) && |DecPacked(l, max, vs, s).value| <= max
    decreases |s|, 2
  {
    if s != [] {
      BodyHolds(l, ZeroValue(l), s);
      var v := DecBody(l, ZeroValue(l), s);
      hide DecBody, Holds;
      PackedHolds(l, max, vs + [v.value], v.rest);
    }
  }

  lemma {:induction false} SlotHolds(f: Field, wireType: nat, slot: Slot, s: seq<Byte>)
    requires SizedField(f) && HoldsSlot(f, slot) && DecSlot(f, wireType, slot, s).Done?
    ensures HoldsSlot(f, DecSlot(f, wireType, slot, s).value)
    decreases |s|, 3
  {
    hide DecBody, DecPacked, Substream;
    ZeroHolds(f.ltype);
    if f.htype.Repeated? && wireType == 2 && Packable(f.ltype) {
      PackedHolds(f.ltype, f.htype.max, slot.vs, Substream(s).value);
    } else {
      var base := if f.htype.Repeated? then ZeroValue(f.ltype) else BaseOf(f, slot);
      assert Holds(f.ltype, base);
      HeldBase(f.ltype, base);
      BodyHolds(f.ltype, base, s);
    }
  }

  lemma {:induction false} FieldsHold(fs: seq<Field>, p: Progress, s: seq<Byte>)
    requires SizedDesc(fs) && HoldsAll(fs, p.slots) && DecFields(fs, p, s).Done?
    ensures HoldsAll(fs, DecFields(fs, p, s).value.slots)
    decreases |s|, 4
  {
    if s != [] {
      var t := Decode32(s);
      var i, wireType := Lookup(fs, t.value / 8), t.value % 8;
      if i == |fs| {
        var u := SkipField(wireType, t.rest);
        hide Decode32, SkipField, Lookup;
        FieldsHold(fs, p, u.rest);
      } else {
        var v := DecSlot(fs[i], wireType, p.slots[i], t.rest);
        hide Decode32, DecSlot, Lookup;
        assert SizedField(fs[i]);
        SlotHolds(fs[i], wireType, p.slots[i], t.rest);
        hide HoldsSlot, TypedSlot, BoundedSlot;
        FieldsHold(fs, Progress(p.slots[i := v.value], p.seen + {i}), v.rest);
      }
    }
  }

  /** Whatever bytes are decoded into a struct that its descriptor can hold, the result can be held as well: numbers
   *  are in range, strings end, and no array has more elements than it has room for. */
  lemma {:induction false} MessageHolds(fs: seq<Field>, slots: seq<Slot>, s: seq<Byte>)
    requires SizedDesc(fs) && HoldsAll(fs, slots) && DecMessage(fs, slots, s).Done?
    ensures HoldsAll(fs, DecMessage(fs, slots, s).value)
    decreases |s|, 5
  {
    hide DecFields;
    FieldsHold(fs, Progress(slots, {}), s);
  }

  // ---- Why decoding fails ----

  /** A length-delimited value is taken exactly if it has room; a string is what stands before its first zero, and
   *  an empty record clears an array of fixed size. */
  lemma BlobExact(l: LType, b: seq<Byte>, rest: seq<Byte>)
    requires (l.Bytes? || l.String? || l.FixedBytes?) && |b| < WORD32 - 1
    ensures DecBlob(l, Delimited(b) + rest) ==
      match l
      case Bytes(max) => if |b| <= max && |b| <= 65535 then Done(Blob(b), rest) else Fail("bytes overflow")
      case String(size) => if |b| < size then Done(Blob(CString(b)), rest) else Fail("string overflow")
      case FixedBytes(size) =>
        if |b| > 65535 then Fail("bytes overflow")
        else if b == [] then Done(Blob(Zeros(size)), rest)
        else if |b| == size then Done(Blob(b), rest)
        else Fail("incorrect fixed length bytes size")
      case _ => Fail("")
  {
    LengthInverts(b, rest);
    hide Decode32, Delimited, CString;
    assert (b + rest)[..|b|] == b && (b + rest)[|b|..] == rest;
  }

  /** A record whose value is refused ends the decoding. */
  lemma RecordFails(fs: seq<Field>, p: Progress, i: nat, wireType: nat, x: seq<Byte>, e: string)
    requires ValidDesc(fs) && |p.slots| == |fs| && i < |fs| && wireType < 8
    requires DecSlot(fs[i], wireType, p.slots[i], x) == Fail(e)
    ensures DecFields(fs, p, Tag(fs[i].tag, wireType) + x) == Fail(e)
  {
    assert ValidField(fs[i]);
    TagInverts(fs[i].tag, wireType, x);
    LookupUnique(fs, i);
    hide Decode32, Tag, Lookup, DecSlot, ValidDesc;
  }

  lemma {:induction false} PackedOverflows(f: Field, max: nat, done: seq<Value>, vs: seq<Value>)
    requires ValidField(f) && Packable(f.ltype) && HoldsEach(f.ltype, vs) && Short(Packed(f, vs))
    requires |done| <= max < |done| + |vs|
    ensures DecPacked(f.ltype, max, done, Packed(f, vs)) == Fail("array overflow")
    decreases |vs|
  {
    BodyNotEmpty(f.ltype, vs[0]);
    if |done| < max {
      var rest := Packed(f, vs[1..]);
      BodyRoundTrip(f.ltype, vs[0], rest);
      PackedOverflows(f, max, done + [vs[0]], vs[1..]);
    }
  }

  /** A record of values that fit their type, for an array. */
  ghost predicate ForArray(fs: seq<Field>, r: Rec) {
    && !r.Extra? && r.i < |fs| && fs[r.i].htype.Repeated?
    && match r
       case Plain(i, v) => !fs[i].ltype.Submessage? && Typed(fs[i].ltype, v)
       case Nested(i, recs) => fs[i].ltype.Submessage?
       case Pack(i, vs) => Packable(fs[i].ltype) && HoldsEach(fs[i].ltype, vs) && Short(Packed(fs[i], vs))
       case _ => false
  }

  lemma FullArray(f: Field, wireType: nat, slot: Slot, x: seq<Byte>)
    requires f.htype.Repeated? && !(wireType == 2 && Packable(f.ltype)) && |Elements(slot)| >= f.htype.max
    ensures DecSlot(f, wireType, slot, x) == Fail("array overflow")
  {
  }

  lemma FullByPack(f: Field, slot: Slot, vs: seq<Value>, rest: seq<Byte>)
    requires ValidField(f) && f.htype.Repeated? && Packable(f.ltype) && HoldsEach(f.ltype, vs) && Short(Packed(f, vs))
    requires |Elements(slot)| <= f.htype.max < |Elements(slot)| + |vs|
    ensures DecSlot(f, 2, slot, Delimited(Packed(f, vs)) + rest) == Fail("array overflow")
  {
    hide Packed, DecPacked, Substream, Delimited;
    PackedOverflows(f, f.htype.max, Elements(slot), vs);
    SubstreamInverts(Packed(f, vs), rest);
  }

  /** The bytes of a record are its tag and what follows. */
  lemma TagFirst(fs: seq<Field>, r: Rec, rest: seq<Byte>) returns (wireType: nat, x: seq<Byte>)
    requires ForArray(fs, r)
    ensures RecBytes(fs, r) + rest == Tag(fs[r.i].tag, wireType) + x && wireType < 8
    ensures !r.Pack? ==> !(wireType == 2 && Packable(fs[r.i].ltype))
    ensures r.Pack? ==> wireType == 2 && x == Delimited(Packed(fs[r.i], r.vs)) + rest
  {
    var f := fs[r.i];
    match r {
      case Plain(i, v) => wireType, x := WireType(f.ltype), Body(f.ltype, v) + rest;
      case Nested(i, recs) => wireType, x := 2, Delimited(RecsBytes(f.ltype.fields, recs)) + rest;
      case Pack(i, vs) => wireType, x := 2, Delimited(Packed(f, vs)) + rest;
    }
    hide Tag, Body, Delimited, RecsBytes, Packed;
  }

  /** A record of an array is refused when the array has no room for its values. */
  lemma ArrayOverflows(fs: seq<Field>, p: Progress, r: Rec, rest: seq<Byte>)
    requires ValidDesc(fs) && |p.slots| == |fs| && ForArray(fs, r) && |Elements(p.slots[r.i])| <= fs[r.i].htype.max
    requires !Room(fs[r.i], p.slots[r.i], if r.Pack? then |r.vs| else 1)
    ensures DecFields(fs, p, RecBytes(fs, r) + rest) == Fail("array overflow")
  {
    var f := fs[r.i];
    assert ValidField(f);
    hide DecFields, DecSlot, ValidDesc, Tag, Delimited, Packed, RecBytes, ValidField, HoldsEach;
    var wireType, x := TagFirst(fs, r, rest);
    if r.Pack? { FullByPack(f, p.slots[r.i], r.vs, rest); } else { FullArray(f, wireType, p.slots[r.i], x); }
    RecordFails(fs, p, r.i, wireType, x, "array overflow");
  }

  // ---- Required fields ----

  /** Record `j` is one of the field at position `i`. */
  predicate RecordOf(recs: seq<Rec>, j: nat, i: nat) {
    j < |recs| && !recs[j].Extra? && recs[j].i == i
  }

  ghost predicate Recorded(recs: seq<Rec>, i: nat) {
    exists j: nat :: RecordOf(recs, j, i)
  }

  lemma {:induction false} SeenIffRecorded(recs: seq<Rec>, i: nat)
    ensures i in SeenIn(recs) <==> Recorded(recs, i)
  {
    if recs != [] {
      SeenIffRecorded(recs[1..], i);
      assert RecordOf(recs, 0, i) <==> i in SeenOne(recs[0]);
      if Recorded(recs[1..], i) {
        var j: nat :| RecordOf(recs[1..], j, i);
        assert RecordOf(recs, j + 1, i);
      }
      if Recorded(recs, i) {
        var j: nat :| RecordOf(recs, j, i);
        if j > 0 { assert RecordOf(recs[1..], j - 1, i); }
      }
    }
  }

  /** Records that fit decode exactly if there is one for each of the first 64 required fields. */
  lemma DecodesIffRequired(fs: seq<Field>, slots: seq<Slot>, recs: seq<Rec>)
    requires ValidDesc(fs) && |slots| == |fs| && FitAll(fs, slots, recs)
    ensures DecMessage(fs, slots, RecsBytes(fs, recs)) ==
      if forall i | 0 <= i < |fs| && fs[i].htype.Required? && RequiredBefore(fs, i) < 64 :: Recorded(recs, i)
      then Done(AllApplied(fs, slots, recs), []) else Fail("missing required field")
  {
    AnyRecords(fs, Progress(slots, {}), recs);
    hide DecFields, RecsBytes, AllApplied, FitAll, SeenIn, Recorded;
    assert {} + SeenIn(recs) == SeenIn(recs);
    forall i: nat ensures i in SeenIn(recs) <==> Recorded(recs, i) { SeenIffRecorded(recs, i); }
  }

  // ---- The decoder reads the stream from front to back ----

  predicate Suffix(r: seq<Byte>, s: seq<Byte>) {
    |r| <= |s| && r == s[|s| - |r|..]
  }

  lemma SuffixOn(a: seq<Byte>, b: seq<Byte>, c: seq<Byte>)
    requires Suffix(a, b) && Suffix(b, c)
    ensures Suffix(a, c)
  {
    assert b[|b| - |a|..] == c[|c| - |a|..];
  }

  lemma {:induction false} DecodeFromSuffix(s: seq<Byte>, k: nat, acc: nat)
    ensures DecodeFrom(s, k, acc).Done? ==> Suffix(DecodeFrom(s, k, acc).rest, s)
    decreases |s|
  {
    if k < 10 && s != [] && s[0] >= 128 {
      var r := acc + s[0] % 128 * Scale(k) % WORD64;
      DecodeFromSuffix(s[1..], k + 1, r);
      if DecodeFrom(s, k, acc).Done? { SuffixOn(DecodeFrom(s, k, acc).rest, s[1..], s); }
    }
  }

  lemma {:induction false} Decode32FromSuffix(s: seq<Byte>, k: nat, acc: nat)
    ensures Decode32From(s, k, acc).Done? ==> Suffix(Decode32From(s, k, acc).rest, s)
    decreases |s|
  {
    if s != [] && s[0] >= 128 {
      var r := if k >= 5 then acc else acc + s[0] % 128 * Scale(k) % WORD32;
      Decode32FromSuffix(s[1..], k + 1, r);
      if Decode32From(s, k, acc).Done? { SuffixOn(Decode32From(s, k, acc).rest, s[1..], s); }
    }
  }

  lemma Decode32Suffix(s: seq<Byte>)
    requires Decode32(s).Done?
    ensures Suffix(Decode32(s).rest, s)
  {
    if s[0] >= 128 {
      Decode32FromSuffix(s[1..], 1, s[0] % 128);
      SuffixOn(Decode32(s).rest, s[1..], s);
    }
  }

  lemma {:induction false} SkipSuffix(s: seq<Byte>)
    requires Skip(s).Done?
    ensures Suffix(Skip(s).rest, s)
  {
    if s[0] >= 128 {
      SkipSuffix(s[1..]);
      SuffixOn(Skip(s).rest, s[1..], s);
    }
  }

  lemma SkipFieldSuffix(wireType: nat, s: seq<Byte>)
    requires SkipField(wireType, s).Done?
    ensures Suffix(SkipField(wireType, s).rest, s)
  {
    hide Skip, Decode32;
    if wireType == 0 {
      SkipSuffix(s);
    } else if wireType == 2 {
      Decode32Suffix(s);
      SuffixOn(SkipField(wireType, s).rest, Decode32(s).rest, s);
    }
  }

  lemma SubstreamSuffix(s: seq<Byte>)
    requires Substream(s).Done?
    ensures Suffix(Substream(s).rest, s)
  {
    hide Decode32;
    Decode32Suffix(s);
    SuffixOn(Substream(s).rest, Decode32(s).rest, s);
  }

  lemma BlobSuffix(l: LType, s: seq<Byte>)
    requires (l.Bytes? || l.String? || l.FixedBytes?) && DecBlob(l, s).Done?
    ensures Suffix(DecBlob(l, s).rest, s)
  {
    hide Decode32;
    Decode32Suffix(s);
    SuffixOn(DecBlob(l, s).rest, Decode32(s).rest, s);
  }

  lemma BodySuffix(l: LType, base: Value, s: seq<Byte>)
    requires DecBody(l, base, s).Done?
    ensures Suffix(DecBody(l, base, s).rest, s)
  {
    match l {
      case VarInt(_) => DecodeFromSuffix(s, 0, 0);
      case UVarInt(_) => DecodeFromSuffix(s, 0, 0);
      case SVarInt(_) => DecodeFromSuffix(s, 0, 0);
      case Fixed32 =>
      case Fixed64 =>
      case Bytes(_) => BlobSuffix(l, s);
      case String(_) => BlobSuffix(l, s);
      case FixedBytes(_) => BlobSuffix(l, s);
      case Submessage(_) => SubstreamSuffix(s);
    }
  }

  lemma SlotSuffix(f: Field, wireType: nat, slot: Slot, s: seq<Byte>)
    requires DecSlot(f, wireType, slot, s).Done?
    ensures Suffix(DecSlot(f, wireType, slot, s).rest, s)
  {
    hide DecBody, DecPacked, Substream;
    if f.htype.Repeated? && wireType == 2 && Packable(f.ltype) {
      SubstreamSuffix(s);
    } else {
      BodySuffix(f.ltype, if f.htype.Repeated? then ZeroValue(f.ltype) else BaseOf(f, slot), s);
    }
  }

  /** The state of the main loop after one record, and what is left of the stream. */
  lemma OneRecord(fs: seq<Field>, p: Progress, s: seq<Byte>) returns (p': Progress, rest: seq<Byte>)
    requires |p.slots| == |fs| && s != [] && DecFields(fs, p, s).Done?
    ensures |p'.slots| == |fs| && DecFields(fs, p, s) == DecFields(fs, p', rest)
    ensures Suffix(rest, s) && |rest| < |s| && Decode32(s).Done?
    ensures forall i | i in p'.seen :: i in p.seen || (i < |fs| && Decode32(s).value / 8 == fs[i].tag)
  {
    var t := Decode32(s);
    var j, wireType := Lookup(fs, t.value / 8), t.value % 8;
    Decode32Suffix(s);
    if j == |fs| {
      p', rest := p, SkipField(wireType, t.rest).rest;
      hide Decode32, SkipField, Lookup;
      SkipFieldSuffix(wireType, t.rest);
    } else {
      var v := DecSlot(fs[j], wireType, p.slots[j], t.rest);
      p', rest := Progress(p.slots[j := v.value], p.seen + {j}), v.rest;
      hide Decode32, DecSlot, Lookup;
      SlotSuffix(fs[j], wireType, p.slots[j], t.rest);
    }
    SuffixOn(rest, t.rest, s);
  }

  /** Behind the first `k` bytes the decoder stands at a tag of field `i`. */
  ghost predicate TagAt(fs: seq<Field>, p0: Progress, s: seq<Byte>, k: nat, p: Progress, i: nat)
    requires |p0.slots| == |fs| == |p.slots| && i < |fs|
  {
    && k < |s| && DecFields(fs, p0, s) == DecFields(fs, p, s[k..])
    && Decode32(s[k..]).Done? && Decode32(s[k..]).value / 8 == fs[i].tag
  }

  lemma {:induction false} SeenAtTag(fs: seq<Field>, p0: Progress, s: seq<Byte>, i: nat) returns (k: nat, p: Progress)
    requires |p0.slots| == |fs| && DecFields(fs, p0, s).Done? && i < |fs|
    requires i in DecFields(fs, p0, s).value.seen && i !in p0.seen
    ensures |p.slots| == |fs| && TagAt(fs, p0, s, k, p, i)
    decreases |s|
  {
    assert s != [];
    hide DecFields, Decode32;
    var p1, rest := OneRecord(fs, p0, s);
    if i in p1.seen {
      k, p := 0, p0;
      assert s[0..] == s;
    } else {
      var k1;
      k1, p := SeenAtTag(fs, p1, rest, i);
      k := |s| - |rest| + k1;
      assert s[k..] == rest[k1..];
    }
  }

  /** Whatever bytes are decoded, each of the first 64 required fields has its tag in the stream, where the decoder
   *  was looking for one. */
  lemma RequiredOccurs(fs: seq<Field>, slots: seq<Slot>, s: seq<Byte>, i: nat) returns (k: nat, p: Progress)
    requires |slots| == |fs| && DecMessage(fs, slots, s).Done?
    requires i < |fs| && fs[i].htype.Required? && RequiredBefore(fs, i) < 64
    ensures |p.slots| == |fs| && TagAt(fs, Progress(slots, {}), s, k, p, i)
  {
    hide DecFields;
    k, p := SeenAtTag(fs, Progress(slots, {}), s, i);
  }

  // ---- Readers that know fewer fields ----

  /** The payload of a value as a reader sees it that does not know the field. */
  function PayloadOf(l: LType, v: Value): Payload
    requires Typed(l, v)
  {
    match l
    case VarInt(_) => Number(Unsigned64(v.i))
    case UVarInt(_) => Number(v.i)
    case SVarInt(_) => Number(ZigZag(v.i))
    case Fixed32 => FourBytes(LittleEndian(v.i, 4))
    case Fixed64 => EightBytes(LittleEndian(v.i, 8))
    case Submessage(fs) => Length(Message(fs, v.slots))
    case _ => Length(v.bytes)
  }

  lemma ValueAsUnknown(gs: seq<Field>, f: Field, v: Value)
    requires 0 < f.tag < 0x2000_0000 && Typed(f.ltype, v) && Short(Basic(f, v))
    requires forall j | 0 <= j < |gs| :: gs[j].tag != f.tag
    ensures var u := Unknown(f.tag, PayloadOf(f.ltype, v)); IsUnknown(gs, u) && UnknownBytes(u) == Basic(f, v)
  {
    PayloadIsBody(f.tag, f.ltype, v);
    hide PayloadOf, PayloadBytes, Body, Tag, Typed, WireType, UnknownWire;
  }

  /** The payload has the bytes of the value and the wire type says how to skip it. */
  lemma PayloadIsBody(tag: nat, l: LType, v: Value)
    requires Typed(l, v)
    ensures var y := PayloadOf(l, v);
      && PayloadBytes(y) == Body(l, v) && UnknownWire(Unknown(tag, y)) == WireType(l)
      && (y.Length? ==> |y.b| <= |Body(l, v)|) && (y.EightBytes? ==> |y.b| == 8) && (y.FourBytes? ==> |y.b| == 4)
  {
    hide Varint, LittleEndian, Message;
  }

  /** The records a slot is written as. */
  function Records(f: Field, s: Slot): seq<Unknown>
    requires TypedSlot(f, s)
  {
    match f.htype
    case Required => [Unknown(f.tag, PayloadOf(f.ltype, s.v))]
    case Singular => if IsDefault(f.ltype, s.v) then [] else [Unknown(f.tag, PayloadOf(f.ltype, s.v))]
    case Optional => if s.Absent? then [] else [Unknown(f.tag, PayloadOf(f.ltype, s.v))]
    case Repeated(_) =>
      if s.vs == [] then []
      else if Packable(f.ltype) then [Unknown(f.tag, Length(Packed(f, s.vs)))]
      else ElementRecords(f, s.vs)
  }

  function ElementRecords(f: Field, vs: seq<Value>): seq<Unknown>
    requires TypedEach(f.ltype, vs)
  {
    if vs == [] then [] else [Unknown(f.tag, PayloadOf(f.ltype, vs[0]))] + ElementRecords(f, vs[1..])
  }

  ghost predicate AreUnknown(gs: seq<Field>, us: seq<Unknown>) {
    forall j | 0 <= j < |us| :: IsUnknown(gs, us[j])
  }

  lemma {:induction false} UnknownConcat(a: seq<Unknown>, b: seq<Unknown>)
    ensures AllUnknown(a + b) == AllUnknown(a) + AllUnknown(b)
  {
    if a == [] {
      assert a + b == b;
    } else {
      assert (a + b)[1..] == a[1..] + b;
      UnknownConcat(a[1..], b);
    }
  }

  lemma OneUnknown(u: Unknown)
    ensures AllUnknown([u]) == UnknownBytes(u)
  {
    assert [u][1..] == [];
    assert AllUnknown([u]) == UnknownBytes(u) + AllUnknown([]);
  }

  lemma {:induction false} ElementsAsUnknown(gs: seq<Field>, f: Field, vs: seq<Value>)
    requires 0 < f.tag < 0x2000_0000 && TypedEach(f.ltype, vs) && Short(Unpacked(f, vs))
    requires forall j | 0 <= j < |gs| :: gs[j].tag != f.tag
    ensures AreUnknown(gs, ElementRecords(f, vs)) && AllUnknown(ElementRecords(f, vs)) == Unpacked(f, vs)
    decreases |vs|
  {
    if vs != [] {
      assert Unpacked(f, vs) == Basic(f, vs[0]) + Unpacked(f, vs[1..]);
      hide Basic, PayloadOf, UnknownBytes;
      ValueAsUnknown(gs, f, vs[0]);
      ElementsAsUnknown(gs, f, vs[1..]);
      var us := ElementRecords(f, vs);
      assert us[1..] == ElementRecords(f, vs[1..]);
    }
  }

  /** A slot is written as records that a reader without the field skips. */
  lemma SlotAsUnknown(gs: seq<Field>, f: Field, s: Slot)
    requires 0 < f.tag < 0x2000_0000 && TypedSlot(f, s) && Short(SlotBytes(f, s))
    requires forall j | 0 <= j < |gs| :: gs[j].tag != f.tag
    ensures AreUnknown(gs, Records(f, s)) && AllUnknown(Records(f, s)) == SlotBytes(f, s)
  {
    hide PayloadOf;
    if f.htype.Repeated? {
      if s.vs != [] && Packable(f.ltype) {
        var u := Unknown(f.tag, Length(Packed(f, s.vs)));
        OneUnknown(u);
        assert IsUnknown(gs, u) && UnknownBytes(u) == SlotBytes(f, s);
      } else if s.vs != [] {
        ElementsAsUnknown(gs, f, s.vs);
      }
    } else if !s.Absent? && !(f.htype.Singular? && IsDefault(f.ltype, s.v)) {
      hide Basic;
      ValueAsUnknown(gs, f, s.v);
      OneUnknown(Unknown(f.tag, PayloadOf(f.ltype, s.v)));
    }
  }

  /** The fields a reader knows, what the message has for them, and the records of the others in between. */
  function Known(fs: seq<Field>, tags: set<nat>): seq<Field> {
    if fs == [] then []
    else (if fs[0].tag in tags then [fs[0]] else []) + Known(fs[1..], tags)
  }

  function KnownSlots(fs: seq<Field>, slots: seq<Slot>, tags: set<nat>): (r: seq<Slot>)
    requires |fs| == |slots|
    ensures |r| == |Known(fs, tags)|
  {
    if fs == [] then []
    else (if fs[0].tag in tags then [slots[0]] else []) + KnownSlots(fs[1..], slots[1..], tags)
  }

  function Others(fs: seq<Field>, slots: seq<Slot>, tags: set<nat>): (r: seq<seq<Unknown>>)
    requires TypedAll(fs, slots)
    ensures |r| == |Known(fs, tags)| + 1
  {
    if fs == [] then [[]]
    else
      var r := Others(fs[1..], slots[1..], tags);
      if fs[0].tag in tags then [[]] + r else [Records(fs[0], slots[0]) + r[0]] + r[1..]
  }

  lemma {:induction false} KnownFrom(fs: seq<Field>, slots: seq<Slot>, tags: set<nat>, j: nat) returns (i: nat)
    requires |fs| == |slots| && j < |Known(fs, tags)|
    ensures i < |fs| && j <= i && Known(fs, tags)[j] == fs[i] && KnownSlots(fs, slots, tags)[j] == slots[i]
    ensures fs[i].tag in tags
    decreases |fs|
  {
    hide Known, KnownSlots;
    if fs == [] {
      NoneOfNone(tags);
    } else {
      KnownShape(fs, slots, tags);
      if fs[0].tag in tags && j == 0 {
        i := 0;
      } else {
        var k := KnownFrom(fs[1..], slots[1..], tags, if fs[0].tag in tags then j - 1 else j);
        i := k + 1;
        assert fs[1..][k] == fs[i] && slots[1..][k] == slots[i];
      }
    }
  }

  lemma NoneOfNone(tags: set<nat>)
    ensures Known([], tags) == []
  {
  }

  lemma {:induction false} KnownDistinct(fs: seq<Field>, tags: set<nat>, j: nat, k: nat)
    requires (forall a, b | 0 <= a < b < |fs| :: fs[a].tag != fs[b].tag) && j < k < |Known(fs, tags)|
    ensures Known(fs, tags)[j].tag != Known(fs, tags)[k].tag
    decreases |fs|
  {
    var dummy := seq(|fs| - 1, _ => Absent);
    if fs[0].tag in tags {
      if j > 0 {
        KnownDistinct(fs[1..], tags, j - 1, k - 1);
      } else {
        var i := KnownFrom(fs[1..], dummy, tags, k - 1);
        assert fs[1..][i] == fs[i + 1];
      }
    } else {
      KnownDistinct(fs[1..], tags, j, k);
    }
  }

  lemma KnownValid(fs: seq<Field>, slots: seq<Slot>, tags: set<nat>)
    requires ValidDesc(fs) && HoldsAll(fs, slots)
    ensures ValidDesc(Known(fs, tags)) && HoldsAll(Known(fs, tags), KnownSlots(fs, slots, tags))
  {
    var gs, gslots := Known(fs, tags), KnownSlots(fs, slots, tags);
    forall j | 0 <= j < |gs| ensures ValidField(gs[j]) && HoldsSlot(gs[j], gslots[j]) {
      var i := KnownFrom(fs, slots, tags, j);
    }
    forall j, k | 0 <= j < k < |gs| ensures gs[j].tag != gs[k].tag { KnownDistinct(fs, tags, j, k); }
  }

  /** Nothing in the message is too long for the wire. */
  ghost predicate AllShort(fs: seq<Field>, slots: seq<Slot>)
    requires TypedAll(fs, slots)
  {
    forall i | 0 <= i < |fs| :: Short(SlotBytes(fs[i], slots[i]))
  }

  ghost predicate TagsOk(fs: seq<Field>) {
    forall i | 0 <= i < |fs| :: 0 < fs[i].tag < 0x2000_0000
  }

  lemma PrependUnknown(gs: seq<Field>, us: seq<Unknown>, r: seq<seq<Unknown>>)
    requires AreUnknown(gs, us) && AllAreUnknown(gs, r)
    ensures AllAreUnknown(gs, [us] + r)
  {
    hide IsUnknown;
    var all := [us] + r;
    forall k, j | 0 <= k < |all| && 0 <= j < |all[k]| ensures IsUnknown(gs, all[k][j]) {
      if k > 0 { assert all[k] == r[k - 1]; }
    }
  }

  lemma ExtendUnknown(gs: seq<Field>, us: seq<Unknown>, r: seq<seq<Unknown>>)
    requires AreUnknown(gs, us) && AllAreUnknown(gs, r) && r != []
    ensures AllAreUnknown(gs, [us + r[0]] + r[1..])
  {
    hide IsUnknown;
    var first := us + r[0];
    forall j | 0 <= j < |first| ensures IsUnknown(gs, first[j]) {
      if j >= |us| { assert first[j] == r[0][j - |us|]; }
    }
    forall k, j | 0 <= k < |r[1..]| && 0 <= j < |r[1..][k]| ensures IsUnknown(gs, r[1..][k][j]) {
      assert r[1..][k] == r[k + 1];
    }
    PrependUnknown(gs, first, r[1..]);
  }

  lemma {:induction false} OthersUnknown(gs: seq<Field>, fs: seq<Field>, slots: seq<Slot>, tags: set<nat>)
    requires TypedAll(fs, slots) && AllShort(fs, slots) && TagsOk(fs)
    requires forall j | 0 <= j < |gs| :: gs[j].tag in tags
    ensures AllAreUnknown(gs, Others(fs, slots, tags))
    decreases |fs|
  {
    if fs != [] {
      hide Records, SlotBytes, IsUnknown, TypedSlot, Known;
      var fs1, slots1 := fs[1..], slots[1..];
      assert forall i | 0 <= i < |fs1| :: fs1[i] == fs[i + 1] && slots1[i] == slots[i + 1];
      OthersUnknown(gs, fs1, slots1, tags);
      if fs[0].tag in tags {
        PrependUnknown(gs, [], Others(fs1, slots1, tags));
      } else {
        SlotAsUnknown(gs, fs[0], slots[0]);
        ExtendUnknown(gs, Records(fs[0], slots[0]), Others(fs1, slots1, tags));
      }
    }
  }

  lemma {:induction false} MessageIsMixed(fs: seq<Field>, slots: seq<Slot>, tags: set<nat>)
    requires HoldsAll(fs, slots) && AllShort(fs, slots) && TagsOk(fs)
    ensures HoldsAll(Known(fs, tags), KnownSlots(fs, slots, tags))
    ensures Mixed(Known(fs, tags), KnownSlots(fs, slots, tags), Others(fs, slots, tags)) == Message(fs, slots)
    decreases |fs|
  {
    if fs != [] {
      var fs1, slots1 := fs[1..], slots[1..];
      assert forall i | 0 <= i < |fs1| :: fs1[i] == fs[i + 1] && slots1[i] == slots[i + 1];
      MessageIsMixed(fs1, slots1, tags);
      var gs, gslots, r := Known(fs1, tags), KnownSlots(fs1, slots1, tags), Others(fs1, slots1, tags);
      hide Known, KnownSlots, SlotBytes, Records;
      if fs[0].tag in tags {
        FirstKnown(fs[0], slots[0], gs, gslots, r);
      } else {
        SlotAsUnknown([], fs[0], slots[0]);
        FirstOther(Records(fs[0], slots[0]), gs, gslots, r);
      }
      KnownShape(fs, slots, tags);
    }
  }

  lemma KnownShape(fs: seq<Field>, slots: seq<Slot>, tags: set<nat>)
    requires |fs| == |slots| && fs != []
    ensures var gs, gslots := Known(fs[1..], tags), KnownSlots(fs[1..], slots[1..], tags);
      && Known(fs, tags) == (if fs[0].tag in tags then [fs[0]] + gs else gs)
      && KnownSlots(fs, slots, tags) == (if fs[0].tag in tags then [slots[0]] + gslots else gslots)
  {
  }

  lemma FirstKnown(f: Field, s: Slot, gs: seq<Field>, gslots: seq<Slot>, us: seq<seq<Unknown>>)
    requires HoldsSlot(f, s) && HoldsAll(gs, gslots) && |us| == |gs| + 1
    ensures HoldsAll([f] + gs, [s] + gslots)
    ensures Mixed([f] + gs, [s] + gslots, [[]] + us) == SlotBytes(f, s) + Mixed(gs, gslots, us)
  {
    var gs', gslots', us' := [f] + gs, [s] + gslots, [[]] + us;
    assert gs'[1..] == gs && gslots'[1..] == gslots && us'[1..] == us;
    hide SlotBytes;
    assert [] + (SlotBytes(f, s) + Mixed(gs, gslots, us)) == SlotBytes(f, s) + Mixed(gs, gslots, us);
  }

  lemma FirstOther(first: seq<Unknown>, gs: seq<Field>, gslots: seq<Slot>, us: seq<seq<Unknown>>)
    requires HoldsAll(gs, gslots) && |us| == |gs| + 1
    ensures Mixed(gs, gslots, [first + us[0]] + us[1..]) == AllUnknown(first) + Mixed(gs, gslots, us)
  {
    hide Mixed, MixedRest, AllUnknown, HoldsAll;
    var us' := [first + us[0]] + us[1..];
    assert us'[1..] == us[1..] && us'[0] == first + us[0];
    UnknownConcat(first, us[0]);
    BeforeRest(gs, gslots, us);
    BeforeRest(gs, gslots, us');
    SameRest(gs, gslots, us, us');
    Together(AllUnknown(first), AllUnknown(us[0]), MixedRest(gs, gslots, us));
  }

  lemma Together(a: seq<Byte>, b: seq<Byte>, c: seq<Byte>)
    ensures (a + b) + c == a + (b + c)
  {
  }

  /** What comes behind the first unknown records. */
  function MixedRest(gs: seq<Field>, gslots: seq<Slot>, us: seq<seq<Unknown>>): seq<Byte>
    requires HoldsAll(gs, gslots) && |us| == |gs| + 1
  {
    if gs == [] then [] else SlotBytes(gs[0], gslots[0]) + Mixed(gs[1..], gslots[1..], us[1..])
  }

  lemma BeforeRest(gs: seq<Field>, gslots: seq<Slot>, us: seq<seq<Unknown>>)
    requires HoldsAll(gs, gslots) && |us| == |gs| + 1
    ensures Mixed(gs, gslots, us) == AllUnknown(us[0]) + MixedRest(gs, gslots, us)
  {
    hide AllUnknown, SlotBytes;
    assert AllUnknown(us[0]) + [] == AllUnknown(us[0]);
  }

  lemma SameRest(gs: seq<Field>, gslots: seq<Slot>, us: seq<seq<Unknown>>, us': seq<seq<Unknown>>)
    requires HoldsAll(gs, gslots) && |us| == |gs| + 1 == |us'| && us[1..] == us'[1..]
    ensures MixedRest(gs, gslots, us) == MixedRest(gs, gslots, us')
  {
    hide SlotBytes;
  }

  /** A reader that knows only the fields with the given tags reads just those, as they were written: the others
   *  are skipped, whatever their types. */
  lemma FewerFieldsDecode(fs: seq<Field>, slots: seq<Slot>, tags: set<nat>)
    requires ValidDesc(fs) && HoldsAll(fs, slots) && Short(Message(fs, slots))
    ensures DecMessage(Known(fs, tags), Defaults(Known(fs, tags)), Message(fs, slots))
        == Done(KnownSlots(fs, slots, tags), [])
  {
    var gs, gslots := Known(fs, tags), KnownSlots(fs, slots, tags);
    ShortParts(fs, slots);
    assert TagsOk(fs) by { forall i | 0 <= i < |fs| ensures 0 < fs[i].tag < 0x2000_0000 { assert ValidField(fs[i]); } }
    KnownValid(fs, slots, tags);
    forall j | 0 <= j < |gs| ensures gs[j].tag in tags { var i := KnownFrom(fs, slots, tags, j); }
    OthersUnknown(gs, fs, slots, tags);
    MessageIsMixed(fs, slots, tags);
    forall j | 0 <= j < |gs| ensures Short(SlotBytes(gs[j], gslots[j])) { var i := KnownFrom(fs, slots, tags, j); }
    hide Known, KnownSlots, Others, Mixed, Message, DecMessage, ValidDesc, HoldsAll, SlotBytes, AllAreUnknown;
    MixedRoundTrip(gs, gslots, Others(fs, slots, tags));
  }

  /** A reader that knows no field at all skips every message to its end. */
  lemma NothingKnown(fs: seq<Field>, slots: seq<Slot>)
    requires ValidDesc(fs) && HoldsAll(fs, slots) && Short(Message(fs, slots))
    ensures DecFields([], Progress([], {}), Message(fs, slots)) == Done(Progress([], {}), [])
  {
    ShortParts(fs, slots);
    assert TagsOk(fs) by { forall i | 0 <= i < |fs| ensures 0 < fs[i].tag < 0x2000_0000 { assert ValidField(fs[i]); } }
    NoneKnown(fs, slots);
    OthersUnknown([], fs, slots, {});
    MessageIsMixed(fs, slots, {});
    var us := Others(fs, slots, {});
    hide Others, Message, ValidDesc, SlotBytes, Known, KnownSlots, DecFields;
    assert AllUnknown(us[0]) + [] == AllUnknown(us[0]);
    UnknownsStep([], Progress([], {}), us[0], []);
    AtTheEnd();
  }

  lemma AtTheEnd()
    ensures DecFields([], Progress([], {}), []) == Done(Progress([], {}), [])
  {
  }

  lemma {:induction false} NoneKnown(fs: seq<Field>, slots: seq<Slot>)
    requires |fs| == |slots|
    ensures Known(fs, {}) == [] && KnownSlots(fs, slots, {}) == []
  {
    if fs != [] { NoneKnown(fs[1..], slots[1..]); }
  }
}
