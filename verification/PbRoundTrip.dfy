/** Decoding inverts encoding, also when records of unknown fields are mixed in. */
module PbRoundTrip {
  import opened Base128
  import opened PbMessage
  import opened PbEncode
  import opened PbDecode

  // ---- Integers ----

  function Pow256(n: nat): nat {
    if n == 0 then 1 else 256 * Pow256(n - 1)
  }

  lemma {:induction false} LittleEndianInverts(v: nat, n: nat)
    requires v < Pow256(n)
    ensures FromLittleEndian(LittleEndian(v, n)) == v
  {
    if n > 0 {
      LittleEndianInverts(v / 256, n - 1);
      var s := LittleEndian(v, n);
      assert s[1..] == LittleEndian(v / 256, n - 1);
    }
  }

  lemma Powers256()
    ensures Pow256(4) == WORD32 && Pow256(8) == WORD64
  {
    assert Pow256(2) == 65536;
    assert Pow256(6) == 256 * Pow256(5);
  }

  lemma SignedInverts(i: int, w: Width)
    requires -(Range(w) / 2) <= i < Range(w) / 2
    ensures Signed(i % WORD64, Range(w)) == i
  {
    match w {
      case Bits8 => Low8(i);
      case Bits16 => Low16(i);
      case Bits32 => Low32(i);
      case Bits64 => Low64(i);
    }
  }

  lemma Low8(i: int)
    requires -(0x100 / 2) <= i < 0x100 / 2
    ensures Signed(i % WORD64, 0x100) == i
  {
    if i >= 0 {
      assert i % WORD64 == i;
    } else {
      assert i % WORD64 == i + WORD64 == (i + 0x100) + 0x100 * 0xFF_FFFF_FFFF_FFFF;
    }
  }

  lemma Low16(i: int)
    requires -(0x1_0000 / 2) <= i < 0x1_0000 / 2
    ensures Signed(i % WORD64, 0x1_0000) == i
  {
    if i >= 0 {
      assert i % WORD64 == i;
    } else {
      assert i % WORD64 == i + WORD64 == (i + 0x1_0000) + 0x1_0000 * 0xFFFF_FFFF_FFFF;
    }
  }

  lemma Low32(i: int)
    requires -(WORD32 / 2) <= i < WORD32 / 2
    ensures Signed(i % WORD64, WORD32) == i
  {
    if i >= 0 {
      assert i % WORD64 == i;
    } else {
      assert i % WORD64 == i + WORD64 == (i + WORD32) + WORD32 * 0xFFFF_FFFF;
    }
  }

  lemma Low64(i: int)
    requires -(WORD64 / 2) <= i < WORD64 / 2
    ensures Signed(i % WORD64, WORD64) == i
  {
    if i >= 0 {
      assert i % WORD64 == i;
    } else {
      assert i % WORD64 == i + WORD64 == (i + WORD64) + WORD64 * 0;
    }
  }

  lemma UVarIntRoundTrip(w: Width, i: int, rest: seq<Byte>)
    requires 0 <= i < Range(w)
    ensures DecInt(UVarInt(w), Varint(i) + rest) == Done(Int(i), rest)
  {
    DecodeInverts(i, rest);
    hide Decode, Varint;
    assert i % Range(w) == i;
  }

  lemma VarIntRoundTrip(w: Width, i: int, rest: seq<Byte>)
    requires -(Range(w) / 2) <= i < Range(w) / 2
    ensures DecInt(VarInt(w), Varint(Unsigned64(i)) + rest) == Done(Int(i), rest)
  {
    DecodeInverts(Unsigned64(i), rest);
    WordInverts(i, w);
    SignedInverts(i, w);
    hide Decode, Varint, Unsigned64, Signed, Range;
  }

  lemma SVarIntRoundTrip(w: Width, i: int, rest: seq<Byte>)
    requires -(Range(w) / 2) <= i < Range(w) / 2
    ensures Int64(i) && DecInt(SVarInt(w), Varint(ZigZag(i)) + rest) == Done(Int(i), rest)
  {
    ZigZagInverts(i);
    DecodeInverts(ZigZag(i), rest);
    SignedInverts(i, w);
    hide Decode, Varint, ZigZag, UnZigZag, Signed;
  }

  /** Narrow signed fields are read from the low word of the sign-extended number. */
  lemma WordInverts(i: int, w: Width)
    requires -(Range(w) / 2) <= i < Range(w) / 2
    ensures Signed(Unsigned64(i), WORD64) == i
    ensures w != Bits64 ==> Signed(Unsigned64(i), WORD32) == i
  {
    if i < 0 && w != Bits64 {
      assert (i + WORD64) % WORD32 == i + WORD32;
    }
  }

  // ---- Records ----

  lemma LengthInverts(b: seq<Byte>, rest: seq<Byte>)
    requires |b| < WORD32
    ensures Decode32(Delimited(b) + rest) == Done(|b|, b + rest)
  {
    Decode32Inverts(|b|, b + rest);
    assert Delimited(b) + rest == Varint(|b|) + (b + rest);
  }

  lemma SubstreamInverts(b: seq<Byte>, rest: seq<Byte>)
    requires |b| < WORD32
    ensures Substream(Delimited(b) + rest) == Done(b, rest)
  {
    LengthInverts(b, rest);
    assert (b + rest)[..|b|] == b && (b + rest)[|b|..] == rest;
  }

  lemma BlobRoundTrip(l: LType, v: Value, rest: seq<Byte>)
    requires l.Bytes? || l.String? || l.FixedBytes?
    requires Holds(l, v)
    ensures DecBlob(l, Body(l, v) + rest) == Done(v, rest)
  {
    var b := v.bytes;
    LengthInverts(b, rest);
    hide Decode32, Delimited;
    assert (b + rest)[..|b|] == b && (b + rest)[|b|..] == rest;
    if l.FixedBytes? && |b| == 0 { assert Zeros(0) == b; }
    if l.String? { assert |CString(b)| == |b| && CString(b) == b; }
  }

  lemma FixedRoundTrip(l: LType, v: Value, rest: seq<Byte>)
    requires (l.Fixed32? || l.Fixed64?) && Holds(l, v)
    ensures DecBody(l, Int(0), Body(l, v) + rest) == Done(v, rest)
  {
    var n := if l.Fixed32? then 4 else 8;
    Powers256();
    LittleEndianInverts(v.i, n);
    hide LittleEndian, FromLittleEndian;
    var b := LittleEndian(v.i, n);
    assert (b + rest)[..n] == b && (b + rest)[n..] == rest;
  }

  /** Room on the wire: lengths are read as 32-bit numbers. */
  ghost predicate Short(s: seq<Byte>) {
    |s| < WORD32
  }

  lemma {:induction false} BodyRoundTrip(l: LType, v: Value, rest: seq<Byte>)
    requires ValidType(l) && Holds(l, v) && Short(Body(l, v))
    ensures DecBody(l, ZeroValue(l), Body(l, v) + rest) == Done(v, rest)
    decreases l, 1
  {
    match l {
      case VarInt(w) => VarIntRoundTrip(w, v.i, rest);
      case UVarInt(w) => UVarIntRoundTrip(w, v.i, rest);
      case SVarInt(w) => SVarIntRoundTrip(w, v.i, rest);
      case Fixed32 => FixedRoundTrip(l, v, rest);
      case Fixed64 => FixedRoundTrip(l, v, rest);
      case Submessage(fs) => SubmessageRoundTrip(l, v, rest);
      case Bytes(_) => BlobRoundTrip(l, v, rest);
      case String(_) => BlobRoundTrip(l, v, rest);
      case FixedBytes(_) => BlobRoundTrip(l, v, rest);
    }
  }

  lemma {:induction false} SubmessageRoundTrip(l: LType, v: Value, rest: seq<Byte>)
    requires l.Submessage? && ValidType(l) && Holds(l, v) && Short(Body(l, v))
    ensures DecBody(l, ZeroValue(l), Body(l, v) + rest) == Done(v, rest)
    decreases l, 0
  {
    var m := Message(l.fields, v.slots);
    SubstreamInverts(m, rest);
    MessageRoundTrip(l.fields, v.slots);
    hide Message, DecMessage, Substream, Delimited;
  }

  // ---- Records in the main loop ----

  lemma LookupUnique(fs: seq<Field>, i: nat)
    requires ValidDesc(fs) && i < |fs|
    ensures Lookup(fs, fs[i].tag) == i
  {
  }

  /** A tag is read back. */
  lemma TagInverts(tag: nat, wireType: nat, rest: seq<Byte>)
    requires 0 < tag < 0x2000_0000 && wireType < 8
    ensures Tag(tag, wireType) + rest != []
    ensures Decode32(Tag(tag, wireType) + rest) == Done(tag * 8 + wireType, rest)
    ensures (tag * 8 + wireType) / 8 == tag && (tag * 8 + wireType) % 8 == wireType
  {
    Decode32Inverts(tag * 8 + wireType, rest);
  }

  /** One record of a known field. */
  lemma RecordStep(fs: seq<Field>, p: Progress, i: nat, wireType: nat, x: seq<Byte>, s: Slot, rest: seq<Byte>)
    requires ValidDesc(fs) && |p.slots| == |fs| && i < |fs| && wireType < 8
    requires DecSlot(fs[i], wireType, p.slots[i], x) == Done(s, rest)
    ensures DecFields(fs, p, Tag(fs[i].tag, wireType) + x) == DecFields(fs, Progress(p.slots[i := s], p.seen + {i}),
        rest)
  {
    assert ValidField(fs[i]);
    TagInverts(fs[i].tag, wireType, x);
    LookupUnique(fs, i);
    hide Decode32, Tag, Lookup, DecSlot, ValidDesc;
  }

  /** A single value: required, present or not left out. */
  lemma {:induction false} BasicStep(fs: seq<Field>, p: Progress, i: nat, s: Slot, rest: seq<Byte>)
    requires ValidDesc(fs) && |p.slots| == |fs| && i < |fs| && !fs[i].htype.Repeated? && HoldsSlot(fs[i], s)
    requires !s.Absent? && p.slots[i] == DefaultSlot(fs[i]) && Short(Basic(fs[i], s.v))
    ensures DecFields(fs, p, Basic(fs[i], s.v) + rest) == DecFields(fs, Progress(p.slots[i := s], p.seen + {i}), rest)
    decreases fs[i], 1
  {
    var f := fs[i];
    assert ValidField(f);
    var body := Body(f.ltype, s.v);
    BodyRoundTrip(f.ltype, s.v, rest);
    assert Basic(f, s.v) + rest == Tag(f.tag, WireType(f.ltype)) + (body + rest);
    hide Body, DecBody, ValidDesc, Tag, DecFields;
    RecordStep(fs, p, i, WireType(f.ltype), body + rest, s, rest);
  }

  // ---- Repeated fields ----

  lemma {:induction false} PackedRoundTrip(f: Field, max: nat, done: seq<Value>, vs: seq<Value>)
    requires ValidField(f) && Packable(f.ltype) && HoldsEach(f.ltype, vs) && |done| + |vs| <= max
        && Short(Packed(f, vs))
    ensures DecPacked(f.ltype, max, done, Packed(f, vs)) == Done(done + vs, [])
    decreases f, 1, |vs|
  {
    if vs == [] {
      assert done + vs == done;
    } else {
      var rest := Packed(f, vs[1..]);
      BodyRoundTrip(f.ltype, vs[0], rest);
      BodyNotEmpty(f.ltype, vs[0]);
      assert (done + [vs[0]]) + vs[1..] == done + vs;
      PackedRoundTrip(f, max, done + [vs[0]], vs[1..]);
    }
  }

  lemma BodyNotEmpty(l: LType, v: Value)
    requires Holds(l, v)
    ensures Body(l, v) != []
  {
  }

  lemma {:induction false} PackedStep(fs: seq<Field>, p: Progress, i: nat, vs: seq<Value>, rest: seq<Byte>)
    requires ValidDesc(fs) && |p.slots| == |fs| && i < |fs| && fs[i].htype.Repeated? && HoldsSlot(fs[i], Many(vs))
    requires Packable(fs[i].ltype) && p.slots[i] == Many([]) && Short(Delimited(Packed(fs[i], vs)))
    ensures DecFields(fs, p, Tag(fs[i].tag, 2) + Delimited(Packed(fs[i], vs)) + rest)
         == DecFields(fs, Progress(p.slots[i := Many(vs)], p.seen + {i}), rest)
    decreases fs[i], 2
  {
    var f := fs[i];
    assert ValidField(f);
    hide Packed, DecPacked, ValidDesc, Tag, DecFields, Substream, Delimited, DecSlot;
    PackedSlot(f, [], vs, rest);
    assert [] + vs == vs;
    var x := Delimited(Packed(f, vs)) + rest;
    assert Tag(f.tag, 2) + Delimited(Packed(f, vs)) + rest == Tag(f.tag, 2) + x;
    RecordStep(fs, p, i, 2, x, Many(vs), rest);
  }

  /** A packed record adds all its values. */
  lemma {:induction false} PackedSlot(f: Field, done: seq<Value>, vs: seq<Value>, rest: seq<Byte>)
    requires ValidField(f) && f.htype.Repeated? && Packable(f.ltype) && HoldsEach(f.ltype, vs)
    requires |done| + |vs| <= f.htype.max && Short(Packed(f, vs))
    ensures DecSlot(f, 2, Many(done), Delimited(Packed(f, vs)) + rest) == Done(Many(done + vs), rest)
    decreases f, 1, |vs| + 1
  {
    hide Packed, DecPacked, Substream, Delimited;
    PackedRoundTrip(f, f.htype.max, done, vs);
    SubstreamInverts(Packed(f, vs), rest);
  }

  lemma {:induction false} ElementStep(fs: seq<Field>, p: Progress, i: nat, done: seq<Value>, vs: seq<Value>,
      rest: seq<Byte>)
    requires ValidDesc(fs) && |p.slots| == |fs| && i < |fs| && fs[i].htype.Repeated? && !Packable(fs[i].ltype)
    requires vs != [] && HoldsEach(fs[i].ltype, vs) && |done| < fs[i].htype.max && p.slots[i] == Many(done)
        && Short(Unpacked(fs[i], vs))
    ensures HoldsEach(fs[i].ltype, vs[1..]) && Short(Unpacked(fs[i], vs[1..]))
    ensures DecFields(fs, p, Unpacked(fs[i], vs) + rest)
         == DecFields(fs, Progress(p.slots[i := Many(done + [vs[0]])], p.seen + {i}), Unpacked(fs[i], vs[1..]) + rest)
    decreases fs[i], 1, 0
  {
    var f := fs[i];
    assert ValidField(f);
    HoldsTail(f.ltype, vs);
    var v, tail := vs[0], Unpacked(f, vs[1..]);
    var x := Body(f.ltype, v) + (tail + rest);
    UnpackedShape(f, vs, rest);
    BodyRoundTrip(f.ltype, v, tail + rest);
    hide DecFields, ValidDesc, Unpacked, Body, DecBody, Tag, HoldsEach, DecSlot, Packable;
    ElementDecodes(f, done, v, x, tail + rest);
    RecordStep(fs, p, i, WireType(f.ltype), x, Many(done + [v]), tail + rest);
  }

  lemma {:induction false} UnpackedStep(fs: seq<Field>, p: Progress, i: nat, done: seq<Value>, vs: seq<Value>,
      rest: seq<Byte>)
    requires ValidDesc(fs) && |p.slots| == |fs| && i < |fs| && fs[i].htype.Repeated? && !Packable(fs[i].ltype)
    requires HoldsEach(fs[i].ltype, vs) && |done| + |vs| <= fs[i].htype.max && vs != []
    requires p.slots[i] == Many(done) && Short(Unpacked(fs[i], vs))
    ensures DecFields(fs, p, Unpacked(fs[i], vs) + rest)
        == DecFields(fs, Progress(p.slots[i := Many(done + vs)], p.seen + {i}), rest)
    decreases fs[i], 1, |vs|
  {
    hide DecFields, ValidDesc, Short, HoldsEach, Packable;
    ElementStep(fs, p, i, done, vs, rest);
    var p1 := Progress(p.slots[i := Many(done + [vs[0]])], p.seen + {i});
    if |vs| > 1 {
      hide Unpacked;
      UnpackedStep(fs, p1, i, done + [vs[0]], vs[1..], rest);
      assert (done + [vs[0]]) + vs[1..] == done + vs;
      assert p1.slots[i := Many(done + vs)] == p.slots[i := Many(done + vs)];
      assert p1.seen + {i} == p.seen + {i};
    } else {
      assert vs[1..] == [] && Unpacked(fs[i], vs[1..]) + rest == rest;
      assert done + [vs[0]] == done + vs;
    }
  }

  ghost predicate HoldsEach(l: LType, vs: seq<Value>) {
    forall i | 0 <= i < |vs| :: Holds(l, vs[i])
  }

  lemma HoldsTail(l: LType, vs: seq<Value>)
    requires HoldsEach(l, vs) && vs != []
    ensures HoldsEach(l, vs[1..])
  {
  }

  lemma UnpackedShape(f: Field, vs: seq<Value>, rest: seq<Byte>)
    requires HoldsEach(f.ltype, vs) && vs != []
    ensures var body, tail := Body(f.ltype, vs[0]), Unpacked(f, vs[1..]);
      && Unpacked(f, vs) + rest == Tag(f.tag, WireType(f.ltype)) + (body + (tail + rest))
      && |body| <= |Unpacked(f, vs)| && |tail| <= |Unpacked(f, vs)|
  {
    var body, tail, tag := Body(f.ltype, vs[0]), Unpacked(f, vs[1..]), Tag(f.tag, WireType(f.ltype));
    assert Unpacked(f, vs) == (tag + body) + tail;
    hide Unpacked, Body, Tag, HoldsEach;
    Regroup(tag, body, tail, rest);
  }

  lemma Regroup(a: seq<Byte>, b: seq<Byte>, c: seq<Byte>, d: seq<Byte>)
    ensures (a + b) + c + d == a + (b + (c + d))
  {
  }

  /** One more element of an unpacked array. */
  lemma ElementDecodes(f: Field, done: seq<Value>, v: Value, x: seq<Byte>, rest: seq<Byte>)
    requires f.htype.Repeated? && !Packable(f.ltype) && |done| < f.htype.max
    requires DecBody(f.ltype, ZeroValue(f.ltype), x) == Done(v, rest)
    ensures DecSlot(f, WireType(f.ltype), Many(done), x) == Done(Many(done + [v]), rest)
  {
    hide DecBody;
  }

  // ---- Whole slots ----

  lemma {:induction false} SlotStep(fs: seq<Field>, p: Progress, i: nat, s: Slot, rest: seq<Byte>)
    requires ValidDesc(fs) && |p.slots| == |fs| && i < |fs| && HoldsSlot(fs[i], s)
    requires p.slots[i] == DefaultSlot(fs[i]) && Short(SlotBytes(fs[i], s))
    ensures var seen := if SlotBytes(fs[i], s) == [] then p.seen else p.seen + {i};
      DecFields(fs, p, SlotBytes(fs[i], s) + rest) == DecFields(fs, Progress(p.slots[i := s], seen), rest)
    decreases fs[i], 3
  {
    var f := fs[i];
    if SlotBytes(f, s) == [] {
      EmptySlot(f, s);
      assert [] + rest == rest;
      assert p.slots[i := s] == p.slots;
    } else if !f.htype.Repeated? {
      BasicStep(fs, p, i, s, rest);
    } else if Packable(f.ltype) {
      PackedStep(fs, p, i, s.vs, rest);
    } else {
      UnpackedStep(fs, p, i, [], s.vs, rest);
      assert [] + s.vs == s.vs;
    }
  }

  /** A slot that is not written is the one a decoder starts with. */
  lemma EmptySlot(f: Field, s: Slot)
    requires HoldsSlot(f, s) && SlotBytes(f, s) == []
    ensures s == DefaultSlot(f)
  {
    if f.htype.Singular? && IsDefault(f.ltype, s.v) { LeftOutIsDefault(f.ltype, s.v); }
    if f.htype.Repeated? { UnpackedNotEmpty(f, s.vs); }
  }

  lemma UnpackedNotEmpty(f: Field, vs: seq<Value>)
    requires HoldsEach(f.ltype, vs)
    ensures vs != [] ==> Unpacked(f, vs) != []
  {
  }

  // ---- Unknown fields ----

  datatype Payload = Number(v: nat) | EightBytes(b: seq<Byte>) | Length(b: seq<Byte>) | FourBytes(b: seq<Byte>)

  datatype Unknown = Unknown(tag: nat, payload: Payload)

  predicate IsUnknown(fs: seq<Field>, u: Unknown) {
    && 0 < u.tag < 0x2000_0000
    && (forall i | 0 <= i < |fs| :: fs[i].tag != u.tag)
    && (u.payload.EightBytes? ==> |u.payload.b| == 8)
    && (u.payload.FourBytes? ==> |u.payload.b| == 4)
    && (u.payload.Length? ==> |u.payload.b| < WORD32)
  }

  function UnknownWire(u: Unknown): nat {
    match u.payload
    case Number(_) => 0
    case EightBytes(_) => 1
    case Length(_) => 2
    case FourBytes(_) => 5
  }

  function PayloadBytes(p: Payload): seq<Byte> {
    match p
    case Number(v) => Varint(v)
    case EightBytes(b) => b
    case Length(b) => Delimited(b)
    case FourBytes(b) => b
  }

  function UnknownBytes(u: Unknown): seq<Byte> {
    Tag(u.tag, UnknownWire(u)) + PayloadBytes(u.payload)
  }

  function AllUnknown(us: seq<Unknown>): seq<Byte> {
    if us == [] then [] else UnknownBytes(us[0]) + AllUnknown(us[1..])
  }

  lemma SkipsPayload(u: Unknown, fs: seq<Field>, rest: seq<Byte>)
    requires IsUnknown(fs, u)
    ensures UnknownWire(u) < 8 && SkipField(UnknownWire(u), PayloadBytes(u.payload) + rest) == Done((), rest)
  {
    match u.payload {
      case Number(v) => SkipConsumes(v, rest);
      case EightBytes(b) => assert (b + rest)[8..] == rest;
      case Length(b) =>
        LengthInverts(b, rest);
        assert (b + rest)[|b|..] == rest;
      case FourBytes(b) => assert (b + rest)[4..] == rest;
    }
  }

  /** The record of an unknown field is skipped up to the next tag. */
  lemma UnknownStep(fs: seq<Field>, p: Progress, u: Unknown, rest: seq<Byte>)
    requires |p.slots| == |fs| && IsUnknown(fs, u)
    ensures DecFields(fs, p, UnknownBytes(u) + rest) == DecFields(fs, p, rest)
  {
    hide DecFields, Tag, Decode32, SkipField, PayloadBytes, Lookup, UnknownWire;
    var x := PayloadBytes(u.payload) + rest;
    assert UnknownBytes(u) + rest == Tag(u.tag, UnknownWire(u)) + x;
    SkipsPayload(u, fs, rest);
    TagInverts(u.tag, UnknownWire(u), x);
    LookupMissing(fs, u.tag);
    SkipStep(fs, p, UnknownBytes(u) + rest, u.tag, UnknownWire(u), x, rest);
  }

  lemma LookupMissing(fs: seq<Field>, tag: nat)
    requires forall i | 0 <= i < |fs| :: fs[i].tag != tag
    ensures Lookup(fs, tag) == |fs|
  {
  }

  lemma SkipStep(fs: seq<Field>, p: Progress, s: seq<Byte>, tag: nat, wireType: nat, x: seq<Byte>, rest: seq<Byte>)
    requires |p.slots| == |fs| && s != [] && tag > 0 && wireType < 8 && Decode32(s) == Done(tag * 8 + wireType, x)
    requires (tag * 8 + wireType) / 8 == tag && (tag * 8 + wireType) % 8 == wireType
    requires Lookup(fs, tag) == |fs| && SkipField(wireType, x) == Done((), rest)
    ensures DecFields(fs, p, s) == DecFields(fs, p, rest)
  {
    hide Decode32, SkipField, Lookup;
  }

  lemma {:induction false} UnknownsStep(fs: seq<Field>, p: Progress, us: seq<Unknown>, rest: seq<Byte>)
    requires |p.slots| == |fs| && forall i | 0 <= i < |us| :: IsUnknown(fs, us[i])
    ensures DecFields(fs, p, AllUnknown(us) + rest) == DecFields(fs, p, rest)
  {
    if us == [] {
      assert [] + rest == rest;
    } else {
      assert AllUnknown(us) + rest == UnknownBytes(us[0]) + (AllUnknown(us[1..]) + rest);
      UnknownStep(fs, p, us[0], AllUnknown(us[1..]) + rest);
      UnknownsStep(fs, p, us[1..], rest);
    }
  }

  // ---- Messages ----

  /** The encoding with unknown records before each field and at the end. */
  function Mixed(fs: seq<Field>, slots: seq<Slot>, us: seq<seq<Unknown>>): seq<Byte>
    requires HoldsAll(fs, slots) && |us| == |fs| + 1
  {
    if fs == [] then AllUnknown(us[0])
    else AllUnknown(us[0]) + (SlotBytes(fs[0], slots[0]) + Mixed(fs[1..], slots[1..], us[1..]))
  }

  ghost predicate AllAreUnknown(fs: seq<Field>, us: seq<seq<Unknown>>) {
    forall k, j | 0 <= k < |us| && 0 <= j < |us[k]| :: IsUnknown(fs, us[k][j])
  }

  ghost predicate ShortSlots(fs: seq<Field>, slots: seq<Slot>)
    requires HoldsAll(fs, slots)
  {
    forall i | 0 <= i < |fs| :: Short(SlotBytes(fs[i], slots[i]))
  }

  /** What a decoder has when the first `i` fields are in. */
  function Partial(fs: seq<Field>, slots: seq<Slot>, i: nat): (r: seq<Slot>)
    requires |fs| == |slots| && i <= |fs|
    ensures |r| == |fs|
  {
    slots[..i] + Defaults(fs)[i..]
  }

  lemma PartialStep(fs: seq<Field>, slots: seq<Slot>, i: nat)
    requires |fs| == |slots| && i < |fs|
    ensures Partial(fs, slots, i)[i] == DefaultSlot(fs[i])
    ensures Partial(fs, slots, i)[i := slots[i]] == Partial(fs, slots, i + 1)
  {
  }

  ghost predicate Complete(fs: seq<Field>, i: nat, seen: set<nat>) {
    forall j | i <= j < |fs| && fs[j].htype.Required? :: j in seen
  }

  lemma {:induction false} FieldsFrom(fs: seq<Field>, slots: seq<Slot>, us: seq<seq<Unknown>>, i: nat, seen: set<nat>)
      returns (seen': set<nat>)
    requires ValidDesc(fs) && HoldsAll(fs, slots) && ShortSlots(fs, slots) && |us| == |fs| + 1
        && AllAreUnknown(fs, us) && i <= |fs|
    ensures HoldsAll(fs[i..], slots[i..])
    ensures DecFields(fs, Progress(Partial(fs, slots, i), seen), Mixed(fs[i..], slots[i..], us[i..]))
        == Done(Progress(slots, seen'), [])
    ensures seen <= seen' && Complete(fs, i, seen')
    decreases fs, 0, |fs| - i
  {
    var p := Progress(Partial(fs, slots, i), seen);
    if i == |fs| {
      FieldsEnd(fs, slots, us, p);
      seen' := seen;
    } else {
      var bytes := SlotBytes(fs[i], slots[i]);
      assert Short(bytes);
      if fs[i].htype.Required? { RequiredWritten(fs[i], slots[i]); }
      MixedStep(fs, slots, us, i);
      PartialStep(fs, slots, i);
      hide DecFields, ValidDesc, SlotBytes, Mixed, AllUnknown, HoldsAll, Partial, DefaultSlot, Short, ShortSlots,
          HoldsSlot;
      var rest := Mixed(fs[i + 1..], slots[i + 1..], us[i + 1..]);
      UnknownsStep(fs, p, us[i], bytes + rest);
      SlotStep(fs, p, i, slots[i], rest);
      seen' := FieldsFrom(fs, slots, us, i + 1, if bytes == [] then seen else seen + {i});
    }
  }

  lemma FieldsEnd(fs: seq<Field>, slots: seq<Slot>, us: seq<seq<Unknown>>, p: Progress)
    requires HoldsAll(fs, slots) && |us| == |fs| + 1 && AllAreUnknown(fs, us) && p.slots == Partial(fs, slots, |fs|)
    ensures HoldsAll(fs[|fs|..], slots[|fs|..])
    ensures DecFields(fs, p, Mixed(fs[|fs|..], slots[|fs|..], us[|fs|..])) == Done(Progress(slots, p.seen), [])
  {
    var i := |fs|;
    assert Partial(fs, slots, i) == slots;
    UnknownsStep(fs, p, us[i], []);
    assert AllUnknown(us[i]) + [] == AllUnknown(us[i]);
  }

  lemma RequiredWritten(f: Field, s: Slot)
    requires HoldsSlot(f, s) && f.htype.Required?
    ensures SlotBytes(f, s) != []
  {
  }

  lemma MixedStep(fs: seq<Field>, slots: seq<Slot>, us: seq<seq<Unknown>>, i: nat)
    requires HoldsAll(fs, slots) && |us| == |fs| + 1 && i < |fs|
    ensures HoldsAll(fs[i..], slots[i..]) && HoldsAll(fs[i + 1..], slots[i + 1..])
    ensures Mixed(fs[i..], slots[i..], us[i..])
        == AllUnknown(us[i]) + (SlotBytes(fs[i], slots[i]) + Mixed(fs[i + 1..], slots[i + 1..], us[i + 1..]))
  {
    assert fs[i..][1..] == fs[i + 1..] && slots[i..][1..] == slots[i + 1..] && us[i..][1..] == us[i + 1..];
  }

  /** A message decodes to itself, whatever unknown records stand between its fields. */
  lemma {:induction false} MixedRoundTrip(fs: seq<Field>, slots: seq<Slot>, us: seq<seq<Unknown>>)
    requires ValidDesc(fs) && HoldsAll(fs, slots) && ShortSlots(fs, slots) && |us| == |fs| + 1 && AllAreUnknown(fs, us)
    ensures DecMessage(fs, Defaults(fs), Mixed(fs, slots, us)) == Done(slots, [])
    decreases fs, 1
  {
    var seen := FieldsFrom(fs, slots, us, 0, {});
    assert fs[0..] == fs && slots[0..] == slots && us[0..] == us;
    assert Partial(fs, slots, 0) == Defaults(fs);
  }

  function NoUnknowns(n: nat): seq<seq<Unknown>> {
    seq(n, _ => [])
  }

  lemma {:induction false} PlainIsMixed(fs: seq<Field>, slots: seq<Slot>)
    requires HoldsAll(fs, slots)
    ensures Mixed(fs, slots, NoUnknowns(|fs| + 1)) == Message(fs, slots)
    decreases |fs|
  {
    if fs != [] {
      PlainIsMixed(fs[1..], slots[1..]);
      assert NoUnknowns(|fs| + 1)[1..] == NoUnknowns(|fs|);
      var m := Mixed(fs[1..], slots[1..], NoUnknowns(|fs|));
      assert AllUnknown([]) + (SlotBytes(fs[0], slots[0]) + m) == SlotBytes(fs[0], slots[0]) + m;
    }
  }

  lemma {:induction false} ShortParts(fs: seq<Field>, slots: seq<Slot>)
    requires HoldsAll(fs, slots) && Short(Message(fs, slots))
    ensures ShortSlots(fs, slots)
    decreases |fs|
  {
    if fs != [] {
      ShortParts(fs[1..], slots[1..]);
      forall i | 0 <= i < |fs| ensures Short(SlotBytes(fs[i], slots[i])) {
        if i > 0 { assert fs[i] == fs[1..][i - 1] && slots[i] == slots[1..][i - 1]; }
      }
    }
  }

  /** A message decodes to itself and its encoding is consumed exactly. */
  lemma {:induction false} MessageRoundTrip(fs: seq<Field>, slots: seq<Slot>)
    requires ValidDesc(fs) && HoldsAll(fs, slots) && Short(Message(fs, slots))
    ensures DecMessage(fs, Defaults(fs), Message(fs, slots)) == Done(slots, [])
    decreases fs, 2
  {
    ShortParts(fs, slots);
    MixedRoundTrip(fs, slots, NoUnknowns(|fs| + 1));
    PlainIsMixed(fs, slots);
  }
}
