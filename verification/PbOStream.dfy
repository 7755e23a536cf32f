/** The encoder's stream operations: the same calls measure a message and write it. */
module PbOStream {
  import opened Base128
  import opened PbMessage
  import opened PbEncode

  // ---- The stream ----

  /** What a stream operation does to a stream: the bytes are counted, and written unless the stream only
   *  measures; the operation fails exactly when they do not fit. */
  predicate Did(sizing: bool, max: nat, written: nat, out: seq<Byte>, written': nat, out': seq<Byte>, ok: bool,
      bytes: seq<Byte>) {
    && ok == (sizing || written + |bytes| <= max)
    && (ok ==> written' == written + |bytes| && out' == out + (if sizing then [] else bytes))
    && (!ok ==> written <= written')
  }

  /** Whether it succeeds or fails, an operation only appends, and appends what it counts unless the stream only
   *  measures. */
  predicate Grew(sizing: bool, written: nat, out: seq<Byte>, written': nat, out': seq<Byte>) {
    out <= out' && written <= written' && |out'| - |out| == if sizing then 0 else written' - written
  }

  lemma DidBoth(sizing: bool, max: nat, w: nat, o: seq<Byte>, w1: nat, o1: seq<Byte>, w2: nat, o2: seq<Byte>,
      ok: bool, a: seq<Byte>, b: seq<Byte>)
    requires Did(sizing, max, w, o, w1, o1, true, a) && Did(sizing, max, w1, o1, w2, o2, ok, b)
    ensures Did(sizing, max, w, o, w2, o2, ok, a + b)
  {
    if !sizing { assert o + (a + b) == (o + a) + b; }
  }

  lemma DidFirst(sizing: bool, max: nat, w: nat, o: seq<Byte>, w1: nat, o1: seq<Byte>, a: seq<Byte>, b: seq<Byte>)
    requires Did(sizing, max, w, o, w1, o1, false, a)
    ensures Did(sizing, max, w, o, w1, o1, false, a + b)
  {
  }

  class OStream {
    const sizing: bool
    const maxSize: nat
    var written: nat
    var out: seq<Byte>

    /** No more has been written than there is room for. */
    predicate Fits()
      reads this
    {
      sizing || written <= maxSize
    }

    constructor (sizing: bool, maxSize: nat)
      ensures this.sizing == sizing && this.maxSize == maxSize && written == 0 && out == []
    {
      this.sizing, this.maxSize, written, out := sizing, maxSize, 0, [];
    }

    method Write(bytes: seq<Byte>) returns (ok: bool)
      requires Fits()
      modifies this
      ensures Fits() && Grew(sizing, old(written), old(out), written, out)
      ensures Did(sizing, maxSize, old(written), old(out), written, out, ok, bytes)
    {
      if !sizing {
        if written + |bytes| > maxSize {
          return false;
        }
        out := out + bytes;
      }
      written := written + |bytes|;
      ok := true;
    }

    method EncodeVarint(v: nat) returns (ok: bool)
      requires v < WORD64
      requires Fits()
      modifies this
      ensures Fits() && Grew(sizing, old(written), old(out), written, out)
      ensures Did(sizing, maxSize, old(written), old(out), written, out, ok, Varint(v))
    {
      var bytes := Base128.EncodeVarint(v);
      ok := Write(bytes);
    }

    method EncodeTag(tag: nat, wireType: nat) returns (ok: bool)
      requires tag < 0x2000_0000 && wireType < 8
      requires Fits()
      modifies this
      ensures Fits() && Grew(sizing, old(written), old(out), written, out)
      ensures Did(sizing, maxSize, old(written), old(out), written, out, ok, Tag(tag, wireType))
    {
      ok := EncodeVarint(tag * 8 + wireType);
    }

    /** A length and that many bytes. */
    method EncodeString(bytes: seq<Byte>) returns (ok: bool)
      requires |bytes| < WORD64
      requires Fits()
      modifies this
      ensures Fits() && Grew(sizing, old(written), old(out), written, out)
      ensures Did(sizing, maxSize, old(written), old(out), written, out, ok, Delimited(bytes))
    {
      hide Did, Varint;
      ok := EncodeVarint(|bytes|);
      if !ok {
        DidFirst(sizing, maxSize, old(written), old(out), written, out, Varint(|bytes|), bytes);
        return;
      }
      ghost var w, o := written, out;
      ok := Write(bytes);
      DidBoth(sizing, maxSize, old(written), old(out), w, o, written, out, ok, Varint(|bytes|), bytes);
    }

    /** In a measuring stream nothing is written, only counted. */
    method Count(n: nat, ghost bytes: seq<Byte>)
      requires sizing && |bytes| == n
      requires Fits()
      modifies this
      ensures Fits() && Grew(sizing, old(written), old(out), written, out)
      ensures Did(sizing, maxSize, old(written), old(out), written, out, true, bytes)
    {
      written := written + n;
    }

    method EncodeNumber(l: LType, v: Value) returns (ok: bool)
      requires Packable(l) && Typed(l, v)
      requires Fits()
      modifies this
      ensures Fits() && Grew(sizing, old(written), old(out), written, out)
      ensures Did(sizing, maxSize, old(written), old(out), written, out, ok, Body(l, v))
    {
      match l {
        case UVarInt(_) => ok := EncodeVarint(v.i);
        case VarInt(_) => ok := EncodeVarint(if v.i < 0 then v.i + WORD64 else v.i);
        case SVarInt(_) =>
          ZigZagInverts(v.i);
          ok := EncodeVarint(ZigZag(v.i));
        case Fixed32 => ok := Write(LittleEndian(v.i, 4));
        case Fixed64 => ok := Write(LittleEndian(v.i, 8));
      }
    }

    method EncodeBlob(l: LType, v: Value) returns (ok: bool)
      requires (l.Bytes? || l.String? || l.FixedBytes?) && Typed(l, v)
      requires Fits()
      modifies this
      ensures Fits() && Grew(sizing, old(written), old(out), written, out)
      ensures Bounded(l, v) ==> Did(sizing, maxSize, old(written), old(out), written, out, ok, Body(l, v))
      ensures !Bounded(l, v) ==> !ok
    {
      match l {
        case Bytes(max) =>
          if |v.bytes| > max { return false; }
        case String(size) =>
          if |v.bytes| >= size { return false; }
        case FixedBytes(_) =>
      }
      ok := EncodeString(v.bytes);
    }

    /** The value of a field. */
    method EncodeBody(l: LType, v: Value) returns (ok: bool)
      requires ValidType(l) && Typed(l, v) && |Body(l, v)| < WORD64
      requires Fits()
      modifies this
      ensures Fits() && Grew(sizing, old(written), old(out), written, out)
      ensures Bounded(l, v) ==> Did(sizing, maxSize, old(written), old(out), written, out, ok, Body(l, v))
      ensures !Bounded(l, v) ==> !ok
      decreases l, 1
    {
      if Packable(l) {
        ok := EncodeNumber(l, v);
      } else if l.Submessage? {
        ok := EncodeSubmessage(l, v);
      } else {
        ok := EncodeBlob(l, v);
      }
    }

    /** A submessage is measured first and then written through a stream of exactly its size.  The two passes
     *  agree, so the branch that reports a changed size is dead. */
    method EncodeSubmessage(l: LType, v: Value) returns (ok: bool)
      requires l.Submessage? && ValidType(l) && Typed(l, v) && |Body(l, v)| < WORD64
      requires Fits()
      modifies this
      ensures Fits() && Grew(sizing, old(written), old(out), written, out)
      ensures Bounded(l, v) ==> Did(sizing, maxSize, old(written), old(out), written, out, ok, Body(l, v))
      ensures !Bounded(l, v) ==> !ok
      decreases l, 0
    {
      ghost var bytes := Message(l.fields, v.slots);
      assert Body(l, v) == Varint(|bytes|) + bytes;
      hide Message, Body, Varint, Delimited;
      var measure := new OStream(true, 0);
      ok := measure.EncodeMessage(l.fields, v.slots);
      if !ok {
        return;
      }
      var size := measure.written;
      ok := EncodeVarint(size);
      if !ok {
        DidFirst(sizing, maxSize, old(written), old(out), written, out, Varint(|bytes|), bytes);
        return;
      }
      ghost var w, o := written, out;
      if sizing {
        Count(size, bytes);
        DidBoth(sizing, maxSize, old(written), old(out), w, o, written, out, true, Varint(|bytes|), bytes);
        return;
      }
      if written + size > maxSize {
        DidBoth(sizing, maxSize, old(written), old(out), w, o, written, out, false, Varint(|bytes|), bytes);
        return false;
      }
      var sub := new OStream(false, size);
      ok := sub.EncodeMessage(l.fields, v.slots);
      written := written + sub.written;
      out := out + sub.out;
      if sub.written != size {
        assert false;
      }
      DidBoth(sizing, maxSize, old(written), old(out), w, o, written, out, ok, Varint(|bytes|), bytes);
    }

    method EncodeBasic(f: Field, v: Value) returns (ok: bool)
      requires ValidField(f) && Typed(f.ltype, v) && |Basic(f, v)| < WORD64
      requires Fits()
      modifies this
      ensures Fits() && Grew(sizing, old(written), old(out), written, out)
      ensures Bounded(f.ltype, v) ==> Did(sizing, maxSize, old(written), old(out), written, out, ok, Basic(f, v))
      ensures !Bounded(f.ltype, v) ==> !ok
      decreases f, 0
    {
      ghost var tag, body := Tag(f.tag, WireType(f.ltype)), Body(f.ltype, v);
      assert Basic(f, v) == tag + body;
      hide Did, Body, Tag, Basic;
      ok := EncodeTag(f.tag, WireType(f.ltype));
      if !ok {
        DidFirst(sizing, maxSize, old(written), old(out), written, out, tag, body);
        return;
      }
      ghost var w, o := written, out;
      ok := EncodeBody(f.ltype, v);
      if Bounded(f.ltype, v) {
        DidBoth(sizing, maxSize, old(written), old(out), w, o, written, out, ok, tag, body);
      }
    }

    /** The elements of a packed array, one after the other. */
    method EncodeElements(f: Field, vs: seq<Value>) returns (ok: bool)
      requires Packable(f.ltype) && TypedEach(f.ltype, vs)
      requires Fits()
      modifies this
      ensures Fits() && Grew(sizing, old(written), old(out), written, out)
      ensures Did(sizing, maxSize, old(written), old(out), written, out, ok, Packed(f, vs))
    {
      hide Packed, Body;
      PackedAll(f, vs);
      var i := 0;
      while i < |vs|
        invariant 0 <= i <= |vs|
        invariant Fits() && Grew(sizing, old(written), old(out), written, out)
        invariant Did(sizing, maxSize, old(written), old(out), written, out, true, Packed(f, vs[..i]))
      {
        ghost var w, o := written, out;
        PackedNext(f, vs, i);
        ok := EncodeNumber(f.ltype, vs[i]);
        DidBoth(sizing, maxSize, old(written), old(out), w, o, written, out, ok, Packed(f, vs[..i]),
            Body(f.ltype, vs[i]));
        if !ok {
          DidFirst(sizing, maxSize, old(written), old(out), written, out, Packed(f, vs[..i + 1]),
              Packed(f, vs[i + 1..]));
          return;
        }
        i := i + 1;
      }
      ok := true;
    }

    /** A packed array: tag, length, elements.  The length of fixed-size elements is computed, that of others
     *  measured. */
    method EncodePacked(f: Field, vs: seq<Value>) returns (ok: bool)
      requires ValidField(f) && Packable(f.ltype) && TypedEach(f.ltype, vs) && |Packed(f, vs)| < WORD64
      requires Fits()
      modifies this
      ensures Fits() && Grew(sizing, old(written), old(out), written, out)
      ensures Did(sizing, maxSize, old(written), old(out), written, out, ok, Tag(f.tag, 2) + Delimited(Packed(f, vs)))
    {
      ghost var tag, bytes := Tag(f.tag, 2), Packed(f, vs);
      ghost var length := Varint(|bytes|);
      assert tag + Delimited(bytes) == (tag + length) + bytes;
      hide Packed, Tag, Delimited, Varint;
      ok := EncodeTag(f.tag, 2);
      if !ok {
        DidFirst(sizing, maxSize, old(written), old(out), written, out, tag, length + bytes);
        assert tag + (length + bytes) == (tag + length) + bytes;
        return;
      }
      var size;
      if f.ltype.Fixed32? {
        size := 4 * |vs|;
        FixedSize(f, vs);
      } else if f.ltype.Fixed64? {
        size := 8 * |vs|;
        FixedSize(f, vs);
      } else {
        var measure := new OStream(true, 0);
        var done := measure.EncodeElements(f, vs);
        size := measure.written;
      }
      ghost var w, o := written, out;
      ok := EncodeVarint(size);
      DidBoth(sizing, maxSize, old(written), old(out), w, o, written, out, ok, tag, length);
      if !ok {
        DidFirst(sizing, maxSize, old(written), old(out), written, out, tag + length, bytes);
        return;
      }
      w, o := written, out;
      if sizing {
        Count(size, bytes);
      } else {
        ok := EncodeElements(f, vs);
      }
      DidBoth(sizing, maxSize, old(written), old(out), w, o, written, out, ok, tag + length, bytes);
    }

    method EncodeUnpacked(f: Field, vs: seq<Value>) returns (ok: bool)
      requires ValidField(f) && TypedEach(f.ltype, vs) && |Unpacked(f, vs)| < WORD64
      requires Fits()
      modifies this
      ensures Fits() && Grew(sizing, old(written), old(out), written, out)
      ensures BoundedEach(f.ltype, vs) ==>
          Did(sizing, maxSize, old(written), old(out), written, out, ok, Unpacked(f, vs))
      ensures !BoundedEach(f.ltype, vs) ==> !ok
      decreases f, 1
    {
      hide Unpacked, Basic;
      UnpackedAll(f, vs);
      var i := 0;
      while i < |vs|
        invariant 0 <= i <= |vs| && BoundedEach(f.ltype, vs[..i])
        invariant Fits() && Grew(sizing, old(written), old(out), written, out)
        invariant Did(sizing, maxSize, old(written), old(out), written, out, true, Unpacked(f, vs[..i]))
      {
        ghost var w, o := written, out;
        UnpackedNext(f, vs, i);
        ok := EncodeBasic(f, vs[i]);
        if Bounded(f.ltype, vs[i]) {
          DidBoth(sizing, maxSize, old(written), old(out), w, o, written, out, ok, Unpacked(f, vs[..i]),
              Basic(f, vs[i]));
        }
        if !ok {
          if Bounded(f.ltype, vs[i]) {
            DidFirst(sizing, maxSize, old(written), old(out), written, out, Unpacked(f, vs[..i + 1]),
                Unpacked(f, vs[i + 1..]));
          }
          return;
        }
        i := i + 1;
      }
      ok := true;
    }

    /** One field; nothing is written for an absent or default one. */
    method EncodeField(f: Field, s: Slot) returns (ok: bool)
      requires ValidField(f) && TypedSlot(f, s) && |SlotBytes(f, s)| < WORD64
      requires Fits()
      modifies this
      ensures Fits() && Grew(sizing, old(written), old(out), written, out)
      ensures BoundedSlot(f, s) ==> Did(sizing, maxSize, old(written), old(out), written, out, ok, SlotBytes(f, s))
      ensures !BoundedSlot(f, s) ==> !ok
      decreases f, 2
    {
      match f.htype {
        case Repeated(max) =>
          if s.vs == [] {
            return true;
          }
          if |s.vs| > max {
            return false;
          }
          if Packable(f.ltype) {
            NumbersBounded(f.ltype, s.vs);
            PackedFits(f, s.vs);
            ok := EncodePacked(f, s.vs);
          } else {
            ok := EncodeUnpacked(f, s.vs);
          }
        case Required =>
          ok := EncodeBasic(f, s.v);
        case Singular =>
          if IsDefault(f.ltype, s.v) {
            LeftOutIsDefault(f.ltype, s.v);
            return true;
          }
          ok := EncodeBasic(f, s.v);
        case Optional =>
          if s.Absent? {
            return true;
          }
          ok := EncodeBasic(f, s.v);
      }
    }

    /** All fields in order. */
    method EncodeMessage(fs: seq<Field>, slots: seq<Slot>) returns (ok: bool)
      requires ValidDesc(fs) && TypedAll(fs, slots) && |Message(fs, slots)| < WORD64
      requires Fits()
      modifies this
      ensures Fits() && Grew(sizing, old(written), old(out), written, out)
      ensures BoundedAll(fs, slots) ==>
          Did(sizing, maxSize, old(written), old(out), written, out, ok, Message(fs, slots))
      ensures !BoundedAll(fs, slots) ==> !ok
      decreases fs
    {
      hide Message, SlotBytes;
      MessageAll(fs, slots);
      var i := 0;
      while i < |fs|
        invariant 0 <= i <= |fs| && TypedAll(fs[..i], slots[..i])
            && (forall j | 0 <= j < i :: BoundedSlot(fs[j], slots[j]))
        invariant Fits() && Grew(sizing, old(written), old(out), written, out)
        invariant Did(sizing, maxSize, old(written), old(out), written, out, true, Message(fs[..i], slots[..i]))
      {
        ghost var w, o := written, out;
        MessageNext(fs, slots, i);
        assert ValidField(fs[i]);
        ok := EncodeField(fs[i], slots[i]);
        if BoundedSlot(fs[i], slots[i]) {
          DidBoth(sizing, maxSize, old(written), old(out), w, o, written, out, ok, Message(fs[..i], slots[..i]),
              SlotBytes(fs[i], slots[i]));
        }
        if !ok {
          if BoundedSlot(fs[i], slots[i]) {
            DidFirst(sizing, maxSize, old(written), old(out), written, out, Message(fs[..i + 1], slots[..i + 1]),
                Message(fs[i + 1..], slots[i + 1..]));
          }
          return;
        }
        i := i + 1;
      }
      ok := true;
    }
  }

  // ---- Encodings in pieces ----

  predicate BoundedEach(l: LType, vs: seq<Value>)
    requires TypedEach(l, vs)
  {
    forall i | 0 <= i < |vs| :: Bounded(l, vs[i])
  }

  lemma NumbersBounded(l: LType, vs: seq<Value>)
    requires Packable(l) && TypedEach(l, vs)
    ensures forall i | 0 <= i < |vs| :: Bounded(l, vs[i])
  {
  }

  lemma PackedFits(f: Field, vs: seq<Value>)
    requires TypedEach(f.ltype, vs)
    ensures |Packed(f, vs)| <= |Tag(f.tag, 2) + Delimited(Packed(f, vs))|
  {
  }

  lemma {:induction false} FixedSize(f: Field, vs: seq<Value>)
    requires TypedEach(f.ltype, vs) && (f.ltype.Fixed32? || f.ltype.Fixed64?)
    ensures |Packed(f, vs)| == (if f.ltype.Fixed32? then 4 else 8) * |vs|
  {
    if vs != [] { FixedSize(f, vs[1..]); }
  }

  lemma {:induction false} PackedConcat(f: Field, vs: seq<Value>, i: nat)
    requires TypedEach(f.ltype, vs) && i <= |vs|
    ensures Packed(f, vs) == Packed(f, vs[..i]) + Packed(f, vs[i..])
    decreases i
  {
    if i > 0 {
      PackedConcat(f, vs[1..], i - 1);
      assert vs[..i][1..] == vs[1..][..i - 1] && vs[i..] == vs[1..][i - 1..];
    }
  }

  lemma PackedAll(f: Field, vs: seq<Value>)
    requires TypedEach(f.ltype, vs)
    ensures Packed(f, vs[..0]) == [] && vs[..|vs|] == vs
  {
  }

  lemma PackedNext(f: Field, vs: seq<Value>, i: nat)
    requires TypedEach(f.ltype, vs) && i < |vs|
    ensures Packed(f, vs[..i + 1]) == Packed(f, vs[..i]) + Body(f.ltype, vs[i])
    ensures Packed(f, vs) == Packed(f, vs[..i + 1]) + Packed(f, vs[i + 1..])
  {
    PackedConcat(f, vs, i + 1);
    PackedConcat(f, vs[..i + 1], i);
    assert vs[..i + 1][..i] == vs[..i] && vs[..i + 1][i..] == [vs[i]];
    assert Packed(f, [vs[i]]) == Body(f.ltype, vs[i]) + Packed(f, []);
  }

  lemma {:induction false} UnpackedConcat(f: Field, vs: seq<Value>, i: nat)
    requires TypedEach(f.ltype, vs) && i <= |vs|
    ensures Unpacked(f, vs) == Unpacked(f, vs[..i]) + Unpacked(f, vs[i..])
    decreases i
  {
    if i > 0 {
      UnpackedConcat(f, vs[1..], i - 1);
      assert vs[..i][1..] == vs[1..][..i - 1] && vs[i..] == vs[1..][i - 1..];
    }
  }

  lemma UnpackedAll(f: Field, vs: seq<Value>)
    requires TypedEach(f.ltype, vs)
    ensures Unpacked(f, vs[..0]) == [] && vs[..|vs|] == vs
  {
  }

  lemma UnpackedNext(f: Field, vs: seq<Value>, i: nat)
    requires TypedEach(f.ltype, vs) && i < |vs|
    ensures Unpacked(f, vs[..i + 1]) == Unpacked(f, vs[..i]) + Basic(f, vs[i])
    ensures Unpacked(f, vs) == Unpacked(f, vs[..i + 1]) + Unpacked(f, vs[i + 1..])
  {
    UnpackedConcat(f, vs, i + 1);
    UnpackedConcat(f, vs[..i + 1], i);
    assert vs[..i + 1][..i] == vs[..i] && vs[..i + 1][i..] == [vs[i]];
    assert Unpacked(f, [vs[i]]) == Basic(f, vs[i]) + Unpacked(f, []);
  }

  lemma {:induction false} MessageConcat(fs: seq<Field>, slots: seq<Slot>, i: nat)
    requires TypedAll(fs, slots) && i <= |fs|
    ensures TypedAll(fs[..i], slots[..i]) && TypedAll(fs[i..], slots[i..])
    ensures Message(fs, slots) == Message(fs[..i], slots[..i]) + Message(fs[i..], slots[i..])
    decreases i
  {
    if i > 0 {
      MessageConcat(fs[1..], slots[1..], i - 1);
      assert fs[..i][1..] == fs[1..][..i - 1] && fs[i..] == fs[1..][i - 1..];
      assert slots[..i][1..] == slots[1..][..i - 1] && slots[i..] == slots[1..][i - 1..];
    } else {
      assert fs[0..] == fs && slots[0..] == slots;
    }
  }

  lemma MessageAll(fs: seq<Field>, slots: seq<Slot>)
    requires TypedAll(fs, slots)
    ensures TypedAll(fs[..0], slots[..0]) && Message(fs[..0], slots[..0]) == [] && fs[..|fs|] == fs
        && slots[..|fs|] == slots
  {
  }

  lemma MessageNext(fs: seq<Field>, slots: seq<Slot>, i: nat)
    requires TypedAll(fs, slots) && i < |fs|
    ensures TypedAll(fs[..i], slots[..i]) && TypedAll(fs[..i + 1], slots[..i + 1])
        && TypedAll(fs[i + 1..], slots[i + 1..])
    ensures Message(fs[..i + 1], slots[..i + 1]) == Message(fs[..i], slots[..i]) + SlotBytes(fs[i], slots[i])
    ensures Message(fs, slots) == Message(fs[..i + 1], slots[..i + 1]) + Message(fs[i + 1..], slots[i + 1..])
  {
    MessageConcat(fs, slots, i + 1);
    MessageConcat(fs[..i + 1], slots[..i + 1], i);
    assert fs[..i + 1][..i] == fs[..i] && fs[..i + 1][i..] == [fs[i]];
    assert slots[..i + 1][..i] == slots[..i] && slots[..i + 1][i..] == [slots[i]];
    assert Message([fs[i]], [slots[i]]) == SlotBytes(fs[i], slots[i]) + Message([], []);
  }
}
