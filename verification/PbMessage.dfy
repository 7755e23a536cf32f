/** Messages of static, callback-free fields, described by an abstract schema.
 *
 *  A descriptor is a list of fields; a message has one slot for each.  This is the structure nanopb's
 *  descriptors pack into words and its generated structs lay out in memory.
 */
module PbMessage {
  import opened Base128

  /** The largest value of the 16-bit size type. */
  const SIZE_MAX := 65535

  datatype Width = Bits8 | Bits16 | Bits32 | Bits64

  function Range(w: Width): int {
    match w
    case Bits8 => 0x100
    case Bits16 => 0x1_0000
    case Bits32 => 0x1_0000_0000
    case Bits64 => 0x1_0000_0000_0000_0000
  }

  datatype LType =
    | VarInt(width: Width)
    | UVarInt(width: Width)
    | SVarInt(width: Width)
    | Fixed32
    | Fixed64
    | Bytes(max: nat)
    | String(size: nat)
    | FixedBytes(size: nat)
    | Submessage(fields: seq<Field>)

  datatype HType = Required | Optional | Singular | Repeated(max: nat)

  datatype Field = Field(tag: nat, ltype: LType, htype: HType)

  datatype Value = Int(i: int) | Blob(bytes: seq<Byte>) | Msg(slots: seq<Slot>)

  datatype Slot = Only(v: Value) | Absent | Present(v: Value) | Many(vs: seq<Value>)

  predicate Packable(l: LType) {
    l.VarInt? || l.UVarInt? || l.SVarInt? || l.Fixed32? || l.Fixed64?
  }

  function WireType(l: LType): nat {
    match l
    case Fixed32 => 5
    case Fixed64 => 1
    case VarInt(_) => 0
    case UVarInt(_) => 0
    case SVarInt(_) => 0
    case _ => 2
  }

  // ---- Which descriptors and messages are meant ----

  predicate ValidType(l: LType)
    decreases l
  {
    l.Submessage? ==> ValidDesc(l.fields)
  }

  predicate ValidField(f: Field)
    decreases f
  {
    0 < f.tag < 0x2000_0000 && ValidType(f.ltype)
  }

  /** Tags are distinct and fit the wire format. */
  predicate ValidDesc(fs: seq<Field>)
    decreases fs
  {
    && (forall i | 0 <= i < |fs| :: ValidField(fs[i]))
    && (forall i, j | 0 <= i < j < |fs| :: fs[i].tag != fs[j].tag)
  }

  /** What a struct can contain at all. */
  predicate Typed(l: LType, v: Value)
    decreases l
  {
    match l
    case VarInt(w) => v.Int? && -(Range(w) / 2) <= v.i < Range(w) / 2
    case UVarInt(w) => v.Int? && 0 <= v.i < Range(w)
    case SVarInt(w) => v.Int? && -(Range(w) / 2) <= v.i < Range(w) / 2
    case Fixed32 => v.Int? && 0 <= v.i < WORD32
    case Fixed64 => v.Int? && 0 <= v.i < WORD64
    case Bytes(_) => v.Blob? && |v.bytes| <= SIZE_MAX
    case String(size) => v.Blob? && |v.bytes| <= size && 1 <= size <= SIZE_MAX && forall i | 0 <= i < |v.bytes| ::
        v.bytes[i] != 0
    case FixedBytes(size) => v.Blob? && |v.bytes| == size && size <= SIZE_MAX
    case Submessage(fs) => v.Msg? && TypedAll(fs, v.slots)
  }

  predicate TypedSlot(f: Field, s: Slot)
    decreases f
  {
    match f.htype
    case Required => s.Only? && Typed(f.ltype, s.v)
    case Singular => s.Only? && Typed(f.ltype, s.v)
    case Optional => s.Absent? || (s.Present? && Typed(f.ltype, s.v))
    case Repeated(_) => s.Many? && forall i | 0 <= i < |s.vs| :: Typed(f.ltype, s.vs[i])
  }

  predicate TypedAll(fs: seq<Field>, slots: seq<Slot>)
    decreases fs
  {
    |fs| == |slots| && forall i | 0 <= i < |fs| :: TypedSlot(fs[i], slots[i])
  }

  /** Counts and lengths respect the maximum of their field. */
  predicate Bounded(l: LType, v: Value)
    requires Typed(l, v)
    decreases l
  {
    match l
    case Bytes(max) => |v.bytes| <= max
    case String(size) => |v.bytes| < size
    case Submessage(fs) => BoundedAll(fs, v.slots)
    case _ => true
  }

  predicate BoundedSlot(f: Field, s: Slot)
    requires TypedSlot(f, s)
    decreases f
  {
    match f.htype
    case Repeated(max) => |s.vs| <= max && forall i | 0 <= i < |s.vs| :: Bounded(f.ltype, s.vs[i])
    case _ => s.Absent? || Bounded(f.ltype, s.v)
  }

  predicate BoundedAll(fs: seq<Field>, slots: seq<Slot>)
    requires TypedAll(fs, slots)
    decreases fs
  {
    forall i | 0 <= i < |fs| :: BoundedSlot(fs[i], slots[i])
  }

  predicate Holds(l: LType, v: Value) {
    Typed(l, v) && Bounded(l, v)
  }

  predicate HoldsSlot(f: Field, s: Slot) {
    TypedSlot(f, s) && BoundedSlot(f, s)
  }

  predicate HoldsAll(fs: seq<Field>, slots: seq<Slot>) {
    TypedAll(fs, slots) && BoundedAll(fs, slots)
  }

  // ---- Defaults ----

  function Zeros(n: nat): seq<Byte> {
    seq(n, _ => 0)
  }

  function ZeroValue(l: LType): Value
    decreases l
  {
    match l
    case Bytes(_) => Blob([])
    case String(_) => Blob([])
    case FixedBytes(n) => Blob(Zeros(n))
    case Submessage(fs) => Msg(Defaults(fs))
    case _ => Int(0)
  }

  function DefaultSlot(f: Field): Slot
    decreases f
  {
    match f.htype
    case Required => Only(ZeroValue(f.ltype))
    case Singular => Only(ZeroValue(f.ltype))
    case Optional => Absent
    case Repeated(_) => Many([])
  }

  function Defaults(fs: seq<Field>): (r: seq<Slot>)
    ensures |r| == |fs|
    decreases fs
  {
    seq(|fs|, i requires 0 <= i < |fs| => DefaultSlot(fs[i]))
  }

  /** The check that leaves a proto3 field out of the encoding. */
  predicate IsDefault(l: LType, v: Value)
    decreases l
  {
    match l
    case Bytes(_) => v.Blob? && v.bytes == []
    case String(_) => v.Blob? && v.bytes == []
    case FixedBytes(n) => n == 0
    case Submessage(fs) => v.Msg? && |v.slots| == |fs| && forall i | 0 <= i < |fs| :: IsDefaultSlot(fs[i], v.slots[i])
    case _ => v == Int(0)
  }

  predicate IsDefaultSlot(f: Field, s: Slot)
    decreases f
  {
    match f.htype
    case Required => false
    case Singular => s.Only? && IsDefault(f.ltype, s.v)
    case Optional => s.Absent?
    case Repeated(_) => s == Many([])
  }

  /** What is left out is exactly what a decoder fills in, and within bounds. */
  lemma {:induction false} LeftOutIsDefault(l: LType, v: Value)
    requires Typed(l, v) && IsDefault(l, v)
    ensures v == ZeroValue(l) && Bounded(l, v)
    decreases l
  {
    if l.Submessage? {
      forall i | 0 <= i < |l.fields| ensures v.slots[i] == DefaultSlot(l.fields[i])
          && BoundedSlot(l.fields[i], v.slots[i]) {
        LeftOutSlot(l.fields[i], v.slots[i]);
      }
      assert v.slots == Defaults(l.fields);
    }
  }

  lemma {:induction false} LeftOutSlot(f: Field, s: Slot)
    requires TypedSlot(f, s) && IsDefaultSlot(f, s)
    ensures s == DefaultSlot(f) && BoundedSlot(f, s)
    decreases f
  {
    if f.htype.Singular? { LeftOutIsDefault(f.ltype, s.v); }
  }

  /** Types of which some value is left out: bytes of fixed length never are, nor is a message that contains a
   *  required field or a field of such a type. */
  predicate LeavesOut(l: LType)
    decreases l
  {
    match l
    case FixedBytes(n) => n == 0
    case Submessage(fs) => forall i | 0 <= i < |fs| :: FieldLeavesOut(fs[i])
    case _ => true
  }

  predicate FieldLeavesOut(f: Field)
    decreases f
  {
    match f.htype
    case Required => false
    case Singular => LeavesOut(f.ltype)
    case _ => true
  }

  /** A value is left out exactly if it is the one a decoder fills in, where its type allows that at all. */
  lemma {:induction false} LeftOutIff(l: LType, v: Value)
    requires Typed(l, v)
    ensures IsDefault(l, v) <==> LeavesOut(l) && v == ZeroValue(l)
    decreases l
  {
    if l.Submessage? {
      var fs := l.fields;
      forall i | 0 <= i < |fs|
        ensures IsDefaultSlot(fs[i], v.slots[i]) <==> FieldLeavesOut(fs[i]) && v.slots[i] == DefaultSlot(fs[i])
      {
        SlotLeftOutIff(fs[i], v.slots[i]);
      }
      hide IsDefaultSlot, FieldLeavesOut, DefaultSlot;
      assert v == ZeroValue(l) <==> forall i | 0 <= i < |fs| :: v.slots[i] == DefaultSlot(fs[i]) by {
        if forall i | 0 <= i < |fs| :: v.slots[i] == DefaultSlot(fs[i]) { assert v.slots == Defaults(fs); }
      }
    }
  }

  lemma {:induction false} SlotLeftOutIff(f: Field, s: Slot)
    requires TypedSlot(f, s)
    ensures IsDefaultSlot(f, s) <==> FieldLeavesOut(f) && s == DefaultSlot(f)
    decreases f
  {
    if f.htype.Singular? { LeftOutIff(f.ltype, s.v); }
  }
}
