/** The encoder: what bytes a message becomes, and the stream operations that write them. */
module PbEncode {
  import opened Base128
  import opened PbMessage

  // ---- The encoding ----

  /** `n` bytes, lowest first. */
  function LittleEndian(v: nat, n: nat): (r: seq<Byte>)
    ensures |r| == n
  {
    if n == 0 then [] else [v % 256] + LittleEndian(v / 256, n - 1)
  }

  /** Sign extension to 64 bits. */
  function Unsigned64(i: int): nat
    requires -WORD64 <= i
  {
    if i < 0 then i + WORD64 else i
  }

  function Tag(tag: nat, wireType: nat): seq<Byte> {
    Varint(tag * 8 + wireType)
  }

  function Delimited(s: seq<Byte>): seq<Byte> {
    Varint(|s|) + s
  }

  function Body(l: LType, v: Value): seq<Byte>
    requires Typed(l, v)
    decreases l, 0
  {
    match l
    case VarInt(_) => Varint(Unsigned64(v.i))
    case UVarInt(_) => Varint(v.i)
    case SVarInt(_) => Varint(ZigZag(v.i))
    case Fixed32 => LittleEndian(v.i, 4)
    case Fixed64 => LittleEndian(v.i, 8)
    case Submessage(fs) => Delimited(Message(fs, v.slots))
    case _ => Delimited(v.bytes)
  }

  function Basic(f: Field, v: Value): seq<Byte>
    requires Typed(f.ltype, v)
    decreases f, 0
  {
    Tag(f.tag, WireType(f.ltype)) + Body(f.ltype, v)
  }

  predicate TypedEach(l: LType, vs: seq<Value>) {
    forall i | 0 <= i < |vs| :: Typed(l, vs[i])
  }

  function Packed(f: Field, vs: seq<Value>): seq<Byte>
    requires TypedEach(f.ltype, vs)
    decreases f, 1, |vs|
  {
    if vs == [] then [] else Body(f.ltype, vs[0]) + Packed(f, vs[1..])
  }

  function Unpacked(f: Field, vs: seq<Value>): seq<Byte>
    requires TypedEach(f.ltype, vs)
    decreases f, 1, |vs|
  {
    if vs == [] then [] else Basic(f, vs[0]) + Unpacked(f, vs[1..])
  }

  function SlotBytes(f: Field, s: Slot): seq<Byte>
    requires TypedSlot(f, s)
    decreases f, 2
  {
    match f.htype
    case Required => Basic(f, s.v)
    case Singular => if IsDefault(f.ltype, s.v) then [] else Basic(f, s.v)
    case Optional => if s.Absent? then [] else Basic(f, s.v)
    case Repeated(_) =>
      if s.vs == [] then []
      else if Packable(f.ltype) then Tag(f.tag, 2) + Delimited(Packed(f, s.vs))
      else Unpacked(f, s.vs)
  }

  function Message(fs: seq<Field>, slots: seq<Slot>): seq<Byte>
    requires TypedAll(fs, slots)
    decreases fs
  {
    if fs == [] then [] else SlotBytes(fs[0], slots[0]) + Message(fs[1..], slots[1..])
  }
}
