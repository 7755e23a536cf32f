/** The decoder as a function of the bytes in the stream. */
module PbDecode {
  import opened Base128
  import opened PbMessage

  /** Reads `n` bytes. */
  function Read(s: seq<Byte>, n: nat): (r: Parsed<seq<Byte>>)
    ensures r.Done? ==> |r.rest| <= |s| && |r.value| == n
  {
    if |s| < n then Fail("end-of-stream") else Done(s[..n], s[n..])
  }

  function FromLittleEndian(s: seq<Byte>): nat {
    if s == [] then 0 else s[0] + 256 * FromLittleEndian(s[1..])
  }

  function Signed(word: nat, range: int): int
    requires range > 0
  {
    var low := word % range;
    if low < range / 2 then low else low - range
  }

  /** Stores an integer in a field of the given width; a value that does not fit is refused. */
  function Clamp(value: int, stored: int, rest: seq<Byte>): (r: Parsed<Value>)
    ensures r.Done? ==> r.rest == rest
  {
    if stored != value then Fail("integer too large") else Done(Int(stored), rest)
  }

  function DecInt(l: LType, s: seq<Byte>): (r: Parsed<Value>)
    requires l.VarInt? || l.UVarInt? || l.SVarInt?
    ensures r.Done? ==> |r.rest| < |s|
  {
    var p := Decode(s);
    DecodeBounded(s, 0, 0);
    if p.Fail? then Fail(p.error)
    else
      match l
      case UVarInt(w) => Clamp(p.value, p.value % Range(w), p.rest)
      case VarInt(w) =>
        var svalue := if w == Bits64 then Signed(p.value, WORD64) else Signed(p.value, WORD32);
        Clamp(svalue, Signed(svalue % WORD64, Range(w)), p.rest)
      case SVarInt(w) =>
        var svalue := UnZigZag(p.value);
        Clamp(svalue, Signed(svalue % WORD64, Range(w)), p.rest)
  }

  /** Splits off the next length-delimited record. */
  function Substream(s: seq<Byte>): (r: Parsed<seq<Byte>>)
    ensures r.Done? ==> |r.rest| < |s| && |r.value| < |s|
  {
    var p := Decode32(s);
    if p.Fail? then Fail(p.error)
    else if |p.rest| < p.value then Fail("parent stream too short")
    else Done(p.rest[..p.value], p.rest[p.value..])
  }

  /** The string in an array of characters ends before the first zero. */
  function CString(s: seq<Byte>): (r: seq<Byte>)
    ensures r <= s && (forall i | 0 <= i < |r| :: r[i] != 0) && (|r| < |s| ==> s[|r|] == 0)
  {
    if s == [] || s[0] == 0 then [] else [s[0]] + CString(s[1..])
  }

  function DecBlob(l: LType, s: seq<Byte>): (r: Parsed<Value>)
    requires l.Bytes? || l.String? || l.FixedBytes?
    ensures r.Done? ==> |r.rest| < |s|
  {
    var p := Decode32(s);
    if p.Fail? then Fail(p.error)
    else
      match l
      case Bytes(max) =>
        if p.value > SIZE_MAX || p.value > max then Fail("bytes overflow")
        else var b := Read(p.rest, p.value); if b.Fail? then Fail(b.error) else Done(Blob(b.value), b.rest)
      case String(size) =>
        if p.value + 1 >= WORD32 then Fail("size too large")
        else if p.value + 1 > size then Fail("string overflow")
        else var b := Read(p.rest, p.value); if b.Fail? then Fail(b.error) else Done(Blob(CString(b.value)), b.rest)
      case FixedBytes(size) =>
        if p.value > SIZE_MAX then Fail("bytes overflow")
        else if p.value == 0 then Done(Blob(Zeros(size)), p.rest)
        else if p.value != size then Fail("incorrect fixed length bytes size")
        else var b := Read(p.rest, size); if b.Fail? then Fail(b.error) else Done(Blob(b.value), b.rest)
  }

  /** Decodes one value; a submessage is decoded into `base`. */
  function DecBody(l: LType, base: Value, s: seq<Byte>): (r: Parsed<Value>)
    ensures r.Done? ==> |r.rest| < |s|
    decreases |s|, 0
  {
    match l
    case VarInt(_) => DecInt(l, s)
    case UVarInt(_) => DecInt(l, s)
    case SVarInt(_) => DecInt(l, s)
    case Fixed32 => var b := Read(s, 4); if b.Fail? then Fail(b.error) else Done(Int(FromLittleEndian(b.value)), b.rest)
    case Fixed64 => var b := Read(s, 8); if b.Fail? then Fail(b.error) else Done(Int(FromLittleEndian(b.value)), b.rest)
    case Submessage(fs) =>
      var p := Substream(s);
      if p.Fail? then Fail(p.error)
      else
        var slots := if base.Msg? && |base.slots| == |fs| then base.slots else Defaults(fs);
        var m := DecMessage(fs, slots, p.value);
        if m.Fail? then Fail(m.error) else Done(Msg(m.value), p.rest)
    case _ => DecBlob(l, s)
  }

  /** The values of a packed record, appended to `vs`. */
  function DecPacked(l: LType, max: nat, vs: seq<Value>, s: seq<Byte>): (r: Parsed<seq<Value>>)
    decreases |s|, 1
  {
    if s == [] then Done(vs, [])
    else if |vs| >= max then Fail("array overflow")
    else
      var v := DecBody(l, ZeroValue(l), s);
      if v.Fail? then Fail(v.error) else DecPacked(l, max, vs + [v.value], v.rest)
  }

  function BaseOf(f: Field, slot: Slot): Value {
    if slot.Only? || slot.Present? then slot.v else ZeroValue(f.ltype)
  }

  /** Decodes one record of a known field into its slot.  Only a repeated field looks at the wire type. */
  function DecSlot(f: Field, wireType: nat, slot: Slot, s: seq<Byte>): (r: Parsed<Slot>)
    ensures r.Done? ==> |r.rest| <= |s|
    decreases |s|, 2
  {
    match f.htype
    case Repeated(max) =>
      var vs := if slot.Many? then slot.vs else [];
      if wireType == 2 && Packable(f.ltype) then
        var p := Substream(s);
        if p.Fail? then Fail(p.error)
        else
          var a := DecPacked(f.ltype, max, vs, p.value);
          if a.Fail? then Fail(a.error) else Done(Many(a.value), p.rest)
      else if |vs| >= max then Fail("array overflow")
      else
        var v := DecBody(f.ltype, ZeroValue(f.ltype), s);
        if v.Fail? then Fail(v.error) else Done(Many(vs + [v.value]), v.rest)
    case Optional =>
      var v := DecBody(f.ltype, BaseOf(f, slot), s);
      if v.Fail? then Fail(v.error) else Done(Present(v.value), v.rest)
    case _ =>
      var v := DecBody(f.ltype, BaseOf(f, slot), s);
      if v.Fail? then Fail(v.error) else Done(Only(v.value), v.rest)
  }

  /** Skips a record of an unknown field. */
  function SkipField(wireType: nat, s: seq<Byte>): (r: Parsed<()>)
    ensures r.Done? ==> |r.rest| <= |s|
  {
    if wireType == 0 then Skip(s)
    else if wireType == 1 then var b := Read(s, 8); if b.Fail? then Fail(b.error) else Done((), b.rest)
    else if wireType == 2 then
      var p := Decode32(s);
      if p.Fail? then Fail(p.error)
      else var b := Read(p.rest, p.value); if b.Fail? then Fail(b.error) else Done((), b.rest)
    else if wireType == 5 then var b := Read(s, 4); if b.Fail? then Fail(b.error) else Done((), b.rest)
    else Fail("invalid wire_type")
  }

  /** The position of the field with a tag, or the number of fields. */
  function Lookup(fs: seq<Field>, tag: nat): (i: nat)
    ensures i <= |fs| && (i < |fs| ==> fs[i].tag == tag) && forall j | 0 <= j < i :: fs[j].tag != tag
  {
    if fs == [] || fs[0].tag == tag then 0 else
      var i := Lookup(fs[1..], tag);
      assert forall j | 0 < j < i + 1 :: fs[j] == fs[1..][j - 1];
      i + 1
  }

  datatype Progress = Progress(slots: seq<Slot>, seen: set<nat>)

  /** The main loop: record after record until the stream is empty. */
  function DecFields(fs: seq<Field>, p: Progress, s: seq<Byte>): (r: Parsed<Progress>)
    requires |p.slots| == |fs|
    ensures r.Done? ==> |r.value.slots| == |fs|
    decreases |s|, 3
  {
    if s == [] then Done(p, [])
    else
      var t := Decode32(s);
      if t.Fail? then Fail(t.error)
      else if t.value / 8 == 0 then Fail("zero tag")
      else
        var i, wireType := Lookup(fs, t.value / 8), t.value % 8;
        if i == |fs| then
          var u := SkipField(wireType, t.rest);
          if u.Fail? then Fail(u.error) else DecFields(fs, p, u.rest)
        else
          var v := DecSlot(fs[i], wireType, p.slots[i], t.rest);
          if v.Fail? then Fail(v.error)
          else DecFields(fs, Progress(p.slots[i := v.value], p.seen + {i}), v.rest)
  }

  /** How many required fields come before position `i`. */
  function RequiredBefore(fs: seq<Field>, i: nat): nat
    requires i <= |fs|
  {
    if i == 0 then 0 else RequiredBefore(fs, i - 1) + (if fs[i - 1].htype.Required? then 1 else 0)
  }

  const MAX_REQUIRED := 64

  /** Every required field among the first 64 has been seen. */
  predicate AllRequired(fs: seq<Field>, seen: set<nat>) {
    forall i | 0 <= i < |fs| && fs[i].htype.Required? && RequiredBefore(fs, i) < MAX_REQUIRED :: i in seen
  }

  /** Decodes a whole stream into the given slots. */
  function DecMessage(fs: seq<Field>, slots: seq<Slot>, s: seq<Byte>): (r: Parsed<seq<Slot>>)
    requires |slots| == |fs|
    ensures r.Done? ==> |r.value| == |fs| && r.rest == []
    decreases |s|, 4
  {
    var r := DecFields(fs, Progress(slots, {}), s);
    if r.Fail? then Fail(r.error)
    else if !AllRequired(fs, r.value.seen) then Fail("missing required field")
    else Done(r.value.slots, [])
  }
}
