/** What the decoder makes of any sequence of records.
 *
 *  A stream need not list the fields in the order of the descriptor.  Records of known and unknown fields may come
 *  in any order, also inside submessages; array elements may be scattered, packed or not; a field may come more
 *  than once.  The result is given by applying the records one after the other.
 */
module PbRecords {
  import opened Base128
  import opened PbMessage
  import opened PbEncode
  import opened PbDecode
  import opened PbRoundTrip

  /** A record: of an unknown field, of a value that is no submessage, of a submessage with records of its own, or
   *  of several values of a packed array.  `i` is the position of the field. */
  datatype Rec =
    | Extra(u: Unknown)
    | Plain(i: nat, v: Value)
    | Nested(i: nat, recs: seq<Rec>)
    | Pack(i: nat, vs: seq<Value>)

  function Elements(s: Slot): seq<Value> {
    if s.Many? then s.vs else []
  }

  /** A value is stored, or appended to an array. */
  function Put(f: Field, s: Slot, v: Value): Slot {
    match f.htype
    case Repeated(_) => Many(Elements(s) + [v])
    case Optional => Present(v)
    case _ => Only(v)
  }

  /** Whether a slot takes one more value. */
  predicate Room(f: Field, s: Slot, n: nat) {
    f.htype.Repeated? ==> |Elements(s)| + n <= f.htype.max
  }

  /** The slots a submessage is decoded into: those already there, unless it is an array element. */
  function SubBase(f: Field, s: Slot): (r: seq<Slot>)
    requires f.ltype.Submessage?
    ensures |r| == |f.ltype.fields|
  {
    if !f.htype.Repeated? && BaseOf(f, s).Msg? && |BaseOf(f, s).slots| == |f.ltype.fields| then BaseOf(f, s).slots
    else Defaults(f.ltype.fields)
  }

  /** Records that fit the descriptor and, one after the other, the slots. */
  ghost predicate Fits(fs: seq<Field>, slots: seq<Slot>, r: Rec)
    requires |slots| == |fs|
    decreases r, 0
  {
    match r
    case Extra(u) => IsUnknown(fs, u)
    case Plain(i, v) => i < |fs| && !fs[i].ltype.Submessage? && Holds(fs[i].ltype, v) && Room(fs[i], slots[i], 1)
    case Nested(i, recs) =>
      && i < |fs| && fs[i].ltype.Submessage? && Room(fs[i], slots[i], 1)
      && FitAll(fs[i].ltype.fields, SubBase(fs[i], slots[i]), recs)
      && AllRequired(fs[i].ltype.fields, SeenIn(recs))
      && Short(RecsBytes(fs[i].ltype.fields, recs))
    case Pack(i, vs) =>
      && i < |fs| && fs[i].htype.Repeated? && Packable(fs[i].ltype) && HoldsEach(fs[i].ltype, vs)
      && Room(fs[i], slots[i], |vs|) && Short(Packed(fs[i], vs))
  }

  ghost predicate FitAll(fs: seq<Field>, slots: seq<Slot>, recs: seq<Rec>)
    requires |slots| == |fs|
    decreases recs, 1
  {
    recs == [] || (Fits(fs, slots, recs[0]) && FitAll(fs, Applied(fs, slots, recs[0]), recs[1..]))
  }

  /** The slots after a record. */
  function Applied(fs: seq<Field>, slots: seq<Slot>, r: Rec): (slots': seq<Slot>)
    requires |slots| == |fs|
    ensures |slots'| == |fs|
    decreases r, 0
  {
    match r
    case Extra(_) => slots
    case Plain(i, v) => if i < |fs| then slots[i := Put(fs[i], slots[i], v)] else slots
    case Nested(i, recs) =>
      if i < |fs| && fs[i].ltype.Submessage? then
        slots[i := Put(fs[i], slots[i], Msg(AllApplied(fs[i].ltype.fields, SubBase(fs[i], slots[i]), recs)))]
      else slots
    case Pack(i, vs) => if i < |fs| then slots[i := Many(Elements(slots[i]) + vs)] else slots
  }

  function AllApplied(fs: seq<Field>, slots: seq<Slot>, recs: seq<Rec>): (slots': seq<Slot>)
    requires |slots| == |fs|
    ensures |slots'| == |fs|
    decreases recs, 1
  {
    if recs == [] then slots else AllApplied(fs, Applied(fs, slots, recs[0]), recs[1..])
  }

  function SeenOne(r: Rec): set<nat> {
    if r.Extra? then {} else {r.i}
  }

  function SeenIn(recs: seq<Rec>): set<nat> {
    if recs == [] then {} else SeenOne(recs[0]) + SeenIn(recs[1..])
  }

  function RecBytes(fs: seq<Field>, r: Rec): seq<Byte>
    decreases r, 0
  {
    match r
    case Extra(u) => UnknownBytes(u)
    case Plain(i, v) => if i < |fs| && Typed(fs[i].ltype, v) then Basic(fs[i], v) else []
    case Nested(i, recs) =>
      if i < |fs| && fs[i].ltype.Submessage? then Tag(fs[i].tag, 2) + Delimited(RecsBytes(fs[i].ltype.fields, recs))
          else []
    case Pack(i, vs) => if i < |fs| && TypedEach(fs[i].ltype, vs)
        then Tag(fs[i].tag, 2) + Delimited(Packed(fs[i], vs)) else []
  }

  function RecsBytes(fs: seq<Field>, recs: seq<Rec>): seq<Byte>
    decreases recs, 1
  {
    if recs == [] then [] else RecBytes(fs, recs[0]) + RecsBytes(fs, recs[1..])
  }

  // ---- One record ----

  /** Only a submessage looks at what is there. */
  lemma BaseDoesNotMatter(l: LType, base: Value, s: seq<Byte>)
    requires !l.Submessage?
    ensures DecBody(l, base, s) == DecBody(l, ZeroValue(l), s)
  {
  }

  /** A value read for a field goes into its slot. */
  lemma ValueStored(f: Field, wireType: nat, slot: Slot, x: seq<Byte>, v: Value, rest: seq<Byte>)
    requires wireType == 2 ==> !Packable(f.ltype)
    requires Room(f, slot, 1)
    requires DecBody(f.ltype, if f.htype.Repeated? then ZeroValue(f.ltype) else BaseOf(f, slot), x) == Done(v, rest)
    ensures DecSlot(f, wireType, slot, x) == Done(Put(f, slot, v), rest)
  {
    hide DecBody;
  }

  lemma NumbersAreShort(l: LType, v: Value)
    requires Holds(l, v) && !l.Submessage?
    ensures Short(Body(l, v))
  {
    match l {
      case VarInt(_) => var b := Base128Length(Unsigned64(v.i));
      case UVarInt(_) => var b := Base128Length(v.i);
      case SVarInt(_) =>
        ZigZagInverts(v.i);
        var b := Base128Length(ZigZag(v.i));
      case Bytes(_) => var b := Base128Length(|v.bytes|);
      case String(_) => var b := Base128Length(|v.bytes|);
      case FixedBytes(_) => var b := Base128Length(|v.bytes|);
      case Fixed32 =>
      case Fixed64 =>
    }
  }

  lemma {:induction false} Base128Length(v: nat) returns (n: nat)
    requires v < WORD64
    ensures n == |Varint(v)| <= 10
  {
    n := |Varint(v)|;
    VarintLength(v, 10);
  }

  lemma {:induction false} VarintLength(v: nat, k: nat)
    requires 1 <= k <= 10 && (k == 10 || v < Scale(k)) && v < WORD64
    ensures |Varint(v)| <= k
    decreases v
  {
    if v >= 128 {
      ScaleValues();
      assert Scale(1) == 128 && k > 1;
      assert k < 10 ==> Scale(k) == 128 * Scale(k - 1);
      VarintLength(v / 128, k - 1);
    }
  }

  lemma PlainStep(fs: seq<Field>, p: Progress, i: nat, v: Value, rest: seq<Byte>)
    requires ValidDesc(fs) && |p.slots| == |fs| && Fits(fs, p.slots, Plain(i, v))
    ensures DecFields(fs, p, Basic(fs[i], v) + rest)
         == DecFields(fs, Progress(p.slots[i := Put(fs[i], p.slots[i], v)], p.seen + {i}), rest)
  {
    var f := fs[i];
    assert ValidField(f);
    var body := Body(f.ltype, v);
    NumbersAreShort(f.ltype, v);
    BodyRoundTrip(f.ltype, v, rest);
    BaseDoesNotMatter(f.ltype, BaseOf(f, p.slots[i]), body + rest);
    assert Basic(f, v) + rest == Tag(f.tag, WireType(f.ltype)) + (body + rest);
    hide Body, DecBody, ValidDesc, Tag, DecFields, Holds, Room;
    ValueStored(f, WireType(f.ltype), p.slots[i], body + rest, v, rest);
    RecordStep(fs, p, i, WireType(f.ltype), body + rest, Put(f, p.slots[i], v), rest);
  }

  lemma PackStep(fs: seq<Field>, p: Progress, i: nat, vs: seq<Value>, rest: seq<Byte>)
    requires ValidDesc(fs) && |p.slots| == |fs| && Fits(fs, p.slots, Pack(i, vs))
    ensures DecFields(fs, p, Tag(fs[i].tag, 2) + Delimited(Packed(fs[i], vs)) + rest)
         == DecFields(fs, Progress(p.slots[i := Many(Elements(p.slots[i]) + vs)], p.seen + {i}), rest)
  {
    var f := fs[i];
    assert ValidField(f);
    var b, es := Packed(f, vs), Elements(p.slots[i]);
    PackedRoundTrip(f, f.htype.max, es, vs);
    SubstreamInverts(b, rest);
    var x := Delimited(b) + rest;
    assert Tag(f.tag, 2) + Delimited(b) + rest == Tag(f.tag, 2) + x;
    hide Packed, DecPacked, ValidDesc, Tag, DecFields, Substream, Delimited;
    RecordStep(fs, p, i, 2, x, Many(es + vs), rest);
  }

  lemma {:induction false} NestedStep(fs: seq<Field>, p: Progress, i: nat, recs: seq<Rec>, rest: seq<Byte>)
    requires ValidDesc(fs) && |p.slots| == |fs| && Fits(fs, p.slots, Nested(i, recs))
    ensures var sub := fs[i].ltype.fields;
      DecFields(fs, p, Tag(fs[i].tag, 2) + Delimited(RecsBytes(sub, recs)) + rest)
      == DecFields(fs, Progress(Applied(fs, p.slots, Nested(i, recs)), p.seen + {i}), rest)
    decreases recs, 2
  {
    var f, sub := fs[i], fs[i].ltype.fields;
    assert ValidField(f) && ValidType(f.ltype);
    var b, base := RecsBytes(sub, recs), SubBase(f, p.slots[i]);
    var v := Msg(AllApplied(sub, base, recs));
    AnyRecordsDecode(sub, base, recs);
    SubstreamInverts(b, rest);
    var x := Delimited(b) + rest;
    assert Tag(f.tag, 2) + Delimited(b) + rest == Tag(f.tag, 2) + x;
    var from := if f.htype.Repeated? then ZeroValue(f.ltype) else BaseOf(f, p.slots[i]);
    SubmessageRead(f.ltype, from, base, x, b, v, rest);
    hide DecBody, DecMessage, ValidDesc, Tag, DecFields, Substream, Delimited, RecsBytes, AllApplied, FitAll, SeenIn,
        Room, SubBase;
    ValueStored(f, 2, p.slots[i], x, v, rest);
    RecordStep(fs, p, i, 2, x, Put(f, p.slots[i], v), rest);
  }

  lemma SubmessageRead(l: LType, from: Value, base: seq<Slot>, x: seq<Byte>, b: seq<Byte>, v: Value, rest: seq<Byte>)
    requires l.Submessage? && |base| == |l.fields| && v.Msg? && Substream(x) == Done(b, rest)
    requires base == if from.Msg? && |from.slots| == |l.fields| then from.slots else Defaults(l.fields)
    requires DecMessage(l.fields, base, b) == Done(v.slots, [])
    ensures DecBody(l, from, x) == Done(v, rest)
  {
    hide DecMessage, Substream;
  }

  /** The main loop takes a record and goes on behind it. */
  lemma {:induction false} RecStep(fs: seq<Field>, p: Progress, r: Rec, rest: seq<Byte>)
    requires ValidDesc(fs) && |p.slots| == |fs| && Fits(fs, p.slots, r)
    ensures DecFields(fs, p, RecBytes(fs, r) + rest)
        == DecFields(fs, Progress(Applied(fs, p.slots, r), p.seen + SeenOne(r)), rest)
    decreases r, 0
  {
    match r {
      case Extra(u) =>
        UnknownStep(fs, p, u, rest);
        assert p.seen + {} == p.seen;
      case Plain(i, v) => PlainStep(fs, p, i, v, rest);
      case Nested(i, recs) => NestedStep(fs, p, i, recs, rest);
      case Pack(i, vs) => PackStep(fs, p, i, vs, rest);
    }
  }

  // ---- Any records ----

  /** Decoding any records that fit applies them one after the other. */
  lemma {:induction false} AnyRecords(fs: seq<Field>, p: Progress, recs: seq<Rec>)
    requires ValidDesc(fs) && |p.slots| == |fs| && FitAll(fs, p.slots, recs)
    ensures DecFields(fs, p, RecsBytes(fs, recs))
        == Done(Progress(AllApplied(fs, p.slots, recs), p.seen + SeenIn(recs)), [])
    decreases recs, 0
  {
    if recs == [] {
      assert p.seen + {} == p.seen;
    } else {
      var r, rest := recs[0], RecsBytes(fs, recs[1..]);
      RecStep(fs, p, r, rest);
      var p1 := Progress(Applied(fs, p.slots, r), p.seen + SeenOne(r));
      hide DecFields, ValidDesc, RecBytes, Applied, Fits;
      AnyRecords(fs, p1, recs[1..]);
      assert p1.seen + SeenIn(recs[1..]) == p.seen + SeenIn(recs);
    }
  }

  /** A stream of records in any order, with unknown ones anywhere, decodes to the slots they add up to. */
  lemma {:induction false} AnyRecordsDecode(fs: seq<Field>, slots: seq<Slot>, recs: seq<Rec>)
    requires ValidDesc(fs) && |slots| == |fs| && FitAll(fs, slots, recs) && AllRequired(fs, SeenIn(recs))
    ensures DecMessage(fs, slots, RecsBytes(fs, recs)) == Done(AllApplied(fs, slots, recs), [])
    decreases recs, 1
  {
    AnyRecords(fs, Progress(slots, {}), recs);
    hide DecFields, RecsBytes, AllApplied, SeenIn, AllRequired;
    assert {} + SeenIn(recs) == SeenIn(recs);
  }

  // ---- The order between fields does not matter ----

  /** The records of one field, in order. */
  function OfField(recs: seq<Rec>, i: nat): seq<Rec> {
    if recs == [] then []
    else (if !recs[0].Extra? && recs[0].i == i then [recs[0]] else []) + OfField(recs[1..], i)
  }

  /** A slot after a record of its field. */
  lemma AppliedAt(fs: seq<Field>, a: seq<Slot>, b: seq<Slot>, r: Rec, i: nat)
    requires |a| == |fs| == |b| && i < |fs| && a[i] == b[i]
    ensures r.Extra? || r.i != i ==> Applied(fs, a, r)[i] == a[i]
    ensures Applied(fs, a, r)[i] == Applied(fs, b, r)[i] || r.Extra? || r.i != i
  {
  }

  lemma {:induction false} SlotFromItsRecords(fs: seq<Field>, a: seq<Slot>, b: seq<Slot>, recs: seq<Rec>, i: nat)
    requires |a| == |fs| == |b| && i < |fs| && a[i] == b[i]
    ensures AllApplied(fs, a, recs)[i] == AllApplied(fs, b, OfField(recs, i))[i]
    decreases |recs|
  {
    if recs != [] {
      var r := recs[0];
      AppliedAt(fs, a, b, r, i);
      hide Applied;
      if !r.Extra? && r.i == i {
        assert OfField(recs, i)[1..] == OfField(recs[1..], i);
        SlotFromItsRecords(fs, Applied(fs, a, r), Applied(fs, b, r), recs[1..], i);
      } else {
        assert [] + OfField(recs[1..], i) == OfField(recs[1..], i);
        SlotFromItsRecords(fs, Applied(fs, a, r), b, recs[1..], i);
      }
    }
  }

  // ---- The encoder's own records ----

  function RecOf(i: nat, l: LType, v: Value): Rec
    requires Typed(l, v)
    decreases l, 0
  {
    if l.Submessage? then Nested(i, RecsFrom(l.fields, v.slots, 0)) else Plain(i, v)
  }

  function RecsOfEach(i: nat, f: Field, vs: seq<Value>): seq<Rec>
    requires TypedEach(f.ltype, vs)
    decreases f, 1, |vs|
  {
    if vs == [] then [] else [RecOf(i, f.ltype, vs[0])] + RecsOfEach(i, f, vs[1..])
  }

  function RecsOfSlot(i: nat, f: Field, s: Slot): seq<Rec>
    requires TypedSlot(f, s)
    decreases f, 2
  {
    match f.htype
    case Required => [RecOf(i, f.ltype, s.v)]
    case Singular => if IsDefault(f.ltype, s.v) then [] else [RecOf(i, f.ltype, s.v)]
    case Optional => if s.Absent? then [] else [RecOf(i, f.ltype, s.v)]
    case Repeated(_) =>
      if s.vs == [] then [] else if Packable(f.ltype) then [Pack(i, s.vs)] else RecsOfEach(i, f, s.vs)
  }

  /** The records the encoder writes for the fields from position `k` on. */
  function RecsFrom(fs: seq<Field>, slots: seq<Slot>, k: nat): seq<Rec>
    requires TypedAll(fs, slots) && k <= |fs|
    decreases fs, |fs| - k
  {
    if k == |fs| then [] else RecsOfSlot(k, fs[k], slots[k]) + RecsFrom(fs, slots, k + 1)
  }

  lemma {:induction false} BytesConcat(fs: seq<Field>, a: seq<Rec>, b: seq<Rec>)
    ensures RecsBytes(fs, a + b) == RecsBytes(fs, a) + RecsBytes(fs, b)
    decreases |a|
  {
    if a == [] {
      assert a + b == b;
    } else {
      assert (a + b)[1..] == a[1..] + b;
      BytesConcat(fs, a[1..], b);
    }
  }

  lemma {:induction false} AppliedConcat(fs: seq<Field>, slots: seq<Slot>, a: seq<Rec>, b: seq<Rec>)
    requires |slots| == |fs|
    ensures AllApplied(fs, slots, a + b) == AllApplied(fs, AllApplied(fs, slots, a), b)
    ensures FitAll(fs, slots, a + b) <==> FitAll(fs, slots, a) && FitAll(fs, AllApplied(fs, slots, a), b)
    ensures SeenIn(a + b) == SeenIn(a) + SeenIn(b)
    decreases |a|
  {
    if a == [] {
      assert a + b == b;
    } else {
      assert (a + b)[1..] == a[1..] + b;
      hide Applied, Fits;
      AppliedConcat(fs, Applied(fs, slots, a[0]), a[1..], b);
    }
  }

  lemma OneRec(fs: seq<Field>, slots: seq<Slot>, r: Rec)
    requires |slots| == |fs|
    ensures RecsBytes(fs, [r]) == RecBytes(fs, r) && AllApplied(fs, slots, [r]) == Applied(fs, slots, r)
    ensures FitAll(fs, slots, [r]) <==> Fits(fs, slots, r)
    ensures SeenIn([r]) == SeenOne(r)
  {
    assert [r][1..] == [];
    assert RecBytes(fs, r) + [] == RecBytes(fs, r);
    assert SeenOne(r) + {} == SeenOne(r);
  }

  /** The record of a value has the bytes the encoder writes. */
  lemma {:induction false} RecOfBytes(fs: seq<Field>, i: nat, v: Value)
    requires i < |fs| && Typed(fs[i].ltype, v)
    ensures RecBytes(fs, RecOf(i, fs[i].ltype, v)) == Basic(fs[i], v)
    decreases fs[i], 0
  {
    var l := fs[i].ltype;
    if l.Submessage? {
      RecsFromBytes(l.fields, v.slots, 0);
      assert l.fields[0..] == l.fields && v.slots[0..] == v.slots;
    }
  }

  lemma {:induction false} EachBytes(fs: seq<Field>, i: nat, vs: seq<Value>)
    requires i < |fs| && TypedEach(fs[i].ltype, vs)
    ensures RecsBytes(fs, RecsOfEach(i, fs[i], vs)) == Unpacked(fs[i], vs)
    decreases fs[i], 1, |vs|
  {
    if vs != [] {
      RecOfBytes(fs, i, vs[0]);
      EachBytes(fs, i, vs[1..]);
      hide RecBytes, Basic;
      var r, rest := RecOf(i, fs[i].ltype, vs[0]), RecsOfEach(i, fs[i], vs[1..]);
      assert ([r] + rest)[1..] == rest;
    }
  }

  lemma {:induction false} SlotRecsBytes(fs: seq<Field>, i: nat, s: Slot)
    requires i < |fs| && TypedSlot(fs[i], s)
    ensures RecsBytes(fs, RecsOfSlot(i, fs[i], s)) == SlotBytes(fs[i], s)
    decreases fs[i], 2
  {
    var f := fs[i];
    if f.htype.Repeated? {
      if s.vs != [] && Packable(f.ltype) {
        OneRec(fs, Defaults(fs), Pack(i, s.vs));
      } else {
        EachBytes(fs, i, s.vs);
      }
    } else if !s.Absent? && !(f.htype.Singular? && IsDefault(f.ltype, s.v)) {
      RecOfBytes(fs, i, s.v);
      OneRec(fs, Defaults(fs), RecOf(i, f.ltype, s.v));
    }
  }

  /** Put together, the records are the encoding. */
  lemma {:induction false} RecsFromBytes(fs: seq<Field>, slots: seq<Slot>, k: nat)
    requires TypedAll(fs, slots) && k <= |fs|
    ensures TypedAll(fs[k..], slots[k..])
    ensures RecsBytes(fs, RecsFrom(fs, slots, k)) == Message(fs[k..], slots[k..])
    decreases fs, |fs| - k
  {
    if k < |fs| {
      SlotRecsBytes(fs, k, slots[k]);
      RecsFromBytes(fs, slots, k + 1);
      assert fs[k..][1..] == fs[k + 1..] && slots[k..][1..] == slots[k + 1..];
      hide RecsOfSlot, SlotBytes, RecsBytes;
      BytesConcat(fs, RecsOfSlot(k, fs[k], slots[k]), RecsFrom(fs, slots, k + 1));
    }
  }

  /** A slot to which the records of a value are applied takes the value. */
  lemma {:induction false} ValueApplied(fs: seq<Field>, p: seq<Slot>, i: nat, v: Value)
    requires |p| == |fs| && i < |fs| && ValidField(fs[i]) && Holds(fs[i].ltype, v) && Short(Body(fs[i].ltype, v))
    requires Room(fs[i], p[i], 1) && (fs[i].htype.Repeated? || p[i] == DefaultSlot(fs[i]))
    ensures Fits(fs, p, RecOf(i, fs[i].ltype, v)) && Applied(fs, p, RecOf(i, fs[i].ltype, v))
        == p[i := Put(fs[i], p[i], v)]
    decreases fs[i], 0
  {
    var f := fs[i];
    if f.ltype.Submessage? {
      var sub := f.ltype.fields;
      assert ValidType(f.ltype);
      var recs := RecsFrom(sub, v.slots, 0);
      assert SubBase(f, p[i]) == Defaults(sub);
      RecsFromBytes(sub, v.slots, 0);
      assert sub[0..] == sub && v.slots[0..] == v.slots;
      RecsFromApplied(sub, v.slots, 0);
      assert Partial(sub, v.slots, 0) == Defaults(sub);
      assert AllRequired(sub, SeenIn(recs));
    }
  }

  lemma {:induction false} EachApplied(fs: seq<Field>, p: seq<Slot>, i: nat, done: seq<Value>, vs: seq<Value>)
    requires |p| == |fs| && i < |fs| && ValidField(fs[i]) && fs[i].htype.Repeated? && HoldsEach(fs[i].ltype, vs)
    requires p[i] == Many(done) && |done| + |vs| <= fs[i].htype.max && Short(Unpacked(fs[i], vs))
    ensures FitAll(fs, p, RecsOfEach(i, fs[i], vs)) && AllApplied(fs, p, RecsOfEach(i, fs[i], vs))
        == p[i := Many(done + vs)]
    decreases fs[i], 1, |vs|
  {
    if vs == [] {
      assert done + [] == done;
      assert p[i := Many(done)] == p;
    } else {
      ValueApplied(fs, p, i, vs[0]);
      HoldsTail(fs[i].ltype, vs);
      var r, rest := RecOf(i, fs[i].ltype, vs[0]), RecsOfEach(i, fs[i], vs[1..]);
      hide Applied, Fits, RecOf;
      var p1 := p[i := Many(done + [vs[0]])];
      EachApplied(fs, p1, i, done + [vs[0]], vs[1..]);
      assert ([r] + rest)[1..] == rest;
      assert (done + [vs[0]]) + vs[1..] == done + vs;
      assert p1[i := Many(done + vs)] == p[i := Many(done + vs)];
    }
  }

  lemma {:induction false} SlotApplied(fs: seq<Field>, p: seq<Slot>, i: nat, s: Slot)
    requires |p| == |fs| && i < |fs| && ValidField(fs[i]) && HoldsSlot(fs[i], s) && p[i] == DefaultSlot(fs[i])
        && Short(SlotBytes(fs[i], s))
    ensures FitAll(fs, p, RecsOfSlot(i, fs[i], s)) && AllApplied(fs, p, RecsOfSlot(i, fs[i], s)) == p[i := s]
    ensures fs[i].htype.Required? ==> i in SeenIn(RecsOfSlot(i, fs[i], s))
    decreases fs[i], 2
  {
    var f := fs[i];
    if f.htype.Repeated? {
      if s.vs == [] {
        assert p[i := s] == p;
      } else if Packable(f.ltype) {
        OneRec(fs, p, Pack(i, s.vs));
        assert [] + s.vs == s.vs;
      } else {
        EachApplied(fs, p, i, [], s.vs);
        assert [] + s.vs == s.vs;
      }
    } else if s.Absent? {
      assert p[i := s] == p;
    } else if f.htype.Singular? && IsDefault(f.ltype, s.v) {
      LeftOutIsDefault(f.ltype, s.v);
      assert p[i := s] == p;
    } else {
      ValueApplied(fs, p, i, s.v);
      OneRec(fs, p, RecOf(i, f.ltype, s.v));
      hide Applied, Fits, AllApplied, FitAll;
    }
  }

  /** The encoder's records fit and add up to the message; no required field is missing. */
  lemma {:induction false} RecsFromApplied(fs: seq<Field>, slots: seq<Slot>, k: nat)
    requires ValidDesc(fs) && HoldsAll(fs, slots) && Short(Message(fs, slots)) && k <= |fs|
    ensures FitAll(fs, Partial(fs, slots, k), RecsFrom(fs, slots, k))
    ensures AllApplied(fs, Partial(fs, slots, k), RecsFrom(fs, slots, k)) == slots
    ensures forall j | k <= j < |fs| && fs[j].htype.Required? :: j in SeenIn(RecsFrom(fs, slots, k))
    decreases fs, |fs| - k
  {
    if k == |fs| {
      assert Partial(fs, slots, k) == slots;
    } else {
      var p := Partial(fs, slots, k);
      assert ValidField(fs[k]) && HoldsSlot(fs[k], slots[k]);
      ShortParts(fs, slots);
      PartialStep(fs, slots, k);
      var a, b := RecsOfSlot(k, fs[k], slots[k]), RecsFrom(fs, slots, k + 1);
      hide ValidDesc, HoldsAll, Message, SlotBytes, Partial, RecsOfSlot, AllApplied, FitAll, SeenIn, Short, HoldsSlot,
          DefaultSlot;
      SlotApplied(fs, p, k, slots[k]);
      RecsFromApplied(fs, slots, k + 1);
      AppliedConcat(fs, p, a, b);
    }
  }

  // ---- Streams made of the same records ----

  predicate AllOf(recs: seq<Rec>, i: nat) {
    forall k | 0 <= k < |recs| :: !recs[k].Extra? && recs[k].i == i
  }

  lemma {:induction false} OfFieldAllOf(recs: seq<Rec>, i: nat)
    ensures AllOf(OfField(recs, i), i)
    ensures OfField(recs, i) != [] ==> i in SeenIn(recs)
    ensures i in SeenIn(recs) ==> OfField(recs, i) != []
  {
    if recs != [] { OfFieldAllOf(recs[1..], i); }
  }

  /** Whether the records of one field fit depends on its slot alone. */
  lemma FitsAt(fs: seq<Field>, a: seq<Slot>, b: seq<Slot>, r: Rec, i: nat)
    requires |a| == |fs| == |b| && i < |fs| && a[i] == b[i] && !r.Extra? && r.i == i
    ensures Fits(fs, a, r) <==> Fits(fs, b, r)
  {
  }

  lemma {:induction false} FitLocal(fs: seq<Field>, a: seq<Slot>, b: seq<Slot>, recs: seq<Rec>, i: nat)
    requires |a| == |fs| == |b| && i < |fs| && a[i] == b[i] && AllOf(recs, i)
    ensures FitAll(fs, a, recs) <==> FitAll(fs, b, recs)
    decreases |recs|
  {
    if recs != [] {
      FitsAt(fs, a, b, recs[0], i);
      AppliedAt(fs, a, b, recs[0], i);
      hide Fits, Applied;
      FitLocal(fs, Applied(fs, a, recs[0]), Applied(fs, b, recs[0]), recs[1..], i);
    }
  }

  /** If records fit, those of one field fit by themselves. */
  lemma {:induction false} FieldFits(fs: seq<Field>, p: seq<Slot>, recs: seq<Rec>, i: nat)
    requires |p| == |fs| && i < |fs| && FitAll(fs, p, recs)
    ensures FitAll(fs, p, OfField(recs, i))
    decreases |recs|
  {
    if recs != [] {
      var r, rest := recs[0], OfField(recs[1..], i);
      FieldFits(fs, Applied(fs, p, r), recs[1..], i);
      if !r.Extra? && r.i == i {
        assert ([r] + rest)[1..] == rest;
      } else {
        assert [] + rest == rest;
        AppliedAt(fs, p, p, r, i);
        OfFieldAllOf(recs[1..], i);
        hide Applied, Fits;
        FitLocal(fs, Applied(fs, p, r), p, rest, i);
      }
    }
  }

  /** Every record is of a field of the descriptor, or really unknown. */
  ghost predicate Recognised(fs: seq<Field>, recs: seq<Rec>) {
    forall k | 0 <= k < |recs| :: if recs[k].Extra? then IsUnknown(fs, recs[k].u) else recs[k].i < |fs|
  }

  /** Conversely, if the records of each field fit by themselves, all fit together. */
  lemma {:induction false} FitTogether(fs: seq<Field>, p: seq<Slot>, recs: seq<Rec>)
    requires |p| == |fs| && Recognised(fs, recs) && forall i | 0 <= i < |fs| :: FitAll(fs, p, OfField(recs, i))
    ensures FitAll(fs, p, recs)
    decreases |recs|
  {
    if recs != [] {
      var r := recs[0];
      if !r.Extra? {
        assert FitAll(fs, p, OfField(recs, r.i));
        assert OfField(recs, r.i)[0] == r;
      }
      var p1 := Applied(fs, p, r);
      forall i | 0 <= i < |fs| ensures FitAll(fs, p1, OfField(recs[1..], i)) {
        var rest := OfField(recs[1..], i);
        assert FitAll(fs, p, OfField(recs, i));
        if !r.Extra? && r.i == i {
          assert ([r] + rest)[1..] == rest;
        } else {
          assert [] + rest == rest;
          AppliedAt(fs, p, p, r, i);
          OfFieldAllOf(recs[1..], i);
          hide Applied, Fits;
          FitLocal(fs, p1, p, rest, i);
        }
      }
      FitTogether(fs, p1, recs[1..]);
    }
  }

  /** Two streams that have the same records of each field, in the same order, give the same message, however the
   *  records of different fields are interleaved and whatever unknown records are mixed in. */
  lemma OrderDoesNotMatter(fs: seq<Field>, slots: seq<Slot>, a: seq<Rec>, b: seq<Rec>)
    requires ValidDesc(fs) && |slots| == |fs| && FitAll(fs, slots, a) && AllRequired(fs, SeenIn(a)) && Recognised(fs, b)
    requires forall i | 0 <= i < |fs| :: OfField(a, i) == OfField(b, i)
    ensures DecMessage(fs, slots, RecsBytes(fs, b)) == DecMessage(fs, slots, RecsBytes(fs, a))
    ensures DecMessage(fs, slots, RecsBytes(fs, a)) == Done(AllApplied(fs, slots, a), [])
  {
    hide DecMessage, RecsBytes, FitAll, SeenIn, ValidDesc;
    forall i | 0 <= i < |fs| ensures FitAll(fs, slots, OfField(b, i)) { FieldFits(fs, slots, a, i); }
    FitTogether(fs, slots, b);
    forall i | 0 <= i < |fs| ensures i in SeenIn(a) <==> i in SeenIn(b) {
      OfFieldAllOf(a, i);
      OfFieldAllOf(b, i);
    }
    assert AllRequired(fs, SeenIn(b));
    AnyRecordsDecode(fs, slots, a);
    AnyRecordsDecode(fs, slots, b);
    forall i | 0 <= i < |fs| ensures AllApplied(fs, slots, a)[i] == AllApplied(fs, slots, b)[i] {
      SlotFromItsRecords(fs, slots, slots, a, i);
      SlotFromItsRecords(fs, slots, slots, b, i);
    }
    assert AllApplied(fs, slots, a) == AllApplied(fs, slots, b);
  }

  /** The round trip in any order: a stream that has, for each field, the records the encoder writes for it, in
   *  their order, decodes to the message, however the fields are interleaved and whatever is unknown. */
  lemma AnyOrderRoundTrip(fs: seq<Field>, slots: seq<Slot>, recs: seq<Rec>)
    requires ValidDesc(fs) && HoldsAll(fs, slots) && Short(Message(fs, slots)) && Recognised(fs, recs)
    requires forall i | 0 <= i < |fs| :: OfField(recs, i) == OfField(RecsFrom(fs, slots, 0), i)
    ensures DecMessage(fs, Defaults(fs), RecsBytes(fs, recs)) == Done(slots, [])
  {
    RecsFromApplied(fs, slots, 0);
    assert Partial(fs, slots, 0) == Defaults(fs);
    assert AllRequired(fs, SeenIn(RecsFrom(fs, slots, 0)));
    hide DecMessage, RecsBytes, FitAll, RecsFrom, ValidDesc, HoldsAll, SeenIn, Message;
    OrderDoesNotMatter(fs, Defaults(fs), RecsFrom(fs, slots, 0), recs);
  }
}
