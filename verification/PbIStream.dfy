/** The decoder's stream operations, proved to compute the functions of module `PbDecode`. */
module PbIStream {
  import opened Base128
  import opened PbMessage
  import opened PbDecode

  /** A method's result agrees with a function's: same value and same bytes left, or both fail. */
  ghost predicate Agrees<T>(p: Parsed<T>, ok: bool, value: T, rest: seq<Byte>) {
    if p.Done? then ok && value == p.value && rest == p.rest else !ok
  }

  /** A stream only moves forward; after a success its end is where it was. */
  predicate Moved(pos: nat, left: nat, pos': nat, left': nat, ok: bool) {
    left' <= left && pos' + left' <= pos + left && (ok ==> pos' + left' == pos + left)
  }

  class IStream {
    const buffer: seq<Byte>
    var pos: nat
    var left: nat

    ghost predicate Valid()
      reads this
    {
      pos + left <= |buffer|
    }

    function Rest(): (r: seq<Byte>)
      reads this
      requires Valid()
      ensures |r| == left
    {
      buffer[pos..pos + left]
    }

    constructor (buffer: seq<Byte>, pos: nat, left: nat)
      requires pos + left <= |buffer|
      ensures Valid() && this.buffer == buffer && this.pos == pos && this.left == left
    {
      this.buffer, this.pos, this.left := buffer, pos, left;
    }

    method ReadByte() returns (ok: bool, b: Byte)
      requires Valid()
      modifies this
      ensures Valid() && Moved(old(pos), old(left), pos, left, ok)
      ensures ok == (old(left) > 0)
      ensures ok ==> old(Rest()) == [b] + Rest() && old(Rest())[0] == b && old(Rest())[1..] == Rest()
    {
      if left == 0 {
        return false, 0;
      }
      b := buffer[pos];
      pos, left := pos + 1, left - 1;
      ok := true;
    }

    method ReadBytes(n: nat) returns (ok: bool, b: seq<Byte>)
      requires Valid()
      modifies this
      ensures Valid() && Moved(old(pos), old(left), pos, left, ok)
      ensures Agrees(Read(old(Rest()), n), ok, b, Rest())
      ensures ok ==> pos == old(pos) + n
    {
      if left < n {
        return false, [];
      }
      b := buffer[pos..pos + n];
      pos, left := pos + n, left - n;
      ok := true;
      assert b == old(Rest())[..n] && Rest() == old(Rest())[n..];
    }

    method DecodeVarint() returns (ok: bool, v: nat)
      requires Valid()
      modifies this
      ensures Valid() && Moved(old(pos), old(left), pos, left, ok)
      ensures Agrees(Decode(old(Rest())), ok, v, Rest())
    {
      hide Scale;
      v := 0;
      var k := 0;
      while true
        invariant Valid() && Moved(old(pos), old(left), pos, left, true)
        invariant DecodeFrom(Rest(), k, v) == Decode(old(Rest()))
        decreases left
      {
        if k >= 10 {
          return false, 0;
        }
        var byte;
        ok, byte := ReadByte();
        if !ok {
          return;
        }
        v := v + byte % 128 * Scale(k) % WORD64;
        if byte < 128 {
          return;
        }
        k := k + 1;
      }
    }

    method DecodeVarint32() returns (ok: bool, v: nat)
      requires Valid()
      modifies this
      ensures Valid() && Moved(old(pos), old(left), pos, left, ok)
      ensures Agrees(Decode32(old(Rest())), ok, v, Rest())
    {
      hide Scale, SignByte;
      var byte;
      v := 0;
      ok, byte := ReadByte();
      if !ok {
        return;
      }
      if byte < 128 {
        v := byte;
        return;
      }
      v := byte % 128;
      var k := 1;
      while true
        invariant Valid() && Moved(old(pos), old(left), pos, left, true)
        invariant Decode32From(Rest(), k, v) == Decode32(old(Rest()))
        decreases left
      {
        ok, byte := ReadByte();
        if !ok {
          return;
        }
        if k >= 5 {
          if byte % 128 != 0 && (v < BIT31 || byte != SignByte(k)) {
            return false, 0;
          }
        } else {
          v := v + byte % 128 * Scale(k) % WORD32;
        }
        if byte < 128 {
          if k == 4 && byte / 16 % 8 != 0 {
            return false, 0;
          }
          return;
        }
        k := k + 1;
      }
    }

    method SkipVarint() returns (ok: bool)
      requires Valid()
      modifies this
      ensures Valid() && Moved(old(pos), old(left), pos, left, ok)
      ensures Agrees(Skip(old(Rest())), ok, (), Rest())
    {
      while true
        invariant Valid() && Moved(old(pos), old(left), pos, left, true)
        invariant Skip(Rest()) == Skip(old(Rest()))
        decreases left
      {
        var byte;
        ok, byte := ReadByte();
        if !ok || byte < 128 {
          return;
        }
      }
    }

    method SkipUnknown(wireType: nat) returns (ok: bool)
      requires Valid()
      modifies this
      ensures Valid() && Moved(old(pos), old(left), pos, left, ok)
      ensures Agrees(SkipField(wireType, old(Rest())), ok, (), Rest())
    {
      hide Skip, Decode32;
      var b;
      if wireType == 0 {
        ok := SkipVarint();
      } else if wireType == 1 {
        ok, b := ReadBytes(8);
      } else if wireType == 2 {
        var n;
        ok, n := DecodeVarint32();
        if ok {
          ok, b := ReadBytes(n);
        }
      } else if wireType == 5 {
        ok, b := ReadBytes(4);
      } else {
        ok := false;
      }
    }

    /** Splits off a substream for the next length-delimited record.  The stream itself steps over it when the
     *  substream is closed. */
    method MakeSubstream() returns (ok: bool, sub: IStream)
      requires Valid()
      modifies this
      ensures Valid() && Moved(old(pos), old(left), pos, left, false) && fresh(sub) && sub.Valid()
          && sub.left <= old(left)
      ensures ok ==> pos + sub.left + left == old(pos + left)
      ensures var p := Substream(old(Rest()));
        if p.Done? then ok && sub.Rest() == p.value && sub.left < old(left) && sub.buffer == buffer && sub.pos == pos
            && pos + sub.left + left <= |buffer| && buffer[pos + sub.left..pos + sub.left + left] == p.rest
        else !ok
    {
      hide Decode32;
      var n;
      ok, n := DecodeVarint32();
      if !ok || left < n {
        sub := new IStream(buffer, 0, 0);
        return false, sub;
      }
      sub := new IStream(buffer, pos, n);
      left := left - n;
    }

    /** Skips what the substream has left and moves behind it. */
    method CloseSubstream(sub: IStream)
      requires sub != this && sub.Valid() && sub.buffer == buffer && sub.pos + sub.left + left <= |buffer|
      modifies this, sub
      ensures Valid() && left == old(left) && pos == old(sub.pos + sub.left)
    {
      var ok, b := sub.ReadBytes(sub.left);
      pos := sub.pos;
    }

    method DecodeNumber(l: LType) returns (ok: bool, v: Value)
      requires Valid() && (l.VarInt? || l.UVarInt? || l.SVarInt?)
      modifies this
      ensures Valid() && Moved(old(pos), old(left), pos, left, ok)
      ensures Agrees(DecInt(l, old(Rest())), ok, v, Rest())
    {
      v := Int(0);
      DecodeBounded(Rest(), 0, 0);
      hide Decode, UnZigZag, Signed;
      var word;
      ok, word := DecodeVarint();
      if !ok {
        return;
      }
      var value, stored;
      match l {
        case UVarInt(w) =>
          value, stored := word, word % Range(w);
        case VarInt(w) =>
          value := if w == Bits64 then Signed(word, WORD64) else Signed(word, WORD32);
          stored := Signed(value % WORD64, Range(w));
        case SVarInt(w) =>
          value := UnZigZag(word);
          stored := Signed(value % WORD64, Range(w));
      }
      if stored != value {
        return false, v;
      }
      v := Int(stored);
    }

    method DecodeFixed(n: nat) returns (ok: bool, v: Value)
      requires Valid()
      modifies this
      ensures Valid() && Moved(old(pos), old(left), pos, left, ok)
      ensures var p := Read(old(Rest()), n);
        Agrees(if p.Fail? then Fail(p.error) else Done(Int(FromLittleEndian(p.value)), p.rest), ok, v, Rest())
    {
      v := Int(0);
      var b;
      ok, b := ReadBytes(n);
      if ok {
        v := Int(FromLittleEndian(b));
      }
    }

    method DecodeBlob(l: LType) returns (ok: bool, v: Value)
      requires Valid() && (l.Bytes? || l.String? || l.FixedBytes?)
      modifies this
      ensures Valid() && Moved(old(pos), old(left), pos, left, ok)
      ensures Agrees(DecBlob(l, old(Rest())), ok, v, Rest())
    {
      hide Decode32;
      v := Blob([]);
      var n, b;
      ok, n := DecodeVarint32();
      if !ok {
        return;
      }
      match l {
        case Bytes(max) =>
          if n > SIZE_MAX || n > max { return false, v; }
        case String(size) =>
          if n + 1 >= WORD32 { return false, v; }
          if n + 1 > size { return false, v; }
        case FixedBytes(size) =>
          if n > SIZE_MAX { return false, v; }
          if n == 0 { return true, Blob(Zeros(size)); }
          if n != size { return false, v; }
      }
      ok, b := ReadBytes(n);
      if ok {
        v := Blob(if l.String? then CString(b) else b);
      }
    }

    /** A submessage is decoded into `base` from a substream of its own. */
    method DecodeSubmessage(l: LType, base: Value) returns (ok: bool, v: Value)
      requires Valid() && l.Submessage?
      modifies this
      ensures Valid() && Moved(old(pos), old(left), pos, left, ok)
      ensures Agrees(DecBody(l, base, old(Rest())), ok, v, Rest())
      decreases left, 0
    {
      hide DecMessage, Substream;
      v := base;
      var sub;
      ok, sub := MakeSubstream();
      if !ok {
        return;
      }
      var slots := if base.Msg? && |base.slots| == |l.fields| then base.slots else Defaults(l.fields);
      ok, slots := sub.DecodeMessage(l.fields, slots);
      CloseSubstream(sub);
      if ok {
        v := Msg(slots);
      }
    }

    /** One value. */
    method DecodeBody(l: LType, base: Value) returns (ok: bool, v: Value)
      requires Valid()
      modifies this
      ensures Valid() && Moved(old(pos), old(left), pos, left, ok)
      ensures Agrees(DecBody(l, base, old(Rest())), ok, v, Rest())
      decreases left, 1
    {
      match l {
        case VarInt(_) => ok, v := DecodeNumber(l);
        case UVarInt(_) => ok, v := DecodeNumber(l);
        case SVarInt(_) => ok, v := DecodeNumber(l);
        case Fixed32 => ok, v := DecodeFixed(4);
        case Fixed64 => ok, v := DecodeFixed(8);
        case Submessage(_) => ok, v := DecodeSubmessage(l, base);
        case Bytes(_) => ok, v := DecodeBlob(l);
        case String(_) => ok, v := DecodeBlob(l);
        case FixedBytes(_) => ok, v := DecodeBlob(l);
      }
    }

    /** The values of a packed record. */
    method DecodePacked(l: LType, max: nat, vs: seq<Value>) returns (ok: bool, vs': seq<Value>)
      requires Valid()
      modifies this
      ensures Valid() && Moved(old(pos), old(left), pos, left, ok)
      ensures Agrees(DecPacked(l, max, vs, old(Rest())), ok, vs', Rest())
      decreases left, 2
    {
      hide DecBody;
      vs', ok := vs, true;
      while left > 0
        invariant Valid() && Moved(old(pos), old(left), pos, left, true) && ok
        invariant DecPacked(l, max, vs', Rest()) == DecPacked(l, max, vs, old(Rest()))
        decreases left
      {
        if |vs'| >= max {
          return false, vs';
        }
        var v;
        ok, v := DecodeBody(l, ZeroValue(l));
        if !ok {
          return;
        }
        vs' := vs' + [v];
      }
    }

    /** One record of a known field. */
    method DecodeSlot(f: Field, wireType: nat, slot: Slot) returns (ok: bool, slot': Slot)
      requires Valid()
      modifies this
      ensures Valid() && Moved(old(pos), old(left), pos, left, ok)
      ensures Agrees(DecSlot(f, wireType, slot, old(Rest())), ok, slot', Rest())
      decreases left, 3
    {
      hide DecBody, DecPacked, Substream;
      slot' := slot;
      var v;
      match f.htype {
        case Repeated(max) =>
          var vs := if slot.Many? then slot.vs else [];
          if wireType == 2 && Packable(f.ltype) {
            var sub;
            ok, sub := MakeSubstream();
            if !ok {
              return;
            }
            ok, vs := sub.DecodePacked(f.ltype, max, vs);
            if !ok {
              return;
            }
            CloseSubstream(sub);
            slot' := Many(vs);
          } else {
            if |vs| >= max {
              return false, slot';
            }
            ok, v := DecodeBody(f.ltype, ZeroValue(f.ltype));
            if ok { slot' := Many(vs + [v]); }
          }
        case Optional =>
          ok, v := DecodeBody(f.ltype, BaseOf(f, slot));
          if ok { slot' := Present(v); }
        case Required =>
          ok, v := DecodeBody(f.ltype, BaseOf(f, slot));
          if ok { slot' := Only(v); }
        case Singular =>
          ok, v := DecodeBody(f.ltype, BaseOf(f, slot));
          if ok { slot' := Only(v); }
      }
    }

    /** The main loop, record by record, and the check for missing required fields. */
    method DecodeMessage(fs: seq<Field>, slots: seq<Slot>) returns (ok: bool, slots': seq<Slot>)
      requires Valid() && |slots| == |fs|
      modifies this
      ensures Valid() && Moved(old(pos), old(left), pos, left, ok) && |slots'| == |fs|
      ensures Agrees(DecMessage(fs, slots, old(Rest())), ok, slots', Rest())
      decreases left, 4
    {
      hide DecSlot, SkipField, Decode32, Lookup;
      slots' := slots;
      var seen := {};
      while left > 0
        invariant Valid() && Moved(old(pos), old(left), pos, left, true) && |slots'| == |fs|
        invariant DecFields(fs, Progress(slots', seen), Rest()) == DecFields(fs, Progress(slots, {}), old(Rest()))
        decreases left
      {
        var word;
        ok, word := DecodeVarint32();
        if !ok {
          return;
        }
        var tag, wireType := word / 8, word % 8;
        if tag == 0 {
          return false, slots';
        }
        var i := Lookup(fs, tag);
        if i == |fs| {
          ok := SkipUnknown(wireType);
          if !ok {
            return;
          }
        } else {
          var slot;
          ok, slot := DecodeSlot(fs[i], wireType, slots'[i]);
          if !ok {
            return;
          }
          slots', seen := slots'[i := slot], seen + {i};
        }
      }
      ok := AllRequired(fs, seen);
    }
  }
}
