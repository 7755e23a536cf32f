/** The kernel's read path: one reader at a time cycles through 16 bounce buffers.
 *
 *  A buffer is reused only after its transfer has finished and its bytes have gone to the user; what is still
 *  in the buffers when the last transfer is issued is drained at the end.  The engine works in order: it fills
 *  a buffer, and some time later its interrupt is counted.
 */
module KernelReadRing {

  import opened Common
  import opened Dma

  const SLOTS := 16
  const CHUNK_SIZE := 262144

  /** What the engine was told: copy `len` bytes from `addr` into a buffer. */
  datatype Cmd = Cmd(slot: nat, addr: nat, len: nat)

  /** The note kept for a buffer; `user` is zero when nothing is waiting in it. */
  datatype ChunkData = ChunkData(id: nat, user: nat, len: nat)

  ghost predicate Holds(slot: seq<Byte>, device: nat -> Byte, addr: nat, len: nat) {
    len <= |slot| && forall i | 0 <= i < len :: slot[i] == device(addr + i)
  }

  /** The engine and the buffers it fills. */
  datatype Ring = Ring(cmds: seq<Cmd>, landed: nat, processed: nat, slots: seq<seq<Byte>>)

  ghost predicate Shaped(r: Ring) {
    && r.processed <= r.landed <= |r.cmds| && |r.slots| == SLOTS
    && (forall i | 0 <= i < SLOTS :: |r.slots[i]| == CHUNK_SIZE)
    && (forall k | 0 <= k < |r.cmds| :: r.cmds[k].slot < SLOTS && r.cmds[k].len <= CHUNK_SIZE)
  }

  /** The commands still under way are the last ones of their buffers, and finished ones have filled theirs. */
  ghost predicate Latest(r: Ring, chunks: seq<ChunkData>, device: nat -> Byte)
    requires Shaped(r)
  {
    && |chunks| == SLOTS
    && (forall k | r.landed <= k < |r.cmds| :: chunks[r.cmds[k].slot].id == k + 1)
    && (forall i | 0 <= i < SLOTS :: NoteOk(r, chunks[i], i, device))
  }

  /** The note of buffer `i` agrees with its last command. */
  ghost predicate NoteOk(r: Ring, n: ChunkData, i: nat, device: nat -> Byte)
    requires Shaped(r) && i < SLOTS
  {
    && n.id <= |r.cmds|
    && (n.id > 0 ==>
          var c := r.cmds[n.id - 1];
          c.slot == i && c.len == n.len && (n.id <= r.landed ==> Holds(r.slots[i], device, c.addr, c.len)))
  }

  /** The bytes of a buffer after a transfer into it. */
  function Filled(slot: seq<Byte>, device: nat -> Byte, addr: nat, len: nat): seq<Byte>
    requires len <= |slot|
  {
    seq(|slot|, i requires 0 <= i < |slot| => if i < len then device(addr + i) else slot[i])
  }

  function Land(r: Ring, device: nat -> Byte): Ring
    requires Shaped(r) && r.landed < |r.cmds|
  {
    var c := r.cmds[r.landed];
    r.(landed := r.landed + 1, slots := r.slots[c.slot := Filled(r.slots[c.slot], device, c.addr, c.len)])
  }

  lemma LandKeeps(r: Ring, chunks: seq<ChunkData>, device: nat -> Byte)
    requires Shaped(r) && Latest(r, chunks, device) && r.landed < |r.cmds|
    ensures Shaped(Land(r, device)) && Latest(Land(r, device), chunks, device)
  {
    var r', c := Land(r, device), r.cmds[r.landed];
    assert chunks[c.slot].id == r.landed + 1;
    forall i | 0 <= i < SLOTS ensures NoteOk(r', chunks[i], i, device) {
      assert NoteOk(r, chunks[i], i, device);
      if i != c.slot { assert r'.slots[i] == r.slots[i]; }
    }
  }

  /** Issuing into a buffer whose last transfer has been counted. */
  lemma IssueKeeps(r: Ring, chunks: seq<ChunkData>, device: nat -> Byte, i: nat, addr: nat, len: nat, user: nat)
    requires Shaped(r) && Latest(r, chunks, device) && i < SLOTS && chunks[i].id <= r.processed && len <= CHUNK_SIZE
    ensures var r' := r.(cmds := r.cmds + [Cmd(i, addr, len)]);
      Shaped(r') && Latest(r', chunks[i := ChunkData(|r.cmds| + 1, user, len)], device)
  {
    var r', chunks' := r.(cmds := r.cmds + [Cmd(i, addr, len)]), chunks[i := ChunkData(|r.cmds| + 1, user, len)];
    forall k | r'.landed <= k < |r'.cmds| ensures chunks'[r'.cmds[k].slot].id == k + 1 {
      if k < |r.cmds| { assert chunks[r.cmds[k].slot].id == k + 1; }
    }
    forall j | 0 <= j < SLOTS ensures NoteOk(r', chunks'[j], j, device) {
      NoteStays(r, r', chunks[j], j, device);
    }
  }

  lemma NoteStays(r: Ring, r': Ring, n: ChunkData, i: nat, device: nat -> Byte)
    requires Shaped(r) && Shaped(r') && i < SLOTS && NoteOk(r, n, i, device)
    requires r.cmds <= r'.cmds && r'.landed == r.landed && r'.slots == r.slots
    ensures NoteOk(r', n, i, device)
  {
  }

  // ---- What the engine is told ----

  /** Command `k` reads the `k`-th piece of 256 KiB, or what is left of it, into buffer `k % 16`. */
  predicate CutSoFar(cmds: seq<Cmd>, addr: nat, len: nat) {
    forall k | 0 <= k < |cmds| ::
      k * 0x4_0000 < len && cmds[k] == Cmd(k % 16, addr + k * 0x4_0000, Min(len - k * 0x4_0000, 0x4_0000))
  }

  /** There is one for each piece. */
  predicate Cut(cmds: seq<Cmd>, addr: nat, len: nat) {
    CutSoFar(cmds, addr, len) && len <= |cmds| * 0x4_0000
  }

  // ---- Where the bytes are ----

  /** What a call reads: device memory from `addr` on, to user memory from `user` on. */
  datatype Job = Job(addr: nat, user: nat, device: nat -> Byte)

  ghost predicate Waits(job: Job, c: ChunkData, p: nat) {
    c.user != 0 && job.user <= c.user && c.user - job.user <= p < c.user - job.user + c.len
  }

  /** A waiting buffer holds a piece of what has been asked for. */
  ghost predicate Piece(job: Job, r: Ring, c: ChunkData, off: nat) {
    c.user != 0 ==>
      && 0 < c.id <= |r.cmds| && job.user <= c.user && c.user - job.user + c.len <= off
      && r.cmds[c.id - 1].addr == job.addr + (c.user - job.user)
  }

  /** Every byte asked for so far is at its place or waits in a buffer. */
  ghost predicate Accounted(job: Job, r: Ring, chunks: seq<ChunkData>, out: seq<Byte>, off: nat) {
    && off <= |out|
    && (forall i | 0 <= i < |chunks| :: Piece(job, r, chunks[i], off))
    && (forall p | 0 <= p < off :: Found(job, chunks, out, p))
  }

  ghost predicate Found(job: Job, chunks: seq<ChunkData>, out: seq<Byte>, p: nat)
    requires p < |out|
  {
    out[p] == job.device(job.addr + p) || exists i | 0 <= i < |chunks| :: Waits(job, chunks[i], p)
  }

  function Placed(out: seq<Byte>, at: nat, bytes: seq<Byte>): seq<Byte>
    requires at + |bytes| <= |out|
  {
    out[..at] + bytes + out[at + |bytes|..]
  }

  /** Handing a waiting buffer to the user. */
  lemma Collected(job: Job, r: Ring, chunks: seq<ChunkData>, out: seq<Byte>, off: nat, i: nat)
    requires Shaped(r) && Latest(r, chunks, job.device) && Accounted(job, r, chunks, out, off)
    requires i < SLOTS && chunks[i].user != 0 && chunks[i].id <= r.landed
    ensures chunks[i].len <= CHUNK_SIZE && job.user <= chunks[i].user
        && chunks[i].user - job.user + chunks[i].len <= |out|
    ensures Accounted(job, r, chunks[i := chunks[i].(user := 0)],
                      Placed(out, chunks[i].user - job.user, r.slots[i][..chunks[i].len]), off)
  {
    var c, chunks' := chunks[i], chunks[i := chunks[i].(user := 0)];
    assert Piece(job, r, c, off) && NoteOk(r, c, i, job.device);
    var at := c.user - job.user;
    assert Holds(r.slots[i], job.device, job.addr + at, c.len);
    hide Latest, Shaped, Placed, Holds;
    PlacedSize(out, at, r.slots[i][..c.len]);
    forall j | 0 <= j < |chunks'| ensures Piece(job, r, chunks'[j], off) { assert Piece(job, r, chunks[j], off); }
    forall p | 0 <= p < off ensures Found(job, chunks', Placed(out, at, r.slots[i][..c.len]), p) {
      FoundAfter(job, chunks, out, i, r.slots[i], p);
    }
  }

  lemma FoundAfter(job: Job, chunks: seq<ChunkData>, out: seq<Byte>, i: nat, slot: seq<Byte>, p: nat)
    requires p < |out| && Found(job, chunks, out, p) && i < |chunks| && chunks[i].user != 0
        && job.user <= chunks[i].user
    requires chunks[i].user - job.user + chunks[i].len <= |out|
    requires Holds(slot, job.device, job.addr + (chunks[i].user - job.user), chunks[i].len)
    ensures var at, bytes := chunks[i].user - job.user, slot[..chunks[i].len];
      p < |Placed(out, at, bytes)| && Found(job, chunks[i := chunks[i].(user := 0)], Placed(out, at, bytes), p)
  {
    var c, chunks' := chunks[i], chunks[i := chunks[i].(user := 0)];
    var at := c.user - job.user;
    PlacedAt(out, at, slot[..c.len], p);
    if at <= p < at + c.len {
      HeldAt(slot, job.device, job.addr + at, c.len, p - at);
    } else if out[p] != job.device(job.addr + p) {
      var j :| 0 <= j < |chunks| && Waits(job, chunks[j], p);
      assert Waits(job, chunks'[j], p);
    }
  }

  lemma PlacedSize(out: seq<Byte>, at: nat, bytes: seq<Byte>)
    requires at + |bytes| <= |out|
    ensures |Placed(out, at, bytes)| == |out|
  {
  }

  lemma PlacedAt(out: seq<Byte>, at: nat, bytes: seq<Byte>, p: nat)
    requires at + |bytes| <= |out| && p < |out|
    ensures p < |Placed(out, at, bytes)|
    ensures Placed(out, at, bytes)[p] == if at <= p < at + |bytes| then bytes[p - at] else out[p]
  {
  }

  lemma HeldAt(slot: seq<Byte>, device: nat -> Byte, addr: nat, len: nat, k: nat)
    requires Holds(slot, device, addr, len) && k < len
    ensures slot[..len][k] == device(addr + k)
  {
  }

  /** Asking for the next piece with an empty buffer. */
  lemma Issued(job: Job, r: Ring, chunks: seq<ChunkData>, out: seq<Byte>, off: nat, i: nat, n: nat)
    requires Accounted(job, r, chunks, out, off) && |chunks| == SLOTS && i < SLOTS && chunks[i].user == 0
    requires job.user > 0 && 0 < n && off + n <= |out|
    ensures Accounted(job, r.(cmds := r.cmds + [Cmd(i, job.addr + off, n)]),
        chunks[i := ChunkData(|r.cmds| + 1, job.user + off, n)], out, off + n)
  {
    var r', chunks' := r.(cmds := r.cmds + [Cmd(i, job.addr + off, n)]),
        chunks[i := ChunkData(|r.cmds| + 1, job.user + off, n)];
    forall j | 0 <= j < |chunks'| ensures Piece(job, r', chunks'[j], off + n) {
      assert Piece(job, r, chunks[j], off);
    }
    forall p | 0 <= p < off + n ensures Found(job, chunks', out, p) {
      assert p < off ==> Found(job, chunks, out, p);
      if p >= off {
        assert Waits(job, chunks'[i], p);
      } else if out[p] != job.device(job.addr + p) {
        var j :| 0 <= j < |chunks| && Waits(job, chunks[j], p);
        assert Waits(job, chunks'[j], p);
      }
    }
  }

  lemma AllThere(job: Job, r: Ring, chunks: seq<ChunkData>, out: seq<Byte>, off: nat)
    requires Accounted(job, r, chunks, out, off) && forall i | 0 <= i < |chunks| :: chunks[i].user == 0
    ensures forall p | 0 <= p < off :: out[p] == job.device(job.addr + p)
  {
    forall p | 0 <= p < off ensures out[p] == job.device(job.addr + p) { assert Found(job, chunks, out, p); }
  }

  /** The engine only adds to what has landed and been counted. */
  ghost predicate Later(r: Ring, r': Ring) {
    r'.cmds == r.cmds && r.landed <= r'.landed && r.processed <= r'.processed
  }

  lemma StillAccounted(job: Job, r: Ring, r': Ring, chunks: seq<ChunkData>, out: seq<Byte>, off: nat)
    requires Accounted(job, r, chunks, out, off) && Later(r, r')
    ensures Accounted(job, r', chunks, out, off)
  {
    forall i | 0 <= i < |chunks| ensures Piece(job, r', chunks[i], off) { assert Piece(job, r, chunks[i], off); }
  }

  class Reader {
    var ring: Ring
    const device: nat -> Byte
    const alignment: nat

    constructor (device: nat -> Byte, alignment: nat)
      requires alignment > 0
      ensures this.device == device && this.alignment == alignment && Shaped(ring) && ring.cmds == []
    {
      this.device, this.alignment := device, alignment;
      ring := Ring([], 0, 0, seq(SLOTS, _ => seq(CHUNK_SIZE, _ => 0)));
    }

    /** Sleeps until command number `id` is counted; the engine moves on as it likes. */
    method Wait(id: nat, ghost chunks: seq<ChunkData>)
      requires Shaped(ring) && Latest(ring, chunks, device) && id <= |ring.cmds|
      modifies this
      ensures Shaped(ring) && Latest(ring, chunks, device) && Later(old(ring), ring)
      ensures ring.processed >= id
    {
      hide Shaped, Latest;
      Bounds(ring);
      while ring.processed < id
        invariant Shaped(ring) && Latest(ring, chunks, device) && Later(old(ring), ring)
        invariant ring.processed <= ring.landed <= |ring.cmds|
        decreases |ring.cmds| - ring.landed + |ring.cmds| - ring.processed
      {
        var count: bool := *;
        if ring.landed == ring.processed || (ring.landed < |ring.cmds| && !count) {
          LandKeeps(ring, chunks, device);
          LandGrows(ring, device);
          ring := Land(ring, device);
        } else {
          CountKeeps(ring, chunks, device);
          ring := ring.(processed := ring.processed + 1);
        }
      }
    }

    /** Reads `len` bytes of device memory; the result is exactly those bytes, unless the address is misaligned. */
    method CopyFrom(addr: nat, user: nat, len: nat) returns (ok: bool, out: seq<Byte>)
      requires Shaped(ring) && user > 0 && alignment > 0
      modifies this
      ensures ok == (addr % alignment == 0)
      ensures ok ==> |out| == len && forall p | 0 <= p < len :: out[p] == device(addr + p)
      ensures if ok then Cut(ring.cmds, addr, len) else ring == old(ring)
    {
      out := seq(len, _ => 0);
      if addr % alignment != 0 {
        return false, out;
      }
      hide Shaped, Latest, Accounted;
      var job := Job(addr, user, device);
      var chunks := seq(SLOTS, _ => ChunkData(0, 0, 0));
      StartEmpty(job, ring, chunks, out);
      ring := ring.(cmds := [], landed := 0, processed := 0);
      chunks, out := IssueAll(job, chunks, out);
      out := Drain(job, chunks, out);
      ok := true;
    }

    /** Issues a transfer for every piece, each into the next buffer once that is free. */
    method IssueAll(job: Job, chunks: seq<ChunkData>, out: seq<Byte>) returns (chunks': seq<ChunkData>, out': seq<Byte>)
      requires Shaped(ring) && Latest(ring, chunks, device) && Accounted(job, ring, chunks, out, 0)
      requires job.device == device && job.user > 0 && |chunks| == SLOTS && ring.cmds == []
      modifies this
      ensures Shaped(ring) && Latest(ring, chunks', device) && Accounted(job, ring, chunks', out', |out'|)
      ensures |out'| == |out| && |chunks'| == SLOTS && Cut(ring.cmds, job.addr, |out|)
    {
      hide Shaped, Latest, Accounted;
      chunks', out' := chunks, out;
      var off: nat, current: nat := 0, 0;
      while off < |out|
        invariant off <= |out| == |out'| && current == |ring.cmds| % SLOTS && |chunks'| == SLOTS
        invariant off == Min(|out|, |ring.cmds| * CHUNK_SIZE) && CutSoFar(ring.cmds, job.addr, |out|)
        invariant Shaped(ring) && Latest(ring, chunks', device) && Accounted(job, ring, chunks', out', off)
        decreases |out| - off
      {
        chunks', out' := Collect(job, chunks', out', off, current);
        var n := Min(|out| - off, CHUNK_SIZE);
        assert off == |ring.cmds| * CHUNK_SIZE;
        IssueKeeps(ring, chunks', device, current, job.addr + off, n, job.user + off);
        Issued(job, ring, chunks', out', off, current, n);
        ring := ring.(cmds := ring.cmds + [Cmd(current, job.addr + off, n)]);
        chunks' := chunks'[current := ChunkData(|ring.cmds|, job.user + off, n)];
        off := off + n;
        current := (current + 1) % SLOTS;
      }
    }

    /** Hands over what is still in the buffers. */
    method Drain(job: Job, chunks: seq<ChunkData>, out: seq<Byte>) returns (out': seq<Byte>)
      requires Shaped(ring) && Latest(ring, chunks, device) && Accounted(job, ring, chunks, out, |out|)
      requires job.device == device && |chunks| == SLOTS
      modifies this
      ensures |out'| == |out| && forall p | 0 <= p < |out'| :: out'[p] == device(job.addr + p)
      ensures ring.cmds == old(ring.cmds)
    {
      hide Shaped, Latest, Accounted;
      var notes := chunks;
      out' := out;
      var i: nat := 0;
      while i < SLOTS
        invariant i <= SLOTS && |out'| == |out| && |notes| == SLOTS && ring.cmds == old(ring.cmds)
        invariant Shaped(ring) && Latest(ring, notes, device) && Accounted(job, ring, notes, out', |out|)
        invariant forall j | 0 <= j < i :: notes[j].user == 0
      {
        notes, out' := Collect(job, notes, out', |out|, i);
        i := i + 1;
      }
      AllThere(job, ring, notes, out', |out|);
    }

    /** Waits for the last transfer of buffer `i` and hands its bytes to the user if they are still waiting. */
    method Collect(job: Job, chunks: seq<ChunkData>, out: seq<Byte>, ghost off: nat, i: nat)
        returns (chunks': seq<ChunkData>, out': seq<Byte>)
      requires Shaped(ring) && Latest(ring, chunks, device) && Accounted(job, ring, chunks, out, off)
          && job.device == device
      requires i < SLOTS && |chunks| == SLOTS
      modifies this
      ensures Shaped(ring) && Latest(ring, chunks', device) && Accounted(job, ring, chunks', out', off)
          && |out'| == |out|
      ensures |chunks'| == SLOTS && chunks' == chunks[i := chunks[i].(user := 0)] && chunks'[i].id <= ring.processed
      ensures ring.cmds == old(ring.cmds)
    {
      hide Shaped, Latest, Accounted;
      IdBound(ring, chunks, device, i);
      Wait(chunks[i].id, chunks);
      StillAccounted(job, old(ring), ring, chunks, out, off);
      Bounds(ring);
      out' := out;
      if chunks[i].user != 0 {
        Collected(job, ring, chunks, out, off, i);
        SlotSize(ring, i);
        out' := Placed(out, chunks[i].user - job.user, ring.slots[i][..chunks[i].len]);
      }
      chunks' := chunks[i := chunks[i].(user := 0)];
      assert chunks[i].user == 0 ==> chunks' == chunks;
      NoteKeeps(ring, chunks, device, i);
    }
  }

  lemma Bounds(r: Ring)
    requires Shaped(r)
    ensures r.processed <= r.landed <= |r.cmds|
  {
  }

  lemma SlotSize(r: Ring, i: nat)
    requires Shaped(r) && i < SLOTS
    ensures |r.slots| == SLOTS && |r.slots[i]| == CHUNK_SIZE
  {
  }

  lemma IdBound(r: Ring, chunks: seq<ChunkData>, device: nat -> Byte, i: nat)
    requires Shaped(r) && Latest(r, chunks, device) && i < SLOTS
    ensures chunks[i].id <= |r.cmds|
  {
    assert NoteOk(r, chunks[i], i, device);
  }

  lemma LandGrows(r: Ring, device: nat -> Byte)
    requires Shaped(r) && r.landed < |r.cmds|
    ensures Land(r, device).landed == r.landed + 1 && Land(r, device).processed == r.processed
        && Land(r, device).cmds == r.cmds
  {
  }

  lemma CountKeeps(r: Ring, chunks: seq<ChunkData>, device: nat -> Byte)
    requires Shaped(r) && Latest(r, chunks, device) && r.processed < r.landed
    ensures Shaped(r.(processed := r.processed + 1)) && Latest(r.(processed := r.processed + 1), chunks, device)
  {
    var r' := r.(processed := r.processed + 1);
    forall i | 0 <= i < SLOTS ensures NoteOk(r', chunks[i], i, device) { NoteStays(r, r', chunks[i], i, device); }
  }

  lemma NoteKeeps(r: Ring, chunks: seq<ChunkData>, device: nat -> Byte, i: nat)
    requires Shaped(r) && Latest(r, chunks, device) && i < SLOTS
    ensures Latest(r, chunks[i := chunks[i].(user := 0)], device)
  {
    var chunks' := chunks[i := chunks[i].(user := 0)];
    forall j | 0 <= j < SLOTS ensures NoteOk(r, chunks'[j], j, device) { assert NoteOk(r, chunks[j], j, device); }
    forall k | r.landed <= k < |r.cmds|
        ensures chunks'[r.cmds[k].slot].id == k + 1 { assert chunks[r.cmds[k].slot].id == k + 1; }
  }

  lemma StartEmpty(job: Job, r: Ring, chunks: seq<ChunkData>, out: seq<Byte>)
    requires Shaped(r) && |chunks| == SLOTS && forall i | 0 <= i < SLOTS :: chunks[i] == ChunkData(0, 0, 0)
    ensures var r' := r.(cmds := [], landed := 0, processed := 0);
      Shaped(r') && Latest(r', chunks, job.device) && Accounted(job, r', chunks, out, 0)
  {
  }
}
