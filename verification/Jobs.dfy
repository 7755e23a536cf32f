/** Starting and releasing a job: device memory is allocated for its arguments, and given back afterwards.
 *
 *  Bitstreams without shared virtual memory and without streams.  DMA transfers are recorded; what the device
 *  holds when the job is released is given.
 */
module Jobs {
  import Bits
  import opened Blocks
  import opened Common
  import opened GenericAllocator

  type Byte = int

  /** A buffer with its place in device memory number `mem`. */
  datatype Buffer = Buffer(data: seq<Byte>, addr: nat, fromDevice: bool, toDevice: bool, mem: nat, free: bool)

  datatype Param =
    | Single32(v: nat)
    | Single64(v: nat)
    | DeviceAddress(addr: nat)
    | VirtualAddress(p: nat)
    | Prealloc(buffer: Buffer)
    | Alloc(data: seq<Byte>, fromDevice: bool, toDevice: bool, mem: nat, free: bool, fixed: Option<nat>)
    | Local(data: seq<Byte>, fromDevice: bool, toDevice: bool, free: bool, fixed: Option<nat>)

  datatype CopyBack = Transfer(buffer: Buffer) | Free(addr: nat, mem: nat)

  datatype JobError =
    | NoLocalMemory
    | AllocatorError(error: Error)
    | UnsupportedRegisterParameter(arg: Param)
    | UnsupportedSVMParameter(arg: Param)
    | NoPEtoRelease

  datatype Outcome<T> = Good(value: T) | Bad(error: JobError)

  /** The alignment of each device memory, and which of them is local to the processing element. */
  datatype Config = Config(alignments: seq<nat>, local: Option<nat>)

  datatype Write = Write(mem: nat, addr: nat, data: seq<Byte>)

  /** Results so far, followed by those of the rest if that succeeds. */
  function After<T>(out: seq<T>, t: Outcome<seq<T>>): Outcome<seq<T>> {
    if t.Bad? then t else Good(out + t.value)
  }

  lemma AfterEnds<T>(out: seq<T>, t: Outcome<seq<T>>)
    ensures After([], t) == t && After(out, Good([])) == Good(out)
  {
    assert out + [] == out;
    if t.Good? { assert [] + t.value == t.value; }
  }

  lemma AfterMore<T>(out: seq<T>, x: seq<T>, t: Outcome<seq<T>>)
    ensures After(out, After(x, t)) == After(out + x, t)
  {
    if t.Good? { assert out + (x + t.value) == (out + x) + t.value; }
  }

  // ---- Local memories ----

  function Localized(cfg: Config, args: seq<Param>): Outcome<seq<Param>> {
    if args == [] then Good([])
    else if args[0].Local? && cfg.local.None? then Bad(NoLocalMemory)
    else
      var a := args[0];
      var p := if a.Local? then Alloc(a.data, a.fromDevice, a.toDevice, cfg.local.value, a.free, a.fixed) else a;
      After([p], Localized(cfg, args[1..]))
  }

  // ---- Allocation ----

  predicate Sane(cfg: Config, mems: seq<Memory>) {
    && |cfg.alignments| == |mems|
    && (forall m | 0 <= m < |mems| :: 1 <= cfg.alignments[m] < WORD64)
    && (cfg.local.Some? ==> cfg.local.value < |mems|)
  }

  predicate InRange(n: nat, args: seq<Param>) {
    forall i | 0 <= i < |args| :: (args[i].Alloc? ==> args[i].mem < n) && (args[i].Prealloc? ==> args[i].buffer.mem < n)
  }

  function AllocateOne(cfg: Config, mems: seq<Memory>, a: Param): (seq<Memory>, Outcome<Param>)
    requires Sane(cfg, mems) && a.Alloc? && a.mem < |mems|
  {
    var (m, r) :=
      if a.fixed.Some? then AllocateFixedIn(cfg.alignments[a.mem], mems[a.mem], |a.data|, a.fixed.value)
      else AllocateIn(cfg.alignments[a.mem], mems[a.mem], |a.data|);
    if r.Err? then (mems, Bad(AllocatorError(r.error)))
    else (mems[a.mem := m], Good(Prealloc(Buffer(a.data, r.value, a.fromDevice, a.toDevice, a.mem, a.free))))
  }

  /** Arguments are handled in order; the first failure ends it, and what was allocated stays allocated. */
  function AllocateAll(cfg: Config, mems: seq<Memory>, args: seq<Param>): (seq<Memory>, Outcome<seq<Param>>)
    requires Sane(cfg, mems) && InRange(|mems|, args)
    decreases |args|
  {
    if args == [] then (mems, Good([]))
    else
      var (mems1, p) := if args[0].Alloc? then AllocateOne(cfg, mems, args[0]) else (mems, Good(args[0]));
      if p.Bad? then (mems1, Bad(p.error))
      else
        var (mems2, r) := AllocateAll(cfg, mems1, args[1..]);
        (mems2, After([p.value], r))
  }

  // ---- Transfers ----

  datatype Moved = Moved(args: seq<Param>, copybacks: seq<CopyBack>, unused: seq<seq<Byte>>, writes: seq<Write>)

  function CopyBackOf(b: Buffer): seq<CopyBack> {
    if b.fromDevice then [Transfer(b)] else if b.free then [Free(b.addr, b.mem)] else []
  }

  function Transfers(args: seq<Param>): Moved {
    if args == [] then Moved([], [], [], [])
    else
      var r := Transfers(args[1..]);
      if !args[0].Prealloc? then r.(args := [args[0]] + r.args)
      else
        var b := args[0].buffer;
        Moved([DeviceAddress(b.addr)] + r.args,
              CopyBackOf(b) + r.copybacks,
              (if b.fromDevice then [] else [b.data]) + r.unused,
              (if b.toDevice then [Write(b.mem, b.addr, b.data)] else []) + r.writes)
  }

  function Register(a: Param): Outcome<nat> {
    match a
    case Single32(v) => Good(v)
    case Single64(v) => Good(v)
    case DeviceAddress(x) => Good(x)
    case VirtualAddress(_) => Bad(UnsupportedSVMParameter(a))
    case _ => Bad(UnsupportedRegisterParameter(a))
  }

  function Registers(args: seq<Param>): Outcome<seq<nat>> {
    if args == [] then Good([])
    else
      var x := Register(args[0]);
      if x.Bad? then Bad(x.error)
      else After([x.value], Registers(args[1..]))
  }

  // ---- Start and release ----

  datatype Started = Started(unused: seq<seq<Byte>>, registers: seq<nat>, writes: seq<Write>)

  /** The new memories, the copy-backs the processing element has to do, and the result. */
  function Start(cfg: Config, mems: seq<Memory>, args: seq<Param>): (seq<Memory>, seq<CopyBack>, Outcome<Started>)
    requires Sane(cfg, mems) && InRange(|mems|, args)
  {
    var l := Localized(cfg, args);
    LocalizedInRange(cfg, |mems|, args);
    if l.Bad? then (mems, [], Bad(l.error))
    else
      var (mems', a) := AllocateAll(cfg, mems, l.value);
      if a.Bad? then (mems', [], Bad(a.error))
      else
        var t := Transfers(a.value);
        var r := Registers(t.args);
        (mems', t.copybacks, if r.Bad? then Bad(r.error) else Good(Started(t.unused, r.value, t.writes)))
  }

  lemma {:induction false} LocalizedInRange(cfg: Config, n: nat, args: seq<Param>)
    requires InRange(n, args) && (cfg.local.Some? ==> cfg.local.value < n)
    ensures Localized(cfg, args).Good? ==> InRange(n, Localized(cfg, args).value)
  {
    if args != [] {
      LocalizedInRange(cfg, n, args[1..]);
    }
  }

  type Device = (nat, nat, nat) -> seq<Byte>

  function FreeAt(mems: seq<Memory>, mem: nat, addr: nat): (seq<Memory>, Outcome<()>)
    requires mem < |mems|
  {
    var (m, r) := FreeIn(mems[mem], addr);
    if r.Err? then (mems, Bad(AllocatorError(r.error))) else (mems[mem := m], Good(()))
  }

  predicate BacksInRange(n: nat, cbs: seq<CopyBack>) {
    forall i | 0 <= i < |cbs| :: if cbs[i].Free? then cbs[i].mem < n else cbs[i].buffer.mem < n
  }

  /** Copy-backs in order: read the data, free the block, collect the buffers. */
  function CopyBacks(mems: seq<Memory>, cbs: seq<CopyBack>, device: Device): (seq<Memory>, Outcome<seq<seq<Byte>>>)
    requires BacksInRange(|mems|, cbs)
    decreases |cbs|
  {
    if cbs == [] then (mems, Good([]))
    else
      var c := cbs[0];
      var (mems1, f) :=
        if c.Free? then FreeAt(mems, c.mem, c.addr)
        else if c.buffer.free then FreeAt(mems, c.buffer.mem, c.buffer.addr)
        else (mems, Good(()));
      if f.Bad? then (mems1, Bad(f.error))
      else
        var (mems2, r) := CopyBacks(mems1, cbs[1..], device);
        (mems2, After(if c.Free? then [] else [device(c.buffer.mem, c.buffer.addr, |c.buffer.data|)], r))
  }

  // ---- Blocks lent out of one memory ----

  datatype Region = Region(lo: nat, hi: nat)

  /** Since `m0`, exactly the blocks `bs` have been taken. */
  ghost predicate Lent(m0: Memory, m: Memory, r: Region, bs: seq<Block>) {
    Valid(m0, r.lo, r.hi) && Valid(m, r.lo, r.hi) && m.used == m0.used + bs
  }

  /** With nothing taken the memory is what it was, element for element. */
  lemma NothingLent(m0: Memory, m: Memory, r: Region)
    requires Lent(m0, m, r, [])
    ensures m == m0
  {
    assert m.used == m0.used;
    forall x ensures Covers(m.free, x) <==> Covers(m0.free, x) {
      assert r.lo <= x < r.hi <==> Covers(m.free, x) || Covers(m.used, x);
      assert r.lo <= x < r.hi <==> Covers(m0.free, x) || Covers(m0.used, x);
    }
    Unique(m.free, m0.free);
  }

  lemma LentOne(alignment: nat, m0: Memory, m: Memory, r: Region, bs: seq<Block>, size: nat, fixed: Option<nat>)
    requires 1 <= alignment < WORD64 && Rounds(alignment, size) && Lent(m0, m, r, bs)
    ensures var (m', p) := if fixed.Some? then AllocateFixedIn(alignment, m, size, fixed.value)
        else AllocateIn(alignment, m, size);
      p.Ok? ==> Lent(m0, m', r, bs + [Block(p.value, FixAlignment(alignment, size))])
  {
    if fixed.Some? { AllocateFixedKeepsValid(alignment, m, r.lo, r.hi, size, fixed.value); }
    else { AllocateKeepsValid(alignment, m, r.lo, r.hi, size); }
    var (m', p) := if fixed.Some? then AllocateFixedIn(alignment, m, size, fixed.value)
        else AllocateIn(alignment, m, size);
    if p.Ok? {
      var b := Block(p.value, FixAlignment(alignment, size));
      hide Valid, FixAlignment;
      assert m'.used == m.used + [b];
      assert (m0.used + bs) + [b] == m0.used + (bs + [b]);
    }
  }

  /** A used block is found by its base. */
  lemma FindsUsed(m: Memory, r: Region, i: nat)
    requires Valid(m, r.lo, r.hi) && i < |m.used|
    ensures Find(m.used, m.used[i].base) == i
  {
    var b := m.used[i];
    forall j | 0 <= j < |m.used| && j != i ensures m.used[j].base != b.base {
      assert Disjoint(m.used[i], m.used[j]);
      assert b.Has(b.base);
      assert m.used[j].size > 0;
    }
  }

  lemma FreedOne(m0: Memory, m: Memory, r: Region, pre: seq<Block>, b: Block, post: seq<Block>)
    requires Lent(m0, m, r, pre + [b] + post)
    ensures var (m', f) := FreeIn(m, b.base); f == Ok(()) && Lent(m0, m', r, pre + post)
  {
    var i := |m0.used| + |pre|;
    assert m.used[i] == b;
    FindsUsed(m, r, i);
    FreeKeepsValid(m, r.lo, r.hi, b.base);
    hide Valid;
    assert m.used[..i] + m.used[i + 1..] == m0.used + (pre + post);
  }

  // ---- Blocks lent to a job ----

  /** What allocation makes of the arguments. */
  predicate Matches(args: seq<Param>, params: seq<Param>) {
    |args| == |params| && forall i | 0 <= i < |args| :: MatchesOne(args[i], params[i])
  }

  predicate MatchesOne(a: Param, p: Param) {
    if a.Alloc? then p == Prealloc(Buffer(a.data, if p.Prealloc? then p.buffer.addr else 0, a.fromDevice, a.toDevice,
        a.mem, a.free)) else p == a
  }

  function BlockOf(cfg: Config, a: Param, p: Param, m: nat): seq<Block>
    requires m < |cfg.alignments| && 1 <= cfg.alignments[m] < WORD64
  {
    if a.Alloc? && a.mem == m && p.Prealloc? then [Block(p.buffer.addr, FixAlignment(cfg.alignments[m], |a.data|))]
        else []
  }

  /** The blocks of memory `m` taken for the arguments, in order. */
  function Taken(cfg: Config, args: seq<Param>, params: seq<Param>, m: nat): seq<Block>
    requires |args| == |params| && m < |cfg.alignments| && 1 <= cfg.alignments[m] < WORD64
  {
    if args == [] then [] else BlockOf(cfg, args[0], params[0], m) + Taken(cfg, args[1..], params[1..], m)
  }

  /** Those of them that the job does not give back. */
  function Kept(cfg: Config, args: seq<Param>, params: seq<Param>, m: nat): seq<Block>
    requires |args| == |params| && m < |cfg.alignments| && 1 <= cfg.alignments[m] < WORD64
  {
    if args == [] then []
    else (if args[0].Alloc? && args[0].free then [] else BlockOf(cfg, args[0], params[0], m)) + Kept(cfg, args[1..],
        params[1..], m)
  }

  ghost predicate LentAll(mems0: seq<Memory>, mems: seq<Memory>, rs: seq<Region>, bss: seq<seq<Block>>) {
    |mems| == |mems0| == |rs| == |bss| && forall m | 0 <= m < |mems| :: Lent(mems0[m], mems[m], rs[m], bss[m])
  }

  /** No buffer is so large that its size rounds to nothing. */
  predicate Modest(cfg: Config, args: seq<Param>) {
    forall i | 0 <= i < |args| :: args[i].Alloc? ==>
      && args[i].mem < |cfg.alignments| && 1 <= cfg.alignments[args[i].mem] < WORD64
      && Rounds(cfg.alignments[args[i].mem], |args[i].data|)
  }

  function Plus(bss: seq<seq<Block>>, cfg: Config, args: seq<Param>, params: seq<Param>): (r: seq<seq<Block>>)
    requires |args| == |params| && |bss| == |cfg.alignments| && forall m | 0 <= m < |bss| ::
        1 <= cfg.alignments[m] < WORD64
    ensures |r| == |bss|
  {
    seq(|bss|, m requires 0 <= m < |bss| => bss[m] + Taken(cfg, args, params, m))
  }

  lemma OneMoreLent(cfg: Config, mems0: seq<Memory>, mems: seq<Memory>, rs: seq<Region>, bss: seq<seq<Block>>, a: Param)
    requires Sane(cfg, mems) && LentAll(mems0, mems, rs, bss) && Modest(cfg, [a]) && a.Alloc? && a.mem < |mems|
    ensures var (mems', p) := AllocateOne(cfg, mems, a);
      p.Good? ==>
          |mems'| == |mems| && MatchesOne(a, p.value) && LentAll(mems0, mems', rs, Plus(bss, cfg, [a], [p.value]))
  {
    assert [a][0] == a;
    LentOne(cfg.alignments[a.mem], mems0[a.mem], mems[a.mem], rs[a.mem], bss[a.mem], |a.data|, a.fixed);
    var (mems', p) := AllocateOne(cfg, mems, a);
    if p.Good? {
      hide Lent, FixAlignment, AllocateIn, AllocateFixedIn;
      var bss' := Plus(bss, cfg, [a], [p.value]);
      forall m | 0 <= m < |mems'| ensures Lent(mems0[m], mems'[m], rs[m], bss'[m]) {
        TakenOne(cfg, a, p.value, m);
        assert bss[m] + [] == bss[m];
      }
    }
  }

  lemma TakenOne(cfg: Config, a: Param, p: Param, m: nat)
    requires m < |cfg.alignments| && 1 <= cfg.alignments[m] < WORD64
    ensures Taken(cfg, [a], [p], m) == BlockOf(cfg, a, p, m)
  {
    assert [a][1..] == [] && [p][1..] == [];
    assert Taken(cfg, [a], [p], m) == BlockOf(cfg, a, p, m) + Taken(cfg, [], [], m);
  }

  /** A successful allocation has taken exactly one block for each argument that asked for one. */
  lemma {:induction false} AllocateRun(cfg: Config, mems0: seq<Memory>, mems: seq<Memory>, rs: seq<Region>,
      bss: seq<seq<Block>>, args: seq<Param>)
    requires Sane(cfg, mems) && InRange(|mems|, args) && Modest(cfg, args) && LentAll(mems0, mems, rs, bss)
    ensures var (mems', r) := AllocateAll(cfg, mems, args);
      r.Good? ==>
          |mems'| == |mems| && Matches(args, r.value) && LentAll(mems0, mems', rs, Plus(bss, cfg, args, r.value))
    decreases |args|
  {
    if args == [] {
      PlusNothing(bss, cfg);
    } else {
      var a := args[0];
      var (mems1, p) := if a.Alloc? then AllocateOne(cfg, mems, a) else (mems, Good(a));
      var (mems', r) := AllocateAll(cfg, mems, args);
      if r.Good? {
        var bss1 := Plus(bss, cfg, [a], [p.value]);
        if a.Alloc? {
          assert Modest(cfg, [a]);
          OneMoreLent(cfg, mems0, mems, rs, bss, a);
        } else {
          NotTaken(bss, cfg, a);
        }
        AllocateRun(cfg, mems0, mems1, rs, bss1, args[1..]);
        PlusStep(bss, cfg, args, r.value);
      }
    }
  }

  lemma PlusNothing(bss: seq<seq<Block>>, cfg: Config)
    requires |bss| == |cfg.alignments| && forall m | 0 <= m < |bss| :: 1 <= cfg.alignments[m] < WORD64
    ensures Plus(bss, cfg, [], []) == bss
  {
    forall m | 0 <= m < |bss| ensures Plus(bss, cfg, [], [])[m] == bss[m] {
      assert Taken(cfg, [], [], m) == [];
    }
  }

  lemma NotTaken(bss: seq<seq<Block>>, cfg: Config, a: Param)
    requires !a.Alloc? && |bss| == |cfg.alignments| && forall m | 0 <= m < |bss| :: 1 <= cfg.alignments[m] < WORD64
    ensures Plus(bss, cfg, [a], [a]) == bss
  {
    forall m | 0 <= m < |bss| ensures Plus(bss, cfg, [a], [a])[m] == bss[m] {
      TakenOne(cfg, a, a, m);
      assert bss[m] + [] == bss[m];
    }
  }

  lemma PlusStep(bss: seq<seq<Block>>, cfg: Config, args: seq<Param>, params: seq<Param>)
    requires |args| == |params| && args != [] && |bss| == |cfg.alignments| && forall m | 0 <= m < |bss| ::
        1 <= cfg.alignments[m] < WORD64
    ensures Plus(Plus(bss, cfg, [args[0]], [params[0]]), cfg, args[1..], params[1..]) == Plus(bss, cfg, args, params)
  {
    forall m | 0 <= m < |bss|
      ensures Plus(Plus(bss, cfg, [args[0]], [params[0]]), cfg, args[1..], params[1..])[m]
          == Plus(bss, cfg, args, params)[m]
    {
      TakenOne(cfg, args[0], params[0], m);
      assert bss[m] + BlockOf(cfg, args[0], params[0], m) + Taken(cfg, args[1..], params[1..], m)
          == bss[m] + (BlockOf(cfg, args[0], params[0], m) + Taken(cfg, args[1..], params[1..], m));
    }
  }

  // ---- Release ----

  /** The buffers a release returns: those copied back, in argument order, with what the device holds. */
  function Returned(params: seq<Param>, device: Device): seq<seq<Byte>> {
    if params == [] then []
    else
      (if params[0].Prealloc? && params[0].buffer.fromDevice
       then [device(params[0].buffer.mem, params[0].buffer.addr, |params[0].buffer.data|)] else [])
      + Returned(params[1..], device)
  }

  function PlusKept(bss: seq<seq<Block>>, cfg: Config, args: seq<Param>, params: seq<Param>): (r: seq<seq<Block>>)
    requires |args| == |params| && |bss| == |cfg.alignments| && forall m | 0 <= m < |bss| ::
        1 <= cfg.alignments[m] < WORD64
    ensures |r| == |bss|
  {
    seq(|bss|, m requires 0 <= m < |bss| => bss[m] + Kept(cfg, args, params, m))
  }

  /** What would happen if the caller itself freed, in argument order, the buffers it had allocated and marked
   *  as to be freed. */
  function OwnFreed(mems: seq<Memory>, args: seq<Param>): (r: (seq<Memory>, Outcome<()>))
    requires InRange(|mems|, args)
    ensures |r.0| == |mems|
    decreases |args|
  {
    if args == [] then (mems, Good(()))
    else
      var (mems1, f) := OwnFreedFirst(mems, args[0]);
      if f.Bad? then (mems1, f) else OwnFreed(mems1, args[1..])
  }

  function OwnFreedFirst(mems: seq<Memory>, a: Param): (r: (seq<Memory>, Outcome<()>))
    requires a.Prealloc? ==> a.buffer.mem < |mems|
    ensures |r.0| == |mems|
  {
    if a.Prealloc? && a.buffer.free then FreeAt(mems, a.buffer.mem, a.buffer.addr) else (mems, Good(()))
  }

  /** A block the caller had before goes from under the blocks taken since. */
  lemma FreedOfCaller(m0: Memory, m: Memory, r: Region, bs: seq<Block>, addr: nat)
    requires Lent(m0, m, r, bs) && FreeIn(m0, addr).1.Ok?
    ensures FreeIn(m, addr).1 == Ok(()) && Lent(FreeIn(m0, addr).0, FreeIn(m, addr).0, r, bs)
  {
    var i := Find(m0.used, addr);
    assert m.used[i] == m0.used[i];
    FindsUsed(m, r, i);
    FreeKeepsValid(m0, r.lo, r.hi, addr);
    FreeKeepsValid(m, r.lo, r.hi, addr);
    hide Valid;
    assert m.used[..i] + m.used[i + 1..] == (m0.used[..i] + m0.used[i + 1..]) + bs;
  }

  lemma CallerFrees(mems0: seq<Memory>, mems: seq<Memory>, rs: seq<Region>, bss: seq<seq<Block>>, a: Param)
    requires LentAll(mems0, mems, rs, bss) && (a.Prealloc? ==> a.buffer.mem < |mems|) && OwnFreedFirst(mems0, a).1.Good?
    ensures OwnFreedFirst(mems, a).1.Good? && LentAll(OwnFreedFirst(mems0, a).0, OwnFreedFirst(mems, a).0, rs, bss)
  {
    if a.Prealloc? && a.buffer.free {
      var k := a.buffer.mem;
      FreedOfCaller(mems0[k], mems[k], rs[k], bss[k], a.buffer.addr);
      hide Lent, FreeIn;
    }
  }

  lemma OneBack(mems: seq<Memory>, c: CopyBack, rest: seq<CopyBack>, device: Device)
    requires BacksInRange(|mems|, rest) && (if c.Free? then c.mem < |mems| else c.buffer.mem < |mems|)
    ensures BacksInRange(|mems|, [c] + rest)
    ensures CopyBacks(mems, [c] + rest, device) ==
      var (mems1, f) :=
        if c.Free? then FreeAt(mems, c.mem, c.addr)
        else if c.buffer.free then FreeAt(mems, c.buffer.mem, c.buffer.addr)
        else (mems, Good(()));
      if f.Bad? then (mems1, Bad(f.error))
      else
        var (mems2, r) := CopyBacks(mems1, rest, device);
        (mems2, After(if c.Free? then [] else [device(c.buffer.mem, c.buffer.addr, |c.buffer.data|)], r))
  {
    assert ([c] + rest)[1..] == rest;
  }

  /** Giving back the first block of the rest. */
  lemma GiveBack(cfg: Config, mems0: seq<Memory>, mems: seq<Memory>, rs: seq<Region>, bss: seq<seq<Block>>,
      args: seq<Param>, params: seq<Param>)
    requires Sane(cfg, mems) && Matches(args, params) && args != [] && args[0].Alloc? && args[0].mem < |mems|
        && |bss| == |mems|
    requires LentAll(mems0, mems, rs, Plus(bss, cfg, args, params))
    ensures var (mems', f) := FreeAt(mems, args[0].mem, params[0].buffer.addr);
      f.Good? && |mems'| == |mems| && LentAll(mems0, mems', rs, Plus(bss, cfg, args[1..], params[1..]))
  {
    var a, p := args[0], params[0];
    assert MatchesOne(a, p);
    var k := a.mem;
    var b := Block(p.buffer.addr, FixAlignment(cfg.alignments[k], |a.data|));
    var post := Taken(cfg, args[1..], params[1..], k);
    assert Plus(bss, cfg, args, params)[k] == bss[k] + ([b] + post) == bss[k] + [b] + post;
    FreedOne(mems0[k], mems[k], rs[k], bss[k], b, post);
    hide Lent, FreeIn, FixAlignment;
    var (mems', f) := FreeAt(mems, k, p.buffer.addr);
    var bss' := Plus(bss, cfg, args[1..], params[1..]);
    forall m | 0 <= m < |mems'| ensures Lent(mems0[m], mems'[m], rs[m], bss'[m]) {
      if m != k {
        assert Taken(cfg, args, params, m) == Taken(cfg, args[1..], params[1..], m);
        assert Plus(bss, cfg, args, params)[m] == bss'[m];
      }
    }
  }

  /** What is left of the first argument moves to the blocks that stay. */
  function KeepFirst(bss: seq<seq<Block>>, cfg: Config, args: seq<Param>, params: seq<Param>): (r: seq<seq<Block>>)
    requires |args| == |params| && args != [] && |bss| == |cfg.alignments| && forall m | 0 <= m < |bss| ::
        1 <= cfg.alignments[m] < WORD64
    ensures |r| == |bss|
  {
    if args[0].Alloc? && args[0].free then bss else Plus(bss, cfg, [args[0]], [params[0]])
  }

  lemma KeptStep(bss: seq<seq<Block>>, cfg: Config, args: seq<Param>, params: seq<Param>)
    requires |args| == |params| && args != [] && |bss| == |cfg.alignments| && forall m | 0 <= m < |bss| ::
        1 <= cfg.alignments[m] < WORD64
    ensures PlusKept(KeepFirst(bss, cfg, args, params), cfg, args[1..], params[1..]) == PlusKept(bss, cfg, args, params)
  {
    var b1 := KeepFirst(bss, cfg, args, params);
    forall m | 0 <= m < |bss| ensures PlusKept(b1, cfg, args[1..], params[1..])[m]
        == PlusKept(bss, cfg, args, params)[m] {
      TakenOne(cfg, args[0], params[0], m);
      var first := if args[0].Alloc? && args[0].free then [] else BlockOf(cfg, args[0], params[0], m);
      var rest := Kept(cfg, args[1..], params[1..], m);
      assert bss[m] + first + rest == bss[m] + (first + rest);
      assert b1[m] == bss[m] + first;
    }
  }

  /** The memories after the first argument is handled. */
  function AfterFirst(mems: seq<Memory>, a: Param, p: Param): (seq<Memory>, Outcome<()>)
    requires (a.Alloc? ==> a.mem < |mems| && p.Prealloc?) && (a.Prealloc? ==> a.buffer.mem < |mems|)
  {
    if a.Alloc? && a.free then FreeAt(mems, a.mem, p.buffer.addr) else OwnFreedFirst(mems, a)
  }

  lemma FirstReleased(cfg: Config, mems0: seq<Memory>, mems: seq<Memory>, rs: seq<Region>, bss: seq<seq<Block>>,
                      args: seq<Param>, params: seq<Param>)
    requires Sane(cfg, mems) && InRange(|mems|, args) && Matches(args, params) && args != []
        && |bss| == |mems| == |mems0|
    requires LentAll(mems0, mems, rs, Plus(bss, cfg, args, params)) && OwnFreedFirst(mems0, args[0]).1.Good?
    ensures MatchesOne(args[0], params[0])
    ensures var (mems1, f) := AfterFirst(mems, args[0], params[0]);
      && |mems1| == |mems| && f == Good(())
      && LentAll(OwnFreedFirst(mems0, args[0]).0, mems1, rs,
          Plus(KeepFirst(bss, cfg, args, params), cfg, args[1..], params[1..]))
  {
    assert MatchesOne(args[0], params[0]);
    hide LentAll, FreeAt;
    if args[0].Alloc? && args[0].free {
      GiveBack(cfg, mems0, mems, rs, bss, args, params);
    } else {
      CallerFrees(mems0, mems, rs, Plus(bss, cfg, args, params), args[0]);
      PlusStep(bss, cfg, args, params);
    }
  }

  /** How the copy-back of the first argument adds to that of the others. */
  lemma FirstBack(mems: seq<Memory>, mems1: seq<Memory>, a: Param, params: seq<Param>, device: Device,
      mems2: seq<Memory>, vs: seq<seq<Byte>>)
    requires params != [] && MatchesOne(a, params[0]) && |mems1| == |mems|
    requires (a.Alloc? ==> a.mem < |mems|) && (a.Prealloc? ==> a.buffer.mem < |mems|)
    requires AfterFirst(mems, a, params[0]) == (mems1, Good(()))
    requires BacksInRange(|mems|, Transfers(params[1..]).copybacks)
    requires CopyBacks(mems1, Transfers(params[1..]).copybacks, device) == (mems2, Good(vs))
    ensures BacksInRange(|mems|, Transfers(params).copybacks)
    ensures CopyBacks(mems, Transfers(params).copybacks, device) ==
      (mems2, Good((if params[0].Prealloc? && params[0].buffer.fromDevice
                    then [device(params[0].buffer.mem, params[0].buffer.addr, |params[0].buffer.data|)] else []) + vs))
  {
    var p, rest := params[0], Transfers(params[1..]).copybacks;
    if p.Prealloc? {
      assert Transfers(params).copybacks == CopyBackOf(p.buffer) + rest;
      hide Transfers, FreeAt, CopyBacks;
      if CopyBackOf(p.buffer) == [] {
        assert [] + rest == rest && [] + vs == vs;
      } else {
        OneBack(mems, CopyBackOf(p.buffer)[0], rest, device);
        assert CopyBackOf(p.buffer) == [CopyBackOf(p.buffer)[0]];
      }
    } else {
      assert Transfers(params).copybacks == rest;
      assert [] + vs == vs;
    }
  }

  /** A release gives back, in argument order, exactly the blocks taken with `free` set and the caller's own marked
   *  ones, and succeeds, if the caller could free those itself. */
  lemma {:induction false} ReleaseRun(cfg: Config, mems0: seq<Memory>, mems: seq<Memory>, rs: seq<Region>,
      bss: seq<seq<Block>>,
                                      args: seq<Param>, params: seq<Param>, device: Device)
    requires Sane(cfg, mems) && InRange(|mems|, args) && Matches(args, params) && |bss| == |mems| == |mems0|
    requires LentAll(mems0, mems, rs, Plus(bss, cfg, args, params)) && OwnFreed(mems0, args).1.Good?
    ensures BacksInRange(|mems|, Transfers(params).copybacks)
    ensures var (mems', r) := CopyBacks(mems, Transfers(params).copybacks, device);
      r == Good(Returned(params, device))
          && LentAll(OwnFreed(mems0, args).0, mems', rs, PlusKept(bss, cfg, args, params))
    decreases |args|
  {
    if args == [] {
      PlusNothing(bss, cfg);
      KeptNothing(bss, cfg);
    } else {
      FirstReleased(cfg, mems0, mems, rs, bss, args, params);
      KeptStep(bss, cfg, args, params);
      hide LentAll, Plus, PlusKept, KeepFirst, FreeAt, CopyBacks, Transfers, AfterFirst, OwnFreedFirst;
      var mems1 := AfterFirst(mems, args[0], params[0]).0;
      ReleaseRun(cfg, OwnFreedFirst(mems0, args[0]).0, mems1, rs, KeepFirst(bss, cfg, args, params), args[1..],
          params[1..], device);
      var (mems2, r) := CopyBacks(mems1, Transfers(params[1..]).copybacks, device);
      FirstBack(mems, mems1, args[0], params, device, mems2, r.value);
    }
  }

  lemma KeptNothing(bss: seq<seq<Block>>, cfg: Config)
    requires |bss| == |cfg.alignments| && forall m | 0 <= m < |bss| :: 1 <= cfg.alignments[m] < WORD64
    ensures PlusKept(bss, cfg, [], []) == bss
  {
    forall m | 0 <= m < |bss| ensures PlusKept(bss, cfg, [], [])[m] == bss[m] {
      assert Kept(cfg, [], [], m) == [];
    }
  }

  // ---- The round trip ----

  ghost predicate AllValid(mems: seq<Memory>, rs: seq<Region>) {
    |mems| == |rs| && forall m | 0 <= m < |mems| :: Valid(mems[m], rs[m].lo, rs[m].hi)
  }

  function Nothing(n: nat): seq<seq<Block>> {
    seq(n, _ => [])
  }

  lemma NothingTakenYet(mems: seq<Memory>, rs: seq<Region>)
    requires AllValid(mems, rs)
    ensures LentAll(mems, mems, rs, Nothing(|mems|))
  {
    forall m | 0 <= m < |mems| ensures Lent(mems[m], mems[m], rs[m], Nothing(|mems|)[m]) {
      assert mems[m].used + [] == mems[m].used;
    }
  }

  lemma {:induction false} LocalizedOwn(cfg: Config, mems: seq<Memory>, args: seq<Param>)
    requires InRange(|mems|, args) && Localized(cfg, args).Good? && InRange(|mems|, Localized(cfg, args).value)
    ensures OwnFreed(mems, Localized(cfg, args).value) == OwnFreed(mems, args)
    decreases |args|
  {
    if args != [] {
      var a, l := args[0], Localized(cfg, args).value;
      assert l[1..] == Localized(cfg, args[1..]).value;
      assert OwnFreedFirst(mems, l[0]) == OwnFreedFirst(mems, a);
      hide FreeAt;
      LocalizedOwn(cfg, OwnFreedFirst(mems, a).0, args[1..]);
    }
  }

  /** Once all memory is allocated, releasing the job succeeds and leaves of its blocks exactly those it was told
   *  to keep, and of the caller's exactly those not marked; the buffers to copy back come in argument order. */
  lemma StartThenRelease(cfg: Config, mems: seq<Memory>, rs: seq<Region>, args: seq<Param>, device: Device)
    requires Sane(cfg, mems) && InRange(|mems|, args) && AllValid(mems, rs) && OwnFreed(mems, args).1.Good?
    requires Localized(cfg, args).Good? && Modest(cfg, Localized(cfg, args).value)
    requires InRange(|mems|, Localized(cfg, args).value) && AllocateAll(cfg, mems, Localized(cfg, args).value).1.Good?
    ensures var (mems', cbs, _) := Start(cfg, mems, args);
      var largs := Localized(cfg, args).value;
      var params := AllocateAll(cfg, mems, largs).1.value;
      && BacksInRange(|mems'|, cbs) && |params| == |largs|
      && var (mems'', r) := CopyBacks(mems', cbs, device);
         && r == Good(Returned(params, device))
         && LentAll(OwnFreed(mems, args).0, mems'', rs, PlusKept(Nothing(|mems|), cfg, largs, params))
  {
    var largs := Localized(cfg, args).value;
    LocalizedOwn(cfg, mems, args);
    NothingTakenYet(mems, rs);
    AllocateRun(cfg, mems, mems, rs, Nothing(|mems|), largs);
    var (mems', a) := AllocateAll(cfg, mems, largs);
    hide Localized, AllocateAll, LentAll, Plus, PlusKept, Nothing, CopyBacks, Transfers, InRange, Matches, Sane,
        OwnFreed;
    SaneSize(cfg, mems, mems');
    ReleaseRun(cfg, mems, mems', rs, Nothing(|mems|), largs, a.value, device);
  }

  lemma SaneSize(cfg: Config, mems: seq<Memory>, mems': seq<Memory>)
    requires Sane(cfg, mems) && |mems'| == |mems|
    ensures Sane(cfg, mems') && |Nothing(|mems|)| == |mems|
  {
  }

  /** If every block is to be freed, all memories are what they were before the start, but for the blocks of the
   *  caller that were marked: it is as if the caller had freed just those. */
  lemma RoundTripRestores(cfg: Config, mems: seq<Memory>, rs: seq<Region>, args: seq<Param>, device: Device)
    requires Sane(cfg, mems) && InRange(|mems|, args) && AllValid(mems, rs) && OwnFreed(mems, args).1.Good?
    requires Localized(cfg, args).Good? && Modest(cfg, Localized(cfg, args).value)
    requires InRange(|mems|, Localized(cfg, args).value) && AllocateAll(cfg, mems, Localized(cfg, args).value).1.Good?
    requires forall i | 0 <= i < |Localized(cfg, args).value| && Localized(cfg, args).value[i].Alloc? ::
        Localized(cfg, args).value[i].free
    ensures var (mems', cbs, _) := Start(cfg, mems, args);
      BacksInRange(|mems'|, cbs) && CopyBacks(mems', cbs, device).0 == OwnFreed(mems, args).0
  {
    StartThenRelease(cfg, mems, rs, args, device);
    var mems0 := OwnFreed(mems, args).0;
    var (mems', cbs, _) := Start(cfg, mems, args);
    var largs := Localized(cfg, args).value;
    var params := AllocateAll(cfg, mems, largs).1.value;
    var mems'' := CopyBacks(mems', cbs, device).0;
    hide Localized, AllocateAll, CopyBacks, Lent, OwnFreed;
    forall m | 0 <= m < |mems| ensures mems''[m] == mems0[m] {
      KeepsNone(cfg, largs, params, m);
      assert PlusKept(Nothing(|mems|), cfg, largs, params)[m] == [] + [];
      NothingLent(mems0[m], mems''[m], rs[m]);
    }
  }

  lemma {:induction false} KeepsNone(cfg: Config, args: seq<Param>, params: seq<Param>, m: nat)
    requires |args| == |params| && m < |cfg.alignments| && 1 <= cfg.alignments[m] < WORD64
    requires forall i | 0 <= i < |args| && args[i].Alloc? :: args[i].free
    ensures Kept(cfg, args, params, m) == []
    decreases |args|
  {
    if args != [] { KeepsNone(cfg, args[1..], params[1..], m); }
  }

  // ---- Buffers come back ----

  function BuffersIn(params: seq<Param>): seq<seq<Byte>> {
    if params == [] then [] else (if params[0].Prealloc? then [params[0].buffer.data] else []) + BuffersIn(params[1..])
  }

  function BuffersBack(cbs: seq<CopyBack>): seq<seq<Byte>> {
    if cbs == [] then [] else (if cbs[0].Transfer? then [cbs[0].buffer.data] else []) + BuffersBack(cbs[1..])
  }

  lemma {:induction false} BackConcat(a: seq<CopyBack>, b: seq<CopyBack>)
    ensures BuffersBack(a + b) == BuffersBack(a) + BuffersBack(b)
  {
    if a == [] {
      assert a + b == b;
    } else {
      assert (a + b)[1..] == a[1..] + b;
      BackConcat(a[1..], b);
    }
  }

  /** Every buffer handed over is handed back exactly once: at once if it is not copied back, later otherwise. */
  lemma {:induction false} BuffersConserved(params: seq<Param>)
    ensures multiset(Transfers(params).unused) + multiset(BuffersBack(Transfers(params).copybacks))
        == multiset(BuffersIn(params))
  {
    if params != [] {
      BuffersConserved(params[1..]);
      var p, r := params[0], Transfers(params[1..]);
      if p.Prealloc? {
        BackConcat(CopyBackOf(p.buffer), r.copybacks);
        assert BuffersBack(CopyBackOf(p.buffer)) == if p.buffer.fromDevice then [p.buffer.data] else [];
      }
    }
  }

  // ---- Starts that fail ----

  /** A start that runs out of memory at argument `k` keeps what it had allocated for the arguments before: nothing
   *  is given back. */
  lemma {:induction false} FailedStart(cfg: Config, mems: seq<Memory>, args: seq<Param>) returns (k: nat)
    requires Sane(cfg, mems) && InRange(|mems|, args) && AllocateAll(cfg, mems, args).1.Bad?
    ensures k < |args| && InRange(|mems|, args[..k]) && AllocateAll(cfg, mems, args[..k]).1.Good?
    ensures AllocateAll(cfg, mems, args).0 == AllocateAll(cfg, mems, args[..k]).0
    ensures args[k].Alloc? && Sane(cfg, AllocateAll(cfg, mems, args).0)
    ensures AllocateOne(cfg, AllocateAll(cfg, mems, args).0, args[k]).1 == Bad(AllocateAll(cfg, mems, args).1.error)
    ensures AllocateAll(cfg, mems, args).0 == mems <==> forall i | 0 <= i < k :: !args[i].Alloc?
    decreases |args|
  {
    var a := args[0];
    var (mems1, p) := if a.Alloc? then AllocateOne(cfg, mems, a) else (mems, Good(a));
    if p.Bad? {
      k := 0;
    } else {
      var j := FailedStart(cfg, mems1, args[1..]);
      k := j + 1;
      assert args[..k] == [a] + args[1..][..j];
      assert args[..k][1..] == args[1..][..j];
      UsedGrows(cfg, mems1, args[1..][..j]);
      var out := AllocateAll(cfg, mems, args).0;
      if a.Alloc? {
        GrowsByOne(cfg, mems, a);
        assert |out[a.mem].used| > |mems[a.mem].used|;
        assert args[0].Alloc?;
      } else {
        assert (forall i | 0 <= i < k :: !args[i].Alloc?) <==> (forall i | 0 <= i < j :: !args[1..][i].Alloc?) by {
          forall i | 0 <= i < j ensures args[1..][i] == args[i + 1] { }
          assert forall i | 0 < i < k :: args[i] == args[1..][i - 1];
        }
      }
    }
  }

  lemma SixtyFour()
    ensures FixAlignment(64, 64) == 64
  {
    assert Bits.Pow2(6) == 64;
    RoundsToMultiple(6, 64);
  }

  const ONE_MEMORY := Config([64], None)
  const ALL_FREE := Memory([Block(0, 64)], [])
  const ALL_USED := Memory([], [Block(0, 64)])

  /** A memory of 64 bytes is taken and given back whole. */
  lemma WholeMemory()
    ensures AllocateIn(64, ALL_FREE, 64) == (ALL_USED, Ok(0))
    ensures AllocateIn(64, ALL_USED, 64) == (ALL_USED, Err(OutOfMemory(64)))
    ensures FreeIn(ALL_USED, 0) == (ALL_FREE, Ok(()))
  {
    SixtyFour();
    hide FixAlignment;
    var f, b := [Block(0, 64)], Block(0, 64);
    assert FirstFit(f, 64) == 0 && f[..0] == [] && f[1..] == [];
    assert Without(f, 0, 0, 64) == [] && ALL_FREE.used + [b] == [b];
    assert Granted(ALL_FREE, 0, 0, 64) == ALL_USED;
    assert Find(f, 0) == 0;
    assert Inserted([], b) == [b];
    assert f[..0] + f[1..] == [];
  }

  /** A job of two buffers on a memory with room for one: the start fails and the first block is never given back. */
  lemma FirstBlockLeaks(data: seq<Byte>)
    requires |data| == 64
    ensures var a := Alloc(data, false, true, 0, true, None);
      && Sane(ONE_MEMORY, [ALL_FREE])
      && Start(ONE_MEMORY, [ALL_FREE], [a, a]) == ([ALL_USED], [], Bad(AllocatorError(OutOfMemory(64))))
  {
    WholeMemory();
    hide FixAlignment, AllocateIn;
    var a := Alloc(data, false, true, 0, true, None);
    assert [a, a][1..] == [a] && [a][1..] == [];
    assert [a] + [] == [a] && [a] + [a] == [a, a];
    assert Localized(ONE_MEMORY, [a]) == Good([a]);
    assert Localized(ONE_MEMORY, [a, a]) == Good([a, a]);
    assert [ALL_FREE][0 := ALL_USED] == [ALL_USED];
    assert AllocateAll(ONE_MEMORY, [ALL_USED], [a]) == ([ALL_USED], Bad(AllocatorError(OutOfMemory(64))));
  }

  /** The caller's block, marked to be freed, and a buffer to be allocated. */
  function Shared(data: seq<Byte>): Param {
    Prealloc(Buffer(data, 0, false, false, 0, true))
  }

  function Asked(data: seq<Byte>): Param {
    Alloc(data, false, false, 0, true, None)
  }

  lemma SharedTransfers(data: seq<Byte>)
    ensures Transfers([Shared(data)]) == Moved([DeviceAddress(0)], [Free(0, 0)], [data], [])
    ensures Registers([DeviceAddress(0)]) == Good([0])
  {
    assert [Shared(data)][1..] == [] && [DeviceAddress(0)][1..] == [];
    Grouped([DeviceAddress(0)], [], []);
    Grouped([Free(0, 0)], [], []);
    Grouped([data], [], []);
    assert [0] + [] == [0];
  }

  lemma SharedStarts(data: seq<Byte>)
    ensures Sane(ONE_MEMORY, [ALL_USED])
    ensures Start(ONE_MEMORY, [ALL_USED], [Shared(data)]) == ([ALL_USED], [Free(0, 0)], Good(Started([data], [0], [])))
  {
    SharedTransfers(data);
    SingleArgument(Shared(data));
    hide Transfers, Registers;
    assert AllocateAll(ONE_MEMORY, [ALL_USED], [Shared(data)])
        == ([ALL_USED], Good([Shared(data)])) by { assert [Shared(data)] + [] == [Shared(data)]; }
  }

  /** A single argument on a single memory. */
  lemma OneAllocates(cfg: Config, m: Memory, m': Memory, a: Param, addr: nat)
    requires Sane(cfg, [m]) && a.Alloc? && a.mem == 0 && a.fixed.None? && AllocateIn(cfg.alignments[0], m, |a.data|)
        == (m', Ok(addr))
    ensures AllocateAll(cfg, [m], [a])
        == ([m'], Good([Prealloc(Buffer(a.data, addr, a.fromDevice, a.toDevice, 0, a.free))]))
  {
    hide AllocateIn, AllocateFixedIn;
    var p := Prealloc(Buffer(a.data, addr, a.fromDevice, a.toDevice, 0, a.free));
    assert [m][0] == m && [m][0 := m'] == [m'] && [a][1..] == [];
    assert AllocateOne(cfg, [m], a) == ([m'], Good(p));
    assert [p] + [] == [p];
  }

  lemma AskedIsGranted(data: seq<Byte>)
    requires |data| == 64
    ensures Sane(ONE_MEMORY, [ALL_FREE])
    ensures AllocateAll(ONE_MEMORY, [ALL_FREE], [Asked(data)]) == ([ALL_USED], Good([Shared(data)]))
  {
    WholeMemory();
    hide AllocateIn, AllocateFixedIn, AllocateAll, AllocateOne, FixAlignment;
    OneAllocates(ONE_MEMORY, ALL_FREE, ALL_USED, Asked(data), 0);
  }

  lemma AskedStarts(data: seq<Byte>)
    requires |data| == 64
    ensures Sane(ONE_MEMORY, [ALL_FREE])
    ensures Start(ONE_MEMORY, [ALL_FREE], [Asked(data)]) == ([ALL_USED], [Free(0, 0)], Good(Started([data], [0], [])))
  {
    AskedIsGranted(data);
    SharedTransfers(data);
    SingleArgument(Asked(data));
    hide Transfers, Registers, AllocateAll;
  }

  /** Two jobs are given the same block of the caller, marked to be freed.  When the first is released, a third job
   *  is granted the block; when the second is released, that grant is undone under the third job's feet, and a
   *  fourth job is granted the same block. */
  lemma SharedBufferIsGrantedTwice(data: seq<Byte>, device: Device)
    requires |data| == 64
    ensures Sane(ONE_MEMORY, [ALL_USED]) && Sane(ONE_MEMORY, [ALL_FREE])
    ensures Start(ONE_MEMORY, [ALL_USED], [Shared(data)]) == ([ALL_USED], [Free(0, 0)], Good(Started([data], [0], [])))
    ensures CopyBacks([ALL_USED], [Free(0, 0)], device) == ([ALL_FREE], Good([]))
    ensures Start(ONE_MEMORY, [ALL_FREE], [Asked(data)]) == ([ALL_USED], [Free(0, 0)], Good(Started([data], [0], [])))
  {
    SharedStarts(data);
    AskedStarts(data);
    WholeMemory();
    hide Start, FreeIn, CopyBacks, FreeAt, AllocateIn, FixAlignment;
    OneIsFreed(ALL_USED, ALL_FREE, 0, device);
  }

  lemma OneIsFreed(m: Memory, m': Memory, addr: nat, device: Device)
    requires FreeIn(m, addr) == (m', Ok(()))
    ensures CopyBacks([m], [Free(addr, 0)], device) == ([m'], Good([]))
  {
    hide FreeIn;
    assert [m][0 := m'] == [m'];
    assert [Free(addr, 0)][1..] == [];
    assert FreeAt([m], 0, addr) == ([m'], Good(()));
    Grouped<seq<Byte>>([], [], []);
  }

  lemma SingleArgument(a: Param)
    requires !a.Local?
    ensures [a][1..] == [] && Localized(ONE_MEMORY, [a]) == Good([a])
  {
    assert [a] + [] == [a];
  }

  lemma GrowsByOne(cfg: Config, mems: seq<Memory>, a: Param)
    requires Sane(cfg, mems) && a.Alloc? && a.mem < |mems| && AllocateOne(cfg, mems, a).1.Good?
    ensures var out := AllocateOne(cfg, mems, a).0;
      |out| == |mems| && (forall m | 0 <= m < |mems| :: |out[m].used| >= |mems[m].used|)
          && |out[a.mem].used| == |mems[a.mem].used| + 1
  {
    hide FixAlignment;
  }

  lemma {:induction false} UsedGrows(cfg: Config, mems: seq<Memory>, args: seq<Param>)
    requires Sane(cfg, mems) && InRange(|mems|, args)
    ensures var out := AllocateAll(cfg, mems, args).0;
      |out| == |mems| && forall m | 0 <= m < |mems| :: |out[m].used| >= |mems[m].used|
    decreases |args|
  {
    if args != [] {
      var a := args[0];
      var (mems1, p) := if a.Alloc? then AllocateOne(cfg, mems, a) else (mems, Good(a));
      if p.Good? {
        if a.Alloc? { GrowsByOne(cfg, mems, a); }
        UsedGrows(cfg, mems1, args[1..]);
      }
    }
  }

  // ---- When a release succeeds ----

  datatype Place = Place(mem: nat, addr: nat)

  /** What a copy-back frees. */
  function FreesOne(c: CopyBack): seq<Place> {
    if c.Free? then [Place(c.mem, c.addr)] else if c.buffer.free then [Place(c.buffer.mem, c.buffer.addr)] else []
  }

  function FreesOf(cbs: seq<CopyBack>): seq<Place> {
    if cbs == [] then [] else FreesOne(cbs[0]) + FreesOf(cbs[1..])
  }

  predicate UsedAt(mems: seq<Memory>, p: Place) {
    p.mem < |mems| && Find(mems[p.mem].used, p.addr) < |mems[p.mem].used|
  }

  ghost predicate AllDistinct(ps: seq<Place>) {
    forall i, j | 0 <= i < j < |ps| :: ps[i] != ps[j]
  }

  ghost predicate AllUsed(mems: seq<Memory>, ps: seq<Place>) {
    forall i | 0 <= i < |ps| :: UsedAt(mems, ps[i])
  }

  predicate BaseIn(used: seq<Block>, addr: nat) {
    exists i :: 0 <= i < |used| && used[i].base == addr
  }

  lemma UsedHasBase(mems: seq<Memory>, p: Place)
    requires p.mem < |mems|
    ensures UsedAt(mems, p) <==> BaseIn(mems[p.mem].used, p.addr)
  {
    var used := mems[p.mem].used;
    if Find(used, p.addr) < |used| { assert used[Find(used, p.addr)].base == p.addr; }
  }

  /** Of the used blocks only the one freed is gone. */
  lemma BaseGone(m: Memory, r: Region, i: nat, addr: nat)
    requires Valid(m, r.lo, r.hi) && i < |m.used|
    ensures BaseIn(m.used[..i] + m.used[i + 1..], addr) <==> BaseIn(m.used, addr) && addr != m.used[i].base
  {
    var used := m.used[..i] + m.used[i + 1..];
    forall k | 0 <= k < |m.used| && k != i ensures m.used[k].base != m.used[i].base {
      FindsUsed(m, r, k);
      FindsUsed(m, r, i);
    }
    hide Valid, Find;
    if BaseIn(used, addr) {
      var l :| 0 <= l < |used| && used[l].base == addr;
      assert m.used[if l < i then l else l + 1] == used[l];
    }
    if BaseIn(m.used, addr) && addr != m.used[i].base {
      var k :| 0 <= k < |m.used| && m.used[k].base == addr;
      assert used[if k < i then k else k - 1] == m.used[k];
    }
  }

  /** Freeing a block leaves every other one in use. */
  lemma FreedLeavesOthers(mems: seq<Memory>, rs: seq<Region>, p: Place, q: Place)
    requires AllValid(mems, rs) && UsedAt(mems, p)
    ensures var (mems', f) := FreeAt(mems, p.mem, p.addr);
      f.Good? && |mems'| == |mems| && (UsedAt(mems', q) <==> UsedAt(mems, q) && q != p)
  {
    var mems' := FreeAt(mems, p.mem, p.addr).0;
    if q.mem == p.mem {
      BaseGone(mems[p.mem], rs[p.mem], Find(mems[p.mem].used, p.addr), q.addr);
      UsedHasBase(mems, q);
      UsedHasBase(mems', q);
    }
    hide Valid, BaseIn, Given;
  }

  /** A release succeeds exactly when the blocks it is to free are in use and no two of them are the same. */
  lemma {:induction false} ReleaseSucceedsIff(mems: seq<Memory>, rs: seq<Region>, cbs: seq<CopyBack>, device: Device)
    requires AllValid(mems, rs) && BacksInRange(|mems|, cbs)
    ensures CopyBacks(mems, cbs, device).1.Good? <==> AllUsed(mems, FreesOf(cbs)) && AllDistinct(FreesOf(cbs))
    decreases |cbs|
  {
    if cbs != [] {
      var c, rest := cbs[0], FreesOf(cbs[1..]);
      assert BacksInRange(|mems|, cbs[1..]);
      assert FreesOf(cbs) == FreesOne(c) + rest;
      hide Valid, AllUsed, AllDistinct, FreeAt, UsedAt;
      if FreesOne(c) == [] {
        assert [] + rest == rest;
        ReleaseSucceedsIff(mems, rs, cbs[1..], device);
      } else {
        var p := FreesOne(c)[0];
        FirstIsFreed(mems, rs, p, rest);
        if UsedAt(mems, p) {
          var mems1 := FreeAt(mems, p.mem, p.addr).0;
          FreedAllValid(mems, rs, p);
          ReleaseSucceedsIff(mems1, rs, cbs[1..], device);
        }
      }
    }
  }

  lemma FreedAllValid(mems: seq<Memory>, rs: seq<Region>, p: Place)
    requires AllValid(mems, rs) && p.mem < |mems|
    ensures AllValid(FreeAt(mems, p.mem, p.addr).0, rs) && |FreeAt(mems, p.mem, p.addr).0| == |mems|
  {
    FreeKeepsValid(mems[p.mem], rs[p.mem].lo, rs[p.mem].hi, p.addr);
    hide Valid, FreeIn;
  }

  lemma FirstIsFreed(mems: seq<Memory>, rs: seq<Region>, p: Place, rest: seq<Place>)
    requires AllValid(mems, rs) && p.mem < |mems|
    ensures FreeAt(mems, p.mem, p.addr).1.Good? <==> UsedAt(mems, p)
    ensures AllUsed(mems, [p] + rest) && AllDistinct([p] + rest) <==>
      UsedAt(mems, p) && AllUsed(FreeAt(mems, p.mem, p.addr).0, rest) && AllDistinct(rest)
  {
    var all, mems1 := [p] + rest, FreeAt(mems, p.mem, p.addr).0;
    assert all[0] == p && forall i | 0 <= i < |rest| :: all[i + 1] == rest[i];
    if UsedAt(mems, p) {
      forall q ensures UsedAt(mems1, q) <==> UsedAt(mems, q) && q != p { FreedLeavesOthers(mems, rs, p, q); }
      hide UsedAt, FreeAt;
      if AllUsed(mems1, rest) && AllDistinct(rest) {
        forall i | 0 <= i < |all| ensures UsedAt(mems, all[i]) { if i > 0 { assert all[i] == rest[i - 1]; } }
        forall i, j | 0 <= i < j < |all| ensures all[i] != all[j] {
          assert all[j] == rest[j - 1];
          if i > 0 { assert all[i] == rest[i - 1]; }
        }
      }
      if AllUsed(mems, all) && AllDistinct(all) {
        forall i | 0 <= i < |rest|
            ensures UsedAt(mems1, rest[i]) { assert rest[i] == all[i + 1] && all[0] != all[i + 1]; }
        forall i, j | 0 <= i < j < |rest| ensures rest[i] != rest[j] { assert all[i + 1] != all[j + 1]; }
      }
    }
  }

  // ---- The operations, changing the memories and the copy-back list in place ----

  class Job {
    const cfg: Config
    var mems: seq<Memory>
    var copyback: seq<CopyBack>
    var hasPe: bool

    constructor (cfg: Config, mems: seq<Memory>)
      ensures this.cfg == cfg && this.mems == mems && copyback == [] && hasPe
    {
      this.cfg, this.mems, copyback, hasPe := cfg, mems, [], true;
    }

    method HandleLocalMemories(args: seq<Param>) returns (r: Outcome<seq<Param>>)
      ensures r == Localized(cfg, args)
    {
      var out := [];
      var i := 0;
      assert args[0..] == args;
      AfterEnds([], Localized(cfg, args));
      while i < |args|
        invariant 0 <= i <= |args|
        invariant Localized(cfg, args) == After(out, Localized(cfg, args[i..]))
      {
        var a := args[i];
        assert args[i..][0] == a && args[i..][1..] == args[i + 1..];
        if a.Local? {
          if cfg.local.None? {
            return Bad(NoLocalMemory);
          }
          a := Alloc(a.data, a.fromDevice, a.toDevice, cfg.local.value, a.free, a.fixed);
        }
        AfterMore(out, [a], Localized(cfg, args[i + 1..]));
        out := out + [a];
        i := i + 1;
      }
      AfterEnds(out, Good([]));
      r := Good(out);
    }

    method HandleAllocates(args: seq<Param>) returns (r: Outcome<seq<Param>>)
      requires Sane(cfg, mems) && InRange(|mems|, args)
      modifies this`mems
      ensures (mems, r) == AllocateAll(cfg, old(mems), args)
      ensures |mems| == |old(mems)|
    {
      var out := [];
      var i := 0;
      assert args[0..] == args;
      AfterEnds([], AllocateAll(cfg, mems, args).1);
      while i < |args|
        invariant 0 <= i <= |args| && |mems| == |old(mems)|
        invariant AllocateAll(cfg, old(mems), args) == var (m, t) :=
            AllocateAll(cfg, mems, args[i..]); (m, After(out, t))
      {
        var p := args[i];
        assert args[i..][0] == p && args[i..][1..] == args[i + 1..];
        if p.Alloc? {
          var (mems1, x) := AllocateOne(cfg, mems, p);
          mems := mems1;
          if x.Bad? {
            return Bad(x.error);
          }
          p := x.value;
        }
        AfterMore(out, [p], AllocateAll(cfg, mems, args[i + 1..]).1);
        out := out + [p];
        i := i + 1;
      }
      AfterEnds(out, Good([]));
      r := Good(out);
    }

    /** Copies to the device, and notes what has to be copied back or freed. */
    method HandleTransfers(args: seq<Param>) returns (out: seq<Param>, unused: seq<seq<Byte>>, writes: seq<Write>)
      modifies this`copyback
      ensures Moved(out, copyback, unused, writes) == Behind([], old(copyback), [], [], Transfers(args))
    {
      hide Transfers, Behind;
      out, unused, writes := [], [], [];
      var i := 0;
      assert args[0..] == args;
      while i < |args|
        invariant 0 <= i <= |args|
        invariant Behind([], old(copyback), [], [], Transfers(args))
            == Behind(out, copyback, unused, writes, Transfers(args[i..]))
      {
        NextTransfer(args, i, out, copyback, unused, writes);
        if args[i].Prealloc? {
          var b := args[i].buffer;
          if b.toDevice {
            writes := writes + [Write(b.mem, b.addr, b.data)];
          }
          out := out + [DeviceAddress(b.addr)];
          if b.fromDevice {
            copyback := copyback + [Transfer(b)];
          } else {
            if b.free {
              copyback := copyback + [Free(b.addr, b.mem)];
            }
            unused := unused + [b.data];
          }
        } else {
          out := out + [args[i]];
        }
        i := i + 1;
      }
      assert args[i..] == [];
      LastTransfer(out, copyback, unused, writes);
    }

    /** Starts the job; memory stays allocated when a later step fails. */
    method Begin(args: seq<Param>) returns (r: Outcome<Started>)
      requires Sane(cfg, mems) && InRange(|mems|, args)
      modifies this
      ensures var (mems', cbs, r') := Start(cfg, old(mems), args);
          mems == mems' && copyback == old(copyback) + cbs && r == r'
      ensures hasPe == old(hasPe)
    {
      LocalizedInRange(cfg, |mems|, args);
      hide Localized, AllocateAll, Transfers, Registers;
      Grouped(copyback, [], []);
      var l := HandleLocalMemories(args);
      if l.Bad? {
        return Bad(l.error);
      }
      var a := HandleAllocates(l.value);
      if a.Bad? {
        return Bad(a.error);
      }
      var out, unused, writes := HandleTransfers(a.value);
      FromNothing(old(copyback), Transfers(a.value));
      var regs := Registers(out);
      r := if regs.Bad? then Bad(regs.error) else Good(Started(unused, regs.value, writes));
    }

    /** Does the copy-backs; without a processing element there is nothing to release. */
    method Release(device: Device, releasePe: bool) returns (r: Outcome<seq<seq<Byte>>>)
      requires BacksInRange(|mems|, copyback)
      modifies this
      ensures !old(hasPe) ==> r == Bad(NoPEtoRelease) && mems == old(mems) && copyback == old(copyback) && !hasPe
      ensures old(hasPe) ==>
          (mems, r) == CopyBacks(old(mems), old(copyback), device) && copyback == [] && hasPe == !releasePe
    {
      if !hasPe {
        return Bad(NoPEtoRelease);
      }
      hide CopyBacks, FreeAt, BacksInRange;
      var cbs := copyback;
      copyback := [];
      hasPe := !releasePe;
      var out := [];
      var i := 0;
      assert cbs[0..] == cbs;
      AfterEnds([], CopyBacks(mems, cbs, device).1);
      while i < |cbs|
        invariant 0 <= i <= |cbs| && |mems| == |old(mems)| && copyback == [] && hasPe == !releasePe
            && BacksInRange(|mems|, cbs[i..])
        invariant CopyBacks(old(mems), cbs, device) == var (m, t) :=
            CopyBacks(mems, cbs[i..], device); (m, After(out, t))
      {
        var c := cbs[i];
        assert cbs[i..] == [c] + cbs[i + 1..];
        RestInRange(|mems|, c, cbs[i + 1..]);
        OneBack(mems, c, cbs[i + 1..], device);
        if c.Free? || c.buffer.free {
          var (mems1, f) := if c.Free? then FreeAt(mems, c.mem, c.addr) else FreeAt(mems, c.buffer.mem, c.buffer.addr);
          FreeAtKeepsSize(mems, if c.Free? then c.mem else c.buffer.mem, if c.Free? then c.addr else c.buffer.addr);
          mems := mems1;
          if f.Bad? {
            return Bad(f.error);
          }
        }
        var data := if c.Free? then [] else [device(c.buffer.mem, c.buffer.addr, |c.buffer.data|)];
        AfterMore(out, data, CopyBacks(mems, cbs[i + 1..], device).1);
        out := out + data;
        i := i + 1;
      }
      assert cbs[i..] == [];
      NoBacks(mems, device);
      AfterEnds(out, Good([]));
      r := Good(out);
    }
  }

  lemma RestInRange(n: nat, c: CopyBack, rest: seq<CopyBack>)
    requires BacksInRange(n, [c] + rest)
    ensures BacksInRange(n, rest) && if c.Free? then c.mem < n else c.buffer.mem < n
  {
    assert ([c] + rest)[0] == c;
    assert forall i | 0 <= i < |rest| :: rest[i] == ([c] + rest)[i + 1];
  }

  lemma FreeAtKeepsSize(mems: seq<Memory>, mem: nat, addr: nat)
    requires mem < |mems|
    ensures |FreeAt(mems, mem, addr).0| == |mems|
  {
  }

  lemma NoBacks(mems: seq<Memory>, device: Device)
    ensures BacksInRange(|mems|, []) && CopyBacks(mems, [], device) == (mems, Good([]))
  {
  }

  /** What is done so far, followed by the rest. */
  function Behind(out: seq<Param>, cbs: seq<CopyBack>, unused: seq<seq<Byte>>, writes: seq<Write>, t: Moved): Moved {
    Moved(out + t.args, cbs + t.copybacks, unused + t.unused, writes + t.writes)
  }

  lemma NextTransfer(args: seq<Param>, i: nat, out: seq<Param>, cbs: seq<CopyBack>, unused: seq<seq<Byte>>,
      writes: seq<Write>)
    requires i < |args|
    ensures !args[i].Prealloc? ==>
      Behind(out, cbs, unused, writes, Transfers(args[i..]))
          == Behind(out + [args[i]], cbs, unused, writes, Transfers(args[i + 1..]))
    ensures args[i].Prealloc? ==> var b := args[i].buffer;
      Behind(out, cbs, unused, writes, Transfers(args[i..])) ==
      Behind(out + [DeviceAddress(b.addr)],
             if b.fromDevice then cbs + [Transfer(b)] else if b.free then cbs + [Free(b.addr, b.mem)] else cbs,
             if b.fromDevice then unused else unused + [b.data],
             if b.toDevice then writes + [Write(b.mem, b.addr, b.data)] else writes,
             Transfers(args[i + 1..]))
  {
    var t := Transfers(args[i + 1..]);
    assert args[i..][0] == args[i] && args[i..][1..] == args[i + 1..];
    if args[i].Prealloc? {
      var b := args[i].buffer;
      Grouped(out, [DeviceAddress(b.addr)], t.args);
      Grouped(cbs, CopyBackOf(b), t.copybacks);
      Grouped(unused, [b.data], t.unused);
      Grouped(writes, [Write(b.mem, b.addr, b.data)], t.writes);
    } else {
      Grouped(out, [args[i]], t.args);
    }
  }

  lemma Grouped<T>(a: seq<T>, b: seq<T>, c: seq<T>)
    ensures a + (b + c) == (a + b) + c && a + [] == a && [] + c == c
  {
  }

  lemma LastTransfer(out: seq<Param>, cbs: seq<CopyBack>, unused: seq<seq<Byte>>, writes: seq<Write>)
    ensures Behind(out, cbs, unused, writes, Transfers([])) == Moved(out, cbs, unused, writes)
  {
    Grouped(out, [], []);
    Grouped(cbs, [], []);
    Grouped(unused, [], []);
    Grouped(writes, [], []);
  }

  lemma FromNothing(cbs: seq<CopyBack>, t: Moved)
    ensures Behind([], cbs, [], [], t) == t.(copybacks := cbs + t.copybacks)
  {
    Grouped([], [], t.args);
    Grouped([], [], t.unused);
    Grouped([], [], t.writes);
  }
}
