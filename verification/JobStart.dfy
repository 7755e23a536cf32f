/** What a started job hands to its processing element, argument by argument. */
module JobStart {
  import opened Blocks
  import opened Common
  import opened GenericAllocator
  import opened Jobs

  // ---- Arguments as the caller wrote them ----

  /** The argument stands for a buffer. */
  predicate IsBuffer(a: Param) {
    a.Prealloc? || a.Alloc? || a.Local?
  }

  function DataOf(a: Param): seq<Byte>
    requires IsBuffer(a)
  {
    if a.Prealloc? then a.buffer.data else a.data
  }

  /** The memory the buffer lies in. */
  function MemOf(cfg: Config, a: Param): nat
    requires IsBuffer(a) && (a.Local? ==> cfg.local.Some?)
  {
    if a.Prealloc? then a.buffer.mem else if a.Alloc? then a.mem else cfg.local.value
  }

  predicate ToDevice(a: Param) {
    IsBuffer(a) && if a.Prealloc? then a.buffer.toDevice else a.toDevice
  }

  predicate FromDevice(a: Param) {
    IsBuffer(a) && if a.Prealloc? then a.buffer.fromDevice else a.fromDevice
  }

  predicate Unneeded(a: Param) {
    IsBuffer(a) && !FromDevice(a)
  }

  predicate ToFree(a: Param) {
    IsBuffer(a) && if a.Prealloc? then a.buffer.free else a.free
  }

  /** The argument leaves something to do on release. */
  predicate Pending(a: Param) {
    FromDevice(a) || ToFree(a)
  }

  /** A block of memory `m` is taken for the argument. */
  predicate TakesFrom(cfg: Config, m: nat, a: Param) {
    (a.Alloc? && a.mem == m) || (a.Local? && cfg.local == Some(m))
  }

  function FromMem(cfg: Config, m: nat): Param -> bool {
    a => TakesFrom(cfg, m, a)
  }

  /** How many of the first `i` arguments satisfy `f`. */
  function Before(f: Param -> bool, args: seq<Param>, i: nat): nat
    requires i <= |args|
  {
    if i == 0 then 0 else Before(f, args, i - 1) + if f(args[i - 1]) then 1 else 0
  }

  lemma {:induction false} BeforeTail(f: Param -> bool, args: seq<Param>, i: nat)
    requires i < |args|
    ensures Before(f, args, i + 1) == (if f(args[0]) then 1 else 0) + Before(f, args[1..], i)
  {
    if i > 0 { BeforeTail(f, args, i - 1); }
  }

  lemma {:induction false} BeforeSame(f: Param -> bool, g: Param -> bool, args: seq<Param>, params: seq<Param>, i: nat)
    requires i <= |args| == |params| && forall j | 0 <= j < i :: f(args[j]) == g(params[j])
    ensures Before(f, args, i) == Before(g, params, i)
  {
    if i > 0 { BeforeSame(f, g, args, params, i - 1); }
  }

  /** Entry `n` of a list that holds one entry `x` for each argument satisfying `f`, in order. */
  predicate EntryAt<T(==)>(list: seq<T>, n: nat, x: T) {
    n < |list| && list[n] == x
  }

  // ---- Each stage, argument by argument ----

  predicate LocalizedAs(cfg: Config, a: Param, l: Param) {
    if a.Local? then
      cfg.local.Some? && l == Alloc(a.data, a.fromDevice, a.toDevice, cfg.local.value, a.free, a.fixed)
    else l == a
  }

  /** Local buffers become buffers in the local memory; without one they are refused. */
  lemma {:induction false} LocalizedAt(cfg: Config, args: seq<Param>)
    ensures Localized(cfg, args).Bad? <==> cfg.local.None? && exists i :: 0 <= i < |args| && args[i].Local?
    ensures Localized(cfg, args).Bad? ==> Localized(cfg, args).error == NoLocalMemory
    ensures Localized(cfg, args).Good? ==>
      && |Localized(cfg, args).value| == |args|
      && forall i | 0 <= i < |args| :: LocalizedAs(cfg, args[i], Localized(cfg, args).value[i])
  {
    if args != [] {
      LocalizedAt(cfg, args[1..]);
      assert forall i | 0 < i < |args| :: args[i] == args[1..][i - 1];
      assert (exists i :: 0 <= i < |args| && args[i].Local?) <==>
        args[0].Local? || exists i :: 0 <= i < |args[1..]| && args[1..][i].Local? by {
        if i :| 0 <= i < |args[1..]| && args[1..][i].Local? { assert args[i + 1].Local?; }
      }
    }
  }

  /** Each buffer is replaced by its address and leaves its data, its write and its copy-back in the lists. */
  ghost predicate TransferredAs(params: seq<Param>, i: nat, t: Moved)
    requires i < |params| == |t.args|
  {
    var p := params[i];
    if !p.Prealloc? then t.args[i] == p
    else
      var b := p.buffer;
      && t.args[i] == DeviceAddress(b.addr)
      && (b.toDevice ==> EntryAt(t.writes, Before(ToDevice, params, i), Write(b.mem, b.addr, b.data)))
      && (!b.fromDevice ==> EntryAt(t.unused, Before(Unneeded, params, i), b.data))
      && (b.fromDevice ==> EntryAt(t.copybacks, Before(Pending, params, i), Transfer(b)))
      && (!b.fromDevice && b.free ==> EntryAt(t.copybacks, Before(Pending, params, i), Free(b.addr, b.mem)))
  }

  /** All buffers have their addresses. */
  predicate Placed(params: seq<Param>) {
    forall i | 0 <= i < |params| :: !params[i].Alloc? && !params[i].Local?
  }

  predicate Totals(params: seq<Param>, t: Moved) {
    && |t.args| == |params|
    && |t.writes| == Before(ToDevice, params, |params|)
    && |t.unused| == Before(Unneeded, params, |params|)
    && |t.copybacks| == Before(Pending, params, |params|)
  }

  lemma {:induction false} TransferTotals(params: seq<Param>)
    requires Placed(params)
    ensures Totals(params, Transfers(params))
  {
    if params != [] {
      var n := |params| - 1;
      assert Placed(params[1..]) by { assert forall i | 0 <= i < n :: params[1..][i] == params[i + 1]; }
      TransferTotals(params[1..]);
      BeforeTail(ToDevice, params, n);
      BeforeTail(Unneeded, params, n);
      BeforeTail(Pending, params, n);
    }
  }

  lemma {:induction false} TransferAt(params: seq<Param>, i: nat)
    requires Placed(params) && i < |params|
    ensures |Transfers(params).args| == |params| && TransferredAs(params, i, Transfers(params))
    decreases i
  {
    TransferTotals(params);
    if i > 0 {
      assert Placed(params[1..]) by { assert forall j | 0 <= j < |params| - 1 :: params[1..][j] == params[j + 1]; }
      TransferAt(params[1..], i - 1);
      BeforeTail(ToDevice, params, i - 1);
      BeforeTail(Unneeded, params, i - 1);
      BeforeTail(Pending, params, i - 1);
      LaterTransfer(params, i);
    } else {
      FirstTransfer(params);
    }
  }

  lemma FirstTransfer(params: seq<Param>)
    requires params != [] && |Transfers(params).args| == |params|
    ensures TransferredAs(params, 0, Transfers(params))
  {
  }

  lemma LaterTransfer(params: seq<Param>, i: nat)
    requires 0 < i < |params| && |Transfers(params).args| == |params| && |Transfers(params[1..]).args| == |params| - 1
    requires !params[0].Alloc? && !params[0].Local?
    requires TransferredAs(params[1..], i - 1, Transfers(params[1..]))
    requires Before(ToDevice, params, i) == (if ToDevice(params[0]) then 1 else 0) + Before(ToDevice, params[1..],
        i - 1)
    requires Before(Unneeded, params, i) == (if Unneeded(params[0]) then 1 else 0) + Before(Unneeded, params[1..],
        i - 1)
    requires Before(Pending, params, i) == (if Pending(params[0]) then 1 else 0) + Before(Pending, params[1..], i - 1)
    ensures TransferredAs(params, i, Transfers(params))
  {
    var r := Transfers(params[1..]);
    assert params[1..][i - 1] == params[i];
    hide Before;
  }

  /** The registers are the arguments' values in order; an address is refused exactly if it is virtual, and the
   *  first such argument is named. */
  lemma {:induction false} RegistersAt(args: seq<Param>) returns (k: nat)
    requires forall i | 0 <= i < |args| :: !IsBuffer(args[i])
    ensures k <= |args| && (forall i | 0 <= i < k :: !args[i].VirtualAddress?)
    ensures k < |args| ==> args[k].VirtualAddress? && Registers(args) == Bad(UnsupportedSVMParameter(args[k]))
    ensures k == |args| ==>
      && Registers(args).Good? && |Registers(args).value| == |args|
      && forall i | 0 <= i < |args| :: Registers(args).value[i] == ValueOf(args[i])
  {
    if args == [] || args[0].VirtualAddress? {
      k := 0;
    } else {
      var j := RegistersAt(args[1..]);
      k := j + 1;
      assert forall i | 0 < i < |args| :: args[i] == args[1..][i - 1];
    }
  }

  function ValueOf(a: Param): nat
    requires !IsBuffer(a)
  {
    match a
    case Single32(v) => v
    case Single64(v) => v
    case DeviceAddress(x) => x
    case VirtualAddress(p) => p
  }

  /** The block taken for argument `i` is the next one in its memory. */
  lemma {:induction false} TakenAt(cfg: Config, args: seq<Param>, params: seq<Param>, m: nat, i: nat)
    requires Matches(args, params) && Placed(params) && m < |cfg.alignments| && 1 <= cfg.alignments[m] < WORD64
    requires forall j | 0 <= j < |args| :: !args[j].Local?
    requires i <= |args|
    ensures |Taken(cfg, args, params, m)| == Before(FromMem(cfg, m), args, |args|)
    ensures i < |args| && TakesFrom(cfg, m, args[i]) ==>
      && params[i].Prealloc?
      && EntryAt(Taken(cfg, args, params, m), Before(FromMem(cfg, m), args, i),
                 Block(params[i].buffer.addr, FixAlignment(cfg.alignments[m], |args[i].data|)))
    decreases |args|
  {
    var f := FromMem(cfg, m);
    hide FixAlignment;
    if args != [] {
      assert MatchesOne(args[0], params[0]);
      assert forall j | 0 <= j < |args| - 1 :: args[1..][j] == args[j + 1] && params[1..][j] == params[j + 1];
      assert Matches(args[1..], params[1..]);
      TakenAt(cfg, args[1..], params[1..], m, if i == 0 then 0 else i - 1);
      BeforeTail(f, args, |args| - 1);
      if 0 < i < |args| { BeforeTail(f, args, i - 1); }
    }
  }

  /** A grant appends one block of the rounded size to the used ones. */
  lemma UsedAppended(alignment: nat, m: Memory, size: nat, fixed: Option<nat>)
    requires 1 <= alignment < WORD64
    ensures var (m', p) := if fixed.Some? then AllocateFixedIn(alignment, m, size, fixed.value)
        else AllocateIn(alignment, m, size);
      p.Ok? ==> m'.used == m.used + [Block(p.value, FixAlignment(alignment, size))]
  {
    hide FixAlignment;
  }

  /** The blocks taken so far, memory by memory. */
  ghost predicate TookAll(cfg: Config, mems: seq<Memory>, mems': seq<Memory>, args: seq<Param>, params: seq<Param>)
    requires Sane(cfg, mems) && |args| == |params|
  {
    && |mems'| == |mems|
    && forall m | 0 <= m < |mems| :: mems'[m].used == mems[m].used + Taken(cfg, args, params, m)
  }

  lemma TookOne(cfg: Config, mems: seq<Memory>, a: Param)
    requires Sane(cfg, mems) && a.Alloc? && a.mem < |mems| && AllocateOne(cfg, mems, a).1.Good?
    ensures var (mems', p) := AllocateOne(cfg, mems, a);
      MatchesOne(a, p.value) && TookAll(cfg, mems, mems', [a], [p.value])
  {
    UsedAppended(cfg.alignments[a.mem], mems[a.mem], |a.data|, a.fixed);
    hide AllocateIn, AllocateFixedIn, FixAlignment;
    var (mems', p) := AllocateOne(cfg, mems, a);
    forall m | 0 <= m < |mems| ensures mems'[m].used == mems[m].used + Taken(cfg, [a], [p.value], m) {
      TakenOne(cfg, a, p.value, m);
      assert mems[m].used + [] == mems[m].used;
    }
  }

  lemma TookMore(cfg: Config, mems: seq<Memory>, mems1: seq<Memory>, mems2: seq<Memory>, args: seq<Param>,
      params: seq<Param>)
    requires Sane(cfg, mems) && Sane(cfg, mems1) && |args| == |params| && args != []
    requires TookAll(cfg, mems, mems1, [args[0]], [params[0]]) && TookAll(cfg, mems1, mems2, args[1..], params[1..])
    ensures TookAll(cfg, mems, mems2, args, params)
  {
    forall m | 0 <= m < |mems| ensures mems2[m].used == mems[m].used + Taken(cfg, args, params, m) {
      TakenOne(cfg, args[0], params[0], m);
      var b, r := BlockOf(cfg, args[0], params[0], m), Taken(cfg, args[1..], params[1..], m);
      assert mems[m].used + b + r == mems[m].used + (b + r);
    }
  }

  /** When all buffers could be allocated, each has one block, appended to the used blocks of its memory. */
  lemma {:induction false} AllocatedAs(cfg: Config, mems: seq<Memory>, args: seq<Param>)
    requires Sane(cfg, mems) && InRange(|mems|, args) && AllocateAll(cfg, mems, args).1.Good?
    requires forall j | 0 <= j < |args| :: !args[j].Local?
    ensures var (mems', r) := AllocateAll(cfg, mems, args);
      Matches(args, r.value) && Placed(r.value) && TookAll(cfg, mems, mems', args, r.value)
    decreases |args|
  {
    if args == [] {
      forall m | 0 <= m < |mems| ensures mems[m].used == mems[m].used + Taken(cfg, [], [], m) { }
    } else {
      var a := args[0];
      var (mems1, p) := if a.Alloc? then AllocateOne(cfg, mems, a) else (mems, Good(a));
      var (mems', r) := AllocateAll(cfg, mems, args);
      if a.Alloc? { TookOne(cfg, mems, a); } else { TookNothing(cfg, mems, a); }
      hide AllocateOne, TookAll;
      SizeKept(cfg, mems, mems1, a, p.value);
      AllocatedAs(cfg, mems1, args[1..]);
      assert r.value == [p.value] + r.value[1..];
      TookMore(cfg, mems, mems1, mems', args, r.value);
    }
  }

  lemma SizeKept(cfg: Config, mems: seq<Memory>, mems1: seq<Memory>, a: Param, p: Param)
    requires Sane(cfg, mems) && TookAll(cfg, mems, mems1, [a], [p])
    ensures Sane(cfg, mems1)
  {
  }

  lemma TookNothing(cfg: Config, mems: seq<Memory>, a: Param)
    requires Sane(cfg, mems) && !a.Alloc?
    ensures TookAll(cfg, mems, mems, [a], [a])
  {
    forall m | 0 <= m < |mems| ensures mems[m].used == mems[m].used + Taken(cfg, [a], [a], m) {
      TakenOne(cfg, a, a, m);
      assert mems[m].used + [] == mems[m].used;
    }
  }

  // ---- A started job ----

  /** What argument `i` has become: a value goes to register `i` as it is; a buffer goes there by its address, which
   *  is the caller's own or the base of the block taken for it, is written there if asked for, and is handed back
   *  at once or noted for the release. */
  ghost predicate HandedOver(cfg: Config, mems: seq<Memory>, mems': seq<Memory>, cbs: seq<CopyBack>, st: Started,
      args: seq<Param>, i: nat)
    requires i < |args|
  {
    var a := args[i];
    && |st.registers| == |args|
    && var x := st.registers[i];
       if !IsBuffer(a) then !a.VirtualAddress? && x == ValueOf(a)
       else
         && (a.Local? ==> cfg.local.Some?)
         && var (m, d) := (MemOf(cfg, a), DataOf(a));
            && (a.Prealloc? ==> x == a.buffer.addr)
            && (!a.Prealloc? ==>
                && m < |mems| == |mems'| == |cfg.alignments| && 1 <= cfg.alignments[m] < WORD64
                && EntryAt(mems'[m].used, |mems[m].used| + Before(FromMem(cfg, m), args, i),
                           Block(x, FixAlignment(cfg.alignments[m], |d|))))
            && (ToDevice(a) ==> EntryAt(st.writes, Before(ToDevice, args, i), Write(m, x, d)))
            && (Unneeded(a) ==> EntryAt(st.unused, Before(Unneeded, args, i), d))
            && (FromDevice(a) ==>
                EntryAt(cbs, Before(Pending, args, i), Transfer(Buffer(d, x, true, ToDevice(a), m, ToFree(a)))))
            && (Unneeded(a) && ToFree(a) ==> EntryAt(cbs, Before(Pending, args, i), Free(x, m)))
  }

  /** An argument and what localizing and allocating have made of it. */
  predicate Became(cfg: Config, a: Param, p: Param) {
    if IsBuffer(a) then
      && (a.Local? ==> cfg.local.Some?)
      && p.Prealloc?
      && p.buffer == Buffer(DataOf(a), p.buffer.addr, FromDevice(a), ToDevice(a), MemOf(cfg, a), ToFree(a))
      && (a.Prealloc? ==> p == a)
    else p == a
  }

  lemma BecameOne(cfg: Config, a: Param, l: Param, p: Param)
    requires LocalizedAs(cfg, a, l) && MatchesOne(l, p)
    ensures Became(cfg, a, p)
    ensures ToDevice(a) == ToDevice(p) && Unneeded(a) == Unneeded(p) && Pending(a) == Pending(p)
    ensures forall m :: TakesFrom(cfg, m, a) == TakesFrom(cfg, m, l)
  {
  }

  /** The arguments on their way through `start`. */
  ghost predicate Stages(cfg: Config, mems: seq<Memory>, mems': seq<Memory>, args: seq<Param>, largs: seq<Param>,
      params: seq<Param>)
    requires Sane(cfg, mems)
  {
    && |largs| == |args| == |params|
    && (forall j | 0 <= j < |args| :: LocalizedAs(cfg, args[j], largs[j]))
    && Matches(largs, params) && Placed(params) && TookAll(cfg, mems, mems', largs, params)
  }

  /** A start that gets as far as the registers. */
  lemma StagesOf(cfg: Config, mems: seq<Memory>, args: seq<Param>) returns (largs: seq<Param>, params: seq<Param>)
    requires Sane(cfg, mems) && InRange(|mems|, args) && Localized(cfg, args).Good?
    requires InRange(|mems|, Localized(cfg, args).value) && AllocateAll(cfg, mems, Localized(cfg, args).value).1.Good?
    ensures var (mems', cbs, r) := Start(cfg, mems, args);
      && Stages(cfg, mems, mems', args, largs, params)
      && cbs == Transfers(params).copybacks
      && (r.Good? <==> Registers(Transfers(params).args).Good?)
      && (r.Good? ==>
          r.value
            == Started(Transfers(params).unused, Registers(Transfers(params).args).value, Transfers(params).writes))
      && (r.Bad? ==> Registers(Transfers(params).args) == Bad(r.error))
  {
    LocalizedAt(cfg, args);
    largs := Localized(cfg, args).value;
    hide Localized, AllocateAll, Transfers, Registers;
    AllocatedAs(cfg, mems, largs);
    params := AllocateAll(cfg, mems, largs).1.value;
  }

  lemma CountsAgree(cfg: Config, args: seq<Param>, largs: seq<Param>, params: seq<Param>, i: nat)
    requires i <= |args| == |largs| == |params| && Matches(largs, params)
    requires forall j | 0 <= j < |args| :: LocalizedAs(cfg, args[j], largs[j])
    ensures Before(ToDevice, args, i) == Before(ToDevice, params, i)
    ensures Before(Unneeded, args, i) == Before(Unneeded, params, i)
    ensures Before(Pending, args, i) == Before(Pending, params, i)
    ensures forall m: nat :: Before(FromMem(cfg, m), args, i) == Before(FromMem(cfg, m), largs, i)
  {
    forall j | 0 <= j < |args| ensures ToDevice(args[j]) == ToDevice(params[j])
        && Unneeded(args[j]) == Unneeded(params[j]) && Pending(args[j]) == Pending(params[j])
        && forall m :: TakesFrom(cfg, m, args[j]) == TakesFrom(cfg, m, largs[j])
    {
      assert MatchesOne(largs[j], params[j]);
      BecameOne(cfg, args[j], largs[j], params[j]);
    }
    hide ToDevice, Unneeded, Pending, TakesFrom;
    BeforeSame(ToDevice, ToDevice, args, params, i);
    BeforeSame(Unneeded, Unneeded, args, params, i);
    BeforeSame(Pending, Pending, args, params, i);
    forall m: nat
      ensures Before(FromMem(cfg, m), args, i) == Before(FromMem(cfg, m), largs, i)
    {
      BeforeSame(FromMem(cfg, m), FromMem(cfg, m), args, largs, i);
    }
  }

  /** When a start succeeds, every argument has been handed over as it should, and the lists hold nothing else. */
  lemma StartedAt(cfg: Config, mems: seq<Memory>, args: seq<Param>, i: nat)
    requires Sane(cfg, mems) && InRange(|mems|, args) && Start(cfg, mems, args).2.Good? && i < |args|
    ensures var (mems', cbs, r) := Start(cfg, mems, args); HandedOver(cfg, mems, mems', cbs, r.value, args, i)
  {
    LocalizedInRange(cfg, |mems|, args);
    var largs, params := StagesOf(cfg, mems, args);
    var (mems', cbs, r) := Start(cfg, mems, args);
    hide Start, Localized, AllocateAll;
    ArgumentAt(cfg, mems, mems', cbs, r.value, args, largs, params, i);
  }

  lemma ArgumentAt(cfg: Config, mems: seq<Memory>, mems': seq<Memory>, cbs: seq<CopyBack>, st: Started,
      args: seq<Param>, largs: seq<Param>, params: seq<Param>, i: nat)
    requires Sane(cfg, mems) && i < |args| && Stages(cfg, mems, mems', args, largs, params)
    requires (forall j | 0 <= j < |args| && args[j].Alloc? :: args[j].mem < |mems|)
    requires cbs == Transfers(params).copybacks && Registers(Transfers(params).args).Good?
    requires st == Started(Transfers(params).unused, Registers(Transfers(params).args).value, Transfers(params).writes)
    ensures HandedOver(cfg, mems, mems', cbs, st, args, i)
  {
    var t := Transfers(params);
    forall j | 0 <= j < |params| ensures |t.args| == |params| && !IsBuffer(t.args[j]) { TransferAt(params, j); }
    var k := RegistersAt(t.args);
    TransferAt(params, i);
    assert MatchesOne(largs[i], params[i]);
    BecameOne(cfg, args[i], largs[i], params[i]);
    CountsAgree(cfg, args, largs, params, i);
    if args[i].Alloc? || args[i].Local? {
      BlockAt(cfg, mems, mems', args, largs, params, i);
    }
    hide Transfers, Registers, Before, FixAlignment, TakesFrom, TookAll, Matches, Taken;
  }

  lemma BlockAt(cfg: Config, mems: seq<Memory>, mems': seq<Memory>, args: seq<Param>, largs: seq<Param>,
      params: seq<Param>, i: nat)
    requires Sane(cfg, mems) && i < |args| && Stages(cfg, mems, mems', args, largs, params)
    requires args[i].Alloc? || args[i].Local?
    requires args[i].Alloc? ==> args[i].mem < |mems|
    ensures args[i].Local? ==> cfg.local.Some?
    ensures var m := MemOf(cfg, args[i]);
      && m < |mems| && |mems'| == |mems| && params[i].Prealloc?
      && EntryAt(mems'[m].used, |mems[m].used| + Before(FromMem(cfg, m), args, i),
                 Block(params[i].buffer.addr, FixAlignment(cfg.alignments[m], |args[i].data|)))
  {
    hide Taken, FixAlignment, Before, Sane;
    assert LocalizedAs(cfg, args[i], largs[i]) && MatchesOne(largs[i], params[i]);
    NoLocals(cfg, args, largs);
    MemInRange(cfg, mems, args[i]);
    var m := MemOf(cfg, args[i]);
    CountsAgree(cfg, args, largs, params, i);
    TakenAt(cfg, largs, params, m, i);
    assert mems'[m].used == mems[m].used + Taken(cfg, largs, params, m);
  }

  lemma MemInRange(cfg: Config, mems: seq<Memory>, a: Param)
    requires Sane(cfg, mems) && (a.Alloc? || (a.Local? && cfg.local.Some?)) && (a.Alloc? ==> a.mem < |mems|)
    ensures var m := MemOf(cfg, a); m < |mems| == |cfg.alignments| && 1 <= cfg.alignments[m] < WORD64
  {
  }

  lemma NoLocals(cfg: Config, args: seq<Param>, largs: seq<Param>)
    requires |largs| == |args| && forall j | 0 <= j < |args| :: LocalizedAs(cfg, args[j], largs[j])
    ensures forall j | 0 <= j < |largs| :: !largs[j].Local?
  {
    forall j | 0 <= j < |largs| ensures !largs[j].Local? { assert LocalizedAs(cfg, args[j], largs[j]); }
  }

  /** The totals: one register each, one write for each buffer to be written, one buffer back for each not to be
   *  read, one copy-back for each with something left to do, and one block for each allocated buffer. */
  lemma StartedTotals(cfg: Config, mems: seq<Memory>, args: seq<Param>)
    requires Sane(cfg, mems) && InRange(|mems|, args) && Start(cfg, mems, args).2.Good?
    ensures var (mems', cbs, r) := Start(cfg, mems, args);
      && |r.value.registers| == |args|
      && |r.value.writes| == Before(ToDevice, args, |args|)
      && |r.value.unused| == Before(Unneeded, args, |args|)
      && |cbs| == Before(Pending, args, |args|)
      && |mems'| == |mems|
      && forall m | 0 <= m < |mems| ::
           && mems[m].used <= mems'[m].used
           && |mems'[m].used| == |mems[m].used| + Before(FromMem(cfg, m), args, |args|)
  {
    LocalizedInRange(cfg, |mems|, args);
    var largs, params := StagesOf(cfg, mems, args);
    var (mems', cbs, r) := Start(cfg, mems, args);
    hide Start, Localized, AllocateAll, Registers;
    TransferTotals(params);
    CountsAgree(cfg, args, largs, params, |args|);
    var t := Transfers(params);
    forall j | 0 <= j < |params| ensures !IsBuffer(t.args[j]) { TransferAt(params, j); }
    var k := RegistersAt(t.args);
    hide Transfers, Before;
    forall j | 0 <= j < |largs| ensures !largs[j].Local? { assert LocalizedAs(cfg, args[j], largs[j]); }
    forall m | 0 <= m < |mems| ensures mems[m].used <= mems'[m].used
      && |mems'[m].used| == |mems[m].used| + Before(FromMem(cfg, m), args, |args|)
    {
      TakenAt(cfg, largs, params, m, |args|);
    }
  }

  /** With all memory allocated, a start fails exactly if some argument is a virtual address, and names the first. */
  lemma VirtualAddressRefused(cfg: Config, mems: seq<Memory>, args: seq<Param>) returns (k: nat)
    requires Sane(cfg, mems) && InRange(|mems|, args) && Localized(cfg, args).Good?
    requires InRange(|mems|, Localized(cfg, args).value) && AllocateAll(cfg, mems, Localized(cfg, args).value).1.Good?
    ensures k <= |args| && forall i | 0 <= i < k :: !args[i].VirtualAddress?
    ensures k < |args| ==>
      args[k].VirtualAddress? && Start(cfg, mems, args).2 == Bad(UnsupportedSVMParameter(args[k]))
    ensures k == |args| ==> Start(cfg, mems, args).2.Good?
  {
    var largs, params := StagesOf(cfg, mems, args);
    hide Start, Localized, AllocateAll, Registers;
    var t := Transfers(params);
    TransferTotals(params);
    forall j | 0 <= j < |params| ensures !IsBuffer(t.args[j])
      && (t.args[j].VirtualAddress? <==> args[j].VirtualAddress?) && (args[j].VirtualAddress? ==> t.args[j] == args[j])
    {
      TransferAt(params, j);
      assert MatchesOne(largs[j], params[j]) && LocalizedAs(cfg, args[j], largs[j]);
    }
    k := RegistersAt(t.args);
  }

  // ---- A released job ----

  /** What the device holds of each buffer to be read comes back in argument order. */
  lemma {:induction false} ReturnedAt(params: seq<Param>, device: Device, i: nat)
    requires Placed(params) && i <= |params|
    ensures |Returned(params, device)| == Before(FromDevice, params, |params|)
    ensures i < |params| && FromDevice(params[i]) ==>
      var b := params[i].buffer;
      EntryAt(Returned(params, device), Before(FromDevice, params, i), device(b.mem, b.addr, |b.data|))
    decreases |params|
  {
    if params != [] {
      assert Placed(params[1..]) by { assert forall j | 0 <= j < |params| - 1 :: params[1..][j] == params[j + 1]; }
      ReturnedAt(params[1..], device, if i == 0 then 0 else i - 1);
      BeforeTail(FromDevice, params, |params| - 1);
      if 0 < i < |params| { BeforeTail(FromDevice, params, i - 1); }
    }
  }

  lemma AllocatedAre(cfg: Config, mems: seq<Memory>, args: seq<Param>) returns (params: seq<Param>)
    requires Sane(cfg, mems) && InRange(|mems|, args) && Localized(cfg, args).Good?
    requires InRange(|mems|, Localized(cfg, args).value) && AllocateAll(cfg, mems, Localized(cfg, args).value).1.Good?
    ensures params == AllocateAll(cfg, mems, Localized(cfg, args).value).1.value
    ensures |params| == |args| && Placed(params) && forall j | 0 <= j < |args| :: Became(cfg, args[j], params[j])
  {
    LocalizedAt(cfg, args);
    var largs := Localized(cfg, args).value;
    hide Localized, AllocateAll;
    AllocatedAs(cfg, mems, largs);
    params := AllocateAll(cfg, mems, largs).1.value;
    forall j | 0 <= j < |args| ensures Became(cfg, args[j], params[j]) {
      assert MatchesOne(largs[j], params[j]) && LocalizedAs(cfg, args[j], largs[j]);
    }
  }

  /** Starting a job and releasing it returns, for each buffer to be read, what the device then holds at the address
   *  in the argument's register, in argument order and nothing else. */
  lemma ReleasedAt(cfg: Config, mems: seq<Memory>, rs: seq<Region>, args: seq<Param>, device: Device, i: nat)
    requires Sane(cfg, mems) && InRange(|mems|, args) && AllValid(mems, rs) && OwnFreed(mems, args).1.Good?
    requires Start(cfg, mems, args).2.Good? && Modest(cfg, Localized(cfg, args).value) && i < |args|
    ensures var (mems', cbs, st) := Start(cfg, mems, args);
      && BacksInRange(|mems'|, cbs) && |st.value.registers| == |args|
      && var r := CopyBacks(mems', cbs, device).1;
         && r.Good? && |r.value| == Before(FromDevice, args, |args|)
         && (FromDevice(args[i]) ==>
             && (args[i].Local? ==> cfg.local.Some?)
             && EntryAt(r.value, Before(FromDevice, args, i),
                        device(MemOf(cfg, args[i]), st.value.registers[i], |DataOf(args[i])|)))
  {
    LocalizedInRange(cfg, |mems|, args);
    assert Localized(cfg, args).Good? && AllocateAll(cfg, mems, Localized(cfg, args).value).1.Good?;
    hide Start, Localized, AllocateAll, CopyBacks, Returned, OwnFreed, LentAll, Sane, InRange, AllValid, Modest,
        PlusKept;
    StartThenRelease(cfg, mems, rs, args, device);
    var params := AllocatedAre(cfg, mems, args);
    FlagsAgree(cfg, args, params);
    ReturnedAt(params, device, i);
    BeforeSame(FromDevice, FromDevice, args, params, i);
    BeforeSame(FromDevice, FromDevice, args, params, |args|);
    RegisterIsAddress(cfg, mems, args, params, i);
  }

  lemma FlagsAgree(cfg: Config, args: seq<Param>, params: seq<Param>)
    requires |params| == |args| && forall j | 0 <= j < |args| :: Became(cfg, args[j], params[j])
    ensures forall j | 0 <= j < |args| :: FromDevice(args[j]) == FromDevice(params[j])
  {
    forall j | 0 <= j < |args| ensures FromDevice(args[j]) == FromDevice(params[j]) {
      assert Became(cfg, args[j], params[j]);
    }
  }

  lemma RegisterIsAddress(cfg: Config, mems: seq<Memory>, args: seq<Param>, params: seq<Param>, i: nat)
    requires Sane(cfg, mems) && InRange(|mems|, args) && Start(cfg, mems, args).2.Good? && i < |args|
    requires InRange(|mems|, Localized(cfg, args).value)
    requires params == AllocateAll(cfg, mems, Localized(cfg, args).value).1.value
    requires |params| == |args| && Placed(params)
    ensures |Start(cfg, mems, args).2.value.registers| == |args|
    ensures params[i].Prealloc? ==> Start(cfg, mems, args).2.value.registers[i] == params[i].buffer.addr
  {
    hide Localized, AllocateAll;
    var t := Transfers(params);
    TransferTotals(params);
    forall j | 0 <= j < |params| ensures !IsBuffer(t.args[j]) { TransferAt(params, j); }
    TransferAt(params, i);
    var k := RegistersAt(t.args);
  }
}
