/** The loops that copy page arrays in as few DMA commands as possible.
 *
 *  A command moves (or clears) a run of pages that is contiguous at both ends.  What a list of commands does
 *  is the list of page operations it stands for, in order; a batching loop is right when that list is the one
 *  of copying page by page.
 */
module SvmBatch {
  import opened Common
  import opened SvmPages
  import opened SvmResults

  const MAX_NPAGES := 4096
  const STAGING_NPAGES := 1024
  const MAX_PENDING := 64

  datatype Space = Host | Source | Target

  datatype Loc = Loc(space: Space, addr: nat) {
    function Plus(pages: nat): Loc {
      Loc(space, addr + pages * PAGE_SIZE)
    }
  }

  datatype PageOp = Copy(from: Loc, to: Loc) | Clear(to: Loc)

  datatype Cmd = Copying(from: Loc, to: Loc, npages: nat) | Clearing(to: Loc, npages: nat) {
    function Op(k: nat): PageOp {
      if Copying? then Copy(from.Plus(k), to.Plus(k)) else Clear(to.Plus(k))
    }

    function Ops(): seq<PageOp> {
      seq(npages, k requires 0 <= k => Op(k))
    }
  }

  function AllOps(log: seq<Cmd>): seq<PageOp> {
    if log == [] then [] else AllOps(log[..|log| - 1]) + log[|log| - 1].Ops()
  }

  predicate Small(log: seq<Cmd>) {
    forall i | 0 <= i < |log| :: 0 < log[i].npages <= MAX_NPAGES
  }

  // ---- Contiguity ----

  /** Addresses that pass the comparison really follow each other exactly when their upper bits agree. */
  lemma ContiguousIffSameTop(addr: nat, last: nat)
    requires IsContiguous(addr, last)
    ensures addr == last + PAGE_SIZE <==> addr / WORD48 == last / WORD48
  {
    assert addr == WORD48 * (addr / WORD48) + addr % WORD48;
    assert last == WORD48 * (last / WORD48) + last % WORD48;
  }

  /** The upper bits are ignored: these two pages pass the comparison and are 256 TiB apart. */
  lemma TopBitsIgnored()
    ensures IsContiguous(WORD48 + PAGE_SIZE, 0) && WORD48 + PAGE_SIZE != 0 + PAGE_SIZE
  {
  }

  // ---- The command helper ----

  /** What the helper writes for a run: pieces of at most 4096 pages, all with the addresses of the first. */
  function HelperCmds(cmd: Cmd): (r: seq<Cmd>)
    decreases cmd.npages
  {
    if cmd.npages == 0 then []
    else if cmd.npages <= MAX_NPAGES then [cmd]
    else [cmd.(npages := MAX_NPAGES)] + HelperCmds(cmd.(npages := cmd.npages - MAX_NPAGES))
  }

  lemma NextPiece(done: seq<Cmd>, rest: Cmd, piece: Cmd)
    requires rest.npages > 0 && piece == rest.(npages := if rest.npages < MAX_NPAGES then rest.npages else MAX_NPAGES)
    ensures done + HelperCmds(rest) == (done + [piece]) + HelperCmds(rest.(npages := rest.npages - piece.npages))
    ensures HelperCmds(rest) != []
  {
    if rest.npages <= MAX_NPAGES { assert piece == rest; }
  }

  lemma NoPiece(cmd: Cmd)
    requires cmd.npages == 0
    ensures HelperCmds(cmd) == []
  {
  }

  lemma SingleOps(cmd: Cmd)
    ensures AllOps([cmd]) == cmd.Ops()
  {
    assert [cmd][..0] == [];
  }

  lemma {:induction false} AllOpsConcat(a: seq<Cmd>, b: seq<Cmd>)
    ensures AllOps(a + b) == AllOps(a) + AllOps(b)
  {
    if b == [] {
      assert a + b == a;
    } else {
      var n := |b| - 1;
      assert (a + b)[..|a + b| - 1] == a + b[..n];
      AllOpsConcat(a, b[..n]);
    }
  }

  /** The helper does the whole run exactly when one command is enough for it. */
  lemma HelperIsRightIff(cmd: Cmd)
    ensures AllOps(HelperCmds(cmd)) == cmd.Ops() <==> cmd.npages <= MAX_NPAGES
  {
    if cmd.npages <= MAX_NPAGES {
      if cmd.npages > 0 { SingleOps(cmd); }
    } else {
      HelperRepeats(cmd);
      OpAt(cmd, MAX_NPAGES);
      hide AllOps, HelperCmds;
      assert cmd.to.Plus(0) != cmd.to.Plus(MAX_NPAGES);
    }
  }

  lemma OpAt(cmd: Cmd, k: nat)
    requires k < cmd.npages
    ensures |cmd.Ops()| == cmd.npages && cmd.Ops()[k] == cmd.Op(k)
  {
  }

  /** Page 4096 of a longer run is page 0 again. */
  lemma HelperRepeats(cmd: Cmd)
    requires cmd.npages > MAX_NPAGES
    ensures |AllOps(HelperCmds(cmd))| > MAX_NPAGES && AllOps(HelperCmds(cmd))[MAX_NPAGES] == cmd.Op(0)
  {
    var first, rest := cmd.(npages := MAX_NPAGES), cmd.(npages := cmd.npages - MAX_NPAGES);
    assert HelperCmds(cmd) == [first] + HelperCmds(rest);
    AllOpsConcat([first], HelperCmds(rest));
    SingleOps(first);
    FirstAgain(rest);
    hide AllOps, HelperCmds;
    assert |first.Ops()| == MAX_NPAGES;
  }

  lemma FirstAgain(cmd: Cmd)
    requires cmd.npages > 0
    ensures AllOps(HelperCmds(cmd)) != [] && AllOps(HelperCmds(cmd))[0] == cmd.Op(0)
  {
    var first := if cmd.npages <= MAX_NPAGES then cmd else cmd.(npages := MAX_NPAGES);
    SingleOps(first);
    if cmd.npages > MAX_NPAGES {
      AllOpsConcat([first], HelperCmds(cmd.(npages := cmd.npages - MAX_NPAGES)));
    }
  }

  // ---- The engine ----

  datatype Direction = ToHost | FromHost

  /** The commands written so far and, for each direction, how many of them are not finished.  `answers(k)` is how
   *  wait number `k` ends, zero or an error such as a timeout; `waits` is what the waits so far returned. */
  class PageDma {
    const answers: nat -> int
    var log: seq<Cmd>
    var toHost: nat
    var fromHost: nat
    var waits: seq<int>

    constructor (answers: nat -> int)
      ensures this.answers == answers && log == [] && toHost == fromHost == 0 && waits == []
    {
      this.answers, log, toHost, fromHost, waits := answers, [], 0, 0, [];
    }

    /** The operation stopped at the first wait that failed, if any, with its error. */
    twostate predicate StoppedBy(res: int)
      reads this
    {
      StopsAtFailure(old(waits), waits, res) && AsAnswered(waits, |old(waits)|, answers)
    }

    function Pending(d: Direction): nat
      reads this
    {
      if d == ToHost then toHost else fromHost
    }

    /** The engine finishes any number of commands at any time. */
    method Progress()
      modifies this`toHost, this`fromHost
      ensures toHost <= old(toHost) && fromHost <= old(fromHost)
    {
      if * { toHost, fromHost := 0, fromHost; }
      else if * { toHost, fromHost := toHost, 0; }
      else if * { toHost := if toHost > 0 then toHost - 1 else 0; }
      else if * { fromHost := if fromHost > 0 then fromHost - 1 else 0; }
    }

    /** The engine holds at most 64 commands in each direction. */
    method Issue(d: Direction, cmd: Cmd)
      requires 0 < cmd.npages <= MAX_NPAGES && Pending(d) < MAX_PENDING
      modifies this`log, this`toHost, this`fromHost
      ensures log == old(log) + [cmd]
      ensures Pending(d) <= old(Pending(d)) + 1 <= MAX_PENDING
      ensures d == ToHost ==> fromHost <= old(fromHost)
      ensures d == FromHost ==> toHost <= old(toHost)
    {
      Progress();
      log := log + [cmd];
      if d == ToHost { toHost := toHost + 1; } else { fromHost := fromHost + 1; }
    }

    /** Starts a transfer.  Longer ones are written as several commands, but the addresses are not advanced. */
    method Init(d: Direction, cmd: Cmd)
      requires cmd.npages > 0 && Pending(d) + |HelperCmds(cmd)| <= MAX_PENDING
      modifies this`log, this`toHost, this`fromHost
      ensures log == old(log) + HelperCmds(cmd)
      ensures Pending(d) <= old(Pending(d)) + |HelperCmds(cmd)|
      ensures d == ToHost ==> fromHost <= old(fromHost)
      ensures d == FromHost ==> toHost <= old(toHost)
    {
      hide HelperCmds;
      var left: nat := cmd.npages;
      ghost var done: seq<Cmd> := [];
      assert cmd.(npages := left) == cmd;
      while left > 0
        invariant log == old(log) + done && done + HelperCmds(cmd.(npages := left)) == HelperCmds(cmd)
        invariant Pending(d) <= old(Pending(d)) + |done|
        invariant d == ToHost ==> fromHost <= old(fromHost)
        invariant d == FromHost ==> toHost <= old(toHost)
        decreases left
      {
        var piece := cmd.(npages := Min(left, MAX_NPAGES));
        NextPiece(done, cmd.(npages := left), piece);
        Issue(d, piece);
        done := done + [piece];
        left := left - piece.npages;
      }
      NoPiece(cmd.(npages := left));
    }

    /** Waits for the interrupt that comes when all commands of a direction are done; may time out. */
    method Wait(d: Direction) returns (res: int)
      modifies this`toHost, this`fromHost, this`waits
      ensures res == 0 ==> Pending(d) == 0
      ensures toHost <= old(toHost) && fromHost <= old(fromHost)
      ensures res == answers(|old(waits)|) && waits == old(waits) + [res]
    {
      Progress();
      res := answers(|waits|);
      waits := waits + [res];
      if res != 0 { return; }
      if d == ToHost { toHost := 0; } else { fromHost := 0; }
    }

    /** Makes sure another command may be issued; `count` is never below the number pending. */
    method Throttle(d: Direction, count: nat) returns (res: int, count': nat)
      requires Pending(d) <= count
      modifies this`toHost, this`fromHost, this`waits
      ensures res == 0 ==> Pending(d) <= count' < MAX_PENDING
      ensures toHost <= old(toHost) && fromHost <= old(fromHost)
      ensures count < MAX_PENDING ==> res == 0 && count' == count && waits == old(waits)
      ensures |waits| <= |old(waits)| + 1 && StoppedBy(res)
    {
      NothingReturned(waits, answers);
      AnsweredOne(waits, answers);
      hide StopsAtFailure, AsAnswered;
      res, count' := 0, count;
      if count' >= MAX_PENDING {
        Progress();
        count' := Pending(d);
        if count' >= MAX_PENDING {
          res := Wait(d);
          count' := 0;
        }
      }
    }

    /** Copies pages from RAM to consecutive device memory; a page with no source is cleared. */
    method RamToDevice(sources: seq<Option<nat>>, target: nat) returns (res: int)
      requires log == [] && Pending(FromHost) == 0
      modifies this
      ensures Small(log) && AllOps(log) <= MergedRamOps(sources, target) && StoppedBy(res)
      ensures res == 0 ==> AllOps(log) == MergedRamOps(sources, target) && Pending(FromHost) == 0
      ensures res == 0 ==> (AllOps(log) == RamOps(sources, target) <==>
          MergesAreReal(RamJoins(sources), Addresses(sources)))
    {
      hide AllOps, Does, MergesAreReal, RamJoins, Merged, StopsAtFailure, AsAnswered;
      NoOps();
      NothingReturned(waits, answers);
      MergedRamIff(sources, target);
      ghost var ops := MergedRamOps(sources, target);
      var i, count := 0, 0;
      NothingBefore(RamJoins(sources));
      while i < |sources|
        invariant 0 <= i <= |sources| && Pending(FromHost) <= count && !Merged(RamJoins(sources), i)
        invariant Small(log) && AllOps(log) == ops[..i] && StoppedBy(0)
      {
        var cmd := RunFromRam(sources, target, i);
        ghost var sofar := waits;
        res, count := Throttle(FromHost, count);
        ReturnedOn(old(waits), sofar, waits, res, answers);
        if res != 0 {
          return;
        }
        LogOps(ops, i, log, cmd);
        Init(FromHost, cmd);
        count := count + 1;
        i := i + cmd.npages;
      }
      ghost var sofar := waits;
      res := Wait(FromHost);
      OneMoreAnswer(old(waits), sofar, answers);
    }

    /** Copies device pages to pages in RAM; runs must be contiguous at both ends. */
    method DeviceToRam(base: nat, pages: seq<nat>, targets: seq<nat>) returns (res: int)
      requires log == [] && Pending(ToHost) == 0 && |pages| == |targets| && InZone(base, pages)
      modifies this
      ensures Small(log) && AllOps(log) <= MergedToRamOps(base, pages, targets) && StoppedBy(res)
      ensures res == 0 ==> AllOps(log) == MergedToRamOps(base, pages, targets) && Pending(ToHost) == 0
      ensures res == 0 ==> (AllOps(log) == ToRamOps(base, pages, targets) <==>
          MergesAreReal(BothJoin(pages, targets), targets))
    {
      hide AllOps, Does, MergesAreReal, BothJoin, Merged, StopsAtFailure, AsAnswered;
      NoOps();
      NothingReturned(waits, answers);
      MergedToRamIff(base, pages, targets);
      ghost var ops := MergedToRamOps(base, pages, targets);
      var i, count := 0, 0;
      NothingBefore(BothJoin(pages, targets));
      while i < |pages|
        invariant 0 <= i <= |pages| && Pending(ToHost) <= count && !Merged(BothJoin(pages, targets), i)
        invariant Small(log) && AllOps(log) == ops[..i] && StoppedBy(0)
      {
        var cmd := RunToRam(base, pages, targets, i);
        ghost var sofar := waits;
        res, count := Throttle(ToHost, count);
        ReturnedOn(old(waits), sofar, waits, res, answers);
        if res != 0 {
          return;
        }
        LogOps(ops, i, log, cmd);
        Init(ToHost, cmd);
        count := count + 1;
        i := i + cmd.npages;
      }
      ghost var sofar := waits;
      res := Wait(ToHost);
      OneMoreAnswer(old(waits), sofar, answers);
    }

    /** Copies device pages straight into another device's memory, consecutive there. */
    method DeviceToDevice(base: nat, pages: seq<nat>, target: nat) returns (res: int)
      requires log == [] && Pending(ToHost) == 0 && InZone(base, pages)
      modifies this
      ensures Small(log) && AllOps(log) <= DirectOps(base, pages, target) && StoppedBy(res)
      ensures res == 0 ==> AllOps(log) == DirectOps(base, pages, target) && Pending(ToHost) == 0
    {
      hide AllOps, Does, StopsAtFailure, AsAnswered;
      NoOps();
      NothingReturned(waits, answers);
      ghost var ops := DirectOps(base, pages, target);
      var i, count := 0, 0;
      while i < |pages|
        invariant 0 <= i <= |pages| && Pending(ToHost) <= count
        invariant Small(log) && AllOps(log) == ops[..i] && StoppedBy(0)
      {
        var cmd := RunOfPages(base, pages, Loc(Target, target).Plus(i), i, |pages| - i);
        DirectDoes(base, pages, target, i, cmd);
        ghost var sofar := waits;
        res, count := Throttle(ToHost, count);
        ReturnedOn(old(waits), sofar, waits, res, answers);
        if res != 0 {
          return;
        }
        LogOps(ops, i, log, cmd);
        Init(ToHost, cmd);
        count := count + 1;
        i := i + cmd.npages;
      }
      ghost var sofar := waits;
      res := Wait(ToHost);
      OneMoreAnswer(old(waits), sofar, answers);
    }

    /** Copies device pages to another device through a staging buffer in RAM of at most 1024 pages. */
    method DeviceToDeviceBuffered(base: nat, pages: seq<nat>, buffer: nat, target: nat) returns (res: int)
      requires log == [] && Pending(ToHost) == 0 && Pending(FromHost) == 0 && InZone(base, pages)
      modifies this
      ensures Small(log) && WithinBuffer(log, buffer, Min(|pages|, STAGING_NPAGES))
      ensures res == 0 ==> AllOps(log) == StagedOps(base, pages, buffer, target, 0)
      ensures StoppedBy(res)
    {
      hide AllOps, Does, InZone, StagedOps, FillOps, DrainOps, StopsAtFailure, AsAnswered;
      NoOps();
      NothingReturned(waits, answers);
      var copied := 0;
      ghost var total := StagedOps(base, pages, buffer, target, 0);
      while copied < |pages|
        invariant 0 <= copied <= |pages| && Pending(FromHost) == 0 && Pending(ToHost) == 0
        invariant Small(log) && WithinBuffer(log, buffer, Min(|pages|, STAGING_NPAGES))
        invariant AllOps(log) + StagedOps(base, pages, buffer, target, copied) == total && StoppedBy(0)
      {
        var moved;
        ghost var before, sofar := log, waits;
        res, moved := FillBuffer(base, pages, buffer, copied);
        ReturnedOn(old(waits), sofar, waits, res, answers);
        if res != 0 {
          return;
        }
        sofar := waits;
        res := Wait(ToHost);
        OneMoreAnswer(old(waits), sofar, answers);
        if res != 0 {
          return;
        }
        var cmd := Copying(Loc(Host, buffer), Loc(Target, target).Plus(copied), moved);
        ChunkOps(base, pages, buffer, target, copied, moved, before, log, cmd);
        Init(FromHost, cmd);
        sofar := waits;
        res := Wait(FromHost);
        OneMoreAnswer(old(waits), sofar, answers);
        if res != 0 {
          return;
        }
        copied := copied + moved;
      }
      StagedEnd(base, pages, buffer, target);
      res := 0;
    }

    /** Moves source pages to the staging buffer until it is full or no page is left. */
    method FillBuffer(base: nat, pages: seq<nat>, buffer: nat, copied: nat) returns (res: int, moved: nat)
      requires copied < |pages| && Pending(ToHost) == 0 && Pending(FromHost) == 0 && InZone(base, pages)
      requires Small(log) && WithinBuffer(log, buffer, Min(|pages|, STAGING_NPAGES))
      modifies this
      ensures Small(log) && WithinBuffer(log, buffer, Min(|pages|, STAGING_NPAGES))
      ensures Pending(FromHost) == 0 && StoppedBy(res)
      ensures res == 0 ==>
        moved == Min(|pages| - copied, STAGING_NPAGES)
            && AllOps(log) == AllOps(old(log)) + FillOps(base, pages, buffer, copied, moved)
    {
      hide AllOps, Does, InZone, StopsAtFailure, AsAnswered;
      NothingReturned(waits, answers);
      var m := Min(|pages| - copied, STAGING_NPAGES);
      ghost var ops, start := FillOps(base, pages, buffer, copied, m), log;
      ghost var done: seq<Cmd> := [];
      NoOps();
      assert log == start + done;
      res, moved := 0, 0;
      var count := 0;
      while moved < m
        invariant 0 <= moved <= m && Pending(ToHost) <= count && Pending(FromHost) == 0 && res == 0
        invariant Small(log) && WithinBuffer(log, buffer, Min(|pages|, STAGING_NPAGES))
        invariant log == start + done && AllOps(done) == ops[..moved] && StoppedBy(0)
      {
        var cmd := RunOfPages(base, pages, Loc(Host, buffer).Plus(moved), copied + moved, m - moved);
        FillDoes(base, pages, buffer, copied, m, moved, cmd);
        ghost var sofar := waits;
        res, count := Throttle(ToHost, count);
        ReturnedOn(old(waits), sofar, waits, res, answers);
        if res != 0 {
          return;
        }
        LogOps(ops, moved, done, cmd);
        assert start + (done + [cmd]) == (start + done) + [cmd];
        done := done + [cmd];
        Init(ToHost, cmd);
        count := count + 1;
        moved := moved + cmd.npages;
      }
      AllOpsConcat(start, done);
    }
  }

  // ---- Runs ----

  /** The command does what the reference does from page `i` on. */
  ghost predicate Does(ops: seq<PageOp>, i: nat, cmd: Cmd) {
    i + cmd.npages <= |ops| && forall k: nat | k < cmd.npages :: cmd.Op(k) == ops[i + k]
  }

  lemma NoOps()
    ensures AllOps([]) == []
  {
  }

  lemma LogOps(ops: seq<PageOp>, i: nat, log: seq<Cmd>, cmd: Cmd)
    requires Does(ops, i, cmd) && AllOps(log) == ops[..i]
    ensures i + cmd.npages <= |ops| && AllOps(log + [cmd]) == ops[..i + cmd.npages]
  {
    assert (log + [cmd])[..|log|] == log;
    assert ops[..i] + cmd.Ops() == ops[..i + cmd.npages];
  }

  /** A command for one more page. */
  lemma OneMore(ops: seq<PageOp>, i: nat, cmd: Cmd)
    requires Does(ops, i, cmd) && i + cmd.npages < |ops| && ops[i + cmd.npages] == cmd.Op(cmd.npages)
    ensures Does(ops, i, cmd.(npages := cmd.npages + 1))
  {
    var more := cmd.(npages := cmd.npages + 1);
    forall k: nat | k < more.npages ensures more.Op(k) == ops[i + k] {
      assert more.Op(k) == cmd.Op(k);
    }
  }

  /** Copying page by page from RAM: the reference. */
  function RamOps(sources: seq<Option<nat>>, target: nat): seq<PageOp> {
    seq(|sources|, i requires 0 <= i < |sources| =>
      if sources[i].None? then Clear(Loc(Target, target).Plus(i))
      else Copy(Loc(Host, sources[i].value), Loc(Target, target).Plus(i)))
  }

  // ---- Which pages end up in one command ----

  /** The length of the run up to page `i`, when `joins[i]` says that page `i` may join the one before it. */
  function RunAt(joins: seq<bool>, i: nat): (r: nat)
    requires i < |joins|
    ensures 1 <= r <= MAX_NPAGES
  {
    if i > 0 && joins[i] && RunAt(joins, i - 1) < MAX_NPAGES then RunAt(joins, i - 1) + 1 else 1
  }

  predicate Merged(joins: seq<bool>, i: nat) {
    0 < i < |joins| && joins[i] && RunAt(joins, i - 1) < MAX_NPAGES
  }

  lemma NothingBefore(joins: seq<bool>)
    ensures !Merged(joins, 0)
  {
  }

  /** The address a command uses for page `i`: the one given for the first page of the run, counted up. */
  function Reached(joins: seq<bool>, addrs: seq<nat>, i: nat): nat
    requires |addrs| == |joins| && i < |joins|
  {
    if Merged(joins, i) then Reached(joins, addrs, i - 1) + PAGE_SIZE else addrs[i]
  }

  /** Pages in one command really follow each other: the upper bits, which the comparison ignores, agree. */
  predicate MergesAreReal(joins: seq<bool>, addrs: seq<nat>)
    requires |addrs| == |joins|
  {
    forall i | 0 < i < |joins| && Merged(joins, i) && IsContiguous(addrs[i], addrs[i - 1]) ::
        addrs[i] / WORD48 == addrs[i - 1] / WORD48
  }

  /** The addresses used are the right ones exactly when the merges are real.  Pages with `matters[i]` false have
   *  no address. */
  lemma ReachedIff(joins: seq<bool>, addrs: seq<nat>, matters: seq<bool>)
    requires |addrs| == |joins| == |matters|
    requires forall i | 0 < i < |joins| && joins[i] ::
        matters[i] == matters[i - 1] && (matters[i] ==> IsContiguous(addrs[i], addrs[i - 1]))
    requires forall i | 0 < i < |joins| && !matters[i] :: addrs[i] == 0
    ensures (forall i | 0 <= i < |joins| && matters[i] :: Reached(joins, addrs, i) == addrs[i]) <==>
        MergesAreReal(joins, addrs)
  {
    if MergesAreReal(joins, addrs) {
      forall i | 0 <= i < |joins| && matters[i]
          ensures Reached(joins, addrs, i) == addrs[i] { ReachedRight(joins, addrs, matters, i); }
    }
    if forall i | 0 <= i < |joins| && matters[i] :: Reached(joins, addrs, i) == addrs[i] {
      forall i | 0 < i < |joins| && Merged(joins, i) && IsContiguous(addrs[i], addrs[i - 1])
        ensures addrs[i] / WORD48 == addrs[i - 1] / WORD48
      {
        if matters[i] { ContiguousIffSameTop(addrs[i], addrs[i - 1]); }
      }
    }
  }

  lemma {:induction false} ReachedRight(joins: seq<bool>, addrs: seq<nat>, matters: seq<bool>, i: nat)
    requires |addrs| == |joins| == |matters| && i < |joins| && matters[i] && MergesAreReal(joins, addrs)
    requires forall i | 0 < i < |joins| && joins[i] ::
        matters[i] == matters[i - 1] && (matters[i] ==> IsContiguous(addrs[i], addrs[i - 1]))
    ensures Reached(joins, addrs, i) == addrs[i]
  {
    if Merged(joins, i) {
      ReachedRight(joins, addrs, matters, i - 1);
      ContiguousIffSameTop(addrs[i], addrs[i - 1]);
    }
  }

  function Addresses(sources: seq<Option<nat>>): (r: seq<nat>)
    ensures |r| == |sources|
  {
    seq(|sources|, i requires 0 <= i < |sources| => if sources[i].Some? then sources[i].value else 0)
  }

  function Matters(sources: seq<Option<nat>>): (r: seq<bool>)
    ensures |r| == |sources|
  {
    seq(|sources|, i requires 0 <= i < |sources| => sources[i].Some?)
  }

  /** A page joins the one before it if both are to be cleared, or both copied from addresses that pass for
   *  consecutive. */
  function RamJoins(sources: seq<Option<nat>>): (r: seq<bool>)
    ensures |r| == |sources|
  {
    seq(|sources|, i requires 0 <= i < |sources| =>
      i > 0 && if sources[i].Some? then sources[i - 1].Some? && IsContiguous(sources[i].value, sources[i - 1].value)
          else sources[i - 1].None?)
  }

  /** What the commands do. */
  function MergedRamOps(sources: seq<Option<nat>>, target: nat): (r: seq<PageOp>)
    ensures |r| == |sources|
  {
    seq(|sources|, i requires 0 <= i < |sources| =>
      if sources[i].None? then Clear(Loc(Target, target).Plus(i))
      else Copy(Loc(Host, Reached(RamJoins(sources), Addresses(sources), i)), Loc(Target, target).Plus(i)))
  }

  /** The commands do what copying page by page does exactly when the pages merged into one really follow each other. */
  lemma MergedRamIff(sources: seq<Option<nat>>, target: nat)
    ensures MergedRamOps(sources, target) == RamOps(sources, target) <==>
        MergesAreReal(RamJoins(sources), Addresses(sources))
  {
    var joins, addrs, a, b := RamJoins(sources), Addresses(sources), MergedRamOps(sources, target),
        RamOps(sources, target);
    ReachedIff(joins, addrs, Matters(sources));
    hide MergesAreReal, Reached;
    forall i | 0 <= i < |sources| ensures a[i] == b[i] <==>
        (sources[i].Some? ==> Reached(joins, addrs, i) == addrs[i]) {
    }
    assert (forall i | 0 <= i < |sources| :: a[i] == b[i]) <==> a == b;
  }

  lemma StartsRun(joins: seq<bool>, addrs: seq<nat>, i: nat)
    requires |addrs| == |joins| && i < |joins| && !Merged(joins, i)
    ensures RunAt(joins, i) == 1 && Reached(joins, addrs, i) == addrs[i]
  {
  }

  lemma OnePage(ops: seq<PageOp>, i: nat, cmd: Cmd)
    requires i < |ops| && cmd.npages == 1 && cmd.Op(0) == ops[i]
    ensures Does(ops, i, cmd)
  {
  }

  /** The first page of a run. */
  lemma RamFirst(sources: seq<Option<nat>>, target: nat, i: nat)
    requires i < |sources| && !Merged(RamJoins(sources), i)
    ensures InRamRun(sources, i, 1)
    ensures Does(MergedRamOps(sources, target), i, RamCmd(sources, target, i, 1))
  {
    StartsRun(RamJoins(sources), Addresses(sources), i);
    hide RunAt, Reached, Merged, RamJoins, Does;
    OnePage(MergedRamOps(sources, target), i, RamCmd(sources, target, i, 1));
  }

  /** The command for `n` pages from page `i` on. */
  function RamCmd(sources: seq<Option<nat>>, target: nat, i: nat, n: nat): Cmd
    requires i < |sources|
  {
    var to := Loc(Target, target).Plus(i);
    if sources[i].Some? then Copying(Loc(Host, sources[i].value), to, n) else Clearing(to, n)
  }

  /** Page `i + n` belongs to the run of `n` pages from page `i` on. */
  ghost predicate InRamRun(sources: seq<Option<nat>>, i: nat, n: nat) {
    && 0 < n <= MAX_NPAGES && i + n <= |sources| && sources[i + n - 1].Some? == sources[i].Some?
    && RunAt(RamJoins(sources), i + n - 1) == n
    && (sources[i].Some? ==>
        Reached(RamJoins(sources), Addresses(sources), i + n - 1) == sources[i].value + (n - 1) * PAGE_SIZE)
  }

  lemma RamNext(sources: seq<Option<nat>>, target: nat, i: nat, n: nat)
    requires InRamRun(sources, i, n) && i + n < |sources| && n < MAX_NPAGES && sources[i + n].Some? == sources[i].Some?
    requires sources[i].Some? ==> IsContiguous(sources[i + n].value, sources[i + n - 1].value)
    ensures InRamRun(sources, i, n + 1) && MergedRamOps(sources, target)[i + n] == RamCmd(sources, target, i, n).Op(n)
  {
    assert RamJoins(sources)[i + n] && Merged(RamJoins(sources), i + n);
  }

  lemma RamStops(sources: seq<Option<nat>>, i: nat, n: nat)
    requires InRamRun(sources, i, n)
    requires i + n == |sources| || n == MAX_NPAGES || sources[i + n].Some? != sources[i].Some?
      || (sources[i].Some? && !IsContiguous(sources[i + n].value, sources[i + n - 1].value))
    ensures !Merged(RamJoins(sources), i + n)
  {
  }

  /** The longest run from page `i` on that one command may hold. */
  method RunFromRam(sources: seq<Option<nat>>, target: nat, i: nat) returns (cmd: Cmd)
    requires i < |sources| && !Merged(RamJoins(sources), i)
    ensures 0 < cmd.npages <= MAX_NPAGES && Does(MergedRamOps(sources, target), i, cmd)
        && !Merged(RamJoins(sources), i + cmd.npages)
  {
    RamFirst(sources, target, i);
    if sources[i].Some? {
      cmd := CopyRun(sources, target, i);
    } else {
      cmd := ClearRun(sources, target, i);
    }
  }

  method CopyRun(sources: seq<Option<nat>>, target: nat, i: nat) returns (cmd: Cmd)
    requires i < |sources| && sources[i].Some? && InRamRun(sources, i, 1)
    requires Does(MergedRamOps(sources, target), i, RamCmd(sources, target, i, 1))
    ensures 0 < cmd.npages <= MAX_NPAGES && Does(MergedRamOps(sources, target), i, cmd)
        && !Merged(RamJoins(sources), i + cmd.npages)
  {
    hide MergedRamOps, InRamRun, Does, Merged, RamJoins, RunAt, Reached, Addresses, IsContiguous;
    ghost var ops := MergedRamOps(sources, target);
    var n: nat := 1;
    while i + n < |sources| && n < MAX_NPAGES && sources[i + n].Some?
      invariant 0 < n <= MAX_NPAGES && i + n <= |sources| && sources[i + n - 1].Some?
      invariant InRamRun(sources, i, n) && Does(ops, i, RamCmd(sources, target, i, n))
    {
      if !IsContiguous(sources[i + n].value, sources[i + n - 1].value) {
        break;
      }
      RamNext(sources, target, i, n);
      OneMore(ops, i, RamCmd(sources, target, i, n));
      n := n + 1;
    }
    RamStops(sources, i, n);
    cmd := Copying(Loc(Host, sources[i].value), Loc(Target, target).Plus(i), n);
  }

  method ClearRun(sources: seq<Option<nat>>, target: nat, i: nat) returns (cmd: Cmd)
    requires i < |sources| && sources[i].None? && InRamRun(sources, i, 1)
    requires Does(MergedRamOps(sources, target), i, RamCmd(sources, target, i, 1))
    ensures 0 < cmd.npages <= MAX_NPAGES && Does(MergedRamOps(sources, target), i, cmd)
        && !Merged(RamJoins(sources), i + cmd.npages)
  {
    hide MergedRamOps, InRamRun, Does, Merged, RamJoins, RunAt, Reached, Addresses, IsContiguous;
    ghost var ops := MergedRamOps(sources, target);
    var n: nat := 1;
    while i + n < |sources| && n < MAX_NPAGES && sources[i + n].None?
      invariant 0 < n <= MAX_NPAGES && i + n <= |sources| && sources[i + n - 1].None?
      invariant InRamRun(sources, i, n) && Does(ops, i, RamCmd(sources, target, i, n))
    {
      RamNext(sources, target, i, n);
      OneMore(ops, i, RamCmd(sources, target, i, n));
      n := n + 1;
    }
    RamStops(sources, i, n);
    cmd := Clearing(Loc(Target, target).Plus(i), n);
  }

  /** The page frames belong to the device. */
  predicate InZone(base: nat, pages: seq<nat>) {
    forall i | 0 <= i < |pages| :: base <= pages[i]
  }

  function DeviceAddr(base: nat, pfn: nat): nat
    requires base <= pfn
  {
    (pfn - base) * PAGE_SIZE
  }

  function ToRamOps(base: nat, pages: seq<nat>, targets: seq<nat>): seq<PageOp>
    requires InZone(base, pages) && |pages| == |targets|
  {
    seq(|pages|, i requires 0 <= i < |pages| => Copy(Loc(Source, DeviceAddr(base, pages[i])), Loc(Host, targets[i])))
  }

  /** A page joins the one before it if it follows on the device and its target passes for the next page. */
  function BothJoin(pages: seq<nat>, targets: seq<nat>): (r: seq<bool>)
    requires |pages| == |targets|
    ensures |r| == |pages|
  {
    seq(|pages|, i requires 0 <= i < |pages| => i > 0 && IsContiguous(targets[i], targets[i - 1])
        && pages[i] == pages[i - 1] + 1)
  }

  function MergedToRamOps(base: nat, pages: seq<nat>, targets: seq<nat>): (r: seq<PageOp>)
    requires InZone(base, pages) && |pages| == |targets|
    ensures |r| == |pages|
  {
    seq(|pages|, i requires 0 <= i < |pages| =>
      Copy(Loc(Source, DeviceAddr(base, pages[i])), Loc(Host, Reached(BothJoin(pages, targets), targets, i))))
  }

  lemma MergedToRamIff(base: nat, pages: seq<nat>, targets: seq<nat>)
    requires InZone(base, pages) && |pages| == |targets|
    ensures MergedToRamOps(base, pages, targets) == ToRamOps(base, pages, targets) <==>
        MergesAreReal(BothJoin(pages, targets), targets)
  {
    var joins, a, b := BothJoin(pages, targets), MergedToRamOps(base, pages, targets), ToRamOps(base, pages, targets);
    ReachedIff(joins, targets, seq(|pages|, _ => true));
    hide MergesAreReal, Reached;
    forall i | 0 <= i < |pages| ensures a[i] == b[i] <==> Reached(joins, targets, i) == targets[i] {
    }
    assert (forall i | 0 <= i < |pages| :: a[i] == b[i]) <==> a == b;
  }

  function ToRamCmd(base: nat, pages: seq<nat>, targets: seq<nat>, i: nat, n: nat): Cmd
    requires i < |pages| == |targets| && base <= pages[i]
  {
    Copying(Loc(Source, DeviceAddr(base, pages[i])), Loc(Host, targets[i]), n)
  }

  ghost predicate InToRamRun(pages: seq<nat>, targets: seq<nat>, i: nat, n: nat)
    requires |pages| == |targets|
  {
    && 0 < n <= MAX_NPAGES && i + n <= |pages| && pages[i + n - 1] == pages[i] + n - 1
    && RunAt(BothJoin(pages, targets), i + n - 1) == n
    && Reached(BothJoin(pages, targets), targets, i + n - 1) == targets[i] + (n - 1) * PAGE_SIZE
  }

  lemma ToRamFirst(base: nat, pages: seq<nat>, targets: seq<nat>, i: nat)
    requires i < |pages| == |targets| && InZone(base, pages) && !Merged(BothJoin(pages, targets), i)
    ensures InToRamRun(pages, targets, i, 1)
        && Does(MergedToRamOps(base, pages, targets), i, ToRamCmd(base, pages, targets, i, 1))
  {
    StartsRun(BothJoin(pages, targets), targets, i);
    hide RunAt, Reached, Merged, BothJoin, Does;
    OnePage(MergedToRamOps(base, pages, targets), i, ToRamCmd(base, pages, targets, i, 1));
  }

  lemma ToRamNext(base: nat, pages: seq<nat>, targets: seq<nat>, i: nat, n: nat)
    requires |pages| == |targets| && InZone(base, pages) && InToRamRun(pages, targets, i, n) && i + n < |pages|
        && n < MAX_NPAGES
    requires IsContiguous(targets[i + n], targets[i + n - 1]) && pages[i + n] == pages[i + n - 1] + 1
    ensures InToRamRun(pages, targets, i, n + 1)
    ensures MergedToRamOps(base, pages, targets)[i + n] == ToRamCmd(base, pages, targets, i, n).Op(n)
  {
    assert BothJoin(pages, targets)[i + n] && Merged(BothJoin(pages, targets), i + n);
  }

  lemma ToRamStops(pages: seq<nat>, targets: seq<nat>, i: nat, n: nat)
    requires |pages| == |targets| && InToRamRun(pages, targets, i, n)
    requires i + n == |pages| || n == MAX_NPAGES
        || !(IsContiguous(targets[i + n], targets[i + n - 1]) && pages[i + n] == pages[i + n - 1] + 1)
    ensures !Merged(BothJoin(pages, targets), i + n)
  {
  }

  method RunToRam(base: nat, pages: seq<nat>, targets: seq<nat>, i: nat) returns (cmd: Cmd)
    requires i < |pages| == |targets| && InZone(base, pages) && !Merged(BothJoin(pages, targets), i)
    ensures 0 < cmd.npages <= MAX_NPAGES && Does(MergedToRamOps(base, pages, targets), i, cmd)
    ensures !Merged(BothJoin(pages, targets), i + cmd.npages)
  {
    hide MergedToRamOps, InToRamRun, Does, Merged, BothJoin, RunAt, Reached, IsContiguous;
    ghost var ops := MergedToRamOps(base, pages, targets);
    ToRamFirst(base, pages, targets, i);
    var n: nat := 1;
    var from, to := Loc(Source, DeviceAddr(base, pages[i])), Loc(Host, targets[i]);
    while i + n < |pages| && n < MAX_NPAGES
      invariant 0 < n <= MAX_NPAGES && i + n <= |pages|
      invariant InToRamRun(pages, targets, i, n) && Does(ops, i, ToRamCmd(base, pages, targets, i, n))
    {
      if !(IsContiguous(targets[i + n], targets[i + n - 1]) && pages[i + n] == pages[i + n - 1] + 1) {
        break;
      }
      ToRamNext(base, pages, targets, i, n);
      OneMore(ops, i, ToRamCmd(base, pages, targets, i, n));
      n := n + 1;
    }
    ToRamStops(pages, targets, i, n);
    cmd := Copying(from, to, n);
  }

  /** Page frames in a row. */
  predicate Consecutive(pages: seq<nat>, i: nat, n: nat) {
    i + n <= |pages| && forall j | i <= j < i + n :: pages[j] == pages[i] + (j - i)
  }

  /** A run of consecutive source pages of at most `limit` pages, to be copied to `to`. */
  method RunOfPages(base: nat, pages: seq<nat>, to: Loc, i: nat, limit: nat) returns (cmd: Cmd)
    requires 0 < limit && i + limit <= |pages| && InZone(base, pages)
    ensures cmd == Copying(Loc(Source, DeviceAddr(base, pages[i])), to, cmd.npages)
        && 0 < cmd.npages <= Min(limit, MAX_NPAGES)
    ensures Consecutive(pages, i, cmd.npages)
    ensures cmd.npages == Min(limit, MAX_NPAGES) || pages[i + cmd.npages] != pages[i + cmd.npages - 1] + 1
  {
    var n: nat := 1;
    while n < limit && n < MAX_NPAGES && pages[i + n] == pages[i + n - 1] + 1
      invariant 0 < n <= Min(limit, MAX_NPAGES)
      invariant pages[i + n - 1] == pages[i] + n - 1
      invariant Consecutive(pages, i, n)
    {
      n := n + 1;
    }
    cmd := Copying(Loc(Source, DeviceAddr(base, pages[i])), to, n);
  }

  function DirectOps(base: nat, pages: seq<nat>, target: nat): seq<PageOp>
    requires InZone(base, pages)
  {
    seq(|pages|, i requires 0 <= i < |pages| => Copy(Loc(Source, DeviceAddr(base, pages[i])),
        Loc(Target, target).Plus(i)))
  }

  lemma DirectDoes(base: nat, pages: seq<nat>, target: nat, i: nat, cmd: Cmd)
    requires InZone(base, pages) && i < |pages| && i + cmd.npages <= |pages|
    requires cmd == Copying(Loc(Source, DeviceAddr(base, pages[i])), Loc(Target, target).Plus(i), cmd.npages)
    requires Consecutive(pages, i, cmd.npages)
    ensures Does(DirectOps(base, pages, target), i, cmd)
  {
    forall k: nat | k < cmd.npages ensures cmd.Op(k) == DirectOps(base, pages, target)[i + k] {
      assert pages[i + k] == pages[i] + k;
    }
  }

  // ---- Staging ----

  /** No command reaches beyond the staging buffer in RAM. */
  predicate WithinBuffer(log: seq<Cmd>, buffer: nat, npages: nat) {
    forall i | 0 <= i < |log| ::
      && (log[i].to.space == Host ==>
          buffer <= log[i].to.addr && log[i].to.addr + log[i].npages * PAGE_SIZE <= buffer + npages * PAGE_SIZE)
      && (log[i].Copying? && log[i].from.space == Host ==>
          buffer <= log[i].from.addr && log[i].from.addr + log[i].npages * PAGE_SIZE <= buffer + npages * PAGE_SIZE)
  }

  function FillOps(base: nat, pages: seq<nat>, buffer: nat, copied: nat, n: nat): seq<PageOp>
    requires InZone(base, pages) && copied + n <= |pages|
  {
    seq(n, k requires 0 <= k < n => Copy(Loc(Source, DeviceAddr(base, pages[copied + k])), Loc(Host, buffer).Plus(k)))
  }

  function DrainOps(buffer: nat, target: nat, copied: nat, n: nat): seq<PageOp> {
    seq(n, k requires 0 <= k < n => Copy(Loc(Host, buffer).Plus(k), Loc(Target, target).Plus(copied + k)))
  }

  /** Fill the buffer, drain it, and so on until all pages from `copied` on are over. */
  function StagedOps(base: nat, pages: seq<nat>, buffer: nat, target: nat, copied: nat): seq<PageOp>
    requires InZone(base, pages) && copied <= |pages|
    decreases |pages| - copied
  {
    if copied == |pages| then []
    else
      var n := Min(|pages| - copied, STAGING_NPAGES);
      FillOps(base, pages, buffer, copied, n) + DrainOps(buffer, target, copied, n) + StagedOps(base, pages, buffer,
          target, copied + n)
  }

  lemma FillDoes(base: nat, pages: seq<nat>, buffer: nat, copied: nat, n: nat, i: nat, cmd: Cmd)
    requires InZone(base, pages) && copied + n <= |pages| && i < n && i + cmd.npages <= n
    requires cmd == Copying(Loc(Source, DeviceAddr(base, pages[copied + i])), Loc(Host, buffer).Plus(i), cmd.npages)
    requires Consecutive(pages, copied + i, cmd.npages)
    ensures Does(FillOps(base, pages, buffer, copied, n), i, cmd)
  {
    var ops := FillOps(base, pages, buffer, copied, n);
    forall k: nat | k < cmd.npages ensures cmd.Op(k) == ops[i + k] {
      var j := copied + i + k;
      assert pages[j] == pages[copied + i] + k;
      assert copied + (i + k) == j;
      assert ops[i + k] == Copy(Loc(Source, DeviceAddr(base, pages[j])), Loc(Host, buffer).Plus(i + k));
      assert cmd.from.Plus(k) == Loc(Source, DeviceAddr(base, pages[j]));
    }
  }

  lemma ChunkOps(base: nat, pages: seq<nat>, buffer: nat, target: nat, copied: nat, moved: nat, before: seq<Cmd>,
      log: seq<Cmd>, cmd: Cmd)
    requires InZone(base, pages) && copied < |pages| && moved == Min(|pages| - copied, STAGING_NPAGES)
    requires AllOps(log) == AllOps(before) + FillOps(base, pages, buffer, copied, moved)
    requires cmd == Copying(Loc(Host, buffer), Loc(Target, target).Plus(copied), moved)
    ensures AllOps(log + [cmd]) + StagedOps(base, pages, buffer, target, copied + moved)
         == AllOps(before) + StagedOps(base, pages, buffer, target, copied)
  {
    hide FillOps, DrainOps;
    assert (log + [cmd])[..|log|] == log;
    var drain := DrainOps(buffer, target, copied, moved);
    DrainIsOne(buffer, target, copied, moved);
    hide AllOps;
    Regroup(AllOps(before), FillOps(base, pages, buffer, copied, moved), drain,
        StagedOps(base, pages, buffer, target, copied + moved));
  }

  lemma DrainIsOne(buffer: nat, target: nat, copied: nat, n: nat)
    ensures Copying(Loc(Host, buffer), Loc(Target, target).Plus(copied), n).Ops() == DrainOps(buffer, target, copied, n)
  {
    var a, b := Copying(Loc(Host, buffer), Loc(Target, target).Plus(copied), n).Ops(),
        DrainOps(buffer, target, copied, n);
    forall k | 0 <= k < n ensures a[k] == b[k] {
      assert a[k] == Copy(Loc(Host, buffer).Plus(k), Loc(Target, target).Plus(copied).Plus(k));
      assert b[k] == Copy(Loc(Host, buffer).Plus(k), Loc(Target, target).Plus(copied + k));
    }
  }

  lemma Regroup<T>(a: seq<T>, b: seq<T>, c: seq<T>, d: seq<T>)
    ensures (a + b + c) + d == a + (b + c + d)
  {
  }

  lemma StagedEnd(base: nat, pages: seq<nat>, buffer: nat, target: nat)
    requires InZone(base, pages)
    ensures StagedOps(base, pages, buffer, target, |pages|) == []
  {
  }

  // ---- What the operations do to memory ----

  type Mem = Loc -> int

  function Value(mem: Mem, op: PageOp): int {
    if op.Copy? then mem(op.from) else 0
  }

  function Run(mem: Mem, ops: seq<PageOp>): Mem {
    if ops == [] then mem
    else
      var m := Run(mem, ops[..|ops| - 1]);
      var op := ops[|ops| - 1];
      l => if l == op.to then Value(m, op) else m(l)
  }

  /** No operation overwrites what another one writes or reads. */
  ghost predicate Independent(ops: seq<PageOp>) {
    && (forall i, j | 0 <= i < j < |ops| :: ops[i].to != ops[j].to)
    && (forall i, j | 0 <= i < |ops| && 0 <= j < |ops| && ops[j].Copy? :: ops[i].to != ops[j].from)
  }

  ghost predicate Writes(ops: seq<PageOp>, l: Loc) {
    exists i | 0 <= i < |ops| :: ops[i].to == l
  }

  lemma {:induction false} Untouched(mem: Mem, ops: seq<PageOp>, l: Loc)
    requires !Writes(ops, l)
    ensures Run(mem, ops)(l) == mem(l)
  {
    if ops != [] {
      var n := |ops| - 1;
      assert ops[n].to != l;
      assert forall i | 0 <= i < n :: ops[..n][i] == ops[i];
      Untouched(mem, ops[..n], l);
    }
  }

  /** Independent operations copy what was there before all of them. */
  lemma {:induction false} Effect(mem: Mem, ops: seq<PageOp>, i: nat)
    requires Independent(ops) && i < |ops|
    ensures Run(mem, ops)(ops[i].to) == Value(mem, ops[i])
  {
    var n := |ops| - 1;
    var front := ops[..n];
    assert forall j | 0 <= j < n :: front[j] == ops[j];
    if i < n {
      Effect(mem, front, i);
    } else if ops[n].Copy? {
      assert forall j | 0 <= j < n :: front[j].to != ops[n].from;
      Untouched(mem, front, ops[n].from);
    }
  }

  lemma {:induction false} RunConcat(mem: Mem, a: seq<PageOp>, b: seq<PageOp>, l: Loc)
    ensures Run(mem, a + b)(l) == Run(Run(mem, a), b)(l)
  {
    if b == [] {
      assert a + b == a;
    } else {
      var n := |b| - 1;
      assert (a + b)[..|a + b| - 1] == a + b[..n];
      RunConcat(mem, a, b[..n], l);
      if b[n].Copy? { RunConcat(mem, a, b[..n], b[n].from); }
    }
  }

  lemma FillIndependent(base: nat, pages: seq<nat>, buffer: nat, copied: nat, n: nat)
    requires InZone(base, pages) && copied + n <= |pages|
    ensures Independent(FillOps(base, pages, buffer, copied, n))
  {
    var ops := FillOps(base, pages, buffer, copied, n);
    forall i, j | 0 <= i < j < |ops| ensures ops[i].to != ops[j].to {
      assert ops[i].to.addr == buffer + i * PAGE_SIZE && ops[j].to.addr == buffer + j * PAGE_SIZE;
    }
  }

  lemma DrainIndependent(buffer: nat, target: nat, copied: nat, n: nat)
    ensures Independent(DrainOps(buffer, target, copied, n))
  {
    var ops := DrainOps(buffer, target, copied, n);
    forall i, j | 0 <= i < j < |ops| ensures ops[i].to != ops[j].to {
      assert ops[i].to.addr == target + (copied + i) * PAGE_SIZE && ops[j].to.addr == target + (copied + j) * PAGE_SIZE;
    }
    forall i, j | 0 <= i < |ops| && 0 <= j < |ops| && ops[j].Copy? ensures ops[i].to != ops[j].from {
      assert ops[i] == Copy(Loc(Host, buffer).Plus(i), Loc(Target, target).Plus(copied + i));
      assert ops[j] == Copy(Loc(Host, buffer).Plus(j), Loc(Target, target).Plus(copied + j));
    }
  }

  /** One filling and draining brings its pages over. */
  lemma ChunkBrings(mem: Mem, base: nat, pages: seq<nat>, buffer: nat, target: nat, copied: nat, n: nat, i: nat)
    requires InZone(base, pages) && copied + n <= |pages| && copied <= i < copied + n
    ensures Run(Run(mem, FillOps(base, pages, buffer, copied, n)),
        DrainOps(buffer, target, copied, n))(Loc(Target, target).Plus(i))
         == mem(Loc(Source, DeviceAddr(base, pages[i])))
  {
    var fill, drain := FillOps(base, pages, buffer, copied, n), DrainOps(buffer, target, copied, n);
    var k := i - copied;
    assert copied + k == i;
    FillIndependent(base, pages, buffer, copied, n);
    DrainIndependent(buffer, target, copied, n);
    Effect(mem, fill, k);
    Effect(Run(mem, fill), drain, k);
  }

  /** It leaves the source and the other pages of the target alone. */
  lemma ChunkKeeps(mem: Mem, base: nat, pages: seq<nat>, buffer: nat, target: nat, copied: nat, n: nat, l: Loc)
    requires InZone(base, pages) && copied + n <= |pages|
    requires l.space == Source || (l.space == Target && l.addr < target + copied * PAGE_SIZE)
    ensures Run(Run(mem, FillOps(base, pages, buffer, copied, n)), DrainOps(buffer, target, copied, n))(l) == mem(l)
  {
    var fill, drain := FillOps(base, pages, buffer, copied, n), DrainOps(buffer, target, copied, n);
    forall k | 0 <= k < n ensures fill[k].to != l && drain[k].to != l {
      assert fill[k].to.space == Host;
      assert drain[k] == Copy(Loc(Host, buffer).Plus(k), Loc(Target, target).Plus(copied + k));
    }
    Untouched(mem, fill, l);
    Untouched(Run(mem, fill), drain, l);
  }

  /** Copying through the staging buffer brings every page over, as copying page by page would. */
  lemma StagedCopies(mem: Mem, base: nat, pages: seq<nat>, buffer: nat, target: nat, i: nat)
    requires InZone(base, pages) && i < |pages|
    ensures Run(mem, StagedOps(base, pages, buffer, target, 0))(Loc(Target, target).Plus(i))
        == mem(Loc(Source, DeviceAddr(base, pages[i])))
    ensures Run(mem, DirectOps(base, pages, target))(Loc(Target, target).Plus(i))
        == mem(Loc(Source, DeviceAddr(base, pages[i])))
  {
    hide Run;
    StagedEffect(mem, base, pages, buffer, target, 0, i);
    DirectEffect(mem, base, pages, target, i);
  }

  lemma {:induction false} StagedEffect(mem: Mem, base: nat, pages: seq<nat>, buffer: nat, target: nat, copied: nat,
      i: nat)
    requires InZone(base, pages) && copied <= i < |pages|
    ensures Run(mem, StagedOps(base, pages, buffer, target, copied))(Loc(Target, target).Plus(i))
        == mem(Loc(Source, DeviceAddr(base, pages[i])))
    decreases |pages| - copied
  {
    hide Run, FillOps, DrainOps;
    var n := Min(|pages| - copied, STAGING_NPAGES);
    var fill, drain, rest := FillOps(base, pages, buffer, copied, n), DrainOps(buffer, target, copied, n),
        StagedOps(base, pages, buffer, target, copied + n);
    var to, from := Loc(Target, target).Plus(i), Loc(Source, DeviceAddr(base, pages[i]));
    var m := Run(Run(mem, fill), drain);
    StagedSplit(mem, fill, drain, rest, to);
    if i < copied + n {
      ChunkBrings(mem, base, pages, buffer, target, copied, n, i);
      StagedKeeps(m, base, pages, buffer, target, copied + n, i);
    } else {
      ChunkKeeps(mem, base, pages, buffer, target, copied, n, from);
      StagedEffect(m, base, pages, buffer, target, copied + n, i);
    }
  }

  lemma StagedSplit(mem: Mem, a: seq<PageOp>, b: seq<PageOp>, c: seq<PageOp>, l: Loc)
    ensures Run(mem, a + b + c)(l) == Run(Run(Run(mem, a), b), c)(l)
  {
    hide Run;
    RunConcat(mem, a + b, c, l);
    RunAfter(Run(mem, a + b), Run(Run(mem, a), b), c, l, mem, a, b);
  }

  /** Running on from memories that agree everywhere. */
  lemma {:induction false} RunAfter(m1: Mem, m2: Mem, ops: seq<PageOp>, l: Loc, mem: Mem, a: seq<PageOp>,
      b: seq<PageOp>)
    requires m1 == Run(mem, a + b) && m2 == Run(Run(mem, a), b)
    ensures Run(m1, ops)(l) == Run(m2, ops)(l)
    decreases |ops|
  {
    if ops == [] {
      RunConcat(mem, a, b, l);
    } else {
      var n := |ops| - 1;
      RunAfter(m1, m2, ops[..n], l, mem, a, b);
      if ops[n].Copy? { RunAfter(m1, m2, ops[..n], ops[n].from, mem, a, b); }
    }
  }

  lemma DirectEffect(mem: Mem, base: nat, pages: seq<nat>, target: nat, i: nat)
    requires InZone(base, pages) && i < |pages|
    ensures Run(mem, DirectOps(base, pages, target))(Loc(Target, target).Plus(i))
        == mem(Loc(Source, DeviceAddr(base, pages[i])))
  {
    var ops := DirectOps(base, pages, target);
    forall i, j | 0 <= i < j < |ops| ensures ops[i].to != ops[j].to {
      assert ops[i].to.addr == target + i * PAGE_SIZE && ops[j].to.addr == target + j * PAGE_SIZE;
    }
    Effect(mem, ops, i);
  }

  /** Later chunks leave earlier pages alone. */
  lemma {:induction false} StagedKeeps(mem: Mem, base: nat, pages: seq<nat>, buffer: nat, target: nat, copied: nat,
      i: nat)
    requires InZone(base, pages) && i < copied <= |pages|
    ensures Run(mem, StagedOps(base, pages, buffer, target, copied))(Loc(Target, target).Plus(i))
        == mem(Loc(Target, target).Plus(i))
    decreases |pages| - copied
  {
    if copied < |pages| {
      var n := Min(|pages| - copied, STAGING_NPAGES);
      var fill, drain, rest := FillOps(base, pages, buffer, copied, n), DrainOps(buffer, target, copied, n),
          StagedOps(base, pages, buffer, target, copied + n);
      var to := Loc(Target, target).Plus(i);
      StagedSplit(mem, fill, drain, rest, to);
      hide Run, FillOps, DrainOps;
      ChunkKeeps(mem, base, pages, buffer, target, copied, n, to);
      StagedKeeps(Run(Run(mem, fill), drain), base, pages, buffer, target, copied + n, i);
    }
  }
}
