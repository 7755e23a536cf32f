/** Progress of concurrent `do_copy_to` calls: when a call stops waiting, and that every call can always finish. */
module UserDmaWriteProgress {

  import opened Common
  import opened Dma
  import opened UserDmaWrite
  import opened UserDmaWriteRuns

  // ---- Two more invariants ----

  /** Each chunk is as long as the slice and the buffer allow. */
  ghost predicate FitLen(cfg: Config, c: Call, off: nat, buf: BufId, len: nat) {
    off <= |c.data| && buf in cfg.sizes && len == Min(|c.data| - off, cfg.sizes[buf])
  }

  ghost predicate CutWell(cfg: Config, c: Call, ch: Chan) {
    && (c.pc.Acquire? || c.pc.Push? || c.pc.Schedule? ==>
        c.off < |c.data| && FitLen(cfg, c, c.off, c.pc.buf, c.pc.len))
    && (c.pc.Count? ==>
        c.off < |c.data| && ch.cntr < |ch.issued| && FitLen(cfg, c, c.off, ch.issued[ch.cntr].buf, c.pc.len))
    && (Waiting(c.pc) && c.pc.next ==> c.off < |c.data|)
    && (c.sent == [] ==> c.highest == 0)
    && forall j | 0 <= j < |c.sent| ::
        c.sent[j].ticket < |ch.issued| && FitLen(cfg, c, c.sent[j].off, ch.issued[c.sent[j].ticket].buf, c.sent[j].len)
  }

  /** Chunk `j` of call `t` has ticket `k` on channel `ch`. */
  predicate TicketOf(calls: seq<Call>, ch: Channel, k: nat, t: nat, j: nat) {
    t < |calls| && calls[t].ch == ch && j < |calls[t].sent| && calls[t].sent[j].ticket == k
  }

  ghost predicate HasOwner(calls: seq<Call>, ch: Channel, k: nat) {
    exists t: nat, j: nat :: TicketOf(calls, ch, k, t, j)
  }

  /** Every ticket drawn is recorded by a call. */
  ghost predicate Owned(calls: seq<Call>, ch: Channel, n: nat) {
    forall k: nat | k < n :: HasOwner(calls, ch, k)
  }

  ghost predicate AllCutWell(cfg: Config, s: State) {
    forall t | 0 <= t < |s.calls| :: CutWell(cfg, s.calls[t], s.Ch(s.calls[t].ch))
  }

  ghost predicate Good(cfg: Config, s: State) {
    && Inv(cfg, s)
    && AllCutWell(cfg, s)
    && Owned(s.calls, Memory, s.memory.cntr)
    && Owned(s.calls, Stream, s.stream.cntr)
  }

  // ---- The tickets ----

  lemma OwnedGrows(calls: seq<Call>, calls': seq<Call>, ch: Channel, n: nat)
    requires Owned(calls, ch, n) && |calls| <= |calls'|
    requires forall t | 0 <= t < |calls| :: calls'[t].ch == calls[t].ch && calls[t].sent <= calls'[t].sent
    ensures Owned(calls', ch, n)
  {
    forall k: nat | k < n ensures HasOwner(calls', ch, k) {
      assert HasOwner(calls, ch, k);
      var t: nat, j: nat :| TicketOf(calls, ch, k, t, j);
      assert TicketOf(calls', ch, k, t, j);
    }
  }

  lemma OwnedStep(cfg: Config, s: State, a: Action, ch: Channel)
    requires Enabled(cfg, s, a) && Owned(s.calls, ch, s.Ch(ch).cntr)
    ensures Owned(Apply(cfg, s, a).calls, ch, Apply(cfg, s, a).Ch(ch).cntr)
  {
    var s' := Apply(cfg, s, a);
    var n, n' := s.Ch(ch).cntr, s'.Ch(ch).cntr;
    hide Owned;
    SentGrows(cfg, s, a);
    OwnedGrows(s.calls, s'.calls, ch, n);
    CntrStep(cfg, s, a, ch);
    if n' != n { OneMore(s'.calls, ch, n, a.call); }
  }

  lemma SentGrows(cfg: Config, s: State, a: Action)
    requires Enabled(cfg, s, a)
    ensures var s' := Apply(cfg, s, a);
      && |s.calls| <= |s'.calls|
      && forall t | 0 <= t < |s.calls| :: s'.calls[t].ch == s.calls[t].ch && s.calls[t].sent <= s'.calls[t].sent
  {
    if !(a.Step? && s.calls[a.call].pc.Count?) {
      hide Apply;
      NothingDrawn(cfg, s, a);
    }
  }

  lemma CntrStep(cfg: Config, s: State, a: Action, ch: Channel)
    requires Enabled(cfg, s, a)
    ensures var s' := Apply(cfg, s, a);
      var n, n' := s.Ch(ch).cntr, s'.Ch(ch).cntr;
      n' != n ==>
        && n' == n + 1 && a.Step? && a.call < |s'.calls| && s'.calls[a.call].sent != []
        && TicketOf(s'.calls, ch, n, a.call, |s'.calls[a.call].sent| - 1)
  {
  }

  lemma OneMore(calls: seq<Call>, ch: Channel, n: nat, t: nat)
    requires Owned(calls, ch, n) && t < |calls| && calls[t].sent != []
    requires TicketOf(calls, ch, n, t, |calls[t].sent| - 1)
    ensures Owned(calls, ch, n + 1)
  {
    assert HasOwner(calls, ch, n);
  }

  // ---- The arguments of a call ----

  predicate SameArgs(c: Call, c': Call) {
    c'.ch == c.ch && c'.data == c.data && c'.ptr == c.ptr
  }

  lemma ArgsStay(cfg: Config, s: State, a: Action, t: nat)
    requires Enabled(cfg, s, a) && t < |s.calls|
    ensures t < |Apply(cfg, s, a).calls| && SameArgs(s.calls[t], Apply(cfg, s, a).calls[t])
  {
    if a.Step? {
      hide StepCall;
      OneMoves(cfg, s, a.call);
      if Waiting(s.calls[a.call].pc) { WaitingShape(cfg, s, a.call); } else { SendingArgs(cfg, s, a.call); }
    }
  }

  lemma SendingArgs(cfg: Config, s: State, t: nat)
    requires Enabled(cfg, s, Step(t)) && !Waiting(s.calls[t].pc)
    ensures t < |StepCall(cfg, s, t).calls| && SameArgs(s.calls[t], StepCall(cfg, s, t).calls[t])
  {
  }

  /** Call `t` is the one begun when `t` calls were there, with its caller's slice, address and channel. */
  lemma {:induction false} CalledAs(cfg: Config, run: seq<State>, acts: seq<Action>, i: nat, t: nat)
    returns (k: nat)
    requires IsRun(cfg, run, acts) && i < |run| && t < |run[i].calls|
    ensures k < i && |run[k].calls| == t
    ensures acts[k] == Begin(run[i].calls[t].ch, run[i].calls[t].data, run[i].calls[t].ptr)
    decreases i
  {
    assert i > 0;
    assert run[i - 1 + 1] == Apply(cfg, run[i - 1], acts[i - 1]);
    if t < |run[i - 1].calls| {
      k := CalledAs(cfg, run, acts, i - 1, t);
      hide Apply;
      ArgsStay(cfg, run[i - 1], acts[i - 1], t);
    } else {
      k := i - 1;
      BegunAs(cfg, run[i - 1], acts[i - 1], t);
    }
  }

  lemma BegunAs(cfg: Config, s: State, a: Action, t: nat)
    requires Enabled(cfg, s, a) && |s.calls| <= t < |Apply(cfg, s, a).calls|
    ensures t == |s.calls|
    ensures var c := Apply(cfg, s, a).calls[t]; a == Begin(c.ch, c.data, c.ptr)
  {
    CallsBound(cfg, s, a);
  }

  // ---- The chunks ----

  ghost predicate Extends(ch: Chan, ch': Chan) {
    ch.issued <= ch'.issued && ch.cntr <= ch'.cntr
  }

  lemma CutWellGrows(cfg: Config, c: Call, ch: Chan, ch': Chan)
    requires CutWell(cfg, c, ch) && Extends(ch, ch') && (c.pc.Count? ==> ch'.cntr == ch.cntr)
    ensures CutWell(cfg, c, ch')
  {
  }

  ghost predicate StaysCutWell(cfg: Config, s: State, s': State, t: nat) {
    && t < |s.calls| == |s'.calls| && s'.calls == s.calls[t := s'.calls[t]] && s'.calls[t].ch == s.calls[t].ch
    && CutWell(cfg, s'.calls[t], s'.Ch(s'.calls[t].ch))
  }

  lemma CutWellOwn(cfg: Config, s: State, t: nat)
    requires Enabled(cfg, s, Step(t)) && CutWell(cfg, s.calls[t], s.Ch(s.calls[t].ch)) && CallInv(cfg, s, t)
    requires CountInv(s, s.calls[t].ch) && LockInv(s)
    ensures StaysCutWell(cfg, s, StepCall(cfg, s, t), t)
  {
    assert t < |s.calls|;
    hide StepCall, Enabled, CutWell, CallInv, CountInv, LockInv;
    if s.calls[t].pc.Count? { CutWellCount(cfg, s, t); }
    else if s.calls[t].pc.Schedule? { CutWellSchedule(cfg, s, t); }
    else if Waiting(s.calls[t].pc) { CutWellWaiting(cfg, s, t); }
    else { CutWellSending(cfg, s, t); }
  }

  lemma CutWellSending(cfg: Config, s: State, t: nat)
    requires Enabled(cfg, s, Step(t)) && CutWell(cfg, s.calls[t], s.Ch(s.calls[t].ch)) && CallInv(cfg, s, t)
    requires !s.calls[t].pc.Count? && !s.calls[t].pc.Schedule? && !Waiting(s.calls[t].pc)
    ensures StaysCutWell(cfg, s, StepCall(cfg, s, t), t)
  {
    hide Carries, SentInv;
    match s.calls[t].pc {
      case Steal =>
      case Fill(_) =>
      case Acquire(_, _) =>
      case Push(_, _) =>
    }
  }

  /** Waiting neither sends nor changes what the call waits for. */
  lemma WaitingShape(cfg: Config, s: State, t: nat)
    requires Enabled(cfg, s, Step(t)) && Waiting(s.calls[t].pc)
    ensures var s' := StepCall(cfg, s, t);
      && |s'.calls| == |s.calls| && s'.calls == s.calls[t := s'.calls[t]]
      && s'.calls[t] == s.calls[t].(pc := s'.calls[t].pc)
      && s'.Ch(s.calls[t].ch).issued == s.Ch(s.calls[t].ch).issued
      && s'.Ch(s.calls[t].ch).cntr == s.Ch(s.calls[t].ch).cntr
      && var pc, pc' := s.calls[t].pc, s'.calls[t].pc;
         if Waiting(pc') then pc'.next == pc.next else pc'.Steal? || pc'.Returned? || pc'.TooManyInterrupts?
  {
    match s.calls[t].pc {
      case Poll(_) =>
      case Read(_) =>
      case Drain(_, _) =>
      case Pop(_, _) =>
      case Recycle(_, _, _) =>
    }
  }

  lemma CutWellWaiting(cfg: Config, s: State, t: nat)
    requires Enabled(cfg, s, Step(t)) && Waiting(s.calls[t].pc) && CutWell(cfg, s.calls[t], s.Ch(s.calls[t].ch))
    ensures StaysCutWell(cfg, s, StepCall(cfg, s, t), t)
  {
    WaitingShape(cfg, s, t);
    hide StepCall, Enabled;
  }

  lemma CutWellSchedule(cfg: Config, s: State, t: nat)
    requires Enabled(cfg, s, Step(t)) && s.calls[t].pc.Schedule? && CutWell(cfg, s.calls[t], s.Ch(s.calls[t].ch))
    requires CountInv(s, s.calls[t].ch) && LockInv(s)
    ensures StaysCutWell(cfg, s, StepCall(cfg, s, t), t)
  {
    hide SumTodo, SumPopping;
    assert s.Ch(s.calls[t].ch).cntr == |s.Ch(s.calls[t].ch).issued|;
  }

  lemma CutWellCount(cfg: Config, s: State, t: nat)
    requires Enabled(cfg, s, Step(t)) && s.calls[t].pc.Count? && CutWell(cfg, s.calls[t], s.Ch(s.calls[t].ch))
    ensures StaysCutWell(cfg, s, StepCall(cfg, s, t), t)
  {
  }

  lemma ChansExtend(cfg: Config, s: State, a: Action, ch: Channel)
    requires Enabled(cfg, s, a)
    ensures Extends(s.Ch(ch), Apply(cfg, s, a).Ch(ch))
  {
  }

  /** Only the lock's owner can count, so the ticket another call is about to draw stays. */
  lemma OtherCounts(cfg: Config, s: State, a: Action, u: nat)
    requires Enabled(cfg, s, a) && LockInv(s) && u < |s.calls| && s.calls[u].pc.Count? && a != Step(u)
    ensures Apply(cfg, s, a).Ch(s.calls[u].ch).cntr == s.Ch(s.calls[u].ch).cntr
  {
    CntrStep(cfg, s, a, s.calls[u].ch);
    if a.Step? {
      assert s.lock == Owner(u);
      assert !s.calls[a.call].pc.Count?;
    }
  }

  lemma OthersStay(cfg: Config, s: State, a: Action, u: nat)
    requires Enabled(cfg, s, a) && u < |s.calls| && a != Step(u) && !(a.StealBuffer? && a.call == u)
    ensures u < |Apply(cfg, s, a).calls| && Apply(cfg, s, a).calls[u] == s.calls[u]
  {
    if a.Step? { OneMoves(cfg, s, a.call); }
  }

  lemma OneMoves(cfg: Config, s: State, t: nat)
    requires Enabled(cfg, s, Step(t))
    ensures |StepCall(cfg, s, t).calls| == |s.calls|
    ensures StepCall(cfg, s, t).calls == s.calls[t := StepCall(cfg, s, t).calls[t]]
  {
    assert t < |s.calls|;
    if Waiting(s.calls[t].pc) {
      hide StepCall, Enabled;
      WaitingStep(cfg, s, t);
    } else if !s.calls[t].pc.Count? {
      hide StepCall, Enabled;
      SendingStep(cfg, s, t);
    }
  }

  lemma CutWellStep(cfg: Config, s: State, a: Action)
    requires Inv(cfg, s) && AllCutWell(cfg, s) && Enabled(cfg, s, a)
    ensures AllCutWell(cfg, Apply(cfg, s, a))
  {
    var s' := Apply(cfg, s, a);
    forall u | 0 <= u < |s'.calls| ensures CutWell(cfg, s'.calls[u], s'.Ch(s'.calls[u].ch)) {
      CutWellOf(cfg, s, a, u);
    }
  }

  lemma CutWellOf(cfg: Config, s: State, a: Action, u: nat)
    requires Inv(cfg, s) && AllCutWell(cfg, s) && Enabled(cfg, s, a) && u < |Apply(cfg, s, a).calls|
    ensures var s' := Apply(cfg, s, a); CutWell(cfg, s'.calls[u], s'.Ch(s'.calls[u].ch))
  {
    hide Inv, CallInv, CountInv, CutWell, StepCall;
    if u == |s.calls| {
      BegunCutWell(cfg, s, a);
    } else {
      assert u < |s.calls| by { CallsBound(cfg, s, a); }
      PartsOfInv(cfg, s, u);
      assert LockInv(s) by { LockOf(cfg, s); }
      if a == Step(u) {
        CutWellOwn(cfg, s, u);
      } else if a.StealBuffer? && a.call == u {
        StolenCutWell(cfg, s, a);
      } else {
        OthersStay(cfg, s, a, u);
        ChansExtend(cfg, s, a, s.calls[u].ch);
        if s.calls[u].pc.Count? { OtherCounts(cfg, s, a, u); }
        CutWellGrows(cfg, s.calls[u], s.Ch(s.calls[u].ch), Apply(cfg, s, a).Ch(s.calls[u].ch));
      }
    }
  }

  lemma LockOf(cfg: Config, s: State)
    requires Inv(cfg, s)
    ensures LockInv(s)
  {
  }

  lemma CallsBound(cfg: Config, s: State, a: Action)
    requires Enabled(cfg, s, a)
    ensures |Apply(cfg, s, a).calls| == |s.calls| + if a.Begin? then 1 else 0
  {
    if a.Step? {
      hide StepCall;
      OneMoves(cfg, s, a.call);
    }
  }

  lemma BegunCutWell(cfg: Config, s: State, a: Action)
    requires Enabled(cfg, s, a) && |s.calls| < |Apply(cfg, s, a).calls|
    ensures var s' := Apply(cfg, s, a); CutWell(cfg, s'.calls[|s.calls|], s'.Ch(s'.calls[|s.calls|].ch))
  {
    CallsBound(cfg, s, a);
  }

  lemma StolenCutWell(cfg: Config, s: State, a: Action)
    requires Enabled(cfg, s, a) && a.StealBuffer? && CutWell(cfg, s.calls[a.call], s.Ch(s.calls[a.call].ch))
    ensures var s' := Apply(cfg, s, a);
      a.call < |s'.calls| && CutWell(cfg, s'.calls[a.call], s'.Ch(s'.calls[a.call].ch))
  {
  }

  lemma GoodStep(cfg: Config, s: State, a: Action)
    requires Good(cfg, s) && Enabled(cfg, s, a)
    ensures Good(cfg, Apply(cfg, s, a))
  {
    hide Inv, AllCutWell, Owned, Apply;
    ApplyInv(cfg, s, a);
    CutWellStep(cfg, s, a);
    OwnedStep(cfg, s, a, Memory);
    OwnedStep(cfg, s, a, Stream);
  }

  lemma InitGood(cfg: Config, s: State)
    requires Init(cfg, s)
    ensures Good(cfg, s)
  {
    hide Inv, CutWell, HasOwner;
    InitInv(cfg, s);
  }

  lemma {:induction false} RunGood(cfg: Config, run: seq<State>, acts: seq<Action>, i: nat)
    requires IsRun(cfg, run, acts) && i < |run|
    ensures Good(cfg, run[i])
  {
    if i == 0 {
      InitGood(cfg, run[0]);
    } else {
      RunGood(cfg, run, acts, i - 1);
      assert run[i - 1 + 1] == Apply(cfg, run[i - 1], acts[i - 1]);
      hide Good, Apply;
      GoodStep(cfg, run[i - 1], acts[i - 1]);
    }
  }

  /** In every run each transfer a call has issued is as long as its slice and its buffer allow. */
  lemma ChunksFillBuffers(cfg: Config, run: seq<State>, acts: seq<Action>, i: nat, t: nat, j: nat)
    requires IsRun(cfg, run, acts) && i < |run| && t < |run[i].calls| && j < |run[i].calls[t].sent|
    ensures var c, k := run[i].calls[t], run[i].calls[t].sent[j];
      && k.ticket < |run[i].Ch(c.ch).issued| && k.off <= |c.data|
      && run[i].Ch(c.ch).issued[k.ticket].buf in cfg.sizes
      && k.len == Min(|c.data| - k.off, cfg.sizes[run[i].Ch(c.ch).issued[k.ticket].buf])
  {
    RunGood(cfg, run, acts, i);
    hide IsRun, Inv, Owned;
    assert CutWell(cfg, run[i].calls[t], run[i].Ch(run[i].calls[t].ch));
  }

  // ---- When a call stops waiting ----

  /** The channel has counted the interrupt of the call's last transfer; without transfers, any interrupt. */
  predicate LastCounted(s: State, c: Call) {
    s.Ch(c.ch).intCntr > if c.sent == [] then 0 else c.sent[|c.sent| - 1].ticket
  }

  /** A step at the end of `do_copy_to` returns exactly if the channel has counted the interrupt of the call's
   *  last transfer, and reads the interrupt again otherwise; a step of a call that waits for a buffer goes back
   *  to stealing exactly if the pool is not empty. */
  lemma ReturnsIff(cfg: Config, run: seq<State>, acts: seq<Action>, i: nat)
    requires IsRun(cfg, run, acts) && i < |acts| && acts[i].Step? && acts[i].call < |run[i].calls|
    requires run[i].calls[acts[i].call].pc.Poll?
    ensures |run[i + 1].calls| == |run[i].calls|
    ensures var c, pc' := run[i].calls[acts[i].call], run[i + 1].calls[acts[i].call].pc;
      if c.pc.next then
        (pc' == Steal <==> run[i].pool != {}) && (pc' == Read(true) <==> run[i].pool == {})
      else
        (pc' == Returned <==> LastCounted(run[i], c)) && (pc' == Read(false) <==> !LastCounted(run[i], c))
  {
    assert run[i + 1] == Apply(cfg, run[i], acts[i]);
    RunGood(cfg, run, acts, i);
    var t := acts[i].call;
    hide IsRun, Inv, Owned;
    PartsOfInv(cfg, run[i], t);
    assert CutWell(cfg, run[i].calls[t], run[i].Ch(run[i].calls[t].ch));
  }

  /** With every command landed, raised and counted, no call that has sent something keeps waiting: its next step
   *  returns. */
  lemma SettledReturns(cfg: Config, run: seq<State>, acts: seq<Action>, i: nat, t: nat)
    requires IsRun(cfg, run, acts) && i < |run| && t < |run[i].calls|
    requires run[i].calls[t].pc == Poll(false) && run[i].calls[t].data != []
    requires var ch := run[i].Ch(run[i].calls[t].ch);
      |ch.landed| == |ch.issued| && ch.raised == |ch.landed| && ch.intCntr == ch.raised
    ensures Enabled(cfg, run[i], Step(t)) && Apply(cfg, run[i], Step(t)).calls[t].pc == Returned
  {
    RunInv(cfg, run, acts, i);
    hide IsRun;
    PartsOfInv(cfg, run[i], t);
  }

  // ---- Work ----

  function WaitRank(next: bool): nat {
    if next then 20 else 10
  }

  /** Steps left before the call draws its next ticket or returns, and interrupts it has still to count. */
  function PcRank(pc: Pc): nat {
    match pc
    case Steal => 20
    case Fill(_) => 18
    case Acquire(_, _) => 17
    case Push(_, _) => 16
    case Schedule(_, _) => 15
    case Count(_) => 5
    case Poll(next) => WaitRank(next)
    case Read(next) => WaitRank(next)
    case Drain(next, todo) => WaitRank(next) + 3 * todo
    case Pop(next, todo) => WaitRank(next) + 3 * todo + 2
    case Recycle(next, todo, _) => WaitRank(next) + 3 * todo + 1
    case Returned => 0
    case TooManyInterrupts => 0
  }

  function CallRank(c: Call): int {
    30 * (|c.data| - c.off) + PcRank(c.pc)
  }

  function CallsRank(calls: seq<Call>): int {
    if calls == [] then 0 else CallRank(calls[0]) + CallsRank(calls[1..])
  }

  /** Transfers to land, interrupts to raise, interrupts to read. */
  function ChanRank(ch: Chan): int {
    6 * (|ch.issued| - |ch.landed|) + 5 * (|ch.landed| - ch.raised) + 4 * ch.pending
  }

  function Work(s: State): int {
    CallsRank(s.calls) + ChanRank(s.memory) + ChanRank(s.stream)
  }

  lemma {:induction false} RankUpdate(calls: seq<Call>, t: nat, c: Call)
    requires t < |calls|
    ensures CallsRank(calls[t := c]) == CallsRank(calls) - CallRank(calls[t]) + CallRank(c)
  {
    if t > 0 {
      assert calls[t := c][1..] == calls[1..][t - 1 := c];
      RankUpdate(calls[1..], t - 1, c);
    } else {
      assert calls[t := c][1..] == calls[1..];
    }
  }

  lemma {:induction false} RankNonNegative(calls: seq<Call>)
    requires forall t | 0 <= t < |calls| :: calls[t].off <= |calls[t].data|
    ensures CallsRank(calls) >= 0
  {
    if calls != [] { RankNonNegative(calls[1..]); }
  }

  lemma WorkNonNegative(cfg: Config, s: State)
    requires Inv(cfg, s)
    ensures Work(s) >= 0
  {
    hide Inv;
    forall t | 0 <= t < |s.calls| ensures s.calls[t].off <= |s.calls[t].data| {
      PartsOfInv(cfg, s, t);
      PartsOfCall(cfg, s, t);
    }
    RankNonNegative(s.calls);
    ChansNonNegative(cfg, s);
  }

  lemma ChansNonNegative(cfg: Config, s: State)
    requires Inv(cfg, s)
    ensures ChanRank(s.memory) >= 0 && ChanRank(s.stream) >= 0
  {
    hide LockInv, PlaceInv, DataInv, CallInv;
    assert CountInv(s, Memory) && CountInv(s, Stream);
  }

  /** What a step of call `t` does to the work left. */
  function OwnRank(s: State, t: nat): int
    requires t < |s.calls|
  {
    CallRank(s.calls[t]) + ChanRank(s.Ch(s.calls[t].ch))
  }

  ghost predicate OnlyOwn(s: State, s': State, t: nat) {
    && t < |s.calls| == |s'.calls| && s'.calls == s.calls[t := s'.calls[t]] && s'.calls[t].ch == s.calls[t].ch
    && forall c: Channel | c != s.calls[t].ch :: s'.Ch(c) == s.Ch(c)
  }

  lemma WorkOfStep(s: State, s': State, t: nat)
    requires OnlyOwn(s, s', t)
    ensures Work(s') - Work(s) == OwnRank(s', t) - OwnRank(s, t)
  {
    hide CallRank, ChanRank;
    RankUpdate(s.calls, t, s'.calls[t]);
    assert s.calls[t].ch.Memory? ==> s'.Ch(Stream) == s.Ch(Stream);
    assert s.calls[t].ch.Stream? ==> s'.Ch(Memory) == s.Ch(Memory);
  }

  /** Steps that use up no work: looking again for a buffer or an interrupt that is not there. */
  predicate Spins(s: State, c: Call) {
    match c.pc
    case Steal => c.off < |c.data|
    case Poll(next) => next || s.Ch(c.ch).intCntr <= c.highest
    case Read(_) => s.Ch(c.ch).pending == 0
    case Drain(_, todo) => todo == 0
    case _ => false
  }

  ghost predicate Uses(s: State, s': State, t: nat) {
    && OnlyOwn(s, s', t)
    && if Spins(s, s.calls[t]) then OwnRank(s', t) == OwnRank(s, t) else OwnRank(s', t) < OwnRank(s, t)
  }

  lemma SendingUsesWork(cfg: Config, s: State, t: nat)
    requires Enabled(cfg, s, Step(t)) && !Waiting(s.calls[t].pc) && CallInv(cfg, s, t)
    requires CutWell(cfg, s.calls[t], s.Ch(s.calls[t].ch)) && forall b | b in cfg.sizes :: cfg.sizes[b] > 0
    ensures Uses(s, StepCall(cfg, s, t), t)
  {
    hide Carries, SentInv;
    match s.calls[t].pc {
      case Steal =>
      case Fill(_) =>
      case Acquire(_, _) =>
      case Push(_, _) =>
      case Schedule(_, _) =>
      case Count(_) =>
    }
  }

  lemma WaitingUsesWork(cfg: Config, s: State, t: nat)
    requires Enabled(cfg, s, Step(t)) && Waiting(s.calls[t].pc)
    ensures Uses(s, StepCall(cfg, s, t), t)
  {
    match s.calls[t].pc {
      case Poll(_) => PollUsesWork(s, t);
      case Read(_) => ReadUsesWork(s, t);
      case Drain(_, _) => DrainUsesWork(s, t);
      case Pop(_, _) => PopUsesWork(s, t);
      case Recycle(_, _, _) => RecycleUsesWork(s, t);
    }
  }

  lemma PollUsesWork(s: State, t: nat)
    requires t < |s.calls| && s.calls[t].pc.Poll?
    ensures Uses(s, PollStep(s, t), t)
  {
  }

  lemma ReadUsesWork(s: State, t: nat)
    requires t < |s.calls| && s.calls[t].pc.Read?
    ensures Uses(s, ReadStep(s, t), t)
  {
  }

  lemma DrainUsesWork(s: State, t: nat)
    requires t < |s.calls| && s.calls[t].pc.Drain?
    ensures Uses(s, DrainStep(s, t), t)
  {
  }

  lemma PopUsesWork(s: State, t: nat)
    requires t < |s.calls| && s.calls[t].pc.Pop?
    ensures Uses(s, PopStep(s, t), t)
  {
  }

  lemma RecycleUsesWork(s: State, t: nat)
    requires t < |s.calls| && s.calls[t].pc.Recycle?
    ensures Uses(s, RecycleStep(s, t), t)
  {
  }

  ghost predicate Usable(cfg: Config) {
    forall b | b in cfg.sizes :: cfg.sizes[b] > 0
  }

  /** Apart from new calls, no step ever adds to the work left, and only steps that look in vain leave it as it
   *  is. */
  lemma StepUsesWork(cfg: Config, s: State, a: Action)
    requires Good(cfg, s) && Usable(cfg) && Enabled(cfg, s, a) && !a.Begin?
    ensures if a.Step? && Spins(s, s.calls[a.call]) then Work(Apply(cfg, s, a)) == Work(s)
            else Work(Apply(cfg, s, a)) < Work(s)
  {
    match a {
      case Step(t) =>
        hide Inv, CallInv, CutWell, Owned, StepCall, Work, OwnRank, CountInv, DataInv;
        PartsOfInv(cfg, s, t);
        if Waiting(s.calls[t].pc) { WaitingUsesWork(cfg, s, t); } else { SendingUsesWork(cfg, s, t); }
        WorkOfStep(s, StepCall(cfg, s, t), t);
      case StealBuffer(t, b) =>
        hide Good;
        RankUpdate(s.calls, t, s.calls[t].(pc := Fill(b)));
      case Complete(c) => hide Good;
      case Raise(c) => hide Good;
    }
  }

  /** Once calls stop arriving, the work left in a run never grows, whoever moves. */
  lemma {:induction false} WorkNeverGrows(cfg: Config, run: seq<State>, acts: seq<Action>, i: nat, j: nat)
    requires IsRun(cfg, run, acts) && Usable(cfg) && i <= j < |run| && forall k | i <= k < j :: !acts[k].Begin?
    ensures 0 <= Work(run[j]) <= Work(run[i])
    decreases j
  {
    RunInv(cfg, run, acts, j);
    WorkNonNegative(cfg, run[j]);
    if i < j {
      WorkNeverGrows(cfg, run, acts, i, j - 1);
      RunGood(cfg, run, acts, j - 1);
      assert run[j - 1 + 1] == Apply(cfg, run[j - 1], acts[j - 1]);
      hide Good, Apply, Work, Inv;
      StepUsesWork(cfg, run[j - 1], acts[j - 1]);
    }
  }

  // ---- Schedules ----

  /** The actions can be taken one after another. */
  ghost predicate CanRun(cfg: Config, s: State, acts: seq<Action>)
    decreases |acts|
  {
    acts == [] || (Enabled(cfg, s, acts[0]) && !acts[0].Begin? && CanRun(cfg, Apply(cfg, s, acts[0]), acts[1..]))
  }

  ghost function After(cfg: Config, s: State, acts: seq<Action>): State
    requires CanRun(cfg, s, acts)
    decreases |acts|
  {
    if acts == [] then s else After(cfg, Apply(cfg, s, acts[0]), acts[1..])
  }

  lemma Then(cfg: Config, s: State, a: Action, acts: seq<Action>)
    requires Enabled(cfg, s, a) && !a.Begin? && CanRun(cfg, Apply(cfg, s, a), acts)
    ensures CanRun(cfg, s, [a] + acts) && After(cfg, s, [a] + acts) == After(cfg, Apply(cfg, s, a), acts)
  {
    hide Apply, Enabled;
    assert ([a] + acts)[1..] == acts;
  }

  lemma {:induction false} Joined(cfg: Config, s: State, acts: seq<Action>, more: seq<Action>)
    requires CanRun(cfg, s, acts) && CanRun(cfg, After(cfg, s, acts), more)
    ensures CanRun(cfg, s, acts + more) && After(cfg, s, acts + more) == After(cfg, After(cfg, s, acts), more)
    decreases |acts|
  {
    hide Apply, Enabled;
    if acts == [] {
      assert acts + more == more;
    } else {
      Joined(cfg, Apply(cfg, s, acts[0]), acts[1..], more);
      assert (acts + more)[1..] == acts[1..] + more;
    }
  }

  lemma {:induction false} AfterGood(cfg: Config, s: State, acts: seq<Action>)
    requires CanRun(cfg, s, acts) && Good(cfg, s)
    ensures Good(cfg, After(cfg, s, acts))
    decreases |acts|
  {
    hide Apply, Enabled, Good;
    if acts != [] {
      GoodStep(cfg, s, acts[0]);
      AfterGood(cfg, Apply(cfg, s, acts[0]), acts[1..]);
    }
  }

  /** The actions lead to a state with less work. */
  ghost predicate Advances(cfg: Config, s: State, acts: seq<Action>) {
    CanRun(cfg, s, acts) && Work(After(cfg, s, acts)) < Work(s)
  }

  lemma OneAction(cfg: Config, s: State, a: Action)
    requires Good(cfg, s) && Usable(cfg) && Enabled(cfg, s, a) && !a.Begin?
    requires a.Step? ==> !Spins(s, s.calls[a.call])
    ensures Advances(cfg, s, [a])
  {
    StepUsesWork(cfg, s, a);
    hide Good, Apply, Enabled, Work;
    Then(cfg, s, a, []);
    assert [a] + [] == [a];
  }

  /** A spin leads on to actions that use up work. */
  lemma SpinThen(cfg: Config, s: State, t: nat, acts: seq<Action>)
    requires Good(cfg, s) && Usable(cfg) && Enabled(cfg, s, Step(t)) && Spins(s, s.calls[t])
    requires Advances(cfg, Apply(cfg, s, Step(t)), acts)
    ensures Advances(cfg, s, [Step(t)] + acts)
  {
    StepUsesWork(cfg, s, Step(t));
    hide Good, Apply, Enabled, Work;
    Then(cfg, s, Step(t), acts);
  }

  /** What the call waits for is there: an interrupt to read, or a buffer, or the count it wants. */
  predicate Hopeful(s: State, c: Call) {
    || s.Ch(c.ch).pending > 0
    || (c.off < |c.data| && s.pool != {})
    || (c.off == |c.data| && s.Ch(c.ch).intCntr > c.highest)
  }

  lemma AnyBuffer(bufs: set<BufId>) returns (b: BufId)
    requires bufs != {}
    ensures b in bufs
  {
    assert (forall x :: x !in bufs) ==> bufs == {};
    b :| b in bufs;
  }

  lemma StealAdvances(cfg: Config, s: State, t: nat) returns (acts: seq<Action>)
    requires Good(cfg, s) && Usable(cfg) && t < |s.calls| && s.calls[t].pc.Steal? && s.pool != {}
    requires s.calls[t].off < |s.calls[t].data|
    ensures Advances(cfg, s, acts)
  {
    var b := AnyBuffer(s.pool);
    acts := [StealBuffer(t, b)];
    OneAction(cfg, s, acts[0]);
  }

  lemma PollAdvances(cfg: Config, s: State, t: nat) returns (acts: seq<Action>)
    requires Good(cfg, s) && Usable(cfg) && t < |s.calls| && s.calls[t].pc.Poll? && Hopeful(s, s.calls[t])
    ensures Advances(cfg, s, acts)
  {
    hide Good, Usable, Advances;
    var s' := Apply(cfg, s, Step(t));
    PollFacts(cfg, s, t);
    if Spins(s, s.calls[t]) {
      GoodStep(cfg, s, Step(t));
      if s'.calls[t].pc.Steal? {
        acts := StealAdvances(cfg, s', t);
      } else {
        acts := [Step(t)];
        OneAction(cfg, s', Step(t));
      }
      SpinThen(cfg, s, t, acts);
      acts := [Step(t)] + acts;
    } else {
      acts := [Step(t)];
      OneAction(cfg, s, Step(t));
    }
  }

  lemma PollFacts(cfg: Config, s: State, t: nat)
    requires Good(cfg, s) && t < |s.calls| && s.calls[t].pc.Poll? && Hopeful(s, s.calls[t])
    ensures Enabled(cfg, s, Step(t))
    ensures var s' := Apply(cfg, s, Step(t));
      && s' == s.SetCall(t, s.calls[t].(pc := s'.calls[t].pc))
      && (Spins(s, s.calls[t]) ==>
          if s'.calls[t].pc.Steal? then s.pool != {} && s.calls[t].off < |s.calls[t].data|
          else s'.calls[t].pc.Read? && s.Ch(s.calls[t].ch).pending > 0)
  {
    hide Inv, Owned;
    PartsOfInv(cfg, s, t);
    assert CutWell(cfg, s.calls[t], s.Ch(s.calls[t].ch));
    hide SentInv, CountInv, DataInv;
  }

  /** A call in its waiting loop, with what it waits for at hand, gets on by its own steps. */
  lemma SpinnerAdvances(cfg: Config, s: State, t: nat) returns (acts: seq<Action>)
    requires Good(cfg, s) && Usable(cfg) && t < |s.calls| && Hopeful(s, s.calls[t])
    requires s.calls[t].pc.Steal? || s.calls[t].pc.Poll? || s.calls[t].pc.Read?
        || (s.calls[t].pc.Drain? && s.calls[t].pc.todo == 0)
    ensures Advances(cfg, s, acts)
  {
    hide Good, Usable, Advances;
    var s' := if Enabled(cfg, s, Step(t)) then Apply(cfg, s, Step(t)) else s;
    if s.calls[t].pc.Poll? {
      acts := PollAdvances(cfg, s, t);
    } else if s.calls[t].pc.Steal? && s.pool != {} && s.calls[t].off < |s.calls[t].data| {
      acts := StealAdvances(cfg, s, t);
    } else if Spins(s, s.calls[t]) {
      GoodStep(cfg, s, Step(t));
      if s.calls[t].pc.Read? {
        acts := IdleDrainAdvances(cfg, s', t);
      } else {
        acts := PollAdvances(cfg, s', t);
      }
      SpinThen(cfg, s, t, acts);
      acts := [Step(t)] + acts;
    } else {
      acts := [Step(t)];
      OneAction(cfg, s, Step(t));
    }
  }

  lemma IdleDrainAdvances(cfg: Config, s: State, t: nat) returns (acts: seq<Action>)
    requires Good(cfg, s) && Usable(cfg) && t < |s.calls| && Hopeful(s, s.calls[t])
    requires s.calls[t].pc.Drain? && s.calls[t].pc.todo == 0
    ensures Advances(cfg, s, acts)
  {
    hide Good, Usable, Advances;
    GoodStep(cfg, s, Step(t));
    acts := PollAdvances(cfg, Apply(cfg, s, Step(t)), t);
    SpinThen(cfg, s, t, acts);
    acts := [Step(t)] + acts;
  }

  // ---- No state is stuck ----

  /** A call without data on a channel that has never counted an interrupt waits for one. */
  predicate EmptyWaits(s: State, t: nat) {
    t < |s.calls| && s.calls[t].data == [] && s.Ch(s.calls[t].ch).intCntr == 0
  }

  ghost predicate Finished(s: State) {
    forall t: nat | t < |s.calls| :: s.calls[t].pc == Returned || EmptyWaits(s, t)
  }

  /** The call can take a step of its own that uses up work. */
  predicate Ready(s: State, c: Call) {
    match c.pc
    case Steal => c.off >= |c.data|
    case Fill(_) => true
    case Acquire(_, _) => s.lock.Free?
    case Push(_, _) => true
    case Schedule(_, _) => true
    case Count(_) => true
    case Drain(_, todo) => todo > 0
    case Pop(_, _) => true
    case Recycle(_, _, _) => true
    case _ => false
  }

  predicate Settled(ch: Chan) {
    |ch.landed| == |ch.issued| && ch.raised == |ch.landed|
  }

  /** The engine is done and no call has a step of its own left but those of the waiting loop. */
  ghost predicate AllSpin(s: State) {
    Settled(s.memory) && Settled(s.stream) && forall t | 0 <= t < |s.calls| :: !Ready(s, s.calls[t])
  }

  lemma ReadyAdvances(cfg: Config, s: State, t: nat)
    requires Good(cfg, s) && Usable(cfg) && t < |s.calls| && Ready(s, s.calls[t])
    ensures Advances(cfg, s, [Step(t)])
  {
    assert Enabled(cfg, s, Step(t)) by { ReadyEnabled(cfg, s, t); }
    hide Good, Usable, Advances;
    OneAction(cfg, s, Step(t));
  }

  lemma ReadyEnabled(cfg: Config, s: State, t: nat)
    requires Good(cfg, s) && t < |s.calls| && Ready(s, s.calls[t])
    ensures Enabled(cfg, s, Step(t))
  {
    hide AllCutWell, Owned;
    assert CallInv(cfg, s, t) && PlaceInv(cfg, s) by { hide CallInv, PlaceInv, LockInv, CountInv, DataInv; }
    hide Inv, CallInv, PlaceInv;
    StepGuard(cfg, s, t);
  }

  lemma EngineAdvances(cfg: Config, s: State, c: Channel) returns (acts: seq<Action>)
    requires Good(cfg, s) && Usable(cfg) && !Settled(s.Ch(c))
    ensures Advances(cfg, s, acts)
  {
    hide AllCutWell, Owned, Advances, LockInv, PlaceInv, CallInv;
    assert CountInv(s, c) && DataInv(cfg, s, c);
    hide SumTodo, SumPopping;
    if |s.Ch(c).landed| < |s.Ch(c).issued| {
      EngineGuard(cfg, s, c);
      acts := [Complete(c)];
    } else {
      acts := [Raise(c)];
    }
    OneAction(cfg, s, acts[0]);
  }

  lemma {:induction false} NoSums(calls: seq<Call>, ch: Channel)
    requires forall t | 0 <= t < |calls| ::
      !calls[t].pc.Pop? && !calls[t].pc.Recycle? && (calls[t].pc.Drain? ==> calls[t].pc.todo == 0)
    ensures SumTodo(calls, ch) == 0 && SumPopping(calls, ch) == 0
  {
    if calls != [] { NoSums(calls[1..], ch); }
  }

  /** With all calls in their waiting loops, the interrupts not yet counted are those not yet read. */
  lemma SpinCounts(cfg: Config, s: State, c: Channel)
    requires Inv(cfg, s) && AllSpin(s)
    ensures s.lock.Free?
    ensures var ch := s.Ch(c); |ch.out| == ch.pending && ch.cntr == ch.pending + ch.intCntr
  {
    hide PlaceInv, DataInv, CallInv;
    NoSums(s.calls, c);
    assert s.lock.Owner? ==> !Ready(s, s.calls[s.lock.call]);
    assert CountInv(s, c);
    hide SumTodo, SumPopping;
  }

  /** The owner of the oldest ticket not yet counted has not returned. */
  lemma OldestWaits(cfg: Config, s: State, c: Channel) returns (u: nat)
    requires Good(cfg, s) && s.Ch(c).intCntr < s.Ch(c).cntr
    ensures u < |s.calls| && s.calls[u].ch == c && s.calls[u].pc != Returned
  {
    hide Inv;
    assert Owned(s.calls, c, s.Ch(c).cntr);
    var k := s.Ch(c).intCntr;
    assert HasOwner(s.calls, c, k);
    var t: nat, j: nat :| TicketOf(s.calls, c, k, t, j);
    u := t;
    PartsOfInv(cfg, s, u);
    TicketsUpToHighest(cfg, s.calls[u], s.Ch(c), j);
  }

  lemma TicketsUpToHighest(cfg: Config, c: Call, ch: Chan, j: nat)
    requires SentInv(cfg, c, ch) && j < |c.sent|
    ensures c.sent[j].ticket <= c.highest
  {
  }

  /** When all calls spin and the pool is empty, some channel has interrupts to read. */
  lemma BuffersQueued(cfg: Config, s: State) returns (c: Channel)
    requires Inv(cfg, s) && AllSpin(s) && s.pool == {} && cfg.sizes != map[]
    ensures s.Ch(c).out != []
  {
    hide LockInv, CountInv, DataInv, CallInv;
    var b := AnyBuffer(cfg.sizes.Keys);
    PlacedOnce(cfg, s, b);
    assert !HeldBySome(s, b) by {
      if HeldBySome(s, b) {
        var t :| 0 <= t < |s.calls| && Holds(s.calls[t].pc, b);
        assert !Ready(s, s.calls[t]) && s.calls[t].pc.Acquire?;
        SpinCounts(cfg, s, Memory);
      }
    }
    c := if b in s.memory.out then Memory else Stream;
  }

  lemma SpinnerShape(cfg: Config, s: State, t: nat)
    requires Inv(cfg, s) && AllSpin(s) && t < |s.calls| && s.calls[t].pc != Returned
    ensures s.calls[t].pc.Steal? || s.calls[t].pc.Poll? || s.calls[t].pc.Read?
        || (s.calls[t].pc.Drain? && s.calls[t].pc.todo == 0)
  {
    hide Inv;
    SpinCounts(cfg, s, Memory);
    PartsOfInv(cfg, s, t);
    assert !Ready(s, s.calls[t]);
    hide SentInv, CountInv, DataInv;
  }

  /** A call at the end of its data, with no interrupt left to read, has what it waits for. */
  lemma EndIsCounted(cfg: Config, s: State, t: nat)
    requires Good(cfg, s) && AllSpin(s) && t < |s.calls| && s.Ch(s.calls[t].ch).pending == 0
    requires s.calls[t].off == |s.calls[t].data| && !EmptyWaits(s, t)
    ensures Hopeful(s, s.calls[t])
  {
    hide Inv, Owned;
    SpinCounts(cfg, s, s.calls[t].ch);
    PartsOfInv(cfg, s, t);
    PartsOfCall(cfg, s, t);
    assert CutWell(cfg, s.calls[t], s.Ch(s.calls[t].ch));
    hide DataInv, CountInv;
  }

  lemma HopeSomewhere(cfg: Config, s: State, t: nat) returns (u: nat)
    requires Good(cfg, s) && AllSpin(s) && cfg.sizes != map[]
    requires t < |s.calls| && s.calls[t].pc != Returned && !EmptyWaits(s, t)
    ensures u < |s.calls| && s.calls[u].pc != Returned && Hopeful(s, s.calls[u])
  {
    hide AllCutWell, Owned, AllSpin;
    assert s.calls[t].off <= |s.calls[t].data| by {
      PartsOfInv(cfg, s, t);
      PartsOfCall(cfg, s, t);
    }
    hide Inv;
    if Hopeful(s, s.calls[t]) {
      u := t;
    } else if s.calls[t].off == |s.calls[t].data| {
      EndIsCounted(cfg, s, t);
      u := t;
    } else {
      var c := BuffersQueued(cfg, s);
      SpinCounts(cfg, s, c);
      u := OldestWaits(cfg, s, c);
    }
  }

  /** In every state in which some call has not finished, some calls or the engine can get on. */
  lemma Advance(cfg: Config, s: State, t: nat) returns (acts: seq<Action>)
    requires Good(cfg, s) && Usable(cfg) && cfg.sizes != map[]
    requires t < |s.calls| && s.calls[t].pc != Returned && !EmptyWaits(s, t)
    ensures Advances(cfg, s, acts)
  {
    hide Good, Usable, Advances, Ready, Settled, EmptyWaits;
    if !Settled(s.memory) {
      acts := EngineAdvances(cfg, s, Memory);
    } else if !Settled(s.stream) {
      acts := EngineAdvances(cfg, s, Stream);
    } else if r: nat :| r < |s.calls| && Ready(s, s.calls[r]) {
      acts := [Step(r)];
      ReadyAdvances(cfg, s, r);
    } else {
      var u := HopeSomewhere(cfg, s, t);
      assert Inv(cfg, s) by { GoodIsInv(cfg, s); }
      SpinnerShape(cfg, s, u);
      acts := SpinnerAdvances(cfg, s, u);
    }
  }

  lemma GoodIsInv(cfg: Config, s: State)
    requires Good(cfg, s)
    ensures Inv(cfg, s)
  {
  }

  lemma {:induction false} FinishFrom(cfg: Config, s: State) returns (acts: seq<Action>)
    requires Good(cfg, s) && Usable(cfg) && cfg.sizes != map[]
    ensures CanRun(cfg, s, acts) && Finished(After(cfg, s, acts))
    decreases Work(s)
  {
    hide Good, Usable, Work, EmptyWaits;
    if t: nat :| t < |s.calls| && s.calls[t].pc != Returned && !EmptyWaits(s, t) {
      var first := Advance(cfg, s, t);
      var s' := After(cfg, s, first);
      AfterGood(cfg, s, first);
      GoodIsInv(cfg, s');
      WorkNonNegative(cfg, s');
      GoodIsInv(cfg, s);
      WorkNonNegative(cfg, s);
      var rest := FinishFrom(cfg, s');
      Joined(cfg, s, first, rest);
      acts := first + rest;
    } else {
      acts := [];
    }
  }

  /** From every state of every run, with at least one buffer and none of size zero, there is a way for every
   *  call to return without any new call arriving; only calls without data may be left waiting for the first
   *  interrupt of their channel. */
  lemma EveryCallCanReturn(cfg: Config, run: seq<State>, acts: seq<Action>, i: nat) returns (rest: seq<Action>)
    requires IsRun(cfg, run, acts) && i < |run| && cfg.sizes != map[] && forall b | b in cfg.sizes :: cfg.sizes[b] > 0
    ensures CanRun(cfg, run[i], rest) && Finished(After(cfg, run[i], rest))
  {
    RunGood(cfg, run, acts, i);
    hide IsRun, Good;
    rest := FinishFrom(cfg, run[i]);
  }
}
