/** Progress of concurrent `do_copy_from` calls: when a chunk is copied back, when a call returns, and that every
 *  call can always finish. */
module UserDmaReadProgress {

  import opened Common
  import opened Dma
  import opened UserDmaRead
  import opened UserDmaReadRuns

  lemma PartsOf(cfg: Config, s: State)
    requires Inv(cfg, s)
    ensures LockInv(s.lock, s.calls) && Balanced(s.ch, SumAdding(s.calls), Unticketed(s.lock, s.calls))
    ensures BytesInv(cfg, s.contents, s.place) && PoolInv(s.place, s.pool) && HeldInv(s.place, s.calls)
  {
    hide LockInv, Balanced, BytesInv, PoolInv, HeldInv, EngineInv, CallInv;
  }

  // ---- What a step of a call leaves alone ----

  /** Only call `t` changes, and not the arguments it was called with. */
  ghost predicate OnlyCall(s: State, s': State, t: nat) {
    && t < |s.calls| == |s'.calls| && s'.calls == s.calls[t := s'.calls[t]]
    && s'.calls[t].ptr == s.calls[t].ptr && |s'.calls[t].out| == |s.calls[t].out|
    && s'.place.Keys == s.place.Keys
  }

  /** The call itself neither sends, nor copies, nor holds the lock. */
  ghost predicate OnlyLooks(s: State, s': State, t: nat) {
    && OnlyCall(s, s', t) && s'.pool == s.pool && s'.place == s.place && s'.lock == s.lock
    && s'.ch.issued == s.ch.issued && s'.ch.delivered == s.ch.delivered && s'.ch.raised == s.ch.raised
    && s'.ch.cntr == s.ch.cntr
    && var c, c' := s.calls[t], s'.calls[t];
       c'.out == c.out && c'.off == c.off && c'.sent == c.sent && c'.copied == c.copied
  }

  predicate Looking(pc: Pc) {
    pc.Check? || pc.Add? || pc.Load? || pc.Retain? || pc.Steal? || pc.Test?
  }

  lemma LookingStep(cfg: Config, s: State, t: nat)
    requires Enabled(cfg, s, Step(t)) && Looking(s.calls[t].pc)
    ensures OnlyLooks(s, StepCall(cfg, s, t), t)
    ensures var c, s' := s.calls[t], StepCall(cfg, s, t);
      match c.pc
      case Check => s'.ch == s.ch.(pending := 0) && s'.calls[t].pc == Add(s.ch.pending)
      case Add(n) => s'.ch == s.ch.(intCntr := s.ch.intCntr + n)
          && s'.calls[t].pc == if c.off < |c.out| then Load else Test
      case Load => s'.ch == s.ch && s'.calls[t].pc == Copy(s.ch.intCntr, 0)
      case Retain(_) => s'.ch == s.ch && s'.calls[t].pc == if c.off < |c.out| then Steal else Check
      case Steal => s'.ch == s.ch && s'.calls[t].pc == Check
      case Test => s'.ch == s.ch && s'.calls[t].pc == if c.used == [] then Returned else Load
      case _ => true
  {
  }

  lemma CopyStep(cfg: Config, s: State, t: nat)
    requires Enabled(cfg, s, Step(t)) && s.calls[t].pc.Copy?
    requires CallInv(cfg, t, s.calls[t], s.ch, s.contents)
    ensures var c, s' := s.calls[t], StepCall(cfg, s, t);
      && s' == s.(calls := s'.calls)
      && OnlyCall(s, s', t) && s'.calls[t].off == c.off && s'.calls[t].sent == c.sent
      && if |c.copied| < |c.sent| && c.sent[|c.copied|].ticket < c.pc.snap
         then s'.calls[t].copied == c.copied + [c.sent[|c.copied|].ticket] && s'.calls[t].pc.Give?
         else s'.calls[t] == c.(pc := Retain(c.pc.snap))
  {
    var c := s.calls[t];
    if CopiesNext(c) {
      hide CallInv;
      NextEntry(cfg, t, c, s.ch, s.contents);
    } else {
      NothingToCopy(cfg, t, c, s.ch, s.contents);
      hide CallInv;
    }
  }

  lemma NothingToCopy(cfg: Config, t: nat, c: Call, ch: Chan, contents: map<BufId, seq<Byte>>)
    requires CallInv(cfg, t, c, ch, contents) && c.pc.Copy? && !CopiesNext(c)
    ensures |c.copied| < |c.sent| ==> c.sent[|c.copied|].ticket >= c.pc.snap
  {
    hide SentInv, OutInv, BufInv, NoDup;
    if |c.copied| < |c.sent| {
      assert c.sent[|c.sent| - |c.used| + c.pc.i] == Chunk(c.used[c.pc.i].ticket, c.used[c.pc.i].off,
          c.used[c.pc.i].len);
    }
  }

  lemma SendingStep(cfg: Config, s: State, t: nat)
    requires Enabled(cfg, s, Step(t)) && !Looking(s.calls[t].pc) && !s.calls[t].pc.Copy?
    requires s.calls[t].pc.Give? ==> s.calls[t].pc.buf in s.place
    ensures var c, s' := s.calls[t], StepCall(cfg, s, t);
      && OnlyCall(s, s', t) && s'.calls[t].out == c.out && s'.calls[t].copied == c.copied
      && (if c.pc.Count? then
            && s'.calls[t].off == c.off + c.pc.len && s'.calls[t].sent == c.sent + [Chunk(s.ch.cntr, c.off, c.pc.len)]
            && s'.calls[t].pc == (if c.off + c.pc.len < |c.out| then Check else Test)
          else
            s'.calls[t].off == c.off && s'.calls[t].sent == c.sent)
      && s'.ch == s.ch.(issued := s'.ch.issued, cntr := s'.ch.cntr)
      && match c.pc
         case Give(snap, i, _) => s'.ch == s.ch && s'.calls[t].pc == Copy(snap, i + 1) && s'.lock == s.lock
         case Acquire(b, n) => s'.ch == s.ch && s'.calls[t].pc == Schedule(b, n) && s.lock == Free
         case Schedule(b, n) => s'.ch.cntr == s.ch.cntr && |s'.ch.issued| == |s.ch.issued| + 1
             && s.ch.issued <= s'.ch.issued && s'.calls[t].pc == Count(b, n)
         case Count(_, _) => s'.ch.issued == s.ch.issued && s'.ch.cntr == s.ch.cntr + 1 && s'.lock == Free
         case _ => true
  {
  }

  // ---- When a chunk is copied back and when a call returns ----

  /** A step at the head of the final loop returns exactly if every chunk sent has been copied back. */
  lemma ReturnsIff(cfg: Config, run: seq<State>, acts: seq<Action>, i: nat)
    requires IsRun(cfg, run, acts) && i < |acts| && acts[i].Step? && acts[i].call < |run[i].calls|
    requires run[i].calls[acts[i].call].pc.Test?
    ensures |run[i + 1].calls| == |run[i].calls|
    ensures var c, pc' := run[i].calls[acts[i].call], run[i + 1].calls[acts[i].call].pc;
      (pc' == Returned <==> |c.copied| == |c.sent|) && (pc' == Load <==> |c.copied| != |c.sent|)
  {
    assert Enabled(cfg, run[i], acts[i]) && run[i + 1] == Apply(cfg, run[i], acts[i]);
    RunInv(cfg, run, acts, i);
    hide IsRun, Inv, StepCall;
    var s, t := run[i], acts[i].call;
    CallOf(cfg, s, t);
    ListIsUncopied(cfg, t, s.calls[t], s.ch, s.contents);
    LookingStep(cfg, s, t);
  }

  /** Outside `release_buffer` the private list holds the chunks sent and not copied back. */
  lemma ListIsUncopied(cfg: Config, t: nat, c: Call, ch: Chan, contents: map<BufId, seq<Byte>>)
    requires CallInv(cfg, t, c, ch, contents) && !c.pc.Copy? && !c.pc.Give? && !c.pc.Retain?
    ensures |c.used| == |c.sent| - |c.copied|
  {
    hide SentInv, OutInv, BufInv, NoDup;
  }

  /** `release_buffer` copies the next chunk back exactly if its ticket lies below the counter it loaded, and it
   *  loads the counter as it stands when it starts. */
  lemma CopiesIffReached(cfg: Config, run: seq<State>, acts: seq<Action>, i: nat)
    requires IsRun(cfg, run, acts) && i < |acts| && acts[i].Step? && acts[i].call < |run[i].calls|
    ensures |run[i + 1].calls| == |run[i].calls|
    ensures var c, c' := run[i].calls[acts[i].call], run[i + 1].calls[acts[i].call];
      && (c.pc.Load? ==> c'.pc == Copy(run[i].ch.intCntr, 0))
      && (c'.copied != c.copied <==>
          c.pc.Copy? && |c.copied| < |c.sent| && c.sent[|c.copied|].ticket < c.pc.snap)
      && (c'.copied != c.copied ==> c'.copied == c.copied + [c.sent[|c.copied|].ticket])
  {
    assert Enabled(cfg, run[i], acts[i]) && run[i + 1] == Apply(cfg, run[i], acts[i]);
    RunInv(cfg, run, acts, i);
    hide IsRun, Inv, StepCall, CallInv;
    var s, t := run[i], acts[i].call;
    CallOf(cfg, s, t);
    if Looking(s.calls[t].pc) {
      LookingStep(cfg, s, t);
    } else if s.calls[t].pc.Copy? {
      CopyStep(cfg, s, t);
    } else {
      if s.calls[t].pc.Give? { GivenIsPlaced(cfg, s, t); }
      SendingStep(cfg, s, t);
    }
  }

  lemma GivenIsPlaced(cfg: Config, s: State, t: nat)
    requires Inv(cfg, s) && t < |s.calls| && s.calls[t].pc.Give?
    ensures s.calls[t].pc.buf in s.place
  {
    hide Inv, LockInv, Balanced, BytesInv, PoolInv;
    PartsOf(cfg, s);
    assert Holds(s.calls[t], s.calls[t].pc.buf);
    hide Holds, HeldInv;
    HeldPlace(s.place, s.calls, t, s.calls[t].pc.buf);
  }

  lemma AnyStep(cfg: Config, s: State, t: nat)
    requires Inv(cfg, s) && Enabled(cfg, s, Step(t))
    ensures OnlyCall(s, StepCall(cfg, s, t), t)
  {
    hide Inv, StepCall, CallInv;
    assert t < |s.calls|;
    CallOf(cfg, s, t);
    if Looking(s.calls[t].pc) {
      LookingStep(cfg, s, t);
    } else if s.calls[t].pc.Copy? {
      CopyStep(cfg, s, t);
    } else {
      if s.calls[t].pc.Give? { GivenIsPlaced(cfg, s, t); }
      SendingStep(cfg, s, t);
    }
  }

  // ---- The arguments of a call ----

  lemma ArgsStay(cfg: Config, s: State, a: Action, t: nat)
    requires Inv(cfg, s) && Enabled(cfg, s, a)
    ensures |Apply(cfg, s, a).calls| == |s.calls| + if a.Begin? then 1 else 0
    ensures t < |s.calls| ==>
      var c, c' := s.calls[t], Apply(cfg, s, a).calls[t]; c'.ptr == c.ptr && |c'.out| == |c.out|
    ensures t == |s.calls| && a.Begin? ==>
      var c' := Apply(cfg, s, a).calls[t]; a == Begin(c'.ptr, c'.out)
  {
    hide Inv, StepCall;
    if a.Step? { AnyStep(cfg, s, a.call); }
  }

  /** Call `t` is the one begun when `t` calls were there, with its caller's address and as many bytes. */
  lemma {:induction false} CalledAs(cfg: Config, run: seq<State>, acts: seq<Action>, i: nat, t: nat)
    returns (k: nat)
    requires IsRun(cfg, run, acts) && i < |run| && t < |run[i].calls|
    ensures k < i && |run[k].calls| == t
    ensures acts[k].Begin? && acts[k].ptr == run[i].calls[t].ptr && |acts[k].out| == |run[i].calls[t].out|
    decreases i
  {
    hide Inv, Apply, Enabled;
    assert i > 0;
    assert Enabled(cfg, run[i - 1], acts[i - 1]) && run[i - 1 + 1] == Apply(cfg, run[i - 1], acts[i - 1]);
    RunInv(cfg, run, acts, i - 1);
    ArgsStay(cfg, run[i - 1], acts[i - 1], t);
    if t < |run[i - 1].calls| {
      k := CalledAs(cfg, run, acts, i - 1, t);
    } else {
      k := i - 1;
    }
  }

  // ---- The chunks ----

  ghost predicate FitLen(cfg: Config, size: nat, off: nat, buf: BufId, len: nat) {
    off <= size && buf in cfg.sizes && len == Min(size - off, cfg.sizes[buf])
  }

  ghost predicate Whole(cfg: Config, size: nat, ch: Chan, k: Chunk) {
    k.ticket < |ch.issued| && FitLen(cfg, size, k.off, ch.issued[k.ticket].buf, k.len)
  }

  /** Each chunk is as long as the output and the buffer allow. */
  ghost predicate CutWell(cfg: Config, c: Call, ch: Chan) {
    && (c.pc.Acquire? || c.pc.Schedule? || c.pc.Count? ==>
        c.off < |c.out| && FitLen(cfg, |c.out|, c.off, c.pc.buf, c.pc.len))
    && (c.pc.Steal? ==> c.off < |c.out|)
    && forall j | 0 <= j < |c.sent| :: Whole(cfg, |c.out|, ch, c.sent[j])
  }

  ghost predicate AllCutWell(cfg: Config, s: State) {
    forall t | 0 <= t < |s.calls| :: CutWell(cfg, s.calls[t], s.ch)
  }

  ghost predicate Good(cfg: Config, s: State) {
    Inv(cfg, s) && AllCutWell(cfg, s)
  }

  lemma CutWellGrows(cfg: Config, c: Call, ch: Chan, ch': Chan)
    requires CutWell(cfg, c, ch) && ch.issued <= ch'.issued
    ensures CutWell(cfg, c, ch')
  {
    forall j | 0 <= j < |c.sent| ensures Whole(cfg, |c.out|, ch', c.sent[j]) {
      assert Whole(cfg, |c.out|, ch, c.sent[j]);
    }
  }

  lemma CutWellSame(cfg: Config, c: Call, c': Call, ch: Chan, ch': Chan)
    requires CutWell(cfg, c, ch) && ch.issued <= ch'.issued
    requires |c'.out| == |c.out| && c'.off == c.off && c'.sent == c.sent
    requires c'.pc.Acquire? || c'.pc.Schedule? || c'.pc.Count? ==>
      (c.pc.Acquire? || c.pc.Schedule?) && c'.pc.buf == c.pc.buf && c'.pc.len == c.pc.len
    requires c'.pc.Steal? ==> c.off < |c.out|
    ensures CutWell(cfg, c', ch')
  {
    forall j | 0 <= j < |c'.sent| ensures Whole(cfg, |c'.out|, ch', c'.sent[j]) {
      assert Whole(cfg, |c.out|, ch, c.sent[j]);
    }
  }

  lemma CutWellCount(cfg: Config, t: nat, c: Call, c': Call, ch: Chan, ch': Chan)
    requires CutWell(cfg, c, ch) && ch'.issued == ch.issued && c.pc.Count? && PcInv(cfg, t, c, ch)
    requires |c'.out| == |c.out| && c'.sent == c.sent + [Chunk(ch.cntr, c.off, c.pc.len)]
    requires c'.pc == (if c.off + c.pc.len < |c.out| then Check else Test)
    ensures CutWell(cfg, c', ch')
  {
    forall j | 0 <= j < |c'.sent| ensures Whole(cfg, |c'.out|, ch', c'.sent[j]) {
      if j < |c.sent| { assert Whole(cfg, |c.out|, ch, c.sent[j]); }
    }
  }

  lemma CutWellOwn(cfg: Config, s: State, t: nat)
    requires Inv(cfg, s) && Enabled(cfg, s, Step(t)) && CutWell(cfg, s.calls[t], s.ch)
    ensures var s' := StepCall(cfg, s, t);
      OnlyCall(s, s', t) && s.ch.issued <= s'.ch.issued && CutWell(cfg, s'.calls[t], s'.ch)
  {
    hide Inv, StepCall, CutWell, CallInv, PcInv;
    assert t < |s.calls|;
    var c, s' := s.calls[t], StepCall(cfg, s, t);
    CallOf(cfg, s, t);
    PcOf(cfg, t, c, s.ch, s.contents);
    if Looking(c.pc) {
      LookingStep(cfg, s, t);
      CutWellSame(cfg, c, s'.calls[t], s.ch, s'.ch);
    } else if c.pc.Copy? {
      CopyStep(cfg, s, t);
      CutWellSame(cfg, c, s'.calls[t], s.ch, s'.ch);
    } else {
      if c.pc.Give? { GivenIsPlaced(cfg, s, t); }
      SendingStep(cfg, s, t);
      if c.pc.Count? {
        CutWellCount(cfg, t, c, s'.calls[t], s.ch, s'.ch);
      } else {
        CutWellSame(cfg, c, s'.calls[t], s.ch, s'.ch);
      }
    }
  }

  lemma CutWellStep(cfg: Config, s: State, a: Action)
    requires Good(cfg, s) && Enabled(cfg, s, a)
    ensures AllCutWell(cfg, Apply(cfg, s, a))
  {
    var s' := Apply(cfg, s, a);
    if a.Step? {
      hide Inv, StepCall, CutWell;
      CutWellOwn(cfg, s, a.call);
      forall u | 0 <= u < |s'.calls| ensures CutWell(cfg, s'.calls[u], s'.ch) {
        if u != a.call { CutWellGrows(cfg, s.calls[u], s.ch, s'.ch); }
      }
    } else {
      hide Inv;
      HistoryGrows(cfg, s, a);
      forall u | 0 <= u < |s'.calls| ensures CutWell(cfg, s'.calls[u], s'.ch) {
        CutWellOther(cfg, s, a, u);
      }
    }
  }

  lemma CutWellOther(cfg: Config, s: State, a: Action, u: nat)
    requires Enabled(cfg, s, a) && !a.Step? && AllCutWell(cfg, s) && u < |Apply(cfg, s, a).calls|
    requires Inv(cfg, s)
    ensures CutWell(cfg, Apply(cfg, s, a).calls[u], Apply(cfg, s, a).ch)
  {
    hide Inv;
    HistoryGrows(cfg, s, a);
    if u < |s.calls| {
      assert CutWell(cfg, s.calls[u], s.ch);
      hide CutWell;
      if a.StealBuffer? && a.call == u {
        CutWellStolen(cfg, s, a);
      } else {
        CutWellGrows(cfg, s.calls[u], s.ch, Apply(cfg, s, a).ch);
      }
    }
  }

  lemma CutWellStolen(cfg: Config, s: State, a: Action)
    requires Enabled(cfg, s, a) && a.StealBuffer? && CutWell(cfg, s.calls[a.call], s.ch)
    ensures CutWell(cfg, Apply(cfg, s, a).calls[a.call], s.ch)
  {
    var c, c' := s.calls[a.call], Apply(cfg, s, a).calls[a.call];
    forall j | 0 <= j < |c'.sent| ensures Whole(cfg, |c'.out|, s.ch, c'.sent[j]) {
      assert Whole(cfg, |c.out|, s.ch, c.sent[j]);
    }
  }

  lemma GoodStep(cfg: Config, s: State, a: Action)
    requires Good(cfg, s) && Enabled(cfg, s, a)
    ensures Good(cfg, Apply(cfg, s, a))
  {
    hide Inv, AllCutWell, Apply, Enabled;
    ApplyInv(cfg, s, a);
    CutWellStep(cfg, s, a);
  }

  lemma {:induction false} RunGood(cfg: Config, run: seq<State>, acts: seq<Action>, i: nat)
    requires IsRun(cfg, run, acts) && i < |run|
    ensures Good(cfg, run[i])
  {
    if i == 0 {
      assert run[0].calls == [];
      InitInv(cfg, run[0]);
      hide Inv;
    } else {
      RunGood(cfg, run, acts, i - 1);
      assert Enabled(cfg, run[i - 1], acts[i - 1]) && run[i - 1 + 1] == Apply(cfg, run[i - 1], acts[i - 1]);
      hide Good, Apply, Enabled;
      GoodStep(cfg, run[i - 1], acts[i - 1]);
    }
  }

  /** In every run each transfer a call has issued is as long as its output and its buffer allow. */
  lemma ChunksFillBuffers(cfg: Config, run: seq<State>, acts: seq<Action>, i: nat, t: nat, j: nat)
    requires IsRun(cfg, run, acts) && i < |run| && t < |run[i].calls| && j < |run[i].calls[t].sent|
    ensures var c, k := run[i].calls[t], run[i].calls[t].sent[j];
      && k.ticket < |run[i].ch.issued| && k.off <= |c.out|
      && run[i].ch.issued[k.ticket].buf in cfg.sizes
      && k.len == Min(|c.out| - k.off, cfg.sizes[run[i].ch.issued[k.ticket].buf])
  {
    RunGood(cfg, run, acts, i);
    hide IsRun, Inv;
    assert CutWell(cfg, run[i].calls[t], run[i].ch);
    assert Whole(cfg, |run[i].calls[t].out|, run[i].ch, run[i].calls[t].sent[j]);
  }

  // ---- Work ----

  function PcRank(pc: Pc): nat {
    match pc
    case Add(n) => 20 + 2 * n
    case Give(_, _, _) => 21
    case Acquire(_, _) => 19
    case Schedule(_, _) => 18
    case Count(_, _) => 8
    case Returned => 0
    case _ => 20
  }

  /** Bytes to ask for, chunks to copy back, and steps to the next of these. */
  function CallRank(c: Call): int {
    40 * (|c.out| - c.off) + 2 * (|c.sent| - |c.copied|) + PcRank(c.pc)
  }

  function CallsRank(calls: seq<Call>): int {
    if calls == [] then 0 else CallRank(calls[0]) + CallsRank(calls[1..])
  }

  function ChanRank(ch: Chan): int {
    6 * (|ch.issued| - |ch.delivered|) + 5 * (|ch.delivered| - ch.raised) + 4 * ch.pending
  }

  /** What calls of the other channel have still to give back. */
  ghost function ForeignRank(place: map<BufId, Place>, lock: Lock): nat {
    |set b | b in place && place[b] == Foreign| + if lock.Other? then 1 else 0
  }

  ghost function Work(s: State): int {
    CallsRank(s.calls) + ChanRank(s.ch) + ForeignRank(s.place, s.lock)
  }

  lemma {:induction false} RankUpdate(calls: seq<Call>, t: nat, c: Call)
    requires t < |calls|
    ensures CallsRank(calls[t := c]) == CallsRank(calls) - CallRank(calls[t]) + CallRank(c)
  {
    if t > 0 {
      assert calls[t := c][1..] == calls[1..][t - 1 := c];
      RankUpdate(calls[1..], t - 1, c);
    } else {
      assert calls[t := c][1..] == calls[1..];
    }
  }

  lemma {:induction false} RankNonNegative(calls: seq<Call>)
    requires forall t | 0 <= t < |calls| ::
      calls[t].off <= |calls[t].out| && |calls[t].copied| <= |calls[t].sent|
    ensures CallsRank(calls) >= 0
  {
    if calls != [] { RankNonNegative(calls[1..]); }
  }

  lemma WorkNonNegative(cfg: Config, s: State)
    requires Inv(cfg, s)
    ensures Work(s) >= 0
  {
    hide Inv, LockInv, BytesInv, PoolInv, HeldInv;
    PartsOf(cfg, s);
    forall t | 0 <= t < |s.calls|
      ensures s.calls[t].off <= |s.calls[t].out| && |s.calls[t].copied| <= |s.calls[t].sent|
    {
      CallOf(cfg, s, t);
      hide UsedInv, BufInv, NoDup, PcInv;
    }
    RankNonNegative(s.calls);
  }

  /** Steps that use up no work: looking again for an interrupt, a chunk or a buffer that is not there. */
  predicate Spins(s: State, c: Call) {
    match c.pc
    case Check => s.ch.pending == 0
    case Add(n) => n == 0
    case Load => true
    case Copy(snap, _) => |c.copied| >= |c.sent| || c.sent[|c.copied|].ticket >= snap
    case Retain(_) => true
    case Steal => true
    case Test => |c.copied| != |c.sent|
    case _ => false
  }

  ghost predicate Usable(cfg: Config) {
    forall b | b in cfg.sizes :: cfg.sizes[b] > 0
  }

  function OwnRank(s: State, t: nat): int
    requires t < |s.calls|
  {
    CallRank(s.calls[t]) + ChanRank(s.ch)
  }

  ghost predicate Uses(s: State, s': State, t: nat) {
    && OnlyCall(s, s', t)
    && if Spins(s, s.calls[t]) then OwnRank(s', t) == OwnRank(s, t) else OwnRank(s', t) < OwnRank(s, t)
  }

  lemma LookingUses(cfg: Config, s: State, t: nat)
    requires Enabled(cfg, s, Step(t)) && Looking(s.calls[t].pc)
    requires s.calls[t].pc.Test? ==> |s.calls[t].used| == |s.calls[t].sent| - |s.calls[t].copied|
    ensures Uses(s, StepCall(cfg, s, t), t)
  {
    assert t < |s.calls|;
    LookingStep(cfg, s, t);
    hide StepCall, Enabled;
  }

  lemma CopyUses(cfg: Config, s: State, t: nat)
    requires Enabled(cfg, s, Step(t)) && s.calls[t].pc.Copy?
    requires CallInv(cfg, t, s.calls[t], s.ch, s.contents)
    ensures Uses(s, StepCall(cfg, s, t), t)
  {
    assert t < |s.calls|;
    hide StepCall, Enabled, CallInv;
    CopyStep(cfg, s, t);
  }

  lemma SendingUses(cfg: Config, s: State, t: nat)
    requires Enabled(cfg, s, Step(t)) && !Looking(s.calls[t].pc) && !s.calls[t].pc.Copy?
    requires s.calls[t].pc.Give? ==> s.calls[t].pc.buf in s.place
    requires Usable(cfg) && CutWell(cfg, s.calls[t], s.ch)
    ensures Uses(s, StepCall(cfg, s, t), t)
  {
    assert t < |s.calls| && s.calls[t].pc != Returned;
    hide StepCall, Enabled;
    SendingStep(cfg, s, t);
  }

  lemma CallerUses(cfg: Config, s: State, t: nat)
    requires Good(cfg, s) && Usable(cfg) && Enabled(cfg, s, Step(t))
    ensures Uses(s, StepCall(cfg, s, t), t)
  {
    assert t < |s.calls| && CutWell(cfg, s.calls[t], s.ch);
    var c := s.calls[t];
    hide Inv, StepCall, AllCutWell, CutWell, CallInv, Enabled, Uses, Usable;
    CallOf(cfg, s, t);
    if Looking(c.pc) {
      if c.pc.Test? { ListIsUncopied(cfg, t, c, s.ch, s.contents); }
      LookingUses(cfg, s, t);
    } else if c.pc.Copy? {
      CopyUses(cfg, s, t);
    } else {
      if c.pc.Give? { GivenIsPlaced(cfg, s, t); }
      SendingUses(cfg, s, t);
    }
  }

  lemma ForeignSame(place: map<BufId, Place>, lock: Lock, b: BufId, to: Place, lock': Lock)
    requires b in place && place[b] != Foreign && to != Foreign && lock'.Other? == lock.Other?
    ensures ForeignRank(place[b := to], lock') == ForeignRank(place, lock)
  {
    var place' := place[b := to];
    assert (set x | x in place' && place'[x] == Foreign) == (set x | x in place && place[x] == Foreign);
  }

  lemma LockShape(cfg: Config, s: State, t: nat)
    requires Enabled(cfg, s, Step(t)) && (s.calls[t].pc.Count? ==> s.lock.Owner?)
    ensures StepCall(cfg, s, t).lock.Other? == s.lock.Other?
    ensures StepCall(cfg, s, t).place == if s.calls[t].pc.Give? then s.place[s.calls[t].pc.buf := InPool] else s.place
  {
  }

  /** A call's step hands nothing to calls of the other channel. */
  lemma ForeignStays(cfg: Config, s: State, t: nat)
    requires Inv(cfg, s) && Enabled(cfg, s, Step(t))
    ensures ForeignRank(StepCall(cfg, s, t).place, StepCall(cfg, s, t).lock) == ForeignRank(s.place, s.lock)
  {
    assert t < |s.calls|;
    var s' := StepCall(cfg, s, t);
    hide Inv, StepCall, Enabled;
    if s.calls[t].pc.Count? { LockOf(cfg, s, t); }
    LockShape(cfg, s, t);
    if s.calls[t].pc.Give? {
      GivenIsHeld(cfg, s, t);
      hide ForeignRank;
      ForeignSame(s.place, s.lock, s.calls[t].pc.buf, InPool, s'.lock);
    }
  }

  lemma LockOf(cfg: Config, s: State, t: nat)
    requires Inv(cfg, s) && t < |s.calls| && s.calls[t].pc.Count?
    ensures s.lock == Owner(t)
  {
    hide Inv, Balanced, BytesInv, PoolInv, HeldInv;
    PartsOf(cfg, s);
  }

  lemma GivenIsHeld(cfg: Config, s: State, t: nat)
    requires Inv(cfg, s) && t < |s.calls| && s.calls[t].pc.Give?
    ensures s.calls[t].pc.buf in s.place && s.place[s.calls[t].pc.buf] == HeldBy(t)
  {
    hide Inv, LockInv, Balanced, BytesInv, PoolInv;
    PartsOf(cfg, s);
    assert Holds(s.calls[t], s.calls[t].pc.buf);
    hide Holds, HeldInv;
    HeldPlace(s.place, s.calls, t, s.calls[t].pc.buf);
  }

  /** Actions that bring new work: a new call, or a call of the other channel taking a buffer or the lock. */
  predicate Arrives(a: Action) {
    a.Begin? || a.ForeignSteal? || a.ForeignLock?
  }

  /** Actions that leave the work as it is. */
  predicate Idles(s: State, a: Action) {
    match a
    case Step(t) => t < |s.calls| && Spins(s, s.calls[t])
    case DeviceChanges(_) => true
    case ForeignScribble(_, _) => true
    case _ => false
  }

  lemma StepUsesWork(cfg: Config, s: State, a: Action)
    requires Good(cfg, s) && Usable(cfg) && Enabled(cfg, s, a) && !Arrives(a)
    ensures if Idles(s, a) then Work(Apply(cfg, s, a)) == Work(s) else Work(Apply(cfg, s, a)) < Work(s)
  {
    match a {
      case Step(t) =>
        hide Good, StepCall, CallRank, ChanRank, ForeignRank, Usable;
        CallerUses(cfg, s, t);
        GoodIsInv(cfg, s);
        hide Inv;
        ForeignStays(cfg, s, t);
        RankUpdate(s.calls, t, StepCall(cfg, s, t).calls[t]);
      case StealBuffer(t, b) => StealUses(cfg, s, t, b);
      case ForeignReturn(b) => hide Good; ReturnUses(s.place, s.lock, b);
      case _ => hide Good;
    }
  }

  lemma GoodIsInv(cfg: Config, s: State)
    requires Good(cfg, s)
    ensures Inv(cfg, s)
  {
  }

  lemma StealUses(cfg: Config, s: State, t: nat, b: BufId)
    requires Inv(cfg, s) && Enabled(cfg, s, StealBuffer(t, b))
    ensures Work(Apply(cfg, s, StealBuffer(t, b))) < Work(s)
  {
    hide Inv, PoolInv, ForeignRank, LockInv, Balanced, BytesInv, HeldInv;
    PartsOf(cfg, s);
    PooledPlace(s.place, s.pool, b);
    ForeignSame(s.place, s.lock, b, HeldBy(t), s.lock);
    RankUpdate(s.calls, t, Apply(cfg, s, StealBuffer(t, b)).calls[t]);
  }

  lemma ReturnUses(place: map<BufId, Place>, lock: Lock, b: BufId)
    requires b in place && place[b] == Foreign
    ensures ForeignRank(place[b := InPool], lock) < ForeignRank(place, lock)
  {
    var place' := place[b := InPool];
    assert (set x | x in place' && place'[x] == Foreign) == (set x | x in place && place[x] == Foreign) - {b};
  }

  /** Once nobody new arrives, the work left in a run never grows, whoever moves. */
  lemma {:induction false} WorkNeverGrows(cfg: Config, run: seq<State>, acts: seq<Action>, i: nat, j: nat)
    requires IsRun(cfg, run, acts) && Usable(cfg) && i <= j < |run| && forall k | i <= k < j :: !Arrives(acts[k])
    ensures 0 <= Work(run[j]) <= Work(run[i])
    decreases j
  {
    RunInv(cfg, run, acts, j);
    WorkNonNegative(cfg, run[j]);
    if i < j {
      WorkNeverGrows(cfg, run, acts, i, j - 1);
      RunGood(cfg, run, acts, j - 1);
      assert Enabled(cfg, run[j - 1], acts[j - 1]) && run[j - 1 + 1] == Apply(cfg, run[j - 1], acts[j - 1]);
      hide Good, Apply, Work, Inv, Enabled;
      StepUsesWork(cfg, run[j - 1], acts[j - 1]);
    }
  }

  // ---- Schedules ----

  /** The actions can be taken one after another, and none of them brings new work. */
  ghost predicate CanRun(cfg: Config, s: State, acts: seq<Action>)
    decreases |acts|
  {
    acts == [] || (Enabled(cfg, s, acts[0]) && !Arrives(acts[0]) && CanRun(cfg, Apply(cfg, s, acts[0]), acts[1..]))
  }

  ghost function After(cfg: Config, s: State, acts: seq<Action>): State
    requires CanRun(cfg, s, acts)
    decreases |acts|
  {
    if acts == [] then s else After(cfg, Apply(cfg, s, acts[0]), acts[1..])
  }

  lemma Then(cfg: Config, s: State, a: Action, acts: seq<Action>)
    requires Enabled(cfg, s, a) && !Arrives(a) && CanRun(cfg, Apply(cfg, s, a), acts)
    ensures CanRun(cfg, s, [a] + acts) && After(cfg, s, [a] + acts) == After(cfg, Apply(cfg, s, a), acts)
  {
    hide Apply, Enabled;
    assert ([a] + acts)[1..] == acts;
  }

  lemma {:induction false} Joined(cfg: Config, s: State, acts: seq<Action>, more: seq<Action>)
    requires CanRun(cfg, s, acts) && CanRun(cfg, After(cfg, s, acts), more)
    ensures CanRun(cfg, s, acts + more) && After(cfg, s, acts + more) == After(cfg, After(cfg, s, acts), more)
    decreases |acts|
  {
    hide Apply, Enabled;
    if acts == [] {
      assert acts + more == more;
    } else {
      Joined(cfg, Apply(cfg, s, acts[0]), acts[1..], more);
      assert (acts + more)[1..] == acts[1..] + more;
    }
  }

  lemma {:induction false} AfterGood(cfg: Config, s: State, acts: seq<Action>)
    requires CanRun(cfg, s, acts) && Good(cfg, s)
    ensures Good(cfg, After(cfg, s, acts))
    decreases |acts|
  {
    hide Apply, Enabled, Good;
    if acts != [] {
      GoodStep(cfg, s, acts[0]);
      AfterGood(cfg, Apply(cfg, s, acts[0]), acts[1..]);
    }
  }

  /** The actions lead to a state with less work. */
  ghost predicate Advances(cfg: Config, s: State, acts: seq<Action>) {
    CanRun(cfg, s, acts) && Work(After(cfg, s, acts)) < Work(s)
  }

  lemma OneAction(cfg: Config, s: State, a: Action)
    requires Good(cfg, s) && Usable(cfg) && Enabled(cfg, s, a) && !Arrives(a) && !Idles(s, a)
    ensures Advances(cfg, s, [a])
  {
    StepUsesWork(cfg, s, a);
    hide Good, Apply, Enabled, Work;
    Then(cfg, s, a, []);
    assert [a] + [] == [a];
  }

  lemma SpinThen(cfg: Config, s: State, t: nat, acts: seq<Action>)
    requires Good(cfg, s) && Usable(cfg) && Enabled(cfg, s, Step(t)) && Spins(s, s.calls[t])
    requires Advances(cfg, Apply(cfg, s, Step(t)), acts)
    ensures Advances(cfg, s, [Step(t)] + acts)
  {
    StepUsesWork(cfg, s, Step(t));
    hide Good, Apply, Enabled, Work;
    Then(cfg, s, Step(t), acts);
  }

  // ---- One lap of the loop ----

  predicate BufferThere(s: State, c: Call) {
    c.off < |c.out| && s.pool != {}
  }

  predicate ChunkBelow(c: Call, n: nat) {
    |c.copied| < |c.sent| && c.sent[|c.copied|].ticket < n
  }

  predicate AllThere(c: Call) {
    c.off == |c.out| && |c.copied| == |c.sent|
  }

  /** What the call waits for is there: an interrupt, a buffer, a chunk that can be copied, or nothing is left. */
  predicate Hopeful(s: State, c: Call) {
    s.ch.pending > 0 || BufferThere(s, c) || ChunkBelow(c, s.ch.intCntr) || AllThere(c)
  }

  /** It will find it before it is back at the head of the loop. */
  predicate Sure(s: State, c: Call) {
    match c.pc
    case Check => Hopeful(s, c)
    case Add(_) => BufferThere(s, c) || ChunkBelow(c, s.ch.intCntr) || AllThere(c)
    case Test => ChunkBelow(c, s.ch.intCntr) || AllThere(c)
    case Load => BufferThere(s, c) || ChunkBelow(c, s.ch.intCntr)
    case Copy(snap, _) => BufferThere(s, c) || ChunkBelow(c, snap)
    case Retain(_) => BufferThere(s, c)
    case Steal => BufferThere(s, c)
    case _ => false
  }

  function Stage(pc: Pc): nat {
    match pc
    case Check => 7
    case Add(_) => 6
    case Test => 5
    case Load => 4
    case Copy(_, _) => 3
    case Retain(_) => 2
    case Steal => 1
    case _ => 0
  }

  /** A step that looks in vain brings the call to the next stage with the same prospects. */
  lemma NextStage(cfg: Config, s: State, t: nat)
    requires Good(cfg, s) && t < |s.calls| && Spins(s, s.calls[t])
    ensures Enabled(cfg, s, Step(t)) && |Apply(cfg, s, Step(t)).calls| == |s.calls|
    ensures var s' := Apply(cfg, s, Step(t));
      var c, c' := s.calls[t], s'.calls[t];
      && s'.ch.pending == s.ch.pending && s'.ch.intCntr == s.ch.intCntr && s'.pool == s.pool
      && c'.off == c.off && |c'.out| == |c.out| && c'.sent == c.sent && c'.copied == c.copied
      && match c.pc
         case Check => c'.pc == Add(0)
         case Add(_) => c'.pc == if c.off < |c.out| then Load else Test
         case Test => c'.pc == Load
         case Load => c'.pc == Copy(s.ch.intCntr, 0)
         case Copy(snap, _) => c'.pc == Retain(snap)
         case Retain(_) => c'.pc == if c.off < |c.out| then Steal else Check
         case Steal => c'.pc == Check
         case _ => true
  {
    GoodIsInv(cfg, s);
    hide Good, Inv, CallInv, StepCall, Enabled;
    StepGuard(cfg, s, t);
    CallOf(cfg, s, t);
    if s.calls[t].pc.Copy? {
      CopyStep(cfg, s, t);
    } else {
      if s.calls[t].pc.Test? { ListIsUncopied(cfg, t, s.calls[t], s.ch, s.contents); }
      LookingStep(cfg, s, t);
    }
  }

  lemma StealAdvances(cfg: Config, s: State, t: nat) returns (acts: seq<Action>)
    requires Good(cfg, s) && Usable(cfg) && t < |s.calls| && s.calls[t].pc.Steal? && s.pool != {}
    ensures Advances(cfg, s, acts)
  {
    GoodIsInv(cfg, s);
    hide Good, Inv, Usable, Advances, Enabled;
    var b := AnyBuffer(s.pool);
    StealGuard(cfg, s, t, b);
    acts := [StealBuffer(t, b)];
    OneAction(cfg, s, acts[0]);
  }

  lemma AnyBuffer(bufs: set<BufId>) returns (b: BufId)
    requires bufs != {}
    ensures b in bufs
  {
    assert (forall x :: x !in bufs) ==> bufs == {};
    b :| b in bufs;
  }

  /** A step of a call that does not spin. */
  lemma WorkStep(cfg: Config, s: State, t: nat)
    requires Good(cfg, s) && Usable(cfg) && t < |s.calls| && !Spins(s, s.calls[t])
    requires s.calls[t].pc != Returned && (s.calls[t].pc.Acquire? ==> s.lock == Free)
    ensures Advances(cfg, s, [Step(t)])
  {
    GoodIsInv(cfg, s);
    hide Good, Inv, Usable, Advances, Enabled;
    StepGuard(cfg, s, t);
    OneAction(cfg, s, Step(t));
  }

  lemma {:induction false} SureAdvances(cfg: Config, s: State, t: nat) returns (acts: seq<Action>)
    requires Good(cfg, s) && Usable(cfg) && t < |s.calls| && Sure(s, s.calls[t])
    ensures Advances(cfg, s, acts)
    decreases Stage(s.calls[t].pc)
  {
    hide Good, Usable, Advances, Apply, Enabled;
    if s.calls[t].pc.Steal? {
      acts := StealAdvances(cfg, s, t);
    } else if Spins(s, s.calls[t]) {
      NextStage(cfg, s, t);
      GoodStep(cfg, s, Step(t));
      acts := SureAdvances(cfg, Apply(cfg, s, Step(t)), t);
      SpinThen(cfg, s, t, acts);
      acts := [Step(t)] + acts;
    } else {
      acts := [Step(t)];
      WorkStep(cfg, s, t);
    }
  }

  lemma {:induction false} SpinnerAdvances(cfg: Config, s: State, t: nat) returns (acts: seq<Action>)
    requires Good(cfg, s) && Usable(cfg) && t < |s.calls| && Hopeful(s, s.calls[t]) && Spins(s, s.calls[t])
    ensures Advances(cfg, s, acts)
    decreases Stage(s.calls[t].pc)
  {
    hide Good, Usable, Advances, Apply, Enabled;
    if Sure(s, s.calls[t]) {
      acts := SureAdvances(cfg, s, t);
    } else {
      NextStage(cfg, s, t);
      GoodStep(cfg, s, Step(t));
      var s' := Apply(cfg, s, Step(t));
      if s'.calls[t].pc.Check? {
        acts := SureAdvances(cfg, s', t);
      } else if Spins(s', s'.calls[t]) {
        acts := SpinnerAdvances(cfg, s', t);
      } else {
        acts := [Step(t)];
        WorkStep(cfg, s', t);
      }
      SpinThen(cfg, s, t, acts);
      acts := [Step(t)] + acts;
    }
  }

  // ---- No state is stuck ----

  ghost predicate Finished(s: State) {
    forall t | 0 <= t < |s.calls| :: s.calls[t].pc == Returned
  }

  predicate Settled(ch: Chan) {
    |ch.delivered| == |ch.issued| && ch.raised == |ch.delivered|
  }

  /** The engine is done, nothing is with calls of the other channel, and all calls look in vain. */
  ghost predicate AllSpin(s: State) {
    && Settled(s.ch) && !s.lock.Other? && (forall b | b in s.place :: s.place[b] != Foreign)
    && forall t | 0 <= t < |s.calls| :: s.calls[t].pc == Returned || Spins(s, s.calls[t]) || s.calls[t].pc.Acquire?
  }

  lemma EngineAdvances(cfg: Config, s: State) returns (acts: seq<Action>)
    requires Good(cfg, s) && Usable(cfg) && !Settled(s.ch)
    ensures Advances(cfg, s, acts)
  {
    hide Good, Inv, Usable, Advances, LockInv, BytesInv, PoolInv, HeldInv, SumAdding, Unticketed;
    GoodIsInv(cfg, s);
    PartsOf(cfg, s);
    if |s.ch.delivered| < |s.ch.issued| {
      var x := s.ch.issued[|s.ch.delivered|];
      var bytes := seq(x.len, p requires 0 <= p < x.len => s.dev(x.addr + p));
      EngineGuard(cfg, s, bytes);
      acts := [Complete(bytes)];
    } else {
      acts := [Raise];
    }
    OneAction(cfg, s, acts[0]);
  }

  lemma {:induction false} NothingAdding(calls: seq<Call>)
    requires forall t | 0 <= t < |calls| :: calls[t].pc.Add? ==> calls[t].pc.n == 0
    ensures SumAdding(calls) == 0
  {
    if calls != [] { NothingAdding(calls[1..]); }
  }

  /** With all calls looking in vain, nobody has the lock and all tickets are counted but the pending ones. */
  lemma SpinCounts(cfg: Config, s: State)
    requires Inv(cfg, s) && AllSpin(s)
    ensures s.lock == Free && s.ch.cntr == s.ch.pending + s.ch.intCntr
  {
    hide Inv, BytesInv, PoolInv, HeldInv;
    PartsOf(cfg, s);
    NothingAdding(s.calls);
    hide SumAdding;
  }

  /** With no interrupt left to read, a call that still has chunks to copy can copy the next one. */
  lemma UncopiedIsCounted(cfg: Config, s: State, t: nat)
    requires Inv(cfg, s) && AllSpin(s) && t < |s.calls| && s.ch.pending == 0
    requires |s.calls[t].copied| < |s.calls[t].sent|
    ensures Hopeful(s, s.calls[t])
  {
    SpinCounts(cfg, s);
    hide Inv;
    CallOf(cfg, s, t);
    hide UsedInv, OutInv, BufInv, NoDup, PcInv, AllSpin;
  }

  /** A call with a buffer in its private list still has chunks to copy. */
  lemma ListedIsUncopied(cfg: Config, s: State, t: nat, b: BufId)
    requires Inv(cfg, s) && t < |s.calls| && Listed(s.calls[t].used, b)
    ensures |s.calls[t].copied| < |s.calls[t].sent| && s.calls[t].pc != Returned
  {
    hide Inv;
    CallOf(cfg, s, t);
    hide SentInv, OutInv, BufInv, NoDup;
    var j :| 0 <= j < |s.calls[t].used| && s.calls[t].used[j].slot == Full(b);
  }

  lemma SomeoneHolds(cfg: Config, s: State) returns (u: nat)
    requires Inv(cfg, s) && AllSpin(s) && s.lock == Free && s.pool == {} && cfg.sizes != map[]
    ensures u < |s.calls| && s.calls[u].pc != Returned
    ensures s.calls[u].pc.Acquire? || |s.calls[u].copied| < |s.calls[u].sent|
  {
    var b := AnyBuffer(cfg.sizes.Keys);
    hide Inv, LockInv, Balanced;
    PartsOf(cfg, s);
    assert b in s.place && s.place[b].HeldBy?;
    u := s.place[b].call;
    assert Holds(s.calls[u], b);
    if Listed(s.calls[u].used, b) { ListedIsUncopied(cfg, s, u, b); }
  }

  /** Some call has what it waits for, or can take the lock. */
  lemma HopeSomewhere(cfg: Config, s: State, t: nat) returns (u: nat)
    requires Inv(cfg, s) && AllSpin(s) && cfg.sizes != map[] && t < |s.calls| && s.calls[t].pc != Returned
    ensures u < |s.calls| && s.calls[u].pc != Returned && s.lock == Free
    ensures s.calls[u].pc.Acquire? || Hopeful(s, s.calls[u])
  {
    SpinCounts(cfg, s);
    assert s.calls[t].off <= |s.calls[t].out| && |s.calls[t].copied| <= |s.calls[t].sent| by {
      CallOf(cfg, s, t);
      hide UsedInv, BufInv, NoDup, PcInv;
    }
    hide Inv, AllSpin;
    u := t;
    if !Hopeful(s, s.calls[t]) {
      if |s.calls[t].copied| < |s.calls[t].sent| {
        UncopiedIsCounted(cfg, s, t);
      } else {
        u := SomeoneHolds(cfg, s);
        if !s.calls[u].pc.Acquire? { UncopiedIsCounted(cfg, s, u); }
      }
    }
  }

  lemma Advance(cfg: Config, s: State, t: nat) returns (acts: seq<Action>)
    requires Good(cfg, s) && Usable(cfg) && cfg.sizes != map[] && t < |s.calls| && s.calls[t].pc != Returned
    ensures Advances(cfg, s, acts)
  {
    hide Good, Usable, Advances, Settled, Spins;
    if !Settled(s.ch) {
      acts := EngineAdvances(cfg, s);
    } else if s.lock.Other? {
      acts := [ForeignUnlock];
      OneAction(cfg, s, ForeignUnlock);
    } else if b: BufId :| b in s.place && s.place[b] == Foreign {
      acts := [ForeignReturn(b)];
      OneAction(cfg, s, ForeignReturn(b));
    } else if r: nat :| r < |s.calls| && s.calls[r].pc != Returned && !Spins(s, s.calls[r]) && !s.calls[r].pc.Acquire? {
      acts := [Step(r)];
      WorkStep(cfg, s, r);
    } else {
      GoodIsInv(cfg, s);
      var u := HopeSomewhere(cfg, s, t);
      if s.calls[u].pc.Acquire? {
        AcquireWorks(s, s.calls[u]);
        acts := [Step(u)];
        WorkStep(cfg, s, u);
      } else {
        acts := SpinnerAdvances(cfg, s, u);
      }
    }
  }

  lemma AcquireWorks(s: State, c: Call)
    requires c.pc.Acquire?
    ensures !Spins(s, c)
  {
  }

  lemma {:induction false} FinishFrom(cfg: Config, s: State) returns (acts: seq<Action>)
    requires Good(cfg, s) && Usable(cfg) && cfg.sizes != map[]
    ensures CanRun(cfg, s, acts) && Finished(After(cfg, s, acts))
    decreases Work(s)
  {
    hide Good, Usable, Work;
    if t: nat :| t < |s.calls| && s.calls[t].pc != Returned {
      var first := Advance(cfg, s, t);
      var s' := After(cfg, s, first);
      AfterGood(cfg, s, first);
      GoodIsInv(cfg, s');
      WorkNonNegative(cfg, s');
      GoodIsInv(cfg, s);
      WorkNonNegative(cfg, s);
      var rest := FinishFrom(cfg, s');
      Joined(cfg, s, first, rest);
      acts := first + rest;
    } else {
      acts := [];
    }
  }

  /** From every state of every run, with at least one buffer and none of size zero, there is a way for every
   *  call to return without anyone new arriving, once calls of the other channel give back what they hold. */
  lemma EveryCallCanReturn(cfg: Config, run: seq<State>, acts: seq<Action>, i: nat) returns (rest: seq<Action>)
    requires IsRun(cfg, run, acts) && i < |run| && cfg.sizes != map[] && forall b | b in cfg.sizes :: cfg.sizes[b] > 0
    ensures CanRun(cfg, run[i], rest) && Finished(After(cfg, run[i], rest))
  {
    RunGood(cfg, run, acts, i);
    hide IsRun, Good;
    rest := FinishFrom(cfg, run[i]);
  }
}
