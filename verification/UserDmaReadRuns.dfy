/** What holds in every state of every run of concurrent `do_copy_from` calls. */
module UserDmaReadRuns {

  import opened Common
  import opened Dma
  import opened UserDmaRead

  ghost predicate IsRun(cfg: Config, run: seq<State>, acts: seq<Action>) {
    && |run| == |acts| + 1
    && Init(cfg, run[0])
    && forall i | 0 <= i < |acts| :: Enabled(cfg, run[i], acts[i]) && run[i + 1] == Apply(cfg, run[i], acts[i])
  }

  lemma {:induction false} RunInv(cfg: Config, run: seq<State>, acts: seq<Action>, i: nat)
    requires IsRun(cfg, run, acts) && i < |run|
    ensures Inv(cfg, run[i])
  {
    if i == 0 {
      InitInv(cfg, run[0]);
    } else {
      RunInv(cfg, run, acts, i - 1);
      assert run[i - 1 + 1] == Apply(cfg, run[i - 1], acts[i - 1]);
      hide Inv, Apply;
      ApplyInv(cfg, run[i - 1], acts[i - 1]);
    }
  }

  /** In every state of every run, what a call has copied back are its first chunks, each once and in
   *  ticket order, each only after the engine had finished it, with the bytes the engine delivered. */
  lemma CopiedOnceAndInOrder(cfg: Config, run: seq<State>, acts: seq<Action>, i: nat, t: nat, j: nat)
    requires IsRun(cfg, run, acts) && i < |run| && t < |run[i].calls| && j < |run[i].calls[t].copied|
    ensures var c := run[i].calls[t];
      && |c.copied| <= |c.sent|
      && c.copied[j] == c.sent[j].ticket < |run[i].ch.delivered|
      && (j > 0 ==> c.copied[j - 1] < c.copied[j])
      && c.sent[j].off + c.sent[j].len <= |c.out|
      && c.out[c.sent[j].off..c.sent[j].off + c.sent[j].len] == run[i].ch.delivered[c.copied[j]]
  {
    RunInv(cfg, run, acts, i);
    hide IsRun, UsedInv, BufInv, NoDup, PcInv, LockInv, HeldInv, EngineInv;
    CallOf(cfg, run[i], t);
  }

  /** `release_buffer` may stop at the first ticket not reached: the entries `retain` then drops are exactly
   *  those already copied back, so no buffer and no chunk is lost. */
  lemma EarlyBreakIsSound(cfg: Config, run: seq<State>, acts: seq<Action>, i: nat, t: nat, j: nat)
    requires IsRun(cfg, run, acts) && i < |run| && t < |run[i].calls| && run[i].calls[t].pc.Retain?
    requires j < |run[i].calls[t].used|
    ensures run[i].calls[t].used[j].slot.Taken? <==> run[i].calls[t].used[j].ticket < run[i].calls[t].pc.snap
    ensures run[i].calls[t].used[j].slot.Full? ==>
        run[i].calls[t].used[j] in Keep(run[i].calls[t].used, run[i].calls[t].pc.snap)
  {
    hide *;
    RunInv(cfg, run, acts, i);
    CallOf(cfg, run[i], t);
    BreakCall(cfg, t, run[i].calls[t], run[i].ch, run[i].contents, j);
  }

  lemma BreakCall(cfg: Config, t: nat, c: Call, ch: Chan, contents: map<BufId, seq<Byte>>, j: nat)
    requires CallInv(cfg, t, c, ch, contents) && c.pc.Retain? && j < |c.used|
    ensures c.used[j].slot.Taken? <==> c.used[j].ticket < c.pc.snap
    ensures c.used[j].slot.Full? ==> c.used[j] in Keep(c.used, c.pc.snap)
  {
    hide BufInv, NoDup, OutInv, Keep;
    RetainDropsTaken(cfg, t, c, ch);
    var d, base := TakenCount(c), |c.sent| - |c.used|;
    if j >= d {
      assert c.used[d..][j - d] == c.used[j];
      assert c.sent[base + d].ticket == c.used[d].ticket && c.sent[base + j].ticket == c.used[j].ticket;
    }
  }

  lemma {:induction false} ChunkOf(cfg: Config, t: nat, c: Call, ch: Chan, p: nat, n: nat) returns (i: nat)
    requires SentInv(cfg, t, c, ch) && 0 < n <= |c.sent|
    requires p < c.sent[n - 1].off + c.sent[n - 1].len
    ensures i < n && c.sent[i].off <= p < c.sent[i].off + c.sent[i].len
  {
    if p >= c.sent[n - 1].off {
      i := n - 1;
    } else {
      assert n > 1;
      assert c.sent[n - 2].off + c.sent[n - 2].len == c.sent[n - 2 + 1].off;
      i := ChunkOf(cfg, t, c, ch, p, n - 1);
    }
  }

  /** Position `p` of the output came from offset `p - off` of the transfer `ticket`, which read from where the
   *  chunk lies on the device; all transfers of a stream have one address. */
  ghost predicate CameFrom(cfg: Config, s: State, t: nat, p: nat, ticket: nat, off: nat)
    requires t < |s.calls| && p < |s.calls[t].out|
  {
    && ticket < |s.ch.delivered| <= |s.ch.issued|
    && off <= p < off + |s.ch.delivered[ticket]|
    && s.ch.issued[ticket].call == t
    && s.ch.issued[ticket].addr == cfg.devOffset + s.calls[t].ptr + (if cfg.stream then 0 else off)
    && s.calls[t].out[p] == s.ch.delivered[ticket][p - off]
  }

  /** When `do_copy_from` has returned, every byte of its output was delivered by the engine for this call. */
  lemma CopyFromDelivers(cfg: Config, run: seq<State>, acts: seq<Action>, i: nat, t: nat, p: nat)
      returns (ticket: nat, off: nat)
    requires IsRun(cfg, run, acts) && i < |run| && t < |run[i].calls| && run[i].calls[t].pc.Returned?
    requires p < |run[i].calls[t].out|
    ensures CameFrom(cfg, run[i], t, p, ticket, off)
  {
    hide *;
    RunInv(cfg, run, acts, i);
    ticket, off := SourceOf(cfg, run[i], t, p);
  }

  lemma SourceOf(cfg: Config, s: State, t: nat, p: nat) returns (ticket: nat, off: nat)
    requires Inv(cfg, s) && t < |s.calls| && s.calls[t].pc.Returned? && p < |s.calls[t].out|
    ensures CameFrom(cfg, s, t, p, ticket, off)
  {
    hide Inv, BufInv, NoDup;
    CallOf(cfg, s, t);
    CounterBound(cfg, s);
    var c, ch := s.calls[t], s.ch;
    var k := ChunkOf(cfg, t, c, ch, p, |c.sent|);
    ticket, off := c.sent[k].ticket, c.sent[k].off;
    assert ChunkOk(cfg, t, c, ch, k);
    hide SentInv, UsedInv;
    assert c.out[off..off + c.sent[k].len] == ch.delivered[ticket];
    assert c.out[p] == c.out[off..off + c.sent[k].len][p - off];
  }

  // ---- What the device held ----

  /** Step `j` is the one in which the engine delivered transfer `k`, reading device memory as it was then. */
  ghost predicate DeliveredAt(cfg: Config, run: seq<State>, acts: seq<Action>, j: nat, k: nat, x: Transfer,
      bytes: seq<Byte>) {
    && j < |acts| && j < |run| && acts[j] == Complete(bytes)
    && |run[j].ch.delivered| == k < |run[j].ch.issued| && run[j].ch.issued[k] == x
    && (!cfg.stream ==> Reads(run[j].dev, x.addr, bytes))
  }

  /** Every delivered transfer was delivered in one step of the run, with the bytes device memory held in that step. */
  lemma {:induction false} ReadAtCompletion(cfg: Config, run: seq<State>, acts: seq<Action>, i: nat, k: nat)
      returns (j: nat)
    requires IsRun(cfg, run, acts) && i < |run| && k < |run[i].ch.delivered| <= |run[i].ch.issued|
    ensures j < i && DeliveredAt(cfg, run, acts, j, k, run[i].ch.issued[k], run[i].ch.delivered[k])
  {
    hide Inv, Apply, Enabled;
    assert i > 0;
    var s, act := run[i - 1], acts[i - 1];
    assert Enabled(cfg, s, act) && run[i - 1 + 1] == Apply(cfg, s, act);
    HistoryGrows(cfg, s, act);
    RunInv(cfg, run, acts, i - 1);
    HistoryBound(cfg, s);
    if k < |s.ch.delivered| {
      j := ReadAtCompletion(cfg, run, acts, i - 1, k);
    } else {
      j := i - 1;
      ReadsNow(cfg, s, act);
    }
  }

  lemma HistoryBound(cfg: Config, s: State)
    requires Inv(cfg, s)
    ensures |s.ch.delivered| <= |s.ch.issued|
  {
  }

  lemma ReadsNow(cfg: Config, s: State, a: Action)
    requires Enabled(cfg, s, a) && a.Complete?
    ensures |s.ch.delivered| < |s.ch.issued|
    ensures !cfg.stream ==> Reads(s.dev, s.ch.issued[|s.ch.delivered|].addr, a.bytes)
  {
  }

  lemma HistoryGrows(cfg: Config, s: State, a: Action)
    requires Enabled(cfg, s, a)
    ensures var ch, ch' := s.ch, Apply(cfg, s, a).ch;
      && ch.issued <= ch'.issued
      && ch'.delivered == (if a.Complete? then ch.delivered + [a.bytes] else ch.delivered)
      && (a.Complete? ==> ch'.issued == ch.issued)
    ensures |s.calls| <= |Apply(cfg, s, a).calls|
    ensures a.Begin? ==> |Apply(cfg, s, a).calls| == |s.calls| + 1
  {
  }

  lemma {:induction false} CallsStay(cfg: Config, run: seq<State>, acts: seq<Action>, i: nat, j: nat)
    requires IsRun(cfg, run, acts) && i <= j < |run|
    ensures |run[i].calls| <= |run[j].calls|
    decreases j
  {
    if i < j {
      CallsStay(cfg, run, acts, i, j - 1);
      assert run[j - 1 + 1] == Apply(cfg, run[j - 1], acts[j - 1]);
      HistoryGrows(cfg, run[j - 1], acts[j - 1]);
    }
  }

  /** A transfer of call `t` is delivered after the call began. */
  lemma DeliveredAfterBegin(cfg: Config, run: seq<State>, acts: seq<Action>, b: nat, j: nat, k: nat, x: Transfer,
      bytes: seq<Byte>)
    requires IsRun(cfg, run, acts) && DeliveredAt(cfg, run, acts, j, k, x, bytes) && b < |run|
        && |run[b].calls| <= x.call
    ensures b < j
  {
    RunInv(cfg, run, acts, j);
    assert OwnedTransfer(cfg, run[j].ch, run[j].calls, k);
    if j <= b { CallsStay(cfg, run, acts, j, b); }
  }

  /** Every byte of the output of a call that has returned was in device memory at its address at some moment
   *  between the beginning of the call, step `b`, and now. */
  lemma OutputWasOnDevice(cfg: Config, run: seq<State>, acts: seq<Action>, b: nat, i: nat, t: nat, p: nat)
      returns (j: nat)
    requires IsRun(cfg, run, acts) && b < i < |run| && t < |run[i].calls| && run[i].calls[t].pc.Returned? && !cfg.stream
    requires |run[b].calls| == t && p < |run[i].calls[t].out|
    ensures b < j < i && run[i].calls[t].out[p] == run[j].dev(cfg.devOffset + run[i].calls[t].ptr + p)
  {
    hide IsRun;
    var k, off := CopyFromDelivers(cfg, run, acts, i, t, p);
    j := ReadAtCompletion(cfg, run, acts, i, k);
    DeliveredAfterBegin(cfg, run, acts, b, j, k, run[i].ch.issued[k], run[i].ch.delivered[k]);
    assert Reads(run[j].dev, run[i].ch.issued[k].addr, run[i].ch.delivered[k]);
  }

  /** If a byte of the source range keeps its value from the beginning of the call until it has returned, it is
   *  in the output.  Nothing is asked of other addresses or of the time before the call. */
  lemma OutputEqualsDevice(cfg: Config, run: seq<State>, acts: seq<Action>, b: nat, i: nat, t: nat, p: nat, v: Byte)
    requires IsRun(cfg, run, acts) && b < i < |run| && t < |run[i].calls| && run[i].calls[t].pc.Returned? && !cfg.stream
    requires |run[b].calls| == t && p < |run[i].calls[t].out|
    requires forall j | b < j < i :: run[j].dev(cfg.devOffset + run[i].calls[t].ptr + p) == v
    ensures run[i].calls[t].out[p] == v
  {
    hide *;
    var j := OutputWasOnDevice(cfg, run, acts, b, i, t, p);
  }

  predicate ForeignHas(s: State, b: BufId) {
    b in s.place && s.place[b] == Foreign
  }

  /** A buffer is in the pool, with a foreign call, or held by exactly one call. */
  ghost predicate OnePlace(s: State, b: BufId) {
    && (b in s.pool ==> forall t | 0 <= t < |s.calls| :: !Holds(s.calls[t], b))
    && (forall t, u | 0 <= t < |s.calls| && 0 <= u < |s.calls| && Holds(s.calls[t], b) && Holds(s.calls[u], b) ::
        t == u)
    && (b !in s.pool ==> ForeignHas(s, b) || exists t :: 0 <= t < |s.calls| && Holds(s.calls[t], b))
    && (ForeignHas(s, b) ==> b !in s.pool && forall t | 0 <= t < |s.calls| :: !Holds(s.calls[t], b))
  }

  lemma EveryBufferHasOnePlace(cfg: Config, run: seq<State>, acts: seq<Action>, i: nat, b: BufId)
    requires IsRun(cfg, run, acts) && i < |run| && b in cfg.sizes
    ensures OnePlace(run[i], b)
  {
    hide *;
    RunInv(cfg, run, acts, i);
    PlacedOnce(cfg, run[i], b);
  }

  lemma PlacedOnce(cfg: Config, s: State, b: BufId)
    requires Inv(cfg, s) && b in cfg.sizes
    ensures OnePlace(s, b)
  {
    assert b in s.place && PoolInv(s.place, s.pool) && HeldInv(s.place, s.calls);
    hide Inv;
    PlaceIsKept(s, b);
  }

  lemma PlaceIsKept(s: State, b: BufId)
    requires b in s.place && PoolInv(s.place, s.pool) && HeldInv(s.place, s.calls)
    ensures OnePlace(s, b)
  {
    hide Holds;
    assert b in s.pool <==> s.place[b] == InPool;
    forall t | 0 <= t < |s.calls| && Holds(s.calls[t], b) ensures s.place[b] == HeldBy(t) { }
    if s.place[b].HeldBy? { assert Holds(s.calls[s.place[b].call], b); }
  }

  /** The partiality guards exclude no behaviour: the engine is held up only when it has nothing to do and then
   *  delivers what the device holds, a call only by the lock or because it has returned, and a pooled buffer can
   *  be stolen by any call that wants one or by a foreign one. */
  lemma GuardsHideNothing(cfg: Config, run: seq<State>, acts: seq<Action>, i: nat, t: nat, b: BufId, bytes: seq<Byte>)
    requires IsRun(cfg, run, acts) && i < |run| && t < |run[i].calls|
    ensures Enabled(cfg, run[i], Step(t)) <==>
      if run[i].calls[t].pc.Acquire? then run[i].lock == Free else !run[i].calls[t].pc.Returned?
    ensures Enabled(cfg, run[i], StealBuffer(t, b)) <==> run[i].calls[t].pc.Steal? && b in run[i].pool
    ensures Enabled(cfg, run[i], Complete(bytes)) <==>
      && |run[i].ch.delivered| < |run[i].ch.issued|
      && |bytes| == run[i].ch.issued[|run[i].ch.delivered|].len
      && (!cfg.stream ==> Reads(run[i].dev, run[i].ch.issued[|run[i].ch.delivered|].addr, bytes))
    ensures Enabled(cfg, run[i], ForeignScribble(b, bytes)) <==>
        ForeignHas(run[i], b) && b in cfg.sizes && |bytes| == cfg.sizes[b]
  {
    hide *;
    RunInv(cfg, run, acts, i);
    StepGuard(cfg, run[i], t);
    StealGuard(cfg, run[i], t, b);
    EngineGuard(cfg, run[i], bytes);
    ScribbleGuard(cfg, run[i], b, bytes);
  }

  lemma ScribbleGuard(cfg: Config, s: State, b: BufId, bytes: seq<Byte>)
    ensures Enabled(cfg, s, ForeignScribble(b, bytes)) <==>
        ForeignHas(s, b) && b in cfg.sizes && |bytes| == cfg.sizes[b]
  {
  }

  lemma StealGuard(cfg: Config, s: State, t: nat, b: BufId)
    requires Inv(cfg, s) && t < |s.calls|
    ensures Enabled(cfg, s, StealBuffer(t, b)) <==> s.calls[t].pc.Steal? && b in s.pool
  {
    CallOf(cfg, s, t);
    hide CallInv, UsedInv, OutInv, BufInv, NoDup, PcInv, EngineInv, HeldInv, LockInv;
  }

  lemma EngineGuard(cfg: Config, s: State, bytes: seq<Byte>)
    requires Inv(cfg, s)
    ensures Enabled(cfg, s, Complete(bytes)) <==>
      && |s.ch.delivered| < |s.ch.issued|
      && |bytes| == s.ch.issued[|s.ch.delivered|].len
      && (!cfg.stream ==> Reads(s.dev, s.ch.issued[|s.ch.delivered|].addr, bytes))
  {
    hide CallInv, HeldInv, LockInv, PoolInv, SumAdding;
    if |s.ch.delivered| < |s.ch.issued| { assert OwnedTransfer(cfg, s.ch, s.calls, |s.ch.delivered|); }
  }

  lemma StepGuard(cfg: Config, s: State, t: nat)
    requires Inv(cfg, s) && t < |s.calls|
    ensures Enabled(cfg, s, Step(t)) <==> if s.calls[t].pc.Acquire? then s.lock == Free else !s.calls[t].pc.Returned?
  {
    hide Inv, CallInv;
    CallOf(cfg, s, t);
    if CopiesNext(s.calls[t]) {
      NextEntry(cfg, t, s.calls[t], s.ch, s.contents);
    }
  }
}
