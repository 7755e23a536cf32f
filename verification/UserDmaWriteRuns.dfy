/** What holds in every state of every run of concurrent `do_copy_to` calls. */
module UserDmaWriteRuns {

  import opened Common
  import opened Dma
  import opened UserDmaWrite

  /** A run: the states passed through and the actions between them, in any interleaving. */
  ghost predicate IsRun(cfg: Config, run: seq<State>, acts: seq<Action>) {
    && |run| == |acts| + 1
    && Init(cfg, run[0])
    && forall i | 0 <= i < |acts| :: Enabled(cfg, run[i], acts[i]) && run[i + 1] == Apply(cfg, run[i], acts[i])
  }

  lemma {:induction false} RunInv(cfg: Config, run: seq<State>, acts: seq<Action>, i: nat)
    requires IsRun(cfg, run, acts) && i < |run|
    ensures Inv(cfg, run[i])
  {
    if i == 0 {
      InitInv(cfg, run[0]);
    } else {
      RunInv(cfg, run, acts, i - 1);
      assert run[i - 1 + 1] == Apply(cfg, run[i - 1], acts[i - 1]);
      hide Inv, Apply;
      ApplyInv(cfg, run[i - 1], acts[i - 1]);
    }
  }

  ghost predicate HeldBySome(s: State, b: BufId) {
    exists t :: 0 <= t < |s.calls| && Holds(s.calls[t].pc, b)
  }

  /** A buffer is in exactly one place: the pool, one call's hands, or one position of one out-queue. */
  ghost predicate OnePlace(s: State, b: BufId) {
    && (b in s.pool || HeldBySome(s, b) || b in s.memory.out || b in s.stream.out)
    && (b in s.pool ==> !HeldBySome(s, b) && b !in s.memory.out && b !in s.stream.out)
    && (HeldBySome(s, b) ==> b !in s.memory.out && b !in s.stream.out)
    && (forall t, u | 0 <= t < |s.calls| && 0 <= u < |s.calls| && Holds(s.calls[t].pc, b)
        && Holds(s.calls[u].pc, b) :: t == u)
    && !(b in s.memory.out && b in s.stream.out)
    && Distinct(s.memory.out) && Distinct(s.stream.out)
  }

  lemma EveryBufferHasOnePlace(cfg: Config, run: seq<State>, acts: seq<Action>, i: nat, b: BufId)
    requires IsRun(cfg, run, acts) && i < |run| && b in cfg.sizes
    ensures OnePlace(run[i], b)
  {
    RunInv(cfg, run, acts, i);
    PlacedOnce(cfg, run[i], b);
  }

  lemma PlacedOnce(cfg: Config, s: State, b: BufId)
    requires PlaceInv(cfg, s) && b in cfg.sizes
    ensures OnePlace(s, b)
  {
    forall t | 0 <= t < |s.calls| && Holds(s.calls[t].pc, b) ensures s.place[b] == HeldBy(t) {
      HeldPlace(s.place, s.calls, t, b);
    }
    if s.place[b].HeldBy? {
      assert Holds(s.calls[s.place[b].call].pc, b);
    }
    assert HeldBySome(s, b) <==> s.place[b].HeldBy?;
    assert b in s.pool <==> s.place[b] == InPool;
    assert b in s.memory.out <==> s.place[b] == Queued(Memory);
    assert b in s.stream.out <==> s.place[b] == Queued(Stream);
    match s.place[b] {
      case InPool =>
      case HeldBy(_) =>
      case Queued(Memory) =>
      case Queued(Stream) =>
    }
  }

  /** In every run the k-th buffer popped from an out-queue is the one of the k-th command, and the
   *  engine is done with that command; the interrupt count never runs ahead of the finished transfers. */
  lemma PopsFollowCompletions(cfg: Config, run: seq<State>, acts: seq<Action>, i: nat, c: Channel)
    requires IsRun(cfg, run, acts) && i < |run|
    ensures var ch := run[i].Ch(c);
      && |ch.popped| <= ch.intCntr <= |ch.landed| <= |ch.issued|
      && forall k | 0 <= k < |ch.popped| :: ch.popped[k] == ch.issued[k].buf
  {
    RunInv(cfg, run, acts, i);
    var ch := run[i].Ch(c);
    assert CountInv(run[i], c);
    forall k | 0 <= k < |ch.popped| ensures ch.popped[k] == ch.issued[k].buf {
      assert ch.pushed[k] == ch.popped[k];
    }
  }

  /** No call ever sees more interrupts than queued buffers. */
  lemma NeverTooManyInterrupts(cfg: Config, run: seq<State>, acts: seq<Action>, i: nat, t: nat)
    requires IsRun(cfg, run, acts) && i < |run| && t < |run[i].calls|
    ensures !run[i].calls[t].pc.TooManyInterrupts?
  {
    RunInv(cfg, run, acts, i);
    assert CallInv(cfg, run[i], t);
  }

  /** A call that is about to fill a buffer never overwrites bytes the engine has yet to read. */
  lemma NoRefillInFlight(cfg: Config, run: seq<State>, acts: seq<Action>, i: nat, t: nat, c: Channel, k: nat)
    requires IsRun(cfg, run, acts) && i < |run| && t < |run[i].calls| && run[i].calls[t].pc.Fill?
    requires |run[i].Ch(c).landed| <= k < |run[i].Ch(c).issued|
    ensures run[i].calls[t].pc.buf != run[i].Ch(c).issued[k].buf
  {
    RunInv(cfg, run, acts, i);
    var s := run[i];
    hide IsRun;
    assert CountInv(s, c) && PlaceInv(cfg, s);
    hide Inv, CountInv, PlaceInv;
    InFlightQueued(s, c, k);
    QueuedIsNotHeld(cfg, s, c, s.Ch(c).issued[k].buf);
    assert Holds(s.calls[t].pc, s.calls[t].pc.buf);
  }

  /** Position `p` of a call's slice lies in its chunk `j`, which the engine has written where it belongs. */
  ghost predicate Arrived(cfg: Config, s: State, c: Call, p: nat, j: nat) {
    var ch := s.Ch(c.ch);
    && j < |c.sent|
    && var k := c.sent[j];
       && k.off <= p < k.off + k.len <= |c.data|
       && k.ticket < |ch.landed| <= |ch.issued|
       && ch.issued[k.ticket].addr == cfg.devOffset + c.ptr + (if c.ch.Memory? then k.off else 0)
       && ch.landed[k.ticket] == c.data[k.off..k.off + k.len]
  }

  /** The chunks of a call cut its slice without gaps: every position sent lies in some chunk. */
  lemma {:induction false} ChunkOf(cfg: Config, c: Call, ch: Chan, p: nat, n: nat) returns (i: nat)
    requires SentInv(cfg, c, ch) && 0 < n <= |c.sent|
    requires p < c.sent[n - 1].off + c.sent[n - 1].len
    ensures i < n && c.sent[i].off <= p < c.sent[i].off + c.sent[i].len
  {
    if p >= c.sent[n - 1].off {
      i := n - 1;
    } else {
      assert n > 1;
      assert c.sent[n - 2].off + c.sent[n - 2].len == c.sent[n - 2 + 1].off;
      i := ChunkOf(cfg, c, ch, p, n - 1);
    }
  }

  /** When `do_copy_to` has returned, every byte of its slice has been written by a transfer of this call to
   *  its device address, no matter which calls consumed the interrupts. */
  lemma CopyToDelivers(cfg: Config, run: seq<State>, acts: seq<Action>, i: nat, t: nat, p: nat) returns (j: nat)
    requires IsRun(cfg, run, acts) && i < |run| && t < |run[i].calls| && run[i].calls[t].pc.Returned?
    requires p < |run[i].calls[t].data|
    ensures Arrived(cfg, run[i], run[i].calls[t], p, j)
  {
    RunInv(cfg, run, acts, i);
    hide IsRun;
    j := DeliveredBy(cfg, run[i], t, p);
  }

  lemma PartsOfInv(cfg: Config, s: State, t: nat)
    requires Inv(cfg, s) && t < |s.calls|
    ensures CallInv(cfg, s, t) && CountInv(s, s.calls[t].ch) && DataInv(cfg, s, s.calls[t].ch)
  {
    hide LockInv, PlaceInv, DataInv, CallInv, CountInv;
    assert s.calls[t].ch == Memory || s.calls[t].ch == Stream;
  }

  lemma PartsOfCall(cfg: Config, s: State, t: nat)
    requires t < |s.calls| && CallInv(cfg, s, t) && CountInv(s, s.calls[t].ch)
    ensures SentInv(cfg, s.calls[t], s.Ch(s.calls[t].ch))
    ensures s.calls[t].pc.Returned? ==>
        s.calls[t].off == |s.calls[t].data| && s.calls[t].highest < |s.Ch(s.calls[t].ch).landed|
  {
    hide SentInv;
  }

  lemma DeliveredBy(cfg: Config, s: State, t: nat, p: nat) returns (j: nat)
    requires Inv(cfg, s) && t < |s.calls| && s.calls[t].pc.Returned? && p < |s.calls[t].data|
    ensures Arrived(cfg, s, s.calls[t], p, j)
  {
    hide Inv;
    PartsOfInv(cfg, s, t);
    PartsOfCall(cfg, s, t);
    hide CallInv;
    j := ChunkOf(cfg, s.calls[t], s.Ch(s.calls[t].ch), p, |s.calls[t].sent|);
    ChunkLanded(cfg, s, t, j);
  }

  /** All chunks of a call that has returned have landed as they were cut from the slice. */
  lemma ChunkLanded(cfg: Config, s: State, t: nat, j: nat)
    requires t < |s.calls| && j < |s.calls[t].sent| && s.calls[t].highest < |s.Ch(s.calls[t].ch).landed|
    requires SentInv(cfg, s.calls[t], s.Ch(s.calls[t].ch)) && DataInv(cfg, s, s.calls[t].ch)
    ensures var c, ch, k := s.calls[t], s.Ch(s.calls[t].ch), s.calls[t].sent[j];
      && k.ticket < |ch.landed| <= |ch.issued| && k.off + k.len <= |c.data|
      && ch.issued[k.ticket].addr == Target(cfg, c, k.off)
      && ch.landed[k.ticket] == c.data[k.off..k.off + k.len]
  {
    hide Carries;
    assert ChunkOk(cfg, s.calls[t], s.Ch(s.calls[t].ch), s.calls[t].sent[j]);
  }

  // ---- Order and ownership ----

  ghost predicate AllLanded(sent: seq<Chunk>, landed: seq<seq<Byte>>) {
    forall j | 0 <= j < |sent| :: sent[j].ticket < |landed|
  }

  /** What the engine carried for a call, transfer after transfer. */
  function Carried(sent: seq<Chunk>, landed: seq<seq<Byte>>): seq<Byte>
    requires AllLanded(sent, landed)
  {
    if sent == [] then [] else Carried(sent[..|sent| - 1], landed) + landed[sent[|sent| - 1].ticket]
  }

  /** When `do_copy_to` has returned, its transfers have landed in ascending ticket order and put end to end
   *  they are its slice.  For a stream, whose transfers all go to one address, that is what is received. */
  lemma SliceLandsInOrder(cfg: Config, run: seq<State>, acts: seq<Action>, i: nat, t: nat)
    requires IsRun(cfg, run, acts) && i < |run| && t < |run[i].calls| && run[i].calls[t].pc.Returned?
    ensures var c, ch := run[i].calls[t], run[i].Ch(run[i].calls[t].ch);
      && (forall j, k | 0 <= j < k < |c.sent| :: c.sent[j].ticket < c.sent[k].ticket)
      && AllLanded(c.sent, ch.landed) && Carried(c.sent, ch.landed) == c.data
  {
    RunInv(cfg, run, acts, i);
    hide IsRun, Inv, CallInv, CountInv, DataInv, SentInv, Carried, AllLanded;
    PartsOfInv(cfg, run[i], t);
    PartsOfCall(cfg, run[i], t);
    AllCarried(cfg, run[i], t);
  }

  lemma AllCarried(cfg: Config, s: State, t: nat)
    requires t < |s.calls| && SentInv(cfg, s.calls[t], s.Ch(s.calls[t].ch)) && DataInv(cfg, s, s.calls[t].ch)
    requires s.calls[t].off == |s.calls[t].data| && s.calls[t].highest < |s.Ch(s.calls[t].ch).landed|
    ensures var c, ch := s.calls[t], s.Ch(s.calls[t].ch);
      && (forall j, k | 0 <= j < k < |c.sent| :: c.sent[j].ticket < c.sent[k].ticket)
      && AllLanded(c.sent, ch.landed) && Carried(c.sent, ch.landed) == c.data
  {
    hide DataInv;
    var c := s.calls[t];
    if c.sent != [] {
      CarriedSoFar(cfg, s, t, |c.sent|);
      assert c.sent[..|c.sent|] == c.sent;
    }
  }

  lemma {:induction false} CarriedSoFar(cfg: Config, s: State, t: nat, n: nat)
    requires t < |s.calls| && 0 < n <= |s.calls[t].sent| && s.calls[t].highest < |s.Ch(s.calls[t].ch).landed|
    requires SentInv(cfg, s.calls[t], s.Ch(s.calls[t].ch)) && DataInv(cfg, s, s.calls[t].ch)
    ensures var c, landed := s.calls[t], s.Ch(s.calls[t].ch).landed;
      && AllLanded(c.sent[..n], landed)
      && c.sent[n - 1].off + c.sent[n - 1].len <= |c.data|
      && Carried(c.sent[..n], landed) == c.data[..c.sent[n - 1].off + c.sent[n - 1].len]
    decreases n
  {
    hide DataInv;
    var c, landed := s.calls[t], s.Ch(s.calls[t].ch).landed;
    ChunkLanded(cfg, s, t, n - 1);
    assert c.sent[..n][..n - 1] == c.sent[..n - 1];
    if n > 1 {
      CarriedSoFar(cfg, s, t, n - 1);
      assert c.sent[n - 2].off + c.sent[n - 2].len == c.sent[n - 2 + 1].off;
      assert c.data[..c.sent[n - 1].off] + c.data[c.sent[n - 1].off..c.sent[n - 1].off + c.sent[n - 1].len]
          == c.data[..c.sent[n - 1].off + c.sent[n - 1].len];
    } else {
      assert Carried(c.sent[..0], landed) == [];
    }
  }

  /** No ticket is recorded by two calls of a channel. */
  ghost predicate Separate(calls: seq<Call>) {
    forall t, u, j, k | 0 <= t < |calls| && 0 <= u < |calls| && t != u && calls[t].ch == calls[u].ch
        && 0 <= j < |calls[t].sent| && 0 <= k < |calls[u].sent| ::
      calls[t].sent[j].ticket != calls[u].sent[k].ticket
  }

  /** In every run each transfer belongs to one call. */
  lemma {:induction false} TicketsBelongToOneCall(cfg: Config, run: seq<State>, acts: seq<Action>, i: nat)
    requires IsRun(cfg, run, acts) && i < |run|
    ensures Separate(run[i].calls)
  {
    if i > 0 {
      TicketsBelongToOneCall(cfg, run, acts, i - 1);
      RunInv(cfg, run, acts, i - 1);
      assert run[i - 1 + 1] == Apply(cfg, run[i - 1], acts[i - 1]);
      hide IsRun;
      SeparateStep(cfg, run[i - 1], acts[i - 1]);
    }
  }

  lemma SeparateStep(cfg: Config, s: State, a: Action)
    requires Inv(cfg, s) && Enabled(cfg, s, a) && Separate(s.calls)
    ensures Separate(Apply(cfg, s, a).calls)
  {
    hide Inv, Separate, CallInv;
    if a.Step? && s.calls[a.call].pc.Count? {
      forall u | 0 <= u < |s.calls| ensures TicketsBelow(s.calls[u], s.Ch(s.calls[u].ch).cntr) {
        PartsOfInv(cfg, s, u);
        PartsOfCall(cfg, s, u);
      }
      TicketDrawn(s.calls, a.call, Apply(cfg, s, a).calls[a.call], s.Ch(s.calls[a.call].ch).cntr);
    } else {
      NothingDrawn(cfg, s, a);
      StillSeparate(s.calls, Apply(cfg, s, a).calls);
    }
  }

  ghost predicate TicketsBelow(c: Call, n: nat) {
    forall j | 0 <= j < |c.sent| :: c.sent[j].ticket < n
  }

  lemma TicketDrawn(calls: seq<Call>, t: nat, c: Call, n: nat)
    requires Separate(calls) && t < |calls| && c.ch == calls[t].ch && |c.sent| == |calls[t].sent| + 1
    requires c.sent[..|calls[t].sent|] == calls[t].sent && c.sent[|calls[t].sent|].ticket == n
    requires forall u | 0 <= u < |calls| && calls[u].ch == c.ch :: TicketsBelow(calls[u], n)
    ensures Separate(calls[t := c])
  {
    forall j | 0 <= j < |c.sent| ensures c.sent[j].ticket == n
        || (j < |calls[t].sent| && c.sent[j] == calls[t].sent[j]) {
      if j < |calls[t].sent| { assert c.sent[..|calls[t].sent|][j] == c.sent[j]; }
    }
  }

  ghost predicate SameSent(calls: seq<Call>, calls': seq<Call>) {
    && |calls| <= |calls'|
    && (forall t | 0 <= t < |calls| :: calls'[t].sent == calls[t].sent && calls'[t].ch == calls[t].ch)
    && (forall t | |calls| <= t < |calls'| :: calls'[t].sent == [])
  }

  lemma NothingDrawn(cfg: Config, s: State, a: Action)
    requires Enabled(cfg, s, a) && !(a.Step? && s.calls[a.call].pc.Count?)
    ensures SameSent(s.calls, Apply(cfg, s, a).calls)
  {
    if a.Step? { StepDrawsNothing(cfg, s, a.call); }
  }

  lemma StepDrawsNothing(cfg: Config, s: State, t: nat)
    requires Enabled(cfg, s, Step(t)) && !s.calls[t].pc.Count?
    ensures SameSent(s.calls, StepCall(cfg, s, t).calls)
  {
    assert t < |s.calls|;
    hide StepCall, Enabled;
    if Waiting(s.calls[t].pc) { WaitingStep(cfg, s, t); } else { SendingStep(cfg, s, t); }
  }

  predicate Waiting(pc: Pc) {
    pc.Poll? || pc.Read? || pc.Drain? || pc.Pop? || pc.Recycle?
  }

  /** Only the call that moves changes, and it records no chunk. */
  ghost predicate OnlyPc(calls: seq<Call>, calls': seq<Call>, t: nat) {
    t < |calls| == |calls'| && calls' == calls[t := calls'[t]] && calls'[t].sent == calls[t].sent
        && calls'[t].ch == calls[t].ch
  }

  lemma WaitingStep(cfg: Config, s: State, t: nat)
    requires Enabled(cfg, s, Step(t)) && Waiting(s.calls[t].pc)
    ensures OnlyPc(s.calls, StepCall(cfg, s, t).calls, t)
  {
  }

  lemma SendingStep(cfg: Config, s: State, t: nat)
    requires Enabled(cfg, s, Step(t)) && !Waiting(s.calls[t].pc) && !s.calls[t].pc.Count?
    ensures OnlyPc(s.calls, StepCall(cfg, s, t).calls, t)
  {
  }

  lemma StillSeparate(calls: seq<Call>, calls': seq<Call>)
    requires Separate(calls) && SameSent(calls, calls')
    ensures Separate(calls')
  {
  }

  // ---- Device memory ----

  datatype Cell = Untouched | Written(value: Byte)

  predicate Hits(x: Transfer, bytes: seq<Byte>, a: nat) {
    x.addr <= a < x.addr + |bytes|
  }

  /** The byte at device address `a` after the first `n` memory transfers: the last one that hit it wins. */
  function DeviceByte(ch: Chan, n: nat, a: nat): Cell
    requires n <= |ch.landed| <= |ch.issued|
  {
    if n == 0 then Untouched
    else if Hits(ch.issued[n - 1], ch.landed[n - 1], a) then Written(ch.landed[n - 1][a - ch.issued[n - 1].addr])
    else DeviceByte(ch, n - 1, a)
  }

  /** A device byte has the value of the last transfer that hit it: those before transfer `k` do not matter. */
  lemma {:induction false} LastWriteWins(ch: Chan, n: nat, a: nat, v: Byte, k: nat)
    requires n <= |ch.landed| <= |ch.issued|
    requires k < n && Hits(ch.issued[k], ch.landed[k], a)
    requires forall j | k <= j < n && Hits(ch.issued[j], ch.landed[j], a) :: ch.landed[j][a - ch.issued[j].addr] == v
    ensures DeviceByte(ch, n, a) == Written(v)
  {
    if !Hits(ch.issued[n - 1], ch.landed[n - 1], a) {
      LastWriteWins(ch, n - 1, a, v, k);
    }
  }

  /** Command `k` belongs to call `c`. */
  ghost predicate Mine(c: Call, k: nat) {
    exists i :: 0 <= i < |c.sent| && c.sent[i].ticket == k
  }

  /** No other call's transfer with a ticket above `ticket` has hit address `a`. */
  ghost predicate LastWriter(c: Call, ch: Chan, ticket: nat, a: nat)
    requires |ch.landed| <= |ch.issued|
  {
    forall k | ticket < k < |ch.landed| && !Mine(c, k) :: !Hits(ch.issued[k], ch.landed[k], a)
  }

  /** Unless another call's later transfer hit the address, device memory holds byte `p` of the slice when
   *  `do_copy_to` has returned, whatever was there before. */
  lemma DeviceHoldsSlice(cfg: Config, run: seq<State>, acts: seq<Action>, i: nat, t: nat, p: nat, j: nat)
    requires IsRun(cfg, run, acts) && i < |run| && t < |run[i].calls| && p < |run[i].calls[t].data|
    requires run[i].calls[t].pc.Returned? && run[i].calls[t].ch == Memory
    requires j < |run[i].calls[t].sent|
        && run[i].calls[t].sent[j].off <= p < run[i].calls[t].sent[j].off + run[i].calls[t].sent[j].len
    requires |run[i].memory.landed| <= |run[i].memory.issued|
    requires LastWriter(run[i].calls[t], run[i].memory, run[i].calls[t].sent[j].ticket,
        cfg.devOffset + run[i].calls[t].ptr + p)
    ensures DeviceByte(run[i].memory, |run[i].memory.landed|, cfg.devOffset + run[i].calls[t].ptr + p)
        == Written(run[i].calls[t].data[p])
  {
    RunInv(cfg, run, acts, i);
    hide IsRun;
    SliceInMemory(cfg, run[i], t, p, j);
  }

  lemma SliceInMemory(cfg: Config, s: State, t: nat, p: nat, j: nat)
    requires Inv(cfg, s) && t < |s.calls| && p < |s.calls[t].data|
    requires s.calls[t].pc.Returned? && s.calls[t].ch == Memory
    requires j < |s.calls[t].sent| && s.calls[t].sent[j].off <= p < s.calls[t].sent[j].off + s.calls[t].sent[j].len
    requires |s.memory.landed| <= |s.memory.issued|
    requires LastWriter(s.calls[t], s.memory, s.calls[t].sent[j].ticket, cfg.devOffset + s.calls[t].ptr + p)
    ensures DeviceByte(s.memory, |s.memory.landed|, cfg.devOffset + s.calls[t].ptr + p) == Written(s.calls[t].data[p])
  {
    hide Inv, SentInv, DataInv, DeviceByte, LastWriter, CallInv, CountInv;
    PartsOfInv(cfg, s, t);
    PartsOfCall(cfg, s, t);
    ChunkLanded(cfg, s, t, j);
    LaterHitsAgree(cfg, s, t, p, j);
    LastWriteWins(s.memory, |s.memory.landed|, cfg.devOffset + s.calls[t].ptr + p, s.calls[t].data[p],
        s.calls[t].sent[j].ticket);
  }

  lemma LaterHitsAgree(cfg: Config, s: State, t: nat, p: nat, j: nat)
    requires Inv(cfg, s) && t < |s.calls| && p < |s.calls[t].data| && s.calls[t].ch == Memory && j < |s.calls[t].sent|
    requires |s.memory.landed| <= |s.memory.issued|
    requires LastWriter(s.calls[t], s.memory, s.calls[t].sent[j].ticket, cfg.devOffset + s.calls[t].ptr + p)
    ensures var ch, a := s.memory, cfg.devOffset + s.calls[t].ptr + p;
      forall k | s.calls[t].sent[j].ticket <= k < |ch.landed| && Hits(ch.issued[k], ch.landed[k], a) ::
        ch.landed[k][a - ch.issued[k].addr] == s.calls[t].data[p]
  {
    hide Inv, LastWriter, Mine;
    var ch, a := s.memory, cfg.devOffset + s.calls[t].ptr + p;
    forall k | s.calls[t].sent[j].ticket <= k < |ch.landed| && Hits(ch.issued[k], ch.landed[k], a)
      ensures ch.landed[k][a - ch.issued[k].addr] == s.calls[t].data[p]
    {
      HitsAreMine(s.calls[t], ch, j, k, a);
      MyBytes(cfg, s, t, k, p);
    }
  }

  lemma HitsAreMine(c: Call, ch: Chan, j: nat, k: nat, a: nat)
    requires |ch.landed| <= |ch.issued| && j < |c.sent| && LastWriter(c, ch, c.sent[j].ticket, a)
    requires c.sent[j].ticket <= k < |ch.landed| && Hits(ch.issued[k], ch.landed[k], a)
    ensures Mine(c, k)
  {
    assert Mine(c, c.sent[j].ticket);
  }

  /** A landed transfer of the call that hits position `p` carries the right byte. */
  lemma MyBytes(cfg: Config, s: State, t: nat, k: nat, p: nat)
    requires Inv(cfg, s) && t < |s.calls| && p < |s.calls[t].data| && s.calls[t].ch == Memory && Mine(s.calls[t], k)
    requires k < |s.memory.landed| <= |s.memory.issued|
    requires Hits(s.memory.issued[k], s.memory.landed[k], cfg.devOffset + s.calls[t].ptr + p)
    ensures s.memory.landed[k][cfg.devOffset + s.calls[t].ptr + p - s.memory.issued[k].addr] == s.calls[t].data[p]
  {
    hide Inv, SentInv, DataInv;
    PartsOfInv(cfg, s, t);
    PartsOfCall(cfg, s, t);
    var off := MyChunk(cfg, s.calls[t], s.memory, k);
    LandedAsSent(cfg, s, Memory, k);
  }

  lemma MyChunk(cfg: Config, c: Call, ch: Chan, k: nat) returns (off: nat)
    requires SentInv(cfg, c, ch) && Mine(c, k) && c.ch == Memory
    ensures k < |ch.issued| && off + |ch.issued[k].data| <= |c.data|
    ensures ch.issued[k].addr == cfg.devOffset + c.ptr + off
    ensures ch.issued[k].data == c.data[off..off + |ch.issued[k].data|]
  {
    var i :| 0 <= i < |c.sent| && c.sent[i].ticket == k;
    assert ChunkOk(cfg, c, ch, c.sent[i]);
    off := c.sent[i].off;
  }

  lemma LandedAsSent(cfg: Config, s: State, c: Channel, k: nat)
    requires DataInv(cfg, s, c) && k < |s.Ch(c).landed|
    ensures s.Ch(c).landed[k] == s.Ch(c).issued[k].data
  {
  }

  /** The partiality guards of `Enabled` exclude no behaviour: the engine is held up only when it has
   *  nothing to do, and a call only by an empty pool (then it waits instead of stealing), by the lock,
   *  or because it has returned. */
  lemma GuardsHideNothing(cfg: Config, run: seq<State>, acts: seq<Action>, i: nat, t: nat, c: Channel)
    requires IsRun(cfg, run, acts) && i < |run| && t < |run[i].calls|
    ensures Enabled(cfg, run[i], Complete(c)) <==> |run[i].Ch(c).landed| < |run[i].Ch(c).issued|
    ensures Enabled(cfg, run[i], Step(t)) <==>
        if run[i].calls[t].pc.Steal? then run[i].calls[t].off == |run[i].calls[t].data| || run[i].pool == {}
        else if run[i].calls[t].pc.Acquire? then run[i].lock.Free?
        else !run[i].calls[t].pc.Returned?
  {
    RunInv(cfg, run, acts, i);
    hide IsRun, LockInv, CountInv, PlaceInv, DataInv, CallInv, Enabled;
    EngineGuard(cfg, run[i], c);
    StepGuard(cfg, run[i], t);
  }

  lemma EngineGuard(cfg: Config, s: State, c: Channel)
    requires DataInv(cfg, s, c)
    ensures Enabled(cfg, s, Complete(c)) <==> |s.Ch(c).landed| < |s.Ch(c).issued|
  {
    if |s.Ch(c).landed| < |s.Ch(c).issued| {
      assert Carries(cfg, s.contents, s.Ch(c).issued[|s.Ch(c).landed|].buf, s.Ch(c).issued[|s.Ch(c).landed|].data);
    }
  }

  lemma StepGuard(cfg: Config, s: State, t: nat)
    requires PlaceInv(cfg, s) && t < |s.calls| && CallInv(cfg, s, t)
    ensures Enabled(cfg, s, Step(t)) <==>
        if s.calls[t].pc.Steal? then s.calls[t].off == |s.calls[t].data| || s.pool == {}
        else if s.calls[t].pc.Acquire? then s.lock.Free?
        else !s.calls[t].pc.Returned?
  {
    if s.calls[t].pc.Fill? {
      HeldPlace(s.place, s.calls, t, s.calls[t].pc.buf);
    }
    hide HeldInv, QueueInv, PoolInv, Carries;
  }
}
