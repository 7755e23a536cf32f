/** What holds in every state of every run of concurrent `tlkm_dma_copy_to` calls, and their progress. */
module KernelRingRuns {

  import opened Common
  import opened Dma
  import opened KernelRing

  ghost predicate IsRun(alignment: nat, run: seq<State>, acts: seq<Action>) {
    && alignment > 0
    && |run| == |acts| + 1
    && Init(run[0])
    && forall i | 0 <= i < |acts| :: Enabled(run[i], acts[i]) && run[i + 1] == Apply(alignment, run[i], acts[i])
  }

  /** The invariant holds in every state of every run. */
  lemma {:induction false} RunInv(alignment: nat, run: seq<State>, acts: seq<Action>, i: nat)
    requires IsRun(alignment, run, acts) && i < |run|
    ensures Inv(run[i])
  {
    if i == 0 {
      InitInv(run[0]);
    } else {
      RunInv(alignment, run, acts, i - 1);
      assert run[i - 1 + 1] == Apply(alignment, run[i - 1], acts[i - 1]);
      hide Inv, Apply;
      ApplyInv(alignment, run[i - 1], acts[i - 1]);
    }
  }

  /** The interrupt counter overtakes the command counter by at most one: exactly while the caller of the oldest
   *  ticket stands between writing its command and counting it, and that command is already processed. */
  lemma CountersBounded(alignment: nat, run: seq<State>, acts: seq<Action>, i: nat)
    requires IsRun(alignment, run, acts) && i < |run|
    ensures var r := run[i].ring;
      && r.processed <= |r.landed| <= |r.cmds| <= r.enqueued + 1
      && r.processed <= r.enqueued + 1
      && r.enqueued <= r.requested
      && (r.processed > r.enqueued <==> Bumping(r, run[i].calls) && r.processed == |r.cmds|)
  {
    RunInv(alignment, run, acts, i);
  }

  /** The actions of one caller with one byte, the interrupt coming before the increment. */
  const OVERTAKING := [Begin(0, [7]), Step(0), Step(0), Step(0), Step(0), Step(0), Complete, Interrupt]

  /** The caller of `OVERTAKING` after the given history. */
  function Lone(r: Ring, slots: seq<seq<Byte>>, pc: Pc): State {
    State(r, slots, [Call(0, [7], 0, 0, pc, [])])
  }

  lemma LoneFills(s: State)
    requires Init(s)
    ensures Apply(1, s, OVERTAKING[0]) == Lone(s.ring, s.slots, Request)
    ensures Apply(1, Lone(s.ring, s.slots, Request), OVERTAKING[1])
        == Lone(Ring(1, 0, 0, [], [], [0]), s.slots, Gate(0, 1))
  {
  }

  lemma LoneWaits(slots: seq<seq<Byte>>) returns (slots': seq<seq<Byte>>)
    requires |slots| == SLOTS && |slots[0]| == CHUNK_SIZE
    ensures var r := Ring(1, 0, 0, [], [], [0]);
      && |slots'| == SLOTS && |slots'[0]| == CHUNK_SIZE
      && Enabled(Lone(r, slots, Gate(0, 1)), OVERTAKING[2])
      && Apply(1, Lone(r, slots, Gate(0, 1)), OVERTAKING[2]) == Lone(r, slots, Fill(0, 1))
      && Enabled(Lone(r, slots, Fill(0, 1)), OVERTAKING[3])
      && Apply(1, Lone(r, slots, Fill(0, 1)), OVERTAKING[3]) == Lone(r, slots', WaitTurn(0, 1))
  {
    slots' := slots[0 := [7][0..1] + slots[0][1..]];
    assert Slot(0) == 0;
  }

  lemma LoneWrites(slots: seq<seq<Byte>>)
    requires |slots| == SLOTS && |slots[0]| == CHUNK_SIZE
    ensures var r := Ring(1, 0, 0, [], [], [0]);
      && Enabled(Lone(r, slots, WaitTurn(0, 1)), OVERTAKING[4])
      && Apply(1, Lone(r, slots, WaitTurn(0, 1)), OVERTAKING[4]) == Lone(r, slots, WriteCmd(0, 1))
      && Enabled(Lone(r, slots, WriteCmd(0, 1)), OVERTAKING[5])
      && Apply(1, Lone(r, slots, WriteCmd(0, 1)), OVERTAKING[5])
          == Lone(r.(cmds := [Cmd(0, 0, [7])]), slots, Bump(0, 1))
  {
    assert [7][0..1] == [7];
    assert Slot(0) == 0;
  }

  lemma LoneInterrupted(slots: seq<seq<Byte>>)
    requires |slots| == SLOTS && |slots[0]| == CHUNK_SIZE
    ensures var r := Ring(1, 0, 0, [Cmd(0, 0, [7])], [], [0]);
      && var r' := r.(landed := [slots[0][..1]]);
      && Enabled(Lone(r, slots, Bump(0, 1)), OVERTAKING[6])
      && Apply(1, Lone(r, slots, Bump(0, 1)), OVERTAKING[6]) == Lone(r', slots, Bump(0, 1))
      && Enabled(Lone(r', slots, Bump(0, 1)), OVERTAKING[7])
      && Apply(1, Lone(r', slots, Bump(0, 1)), OVERTAKING[7]) == Lone(r'.(processed := 1), slots, Bump(0, 1))
  {
  }

  /** The overtaking does happen. */
  lemma InterruptMayComeFirst(s: State) returns (run: seq<State>)
    requires Init(s)
    ensures IsRun(1, run, OVERTAKING) && run[0] == s && run[8].ring.processed == 1 && run[8].ring.enqueued == 0
  {
    LoneFills(s);
    var slots := LoneWaits(s.slots);
    LoneWrites(slots);
    LoneInterrupted(slots);
    var r := Ring(1, 0, 0, [], [], [0]);
    var r1 := r.(cmds := [Cmd(0, 0, [7])]);
    var r2 := r1.(landed := [slots[0][..1]]);
    run := [s, Lone(s.ring, s.slots, Request), Lone(r, s.slots, Gate(0, 1)), Lone(r, s.slots, Fill(0, 1)),
        Lone(r, slots, WaitTurn(0, 1)),
            Lone(r, slots, WriteCmd(0, 1)), Lone(r1, slots, Bump(0, 1)), Lone(r2, slots, Bump(0, 1)),
                Lone(r2.(processed := 1), slots, Bump(0, 1))];
    hide Apply, Lone, Init;
    forall i | 0 <= i < 8 ensures Enabled(run[i], OVERTAKING[i]) && run[i + 1] == Apply(1, run[i], OVERTAKING[i]) {
    }
  }

  /** Commands are written in ticket order: the k-th command is written by the caller that drew ticket k. */
  lemma IssuedInTicketOrder(alignment: nat, run: seq<State>, acts: seq<Action>, i: nat)
    requires IsRun(alignment, run, acts) && i < |acts| && run[i + 1].ring.cmds != run[i].ring.cmds
    ensures acts[i].Step? && acts[i].call < |run[i].calls|
    ensures var r, c := run[i].ring, run[i].calls[acts[i].call];
      && c.pc.WriteCmd?
      && c.pc.t == |r.cmds| < |r.owner|
      && r.owner[|r.cmds|] == acts[i].call
      && c.off + c.pc.n <= |c.data|
      && run[i + 1].ring.cmds == r.cmds + [Cmd(|r.cmds| % 16, c.addr + c.off, c.data[c.off..c.off + c.pc.n])]
  {
    RunInv(alignment, run, acts, i);
    assert run[i + 1] == Apply(alignment, run[i], acts[i]);
    var a := acts[i];
    assert a.Step?;
    assert run[i].calls[a.call].pc.WriteCmd?;
    var s := run[i];
    hide IsRun;
    WriteTicket(s, a.call);
    TicketBounds(s.ring, s.calls);
  }

  /** Two callers between the gate and the interrupt counter never share a slot. */
  lemma SlotExclusive(alignment: nat, run: seq<State>, acts: seq<Action>, i: nat, a: nat, b: nat)
    requires IsRun(alignment, run, acts) && i < |run| && a < |run[i].calls| && b < |run[i].calls| && a != b
    requires PastGate(run[i].calls[a].pc) && PastGate(run[i].calls[b].pc)
    requires run[i].ring.processed <= run[i].calls[a].pc.t && run[i].ring.processed <= run[i].calls[b].pc.t
    ensures run[i].calls[a].pc.t % 16 != run[i].calls[b].pc.t % 16
  {
    RunInv(alignment, run, acts, i);
    var s := run[i];
    hide IsRun;
    assert CallInv(s.ring, s.slots, s.calls[a]) && CallInv(s.ring, s.slots, s.calls[b]);
    HoldersDiffer(s.ring, s.calls, a, b);
    SlotsDiffer(s.ring.processed, s.calls[a].pc.t, s.calls[b].pc.t);
  }

  /** Nor does a caller past the gate share a slot with another ticket's command that is not yet processed. */
  lemma SlotNotInFlight(alignment: nat, run: seq<State>, acts: seq<Action>, i: nat, a: nat, k: nat)
    requires IsRun(alignment, run, acts) && i < |run| && a < |run[i].calls| && PastGate(run[i].calls[a].pc)
    requires run[i].ring.processed <= k < |run[i].ring.cmds| && k != run[i].calls[a].pc.t
    requires run[i].ring.processed <= run[i].calls[a].pc.t
    ensures run[i].ring.cmds[k].slot != run[i].calls[a].pc.t % 16
  {
    RunInv(alignment, run, acts, i);
    var s := run[i];
    hide IsRun;
    assert CallInv(s.ring, s.slots, s.calls[a]);
    SlotsDiffer(s.ring.processed, s.calls[a].pc.t, k);
  }

  /** No slot is overwritten before the engine has read it: a caller about to fill its slot meets the two
   *  conditions above without further ado, and whatever the engine reads is what its caller put there. */
  lemma NeverOverwritten(alignment: nat, run: seq<State>, acts: seq<Action>, i: nat, k: nat)
    requires IsRun(alignment, run, acts) && i < |run| && k < |run[i].ring.cmds|
    ensures var r := run[i].ring;
      && (k < |r.landed| ==> r.landed[k] == r.cmds[k].data)
      && (|r.landed| <= k ==> Carries(run[i].slots, k, r.cmds[k].data))
      && forall a | 0 <= a < |run[i].calls| && run[i].calls[a].pc.Fill? && |r.landed| <= k ::
          r.cmds[k].slot != run[i].calls[a].pc.t % 16
  {
    RunInv(alignment, run, acts, i);
    var s := run[i];
    forall a | 0 <= a < |s.calls| && s.calls[a].pc.Fill? && |s.ring.landed| <= k
      ensures s.ring.cmds[k].slot != s.calls[a].pc.t % 16
    {
      Unwritten(s, a);
      assert CallInv(s.ring, s.slots, s.calls[a]);
      SlotsDiffer(s.ring.processed, s.calls[a].pc.t, k);
    }
  }

  /** The tickets a call has recorded are tickets it drew. */
  predicate OwnTickets(r: Ring, calls: seq<Call>) {
    forall i, j | 0 <= i < |calls| && 0 <= j < |calls[i].sent| ::
      calls[i].sent[j].ticket < |r.owner| && r.owner[calls[i].sent[j].ticket] == i
  }

  lemma {:induction false} TicketsAreOwn(alignment: nat, run: seq<State>, acts: seq<Action>, i: nat)
    requires IsRun(alignment, run, acts) && i < |run|
    ensures OwnTickets(run[i].ring, run[i].calls)
  {
    if i > 0 {
      TicketsAreOwn(alignment, run, acts, i - 1);
      RunInv(alignment, run, acts, i - 1);
      assert run[i - 1 + 1] == Apply(alignment, run[i - 1], acts[i - 1]);
      hide IsRun;
      OwnTicketsStep(alignment, run[i - 1], acts[i - 1]);
    }
  }

  lemma OwnTicketsStep(alignment: nat, s: State, a: Action)
    requires alignment > 0 && Inv(s) && Enabled(s, a) && OwnTickets(s.ring, s.calls)
    ensures OwnTickets(Apply(alignment, s, a).ring, Apply(alignment, s, a).calls)
  {
    hide CallInv, CmdInv, SlotsInv, DataInv;
    var s' := Apply(alignment, s, a);
    assert s.ring.owner <= s'.ring.owner;
    if a.Step? && s.calls[a.call].pc.Bump? {
      assert s'.calls == s.calls[a.call := s'.calls[a.call]];
    } else {
      assert forall i | 0 <= i < |s.calls| :: s'.calls[i].sent == s.calls[i].sent;
    }
  }

  /** Byte `p` of call `a` lies in its chunk `j`; the command with the ticket the call drew for it has been
   *  finished by the engine and put the chunk where it belongs. */
  predicate Arrived(r: Ring, c: Call, a: nat, p: nat, j: nat) {
    && j < |c.sent|
    && var k := c.sent[j];
       && k.off <= p < k.off + k.len <= |c.data|
       && k.ticket < |r.landed| <= |r.cmds| && k.ticket < |r.owner|
       && r.owner[k.ticket] == a
       && r.cmds[k.ticket].addr == c.addr + k.off
       && r.landed[k.ticket] == c.data[k.off..k.off + k.len]
  }

  /** When a call returns, every byte has reached its device address, carried by the call's own commands. */
  lemma CopyToDelivers(alignment: nat, run: seq<State>, acts: seq<Action>, i: nat, a: nat, p: nat) returns (j: nat)
    requires IsRun(alignment, run, acts) && i < |run| && a < |run[i].calls| && run[i].calls[a].pc.Done?
    requires p < |run[i].calls[a].data|
    ensures Arrived(run[i].ring, run[i].calls[a], a, p, j)
  {
    RunInv(alignment, run, acts, i);
    TicketsAreOwn(alignment, run, acts, i);
    var s := run[i];
    hide IsRun;
    assert CallInv(s.ring, s.slots, s.calls[a]);
    var c, r := s.calls[a], s.ring;
    j := ChunkOf(c.sent, c.off, p);
    assert ChunkOk(r, c, c.sent[j]);
  }

  /** Consecutive chunks starting at 0 and ending at `off` cover every position below `off`. */
  lemma {:induction false} ChunkOf(sent: seq<Chunk>, off: nat, p: nat) returns (j: nat)
    requires p < off && sent != [] && sent[0].off == 0 && sent[|sent| - 1].off + sent[|sent| - 1].len == off
    requires forall i | 0 <= i < |sent| - 1 :: sent[i].off + sent[i].len == sent[i + 1].off
    ensures j < |sent| && sent[j].off <= p < sent[j].off + sent[j].len
  {
    var n := |sent| - 1;
    if sent[n].off <= p {
      j := n;
    } else {
      assert n > 0;
      assert sent[n - 1].off + sent[n - 1].len == sent[n - 1 + 1].off;
      j := ChunkOf(sent[..n], sent[n].off, p);
    }
  }

  /** Call `a` is the one begun when `a` calls were there, with the address and the data its caller gave; it is
   *  turned away exactly if that address is not a multiple of the engine's alignment. */
  lemma {:induction false} TurnedAwayIff(alignment: nat, run: seq<State>, acts: seq<Action>, i: nat, a: nat)
    returns (k: nat)
    requires IsRun(alignment, run, acts) && i < |run| && a < |run[i].calls|
    ensures k < i && acts[k] == Begin(run[i].calls[a].addr, run[i].calls[a].data) && |run[k].calls| == a
    ensures run[i].calls[a].pc.Misaligned? <==> run[i].calls[a].addr % alignment != 0
    decreases i
  {
    hide Apply, Enabled;
    assert i > 0;
    assert run[i - 1 + 1] == Apply(alignment, run[i - 1], acts[i - 1]);
    ArgsStay(alignment, run[i - 1], acts[i - 1], a);
    if a < |run[i - 1].calls| {
      k := TurnedAwayIff(alignment, run, acts, i - 1, a);
    } else {
      k := i - 1;
    }
  }

  /** A step keeps the arguments of a call and whether it has been turned away; only `Begin` adds a call. */
  lemma ArgsStay(alignment: nat, s: State, act: Action, a: nat)
    requires alignment > 0 && Enabled(s, act) && a < |Apply(alignment, s, act).calls|
    ensures var c' := Apply(alignment, s, act).calls[a];
      if a < |s.calls| then
        && c'.addr == s.calls[a].addr && c'.data == s.calls[a].data
        && c'.pc.Misaligned? == s.calls[a].pc.Misaligned?
      else
        a == |s.calls| && act == Begin(c'.addr, c'.data) && (c'.pc.Misaligned? <==> c'.addr % alignment != 0)
  {
    if act.Step? {
      OthersStay(s, act.call);
      if act.call != a { hide StepCall; }
    }
  }

  /** Each chunk is as long as the caller's data and the 256 KiB buffer allow, and `last` is the last ticket. */
  predicate CutWell(c: Call) {
    && c.off <= |c.data|
    && (Holding(c.pc) ==> c.pc.n == Min(|c.data| - c.off, 0x4_0000))
    && (forall k | k in c.sent :: k.off <= |c.data| && k.len == Min(|c.data| - k.off, 0x4_0000))
    && (!Holding(c.pc) && c.sent != [] ==> c.last == c.sent[|c.sent| - 1].ticket)
  }

  lemma CutWellStep(s: State, i: nat)
    requires Enabled(s, Step(i)) && CutWell(s.calls[i]) && PcInv(s.ring, s.slots, s.calls[i])
    ensures StepCall(s, i).calls == s.calls[i := StepCall(s, i).calls[i]] && CutWell(StepCall(s, i).calls[i])
  {
    hide Carries, ChunkOk;
  }

  lemma {:induction false} ChunksCutWell(alignment: nat, run: seq<State>, acts: seq<Action>, i: nat, a: nat)
    requires IsRun(alignment, run, acts) && i < |run| && a < |run[i].calls|
    ensures CutWell(run[i].calls[a])
    decreases i
  {
    if i > 0 {
      assert run[i - 1 + 1] == Apply(alignment, run[i - 1], acts[i - 1]);
      if a < |run[i - 1].calls| {
        ChunksCutWell(alignment, run, acts, i - 1, a);
        RunInv(alignment, run, acts, i - 1);
        var s, act := run[i - 1], acts[i - 1];
        hide IsRun, CutWell;
        if act == Step(a) {
          assert CallInv(s.ring, s.slots, s.calls[a]);
          CutWellStep(s, a);
        } else if act.Step? {
          OthersStay(s, act.call);
        }
      }
    }
  }

  lemma OthersStay(s: State, i: nat)
    requires Enabled(s, Step(i))
    ensures |StepCall(s, i).calls| == |s.calls|
    ensures forall j | 0 <= j < |s.calls| && j != i :: StepCall(s, i).calls[j] == s.calls[j]
  {
  }

  /** When a caller can move: before filling its slot, exactly if its ticket is less than 16 above the interrupt
   *  counter; before writing its command, exactly if all earlier commands are counted; before returning, exactly
   *  if the interrupt of its last chunk has been counted. */
  lemma WaitsExactly(alignment: nat, run: seq<State>, acts: seq<Action>, i: nat, a: nat)
    requires IsRun(alignment, run, acts) && i < |run| && a < |run[i].calls|
    ensures var r, c := run[i].ring, run[i].calls[a];
      Enabled(run[i], Step(a)) <==>
        match c.pc
        case Gate(t, _) => t - r.processed < 16
        case WaitTurn(t, _) => t == r.enqueued
        case FinalWait => if c.sent == [] then r.processed > 0 else c.sent[|c.sent| - 1].ticket < r.processed
        case Done => false
        case Misaligned => false
        case _ => true
  {
    RunInv(alignment, run, acts, i);
    ChunksCutWell(alignment, run, acts, i, a);
    var s := run[i];
    hide IsRun;
    assert CallInv(s.ring, s.slots, s.calls[a]);
  }

  // ---- Progress ----

  predicate Returned(pc: Pc) {
    pc.Done? || pc.Misaligned?
  }

  /** An empty transfer waits for a counter above zero although it sent nothing. */
  predicate EmptyWaits(s: State, i: nat) {
    i < |s.calls| && s.calls[i].pc.FinalWait? && s.calls[i].data == [] && s.ring.processed == 0
  }

  /** The ring never locks up: some caller or the engine can move, or every caller that has not returned is an
   *  empty transfer waiting for the first interrupt ever. */
  lemma NoDeadlock(alignment: nat, run: seq<State>, acts: seq<Action>, i: nat)
    requires IsRun(alignment, run, acts) && i < |run|
    ensures
      || (exists a: Action :: !a.Begin? && Enabled(run[i], a))
      || (forall k: nat | k < |run[i].calls| && !Returned(run[i].calls[k].pc) :: EmptyWaits(run[i], k))
  {
    RunInv(alignment, run, acts, i);
    var s := run[i];
    hide IsRun;
    var r := s.ring;
    if |r.landed| < |r.cmds| {
      assert Carries(s.slots, |r.landed|, r.cmds[|r.landed|].data);
      assert Enabled(s, Complete);
    } else if r.processed < |r.landed| {
      assert Enabled(s, Interrupt);
    } else if r.enqueued < r.requested {
      OldestMoves(s);
      assert Enabled(s, Step(r.owner[r.enqueued]));
    } else {
      hide Inv, Enabled, EmptyWaits;
      forall k: nat | k < |s.calls| && !Returned(s.calls[k].pc) ensures Enabled(s, Step(k)) || EmptyWaits(s, k) {
        IdleMoves(s, k);
      }
    }
  }

  /** With the engine idle, the caller of the oldest ticket can move. */
  lemma OldestMoves(s: State)
    requires Inv(s) && s.ring.processed == |s.ring.cmds| && s.ring.enqueued < s.ring.requested
    ensures |s.ring.owner| == s.ring.requested && Enabled(s, Step(s.ring.owner[s.ring.enqueued]))
  {
    var r := s.ring;
    assert Held(r, s.calls, r.enqueued);
    assert CallInv(r, s.slots, s.calls[r.owner[r.enqueued]]);
  }

  /** With no ticket outstanding, any unfinished caller can move, or it is an empty transfer. */
  lemma IdleMoves(s: State, k: nat)
    requires Inv(s) && s.ring.processed == |s.ring.cmds| && s.ring.enqueued == s.ring.requested
    requires k < |s.calls| && !Returned(s.calls[k].pc)
    ensures Enabled(s, Step(k)) || EmptyWaits(s, k)
  {
    assert CallInv(s.ring, s.slots, s.calls[k]);
  }

  // Every step but the arrival of a new caller uses up some of a finite amount of work.

  function PcRank(pc: Pc): nat {
    match pc
    case Request => 12
    case Gate(_, _) => 11
    case Fill(_, _) => 10
    case WaitTurn(_, _) => 9
    case WriteCmd(_, _) => 8
    case Bump(_, _) => 4
    case FinalWait => 1
    case Done => 0
    case Misaligned => 0
  }

  function CallRank(c: Call): int {
    20 * (|c.data| - c.off) + PcRank(c.pc)
  }

  function CallsRank(calls: seq<Call>): int {
    if calls == [] then 0 else CallRank(calls[0]) + CallsRank(calls[1..])
  }

  function EngineRank(r: Ring): int {
    2 * (|r.cmds| - |r.landed|) + |r.landed| - r.processed
  }

  function Work(s: State): int {
    CallsRank(s.calls) + EngineRank(s.ring)
  }

  lemma {:induction false} RankUpdate(calls: seq<Call>, i: nat, c: Call)
    requires i < |calls|
    ensures CallsRank(calls[i := c]) == CallsRank(calls) - CallRank(calls[i]) + CallRank(c)
  {
    if i > 0 {
      assert calls[i := c][1..] == calls[1..][i - 1 := c];
      RankUpdate(calls[1..], i - 1, c);
    }
  }

  lemma {:induction false} RankNonNegative(calls: seq<Call>)
    requires forall i | 0 <= i < |calls| :: calls[i].off <= |calls[i].data|
    ensures CallsRank(calls) >= 0
  {
    if calls != [] { RankNonNegative(calls[1..]); }
  }

  lemma WorkNonNegative(s: State)
    requires Inv(s)
    ensures Work(s) >= 0
  {
    forall i | 0 <= i < |s.calls| ensures s.calls[i].off <= |s.calls[i].data| {
      assert CallInv(s.ring, s.slots, s.calls[i]);
    }
    RankNonNegative(s.calls);
  }

  lemma CallerUsesWork(s: State, i: nat)
    requires Enabled(s, Step(i)) && CallInv(s.ring, s.slots, s.calls[i])
    ensures var s' := StepCall(s, i);
      && |s'.calls| == |s.calls| && s'.calls == s.calls[i := s'.calls[i]]
      && CallRank(s'.calls[i]) + EngineRank(s'.ring) < CallRank(s.calls[i]) + EngineRank(s.ring)
  {
    hide SentInv, Carries, ChunkOk;
  }

  lemma StepUsesWork(alignment: nat, s: State, a: Action)
    requires alignment > 0 && Inv(s) && Enabled(s, a) && !a.Begin?
    ensures Work(Apply(alignment, s, a)) < Work(s)
  {
    if a.Step? {
      assert CallInv(s.ring, s.slots, s.calls[a.call]);
      hide Inv, CallInv, StepCall, CallRank, EngineRank;
      CallerUsesWork(s, a.call);
      RankUpdate(s.calls, a.call, StepCall(s, a.call).calls[a.call]);
    }
  }

  /** Once callers stop arriving, a run takes no more steps than the work that is left. */
  lemma {:induction false} RunsEnd(alignment: nat, run: seq<State>, acts: seq<Action>, i: nat, j: nat)
    requires IsRun(alignment, run, acts) && i <= j < |run|
    requires forall k | i <= k < j :: !acts[k].Begin?
    ensures j - i <= Work(run[i]) - Work(run[j])
    ensures Work(run[j]) >= 0
    decreases j
  {
    RunInv(alignment, run, acts, j);
    WorkNonNegative(run[j]);
    if i < j {
      RunsEnd(alignment, run, acts, i, j - 1);
      RunInv(alignment, run, acts, j - 1);
      assert run[j - 1 + 1] == Apply(alignment, run[j - 1], acts[j - 1]);
      hide Inv, Apply, Work;
      StepUsesWork(alignment, run[j - 1], acts[j - 1]);
    }
  }
}
