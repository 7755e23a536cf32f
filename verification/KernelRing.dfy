/** The kernel's write path: a ring of 16 bounce buffers driven by three ticket counters.
 *
 *  Any number of callers run `tlkm_dma_copy_to` at once.  A caller draws a ticket from `wq_requested`,
 *  waits until fewer than 16 transfers separate it from `wq_processed`, fills slot `ticket % 16`, waits
 *  for its turn (`wq_enqueued` equals its ticket), writes the command, and only then increments
 *  `wq_enqueued`.  The engine finishes commands in order and the interrupt handler increments
 *  `wq_processed`.  Writing the command and incrementing the counter are separate steps, so the
 *  interrupt of a command may come first.
 */
module KernelRing {

  import opened Common
  import opened Dma

  const SLOTS := 16
  const CHUNK_SIZE := 262144

  datatype Cmd = Cmd(slot: int, addr: nat, data: seq<Byte>)

  /** Where a caller is; `t` is its ticket and `n` the size of the chunk. */
  datatype Pc =
    | Request
    | Gate(t: nat, n: nat)
    | Fill(t: nat, n: nat)
    | WaitTurn(t: nat, n: nat)
    | WriteCmd(t: nat, n: nat)
    | Bump(t: nat, n: nat)
    | FinalWait
    | Done
    | Misaligned

  datatype Call = Call(addr: nat, data: seq<Byte>, off: nat, last: nat, pc: Pc, sent: seq<Chunk>)

  /** `cmds`, `landed` and `owner` are histories: the commands written, the bytes the engine read for each
   *  finished one, and the caller that drew each ticket. */
  datatype Ring = Ring(requested: nat, enqueued: nat, processed: nat, cmds: seq<Cmd>, landed: seq<seq<Byte>>,
      owner: seq<nat>)

  datatype State = State(ring: Ring, slots: seq<seq<Byte>>, calls: seq<Call>) {
    function SetCall(i: nat, c: Call): State
      requires i < |calls|
    {
      this.(calls := calls[i := c])
    }
  }

  datatype Action = Begin(addr: nat, data: seq<Byte>) | Step(call: nat) | Complete | Interrupt

  predicate Init(s: State) {
    && s.ring == Ring(0, 0, 0, [], [], [])
    && |s.slots| == SLOTS
    && (forall i | 0 <= i < SLOTS :: |s.slots[i]| == CHUNK_SIZE)
    && s.calls == []
  }

  function Slot(t: nat): int {
    t % SLOTS
  }

  predicate Enabled(s: State, a: Action) {
    match a
    case Begin(_, _) => true
    case Complete =>
      && |s.ring.landed| < |s.ring.cmds|
      && var x := s.ring.cmds[|s.ring.landed|];
         0 <= x.slot < |s.slots| && |x.data| <= |s.slots[x.slot]|
    case Interrupt => s.ring.processed < |s.ring.landed|
    case Step(i) =>
      && i < |s.calls|
      && var c := s.calls[i];
         match c.pc
         case Gate(t, _) => s.ring.processed + SLOTS > t
         case Fill(t, n) => Slot(t) < |s.slots| && n <= |s.slots[Slot(t)]| && c.off + n <= |c.data|
         case WaitTurn(t, _) => s.ring.enqueued == t
         case WriteCmd(_, n) => c.off + n <= |c.data|
         case FinalWait => s.ring.processed > c.last
         case Done => false
         case Misaligned => false
         case _ => true
  }

  function StepCall(s: State, i: nat): State
    requires Enabled(s, Step(i))
  {
    var c := s.calls[i];
    var r := s.ring;
    match c.pc
    case Request =>
      if c.off < |c.data| then
        s.(ring := r.(requested := r.requested + 1, owner := r.owner + [i]))
         .SetCall(i, c.(last := r.requested, pc := Gate(r.requested, Min(|c.data| - c.off, CHUNK_SIZE))))
      else
        s.SetCall(i, c.(pc := FinalWait))
    case Gate(t, n) => s.SetCall(i, c.(pc := Fill(t, n)))
    case Fill(t, n) =>
      s.(slots := s.slots[Slot(t) := c.data[c.off..c.off + n] + s.slots[Slot(t)][n..]])
       .SetCall(i, c.(pc := WaitTurn(t, n)))
    case WaitTurn(t, n) => s.SetCall(i, c.(pc := WriteCmd(t, n)))
    case WriteCmd(t, n) =>
      s.(ring := r.(cmds := r.cmds + [Cmd(Slot(t), c.addr + c.off, c.data[c.off..c.off + n])]))
       .SetCall(i, c.(pc := Bump(t, n)))
    case Bump(t, n) =>
      s.(ring := r.(enqueued := r.enqueued + 1))
       .SetCall(i, c.(pc := Request, off := c.off + n, sent := c.sent + [Chunk(t, c.off, n)]))
    case FinalWait => s.SetCall(i, c.(pc := Done))
  }

  /** A caller is turned away at once when its device address is not aligned for the engine. */
  function Apply(alignment: nat, s: State, a: Action): State
    requires alignment > 0 && Enabled(s, a)
  {
    match a
    case Begin(addr, data) =>
      s.(calls := s.calls + [Call(addr, data, 0, 0, if addr % alignment != 0 then Misaligned else Request, [])])
    case Step(i) => StepCall(s, i)
    case Complete =>
      var x := s.ring.cmds[|s.ring.landed|];
      s.(ring := s.ring.(landed := s.ring.landed + [s.slots[x.slot][..|x.data|]]))
    case Interrupt => s.(ring := s.ring.(processed := s.ring.processed + 1))
  }

  // ---- The invariant ----

  /** The caller has drawn a ticket and not yet counted its command. */
  predicate Holding(pc: Pc) {
    pc.Gate? || pc.Fill? || pc.WaitTurn? || pc.WriteCmd? || pc.Bump?
  }

  predicate PastGate(pc: Pc) {
    pc.Fill? || pc.WaitTurn? || pc.WriteCmd? || pc.Bump?
  }

  /** Ticket `k` is in the hands of the caller that drew it. */
  predicate Held(r: Ring, calls: seq<Call>, k: nat)
    requires k < |r.owner|
  {
    r.owner[k] < |calls| && Holding(calls[r.owner[k]].pc) && calls[r.owner[k]].pc.t == k
  }

  /** Every ticket drawn and not yet counted has exactly one holder; the command being counted is the oldest. */
  ghost predicate TicketInv(r: Ring, calls: seq<Call>) {
    && |r.owner| == r.requested
    && r.enqueued <= r.requested
    && (forall k | r.enqueued <= k < r.requested :: Held(r, calls, k))
    && (forall i | 0 <= i < |calls| && Holding(calls[i].pc) ::
          r.enqueued <= calls[i].pc.t < r.requested && r.owner[calls[i].pc.t] == i)
    && (forall i | 0 <= i < |calls| && (calls[i].pc.WriteCmd? || calls[i].pc.Bump?) :: calls[i].pc.t == r.enqueued)
  }

  /** The oldest ticket's command is written but not counted. */
  predicate Bumping(r: Ring, calls: seq<Call>) {
    r.enqueued < |r.owner| && r.owner[r.enqueued] < |calls| && calls[r.owner[r.enqueued]].pc.Bump?
  }

  /** Commands are written in ticket order, each within 16 tickets of the interrupt counter. */
  ghost predicate CmdInv(r: Ring, bumping: bool) {
    && |r.cmds| == r.enqueued + (if bumping then 1 else 0)
    && r.processed <= |r.landed| <= |r.cmds|
    && forall k | 0 <= k < |r.cmds| :: r.cmds[k].slot == Slot(k) && k < r.processed + SLOTS
  }

  ghost predicate SlotsInv(slots: seq<seq<Byte>>) {
    |slots| == SLOTS && forall i | 0 <= i < SLOTS :: |slots[i]| == CHUNK_SIZE
  }

  ghost predicate Carries(slots: seq<seq<Byte>>, k: nat, data: seq<Byte>) {
    0 <= Slot(k) < |slots| && |data| <= |slots[Slot(k)]| && slots[Slot(k)][..|data|] == data
  }

  /** What landed is what was meant to be sent; what is in flight is still in its slot. */
  ghost predicate DataInv(r: Ring, slots: seq<seq<Byte>>) {
    && |r.landed| <= |r.cmds|
    && (forall k | 0 <= k < |r.landed| :: r.landed[k] == r.cmds[k].data)
    && (forall k | |r.landed| <= k < |r.cmds| :: Carries(slots, k, r.cmds[k].data))
  }

  predicate ChunkOk(r: Ring, c: Call, k: Chunk) {
    && k.ticket < |r.cmds|
    && k.off + k.len <= |c.data|
    && r.cmds[k.ticket].data == c.data[k.off..k.off + k.len]
    && r.cmds[k.ticket].addr == c.addr + k.off
  }

  /** The chunks counted so far cut `data[..off]` into consecutive pieces in ticket order. */
  ghost predicate SentInv(r: Ring, c: Call) {
    && c.off <= |c.data|
    && (forall i | 0 <= i < |c.sent| :: ChunkOk(r, c, c.sent[i]) && c.sent[i].ticket < r.enqueued)
    && (forall i | 0 <= i < |c.sent| - 1 :: c.sent[i].off + c.sent[i].len == c.sent[i + 1].off)
    && (forall i | 0 <= i < |c.sent| :: c.sent[i].ticket <= c.last)
    && (c.sent == [] ==> c.off == 0)
    && (c.sent != [] ==> c.sent[0].off == 0 && c.sent[|c.sent| - 1].off + c.sent[|c.sent| - 1].len == c.off)
  }

  ghost predicate PcInv(r: Ring, slots: seq<seq<Byte>>, c: Call) {
    && (Holding(c.pc) ==> c.last == c.pc.t && c.off + c.pc.n <= |c.data| && 1 <= c.pc.n <= CHUNK_SIZE)
    && (PastGate(c.pc) ==> c.pc.t < r.processed + SLOTS)
    && (c.pc.WaitTurn? || c.pc.WriteCmd? ==> Carries(slots, c.pc.t, c.data[c.off..c.off + c.pc.n]))
    && (c.pc.Bump? ==> ChunkOk(r, c, Chunk(c.pc.t, c.off, c.pc.n)))
    && (c.pc.FinalWait? || c.pc.Done? ==> c.off == |c.data|)
    && (c.pc.Done? ==> c.last < r.processed)
    && (!Holding(c.pc) && c.sent != [] ==> c.last < r.enqueued)
    && (!Holding(c.pc) && c.sent == [] ==> c.last == 0)
  }

  ghost predicate CallInv(r: Ring, slots: seq<seq<Byte>>, c: Call) {
    SentInv(r, c) && PcInv(r, slots, c)
  }

  ghost predicate Inv(s: State) {
    && TicketInv(s.ring, s.calls)
    && CmdInv(s.ring, Bumping(s.ring, s.calls))
    && SlotsInv(s.slots)
    && DataInv(s.ring, s.slots)
    && (forall i | 0 <= i < |s.calls| :: CallInv(s.ring, s.slots, s.calls[i]))
  }

  // ---- Tickets ----

  /** Two tickets within 16 of each other use different slots. */
  lemma SlotsDiffer(p: nat, a: nat, b: nat)
    requires p <= a < p + SLOTS && p <= b < p + SLOTS && a != b
    ensures Slot(a) != Slot(b)
  {
    assert a == SLOTS * (a / SLOTS) + Slot(a) && b == SLOTS * (b / SLOTS) + Slot(b);
  }

  /** A ticket whose command is not written yet lies at or above the number of commands. */
  lemma Unwritten(s: State, i: nat)
    requires TicketInv(s.ring, s.calls) && CmdInv(s.ring, Bumping(s.ring, s.calls))
    requires i < |s.calls| && Holding(s.calls[i].pc) && !s.calls[i].pc.Bump?
    ensures |s.ring.cmds| <= s.calls[i].pc.t
  {
  }

  lemma TicketBounds(r: Ring, calls: seq<Call>)
    requires TicketInv(r, calls)
    ensures |r.owner| == r.requested && r.enqueued <= r.requested
  {
  }

  lemma HoldersDiffer(r: Ring, calls: seq<Call>, i: nat, j: nat)
    requires TicketInv(r, calls) && i < |calls| && j < |calls| && i != j && Holding(calls[i].pc) && Holding(calls[j].pc)
    ensures calls[i].pc.t != calls[j].pc.t
  {
  }

  /** A caller that moves without drawing or dropping a ticket keeps the tickets in order. */
  lemma TicketSame(r: Ring, r': Ring, calls: seq<Call>, i: nat, c': Call)
    requires TicketInv(r, calls) && i < |calls|
    requires r'.requested == r.requested && r'.enqueued == r.enqueued && r'.owner == r.owner
    requires Holding(c'.pc) == Holding(calls[i].pc)
    requires Holding(c'.pc) ==> c'.pc.t == calls[i].pc.t
    requires c'.pc.WriteCmd? || c'.pc.Bump? ==> c'.pc.t == r.enqueued
    ensures TicketInv(r', calls[i := c'])
    ensures c'.pc.Bump? == calls[i].pc.Bump? ==> Bumping(r', calls[i := c']) == Bumping(r, calls)
    ensures c'.pc.Bump? ==> Bumping(r', calls[i := c'])
    ensures calls[i].pc.WriteCmd? ==> !Bumping(r, calls)
  {
    var calls' := calls[i := c'];
    forall k | r.enqueued <= k < r.requested ensures Held(r', calls', k) {
      assert Held(r, calls, k);
    }
    if Holding(calls[i].pc) { assert r.owner[calls[i].pc.t] == i; }
  }

  lemma SentGrows(r: Ring, r': Ring, c: Call)
    requires SentInv(r, c) && r.cmds <= r'.cmds && r.enqueued <= r'.enqueued
    ensures SentInv(r', c)
  {
    forall i | 0 <= i < |c.sent| ensures ChunkOk(r', c, c.sent[i]) {
      assert ChunkOk(r, c, c.sent[i]);
    }
  }

  predicate Grown(r: Ring, r': Ring) {
    r.cmds <= r'.cmds && r.enqueued <= r'.enqueued && r.processed <= r'.processed
  }

  /** A caller that does not move keeps its invariant if its slot is left alone. */
  lemma IdleCall(r: Ring, r': Ring, slots: seq<seq<Byte>>, slots': seq<seq<Byte>>, c: Call)
    requires CallInv(r, slots, c) && Grown(r, r')
    requires c.pc.WaitTurn? || c.pc.WriteCmd? ==>
      |slots'| == |slots| && 0 <= Slot(c.pc.t) < |slots| && slots'[Slot(c.pc.t)] == slots[Slot(c.pc.t)]
    ensures CallInv(r', slots', c)
  {
    hide SentInv;
    SentGrows(r, r', c);
  }

  /** All callers but `i` keep their invariant when the slots stay as they are. */
  lemma OtherCalls(s: State, s': State, i: nat)
    requires i < |s.calls| && |s'.calls| == |s.calls| && s'.calls == s.calls[i := s'.calls[i]]
    requires forall j | 0 <= j < |s.calls| :: CallInv(s.ring, s.slots, s.calls[j])
    requires Grown(s.ring, s'.ring) && s'.slots == s.slots && SlotsInv(s.slots)
    requires CallInv(s'.ring, s'.slots, s'.calls[i])
    ensures forall j | 0 <= j < |s'.calls| :: CallInv(s'.ring, s'.slots, s'.calls[j])
  {
    hide CallInv;
    forall j | 0 <= j < |s'.calls| ensures CallInv(s'.ring, s'.slots, s'.calls[j]) {
      if j != i { IdleCall(s.ring, s'.ring, s.slots, s'.slots, s.calls[j]); }
    }
  }

  lemma SentPc(r: Ring, c: Call, pc: Pc)
    requires SentInv(r, c)
    ensures SentInv(r, c.(pc := pc))
  {
    forall i | 0 <= i < |c.sent| ensures ChunkOk(r, c.(pc := pc), c.sent[i]) {
      assert ChunkOk(r, c, c.sent[i]);
    }
  }

  // ---- Every step keeps the invariant ----

  lemma RequestInv(s: State, i: nat)
    requires Inv(s) && Enabled(s, Step(i)) && s.calls[i].pc.Request?
    ensures Inv(StepCall(s, i))
  {
    hide TicketInv, CmdInv, SlotsInv, DataInv, CallInv;
    var s' := StepCall(s, i);
    var c, c' := s.calls[i], s'.calls[i];
    TicketBounds(s.ring, s.calls);
    RequestOwn(s.ring, s'.ring, s.slots, c, c');
    if c.off < |c.data| {
      RequestTicket(s, i, c');
      RequestCmd(s.ring, s'.ring, Bumping(s.ring, s.calls));
      RequestData(s.ring, s'.ring, s.slots);
    } else {
      TicketSame(s.ring, s'.ring, s.calls, i, c');
    }
    OtherCalls(s, s', i);
  }

  lemma RequestOwn(r: Ring, r': Ring, slots: seq<seq<Byte>>, c: Call, c': Call)
    requires CallInv(r, slots, c) && c.pc.Request? && r'.cmds == r.cmds && r'.enqueued == r.enqueued
        && r'.processed == r.processed
    requires r.enqueued <= r.requested
    requires if c.off < |c.data|
        then c' == c.(last := r.requested, pc := Gate(r.requested, Min(|c.data| - c.off, CHUNK_SIZE)))
             else c' == c.(pc := FinalWait)
    ensures CallInv(r', slots, c')
  {
    forall j | 0 <= j < |c.sent| ensures ChunkOk(r', c', c'.sent[j]) {
      assert ChunkOk(r, c, c.sent[j]);
    }
  }

  lemma RequestTicket(s: State, i: nat, c': Call)
    requires TicketInv(s.ring, s.calls) && i < |s.calls| && s.calls[i].pc.Request? && c'.pc.Gate?
        && c'.pc.t == s.ring.requested
    ensures var r' := s.ring.(requested := s.ring.requested + 1, owner := s.ring.owner + [i]);
      TicketInv(r', s.calls[i := c']) && Bumping(r', s.calls[i := c']) == Bumping(s.ring, s.calls)
  {
    var r, calls' := s.ring, s.calls[i := c'];
    var r' := r.(requested := r.requested + 1, owner := r.owner + [i]);
    forall k | r'.enqueued <= k < r'.requested ensures Held(r', calls', k) {
      if k < r.requested { assert Held(r, s.calls, k); }
    }
  }

  lemma RequestCmd(r: Ring, r': Ring, bumping: bool)
    requires CmdInv(r, bumping) && r' == r.(requested := r'.requested, owner := r'.owner)
    ensures CmdInv(r', bumping)
  {
  }

  lemma RequestData(r: Ring, r': Ring, slots: seq<seq<Byte>>)
    requires DataInv(r, slots) && r'.cmds == r.cmds && r'.landed == r.landed
    ensures DataInv(r', slots)
  {
  }

  /** Passing the gate, taking the turn, and returning. */
  lemma WaitInv(s: State, i: nat)
    requires Inv(s) && Enabled(s, Step(i))
    requires s.calls[i].pc.Gate? || s.calls[i].pc.WaitTurn? || s.calls[i].pc.FinalWait?
    ensures Inv(StepCall(s, i))
  {
    hide TicketInv, CmdInv, SlotsInv, DataInv, CallInv, Bumping;
    var s' := StepCall(s, i);
    WaitOwn(s.ring, s.slots, s.calls[i], s'.calls[i].pc);
    TicketSame(s.ring, s'.ring, s.calls, i, s'.calls[i]);
    OtherCalls(s, s', i);
  }

  lemma WaitOwn(r: Ring, slots: seq<seq<Byte>>, c: Call, pc: Pc)
    requires CallInv(r, slots, c)
    requires match c.pc
      case Gate(t, n) => r.processed + SLOTS > t && pc == Fill(t, n)
      case WaitTurn(t, n) => pc == WriteCmd(t, n)
      case FinalWait => r.processed > c.last && pc == Done
      case _ => false
    ensures CallInv(r, slots, c.(pc := pc))
  {
    hide SentInv;
    SentPc(r, c, pc);
  }

  /** Filling slot `t % 16` leaves alone every slot the engine has yet to read and every slot another
   *  caller has filled. */
  lemma FillInv(s: State, i: nat)
    requires Inv(s) && Enabled(s, Step(i)) && s.calls[i].pc.Fill?
    ensures Inv(StepCall(s, i))
  {
    hide TicketInv, CmdInv, SlotsInv, DataInv, CallInv, Bumping;
    var s' := StepCall(s, i);
    var c, c' := s.calls[i], s'.calls[i];
    FillOwn(s.ring, s.slots, s'.slots, c, c');
    FillSlots(s.slots, Slot(c.pc.t), s'.slots);
    FillData(s, i, s'.slots);
    TicketSame(s.ring, s'.ring, s.calls, i, c');
    forall j | 0 <= j < |s'.calls| ensures CallInv(s'.ring, s'.slots, s'.calls[j]) {
      if j != i {
        FillOther(s, i, j, s'.slots);
      }
    }
  }

  lemma FillOwn(r: Ring, slots: seq<seq<Byte>>, slots': seq<seq<Byte>>, c: Call, c': Call)
    requires CallInv(r, slots, c) && c.pc.Fill? && 0 <= Slot(c.pc.t) < |slots|
    requires c.pc.n <= |slots[Slot(c.pc.t)]| && c.off + c.pc.n <= |c.data|
    requires slots' == slots[Slot(c.pc.t) := c.data[c.off..c.off + c.pc.n] + slots[Slot(c.pc.t)][c.pc.n..]]
    requires c' == c.(pc := WaitTurn(c.pc.t, c.pc.n))
    ensures CallInv(r, slots', c')
  {
    hide SentInv;
    SentPc(r, c, c'.pc);
    assert slots'[Slot(c.pc.t)][..c.pc.n] == c.data[c.off..c.off + c.pc.n];
  }

  lemma FillSlots(slots: seq<seq<Byte>>, k: int, slots': seq<seq<Byte>>)
    requires SlotsInv(slots) && 0 <= k < |slots| && |slots'| == |slots| && slots' == slots[k := slots'[k]]
        && |slots'[k]| == |slots[k]|
    ensures SlotsInv(slots')
  {
  }

  lemma FillData(s: State, i: nat, slots': seq<seq<Byte>>)
    requires TicketInv(s.ring, s.calls) && CmdInv(s.ring, Bumping(s.ring, s.calls)) && DataInv(s.ring, s.slots)
    requires i < |s.calls| && s.calls[i].pc.Fill? && CallInv(s.ring, s.slots, s.calls[i])
    requires |slots'| == |s.slots| && forall k | 0 <= k < |slots'| && k != Slot(s.calls[i].pc.t) ::
        slots'[k] == s.slots[k]
    ensures DataInv(s.ring, slots')
  {
    hide TicketInv, SentInv, Bumping;
    var r, t := s.ring, s.calls[i].pc.t;
    Unwritten(s, i);
    forall k | |r.landed| <= k < |r.cmds| ensures Carries(slots', k, r.cmds[k].data) {
      assert Carries(s.slots, k, r.cmds[k].data);
      SlotsDiffer(r.processed, k, t);
    }
  }

  lemma FillOther(s: State, i: nat, j: nat, slots': seq<seq<Byte>>)
    requires TicketInv(s.ring, s.calls) && CmdInv(s.ring, Bumping(s.ring, s.calls)) && SlotsInv(s.slots)
    requires i < |s.calls| && s.calls[i].pc.Fill? && CallInv(s.ring, s.slots, s.calls[i])
    requires j < |s.calls| && i != j && CallInv(s.ring, s.slots, s.calls[j])
    requires |slots'| == |s.slots| && forall k | 0 <= k < |slots'| && k != Slot(s.calls[i].pc.t) ::
        slots'[k] == s.slots[k]
    ensures CallInv(s.ring, slots', s.calls[j])
  {
    hide TicketInv, SentInv, Bumping;
    if s.calls[j].pc.WaitTurn? || s.calls[j].pc.WriteCmd? {
      Unwritten(s, i);
      Unwritten(s, j);
      HoldersDiffer(s.ring, s.calls, i, j);
      SlotsDiffer(s.ring.processed, s.calls[i].pc.t, s.calls[j].pc.t);
    }
    hide CallInv;
    IdleCall(s.ring, s.ring, s.slots, slots', s.calls[j]);
  }

  lemma WriteInv(s: State, i: nat)
    requires Inv(s) && Enabled(s, Step(i)) && s.calls[i].pc.WriteCmd?
    ensures Inv(StepCall(s, i))
  {
    hide TicketInv, CmdInv, SlotsInv, DataInv, CallInv, Bumping;
    var s' := StepCall(s, i);
    var c, c' := s.calls[i], s'.calls[i];
    WriteTicket(s, i);
    WriteOwn(s.ring, s'.ring, s.slots, c, c');
    TicketSame(s.ring, s'.ring, s.calls, i, c');
    WriteRing(s.ring, s.slots, c);
    OtherCalls(s, s', i);
  }

  lemma WriteTicket(s: State, i: nat)
    requires TicketInv(s.ring, s.calls) && i < |s.calls| && s.calls[i].pc.WriteCmd?
        && CmdInv(s.ring, Bumping(s.ring, s.calls))
    ensures s.calls[i].pc.t == s.ring.enqueued == |s.ring.cmds|
  {
  }

  lemma WriteOwn(r: Ring, r': Ring, slots: seq<seq<Byte>>, c: Call, c': Call)
    requires CallInv(r, slots, c) && c.pc.WriteCmd? && c.pc.t == |r.cmds| && c.off + c.pc.n <= |c.data|
    requires r' == r.(cmds := r.cmds + [Cmd(Slot(c.pc.t), c.addr + c.off, c.data[c.off..c.off + c.pc.n])])
    requires c' == c.(pc := Bump(c.pc.t, c.pc.n))
    ensures CallInv(r', slots, c')
  {
    hide SentInv;
    SentPc(r, c, c'.pc);
    SentGrows(r, r', c');
  }

  lemma WriteRing(r: Ring, slots: seq<seq<Byte>>, c: Call)
    requires CmdInv(r, false) && DataInv(r, slots) && CallInv(r, slots, c) && c.pc.WriteCmd? && c.pc.t == |r.cmds|
    requires c.off + c.pc.n <= |c.data|
    ensures var r' := r.(cmds := r.cmds + [Cmd(Slot(c.pc.t), c.addr + c.off, c.data[c.off..c.off + c.pc.n])]);
      CmdInv(r', true) && DataInv(r', slots)
  {
    hide SentInv;
    var r' := r.(cmds := r.cmds + [Cmd(Slot(c.pc.t), c.addr + c.off, c.data[c.off..c.off + c.pc.n])]);
    forall k | |r'.landed| <= k < |r'.cmds| ensures Carries(slots, k, r'.cmds[k].data) {
      if k < |r.cmds| { assert Carries(slots, k, r.cmds[k].data); }
    }
  }

  lemma BumpInv(s: State, i: nat)
    requires Inv(s) && Enabled(s, Step(i)) && s.calls[i].pc.Bump?
    ensures Inv(StepCall(s, i))
  {
    hide TicketInv, CmdInv, SlotsInv, DataInv, CallInv, Bumping;
    var s' := StepCall(s, i);
    BumpTicket(s, i, s'.calls[i]);
    BumpOwn(s.ring, s'.ring, s.slots, s.calls[i], s'.calls[i]);
    BumpCmd(s.ring);
    RequestData(s.ring, s'.ring, s.slots);
    OtherCalls(s, s', i);
  }

  lemma BumpTicket(s: State, i: nat, c': Call)
    requires TicketInv(s.ring, s.calls) && i < |s.calls| && s.calls[i].pc.Bump? && c'.pc.Request?
    ensures s.calls[i].pc.t == s.ring.enqueued && Bumping(s.ring, s.calls)
    ensures var r' := s.ring.(enqueued := s.ring.enqueued + 1);
      TicketInv(r', s.calls[i := c']) && !Bumping(r', s.calls[i := c'])
  {
    var r, calls' := s.ring, s.calls[i := c'];
    var r' := r.(enqueued := r.enqueued + 1);
    forall k | r'.enqueued <= k < r'.requested ensures Held(r', calls', k) {
      assert Held(r, s.calls, k);
    }
    if r'.enqueued < r'.requested {
      assert Held(r, s.calls, r'.enqueued);
    }
  }

  lemma BumpOwn(r: Ring, r': Ring, slots: seq<seq<Byte>>, c: Call, c': Call)
    requires CallInv(r, slots, c) && c.pc.Bump? && c.pc.t == r.enqueued && r' == r.(enqueued := r.enqueued + 1)
    requires c' == c.(pc := Request, off := c.off + c.pc.n, sent := c.sent + [Chunk(c.pc.t, c.off, c.pc.n)])
    ensures CallInv(r', slots, c')
  {
    forall j | 0 <= j < |c'.sent| ensures ChunkOk(r', c', c'.sent[j]) {
      if j < |c.sent| { assert ChunkOk(r, c, c.sent[j]); }
    }
  }

  lemma BumpCmd(r: Ring)
    requires CmdInv(r, true)
    ensures CmdInv(r.(enqueued := r.enqueued + 1), false)
  {
  }

  lemma EngineInv(s: State, a: Action)
    requires Inv(s) && Enabled(s, a) && (a.Complete? || a.Interrupt?)
    ensures Inv(Apply(1, s, a))
  {
    hide TicketInv, CmdInv, DataInv, CallInv, Bumping;
    var s' := Apply(1, s, a);
    EngineTicket(s.ring, s'.ring, s.calls);
    if a.Complete? { CompleteRing(s.ring, s'.ring, s.slots, Bumping(s.ring, s.calls)); }
    else { InterruptRing(s.ring, s.slots, Bumping(s.ring, s.calls)); }
    forall j | 0 <= j < |s'.calls| ensures CallInv(s'.ring, s'.slots, s'.calls[j]) {
      IdleCall(s.ring, s'.ring, s.slots, s'.slots, s.calls[j]);
    }
  }

  lemma EngineTicket(r: Ring, r': Ring, calls: seq<Call>)
    requires TicketInv(r, calls) && r' == r.(processed := r'.processed, landed := r'.landed)
    ensures TicketInv(r', calls) && Bumping(r', calls) == Bumping(r, calls)
  {
    forall k | r.enqueued <= k < r.requested ensures Held(r', calls, k) {
      assert Held(r, calls, k);
    }
  }

  lemma CompleteRing(r: Ring, r': Ring, slots: seq<seq<Byte>>, bumping: bool)
    requires CmdInv(r, bumping) && DataInv(r, slots) && |r.landed| < |r.cmds|
    requires var x := r.cmds[|r.landed|];
      0 <= x.slot < |slots| && |x.data| <= |slots[x.slot]| && r' == r.(landed := r.landed + [slots[x.slot][..|x.data|]])
    ensures CmdInv(r', bumping) && DataInv(r', slots)
  {
    assert Carries(slots, |r.landed|, r.cmds[|r.landed|].data);
  }

  lemma InterruptRing(r: Ring, slots: seq<seq<Byte>>, bumping: bool)
    requires CmdInv(r, bumping) && DataInv(r, slots) && r.processed < |r.landed|
    ensures CmdInv(r.(processed := r.processed + 1), bumping) && DataInv(r.(processed := r.processed + 1), slots)
  {
  }

  lemma BeginInv(alignment: nat, s: State, a: Action)
    requires alignment > 0 && Inv(s) && a.Begin?
    ensures Inv(Apply(alignment, s, a))
  {
    hide CmdInv, SlotsInv, DataInv, CallInv;
    var s' := Apply(alignment, s, a);
    BeginTicket(s.ring, s.calls, s'.calls[|s.calls|]);
    hide TicketInv, Bumping;
    forall j | 0 <= j < |s'.calls| ensures CallInv(s'.ring, s'.slots, s'.calls[j]) {
      if j == |s.calls| { FreshCall(s.ring, s.slots, s'.calls[j]); }
    }
  }

  lemma BeginTicket(r: Ring, calls: seq<Call>, c: Call)
    requires TicketInv(r, calls) && !Holding(c.pc)
    ensures TicketInv(r, calls + [c]) && Bumping(r, calls + [c]) == Bumping(r, calls)
  {
    var calls' := calls + [c];
    forall k | r.enqueued <= k < r.requested ensures Held(r, calls', k) {
      assert Held(r, calls, k);
    }
    if r.enqueued < r.requested { assert Held(r, calls, r.enqueued); }
  }

  lemma FreshCall(r: Ring, slots: seq<seq<Byte>>, c: Call)
    requires c.off == 0 && c.last == 0 && c.sent == [] && (c.pc.Request? || c.pc.Misaligned?)
    ensures CallInv(r, slots, c)
  {
  }

  /** Every enabled action keeps the invariant. */
  lemma ApplyInv(alignment: nat, s: State, a: Action)
    requires alignment > 0 && Inv(s) && Enabled(s, a)
    ensures Inv(Apply(alignment, s, a))
  {
    hide Inv;
    match a {
      case Begin(_, _) => BeginInv(alignment, s, a);
      case Complete => EngineInv(s, a);
      case Interrupt => EngineInv(s, a);
      case Step(i) =>
        match s.calls[i].pc {
          case Request => RequestInv(s, i);
          case Fill(_, _) => FillInv(s, i);
          case WriteCmd(_, _) => WriteInv(s, i);
          case Bump(_, _) => BumpInv(s, i);
          case _ => WaitInv(s, i);
        }
    }
  }

  lemma InitInv(s: State)
    requires Init(s)
    ensures Inv(s)
  {
  }
}
