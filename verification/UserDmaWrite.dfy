/** The host-to-device half of the user-space DMA engine as a step system.
 *
 *  Any number of calls to `do_copy_to` run at once.  Each one steals bounce buffers from a shared
 *  pool, fills them, hands them to the engine under a lock, and recycles the buffers of finished
 *  transfers (its own or another call's) by counting interrupts.  There are two channels, memory
 *  writes and host-to-card streams, which share the buffer pool but have their own out-queue,
 *  counters and interrupt.
 *
 *  Every atomic action of the source is one step.  The engine finishes the transfers of a channel
 *  in the order in which they were issued, reads the bounce buffer at that moment, and raises one
 *  interrupt per transfer some time later.
 */
module UserDmaWrite {

  import opened Common
  import opened Dma

  datatype Channel = Memory | Stream

  /** Static facts: the size of every write buffer and the offset added to device addresses. */
  datatype Config = Config(sizes: map<BufId, nat>, devOffset: nat)

  /** A command in the engine: the buffer it reads, the target address, the bytes the call means to send. */
  datatype Transfer = Transfer(buf: BufId, addr: nat, data: seq<Byte>)

  /** One channel.  `pushed`, `popped`, `issued` and `landed` are histories:
   *  the buffers that entered and left the out-queue, the commands written to the engine, and the
   *  bytes the engine read when it finished each of them. */
  datatype Chan = Chan(
    out: seq<BufId>,
    cntr: nat,
    intCntr: nat,
    pending: nat,
    raised: nat,
    pushed: seq<BufId>,
    popped: seq<BufId>,
    issued: seq<Transfer>,
    landed: seq<seq<Byte>>)

  /** Where a call is.  `next` and the counter it waits for are the arguments of `wait_for_write`. */
  datatype Pc =
    | Steal
    | Fill(buf: BufId)
    | Acquire(buf: BufId, len: nat)
    | Push(buf: BufId, len: nat)
    | Schedule(buf: BufId, len: nat)
    | Count(len: nat)
    | Poll(next: bool)
    | Read(next: bool)
    | Drain(next: bool, todo: nat)
    | Pop(next: bool, todo: nat)
    | Recycle(next: bool, todo: nat, buf: BufId)
    | Returned
    | TooManyInterrupts

  datatype Call = Call(ch: Channel, data: seq<Byte>, ptr: nat, off: nat, highest: nat, pc: Pc, sent: seq<Chunk>)

  /** Auxiliary: where a buffer currently is. */
  datatype Place = InPool | HeldBy(call: nat) | Queued(ch: Channel)

  datatype Lock = Free | Owner(call: nat)

  datatype State = State(
    pool: set<BufId>,
    contents: map<BufId, seq<Byte>>,
    memory: Chan,
    stream: Chan,
    lock: Lock,
    calls: seq<Call>,
    place: map<BufId, Place>)
  {
    function Ch(c: Channel): Chan {
      if c.Memory? then memory else stream
    }

    function SetCh(c: Channel, x: Chan): State {
      if c.Memory? then this.(memory := x) else this.(stream := x)
    }

    function SetCall(t: nat, c: Call): State
      requires t < |calls|
    {
      this.(calls := calls[t := c])
    }
  }

  datatype Action =
    | Begin(ch: Channel, data: seq<Byte>, ptr: nat)
    | StealBuffer(call: nat, buf: BufId)
    | Step(call: nat)
    | Complete(ch: Channel)
    | Raise(ch: Channel)

  const EmptyChan := Chan([], 0, 0, 0, 0, [], [], [], [])

  ghost predicate Init(cfg: Config, s: State) {
    && s.pool == cfg.sizes.Keys
    && s.contents.Keys == cfg.sizes.Keys
    && (forall b | b in s.contents :: |s.contents[b]| == cfg.sizes[b])
    && s.memory == EmptyChan
    && s.stream == EmptyChan
    && s.lock == Free
    && s.calls == []
    && s.place.Keys == cfg.sizes.Keys
    && (forall b | b in s.place :: s.place[b] == InPool)
  }

  function Target(cfg: Config, c: Call, off: nat): nat {
    if c.ch.Stream? then cfg.devOffset + c.ptr else cfg.devOffset + c.ptr + off
  }

  /** The loop condition of `wait_for_write`. */
  predicate KeepsWaiting(s: State, c: Call, next: bool) {
    (next && s.pool == {}) || (!next && s.Ch(c.ch).intCntr <= c.highest)
  }

  predicate Enabled(cfg: Config, s: State, a: Action) {
    match a
    case Begin(_, _, _) => true
    case StealBuffer(t, b) => t < |s.calls| && s.calls[t].pc.Steal? && s.calls[t].off < |s.calls[t].data| && b in s.pool
    case Complete(ch) => |s.Ch(ch).landed| < |s.Ch(ch).issued| && s.Ch(ch).issued[|s.Ch(ch).landed|].buf in s.contents
    case Raise(ch) => s.Ch(ch).raised < |s.Ch(ch).landed|
    case Step(t) =>
      && t < |s.calls|
      && var c := s.calls[t];
         match c.pc
         case Steal => c.off >= |c.data| || s.pool == {}
         case Fill(buf) => buf in s.contents && buf in cfg.sizes && |s.contents[buf]| == cfg.sizes[buf]
             && c.off <= |c.data|
         case Acquire(_, _) => s.lock.Free?
         case Push(_, _) => true
         case Schedule(_, len) => c.off + len <= |c.data|
         case Count(_) => true
         case Poll(_) => true
         case Read(_) => true
         case Drain(_, _) => true
         case Pop(_, _) => true
         case Recycle(_, _, _) => true
         case Returned => false
         case TooManyInterrupts => false
  }

  /** Leaves the outer loop (nothing left to send), or waits because the pool is empty. */
  function StealStep(s: State, t: nat): State
    requires t < |s.calls|
  {
    var c := s.calls[t];
    s.SetCall(t, c.(pc := Poll(c.off < |c.data|)))
  }

  function FillStep(cfg: Config, s: State, t: nat): State
    requires Enabled(cfg, s, Step(t)) && s.calls[t].pc.Fill?
  {
    var c := s.calls[t];
    var buf := c.pc.buf;
    var len := Min(|c.data| - c.off, cfg.sizes[buf]);
    s.(contents := s.contents[buf := c.data[c.off..c.off + len] + s.contents[buf][len..]])
     .SetCall(t, c.(pc := Acquire(buf, len)))
  }

  function AcquireStep(s: State, t: nat): State
    requires t < |s.calls| && s.calls[t].pc.Acquire?
  {
    var c := s.calls[t];
    s.(lock := Owner(t)).SetCall(t, c.(pc := Push(c.pc.buf, c.pc.len)))
  }

  function PushStep(s: State, t: nat): State
    requires t < |s.calls| && s.calls[t].pc.Push?
  {
    var c := s.calls[t];
    var ch := s.Ch(c.ch);
    s.SetCh(c.ch, ch.(out := ch.out + [c.pc.buf], pushed := ch.pushed + [c.pc.buf]))
     .(place := s.place[c.pc.buf := Queued(c.ch)])
     .SetCall(t, c.(pc := Schedule(c.pc.buf, c.pc.len)))
  }

  function ScheduleStep(cfg: Config, s: State, t: nat): State
    requires Enabled(cfg, s, Step(t)) && s.calls[t].pc.Schedule?
  {
    var c := s.calls[t];
    var ch := s.Ch(c.ch);
    s.SetCh(c.ch, ch.(issued :=
        ch.issued + [Transfer(c.pc.buf, Target(cfg, c, c.off), c.data[c.off..c.off + c.pc.len])]))
     .SetCall(t, c.(pc := Count(c.pc.len)))
  }

  /** Draws the ticket and drops the lock. */
  function CountStep(s: State, t: nat): State
    requires t < |s.calls| && s.calls[t].pc.Count?
  {
    var c := s.calls[t];
    var ch := s.Ch(c.ch);
    s.SetCh(c.ch, ch.(cntr := ch.cntr + 1))
     .(lock := Free)
     .SetCall(t, c.(pc := Steal, highest := ch.cntr, off := c.off + c.pc.len,
                    sent := c.sent + [Chunk(ch.cntr, c.off, c.pc.len)]))
  }

  /** One evaluation of the waiting loop's condition. */
  function PollStep(s: State, t: nat): State
    requires t < |s.calls| && s.calls[t].pc.Poll?
  {
    var c := s.calls[t];
    s.SetCall(t, c.(pc := if KeepsWaiting(s, c, c.pc.next) then Read(c.pc.next) else if c.pc.next then Steal
        else Returned))
  }

  /** The eventfd read returns the pending count and clears it. */
  function ReadStep(s: State, t: nat): State
    requires t < |s.calls| && s.calls[t].pc.Read?
  {
    var c := s.calls[t];
    var ch := s.Ch(c.ch);
    s.SetCh(c.ch, ch.(pending := 0)).SetCall(t, c.(pc := Drain(c.pc.next, ch.pending)))
  }

  function DrainStep(s: State, t: nat): State
    requires t < |s.calls| && s.calls[t].pc.Drain?
  {
    var c := s.calls[t];
    var ch := s.Ch(c.ch);
    if c.pc.todo == 0 then
      s.SetCall(t, c.(pc := Poll(c.pc.next)))
    else
      s.SetCh(c.ch, ch.(intCntr := ch.intCntr + 1)).SetCall(t, c.(pc := Pop(c.pc.next, c.pc.todo - 1)))
  }

  function PopStep(s: State, t: nat): State
    requires t < |s.calls| && s.calls[t].pc.Pop?
  {
    var c := s.calls[t];
    var ch := s.Ch(c.ch);
    if ch.out == [] then
      s.SetCall(t, c.(pc := TooManyInterrupts))
    else
      s.SetCh(c.ch, ch.(out := ch.out[1..], popped := ch.popped + [ch.out[0]]))
       .(place := s.place[ch.out[0] := HeldBy(t)])
       .SetCall(t, c.(pc := Recycle(c.pc.next, c.pc.todo, ch.out[0])))
  }

  function RecycleStep(s: State, t: nat): State
    requires t < |s.calls| && s.calls[t].pc.Recycle?
  {
    var c := s.calls[t];
    s.(pool := s.pool + {c.pc.buf}, place := s.place[c.pc.buf := InPool])
     .SetCall(t, c.(pc := Drain(c.pc.next, c.pc.todo)))
  }

  function StepCall(cfg: Config, s: State, t: nat): State
    requires Enabled(cfg, s, Step(t))
  {
    match s.calls[t].pc
    case Steal => StealStep(s, t)
    case Fill(_) => FillStep(cfg, s, t)
    case Acquire(_, _) => AcquireStep(s, t)
    case Push(_, _) => PushStep(s, t)
    case Schedule(_, _) => ScheduleStep(cfg, s, t)
    case Count(_) => CountStep(s, t)
    case Poll(_) => PollStep(s, t)
    case Read(_) => ReadStep(s, t)
    case Drain(_, _) => DrainStep(s, t)
    case Pop(_, _) => PopStep(s, t)
    case Recycle(_, _, _) => RecycleStep(s, t)
  }

  function Apply(cfg: Config, s: State, a: Action): State
    requires Enabled(cfg, s, a)
  {
    match a
    case Begin(ch, data, ptr) => s.(calls := s.calls + [Call(ch, data, ptr, 0, 0, Steal, [])])
    case StealBuffer(t, b) =>
      s.(pool := s.pool - {b}, place := s.place[b := HeldBy(t)])
       .SetCall(t, s.calls[t].(pc := Fill(b)))
    case Step(t) => StepCall(cfg, s, t)
    case Complete(c) =>
      var ch := s.Ch(c);
      var x := ch.issued[|ch.landed|];
      var n := Min(|x.data|, |s.contents[x.buf]|);
      s.SetCh(c, ch.(landed := ch.landed + [s.contents[x.buf][..n]]))
    case Raise(c) =>
      var ch := s.Ch(c);
      s.SetCh(c, ch.(raised := ch.raised + 1, pending := ch.pending + 1))
  }

  // ---- Counting over calls ----

  /** Interrupts a call has read from the eventfd and not yet counted. */
  function Todo(c: Call, ch: Channel): nat {
    if c.ch != ch then 0
    else match c.pc
      case Drain(_, todo) => todo
      case Pop(_, todo) => todo
      case Recycle(_, todo, _) => todo
      case _ => 0
  }

  /** 1 while a call has counted an interrupt and not yet popped the buffer it stands for. */
  function Popping(c: Call, ch: Channel): nat {
    if c.ch == ch && c.pc.Pop? then 1 else 0
  }

  function SumTodo(calls: seq<Call>, ch: Channel): nat {
    if calls == [] then 0 else Todo(calls[0], ch) + SumTodo(calls[1..], ch)
  }

  function SumPopping(calls: seq<Call>, ch: Channel): nat {
    if calls == [] then 0 else Popping(calls[0], ch) + SumPopping(calls[1..], ch)
  }

  lemma {:induction false} SumsAfterUpdate(calls: seq<Call>, t: nat, c: Call, ch: Channel)
    requires t < |calls|
    ensures SumTodo(calls[t := c], ch) == SumTodo(calls, ch) - Todo(calls[t], ch) + Todo(c, ch)
    ensures SumPopping(calls[t := c], ch) == SumPopping(calls, ch) - Popping(calls[t], ch) + Popping(c, ch)
    ensures SumTodo(calls, ch) >= Todo(calls[t], ch)
    ensures SumPopping(calls, ch) >= Popping(calls[t], ch)
  {
    if t > 0 {
      assert calls[t := c][1..] == calls[1..][t - 1 := c];
      SumsAfterUpdate(calls[1..], t - 1, c, ch);
    } else {
      assert calls[t := c][1..] == calls[1..];
    }
  }

  lemma {:induction false} SumsAfterAppend(calls: seq<Call>, c: Call, ch: Channel)
    ensures SumTodo(calls + [c], ch) == SumTodo(calls, ch) + Todo(c, ch)
    ensures SumPopping(calls + [c], ch) == SumPopping(calls, ch) + Popping(c, ch)
  {
    if calls != [] {
      assert (calls + [c])[1..] == calls[1..] + [c];
      SumsAfterAppend(calls[1..], c, ch);
    } else {
      assert (calls + [c])[1..] == [];
    }
  }

  // ---- The invariant ----

  predicate Locked(pc: Pc) {
    pc.Push? || pc.Schedule? || pc.Count?
  }

  /** The lock has an owner exactly while some call is between taking and dropping it. */
  ghost predicate LockInv(s: State) {
    && (forall t | 0 <= t < |s.calls| && Locked(s.calls[t].pc) :: s.lock == Owner(t))
    && (s.lock.Owner? ==> s.lock.call < |s.calls| && Locked(s.calls[s.lock.call].pc))
  }

  /** A call has put a buffer on channel `ch` and not yet written its command. */
  predicate Scheduling(s: State, ch: Channel) {
    && s.lock.Owner? && s.lock.call < |s.calls|
    && s.calls[s.lock.call].ch == ch && s.calls[s.lock.call].pc.Schedule?
  }

  /** A call has written a command on channel `ch` and not yet counted it. */
  predicate Counting(s: State, ch: Channel) {
    && s.lock.Owner? && s.lock.call < |s.calls|
    && s.calls[s.lock.call].ch == ch && s.calls[s.lock.call].pc.Count?
  }

  /** Tickets, interrupts and queue operations of one channel add up.  `todo` interrupts have been read
   *  and not counted, `popping` have been counted and not popped; `sched` holds a buffer that is queued
   *  but not yet scheduled, and `counting` says that the last command has no ticket yet. */
  ghost predicate Balanced(ch: Chan, todo: nat, popping: nat, sched: seq<BufId>, counting: nat) {
    && ch.pushed == ch.popped + ch.out
    && |ch.pushed| == |ch.issued| + |sched|
    && (forall k | 0 <= k < |ch.issued| :: ch.pushed[k] == ch.issued[k].buf)
    && ch.pushed[|ch.issued|..] == sched
    && |ch.issued| == ch.cntr + counting
    && |ch.landed| <= |ch.issued|
    && ch.raised <= |ch.landed|
    && ch.raised == ch.pending + ch.intCntr + todo
    && ch.intCntr == |ch.popped| + popping
  }

  function Sched(s: State, c: Channel): seq<BufId> {
    if Scheduling(s, c) then [s.calls[s.lock.call].pc.buf] else []
  }

  ghost predicate CountInv(s: State, c: Channel) {
    Balanced(s.Ch(c), SumTodo(s.calls, c), SumPopping(s.calls, c), Sched(s, c), if Counting(s, c) then 1 else 0)
  }

  /** The buffer a call owns outright: stolen and not yet queued, or popped and not yet returned. */
  predicate Holds(pc: Pc, b: BufId) {
    match pc
    case Fill(x) => x == b
    case Acquire(x, _) => x == b
    case Push(x, _) => x == b
    case Recycle(_, _, x) => x == b
    case _ => false
  }

  ghost predicate Distinct(q: seq<BufId>) {
    forall i, j | 0 <= i < j < |q| :: q[i] != q[j]
  }

  ghost predicate QueueInv(place: map<BufId, Place>, q: seq<BufId>, c: Channel) {
    && (forall i | 0 <= i < |q| :: q[i] in place && place[q[i]] == Queued(c))
    && (forall b | b in place && place[b] == Queued(c) :: b in q)
    && Distinct(q)
  }

  ghost predicate HeldInv(place: map<BufId, Place>, calls: seq<Call>) {
    && (forall t, b | 0 <= t < |calls| && Holds(calls[t].pc, b) :: b in place && place[b] == HeldBy(t))
    && (forall b | b in place && place[b].HeldBy? :: place[b].call < |calls| && Holds(calls[place[b].call].pc, b))
  }

  ghost predicate PoolInv(place: map<BufId, Place>, pool: set<BufId>) {
    forall b :: b in pool <==> b in place && place[b] == InPool
  }

  ghost predicate BytesInv(cfg: Config, s: State) {
    && s.place.Keys == cfg.sizes.Keys
    && s.contents.Keys == cfg.sizes.Keys
    && (forall b | b in s.contents :: |s.contents[b]| == cfg.sizes[b])
  }

  /** The auxiliary map tells the truth about pool, out-queues and calls. */
  ghost predicate PlaceInv(cfg: Config, s: State) {
    && BytesInv(cfg, s)
    && PoolInv(s.place, s.pool)
    && HeldInv(s.place, s.calls)
    && QueueInv(s.place, s.memory.out, Memory)
    && QueueInv(s.place, s.stream.out, Stream)
  }

  ghost predicate Carries(cfg: Config, contents: map<BufId, seq<Byte>>, b: BufId, data: seq<Byte>) {
    && b in cfg.sizes && b in contents
    && |data| <= |contents[b]|
    && contents[b][..|data|] == data
  }

  /** What landed is what was meant to be sent, and what is in flight is still in its buffer. */
  ghost predicate DataInv(cfg: Config, s: State, c: Channel) {
    var ch := s.Ch(c);
    && |ch.landed| <= |ch.issued|
    && (forall k | 0 <= k < |ch.landed| :: ch.landed[k] == ch.issued[k].data)
    && (forall k | |ch.landed| <= k < |ch.issued| :: Carries(cfg, s.contents, ch.issued[k].buf, ch.issued[k].data))
  }

  /** A chunk record agrees with the command that carries it. */
  predicate ChunkOk(cfg: Config, c: Call, ch: Chan, k: Chunk) {
    && k.ticket < |ch.issued|
    && k.off + k.len <= |c.data|
    && ch.issued[k.ticket].data == c.data[k.off..k.off + k.len]
    && ch.issued[k.ticket].addr == Target(cfg, c, k.off)
  }

  /** The chunks sent so far cut `data[..off]` into consecutive pieces, in ticket order. */
  ghost predicate SentInv(cfg: Config, c: Call, ch: Chan) {
    && c.off <= |c.data|
    && (forall i | 0 <= i < |c.sent| :: ChunkOk(cfg, c, ch, c.sent[i]))
    && (forall i | 0 <= i < |c.sent| - 1 :: c.sent[i].off + c.sent[i].len == c.sent[i + 1].off)
    && (forall i, j | 0 <= i < j < |c.sent| :: c.sent[i].ticket < c.sent[j].ticket)
    && (c.sent == [] ==> c.off == 0)
    && (c.sent != [] ==>
        && c.sent[0].off == 0
        && c.sent[|c.sent| - 1].off + c.sent[|c.sent| - 1].len == c.off
        && c.sent[|c.sent| - 1].ticket == c.highest
        && c.highest < ch.cntr)
  }

  /** What a call relies on at its current position. */
  ghost predicate PcInv(cfg: Config, contents: map<BufId, seq<Byte>>, c: Call, ch: Chan) {
    match c.pc
    case Fill(b) => c.off < |c.data|
    case Acquire(b, len) => c.off + len <= |c.data| && Carries(cfg, contents, b, c.data[c.off..c.off + len])
    case Push(b, len) => c.off + len <= |c.data| && Carries(cfg, contents, b, c.data[c.off..c.off + len])
    case Schedule(b, len) => c.off + len <= |c.data| && Carries(cfg, contents, b, c.data[c.off..c.off + len])
    case Count(len) => ChunkOk(cfg, c, ch, Chunk(ch.cntr, c.off, len))
    case Poll(next) => !next ==> c.off == |c.data|
    case Read(next) => !next ==> c.off == |c.data|
    case Drain(next, _) => !next ==> c.off == |c.data|
    case Pop(next, _) => !next ==> c.off == |c.data|
    case Recycle(next, _, _) => !next ==> c.off == |c.data|
    case Returned => c.off == |c.data| && c.highest < ch.intCntr
    case TooManyInterrupts => false
    case Steal => true
  }

  ghost predicate CallInv(cfg: Config, s: State, t: nat)
    requires t < |s.calls|
  {
    && SentInv(cfg, s.calls[t], s.Ch(s.calls[t].ch))
    && PcInv(cfg, s.contents, s.calls[t], s.Ch(s.calls[t].ch))
  }

  ghost predicate Inv(cfg: Config, s: State) {
    && LockInv(s)
    && CountInv(s, Memory) && CountInv(s, Stream)
    && PlaceInv(cfg, s)
    && DataInv(cfg, s, Memory) && DataInv(cfg, s, Stream)
    && (forall t | 0 <= t < |s.calls| :: CallInv(cfg, s, t))
  }

  // ---- Every step keeps the invariant ----

  lemma InitInv(cfg: Config, s: State)
    requires Init(cfg, s)
    ensures Inv(cfg, s)
  {
    hide CountInv, PlaceInv, DataInv;
    InitChannel(cfg, s, Memory);
    InitChannel(cfg, s, Stream);
    InitPlaces(cfg, s);
  }

  lemma InitChannel(cfg: Config, s: State, c: Channel)
    requires s.Ch(c) == EmptyChan && s.calls == [] && s.lock == Free
    ensures CountInv(s, c) && DataInv(cfg, s, c)
  {
    hide Balanced;
    EmptyBalanced();
  }

  lemma EmptyBalanced()
    ensures Balanced(EmptyChan, 0, 0, [], 0)
  {
  }

  lemma InitPlaces(cfg: Config, s: State)
    requires Init(cfg, s)
    ensures PlaceInv(cfg, s)
  {
  }

  /** Only call `t` moved. */
  predicate Moved(s: State, s': State, t: nat) {
    && t < |s.calls| && |s'.calls| == |s.calls|
    && s'.calls == s.calls[t := s'.calls[t]]
    && s'.calls[t].ch == s.calls[t].ch
  }

  lemma LockStep(s: State, s': State, t: nat)
    requires LockInv(s) && Moved(s, s', t)
    requires !Locked(s.calls[t].pc) && !Locked(s'.calls[t].pc) ==> s'.lock == s.lock
    requires !Locked(s.calls[t].pc) && Locked(s'.calls[t].pc) ==> s.lock == Free && s'.lock == Owner(t)
    requires Locked(s.calls[t].pc) ==> s'.lock == if Locked(s'.calls[t].pc) then Owner(t) else Free
    ensures LockInv(s')
  {
  }

  /** Steps that neither take nor drop the lock leave the channel's pending schedule and ticket alone. */
  lemma BalanceFrame(s: State, s': State, t: nat, c: Channel)
    requires LockInv(s) && LockInv(s') && Moved(s, s', t) && CountInv(s, c)
    requires s'.Ch(c) == s.Ch(c)
    requires s.calls[t].ch != c
        || (Todo(s.calls[t], c) == Todo(s'.calls[t], c) && Popping(s.calls[t], c) == Popping(s'.calls[t], c)
                                    && (s.calls[t].pc.Schedule? == s'.calls[t].pc.Schedule? == false)
                                        && (s.calls[t].pc.Count? == s'.calls[t].pc.Count? == false))
    ensures CountInv(s', c)
  {
    SumsAfterUpdate(s.calls, t, s'.calls[t], c);
    assert Scheduling(s', c) == Scheduling(s, c);
    assert Counting(s', c) == Counting(s, c);
  }

  // Frames: what a step by call `t` cannot disturb.

  /** A step outside the lock does not change who is scheduling or counting. */
  lemma SameTickets(s: State, s': State, t: nat, c: Channel)
    requires LockInv(s) && Moved(s, s', t) && s'.lock == s.lock && !Locked(s.calls[t].pc) && !Locked(s'.calls[t].pc)
    ensures Sched(s', c) == Sched(s, c) && Counting(s', c) == Counting(s, c)
  {
  }

  lemma PlaceFrame(cfg: Config, s: State, s': State, t: nat)
    requires PlaceInv(cfg, s) && Moved(s, s', t)
    requires s'.place == s.place && s'.pool == s.pool && s'.contents == s.contents
    requires s'.memory.out == s.memory.out && s'.stream.out == s.stream.out
    requires forall b :: Holds(s'.calls[t].pc, b) <==> Holds(s.calls[t].pc, b)
    ensures PlaceInv(cfg, s')
  {
    assert HeldInv(s'.place, s'.calls);
  }

  lemma DataFrame(cfg: Config, s: State, s': State, c: Channel)
    requires DataInv(cfg, s, c)
    requires s'.contents == s.contents && s'.Ch(c).issued == s.Ch(c).issued && s'.Ch(c).landed == s.Ch(c).landed
    ensures DataInv(cfg, s', c)
  {
    var ch := s.Ch(c);
    forall k | |ch.landed| <= k < |ch.issued| ensures Carries(cfg, s'.contents, ch.issued[k].buf, ch.issued[k].data) {
      assert Carries(cfg, s.contents, ch.issued[k].buf, ch.issued[k].data);
    }
  }

  /** A channel after some steps: its histories have grown at the end. */
  predicate Grown(ch: Chan, ch': Chan) {
    && ch.issued <= ch'.issued
    && ch.cntr <= ch'.cntr
    && ch.intCntr <= ch'.intCntr
  }

  predicate SameBytes(s: State, s': State, b: BufId) {
    b in s.contents ==> b in s'.contents && s.contents[b] == s'.contents[b]
  }

  predicate Working(pc: Pc) {
    pc.Acquire? || pc.Push? || pc.Schedule?
  }

  lemma SentGrows(cfg: Config, c: Call, ch: Chan, ch': Chan)
    requires SentInv(cfg, c, ch) && Grown(ch, ch')
    ensures SentInv(cfg, c, ch')
  {
    forall i | 0 <= i < |c.sent| ensures ChunkOk(cfg, c, ch', c.sent[i]) {
      assert ChunkOk(cfg, c, ch, c.sent[i]);
    }
  }

  /** A call that does not move keeps its invariant if the buffer it works on is left alone. */
  lemma IdleCall(cfg: Config, s: State, s': State, u: nat)
    requires u < |s.calls| && u < |s'.calls| && s'.calls[u] == s.calls[u]
    requires CallInv(cfg, s, u)
    requires Grown(s.Ch(s.calls[u].ch), s'.Ch(s.calls[u].ch))
    requires s.calls[u].pc.Count? ==> s'.Ch(s.calls[u].ch).cntr == s.Ch(s.calls[u].ch).cntr
    requires Working(s.calls[u].pc) ==> SameBytes(s, s', s.calls[u].pc.buf)
    ensures CallInv(cfg, s', u)
  {
    SentGrows(cfg, s.calls[u], s.Ch(s.calls[u].ch), s'.Ch(s.calls[u].ch));
    hide SentInv;
  }

  /** Between queueing and scheduling, the buffer is in the out-queue of its channel. */
  lemma QueuedByScheduler(s: State, t: nat)
    requires LockInv(s) && t < |s.calls| && s.calls[t].pc.Schedule? && CountInv(s, s.calls[t].ch)
    ensures s.calls[t].pc.buf in s.Ch(s.calls[t].ch).out
  {
    var ch := s.Ch(s.calls[t].ch);
    assert Sched(s, s.calls[t].ch) == [s.calls[t].pc.buf];
    assert ch.pushed[|ch.issued|] == ch.pushed[|ch.issued|..][0] == s.calls[t].pc.buf;
    assert ch.out[|ch.issued| - |ch.popped|] == s.calls[t].pc.buf;
  }

  /** A queued buffer is in no call's hands and not in the pool. */
  lemma QueuedIsNotHeld(cfg: Config, s: State, c: Channel, b: BufId)
    requires PlaceInv(cfg, s) && b in s.Ch(c).out
    ensures b !in s.pool
    ensures forall t | 0 <= t < |s.calls| :: !Holds(s.calls[t].pc, b)
  {
  }

  /** The buffer one call works on is not owned by another. */
  lemma WorkedOnAlone(cfg: Config, s: State, t: nat, u: nat)
    requires LockInv(s) && PlaceInv(cfg, s) && t < |s.calls| && u < |s.calls| && t != u && Working(s.calls[u].pc)
    requires CountInv(s, s.calls[u].ch)
    ensures !Holds(s.calls[t].pc, s.calls[u].pc.buf)
  {
    var b := s.calls[u].pc.buf;
    if s.calls[u].pc.Schedule? {
      QueuedByScheduler(s, u);
      QueuedIsNotHeld(cfg, s, s.calls[u].ch, b);
    } else {
      HeldOnce(s.place, s.calls, t, u, b);
    }
  }

  lemma HeldOnce(place: map<BufId, Place>, calls: seq<Call>, t: nat, u: nat, b: BufId)
    requires HeldInv(place, calls) && t < |calls| && u < |calls| && t != u && Holds(calls[u].pc, b)
    ensures !Holds(calls[t].pc, b)
  {
    assert place[b] == HeldBy(u);
  }

  /** All calls but `t` keep their invariant through a step of `t`. */
  lemma OtherCalls(cfg: Config, s: State, s': State, t: nat)
    requires Inv(cfg, s) && Moved(s, s', t)
    requires Grown(s.memory, s'.memory) && Grown(s.stream, s'.stream)
    requires s.lock == Owner(t) || (s'.memory.cntr == s.memory.cntr && s'.stream.cntr == s.stream.cntr)
    requires forall b | b in s.contents && !Holds(s.calls[t].pc, b) :: SameBytes(s, s', b)
    requires CallInv(cfg, s', t)
    ensures forall u | 0 <= u < |s'.calls| :: CallInv(cfg, s', u)
  {
    forall u | 0 <= u < |s'.calls| ensures CallInv(cfg, s', u) {
      if u != t {
        OtherCall(cfg, s, s', t, u);
      }
    }
  }

  lemma OtherCall(cfg: Config, s: State, s': State, t: nat, u: nat)
    requires LockInv(s) && PlaceInv(cfg, s) && CountInv(s, Memory) && CountInv(s, Stream) && Moved(s, s', t)
    requires u < |s.calls| && u != t && CallInv(cfg, s, u)
    requires Grown(s.memory, s'.memory) && Grown(s.stream, s'.stream)
    requires s.lock == Owner(t) || (s'.memory.cntr == s.memory.cntr && s'.stream.cntr == s.stream.cntr)
    requires forall b | b in s.contents && !Holds(s.calls[t].pc, b) :: SameBytes(s, s', b)
    ensures CallInv(cfg, s', u)
  {
    if Working(s.calls[u].pc) {
      WorkedOnAlone(cfg, s, t, u);
    }
    assert s.calls[u].pc.Count? ==> s.lock == Owner(u);
    hide PlaceInv, CountInv, LockInv, CallInv;
    IdleCall(cfg, s, s', u);
  }

  // One lemma per kind of step.

  lemma LockOwner(s: State, t: nat)
    requires LockInv(s) && t < |s.calls| && Locked(s.calls[t].pc)
    ensures s.lock == Owner(t)
  {
  }

  lemma BeginInv(cfg: Config, s: State, a: Action)
    requires Inv(cfg, s) && a.Begin?
    ensures Inv(cfg, Apply(cfg, s, a))
  {
    var s' := Apply(cfg, s, a);
    var c := Call(a.ch, a.data, a.ptr, 0, 0, Steal, []);
    BeginFrame(cfg, s, s', c, Memory);
    BeginFrame(cfg, s, s', c, Stream);
    hide LockInv, CountInv, PlaceInv, DataInv, CallInv;
    DataFrame(cfg, s, s', Memory);
    DataFrame(cfg, s, s', Stream);
    forall t | 0 <= t < |s'.calls| ensures CallInv(cfg, s', t) {
      if t < |s.calls| { IdleCall(cfg, s, s', t); } else { FreshCall(cfg, s', t); }
    }
  }

  lemma BeginFrame(cfg: Config, s: State, s': State, c: Call, d: Channel)
    requires LockInv(s) && CountInv(s, d) && PlaceInv(cfg, s)
    requires s' == s.(calls := s.calls + [c]) && c.pc == Steal
    ensures LockInv(s') && CountInv(s', d) && PlaceInv(cfg, s')
  {
    SumsAfterAppend(s.calls, c, d);
    assert Sched(s', d) == Sched(s, d) && Counting(s', d) == Counting(s, d);
    assert HeldInv(s'.place, s'.calls);
    hide Balanced, BytesInv, HeldInv, QueueInv, PoolInv, SumTodo, SumPopping, Sched, Counting;
  }

  lemma FreshCall(cfg: Config, s: State, t: nat)
    requires t < |s.calls| && s.calls[t].pc == Steal && s.calls[t].off == 0 && s.calls[t].sent == []
    ensures CallInv(cfg, s, t)
  {
  }

  /** What all steps that touch neither buffers nor commands have in common. */
  lemma QuietStep(cfg: Config, s: State, s': State, t: nat)
    requires Inv(cfg, s) && Moved(s, s', t)
    requires s'.place == s.place && s'.pool == s.pool && s'.contents == s.contents
    requires s'.memory.out == s.memory.out && s'.stream.out == s.stream.out
    requires forall b :: Holds(s'.calls[t].pc, b) <==> Holds(s.calls[t].pc, b)
    requires s'.memory.issued == s.memory.issued && s'.memory.landed == s.memory.landed
    requires s'.stream.issued == s.stream.issued && s'.stream.landed == s.stream.landed
    requires s.memory.intCntr <= s'.memory.intCntr && s.stream.intCntr <= s'.stream.intCntr
    requires s.memory.cntr <= s'.memory.cntr && s.stream.cntr <= s'.stream.cntr
    requires s.lock == Owner(t) || (s'.memory.cntr == s.memory.cntr && s'.stream.cntr == s.stream.cntr)
    requires LockInv(s') && CountInv(s', Memory) && CountInv(s', Stream) && CallInv(cfg, s', t)
    ensures Inv(cfg, s')
  {
    hide LockInv, CountInv, PlaceInv, DataInv, CallInv;
    PlaceFrame(cfg, s, s', t);
    DataFrame(cfg, s, s', Memory);
    DataFrame(cfg, s, s', Stream);
    OtherCalls(cfg, s, s', t);
  }

  /** The record of chunks does not depend on where the call is. */
  lemma SentPc(cfg: Config, c: Call, ch: Chan, ch': Chan, pc: Pc)
    requires SentInv(cfg, c, ch) && ch'.issued == ch.issued && ch'.cntr == ch.cntr
    ensures SentInv(cfg, c.(pc := pc), ch')
  {
    forall i | 0 <= i < |c.sent| ensures ChunkOk(cfg, c.(pc := pc), ch', c.sent[i]) {
      assert ChunkOk(cfg, c, ch, c.sent[i]);
    }
  }

  lemma StealOwn(cfg: Config, s: State, t: nat)
    requires Enabled(cfg, s, Step(t)) && s.calls[t].pc.Steal? && CallInv(cfg, s, t)
    ensures CallInv(cfg, StealStep(s, t), t)
  {
    hide SentInv, ChunkOk, Carries;
    SentPc(cfg, s.calls[t], s.Ch(s.calls[t].ch), s.Ch(s.calls[t].ch), StealStep(s, t).calls[t].pc);
  }

  lemma StealStepInv(cfg: Config, s: State, t: nat)
    requires Inv(cfg, s) && Enabled(cfg, s, Step(t)) && s.calls[t].pc.Steal?
    ensures Inv(cfg, StealStep(s, t))
  {
    hide LockInv, CountInv, PlaceInv, DataInv, CallInv;
    var s' := StealStep(s, t);
    StealOwn(cfg, s, t);
    LockStep(s, s', t);
    BalanceFrame(s, s', t, Memory);
    BalanceFrame(s, s', t, Stream);
    QuietStep(cfg, s, s', t);
  }

  lemma AcquireOwn(cfg: Config, s: State, t: nat)
    requires Enabled(cfg, s, Step(t)) && s.calls[t].pc.Acquire? && CallInv(cfg, s, t)
    ensures CallInv(cfg, AcquireStep(s, t), t)
  {
    hide SentInv, ChunkOk, Carries;
    SentPc(cfg, s.calls[t], s.Ch(s.calls[t].ch), s.Ch(s.calls[t].ch), AcquireStep(s, t).calls[t].pc);
  }

  lemma AcquireStepInv(cfg: Config, s: State, t: nat)
    requires Inv(cfg, s) && Enabled(cfg, s, Step(t)) && s.calls[t].pc.Acquire?
    ensures Inv(cfg, AcquireStep(s, t))
  {
    hide LockInv, CountInv, PlaceInv, DataInv, CallInv;
    var s' := AcquireStep(s, t);
    AcquireOwn(cfg, s, t);
    LockStep(s, s', t);
    BalanceFrame(s, s', t, Memory);
    BalanceFrame(s, s', t, Stream);
    QuietStep(cfg, s, s', t);
  }

  lemma FillOwn(cfg: Config, s: State, t: nat)
    requires Enabled(cfg, s, Step(t)) && s.calls[t].pc.Fill? && CallInv(cfg, s, t)
    ensures CallInv(cfg, FillStep(cfg, s, t), t)
  {
    hide SentInv, ChunkOk;
    var s' := FillStep(cfg, s, t);
    var c := s.calls[t];
    SentPc(cfg, c, s.Ch(c.ch), s.Ch(c.ch), s'.calls[t].pc);
    assert Carries(cfg, s'.contents, c.pc.buf, c.data[c.off..c.off + s'.calls[t].pc.len]);
  }

  /** An in-flight transfer's buffer is in the out-queue. */
  lemma InFlightQueued(s: State, c: Channel, k: nat)
    requires CountInv(s, c)
    requires |s.Ch(c).landed| <= k < |s.Ch(c).issued|
    ensures s.Ch(c).issued[k].buf in s.Ch(c).out
  {
    var ch := s.Ch(c);
    assert |ch.popped| <= |ch.landed| <= k;
    assert ch.pushed[k] == ch.issued[k].buf == ch.out[k - |ch.popped|];
  }

  /** Filling a stolen buffer leaves every buffer in flight alone. */
  lemma FillData(cfg: Config, s: State, t: nat, c: Channel)
    requires CountInv(s, c) && PlaceInv(cfg, s) && DataInv(cfg, s, c)
    requires Enabled(cfg, s, Step(t)) && s.calls[t].pc.Fill?
    ensures DataInv(cfg, FillStep(cfg, s, t), c)
  {
    hide CountInv, PlaceInv;
    var s' := FillStep(cfg, s, t);
    var ch := s.Ch(c);
    forall k | |ch.landed| <= k < |ch.issued| ensures Carries(cfg, s'.contents, ch.issued[k].buf, ch.issued[k].data) {
      assert Carries(cfg, s.contents, ch.issued[k].buf, ch.issued[k].data);
      InFlightQueued(s, c, k);
      QueuedIsNotHeld(cfg, s, c, ch.issued[k].buf);
      assert Holds(s.calls[t].pc, s.calls[t].pc.buf);
    }
  }

  lemma FillPlace(cfg: Config, s: State, t: nat)
    requires PlaceInv(cfg, s) && Enabled(cfg, s, Step(t)) && s.calls[t].pc.Fill?
    ensures PlaceInv(cfg, FillStep(cfg, s, t))
  {
    var s' := FillStep(cfg, s, t);
    var s1 := s.(contents := s'.contents);
    assert PlaceInv(cfg, s1);
    hide PlaceInv;
    PlaceFrame(cfg, s1, s', t);
  }

  lemma FillStepInv(cfg: Config, s: State, t: nat)
    requires Inv(cfg, s) && Enabled(cfg, s, Step(t)) && s.calls[t].pc.Fill?
    ensures Inv(cfg, FillStep(cfg, s, t))
  {
    hide LockInv, CountInv, PlaceInv, DataInv, CallInv;
    var s' := FillStep(cfg, s, t);
    FillOwn(cfg, s, t);
    LockStep(s, s', t);
    BalanceFrame(s, s', t, Memory);
    BalanceFrame(s, s', t, Stream);
    FillData(cfg, s, t, Memory);
    FillData(cfg, s, t, Stream);
    FillPlace(cfg, s, t);
    OtherCalls(cfg, s, s', t);
  }

  lemma PushOwn(cfg: Config, s: State, t: nat)
    requires Enabled(cfg, s, Step(t)) && s.calls[t].pc.Push? && CallInv(cfg, s, t)
    ensures CallInv(cfg, PushStep(s, t), t)
  {
    hide SentInv, ChunkOk, Carries;
    var s' := PushStep(s, t);
    var c := s.calls[t];
    SentPc(cfg, c, s.Ch(c.ch), s'.Ch(c.ch), s'.calls[t].pc);
  }

  lemma PushCount(s: State, t: nat)
    requires LockInv(s) && t < |s.calls| && s.calls[t].pc.Push? && CountInv(s, s.calls[t].ch)
    ensures CountInv(PushStep(s, t), s.calls[t].ch)
  {
    var s' := PushStep(s, t);
    var c := s.calls[t].ch;
    SumsAfterUpdate(s.calls, t, s'.calls[t], c);
    LockOwner(s, t);
    assert Sched(s, c) == [] && Sched(s', c) == [s.calls[t].pc.buf];
    hide LockInv, Sched, SumTodo, SumPopping;
    assert s'.Ch(c).pushed == s'.Ch(c).popped + s'.Ch(c).out;
  }

  /** Moving a held buffer into a queue keeps the placement map truthful about the calls. */
  lemma HeldMoves(place: map<BufId, Place>, calls: seq<Call>, t: nat, b: BufId, to: Place, c': Call)
    requires HeldInv(place, calls) && t < |calls| && b in place
    requires to.HeldBy? ==> to.call == t && !place[b].HeldBy?
    requires !to.HeldBy? ==> place[b] == HeldBy(t)
    requires forall x :: Holds(calls[t].pc, x) <==> (x == b && !to.HeldBy?)
    requires forall x :: Holds(c'.pc, x) <==> (x == b && to.HeldBy?)
    ensures HeldInv(place[b := to], calls[t := c'])
  {
    var place', calls' := place[b := to], calls[t := c'];
    forall u, x | 0 <= u < |calls'| && Holds(calls'[u].pc, x) ensures x in place' && place'[x] == HeldBy(u) {
      if u != t { assert Holds(calls[u].pc, x); }
    }
    forall x | x in place' && place'[x].HeldBy? ensures place'[x].call < |calls'|
        && Holds(calls'[place'[x].call].pc, x) {
    }
  }

  lemma PoolMoves(cfg: Config, s: State, s': State, b: BufId, to: Place)
    requires BytesInv(cfg, s) && PoolInv(s.place, s.pool) && b in s.place
    requires s'.place == s.place[b := to] && s'.contents == s.contents
    requires s'.pool == if to.InPool? then s.pool + {b} else s.pool - {b}
    ensures BytesInv(cfg, s') && PoolInv(s'.place, s'.pool)
  {
  }

  lemma QueueAppend(place: map<BufId, Place>, q: seq<BufId>, c: Channel, b: BufId)
    requires QueueInv(place, q, c) && b in place && place[b] != Queued(c)
    ensures QueueInv(place[b := Queued(c)], q + [b], c)
  {
    var place' := place[b := Queued(c)];
    forall x | x in place' && place'[x] == Queued(c) ensures x in q + [b] {
      if x != b { assert x in q; }
    }
  }

  lemma QueuePop(place: map<BufId, Place>, q: seq<BufId>, c: Channel, to: Place)
    requires QueueInv(place, q, c) && q != [] && to != Queued(c)
    ensures QueueInv(place[q[0] := to], q[1..], c)
  {
    var place' := place[q[0] := to];
    forall x | x in place' && place'[x] == Queued(c) ensures x in q[1..] {
      assert x in q && x != q[0];
    }
  }

  lemma QueueStays(place: map<BufId, Place>, q: seq<BufId>, c: Channel, b: BufId, to: Place)
    requires QueueInv(place, q, c) && b in place && place[b] != Queued(c) && to != Queued(c)
    ensures QueueInv(place[b := to], q, c)
  {
  }

  lemma HeldPlace(place: map<BufId, Place>, calls: seq<Call>, t: nat, b: BufId)
    requires HeldInv(place, calls) && t < |calls| && Holds(calls[t].pc, b)
    ensures b in place && place[b] == HeldBy(t)
  {
  }

  lemma PushPlace(cfg: Config, s: State, t: nat)
    requires PlaceInv(cfg, s) && t < |s.calls| && s.calls[t].pc.Push?
    ensures PlaceInv(cfg, PushStep(s, t))
  {
    hide BytesInv, PoolInv, HeldInv, QueueInv;
    var s' := PushStep(s, t);
    var b := s.calls[t].pc.buf;
    HeldPlace(s.place, s.calls, t, b);
    HeldMoves(s.place, s.calls, t, b, Queued(s.calls[t].ch), s'.calls[t]);
    NotPooled(s, b);
    PoolMoves(cfg, s, s', b, Queued(s.calls[t].ch));
    if s.calls[t].ch.Memory? {
      QueueAppend(s.place, s.memory.out, Memory, b);
      QueueStays(s.place, s.stream.out, Stream, b, Queued(Memory));
    } else {
      QueueStays(s.place, s.memory.out, Memory, b, Queued(Stream));
      QueueAppend(s.place, s.stream.out, Stream, b);
    }
  }

  lemma NotPooled(s: State, b: BufId)
    requires PoolInv(s.place, s.pool) && b in s.place && s.place[b] != InPool
    ensures s.pool == s.pool - {b}
  {
  }

  lemma PushStepInv(cfg: Config, s: State, t: nat)
    requires Inv(cfg, s) && Enabled(cfg, s, Step(t)) && s.calls[t].pc.Push?
    ensures Inv(cfg, PushStep(s, t))
  {
    hide LockInv, CountInv, PlaceInv, DataInv, CallInv;
    var s' := PushStep(s, t);
    LockOwner(s, t);
    LockStep(s, s', t);
    PushOwn(cfg, s, t);
    PushCount(s, t);
    if s.calls[t].ch.Memory? { BalanceFrame(s, s', t, Stream); } else { BalanceFrame(s, s', t, Memory); }
    PushPlace(cfg, s, t);
    DataFrame(cfg, s, s', Memory);
    DataFrame(cfg, s, s', Stream);
    OtherCalls(cfg, s, s', t);
  }

  lemma ScheduleOwn(cfg: Config, s: State, t: nat)
    requires Enabled(cfg, s, Step(t)) && s.calls[t].pc.Schedule? && CallInv(cfg, s, t)
    requires s.Ch(s.calls[t].ch).cntr == |s.Ch(s.calls[t].ch).issued|
    ensures CallInv(cfg, ScheduleStep(cfg, s, t), t)
  {
    hide SentInv, Carries;
    var s' := ScheduleStep(cfg, s, t);
    var c := s.calls[t];
    SentPc(cfg, c, s.Ch(c.ch), s.Ch(c.ch), s'.calls[t].pc);
    SentGrows(cfg, s'.calls[t], s.Ch(c.ch), s'.Ch(c.ch));
  }

  lemma ScheduleCount(cfg: Config, s: State, t: nat)
    requires LockInv(s) && Enabled(cfg, s, Step(t)) && s.calls[t].pc.Schedule? && CountInv(s, s.calls[t].ch)
    ensures CountInv(ScheduleStep(cfg, s, t), s.calls[t].ch)
    ensures s.Ch(s.calls[t].ch).cntr == |s.Ch(s.calls[t].ch).issued|
  {
    var s' := ScheduleStep(cfg, s, t);
    var c := s.calls[t].ch;
    SumsAfterUpdate(s.calls, t, s'.calls[t], c);
    LockOwner(s, t);
    assert Sched(s, c) == [s.calls[t].pc.buf] && Sched(s', c) == [];
    assert !Counting(s, c) && Counting(s', c);
    hide LockInv, Sched, Counting, SumTodo, SumPopping;
    assert s.Ch(c).pushed[|s.Ch(c).issued|] == s.Ch(c).pushed[|s.Ch(c).issued|..][0];
  }

  lemma ScheduleData(cfg: Config, s: State, t: nat, d: Channel)
    requires DataInv(cfg, s, d) && Enabled(cfg, s, Step(t)) && s.calls[t].pc.Schedule? && CallInv(cfg, s, t)
    ensures DataInv(cfg, ScheduleStep(cfg, s, t), d)
  {
    hide SentInv;
    var s' := ScheduleStep(cfg, s, t);
    var ch' := s'.Ch(d);
    forall k | |ch'.landed| <= k < |ch'.issued|
        ensures Carries(cfg, s'.contents, ch'.issued[k].buf, ch'.issued[k].data) {
      if k < |s.Ch(d).issued| { assert Carries(cfg, s.contents, ch'.issued[k].buf, ch'.issued[k].data); }
    }
  }

  lemma ScheduleStepInv(cfg: Config, s: State, t: nat)
    requires Inv(cfg, s) && Enabled(cfg, s, Step(t)) && s.calls[t].pc.Schedule?
    ensures Inv(cfg, ScheduleStep(cfg, s, t))
  {
    hide LockInv, CountInv, PlaceInv, DataInv, CallInv;
    var s' := ScheduleStep(cfg, s, t);
    LockOwner(s, t);
    LockStep(s, s', t);
    ScheduleCount(cfg, s, t);
    ScheduleOwn(cfg, s, t);
    if s.calls[t].ch.Memory? { BalanceFrame(s, s', t, Stream); } else { BalanceFrame(s, s', t, Memory); }
    PlaceFrame(cfg, s, s', t);
    ScheduleData(cfg, s, t, Memory);
    ScheduleData(cfg, s, t, Stream);
    OtherCalls(cfg, s, s', t);
  }

  /** A counted chunk extends the record by the next piece of the slice. */
  lemma SentAppend(cfg: Config, c: Call, ch: Chan, len: nat)
    requires SentInv(cfg, c, ch) && ChunkOk(cfg, c, ch, Chunk(ch.cntr, c.off, len))
    ensures SentInv(cfg, c.(pc := Steal, highest := ch.cntr, off := c.off + len, sent :=
        c.sent + [Chunk(ch.cntr, c.off, len)]),
                    ch.(cntr := ch.cntr + 1))
  {
    var c' := c.(pc := Steal, highest := ch.cntr, off := c.off + len, sent := c.sent + [Chunk(ch.cntr, c.off, len)]);
    var ch' := ch.(cntr := ch.cntr + 1);
    forall i | 0 <= i < |c'.sent| ensures ChunkOk(cfg, c', ch', c'.sent[i]) {
      if i < |c.sent| { assert ChunkOk(cfg, c, ch, c.sent[i]); }
    }
    forall i, j | 0 <= i < j < |c'.sent| ensures c'.sent[i].ticket < c'.sent[j].ticket {
      if j == |c.sent| { assert c.sent[i].ticket <= c.sent[|c.sent| - 1].ticket; }
    }
  }

  lemma SteadyCall(cfg: Config, s: State, t: nat)
    requires t < |s.calls| && s.calls[t].pc == Steal && SentInv(cfg, s.calls[t], s.Ch(s.calls[t].ch))
    ensures CallInv(cfg, s, t)
  {
    hide SentInv;
  }

  lemma CountOwn(cfg: Config, s: State, t: nat)
    requires t < |s.calls| && s.calls[t].pc.Count? && CallInv(cfg, s, t)
    ensures CallInv(cfg, CountStep(s, t), t)
  {
    hide SentInv, ChunkOk, Carries;
    var s' := CountStep(s, t);
    var c := s.calls[t];
    SentAppend(cfg, c, s.Ch(c.ch), c.pc.len);
    assert s'.calls[t].pc == Steal && SentInv(cfg, s'.calls[t], s'.Ch(c.ch));
    SteadyCall(cfg, s', t);
  }

  lemma CountCount(s: State, t: nat)
    requires LockInv(s) && t < |s.calls| && s.calls[t].pc.Count? && CountInv(s, s.calls[t].ch)
    ensures CountInv(CountStep(s, t), s.calls[t].ch)
  {
    var s' := CountStep(s, t);
    var c := s.calls[t].ch;
    SumsAfterUpdate(s.calls, t, s'.calls[t], c);
    LockOwner(s, t);
    assert Sched(s, c) == Sched(s', c) == [];
    assert Counting(s, c) && !Counting(s', c);
    hide LockInv, Sched, Counting, SumTodo, SumPopping;
  }

  lemma CountStepInv(cfg: Config, s: State, t: nat)
    requires Inv(cfg, s) && Enabled(cfg, s, Step(t)) && s.calls[t].pc.Count?
    ensures Inv(cfg, CountStep(s, t))
  {
    hide LockInv, CountInv, PlaceInv, DataInv, CallInv;
    var s' := CountStep(s, t);
    LockOwner(s, t);
    LockStep(s, s', t);
    CountCount(s, t);
    CountOwn(cfg, s, t);
    if s.calls[t].ch.Memory? { BalanceFrame(s, s', t, Stream); } else { BalanceFrame(s, s', t, Memory); }
    QuietStep(cfg, s, s', t);
  }

  /** Reading, counting and popping interrupts keeps the books of a channel balanced. */
  lemma BalancedInterrupts(ch: Chan, todo: nat, popping: nat, sched: seq<BufId>, counting: nat)
    requires Balanced(ch, todo, popping, sched, counting)
    ensures Balanced(ch.(pending := 0), todo + ch.pending, popping, sched, counting)
    ensures todo > 0 ==> Balanced(ch.(intCntr := ch.intCntr + 1), todo - 1, popping + 1, sched, counting)
    ensures ch.out != [] && popping > 0 ==>
      Balanced(ch.(out := ch.out[1..], popped := ch.popped + [ch.out[0]]), todo, popping - 1, sched, counting)
  {
    if ch.out != [] {
      assert ch.pushed == (ch.popped + [ch.out[0]]) + ch.out[1..];
    }
  }

  lemma PollOwn(cfg: Config, s: State, t: nat)
    requires t < |s.calls| && s.calls[t].pc.Poll? && CallInv(cfg, s, t)
    ensures CallInv(cfg, PollStep(s, t), t)
  {
    hide SentInv, ChunkOk, Carries;
    var s' := PollStep(s, t);
    var c := s.calls[t];
    SentPc(cfg, c, s.Ch(c.ch), s'.Ch(c.ch), s'.calls[t].pc);
  }

  lemma PollStepInv(cfg: Config, s: State, t: nat)
    requires Inv(cfg, s) && Enabled(cfg, s, Step(t)) && s.calls[t].pc.Poll?
    ensures Inv(cfg, PollStep(s, t))
  {
    hide LockInv, CountInv, PlaceInv, DataInv, CallInv;
    var s' := PollStep(s, t);
    LockStep(s, s', t);
    PollOwn(cfg, s, t);
    BalanceFrame(s, s', t, Memory);
    BalanceFrame(s, s', t, Stream);
    QuietStep(cfg, s, s', t);
  }

  lemma ReadOwn(cfg: Config, s: State, t: nat)
    requires t < |s.calls| && s.calls[t].pc.Read? && CallInv(cfg, s, t)
    ensures CallInv(cfg, ReadStep(s, t), t)
  {
    hide SentInv, ChunkOk, Carries;
    var s' := ReadStep(s, t);
    var c := s.calls[t];
    SentPc(cfg, c, s.Ch(c.ch), s'.Ch(c.ch), s'.calls[t].pc);
  }

  lemma ReadCount(s: State, t: nat)
    requires LockInv(s) && t < |s.calls| && s.calls[t].pc.Read? && CountInv(s, s.calls[t].ch)
    ensures CountInv(ReadStep(s, t), s.calls[t].ch)
  {
    var s' := ReadStep(s, t);
    var c := s.calls[t].ch;
    SumsAfterUpdate(s.calls, t, s'.calls[t], c);
    SameTickets(s, s', t, c);
    hide LockInv, Balanced, Sched, Counting, SumTodo, SumPopping;
    BalancedInterrupts(s.Ch(c), SumTodo(s.calls, c), SumPopping(s.calls, c), Sched(s, c), if Counting(s, c) then 1
        else 0);
  }

  lemma ReadStepInv(cfg: Config, s: State, t: nat)
    requires Inv(cfg, s) && Enabled(cfg, s, Step(t)) && s.calls[t].pc.Read?
    ensures Inv(cfg, ReadStep(s, t))
  {
    hide LockInv, CountInv, PlaceInv, DataInv, CallInv;
    var s' := ReadStep(s, t);
    LockStep(s, s', t);
    ReadCount(s, t);
    ReadOwn(cfg, s, t);
    if s.calls[t].ch.Memory? { BalanceFrame(s, s', t, Stream); } else { BalanceFrame(s, s', t, Memory); }
    QuietStep(cfg, s, s', t);
  }

  lemma DrainOwn(cfg: Config, s: State, t: nat)
    requires t < |s.calls| && s.calls[t].pc.Drain? && CallInv(cfg, s, t)
    ensures CallInv(cfg, DrainStep(s, t), t)
  {
    hide SentInv, ChunkOk, Carries;
    var s' := DrainStep(s, t);
    var c := s.calls[t];
    SentPc(cfg, c, s.Ch(c.ch), s'.Ch(c.ch), s'.calls[t].pc);
  }

  lemma DrainCount(s: State, t: nat)
    requires LockInv(s) && t < |s.calls| && s.calls[t].pc.Drain? && CountInv(s, s.calls[t].ch)
    ensures CountInv(DrainStep(s, t), s.calls[t].ch)
  {
    var s' := DrainStep(s, t);
    var c := s.calls[t].ch;
    SumsAfterUpdate(s.calls, t, s'.calls[t], c);
    SameTickets(s, s', t, c);
    hide LockInv, Balanced, Sched, Counting, SumTodo, SumPopping;
    BalancedInterrupts(s.Ch(c), SumTodo(s.calls, c), SumPopping(s.calls, c), Sched(s, c), if Counting(s, c) then 1
        else 0);
  }

  lemma DrainStepInv(cfg: Config, s: State, t: nat)
    requires Inv(cfg, s) && Enabled(cfg, s, Step(t)) && s.calls[t].pc.Drain?
    ensures Inv(cfg, DrainStep(s, t))
  {
    hide LockInv, CountInv, PlaceInv, DataInv, CallInv;
    var s' := DrainStep(s, t);
    LockStep(s, s', t);
    DrainCount(s, t);
    DrainOwn(cfg, s, t);
    if s.calls[t].ch.Memory? { BalanceFrame(s, s', t, Stream); } else { BalanceFrame(s, s', t, Memory); }
    QuietStep(cfg, s, s', t);
  }

  /** A call about to pop finds its buffer: it is the one whose transfer finished. */
  lemma PopFindsBuffer(s: State, t: nat)
    requires t < |s.calls| && s.calls[t].pc.Pop? && CountInv(s, s.calls[t].ch)
    ensures var ch := s.Ch(s.calls[t].ch);
      ch.out != [] && |ch.popped| < |ch.landed| <= |ch.issued| && ch.out[0] == ch.issued[|ch.popped|].buf
  {
    var ch := s.Ch(s.calls[t].ch);
    SumsAfterUpdate(s.calls, t, s.calls[t], s.calls[t].ch);
    assert |ch.popped| < |ch.landed|;
    assert ch.pushed[|ch.popped|] == ch.out[0];
  }

  lemma PopOwn(cfg: Config, s: State, t: nat)
    requires t < |s.calls| && s.calls[t].pc.Pop? && CallInv(cfg, s, t) && s.Ch(s.calls[t].ch).out != []
    ensures CallInv(cfg, PopStep(s, t), t)
  {
    hide SentInv, ChunkOk, Carries;
    var s' := PopStep(s, t);
    var c := s.calls[t];
    SentPc(cfg, c, s.Ch(c.ch), s'.Ch(c.ch), s'.calls[t].pc);
  }

  lemma PopCount(s: State, t: nat)
    requires LockInv(s) && t < |s.calls| && s.calls[t].pc.Pop? && CountInv(s, s.calls[t].ch)
    ensures CountInv(PopStep(s, t), s.calls[t].ch)
  {
    var s' := PopStep(s, t);
    var c := s.calls[t].ch;
    PopFindsBuffer(s, t);
    SumsAfterUpdate(s.calls, t, s'.calls[t], c);
    SameTickets(s, s', t, c);
    hide LockInv, Balanced, Sched, Counting, SumTodo, SumPopping;
    BalancedInterrupts(s.Ch(c), SumTodo(s.calls, c), SumPopping(s.calls, c), Sched(s, c), if Counting(s, c) then 1
        else 0);
  }

  lemma FrontPlace(place: map<BufId, Place>, q: seq<BufId>, c: Channel)
    requires QueueInv(place, q, c) && q != []
    ensures q[0] in place && place[q[0]] == Queued(c)
  {
  }

  lemma PopPlace(cfg: Config, s: State, t: nat)
    requires PlaceInv(cfg, s) && t < |s.calls| && s.calls[t].pc.Pop? && s.Ch(s.calls[t].ch).out != []
    ensures PlaceInv(cfg, PopStep(s, t))
  {
    hide BytesInv, PoolInv, HeldInv, QueueInv;
    var s' := PopStep(s, t);
    var b := s.Ch(s.calls[t].ch).out[0];
    FrontPlace(s.place, s.Ch(s.calls[t].ch).out, s.calls[t].ch);
    HeldMoves(s.place, s.calls, t, b, HeldBy(t), s'.calls[t]);
    NotPooled(s, b);
    PoolMoves(cfg, s, s', b, HeldBy(t));
    if s.calls[t].ch.Memory? {
      QueuePop(s.place, s.memory.out, Memory, HeldBy(t));
      QueueStays(s.place, s.stream.out, Stream, b, HeldBy(t));
    } else {
      QueueStays(s.place, s.memory.out, Memory, b, HeldBy(t));
      QueuePop(s.place, s.stream.out, Stream, HeldBy(t));
    }
  }

  lemma PopStepInv(cfg: Config, s: State, t: nat)
    requires Inv(cfg, s) && Enabled(cfg, s, Step(t)) && s.calls[t].pc.Pop?
    ensures Inv(cfg, PopStep(s, t))
  {
    hide LockInv, CountInv, PlaceInv, DataInv, CallInv;
    var s' := PopStep(s, t);
    PopFindsBuffer(s, t);
    LockStep(s, s', t);
    PopCount(s, t);
    PopOwn(cfg, s, t);
    PopPlace(cfg, s, t);
    if s.calls[t].ch.Memory? { BalanceFrame(s, s', t, Stream); } else { BalanceFrame(s, s', t, Memory); }
    DataFrame(cfg, s, s', Memory);
    DataFrame(cfg, s, s', Stream);
    OtherCalls(cfg, s, s', t);
  }

  lemma RecycleOwn(cfg: Config, s: State, t: nat)
    requires t < |s.calls| && s.calls[t].pc.Recycle? && CallInv(cfg, s, t)
    ensures CallInv(cfg, RecycleStep(s, t), t)
  {
    hide SentInv, ChunkOk, Carries;
    SentPc(cfg, s.calls[t], s.Ch(s.calls[t].ch), s.Ch(s.calls[t].ch), RecycleStep(s, t).calls[t].pc);
  }

  lemma RecyclePlace(cfg: Config, s: State, t: nat)
    requires PlaceInv(cfg, s) && t < |s.calls| && s.calls[t].pc.Recycle?
    ensures PlaceInv(cfg, RecycleStep(s, t))
  {
    var s' := RecycleStep(s, t);
    var b := s.calls[t].pc.buf;
    assert Holds(s.calls[t].pc, b);
    HeldMoves(s.place, s.calls, t, b, InPool, s'.calls[t]);
    hide BytesInv, PoolInv, HeldInv, QueueInv;
    PoolMoves(cfg, s, s', b, InPool);
    QueueStays(s.place, s.memory.out, Memory, b, InPool);
    QueueStays(s.place, s.stream.out, Stream, b, InPool);
  }

  lemma RecycleStepInv(cfg: Config, s: State, t: nat)
    requires Inv(cfg, s) && Enabled(cfg, s, Step(t)) && s.calls[t].pc.Recycle?
    ensures Inv(cfg, RecycleStep(s, t))
  {
    hide LockInv, CountInv, PlaceInv, DataInv, CallInv;
    var s' := RecycleStep(s, t);
    LockStep(s, s', t);
    BalanceFrame(s, s', t, Memory);
    BalanceFrame(s, s', t, Stream);
    RecycleOwn(cfg, s, t);
    RecyclePlace(cfg, s, t);
    DataFrame(cfg, s, s', Memory);
    DataFrame(cfg, s, s', Stream);
    OtherCalls(cfg, s, s', t);
  }

  lemma StealBufferInv(cfg: Config, s: State, a: Action)
    requires Inv(cfg, s) && a.StealBuffer? && Enabled(cfg, s, a)
    ensures Inv(cfg, Apply(cfg, s, a))
  {
    hide LockInv, CountInv, PlaceInv, DataInv, CallInv;
    var s' := Apply(cfg, s, a);
    var t := a.call;
    LockStep(s, s', t);
    BalanceFrame(s, s', t, Memory);
    BalanceFrame(s, s', t, Stream);
    StealBufferOwn(cfg, s, a);
    StealBufferPlace(cfg, s, a);
    DataFrame(cfg, s, s', Memory);
    DataFrame(cfg, s, s', Stream);
    OtherCalls(cfg, s, s', t);
  }

  lemma StealBufferOwn(cfg: Config, s: State, a: Action)
    requires a.StealBuffer? && Enabled(cfg, s, a) && CallInv(cfg, s, a.call)
    ensures CallInv(cfg, Apply(cfg, s, a), a.call)
  {
    hide SentInv, ChunkOk, Carries;
    SentPc(cfg, s.calls[a.call], s.Ch(s.calls[a.call].ch), s.Ch(s.calls[a.call].ch), Fill(a.buf));
  }

  lemma StealBufferPlace(cfg: Config, s: State, a: Action)
    requires a.StealBuffer? && Enabled(cfg, s, a) && PlaceInv(cfg, s)
    ensures PlaceInv(cfg, Apply(cfg, s, a))
  {
    var s' := Apply(cfg, s, a);
    HeldMoves(s.place, s.calls, a.call, a.buf, HeldBy(a.call), s'.calls[a.call]);
    hide BytesInv, PoolInv, HeldInv, QueueInv;
    PoolMoves(cfg, s, s', a.buf, HeldBy(a.call));
    QueueStays(s.place, s.memory.out, Memory, a.buf, HeldBy(a.call));
    QueueStays(s.place, s.stream.out, Stream, a.buf, HeldBy(a.call));
  }

  lemma EngineInv(cfg: Config, s: State, a: Action)
    requires Inv(cfg, s) && (a.Complete? || a.Raise?) && Enabled(cfg, s, a)
    ensures Inv(cfg, Apply(cfg, s, a))
  {
    hide LockInv, CountInv, PlaceInv, DataInv, CallInv;
    var s' := Apply(cfg, s, a);
    EngineFrame(cfg, s, a);
    EngineChannel(cfg, s, a, Memory);
    EngineChannel(cfg, s, a, Stream);
    forall t | 0 <= t < |s'.calls| ensures CallInv(cfg, s', t) {
      IdleCall(cfg, s, s', t);
    }
  }

  lemma EngineFrame(cfg: Config, s: State, a: Action)
    requires LockInv(s) && PlaceInv(cfg, s) && (a.Complete? || a.Raise?) && Enabled(cfg, s, a)
    ensures LockInv(Apply(cfg, s, a)) && PlaceInv(cfg, Apply(cfg, s, a))
  {
    hide HeldInv, QueueInv, PoolInv;
  }

  lemma SameLockView(s: State, s': State, c: Channel)
    requires s'.lock == s.lock && s'.calls == s.calls
    ensures Sched(s', c) == Sched(s, c) && Counting(s', c) == Counting(s, c)
  {
  }

  lemma EngineChannel(cfg: Config, s: State, a: Action, c: Channel)
    requires CountInv(s, c) && DataInv(cfg, s, c) && (a.Complete? || a.Raise?) && Enabled(cfg, s, a)
    ensures CountInv(Apply(cfg, s, a), c) && DataInv(cfg, Apply(cfg, s, a), c)
  {
    hide Balanced, SumTodo, SumPopping, Sched, Counting, DataInv, Carries;
    var s' := Apply(cfg, s, a);
    SameLockView(s, s', c);
    if a.ch == c {
      BalancedEngine(s.Ch(c), s'.Ch(c), SumTodo(s.calls, c), SumPopping(s.calls, c), Sched(s, c), if Counting(s, c)
          then 1 else 0);
    }
    if a.Complete? && a.ch == c {
      CompleteData(cfg, s, a);
    } else {
      DataFrame(cfg, s, s', c);
    }
  }

  lemma BalancedEngine(ch: Chan, ch': Chan, todo: nat, popping: nat, sched: seq<BufId>, counting: nat)
    requires Balanced(ch, todo, popping, sched, counting)
    requires || (ch.raised < |ch.landed| && ch' == ch.(raised := ch.raised + 1, pending := ch.pending + 1))
             || (|ch.landed| < |ch.issued| && |ch'.landed| == |ch.landed| + 1 && ch' == ch.(landed := ch'.landed))
    ensures Balanced(ch', todo, popping, sched, counting)
  {
  }

  /** What the engine reads from the buffer on completion is what the call put there. */
  lemma CompleteData(cfg: Config, s: State, a: Action)
    requires a.Complete? && DataInv(cfg, s, a.ch) && Enabled(cfg, s, a)
    ensures DataInv(cfg, Apply(cfg, s, a), a.ch)
  {
    var s' := Apply(cfg, s, a);
    var ch, ch' := s.Ch(a.ch), s'.Ch(a.ch);
    var x := ch.issued[|ch.landed|];
    assert Carries(cfg, s.contents, x.buf, x.data);
    assert ch'.landed == ch.landed + [x.data];
    forall k | |ch'.landed| <= k < |ch'.issued|
        ensures Carries(cfg, s'.contents, ch'.issued[k].buf, ch'.issued[k].data) {
      assert Carries(cfg, s.contents, ch.issued[k].buf, ch.issued[k].data);
    }
  }

  /** Every enabled action keeps the invariant. */
  lemma ApplyInv(cfg: Config, s: State, a: Action)
    requires Inv(cfg, s) && Enabled(cfg, s, a)
    ensures Inv(cfg, Apply(cfg, s, a))
  {
    hide Inv;
    match a {
      case Begin(_, _, _) => BeginInv(cfg, s, a);
      case StealBuffer(_, _) => StealBufferInv(cfg, s, a);
      case Complete(_) => EngineInv(cfg, s, a);
      case Raise(_) => EngineInv(cfg, s, a);
      case Step(t) =>
        match s.calls[t].pc {
          case Steal => StealStepInv(cfg, s, t);
          case Fill(_) => FillStepInv(cfg, s, t);
          case Acquire(_, _) => AcquireStepInv(cfg, s, t);
          case Push(_, _) => PushStepInv(cfg, s, t);
          case Schedule(_, _) => ScheduleStepInv(cfg, s, t);
          case Count(_) => CountStepInv(cfg, s, t);
          case Poll(_) => PollStepInv(cfg, s, t);
          case Read(_) => ReadStepInv(cfg, s, t);
          case Drain(_, _) => DrainStepInv(cfg, s, t);
          case Pop(_, _) => PopStepInv(cfg, s, t);
          case Recycle(_, _, _) => RecycleStepInv(cfg, s, t);
        }
    }
  }
}
