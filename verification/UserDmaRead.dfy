/** The device-to-host half of the user-space DMA engine as a step system.
 *
 *  Any number of calls to `do_copy_from` run at once on one channel (memory reads or card-to-host
 *  streams).  A call keeps the bounce buffers of its outstanding chunks in a private list, in the order
 *  of their tickets, and copies a buffer back once the shared interrupt counter has passed its ticket.
 *  Calls on the other channel share only the buffer pool and the lock; they appear as foreign steps that
 *  take a pooled buffer, scribble on it, put it back, and take or drop the lock.
 */
module UserDmaRead {

  import opened Common
  import opened Dma

  datatype Config = Config(sizes: map<BufId, nat>, devOffset: nat, stream: bool)

  /** A command in the engine.  `call` and `idx` record whose chunk it is. */
  datatype Transfer = Transfer(buf: BufId, addr: nat, len: nat, call: nat, idx: nat)

  /** The channel.  `issued` and `delivered` are histories: the commands written to the engine and the
   *  bytes it put into the bounce buffer when it finished each of them. */
  datatype Chan = Chan(cntr: nat, intCntr: nat, pending: nat, raised: nat, issued: seq<Transfer>,
      delivered: seq<seq<Byte>>)

  datatype Slot = Full(buf: BufId) | Taken

  /** An entry of `used_buffers`. */
  datatype Used = Used(ticket: nat, slot: Slot, off: nat, len: nat)

  /** Where a call is.  `snap` is the counter value `release_buffer` loaded, `i` its position in the list. */
  datatype Pc =
    | Check
    | Add(n: nat)
    | Load
    | Copy(snap: nat, i: nat)
    | Give(snap: nat, i: nat, buf: BufId)
    | Retain(snap: nat)
    | Steal
    | Acquire(buf: BufId, len: nat)
    | Schedule(buf: BufId, len: nat)
    | Count(buf: BufId, len: nat)
    | Test
    | Returned

  /** A call.  `sent` and `copied` are histories: all chunks given a ticket, and the tickets copied back. */
  datatype Call = Call(ptr: nat, out: seq<Byte>, off: nat, used: seq<Used>, pc: Pc, sent: seq<Chunk>, copied: seq<nat>)

  datatype Place = InPool | HeldBy(call: nat) | Foreign

  datatype Lock = Free | Owner(call: nat) | Other

  datatype State = State(
    pool: set<BufId>,
    contents: map<BufId, seq<Byte>>,
    dev: int -> Byte,
    ch: Chan,
    lock: Lock,
    calls: seq<Call>,
    place: map<BufId, Place>)
  {
    ghost function SetCall(t: nat, c: Call): State
      requires t < |calls|
    {
      this.(calls := calls[t := c])
    }
  }

  datatype Action =
    | Begin(ptr: nat, out: seq<Byte>)
    | StealBuffer(call: nat, buf: BufId)
    | Step(call: nat)
    | Complete(bytes: seq<Byte>)
    | Raise
    | DeviceChanges(dev: int -> Byte)
    | ForeignSteal(buf: BufId)
    | ForeignScribble(buf: BufId, bytes: seq<Byte>)
    | ForeignReturn(buf: BufId)
    | ForeignLock
    | ForeignUnlock

  const EmptyChan := Chan(0, 0, 0, 0, [], [])

  ghost predicate Init(cfg: Config, s: State) {
    && s.pool == cfg.sizes.Keys
    && s.contents.Keys == cfg.sizes.Keys
    && (forall b | b in s.contents :: |s.contents[b]| == cfg.sizes[b])
    && s.ch == EmptyChan
    && s.lock == Free
    && s.calls == []
    && s.place.Keys == cfg.sizes.Keys
    && (forall b | b in s.place :: s.place[b] == InPool)
  }

  function Target(cfg: Config, c: Call, off: nat): nat {
    if cfg.stream then cfg.devOffset + c.ptr else cfg.devOffset + c.ptr + off
  }

  ghost predicate Reads(dev: int -> Byte, addr: nat, bytes: seq<Byte>) {
    forall p | 0 <= p < |bytes| :: bytes[p] == dev(addr + p)
  }

  /** `Vec::retain`: keeps the entries whose ticket has not been reached. */
  function Keep(used: seq<Used>, snap: nat): seq<Used> {
    if used == [] then []
    else (if used[0].ticket >= snap then [used[0]] else []) + Keep(used[1..], snap)
  }

  ghost predicate Enabled(cfg: Config, s: State, a: Action) {
    match a
    case Begin(_, _) => true
    case StealBuffer(t, b) => t < |s.calls| && s.calls[t].pc.Steal? && b in s.pool && b in cfg.sizes
        && s.calls[t].off <= |s.calls[t].out|
    case Complete(bytes) =>
      && |s.ch.delivered| < |s.ch.issued|
      && var x := s.ch.issued[|s.ch.delivered|];
         && x.buf in s.contents && x.len <= |s.contents[x.buf]|
         && |bytes| == x.len
         && (!cfg.stream ==> Reads(s.dev, x.addr, bytes))
    case Raise => s.ch.raised < |s.ch.delivered|
    case DeviceChanges(_) => true
    case ForeignSteal(b) => b in s.pool
    case ForeignScribble(b, bytes) => b in s.place && s.place[b] == Foreign && b in cfg.sizes && |bytes| == cfg.sizes[b]
    case ForeignReturn(b) => b in s.place && s.place[b] == Foreign
    case ForeignLock => s.lock == Free
    case ForeignUnlock => s.lock == Other
    case Step(t) =>
      && t < |s.calls|
      && var c := s.calls[t];
         match c.pc
         case Acquire(_, _) => s.lock == Free
         case Copy(snap, i) =>
           i < |c.used| && c.used[i].ticket < snap && c.used[i].slot.Full? ==>
             && c.used[i].slot.buf in s.contents && c.used[i].len <= |s.contents[c.used[i].slot.buf]|
             && c.used[i].off + c.used[i].len <= |c.out|
         case Returned => false
         case _ => true
  }

  ghost function CheckStep(s: State, t: nat): State
    requires t < |s.calls|
  {
    s.(ch := s.ch.(pending := 0)).SetCall(t, s.calls[t].(pc := Add(s.ch.pending)))
  }

  ghost function AddStep(s: State, t: nat): State
    requires t < |s.calls| && s.calls[t].pc.Add?
  {
    var c := s.calls[t];
    s.(ch := s.ch.(intCntr := s.ch.intCntr + c.pc.n)).SetCall(t, c.(pc := if c.off < |c.out| then Load else Test))
  }

  ghost function LoadStep(s: State, t: nat): State
    requires t < |s.calls|
  {
    s.SetCall(t, s.calls[t].(pc := Copy(s.ch.intCntr, 0)))
  }

  /** A call after looking at entry `i` of its list: copies the buffer back, or stops at the first ticket not
   *  reached. */
  function Copied(c: Call, contents: map<BufId, seq<Byte>>): Call
    requires c.pc.Copy?
    requires c.pc.i < |c.used| && c.used[c.pc.i].ticket < c.pc.snap && c.used[c.pc.i].slot.Full? ==>
             && c.used[c.pc.i].slot.buf in contents && c.used[c.pc.i].len <= |contents[c.used[c.pc.i].slot.buf]|
             && c.used[c.pc.i].off + c.used[c.pc.i].len <= |c.out|
  {
    var (snap, i) := (c.pc.snap, c.pc.i);
    if i < |c.used| && c.used[i].ticket < snap then
      match c.used[i].slot
      case Full(b) =>
        var (o, n) := (c.used[i].off, c.used[i].len);
        c.(out := c.out[..o] + contents[b][..n] + c.out[o + n..],
           used := c.used[i := c.used[i].(slot := Taken)],
           copied := c.copied + [c.used[i].ticket],
           pc := Give(snap, i, b))
      case Taken => c.(pc := Copy(snap, i + 1))
    else
      c.(pc := Retain(snap))
  }

  ghost function GiveStep(s: State, t: nat): State
    requires t < |s.calls| && s.calls[t].pc.Give?
  {
    var c := s.calls[t];
    s.(pool := s.pool + {c.pc.buf}, place := s.place[c.pc.buf := InPool])
     .SetCall(t, c.(pc := Copy(c.pc.snap, c.pc.i + 1)))
  }

  ghost function RetainStep(s: State, t: nat): State
    requires t < |s.calls| && s.calls[t].pc.Retain?
  {
    var c := s.calls[t];
    s.SetCall(t, c.(used := Keep(c.used, c.pc.snap), pc := if c.off < |c.out| then Steal else Check))
  }

  ghost function ScheduleStep(cfg: Config, s: State, t: nat): State
    requires t < |s.calls| && s.calls[t].pc.Schedule?
  {
    var c := s.calls[t];
    s.(ch := s.ch.(issued := s.ch.issued + [Transfer(c.pc.buf, Target(cfg, c, c.off), c.pc.len, t, |c.sent|)]))
     .SetCall(t, c.(pc := Count(c.pc.buf, c.pc.len)))
  }

  function Counted(c: Call, ticket: nat): Call
    requires c.pc.Count?
  {
    c.(pc := if c.off + c.pc.len < |c.out| then Check else Test,
       off := c.off + c.pc.len,
       used := c.used + [Used(ticket, Full(c.pc.buf), c.off, c.pc.len)],
       sent := c.sent + [Chunk(ticket, c.off, c.pc.len)])
  }

  ghost function StepCall(cfg: Config, s: State, t: nat): State
    requires Enabled(cfg, s, Step(t))
  {
    var c := s.calls[t];
    match c.pc
    case Check => CheckStep(s, t)
    case Add(_) => AddStep(s, t)
    case Load => LoadStep(s, t)
    case Copy(_, _) => s.SetCall(t, Copied(c, s.contents))
    case Give(_, _, _) => GiveStep(s, t)
    case Retain(_) => RetainStep(s, t)
    case Steal => s.SetCall(t, c.(pc := Check))
    case Acquire(b, n) => s.(lock := Owner(t)).SetCall(t, c.(pc := Schedule(b, n)))
    case Schedule(_, _) => ScheduleStep(cfg, s, t)
    case Count(_, _) => s.(ch := s.ch.(cntr := s.ch.cntr + 1), lock := Free).SetCall(t, Counted(c, s.ch.cntr))
    case Test => s.SetCall(t, c.(pc := if c.used == [] then Returned else Load))
  }

  ghost function Apply(cfg: Config, s: State, a: Action): State
    requires Enabled(cfg, s, a)
  {
    match a
    case Begin(ptr, out) => s.(calls := s.calls + [Call(ptr, out, 0, [], if |out| > 0 then Check else Test, [], [])])
    case StealBuffer(t, b) =>
      var c := s.calls[t];
      s.(pool := s.pool - {b}, place := s.place[b := HeldBy(t)])
       .SetCall(t, c.(pc := Acquire(b, Min(|c.out| - c.off, cfg.sizes[b]))))
    case Step(t) => StepCall(cfg, s, t)
    case Complete(bytes) =>
      var x := s.ch.issued[|s.ch.delivered|];
      s.(ch := s.ch.(delivered := s.ch.delivered + [bytes]),
         contents := s.contents[x.buf := bytes + s.contents[x.buf][x.len..]])
    case Raise => s.(ch := s.ch.(raised := s.ch.raised + 1, pending := s.ch.pending + 1))
    case DeviceChanges(d) => s.(dev := d)
    case ForeignSteal(b) => s.(pool := s.pool - {b}, place := s.place[b := Foreign])
    case ForeignScribble(b, bytes) => s.(contents := s.contents[b := bytes])
    case ForeignReturn(b) => s.(pool := s.pool + {b}, place := s.place[b := InPool])
    case ForeignLock => s.(lock := Other)
    case ForeignUnlock => s.(lock := Free)
  }

  // ---- Counting over calls ----

  function Adding(c: Call): nat {
    if c.pc.Add? then c.pc.n else 0
  }

  function SumAdding(calls: seq<Call>): nat {
    if calls == [] then 0 else Adding(calls[0]) + SumAdding(calls[1..])
  }

  lemma {:induction false} SumAfterUpdate(calls: seq<Call>, t: nat, c: Call)
    requires t < |calls|
    ensures SumAdding(calls[t := c]) == SumAdding(calls) - Adding(calls[t]) + Adding(c)
    ensures SumAdding(calls) >= Adding(calls[t])
  {
    if t > 0 {
      assert calls[t := c][1..] == calls[1..][t - 1 := c];
      SumAfterUpdate(calls[1..], t - 1, c);
    } else {
      assert calls[t := c][1..] == calls[1..];
    }
  }

  lemma {:induction false} SumAfterAppend(calls: seq<Call>, c: Call)
    ensures SumAdding(calls + [c]) == SumAdding(calls) + Adding(c)
  {
    if calls != [] {
      assert (calls + [c])[1..] == calls[1..] + [c];
      SumAfterAppend(calls[1..], c);
    } else {
      assert (calls + [c])[1..] == [];
    }
  }

  // ---- The invariant ----

  predicate Locked(pc: Pc) {
    pc.Schedule? || pc.Count?
  }

  ghost predicate LockInv(lock: Lock, calls: seq<Call>) {
    && (forall t | 0 <= t < |calls| && Locked(calls[t].pc) :: lock == Owner(t))
    && (lock.Owner? ==> lock.call < |calls| && Locked(calls[lock.call].pc))
  }

  /** 1 while the last command has no ticket yet. */
  function Unticketed(lock: Lock, calls: seq<Call>): nat {
    if lock.Owner? && lock.call < |calls| && calls[lock.call].pc.Count? then 1 else 0
  }

  ghost predicate Balanced(ch: Chan, adding: nat, unticketed: nat) {
    && |ch.issued| == ch.cntr + unticketed
    && |ch.delivered| <= |ch.issued|
    && ch.raised <= |ch.delivered|
    && ch.raised == ch.pending + ch.intCntr + adding
  }

  predicate InHand(pc: Pc, b: BufId) {
    match pc
    case Give(_, _, x) => x == b
    case Acquire(x, _) => x == b
    case Schedule(x, _) => x == b
    case Count(x, _) => x == b
    case _ => false
  }

  ghost predicate Listed(used: seq<Used>, b: BufId) {
    exists j :: 0 <= j < |used| && used[j].slot == Full(b)
  }

  ghost predicate Holds(c: Call, b: BufId) {
    InHand(c.pc, b) || Listed(c.used, b)
  }

  ghost predicate HeldInv(place: map<BufId, Place>, calls: seq<Call>) {
    && (forall t, b | 0 <= t < |calls| && Holds(calls[t], b) :: b in place && place[b] == HeldBy(t))
    && (forall b | b in place && place[b].HeldBy? :: place[b].call < |calls| && Holds(calls[place[b].call], b))
  }

  ghost predicate PoolInv(place: map<BufId, Place>, pool: set<BufId>) {
    forall b :: b in pool <==> b in place && place[b] == InPool
  }

  ghost predicate BytesInv(cfg: Config, contents: map<BufId, seq<Byte>>, place: map<BufId, Place>) {
    && place.Keys == cfg.sizes.Keys
    && contents.Keys == cfg.sizes.Keys
    && (forall b | b in contents :: |contents[b]| == cfg.sizes[b])
  }

  /** No buffer appears twice among the buffers of one call. */
  ghost predicate NoDup(c: Call) {
    && (forall i, j | 0 <= i < j < |c.used| && c.used[i].slot.Full? :: c.used[i].slot != c.used[j].slot)
    && (forall i | 0 <= i < |c.used| && c.used[i].slot.Full? :: !InHand(c.pc, c.used[i].slot.buf))
  }

  /** A chunk record agrees with the command that carries it. */
  predicate ChunkOk(cfg: Config, t: nat, c: Call, ch: Chan, i: nat)
    requires i < |c.sent|
  {
    var k := c.sent[i];
    && k.ticket < |ch.issued|
    && k.off + k.len <= |c.out|
    && ch.issued[k.ticket].addr == Target(cfg, c, k.off)
    && ch.issued[k.ticket].len == k.len
    && ch.issued[k.ticket].call == t
    && ch.issued[k.ticket].idx == i
  }

  /** The chunks sent so far cut `out[..off]` into consecutive pieces, in ticket order. */
  ghost predicate SentInv(cfg: Config, t: nat, c: Call, ch: Chan) {
    && c.off <= |c.out|
    && (forall i | 0 <= i < |c.sent| :: ChunkOk(cfg, t, c, ch, i))
    && (forall i | 0 <= i < |c.sent| - 1 :: c.sent[i].off + c.sent[i].len == c.sent[i + 1].off)
    && (forall i, j | 0 <= i < j < |c.sent| :: c.sent[i].ticket < c.sent[j].ticket)
    && (forall i | 0 <= i < |c.sent| :: c.sent[i].ticket < ch.cntr)
    && (c.sent == [] ==> c.off == 0)
    && (c.sent != [] ==> c.sent[0].off == 0 && c.sent[|c.sent| - 1].off + c.sent[|c.sent| - 1].len == c.off)
  }

  /** How many entries of the private list have been copied back and not yet dropped. */
  function TakenCount(c: Call): int {
    |c.copied| + |c.used| - |c.sent|
  }

  /** The private list is the tail of the chunks sent; a prefix of it has been taken. */
  ghost predicate UsedInv(c: Call, ch: Chan) {
    && |c.used| <= |c.sent|
    && 0 <= TakenCount(c) <= |c.used|
    && (forall j | 0 <= j < |c.used| ::
          && c.sent[|c.sent| - |c.used| + j] == Chunk(c.used[j].ticket, c.used[j].off, c.used[j].len)
          && (c.used[j].slot.Taken? <==> j < TakenCount(c))
          && (c.used[j].slot.Full? ==>
              c.used[j].ticket < |ch.issued| && ch.issued[c.used[j].ticket].buf == c.used[j].slot.buf))
  }

  /** What has been copied back is what the engine delivered, each chunk once and in order. */
  ghost predicate OutInv(c: Call, ch: Chan) {
    && |c.copied| <= |c.sent|
    && forall i | 0 <= i < |c.copied| ::
         && c.copied[i] == c.sent[i].ticket
         && c.sent[i].ticket < |ch.delivered|
         && c.sent[i].off + c.sent[i].len <= |c.out|
         && c.out[c.sent[i].off..c.sent[i].off + c.sent[i].len] == ch.delivered[c.sent[i].ticket]
  }

  ghost predicate Carries(contents: map<BufId, seq<Byte>>, b: BufId, bytes: seq<Byte>) {
    b in contents && |bytes| <= |contents[b]| && contents[b][..|bytes|] == bytes
  }

  /** Delivered bytes stay in their buffer until the owner takes them. */
  ghost predicate BufInv(c: Call, ch: Chan, contents: map<BufId, seq<Byte>>) {
    && (forall j | 0 <= j < |c.used| && c.used[j].slot.Full? && c.used[j].ticket < |ch.delivered| ::
         |ch.delivered[c.used[j].ticket]| == c.used[j].len
             && Carries(contents, c.used[j].slot.buf, ch.delivered[c.used[j].ticket]))
    && (c.pc.Count? && ch.cntr < |ch.delivered| ==>
         |ch.delivered[ch.cntr]| == c.pc.len && Carries(contents, c.pc.buf, ch.delivered[ch.cntr]))
  }

  ghost predicate PcInv(cfg: Config, t: nat, c: Call, ch: Chan) {
    match c.pc
    case Copy(snap, i) => snap <= |ch.delivered| && TakenCount(c) == i
        && (forall j | 0 <= j < i && j < |c.used| :: c.used[j].ticket < snap)
    case Give(snap, i, b) => snap <= |ch.delivered| && TakenCount(c) == i + 1
        && (forall j | 0 <= j <= i && j < |c.used| :: c.used[j].ticket < snap)
    case Retain(snap) =>
      && snap <= |ch.delivered|
      && (forall j | 0 <= j < TakenCount(c) && j < |c.used| :: c.used[j].ticket < snap)
      && (0 <= TakenCount(c) < |c.used| ==> c.used[TakenCount(c)].ticket >= snap)
    case Acquire(b, len) => TakenCount(c) == 0 && c.off + len <= |c.out| && b in cfg.sizes && len <= cfg.sizes[b]
    case Schedule(b, len) => TakenCount(c) == 0 && c.off + len <= |c.out| && b in cfg.sizes && len <= cfg.sizes[b]
    case Count(b, len) =>
      && TakenCount(c) == 0 && c.off + len <= |c.out| && b in cfg.sizes && len <= cfg.sizes[b]
      && |ch.issued| == ch.cntr + 1 && ch.issued[ch.cntr] == Transfer(b, Target(cfg, c, c.off), len, t, |c.sent|)
    case Test => TakenCount(c) == 0 && c.off == |c.out|
    case Returned => c.used == [] && TakenCount(c) == 0 && c.off == |c.out|
    case Steal => TakenCount(c) == 0
    case _ => TakenCount(c) == 0
  }

  ghost predicate CallInv(cfg: Config, t: nat, c: Call, ch: Chan, contents: map<BufId, seq<Byte>>) {
    && SentInv(cfg, t, c, ch)
    && UsedInv(c, ch)
    && OutInv(c, ch)
    && BufInv(c, ch, contents)
    && NoDup(c)
    && PcInv(cfg, t, c, ch)
  }

  /** A command the engine has not finished belongs to a call that still waits for it. */
  ghost predicate OwnedTransfer(cfg: Config, ch: Chan, calls: seq<Call>, k: nat)
    requires k < |ch.issued|
  {
    var x := ch.issued[k];
    && x.buf in cfg.sizes && x.len <= cfg.sizes[x.buf]
    && x.call < |calls|
    && var c := calls[x.call];
       if x.idx < |c.sent| then c.sent[x.idx].ticket == k
       else c.pc.Count? && c.pc.buf == x.buf && k == ch.cntr
  }

  ghost predicate EngineInv(cfg: Config, ch: Chan, calls: seq<Call>) {
    && (forall k | |ch.delivered| <= k < |ch.issued| :: OwnedTransfer(cfg, ch, calls, k))
    && |ch.delivered| <= |ch.issued|
    && (forall k | 0 <= k < |ch.delivered| :: |ch.delivered[k]| == ch.issued[k].len)
  }

  ghost predicate Inv(cfg: Config, s: State) {
    && LockInv(s.lock, s.calls)
    && Balanced(s.ch, SumAdding(s.calls), Unticketed(s.lock, s.calls))
    && BytesInv(cfg, s.contents, s.place)
    && PoolInv(s.place, s.pool)
    && HeldInv(s.place, s.calls)
    && EngineInv(cfg, s.ch, s.calls)
    && (forall t | 0 <= t < |s.calls| :: CallInv(cfg, t, s.calls[t], s.ch, s.contents))
  }

  // ---- One call ----

  /** A channel after some steps of calls: commands appended, nothing delivered. */
  predicate Grown(ch: Chan, ch': Chan) {
    ch.issued <= ch'.issued && ch'.delivered == ch.delivered && ch.cntr <= ch'.cntr
  }

  lemma SentGrows(cfg: Config, t: nat, c: Call, ch: Chan, ch': Chan)
    requires SentInv(cfg, t, c, ch) && ch.issued <= ch'.issued && ch.cntr <= ch'.cntr
    ensures SentInv(cfg, t, c, ch')
  {
    forall i | 0 <= i < |c.sent| ensures ChunkOk(cfg, t, c, ch', i) {
      assert ChunkOk(cfg, t, c, ch, i);
    }
  }

  lemma UsedGrows(c: Call, ch: Chan, ch': Chan)
    requires UsedInv(c, ch) && ch.issued <= ch'.issued
    ensures UsedInv(c, ch')
  {
  }

  /** A call that does not move keeps its invariant. */
  lemma IdleCall(cfg: Config, t: nat, c: Call, ch: Chan, ch': Chan, contents: map<BufId, seq<Byte>>)
    requires CallInv(cfg, t, c, ch, contents) && Grown(ch, ch')
    requires c.pc.Count? ==> ch'.issued == ch.issued && ch'.cntr == ch.cntr
    ensures CallInv(cfg, t, c, ch', contents)
  {
    hide SentInv, UsedInv, NoDup;
    SentGrows(cfg, t, c, ch, ch');
    UsedGrows(c, ch, ch');
  }

  /** The record of a call does not depend on where it is. */
  lemma SentPc(cfg: Config, t: nat, c: Call, c': Call, ch: Chan)
    requires SentInv(cfg, t, c, ch)
    requires c'.ptr == c.ptr && |c'.out| == |c.out| && c'.off == c.off && c'.sent == c.sent
    ensures SentInv(cfg, t, c', ch)
  {
    forall i | 0 <= i < |c.sent| ensures ChunkOk(cfg, t, c', ch, i) {
      assert ChunkOk(cfg, t, c, ch, i);
    }
  }

  /** Steps that only move the program counter. */
  lemma MovedCall(cfg: Config, t: nat, c: Call, ch: Chan, contents: map<BufId, seq<Byte>>, pc: Pc)
    requires CallInv(cfg, t, c, ch, contents)
    requires forall b | InHand(pc, b) :: InHand(c.pc, b) || !Listed(c.used, b)
    requires !pc.Count? && PcInv(cfg, t, c.(pc := pc), ch)
    ensures CallInv(cfg, t, c.(pc := pc), ch, contents)
  {
    hide SentInv, PcInv;
    SentPc(cfg, t, c, c.(pc := pc), ch);
    var c' := c.(pc := pc);
    assert UsedInv(c', ch) && OutInv(c', ch) && BufInv(c', ch, contents);
    forall i | 0 <= i < |c.used| && c.used[i].slot.Full? ensures !InHand(pc, c.used[i].slot.buf) {
      assert Listed(c.used, c.used[i].slot.buf);
    }
  }

  /** Chunks are consecutive, so an earlier one ends before a later one begins. */
  lemma {:induction false} ChunksApart(cfg: Config, t: nat, c: Call, ch: Chan, i: nat, j: nat)
    requires SentInv(cfg, t, c, ch) && i < j < |c.sent|
    ensures c.sent[i].off + c.sent[i].len <= c.sent[j].off
  {
    assert c.sent[j - 1].off + c.sent[j - 1].len == c.sent[j - 1 + 1].off;
    if i < j - 1 {
      ChunksApart(cfg, t, c, ch, i, j - 1);
    }
  }

  /** The entry a call looks at in `release_buffer`. */
  predicate CopiesNext(c: Call) {
    c.pc.Copy? && c.pc.i < |c.used| && c.used[c.pc.i].ticket < c.pc.snap
  }

  /** Under the invariant the entry reached is full, delivered and intact in its buffer. */
  lemma NextEntry(cfg: Config, t: nat, c: Call, ch: Chan, contents: map<BufId, seq<Byte>>)
    requires CallInv(cfg, t, c, ch, contents) && CopiesNext(c)
    ensures var u := c.used[c.pc.i];
      && u.slot.Full? && u.ticket < |ch.delivered| && |ch.delivered[u.ticket]| == u.len
      && Carries(contents, u.slot.buf, ch.delivered[u.ticket])
      && u.off + u.len <= |c.out|
      && |c.copied| < |c.sent| && c.sent[|c.copied|] == Chunk(u.ticket, u.off, u.len)
  {
    hide NoDup, OutInv;
    assert TakenCount(c) == c.pc.i;
    assert c.sent[|c.sent| - |c.used| + c.pc.i] == Chunk(c.used[c.pc.i].ticket, c.used[c.pc.i].off, c.used[c.pc.i].len);
    assert ChunkOk(cfg, t, c, ch, |c.copied|);
  }

  /** Copying an entry back writes its own slice of the output and no other. */
  /** A slice before or behind what is overwritten stays. */
  lemma SliceKept(out: seq<Byte>, out': seq<Byte>, b: seq<Byte>, o: nat, n: nat, p: nat, m: nat)
    requires o + n <= |out| && |b| == n && out' == out[..o] + b + out[o + n..] && p + m <= |out|
        && (p + m <= o || o + n <= p)
    ensures |out'| == |out| && out'[p..p + m] == out[p..p + m]
  {
  }

  lemma CopyOut(cfg: Config, t: nat, c: Call, ch: Chan, contents: map<BufId, seq<Byte>>)
    requires CallInv(cfg, t, c, ch, contents) && CopiesNext(c)
    requires c.used[c.pc.i].slot.Full? && c.used[c.pc.i].slot.buf in contents
    requires c.used[c.pc.i].len <= |contents[c.used[c.pc.i].slot.buf]|
        && c.used[c.pc.i].off + c.used[c.pc.i].len <= |c.out|
    ensures OutInv(Copied(c, contents), ch)
  {
    NextEntry(cfg, t, c, ch, contents);
    assert SentInv(cfg, t, c, ch) && OutInv(c, ch);
    hide CallInv, SentInv, UsedInv, BufInv, NoDup, PcInv;
    var c', k := Copied(c, contents), |c.copied|;
    var (o, n) := (c.sent[k].off, c.sent[k].len);
    assert c'.out == c.out[..o] + ch.delivered[c.sent[k].ticket] + c.out[o + n..];
    forall i | 0 <= i < k
      ensures c'.out[c.sent[i].off..c.sent[i].off + c.sent[i].len] == ch.delivered[c.sent[i].ticket]
    {
      ChunksApart(cfg, t, c, ch, i, k);
      SliceKept(c.out, c'.out, ch.delivered[c.sent[k].ticket], o, n, c.sent[i].off, c.sent[i].len);
    }
    assert c'.out[o..o + n] == ch.delivered[c.sent[k].ticket];
  }

  lemma CopyOwn(cfg: Config, t: nat, c: Call, ch: Chan, contents: map<BufId, seq<Byte>>)
    requires CallInv(cfg, t, c, ch, contents) && CopiesNext(c)
    requires c.used[c.pc.i].slot.Full? && c.used[c.pc.i].slot.buf in contents
    requires c.used[c.pc.i].len <= |contents[c.used[c.pc.i].slot.buf]|
        && c.used[c.pc.i].off + c.used[c.pc.i].len <= |c.out|
    ensures CallInv(cfg, t, Copied(c, contents), ch, contents)
  {
    hide SentInv, OutInv;
    var c' := Copied(c, contents);
    CopyOut(cfg, t, c, ch, contents);
    SentPc(cfg, t, c, c', ch);
    assert TakenCount(c') == TakenCount(c) + 1;
    CopyList(c, c', ch, contents);
  }

  lemma CopyList(c: Call, c': Call, ch: Chan, contents: map<BufId, seq<Byte>>)
    requires UsedInv(c, ch) && BufInv(c, ch, contents) && NoDup(c) && CopiesNext(c) && TakenCount(c) == c.pc.i
    requires c.used[c.pc.i].slot.Full?
    requires c'.used == c.used[c.pc.i := c.used[c.pc.i].(slot := Taken)] && c'.sent == c.sent
        && |c'.copied| == |c.copied| + 1
    requires c'.pc == Give(c.pc.snap, c.pc.i, c.used[c.pc.i].slot.buf)
    ensures UsedInv(c', ch) && BufInv(c', ch, contents) && NoDup(c')
  {
  }

  /** On a list in ticket order, `retain` drops exactly the leading entries below the snapshot. */
  lemma {:induction false} KeepIsSuffix(used: seq<Used>, snap: nat, d: nat)
    requires d <= |used|
    requires forall j | 0 <= j < d :: used[j].ticket < snap
    requires forall j | d <= j < |used| :: used[j].ticket >= snap
    ensures Keep(used, snap) == used[d..]
  {
    if used != [] {
      KeepIsSuffix(used[1..], snap, if d == 0 then 0 else d - 1);
      if d == 0 {
        assert used == [used[0]] + used[1..];
      } else {
        assert used[1..][d - 1..] == used[d..];
      }
    }
  }

  /** The private list is in ticket order, so stopping at the first ticket not reached loses nothing. */
  lemma RetainDropsTaken(cfg: Config, t: nat, c: Call, ch: Chan)
    requires SentInv(cfg, t, c, ch) && UsedInv(c, ch) && c.pc.Retain? && PcInv(cfg, t, c, ch)
    ensures Keep(c.used, c.pc.snap) == c.used[TakenCount(c)..]
  {
    var d, base := TakenCount(c), |c.sent| - |c.used|;
    forall j | d <= j < |c.used| ensures c.used[j].ticket >= c.pc.snap {
      assert c.sent[base + d].ticket == c.used[d].ticket && c.sent[base + j].ticket == c.used[j].ticket;
    }
    hide SentInv, UsedInv, PcInv;
    KeepIsSuffix(c.used, c.pc.snap, d);
  }

  lemma RetainOwn(cfg: Config, t: nat, c: Call, ch: Chan, contents: map<BufId, seq<Byte>>)
    requires CallInv(cfg, t, c, ch, contents) && c.pc.Retain?
    ensures CallInv(cfg, t, c.(used := Keep(c.used, c.pc.snap), pc := if c.off < |c.out| then Steal else Check), ch,
        contents)
    ensures forall b :: Listed(Keep(c.used, c.pc.snap), b) <==> Listed(c.used, b)
  {
    hide SentInv, OutInv;
    RetainDropsTaken(cfg, t, c, ch);
    var d := TakenCount(c);
    var c' := c.(used := c.used[d..], pc := if c.off < |c.out| then Steal else Check);
    SentPc(cfg, t, c, c', ch);
    assert OutInv(c', ch) by { OutPc(c, c', ch); }
    DropTaken(c, c', ch, contents);
  }

  lemma OutPc(c: Call, c': Call, ch: Chan)
    requires OutInv(c, ch) && c'.out == c.out && c'.sent == c.sent && c'.copied == c.copied
    ensures OutInv(c', ch)
  {
  }

  lemma DropTaken(c: Call, c': Call, ch: Chan, contents: map<BufId, seq<Byte>>)
    requires UsedInv(c, ch) && BufInv(c, ch, contents) && NoDup(c)
    requires c'.used == c.used[TakenCount(c)..] && c'.sent == c.sent && c'.copied == c.copied
    requires c'.pc.Steal? || c'.pc.Check?
    ensures UsedInv(c', ch) && BufInv(c', ch, contents) && NoDup(c') && TakenCount(c') == 0
    ensures forall b :: Listed(c'.used, b) <==> Listed(c.used, b)
  {
    var d := TakenCount(c);
    forall b ensures Listed(c'.used, b) <==> Listed(c.used, b) {
      if Listed(c.used, b) {
        var j :| 0 <= j < |c.used| && c.used[j].slot == Full(b);
        assert c'.used[j - d].slot == Full(b);
      }
      if Listed(c'.used, b) {
        var j :| 0 <= j < |c'.used| && c'.used[j].slot == Full(b);
        assert c.used[j + d].slot == Full(b);
      }
    }
  }

  lemma CountOwn(cfg: Config, t: nat, c: Call, ch: Chan, contents: map<BufId, seq<Byte>>)
    requires CallInv(cfg, t, c, ch, contents) && c.pc.Count?
    ensures CallInv(cfg, t, Counted(c, ch.cntr), ch.(cntr := ch.cntr + 1), contents)
  {
    hide SentInv, UsedInv, OutInv, BufInv, NoDup;
    CountSent(cfg, t, c, ch);
    CountList(cfg, t, c, ch, contents);
    CountOut(c, ch);
  }

  lemma CountOut(c: Call, ch: Chan)
    requires OutInv(c, ch) && c.pc.Count?
    ensures OutInv(Counted(c, ch.cntr), ch.(cntr := ch.cntr + 1))
  {
  }

  lemma CountSent(cfg: Config, t: nat, c: Call, ch: Chan)
    requires SentInv(cfg, t, c, ch) && c.pc.Count? && PcInv(cfg, t, c, ch)
    ensures SentInv(cfg, t, Counted(c, ch.cntr), ch.(cntr := ch.cntr + 1))
  {
    var c', ch' := Counted(c, ch.cntr), ch.(cntr := ch.cntr + 1);
    forall i | 0 <= i < |c'.sent| ensures ChunkOk(cfg, t, c', ch', i) {
      if i < |c.sent| { assert ChunkOk(cfg, t, c, ch, i); }
    }
  }

  lemma CountList(cfg: Config, t: nat, c: Call, ch: Chan, contents: map<BufId, seq<Byte>>)
    requires UsedInv(c, ch) && BufInv(c, ch, contents) && NoDup(c) && c.pc.Count? && PcInv(cfg, t, c, ch)
    ensures UsedInv(Counted(c, ch.cntr), ch.(cntr := ch.cntr + 1))
    ensures BufInv(Counted(c, ch.cntr), ch.(cntr := ch.cntr + 1), contents)
    ensures NoDup(Counted(c, ch.cntr))
    ensures forall b :: Listed(Counted(c, ch.cntr).used, b) <==> Listed(c.used, b) || b == c.pc.buf
  {
    var c' := Counted(c, ch.cntr);
    forall b ensures Listed(c'.used, b) <==> Listed(c.used, b) || b == c.pc.buf {
      if Listed(c.used, b) {
        var j :| 0 <= j < |c.used| && c.used[j].slot == Full(b);
        assert c'.used[j].slot == Full(b);
      }
      assert c'.used[|c.used|].slot == Full(c.pc.buf);
    }
  }

  // ---- All calls ----

  lemma HeldSame(place: map<BufId, Place>, calls: seq<Call>, t: nat, c': Call)
    requires HeldInv(place, calls) && t < |calls|
    requires forall b :: Holds(c', b) <==> Holds(calls[t], b)
    ensures HeldInv(place, calls[t := c'])
  {
    hide Holds;
  }

  lemma HeldGain(place: map<BufId, Place>, calls: seq<Call>, t: nat, c': Call, b: BufId)
    requires HeldInv(place, calls) && t < |calls| && b in place && !place[b].HeldBy?
    requires forall x :: Holds(c', x) <==> Holds(calls[t], x) || x == b
    ensures HeldInv(place[b := HeldBy(t)], calls[t := c'])
  {
    hide Holds;
  }

  lemma HeldLose(place: map<BufId, Place>, calls: seq<Call>, t: nat, c': Call, b: BufId)
    requires HeldInv(place, calls) && t < |calls| && b in place && place[b] == HeldBy(t)
    requires forall x :: Holds(c', x) <==> Holds(calls[t], x) && x != b
    ensures HeldInv(place[b := InPool], calls[t := c'])
  {
    hide Holds;
  }

  lemma LockStep(lock: Lock, lock': Lock, calls: seq<Call>, t: nat, c': Call)
    requires LockInv(lock, calls) && t < |calls|
    requires !Locked(calls[t].pc) && !Locked(c'.pc) ==> lock' == lock
    requires !Locked(calls[t].pc) && Locked(c'.pc) ==> lock == Free && lock' == Owner(t)
    requires Locked(calls[t].pc) ==> lock' == if Locked(c'.pc) then Owner(t) else Free
    ensures LockInv(lock', calls[t := c'])
    ensures !calls[t].pc.Count? && !c'.pc.Count? ==> Unticketed(lock', calls[t := c']) == Unticketed(lock, calls)
    ensures Locked(calls[t].pc) ==> Unticketed(lock', calls[t := c']) == if c'.pc.Count? then 1 else 0
  {
  }

  lemma LockOwner(lock: Lock, calls: seq<Call>, t: nat)
    requires LockInv(lock, calls) && t < |calls| && Locked(calls[t].pc)
    ensures lock == Owner(t)
  {
  }

  /** Outstanding commands stay owned when a call moves without counting or forgetting a chunk. */
  lemma EngineSame(cfg: Config, ch: Chan, ch': Chan, calls: seq<Call>, t: nat, c': Call)
    requires EngineInv(cfg, ch, calls) && t < |calls|
    requires ch'.issued == ch.issued && ch'.delivered == ch.delivered && ch'.cntr == ch.cntr
    requires c'.sent == calls[t].sent && !calls[t].pc.Count?
    ensures EngineInv(cfg, ch', calls[t := c'])
  {
    var calls' := calls[t := c'];
    forall k | |ch.delivered| <= k < |ch.issued| ensures OwnedTransfer(cfg, ch', calls', k) {
      assert OwnedTransfer(cfg, ch, calls, k);
    }
  }

  /** All calls but `t` keep their invariant through a step of `t`. */
  lemma OtherCalls(cfg: Config, s: State, s': State, t: nat)
    requires LockInv(s.lock, s.calls) && t < |s.calls| && |s'.calls| == |s.calls|
        && s'.calls == s.calls[t := s'.calls[t]]
    requires forall u | 0 <= u < |s.calls| :: CallInv(cfg, u, s.calls[u], s.ch, s.contents)
    requires Grown(s.ch, s'.ch) && s'.contents == s.contents
    requires s.lock == Owner(t) || (s'.ch.issued == s.ch.issued && s'.ch.cntr == s.ch.cntr)
    requires CallInv(cfg, t, s'.calls[t], s'.ch, s'.contents)
    ensures forall u | 0 <= u < |s'.calls| :: CallInv(cfg, u, s'.calls[u], s'.ch, s'.contents)
  {
    hide CallInv;
    forall u | 0 <= u < |s'.calls| ensures CallInv(cfg, u, s'.calls[u], s'.ch, s'.contents) {
      if u != t {
        if s.calls[u].pc.Count? { LockOwner(s.lock, s.calls, u); }
        IdleCall(cfg, u, s.calls[u], s.ch, s'.ch, s.contents);
      }
    }
  }

  /** A step that leaves commands, buffers and the lock alone and does not change what the call holds. */
  lemma QuietStep(cfg: Config, s: State, s': State, t: nat, c': Call)
    requires Inv(cfg, s) && t < |s.calls| && s' == s.(ch := s'.ch, calls := s.calls[t := c'])
    requires s'.ch == s.ch.(pending := s'.ch.pending, intCntr := s'.ch.intCntr)
    requires !Locked(s.calls[t].pc) && !Locked(c'.pc) && c'.sent == s.calls[t].sent
    requires forall b :: Holds(c', b) <==> Holds(s.calls[t], b)
    requires s'.ch.pending + s'.ch.intCntr + Adding(c') == s.ch.pending + s.ch.intCntr + Adding(s.calls[t])
    requires CallInv(cfg, t, c', s'.ch, s.contents)
    ensures Inv(cfg, s')
  {
    hide LockInv, BytesInv, PoolInv, HeldInv, EngineInv, CallInv, SumAdding, Unticketed, Holds;
    LockStep(s.lock, s.lock, s.calls, t, c');
    SumAfterUpdate(s.calls, t, c');
    HeldSame(s.place, s.calls, t, c');
    EngineSame(cfg, s.ch, s'.ch, s.calls, t, c');
    OtherCalls(cfg, s, s', t);
  }

  /** Inv, call by call. */
  lemma CallOf(cfg: Config, s: State, t: nat)
    requires Inv(cfg, s) && t < |s.calls|
    ensures CallInv(cfg, t, s.calls[t], s.ch, s.contents)
  {
  }

  lemma SamePc(c: Call, pc: Pc)
    requires forall b :: InHand(pc, b) <==> InHand(c.pc, b)
    ensures forall b :: Holds(c.(pc := pc), b) <==> Holds(c, b)
  {
  }

  /** The interrupt counter never runs ahead of the finished transfers. */
  lemma CounterBound(cfg: Config, s: State)
    requires Inv(cfg, s)
    ensures s.ch.intCntr <= |s.ch.delivered| <= |s.ch.issued|
  {
    hide LockInv, HeldInv, EngineInv, CallInv;
  }

  lemma WaitOwn(cfg: Config, t: nat, c: Call, ch: Chan, ch': Chan, contents: map<BufId, seq<Byte>>, pc: Pc)
    requires CallInv(cfg, t, c, ch, contents) && ch.intCntr <= |ch.delivered|
    requires ch' == ch.(pending := ch'.pending, intCntr := ch'.intCntr)
    requires match c.pc
      case Check => pc.Add?
      case Add(_) => pc == if c.off < |c.out| then Load else Test
      case Load => pc == Copy(ch.intCntr, 0)
      case Steal => pc == Check
      case Test => pc == if c.used == [] then Returned else Load
      case _ => false
    ensures CallInv(cfg, t, c.(pc := pc), ch', contents)
  {
    assert c.off <= |c.out|;
    hide SentInv, UsedInv, OutInv, BufInv, NoDup;
    IdleCall(cfg, t, c, ch, ch', contents);
    MovedCall(cfg, t, c, ch', contents, pc);
  }

  /** Polling, counting, loading, giving up a steal, and testing for the end. */
  lemma WaitInv(cfg: Config, s: State, t: nat)
    requires Inv(cfg, s) && Enabled(cfg, s, Step(t))
    requires s.calls[t].pc.Check? || s.calls[t].pc.Add? || s.calls[t].pc.Load? || s.calls[t].pc.Steal?
        || s.calls[t].pc.Test?
    ensures Inv(cfg, StepCall(cfg, s, t))
  {
    hide Inv, CallInv;
    var s' := StepCall(cfg, s, t);
    var c, c' := s.calls[t], s'.calls[t];
    CallOf(cfg, s, t);
    CounterBound(cfg, s);
    WaitOwn(cfg, t, c, s.ch, s'.ch, s.contents, c'.pc);
    SamePc(c, c'.pc);
    QuietStep(cfg, s, s', t, c');
  }

  lemma CopyInv(cfg: Config, s: State, t: nat)
    requires Inv(cfg, s) && Enabled(cfg, s, Step(t)) && s.calls[t].pc.Copy?
    ensures Inv(cfg, StepCall(cfg, s, t))
  {
    hide Inv, CallInv;
    var s' := StepCall(cfg, s, t);
    var c, c' := s.calls[t], s'.calls[t];
    CallOf(cfg, s, t);
    if CopiesNext(c) {
      NextEntry(cfg, t, c, s.ch, s.contents);
      CopyOwn(cfg, t, c, s.ch, s.contents);
      CopyHolds(cfg, t, c, s.ch, s.contents);
    } else {
      CopyStops(cfg, t, c, s.ch, s.contents);
      SamePc(c, c'.pc);
    }
    QuietStep(cfg, s, s', t, c');
  }

  lemma CopyStops(cfg: Config, t: nat, c: Call, ch: Chan, contents: map<BufId, seq<Byte>>)
    requires CallInv(cfg, t, c, ch, contents) && c.pc.Copy? && !CopiesNext(c)
    ensures CallInv(cfg, t, c.(pc := Retain(c.pc.snap)), ch, contents)
  {
    hide SentInv, UsedInv, OutInv, BufInv, NoDup;
    MovedCall(cfg, t, c, ch, contents, Retain(c.pc.snap));
  }

  /** Taking a buffer out of the list leaves it in the call's hand. */
  lemma CopyHolds(cfg: Config, t: nat, c: Call, ch: Chan, contents: map<BufId, seq<Byte>>)
    requires CallInv(cfg, t, c, ch, contents) && CopiesNext(c)
    requires c.used[c.pc.i].slot.Full? && c.used[c.pc.i].slot.buf in contents
    requires c.used[c.pc.i].len <= |contents[c.used[c.pc.i].slot.buf]|
        && c.used[c.pc.i].off + c.used[c.pc.i].len <= |c.out|
    ensures forall b :: Holds(Copied(c, contents), b) <==> Holds(c, b)
  {
    assert NoDup(c);
    hide CallInv;
    var c' := Copied(c, contents);
    var i := c.pc.i;
    forall b ensures Holds(c', b) <==> Holds(c, b) {
      if b == c.used[i].slot.buf {
        assert Listed(c.used, b);
      } else {
        if Listed(c.used, b) {
          var j :| 0 <= j < |c.used| && c.used[j].slot == Full(b);
          assert c'.used[j].slot == Full(b);
        }
        if Listed(c'.used, b) {
          var j :| 0 <= j < |c'.used| && c'.used[j].slot == Full(b);
          assert c.used[j].slot == Full(b);
        }
      }
    }
  }

  lemma RetainInv(cfg: Config, s: State, t: nat)
    requires Inv(cfg, s) && Enabled(cfg, s, Step(t)) && s.calls[t].pc.Retain?
    ensures Inv(cfg, StepCall(cfg, s, t))
  {
    hide Inv, CallInv;
    var s' := StepCall(cfg, s, t);
    var c, c' := s.calls[t], s'.calls[t];
    CallOf(cfg, s, t);
    RetainOwn(cfg, t, c, s.ch, s.contents);
    QuietStep(cfg, s, s', t, c');
  }

  lemma PoolMoves(cfg: Config, s: State, s': State, b: BufId, to: Place)
    requires BytesInv(cfg, s.contents, s.place) && PoolInv(s.place, s.pool) && b in s.place
    requires s'.place == s.place[b := to] && s'.contents == s.contents
    requires s'.pool == if to.InPool? then s.pool + {b} else s.pool - {b}
    ensures BytesInv(cfg, s'.contents, s'.place) && PoolInv(s'.place, s'.pool)
  {
  }

  lemma HeldPlace(place: map<BufId, Place>, calls: seq<Call>, t: nat, b: BufId)
    requires HeldInv(place, calls) && t < |calls| && Holds(calls[t], b)
    ensures b in place && place[b] == HeldBy(t)
  {
  }

  lemma GiveOwn(cfg: Config, t: nat, c: Call, ch: Chan, contents: map<BufId, seq<Byte>>)
    requires CallInv(cfg, t, c, ch, contents) && c.pc.Give?
    ensures CallInv(cfg, t, c.(pc := Copy(c.pc.snap, c.pc.i + 1)), ch, contents)
    ensures forall b :: Holds(c.(pc := Copy(c.pc.snap, c.pc.i + 1)), b) <==> Holds(c, b) && b != c.pc.buf
  {
    assert NoDup(c);
    var c' := c.(pc := Copy(c.pc.snap, c.pc.i + 1));
    forall b ensures Holds(c', b) <==> Holds(c, b) && b != c.pc.buf {
      if Listed(c.used, b) {
        var j :| 0 <= j < |c.used| && c.used[j].slot == Full(b);
        assert !InHand(c.pc, c.used[j].slot.buf);
      }
    }
    hide SentInv, UsedInv, OutInv, BufInv, NoDup;
    MovedCall(cfg, t, c, ch, contents, Copy(c.pc.snap, c.pc.i + 1));
  }

  lemma GiveInv(cfg: Config, s: State, t: nat)
    requires Inv(cfg, s) && Enabled(cfg, s, Step(t)) && s.calls[t].pc.Give?
    ensures Inv(cfg, StepCall(cfg, s, t))
  {
    hide LockInv, BytesInv, PoolInv, HeldInv, EngineInv, CallInv, SumAdding, Unticketed;
    var s' := StepCall(cfg, s, t);
    var c, c' := s.calls[t], s'.calls[t];
    GiveOwn(cfg, t, c, s.ch, s.contents);
    assert Holds(c, c.pc.buf);
    hide Holds;
    HeldPlace(s.place, s.calls, t, c.pc.buf);
    HeldLose(s.place, s.calls, t, c', c.pc.buf);
    PoolMoves(cfg, s, s', c.pc.buf, InPool);
    LockStep(s.lock, s.lock, s.calls, t, c');
    SumAfterUpdate(s.calls, t, c');
    EngineSame(cfg, s.ch, s'.ch, s.calls, t, c');
    OtherCalls(cfg, s, s', t);
  }

  lemma LockKept(cfg: Config, s: State, t: nat)
    requires Inv(cfg, s) && t < |s.calls|
    ensures LockInv(s.lock, s.calls)
    ensures Locked(s.calls[t].pc) ==> s.lock == Owner(t)
    ensures s.calls[t].pc.Schedule? ==> |s.ch.issued| == s.ch.cntr
    ensures s.calls[t].pc.Count? ==> |s.ch.issued| == s.ch.cntr + 1
  {
    hide BytesInv, PoolInv, HeldInv, EngineInv, CallInv, SumAdding;
  }

  lemma AcquireInv(cfg: Config, s: State, t: nat)
    requires Inv(cfg, s) && Enabled(cfg, s, Step(t)) && s.calls[t].pc.Acquire?
    ensures Inv(cfg, StepCall(cfg, s, t))
  {
    hide LockInv, BytesInv, PoolInv, HeldInv, EngineInv, CallInv, SumAdding, Unticketed, Holds;
    var s' := StepCall(cfg, s, t);
    var c, c' := s.calls[t], s'.calls[t];
    AcquireOwn(cfg, t, c, s.ch, s.contents);
    SamePc(c, c'.pc);
    LockStep(s.lock, s'.lock, s.calls, t, c');
    SumAfterUpdate(s.calls, t, c');
    HeldSame(s.place, s.calls, t, c');
    EngineSame(cfg, s.ch, s'.ch, s.calls, t, c');
    OtherCalls(cfg, s, s', t);
  }

  lemma AcquireOwn(cfg: Config, t: nat, c: Call, ch: Chan, contents: map<BufId, seq<Byte>>)
    requires CallInv(cfg, t, c, ch, contents) && c.pc.Acquire?
    ensures CallInv(cfg, t, c.(pc := Schedule(c.pc.buf, c.pc.len)), ch, contents)
  {
    hide SentInv, UsedInv, OutInv, BufInv, NoDup;
    MovedCall(cfg, t, c, ch, contents, Schedule(c.pc.buf, c.pc.len));
  }

  lemma ScheduleOwn(cfg: Config, t: nat, c: Call, ch: Chan, contents: map<BufId, seq<Byte>>)
    requires CallInv(cfg, t, c, ch, contents) && c.pc.Schedule? && |ch.delivered| <= |ch.issued| == ch.cntr
    ensures CallInv(cfg, t, c.(pc := Count(c.pc.buf, c.pc.len)),
                    ch.(issued := ch.issued + [Transfer(c.pc.buf, Target(cfg, c, c.off), c.pc.len, t, |c.sent|)]),
                        contents)
  {
    hide SentInv, UsedInv, OutInv, BufInv, NoDup;
    var ch' := ch.(issued := ch.issued + [Transfer(c.pc.buf, Target(cfg, c, c.off), c.pc.len, t, |c.sent|)]);
    var c' := c.(pc := Count(c.pc.buf, c.pc.len));
    SentPc(cfg, t, c, c', ch);
    SentGrows(cfg, t, c', ch, ch');
    UsedGrows(c, ch, ch');
    ScheduleParts(c, c', ch, ch', contents);
  }

  lemma ScheduleParts(c: Call, c': Call, ch: Chan, ch': Chan, contents: map<BufId, seq<Byte>>)
    requires UsedInv(c, ch') && OutInv(c, ch) && BufInv(c, ch, contents) && NoDup(c)
    requires c.pc.Schedule? && c' == c.(pc := Count(c.pc.buf, c.pc.len))
    requires ch' == ch.(issued := ch'.issued) && |ch.delivered| <= ch.cntr
    ensures UsedInv(c', ch') && OutInv(c', ch') && BufInv(c', ch', contents) && NoDup(c')
  {
  }

  lemma ScheduleEngine(cfg: Config, ch: Chan, calls: seq<Call>, t: nat, c': Call, x: Transfer)
    requires EngineInv(cfg, ch, calls) && t < |calls| && calls[t].pc.Schedule? && ch.cntr == |ch.issued|
    requires c'.sent == calls[t].sent && c'.pc == Count(x.buf, x.len) && x.call == t && x.idx == |c'.sent|
    requires x.buf in cfg.sizes && x.len <= cfg.sizes[x.buf]
    ensures EngineInv(cfg, ch.(issued := ch.issued + [x]), calls[t := c'])
  {
    var ch', calls' := ch.(issued := ch.issued + [x]), calls[t := c'];
    forall k | |ch'.delivered| <= k < |ch'.issued| ensures OwnedTransfer(cfg, ch', calls', k) {
      if k < |ch.issued| { assert OwnedTransfer(cfg, ch, calls, k); }
    }
  }

  lemma ScheduleInv(cfg: Config, s: State, t: nat)
    requires Inv(cfg, s) && Enabled(cfg, s, Step(t)) && s.calls[t].pc.Schedule?
    ensures Inv(cfg, StepCall(cfg, s, t))
  {
    hide LockInv, BytesInv, PoolInv, HeldInv, EngineInv, CallInv, SumAdding, Unticketed, Holds;
    LockKept(cfg, s, t);
    var s' := StepCall(cfg, s, t);
    var c, c' := s.calls[t], s'.calls[t];
    PcOf(cfg, t, c, s.ch, s.contents);
    ScheduleOwn(cfg, t, c, s.ch, s.contents);
    SamePc(c, c'.pc);
    LockStep(s.lock, s'.lock, s.calls, t, c');
    SumAfterUpdate(s.calls, t, c');
    HeldSame(s.place, s.calls, t, c');
    ScheduleEngine(cfg, s.ch, s.calls, t, c', s'.ch.issued[|s.ch.issued|]);
    OtherCalls(cfg, s, s', t);
  }

  lemma PcOf(cfg: Config, t: nat, c: Call, ch: Chan, contents: map<BufId, seq<Byte>>)
    requires CallInv(cfg, t, c, ch, contents)
    ensures PcInv(cfg, t, c, ch)
  {
  }

  lemma CountEngine(cfg: Config, ch: Chan, calls: seq<Call>, t: nat)
    requires EngineInv(cfg, ch, calls) && t < |calls| && calls[t].pc.Count? && |ch.issued| == ch.cntr + 1
    requires PcInv(cfg, t, calls[t], ch)
    ensures EngineInv(cfg, ch.(cntr := ch.cntr + 1), calls[t := Counted(calls[t], ch.cntr)])
  {
    var ch', calls' := ch.(cntr := ch.cntr + 1), calls[t := Counted(calls[t], ch.cntr)];
    forall k | |ch'.delivered| <= k < |ch'.issued| ensures OwnedTransfer(cfg, ch', calls', k) {
      assert OwnedTransfer(cfg, ch, calls, k);
    }
  }

  lemma CountHolds(cfg: Config, t: nat, c: Call, ch: Chan, contents: map<BufId, seq<Byte>>)
    requires CallInv(cfg, t, c, ch, contents) && c.pc.Count?
    ensures forall b :: Holds(Counted(c, ch.cntr), b) <==> Holds(c, b)
  {
    CountList(cfg, t, c, ch, contents);
    hide CallInv, Listed;
  }

  lemma CountInv(cfg: Config, s: State, t: nat)
    requires Inv(cfg, s) && Enabled(cfg, s, Step(t)) && s.calls[t].pc.Count?
    ensures Inv(cfg, StepCall(cfg, s, t))
  {
    hide LockInv, BytesInv, PoolInv, HeldInv, EngineInv, CallInv, SumAdding, Unticketed, Holds;
    LockKept(cfg, s, t);
    var s' := StepCall(cfg, s, t);
    var c, c' := s.calls[t], s'.calls[t];
    PcOf(cfg, t, c, s.ch, s.contents);
    CountOwn(cfg, t, c, s.ch, s.contents);
    CountHolds(cfg, t, c, s.ch, s.contents);
    LockStep(s.lock, s'.lock, s.calls, t, c');
    SumAfterUpdate(s.calls, t, c');
    HeldSame(s.place, s.calls, t, c');
    CountEngine(cfg, s.ch, s.calls, t);
    OtherCalls(cfg, s, s', t);
  }

  lemma PooledPlace(place: map<BufId, Place>, pool: set<BufId>, b: BufId)
    requires PoolInv(place, pool) && b in pool
    ensures b in place && place[b] == InPool
  {
  }

  lemma StealInv(cfg: Config, s: State, a: Action)
    requires Inv(cfg, s) && a.StealBuffer? && Enabled(cfg, s, a)
    ensures Inv(cfg, Apply(cfg, s, a))
  {
    hide LockInv, BytesInv, PoolInv, HeldInv, EngineInv, CallInv, SumAdding, Unticketed, Holds;
    var s' := Apply(cfg, s, a);
    var t, b := a.call, a.buf;
    PooledPlace(s.place, s.pool, b);
    var c, c' := s.calls[t], s'.calls[t];
    StealOwn(cfg, s, t, b, c'.pc.len);
    HeldGain(s.place, s.calls, t, c', b);
    PoolMoves(cfg, s, s', b, HeldBy(t));
    LockStep(s.lock, s.lock, s.calls, t, c');
    SumAfterUpdate(s.calls, t, c');
    EngineSame(cfg, s.ch, s'.ch, s.calls, t, c');
    OtherCalls(cfg, s, s', t);
  }

  lemma StealOwn(cfg: Config, s: State, t: nat, b: BufId, len: nat)
    requires t < |s.calls| && CallInv(cfg, t, s.calls[t], s.ch, s.contents) && s.calls[t].pc.Steal?
    requires HeldInv(s.place, s.calls) && b in s.place && !s.place[b].HeldBy?
    requires b in cfg.sizes && len <= cfg.sizes[b] && s.calls[t].off + len <= |s.calls[t].out|
    ensures CallInv(cfg, t, s.calls[t].(pc := Acquire(b, len)), s.ch, s.contents)
    ensures forall x :: Holds(s.calls[t].(pc := Acquire(b, len)), x) <==> Holds(s.calls[t], x) || x == b
  {
    hide SentInv, UsedInv, OutInv, BufInv, NoDup, Listed;
    assert !Holds(s.calls[t], b);
    hide HeldInv;
    MovedCall(cfg, t, s.calls[t], s.ch, s.contents, Acquire(b, len));
  }

  // ---- Engine and foreign steps ----

  /** The buffer of an unfinished command is held by the call that issued it, and by nothing else of it. */
  lemma OwnerHolds(cfg: Config, s: State, k: nat)
    requires |s.ch.delivered| <= k < |s.ch.issued| && OwnedTransfer(cfg, s.ch, s.calls, k)
    requires CallInv(cfg, s.ch.issued[k].call, s.calls[s.ch.issued[k].call], s.ch, s.contents)
    ensures var c := s.calls[s.ch.issued[k].call];
      && Holds(c, s.ch.issued[k].buf)
      && (c.pc.Count? && c.pc.buf == s.ch.issued[k].buf ==> s.ch.cntr == k)
      && forall j | 0 <= j < |c.used| && c.used[j].slot == Full(s.ch.issued[k].buf) :: c.used[j].ticket == k
  {
    hide BufInv, SentInv;
    var x := s.ch.issued[k];
    var c := s.calls[x.call];
    if x.idx < |c.sent| {
      var base := |c.sent| - |c.used|;
      assert x.idx >= |c.copied|;
      var j := x.idx - base;
      assert c.sent[base + j] == Chunk(c.used[j].ticket, c.used[j].off, c.used[j].len);
      assert c.used[j].slot == Full(x.buf);
      assert Listed(c.used, x.buf);
    } else {
      assert InHand(c.pc, x.buf);
    }
  }

  /** Finishing a command puts its bytes where its owner will look for them and disturbs no other buffer. */
  lemma CompleteOwn(cfg: Config, s: State, bytes: seq<Byte>, t: nat)
    requires Enabled(cfg, s, Complete(bytes)) && t < |s.calls| && HeldInv(s.place, s.calls)
    requires CallInv(cfg, t, s.calls[t], s.ch, s.contents)
    requires forall u | 0 <= u < |s.calls| :: CallInv(cfg, u, s.calls[u], s.ch, s.contents)
    requires OwnedTransfer(cfg, s.ch, s.calls, |s.ch.delivered|)
    ensures var s' := Apply(cfg, s, Complete(bytes)); CallInv(cfg, t, s.calls[t], s'.ch, s'.contents)
  {
    hide CallInv, HeldInv;
    var k := |s.ch.delivered|;
    var b := s.ch.issued[k].buf;
    OwnerHolds(cfg, s, k);
    HeldPlace(s.place, s.calls, s.ch.issued[k].call, b);
    if Holds(s.calls[t], b) { HeldPlace(s.place, s.calls, t, b); }
    forall j | 0 <= j < |s.calls[t].used| && s.calls[t].used[j].slot == Full(b) ensures s.calls[t].used[j].ticket == k {
      assert Listed(s.calls[t].used, b);
    }
    assert s.calls[t].pc.Count? && s.calls[t].pc.buf == b ==> Holds(s.calls[t], b);
    hide Holds;
    CompleteCall(cfg, t, s.calls[t], s.ch, s.contents, bytes);
  }

  lemma CompleteCall(cfg: Config, t: nat, c: Call, ch: Chan, contents: map<BufId, seq<Byte>>, bytes: seq<Byte>)
    requires CallInv(cfg, t, c, ch, contents) && |ch.delivered| < |ch.issued|
    requires var x := ch.issued[|ch.delivered|];
      && x.buf in contents && x.len <= |contents[x.buf]| && |bytes| == x.len
      && (forall j | 0 <= j < |c.used| && c.used[j].slot == Full(x.buf) :: c.used[j].ticket == |ch.delivered|)
      && (c.pc.Count? && c.pc.buf == x.buf ==> ch.cntr == |ch.delivered|)
    ensures CallInv(cfg, t, c, ch.(delivered := ch.delivered + [bytes]),
                    contents[ch.issued[|ch.delivered|].buf :=
                        bytes + contents[ch.issued[|ch.delivered|].buf][ch.issued[|ch.delivered|].len..]])
  {
    var k := |ch.delivered|;
    var x := ch.issued[k];
    var ch' := ch.(delivered := ch.delivered + [bytes]);
    var contents' := contents[x.buf := bytes + contents[x.buf][x.len..]];
    SentGrows(cfg, t, c, ch, ch');
    assert Carries(contents', x.buf, bytes);
    CompleteBuf(cfg, t, c, ch, ch', contents, contents');
    hide SentInv, BufInv, NoDup, Carries;
  }

  lemma CompleteBuf(cfg: Config, t: nat, c: Call, ch: Chan, ch': Chan, contents: map<BufId, seq<Byte>>,
      contents': map<BufId, seq<Byte>>)
    requires SentInv(cfg, t, c, ch) && UsedInv(c, ch) && BufInv(c, ch, contents) && PcInv(cfg, t, c, ch)
    requires |ch.delivered| < |ch.issued| && |ch'.delivered| == |ch.delivered| + 1 && ch'.delivered[..|ch.delivered|]
        == ch.delivered
    requires ch' == ch.(delivered := ch'.delivered)
    requires var x := ch.issued[|ch.delivered|];
      && |ch'.delivered[|ch.delivered|]| == x.len && Carries(contents', x.buf, ch'.delivered[|ch.delivered|])
      && (forall b | b != x.buf && b in contents :: b in contents' && contents'[b] == contents[b])
      && (forall j | 0 <= j < |c.used| && c.used[j].slot == Full(x.buf) :: c.used[j].ticket == |ch.delivered|)
      && (c.pc.Count? && c.pc.buf == x.buf ==> ch.cntr == |ch.delivered|)
    ensures BufInv(c, ch', contents')
  {
    var k := |ch.delivered|;
    var x := ch.issued[k];
    forall i | 0 <= i < k ensures ch'.delivered[i] == ch.delivered[i] {
      assert ch'.delivered[..k][i] == ch'.delivered[i];
    }
    forall j | 0 <= j < |c.used| && c.used[j].slot.Full? && c.used[j].ticket < |ch'.delivered| ensures
      |ch'.delivered[c.used[j].ticket]| == c.used[j].len
          && Carries(contents', c.used[j].slot.buf, ch'.delivered[c.used[j].ticket]) {
      assert c.sent[|c.sent| - |c.used| + j] == Chunk(c.used[j].ticket, c.used[j].off, c.used[j].len);
      assert ChunkOk(cfg, t, c, ch, |c.sent| - |c.used| + j);
    }
  }

  lemma CompleteInv(cfg: Config, s: State, bytes: seq<Byte>)
    requires Inv(cfg, s) && Enabled(cfg, s, Complete(bytes))
    ensures Inv(cfg, Apply(cfg, s, Complete(bytes)))
  {
    hide LockInv, BytesInv, HeldInv, EngineInv, CallInv, PoolInv, SumAdding, Unticketed;
    var s' := Apply(cfg, s, Complete(bytes));
    CompleteEngine(cfg, s, bytes);
    forall t | 0 <= t < |s.calls| ensures CallInv(cfg, t, s'.calls[t], s'.ch, s'.contents) {
      CompleteOwn(cfg, s, bytes, t);
    }
  }

  lemma CompleteEngine(cfg: Config, s: State, bytes: seq<Byte>)
    requires EngineInv(cfg, s.ch, s.calls) && BytesInv(cfg, s.contents, s.place) && Enabled(cfg, s, Complete(bytes))
    ensures var s' := Apply(cfg, s, Complete(bytes));
        EngineInv(cfg, s'.ch, s'.calls) && BytesInv(cfg, s'.contents, s'.place)
    ensures OwnedTransfer(cfg, s.ch, s.calls, |s.ch.delivered|)
  {
    var s' := Apply(cfg, s, Complete(bytes));
    forall k | |s'.ch.delivered| <= k < |s'.ch.issued| ensures OwnedTransfer(cfg, s'.ch, s'.calls, k) {
      assert OwnedTransfer(cfg, s.ch, s.calls, k);
    }
  }

  lemma RaiseInv(cfg: Config, s: State)
    requires Inv(cfg, s) && Enabled(cfg, s, Raise)
    ensures Inv(cfg, Apply(cfg, s, Raise))
  {
    hide LockInv, BytesInv, HeldInv, EngineInv, CallInv, PoolInv, SumAdding, Unticketed;
    var s' := Apply(cfg, s, Raise);
    RaiseEngine(cfg, s.ch, s'.ch, s.calls);
    forall t | 0 <= t < |s.calls| ensures CallInv(cfg, t, s'.calls[t], s'.ch, s'.contents) {
      IdleCall(cfg, t, s.calls[t], s.ch, s'.ch, s.contents);
    }
  }

  lemma RaiseEngine(cfg: Config, ch: Chan, ch': Chan, calls: seq<Call>)
    requires EngineInv(cfg, ch, calls) && ch' == ch.(raised := ch'.raised, pending := ch'.pending)
    ensures EngineInv(cfg, ch', calls)
  {
    forall k | |ch.delivered| <= k < |ch.issued| ensures OwnedTransfer(cfg, ch', calls, k) {
      assert OwnedTransfer(cfg, ch, calls, k);
    }
  }

  lemma BeginInv(cfg: Config, s: State, a: Action)
    requires Inv(cfg, s) && a.Begin?
    ensures Inv(cfg, Apply(cfg, s, a))
  {
    hide LockInv, BytesInv, HeldInv, EngineInv, CallInv, PoolInv, SumAdding, Unticketed;
    var s' := Apply(cfg, s, a);
    var c := s'.calls[|s.calls|];
    SumAfterAppend(s.calls, c);
    BeginFrame(cfg, s, c);
    forall t | 0 <= t < |s'.calls| ensures CallInv(cfg, t, s'.calls[t], s'.ch, s'.contents) {
      if t == |s.calls| { FreshCall(cfg, t, c, s.ch, s.contents); }
    }
  }

  lemma FreshCall(cfg: Config, t: nat, c: Call, ch: Chan, contents: map<BufId, seq<Byte>>)
    requires c.off == 0 && c.used == [] && c.sent == [] && c.copied == [] && c.pc == if |c.out| > 0 then Check else Test
    ensures CallInv(cfg, t, c, ch, contents)
  {
  }

  lemma BeginFrame(cfg: Config, s: State, c: Call)
    requires LockInv(s.lock, s.calls) && HeldInv(s.place, s.calls) && EngineInv(cfg, s.ch, s.calls)
    requires c.used == [] && (c.pc.Check? || c.pc.Test?)
    ensures LockInv(s.lock, s.calls + [c]) && HeldInv(s.place, s.calls + [c]) && EngineInv(cfg, s.ch, s.calls + [c])
    ensures Unticketed(s.lock, s.calls + [c]) == Unticketed(s.lock, s.calls)
  {
    var calls' := s.calls + [c];
    assert EngineInv(cfg, s.ch, calls') by {
      forall k | |s.ch.delivered| <= k < |s.ch.issued| ensures OwnedTransfer(cfg, s.ch, calls', k) {
        assert OwnedTransfer(cfg, s.ch, s.calls, k);
      }
    }
    hide EngineInv;
    assert forall b :: !Holds(c, b);
    hide Holds;
  }

  lemma ForeignPlace(place: map<BufId, Place>, calls: seq<Call>, b: BufId, to: Place)
    requires HeldInv(place, calls) && b in place && !place[b].HeldBy? && !to.HeldBy?
    ensures HeldInv(place[b := to], calls)
  {
    hide Holds;
  }

  /** Calls on the other channel cannot disturb a call on this one. */
  lemma ForeignInv(cfg: Config, s: State, a: Action)
    requires Inv(cfg, s) && Enabled(cfg, s, a)
    requires a.ForeignSteal? || a.ForeignReturn? || a.ForeignScribble? || a.ForeignLock? || a.ForeignUnlock?
        || a.DeviceChanges?
    ensures Inv(cfg, Apply(cfg, s, a))
  {
    hide LockInv, BytesInv, HeldInv, EngineInv, CallInv, PoolInv, SumAdding, Unticketed;
    var s' := Apply(cfg, s, a);
    match a {
      case ForeignSteal(b) =>
        PooledPlace(s.place, s.pool, b);
        PoolMoves(cfg, s, s', b, Foreign);
        ForeignPlace(s.place, s.calls, b, Foreign);
      case ForeignReturn(b) =>
        PoolMoves(cfg, s, s', b, InPool);
        ForeignPlace(s.place, s.calls, b, InPool);
      case ForeignScribble(b, bytes) => ScribbleInv(cfg, s, b, bytes);
      case ForeignLock => ForeignLockInv(s, Other);
      case ForeignUnlock => ForeignLockInv(s, Free);
      case DeviceChanges(_) =>
    }
  }

  lemma ForeignLockInv(s: State, lock': Lock)
    requires LockInv(s.lock, s.calls) && !s.lock.Owner? && !lock'.Owner?
    ensures LockInv(lock', s.calls) && Unticketed(lock', s.calls) == Unticketed(s.lock, s.calls)
  {
  }

  lemma ScribbleInv(cfg: Config, s: State, b: BufId, bytes: seq<Byte>)
    requires Inv(cfg, s) && Enabled(cfg, s, ForeignScribble(b, bytes))
    ensures BytesInv(cfg, s.contents[b := bytes], s.place)
    ensures forall t | 0 <= t < |s.calls| :: CallInv(cfg, t, s.calls[t], s.ch, s.contents[b := bytes])
  {
    hide LockInv, BytesInv, EngineInv, CallInv, PoolInv, HeldInv, SumAdding, Unticketed, Holds;
    ScribbleBytes(cfg, s, b, bytes);
    var contents' := s.contents[b := bytes];
    forall t | 0 <= t < |s.calls| ensures CallInv(cfg, t, s.calls[t], s.ch, contents') {
      if Holds(s.calls[t], b) { HeldPlace(s.place, s.calls, t, b); }
      ScribbleCall(cfg, t, s.calls[t], s.ch, s.contents, b, bytes);
    }
  }

  lemma ScribbleBytes(cfg: Config, s: State, b: BufId, bytes: seq<Byte>)
    requires BytesInv(cfg, s.contents, s.place) && b in cfg.sizes && |bytes| == cfg.sizes[b]
    ensures BytesInv(cfg, s.contents[b := bytes], s.place)
  {
  }

  lemma ScribbleCall(cfg: Config, t: nat, c: Call, ch: Chan, contents: map<BufId, seq<Byte>>, b: BufId,
      bytes: seq<Byte>)
    requires CallInv(cfg, t, c, ch, contents) && !Holds(c, b)
    ensures CallInv(cfg, t, c, ch, contents[b := bytes])
  {
    hide SentInv, UsedInv, OutInv, NoDup, PcInv;
    var contents' := contents[b := bytes];
    forall j | 0 <= j < |c.used| && c.used[j].slot.Full? && c.used[j].ticket < |ch.delivered| ensures
      Carries(contents', c.used[j].slot.buf, ch.delivered[c.used[j].ticket]) {
      assert Listed(c.used, c.used[j].slot.buf);
    }
  }

  lemma InitInv(cfg: Config, s: State)
    requires Init(cfg, s)
    ensures Inv(cfg, s)
  {
  }

  /** Every enabled action keeps the invariant. */
  lemma ApplyInv(cfg: Config, s: State, a: Action)
    requires Inv(cfg, s) && Enabled(cfg, s, a)
    ensures Inv(cfg, Apply(cfg, s, a))
  {
    hide Inv;
    match a {
      case Begin(_, _) => BeginInv(cfg, s, a);
      case StealBuffer(_, _) => StealInv(cfg, s, a);
      case Complete(bytes) => CompleteInv(cfg, s, bytes);
      case Raise => RaiseInv(cfg, s);
      case Step(t) =>
        match s.calls[t].pc {
          case Copy(_, _) => CopyInv(cfg, s, t);
          case Give(_, _, _) => GiveInv(cfg, s, t);
          case Retain(_) => RetainInv(cfg, s, t);
          case Acquire(_, _) => AcquireInv(cfg, s, t);
          case Schedule(_, _) => ScheduleInv(cfg, s, t);
          case Count(_, _) => CountInv(cfg, s, t);
          case _ => WaitInv(cfg, s, t);
        }
      case _ => ForeignInv(cfg, s, a);
    }
  }
}
