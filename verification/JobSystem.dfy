/** Any number of jobs on shared device memories.
 *
 *  Starting a job takes blocks one by one, releasing it gives them back; each operation runs under the lock of
 *  its memory, so the operations of different jobs interleave.  A caller may also pass a block of its own that
 *  the release is to free.
 */
module JobSystem {
  import opened Blocks
  import opened Common
  import opened GenericAllocator
  import opened Jobs

  datatype Held = Held(mem: nat, block: Block)

  /** Any number of jobs share the memories; each holds blocks. */
  datatype System = System(mems: seq<Memory>, jobs: seq<seq<Held>>)

  /** `GiveBack` frees an address that a caller passed with a job, whatever is there by then. */
  datatype Action =
    | NewJob
    | Take(job: nat, mem: nat, size: nat, fixed: Option<nat>)
    | Give(job: nat, k: nat)
    | GiveBack(mem: nat, addr: nat)

  predicate Enabled(cfg: Config, s: System, a: Action) {
    && Sane(cfg, s.mems)
    && match a
       case NewJob => true
       case Take(j, m, size, _) => j < |s.jobs| && m < |s.mems| && Rounds(cfg.alignments[m], size)
       case Give(j, k) => j < |s.jobs| && k < |s.jobs[j]| && s.jobs[j][k].mem < |s.mems|
       case GiveBack(m, _) => m < |s.mems|
  }

  /** Each operation runs under the lock of its memory. */
  function Apply(cfg: Config, s: System, a: Action): System
    requires Enabled(cfg, s, a)
  {
    match a
    case NewJob => s.(jobs := s.jobs + [[]])
    case Take(j, m, size, fixed) =>
      var (mem, r) :=
        if fixed.Some? then AllocateFixedIn(cfg.alignments[m], s.mems[m], size, fixed.value)
        else AllocateIn(cfg.alignments[m], s.mems[m], size);
      if r.Err? then s
      else System(s.mems[m := mem],
          s.jobs[j := s.jobs[j] + [Held(m, Block(r.value, FixAlignment(cfg.alignments[m], size)))]])
    case Give(j, k) =>
      var h := s.jobs[j][k];
      System(s.mems[h.mem := FreeIn(s.mems[h.mem], h.block.base).0], s.jobs[j := s.jobs[j][..k] + s.jobs[j][k + 1..]])
    case GiveBack(m, addr) => s.(mems := s.mems[m := FreeIn(s.mems[m], addr).0])
  }

  ghost predicate HeldIsUsed(s: System, h: Held) {
    h.mem < |s.mems| && h.block in s.mems[h.mem].used
  }

  ghost predicate Separate(g: Held, h: Held) {
    g.mem == h.mem ==> Disjoint(g.block, h.block)
  }

  ghost predicate SystemInv(s: System, rs: seq<Region>) {
    && AllValid(s.mems, rs)
    && (forall j, k | 0 <= j < |s.jobs| && 0 <= k < |s.jobs[j]| :: HeldIsUsed(s, s.jobs[j][k]))
    && (forall j, k, i, l | 0 <= j < |s.jobs| && 0 <= k < |s.jobs[j]| && 0 <= i < |s.jobs| && 0 <= l < |s.jobs[i]|
        && (j, k) != (i, l) ::
          Separate(s.jobs[j][k], s.jobs[i][l]))
  }

  lemma TakeInv(cfg: Config, s: System, rs: seq<Region>, a: Action)
    requires SystemInv(s, rs) && Enabled(cfg, s, a) && a.Take?
    ensures SystemInv(Apply(cfg, s, a), rs)
  {
    var m, s' := a.mem, Apply(cfg, s, a);
    if s' != s {
      var b := s'.jobs[a.job][|s.jobs[a.job]|].block;
      LentOne(cfg.alignments[m], s.mems[m], s.mems[m], rs[m], [], a.size, a.fixed);
      NewBlock(s.mems[m], s'.mems[m], rs[m], b);
      hide Valid, Disjoint, FixAlignment, AllocateIn, AllocateFixedIn;
      NewHeld(s, s', a.job, Held(m, b));
    }
  }

  lemma NewBlock(m: Memory, m': Memory, r: Region, b: Block)
    requires Lent(m, m', r, [] + [b])
    ensures forall u | u in m.used :: u in m'.used && Disjoint(u, b) && Disjoint(b, u)
    ensures b in m'.used && Valid(m', r.lo, r.hi)
  {
    assert m'.used == m.used + [b];
    forall u | u in m.used ensures Disjoint(u, b) && Disjoint(b, u) {
      var i :| 0 <= i < |m.used| && m.used[i] == u;
      assert m'.used[i] == u && m'.used[|m.used|] == b;
    }
  }

  lemma NewHeld(s: System, s': System, j: nat, h: Held)
    requires j < |s.jobs| && |s'.mems| == |s.mems| && s'.jobs == s.jobs[j := s.jobs[j] + [h]] && h.mem < |s.mems|
    requires forall i, k | 0 <= i < |s.jobs| && 0 <= k < |s.jobs[i]| :: HeldIsUsed(s, s.jobs[i][k])
    requires forall i, k, n, l | 0 <= i < |s.jobs| && 0 <= k < |s.jobs[i]| && 0 <= n < |s.jobs|
        && 0 <= l < |s.jobs[n]| && (i, k) != (n, l) ::
      Separate(s.jobs[i][k], s.jobs[n][l])
    requires forall u | u in s.mems[h.mem].used ::
        u in s'.mems[h.mem].used && Disjoint(u, h.block) && Disjoint(h.block, u)
    requires forall m | 0 <= m < |s.mems| && m != h.mem :: s'.mems[m] == s.mems[m]
    requires h.block in s'.mems[h.mem].used
    ensures forall i, k | 0 <= i < |s'.jobs| && 0 <= k < |s'.jobs[i]| :: HeldIsUsed(s', s'.jobs[i][k])
    ensures forall i, k, n, l | 0 <= i < |s'.jobs| && 0 <= k < |s'.jobs[i]| && 0 <= n < |s'.jobs|
        && 0 <= l < |s'.jobs[n]| && (i, k) != (n, l) ::
      Separate(s'.jobs[i][k], s'.jobs[n][l])
  {
    forall i, k | 0 <= i < |s'.jobs| && 0 <= k < |s'.jobs[i]| ensures HeldIsUsed(s', s'.jobs[i][k]) {
      if !(i == j && k == |s.jobs[j]|) { assert HeldIsUsed(s, s.jobs[i][k]); }
    }
    forall i, k, n, l | 0 <= i < |s'.jobs| && 0 <= k < |s'.jobs[i]| && 0 <= n < |s'.jobs| && 0 <= l < |s'.jobs[n]|
        && (i, k) != (n, l)
      ensures Separate(s'.jobs[i][k], s'.jobs[n][l])
    {
      var last := |s.jobs[j]|;
      if i == j && k == last { assert HeldIsUsed(s, s.jobs[n][l]); }
      else if n == j && l == last { assert HeldIsUsed(s, s.jobs[i][k]); }
      else { assert Separate(s.jobs[i][k], s.jobs[n][l]); }
    }
  }

  lemma GiveInv(cfg: Config, s: System, rs: seq<Region>, a: Action)
    requires SystemInv(s, rs) && Enabled(cfg, s, a) && a.Give?
    ensures SystemInv(Apply(cfg, s, a), rs)
  {
    var h, s' := s.jobs[a.job][a.k], Apply(cfg, s, a);
    assert HeldIsUsed(s, h);
    OthersStayUsed(s.mems[h.mem], rs[h.mem], h.block);
    FreeKeepsValid(s.mems[h.mem], rs[h.mem].lo, rs[h.mem].hi, h.block.base);
    NotEmpty(s.mems[h.mem], rs[h.mem], h.block);
    hide Valid, FreeIn, Disjoint;
    HeldGone(s, s', a);
  }

  lemma HeldGone(s: System, s': System, a: Action)
    requires a.Give? && a.job < |s.jobs| && a.k < |s.jobs[a.job]| && |s'.mems| == |s.mems|
    requires s'.jobs == s.jobs[a.job := s.jobs[a.job][..a.k] + s.jobs[a.job][a.k + 1..]]
    requires forall i, k | 0 <= i < |s.jobs| && 0 <= k < |s.jobs[i]| :: HeldIsUsed(s, s.jobs[i][k])
    requires forall i, k, n, l | 0 <= i < |s.jobs| && 0 <= k < |s.jobs[i]| && 0 <= n < |s.jobs|
        && 0 <= l < |s.jobs[n]| && (i, k) != (n, l) ::
      Separate(s.jobs[i][k], s.jobs[n][l])
    requires var h := s.jobs[a.job][a.k];
      && h.mem < |s.mems| && !Disjoint(h.block, h.block)
      && (forall u | u in s.mems[h.mem].used && u != h.block :: u in s'.mems[h.mem].used)
      && (forall m | 0 <= m < |s.mems| && m != h.mem :: s'.mems[m] == s.mems[m])
    ensures forall i, k | 0 <= i < |s'.jobs| && 0 <= k < |s'.jobs[i]| :: HeldIsUsed(s', s'.jobs[i][k])
    ensures forall i, k, n, l | 0 <= i < |s'.jobs| && 0 <= k < |s'.jobs[i]| && 0 <= n < |s'.jobs|
        && 0 <= l < |s'.jobs[n]| && (i, k) != (n, l) ::
      Separate(s'.jobs[i][k], s'.jobs[n][l])
  {
    hide Disjoint;
    var h := s.jobs[a.job][a.k];
    forall i, l | 0 <= i < |s'.jobs| && 0 <= l < |s'.jobs[i]| ensures HeldIsUsed(s', s'.jobs[i][l]) {
      var l0 := Before(a, i, l);
      assert s'.jobs[i][l] == s.jobs[i][l0];
      assert HeldIsUsed(s, s.jobs[i][l0]) && Separate(s.jobs[i][l0], h);
    }
    forall i, k, n, l | 0 <= i < |s'.jobs| && 0 <= k < |s'.jobs[i]| && 0 <= n < |s'.jobs| && 0 <= l < |s'.jobs[n]|
        && (i, k) != (n, l)
      ensures Separate(s'.jobs[i][k], s'.jobs[n][l])
    {
      assert Separate(s.jobs[i][Before(a, i, k)], s.jobs[n][Before(a, n, l)]);
    }
  }

  /** Where an entry was before entry `a.k` of job `a.job` was removed. */
  function Before(a: Action, i: nat, l: nat): nat
    requires a.Give?
  {
    if i == a.job && l >= a.k then l + 1 else l
  }

  lemma NotEmpty(m: Memory, r: Region, b: Block)
    requires Valid(m, r.lo, r.hi) && b in m.used
    ensures !Disjoint(b, b)
  {
    assert b.Has(b.base);
  }

  lemma OthersStayUsed(m: Memory, r: Region, b: Block)
    requires Valid(m, r.lo, r.hi) && b in m.used
    ensures forall u | u in m.used && u != b :: u in FreeIn(m, b.base).0.used
  {
    var i :| 0 <= i < |m.used| && m.used[i] == b;
    FindsUsed(m, r, i);
    var used := FreeIn(m, b.base).0.used;
    forall u | u in m.used && u != b ensures u in used {
      var j :| 0 <= j < |m.used| && m.used[j] == u;
      assert used[if j < i then j else j - 1] == u;
    }
  }

  // ---- Blocks that a caller lets a job free ----

  /** Some job holds the block at this address. */
  predicate HeldAt(s: System, mem: nat, addr: nat) {
    exists j, k :: 0 <= j < |s.jobs| && 0 <= k < |s.jobs[j]| && s.jobs[j][k].mem == mem && s.jobs[j][k].block.base
        == addr
  }

  /** Of the used blocks exactly the one at the address goes. */
  lemma OnlyThatGoes(m: Memory, r: Region, addr: nat, u: Block)
    requires Valid(m, r.lo, r.hi) && u in m.used
    ensures u in FreeIn(m, addr).0.used <==> u.base != addr
  {
    var i, used := Find(m.used, addr), FreeIn(m, addr).0.used;
    var k :| 0 <= k < |m.used| && m.used[k] == u;
    forall q | 0 <= q < |m.used| && q != k ensures m.used[q].base != u.base {
      FindsUsed(m, r, q);
      FindsUsed(m, r, k);
    }
    hide Valid;
    if i < |m.used| {
      if u.base != addr { assert used[if k < i then k else k - 1] == u; }
      else {
        forall l | 0 <= l < |used| ensures used[l] != u { assert used[l] == m.used[if l < i then l else l + 1]; }
      }
    }
  }

  /** Freeing an address keeps the jobs' blocks theirs exactly when no job holds the block there. */
  lemma GiveBackKeepsIff(cfg: Config, s: System, rs: seq<Region>, a: Action)
    requires SystemInv(s, rs) && Enabled(cfg, s, a) && a.GiveBack?
    ensures SystemInv(Apply(cfg, s, a), rs) <==> !HeldAt(s, a.mem, a.addr)
  {
    var s' := Apply(cfg, s, a);
    FreeKeepsValid(s.mems[a.mem], rs[a.mem].lo, rs[a.mem].hi, a.addr);
    forall j, k | 0 <= j < |s.jobs| && 0 <= k < |s.jobs[j]|
      ensures HeldIsUsed(s', s.jobs[j][k]) <==> !(s.jobs[j][k].mem == a.mem && s.jobs[j][k].block.base == a.addr)
    {
      var h := s.jobs[j][k];
      assert HeldIsUsed(s, h);
      if h.mem == a.mem { OnlyThatGoes(s.mems[a.mem], rs[a.mem], a.addr, h.block); }
    }
    hide Valid, FreeIn, HeldIsUsed, Separate, Sane;
    if HeldAt(s, a.mem, a.addr) {
      var j, k :| 0 <= j < |s.jobs| && 0 <= k < |s.jobs[j]| && s.jobs[j][k].mem == a.mem && s.jobs[j][k].block.base
          == a.addr;
      assert !HeldIsUsed(s', s'.jobs[j][k]);
    }
  }

  /** Otherwise the block can at once be granted to another job as well. */
  lemma OverlapFollows(cfg: Config, s: System, rs: seq<Region>, j: nat, k: nat, size: nat, n: nat)
    requires SystemInv(s, rs) && Sane(cfg, s.mems) && j < |s.jobs| && k < |s.jobs[j]| && n < |s.jobs|
        && s.jobs[j][k].mem < |s.mems|
    requires 0 < size && s.jobs[j][k].block.size == FixAlignment(cfg.alignments[s.jobs[j][k].mem], size)
    ensures var h := s.jobs[j][k];
      var s1 := Apply(cfg, s, GiveBack(h.mem, h.block.base));
      && Enabled(cfg, s1, Take(n, h.mem, size, Some(h.block.base)))
      && Apply(cfg, s1, Take(n, h.mem, size, Some(h.block.base))).jobs == s.jobs[n := s.jobs[n] + [h]]
  {
    var h := s.jobs[j][k];
    var m, al := s.mems[h.mem], cfg.alignments[h.mem];
    assert HeldIsUsed(s, h);
    var i :| 0 <= i < |m.used| && m.used[i] == h.block;
    FindsUsed(m, rs[h.mem], i);
    assert h.block.size > 0;
    FreedRun(m, rs[h.mem], i);
    var m1 := FreeIn(m, h.block.base).0;
    GrantsRun(m1, h.block.base, h.block.size);
    hide Valid, FixAlignment, FreeIn, FixedFit;
  }

  lemma FreedRun(m: Memory, r: Region, i: nat)
    requires Valid(m, r.lo, r.hi) && i < |m.used| && Find(m.used, m.used[i].base) == i
    ensures var m1 := FreeIn(m, m.used[i].base).0;
      Canonical(m1.free) && HasRun(m1.free, m.used[i].base, m.used[i].size)
  {
    var b := m.used[i];
    forall x | b.Has(x) ensures !Covers(m.free, x) { assert Covers(m.used, x); }
    GivenCanonical(m.free, b);
  }

  lemma GrantsRun(m: Memory, p: nat, n: nat)
    requires Canonical(m.free) && n > 0 && HasRun(m.free, p, n)
    ensures FixedFit(m.free, p, n) < |m.free|
  {
    var j := RunInBlock(m.free, p, n);
    assert Fits(m.free[j], p, n);
  }

  // ---- Whole runs ----

  ghost predicate IsRun(cfg: Config, run: seq<System>, acts: seq<Action>, rs: seq<Region>) {
    && |run| == |acts| + 1
    && run[0].jobs == [] && AllValid(run[0].mems, rs)
    && forall i | 0 <= i < |acts| :: Enabled(cfg, run[i], acts[i]) && run[i + 1] == Apply(cfg, run[i], acts[i])
  }

  /** No caller has a job free an address at which some job's own block begins. */
  ghost predicate Careful(run: seq<System>, acts: seq<Action>) {
    |run| == |acts| + 1 && forall i | 0 <= i < |acts| && acts[i].GiveBack? :: !HeldAt(run[i], acts[i].mem, acts[i].addr)
  }

  lemma {:induction false} RunInv(cfg: Config, run: seq<System>, acts: seq<Action>, rs: seq<Region>, i: nat)
    requires IsRun(cfg, run, acts, rs) && Careful(run, acts) && i < |run|
    ensures SystemInv(run[i], rs)
  {
    if i > 0 {
      RunInv(cfg, run, acts, rs, i - 1);
      var s, a := run[i - 1], acts[i - 1];
      assert run[i - 1 + 1] == Apply(cfg, s, a);
      hide SystemInv, HeldAt;
      match a {
        case Take(_, _, _, _) => TakeInv(cfg, s, rs, a);
        case Give(_, _) => GiveInv(cfg, s, rs, a);
        case GiveBack(_, _) => GiveBackKeepsIff(cfg, s, rs, a);
        case NewJob => NewJobInv(s, rs);
      }
    }
  }

  lemma NewJobInv(s: System, rs: seq<Region>)
    requires SystemInv(s, rs)
    ensures SystemInv(s.(jobs := s.jobs + [[]]), rs)
  {
    var s' := s.(jobs := s.jobs + [[]]);
    forall j, k | 0 <= j < |s'.jobs| && 0 <= k < |s'.jobs[j]| ensures HeldIsUsed(s', s'.jobs[j][k]) {
      assert HeldIsUsed(s, s.jobs[j][k]);
    }
  }

  /** In every careful interleaving, no two blocks held by jobs on one memory share an address. */
  lemma JobsNeverOverlap(cfg: Config, run: seq<System>, acts: seq<Action>, rs: seq<Region>, i: nat, j: nat, k: nat,
      n: nat, l: nat, x: int)
    requires IsRun(cfg, run, acts, rs) && Careful(run, acts) && i < |run|
    requires j < |run[i].jobs| && k < |run[i].jobs[j]| && n < |run[i].jobs| && l < |run[i].jobs[n]| && (j, k) != (n, l)
    requires run[i].jobs[j][k].mem == run[i].jobs[n][l].mem
    ensures !(run[i].jobs[j][k].block.Has(x) && run[i].jobs[n][l].block.Has(x))
  {
    RunInv(cfg, run, acts, rs, i);
    assert Separate(run[i].jobs[j][k], run[i].jobs[n][l]);
  }

  // ---- Starting and releasing are such actions ----

  /** The actions lead from `s` to `s'`. */
  ghost predicate Leads(cfg: Config, s: System, acts: seq<Action>, s': System)
    decreases |acts|
  {
    if acts == [] then s' == s else Enabled(cfg, s, acts[0]) && Leads(cfg, Apply(cfg, s, acts[0]), acts[1..], s')
  }

  function TakesOf(j: nat, args: seq<Param>): seq<Action> {
    if args == [] then []
    else (if args[0].Alloc? then [Take(j, args[0].mem, |args[0].data|, args[0].fixed)] else []) + TakesOf(j, args[1..])
  }

  /** The blocks taken for the arguments. */
  function HeldOf(cfg: Config, args: seq<Param>, params: seq<Param>): seq<Held>
    requires |args| == |params|
  {
    if args == [] then [] else HeldOne(cfg, args[0], params[0]) + HeldOf(cfg, args[1..], params[1..])
  }

  function HeldOne(cfg: Config, a: Param, p: Param): seq<Held> {
    if a.Alloc? && p.Prealloc? && a.mem < |cfg.alignments| && 1 <= cfg.alignments[a.mem] < WORD64
    then [Held(a.mem, Block(p.buffer.addr, FixAlignment(cfg.alignments[a.mem], |a.data|)))] else []
  }

  /** Those the job keeps when it is released. */
  function HeldKept(cfg: Config, args: seq<Param>, params: seq<Param>): seq<Held>
    requires |args| == |params|
  {
    if args == [] then []
    else (if args[0].Alloc? && args[0].free then [] else HeldOne(cfg, args[0], params[0])) + HeldKept(cfg, args[1..],
        params[1..])
  }

  /** What allocating for the arguments does to the memories is what taking the blocks one by one does. */
  lemma {:induction false} StartIsTakes(cfg: Config, s: System, j: nat, args: seq<Param>)
    requires Sane(cfg, s.mems) && InRange(|s.mems|, args) && Modest(cfg, args) && j < |s.jobs|
    requires AllocateAll(cfg, s.mems, args).1.Good?
    ensures var (mems', r) := AllocateAll(cfg, s.mems, args);
      |r.value| == |args| && Leads(cfg, s, TakesOf(j, args),
          System(mems', s.jobs[j := s.jobs[j] + HeldOf(cfg, args, r.value)]))
    decreases |args|
  {
    if args == [] {
      assert s.jobs[j] + [] == s.jobs[j];
    } else {
      var a := args[0];
      assert Modest(cfg, args[1..]) && InRange(|s.mems|, args[1..]);
      var p := FirstAllocated(cfg, s.mems, args);
      if a.Alloc? { TakeOne(cfg, s, j, a); }
      var mems1 := if a.Alloc? then AllocateOne(cfg, s.mems, a).0 else s.mems;
      hide AllocateAll, AllocateOne, Leads, HeldOf, HeldOne, Apply, Modest, InRange, TakesOf;
      var s1 := if a.Alloc? then Apply(cfg, s, Take(j, a.mem, |a.data|, a.fixed)) else s;
      NotHeld(cfg, a, p);
      Grouped(s.jobs[j], [], []);
      assert s1 == System(mems1, s.jobs[j := s.jobs[j] + HeldOne(cfg, a, p)]);
      StartIsTakes(cfg, s1, j, args[1..]);
      var (mems', rest) := AllocateAll(cfg, mems1, args[1..]);
      TakesStep(cfg, s, s1, j, args, p, rest.value, mems');
    }
  }

  lemma NotHeld(cfg: Config, a: Param, p: Param)
    ensures !a.Alloc? ==> HeldOne(cfg, a, p) == []
  {
  }

  /** How a successful allocation goes on after the first argument. */
  lemma FirstAllocated(cfg: Config, mems: seq<Memory>, args: seq<Param>) returns (p: Param)
    requires Sane(cfg, mems) && InRange(|mems|, args) && args != [] && AllocateAll(cfg, mems, args).1.Good?
    ensures args[0].Alloc? ==> AllocateOne(cfg, mems, args[0]).1 == Good(p)
    ensures !args[0].Alloc? ==> p == args[0]
    ensures var mems1 := if args[0].Alloc? then AllocateOne(cfg, mems, args[0]).0 else mems;
      && Sane(cfg, mems1) && InRange(|mems1|, args[1..])
      && var (mems', rest) := AllocateAll(cfg, mems1, args[1..]);
         rest.Good? && AllocateAll(cfg, mems, args) == (mems', Good([p] + rest.value))
  {
    hide AllocateIn, AllocateFixedIn, FixAlignment;
    p := if args[0].Alloc? then AllocateOne(cfg, mems, args[0]).1.value else args[0];
  }

  lemma TakesStep(cfg: Config, s: System, s1: System, j: nat, args: seq<Param>, p: Param, rest: seq<Param>,
      mems': seq<Memory>)
    requires args != [] && |rest| == |args| - 1 && j < |s.jobs|
    requires s1.jobs == s.jobs[j := s.jobs[j] + HeldOne(cfg, args[0], p)]
    requires if args[0].Alloc? then var t := Take(j, args[0].mem, |args[0].data|, args[0].fixed);
        Enabled(cfg, s, t) && Apply(cfg, s, t) == s1
      else s1 == s
    requires Leads(cfg, s1, TakesOf(j, args[1..]),
        System(mems', s1.jobs[j := s1.jobs[j] + HeldOf(cfg, args[1..], rest)]))
    ensures Leads(cfg, s, TakesOf(j, args), System(mems', s.jobs[j := s.jobs[j] + HeldOf(cfg, args, [p] + rest)]))
  {
    hide Apply, Enabled, HeldOne, Leads;
    var held := HeldOf(cfg, args[1..], rest);
    assert ([p] + rest)[1..] == rest;
    Grouped(s.jobs[j], HeldOne(cfg, args[0], p), held);
    assert s1.jobs[j := s1.jobs[j] + held] == s.jobs[j := s.jobs[j] + HeldOf(cfg, args, [p] + rest)];
    if args[0].Alloc? {
      LeadsOn(cfg, s, Take(j, args[0].mem, |args[0].data|, args[0].fixed), TakesOf(j, args[1..]),
              System(mems', s1.jobs[j := s1.jobs[j] + held]));
    } else {
      Grouped([], [], TakesOf(j, args[1..]));
    }
  }

  lemma TakeOne(cfg: Config, s: System, j: nat, a: Param)
    requires Sane(cfg, s.mems) && a.Alloc? && a.mem < |s.mems| && Rounds(cfg.alignments[a.mem], |a.data|)
        && j < |s.jobs|
    requires AllocateOne(cfg, s.mems, a).1.Good?
    ensures var (mems1, p), t := AllocateOne(cfg, s.mems, a), Take(j, a.mem, |a.data|, a.fixed);
      && Enabled(cfg, s, t) && |mems1| == |s.mems| && HeldOne(cfg, a, p.value) != []
      && Apply(cfg, s, t) == System(mems1, s.jobs[j := s.jobs[j] + HeldOne(cfg, a, p.value)])
  {
    hide FixAlignment, AllocateIn, AllocateFixedIn;
  }

  /** A failed start has taken the blocks for the arguments before the one that failed. */
  lemma FailedStartIsTakes(cfg: Config, s: System, j: nat, args: seq<Param>) returns (k: nat, params: seq<Param>)
    requires Sane(cfg, s.mems) && InRange(|s.mems|, args) && Modest(cfg, args) && j < |s.jobs|
    requires AllocateAll(cfg, s.mems, args).1.Bad?
    ensures k < |args| && |params| == k
    ensures Leads(cfg, s, TakesOf(j, args[..k]),
                  System(AllocateAll(cfg, s.mems, args).0, s.jobs[j := s.jobs[j] + HeldOf(cfg, args[..k], params)]))
  {
    k := FailedStart(cfg, s.mems, args);
    assert Modest(cfg, args[..k]);
    hide AllocateAll, Modest;
    params := AllocateAll(cfg, s.mems, args[..k]).1.value;
    StartIsTakes(cfg, s, j, args[..k]);
  }

  /** The actions of a release: the job's own blocks are given back by their place in what it holds, the caller's by
   *  their address.  `n` is the number of blocks kept so far. */
  function GivesOf(j: nat, n: nat, args: seq<Param>): seq<Action>
    decreases |args|
  {
    if args == [] then []
    else if args[0].Alloc? then
      if args[0].free then [Give(j, n)] + GivesOf(j, n, args[1..]) else GivesOf(j, n + 1, args[1..])
    else if args[0].Prealloc? && args[0].buffer.free then
      [GiveBack(args[0].buffer.mem, args[0].buffer.addr)] + GivesOf(j, n, args[1..])
    else GivesOf(j, n, args[1..])
  }

  /** What a release that succeeds does to the memories is what giving back these blocks one by one does. */
  lemma {:induction false} ReleaseIsGives(cfg: Config, s: System, j: nat, pre: seq<Held>, args: seq<Param>,
      params: seq<Param>, device: Device)
    requires Sane(cfg, s.mems) && InRange(|s.mems|, args) && Matches(args, params) && j < |s.jobs|
    requires s.jobs[j] == pre + HeldOf(cfg, args, params)
    requires BacksInRange(|s.mems|, Transfers(params).copybacks)
        && CopyBacks(s.mems, Transfers(params).copybacks, device).1.Good?
    ensures Leads(cfg, s, GivesOf(j, |pre|, args),
                  System(CopyBacks(s.mems, Transfers(params).copybacks, device).0,
                      s.jobs[j := pre + HeldKept(cfg, args, params)]))
    decreases |args|
  {
    if args == [] {
      assert pre + [] == pre;
    } else {
      var a, p := args[0], params[0];
      assert MatchesOne(a, p) && Matches(args[1..], params[1..]) && InRange(|s.mems|, args[1..]);
      FirstBackGood(s.mems, params, device);
      var end := CopyBacks(s.mems, Transfers(params).copybacks, device).0;
      hide FreeAt, CopyBacks, Transfers, Apply, Enabled, Leads, Matches, InRange, AfterParam, HeldOf, HeldKept,
          HeldOne, GivesOf;
      if a.Alloc? && a.free {
        OwnBlock(cfg, s, a, p);
        var s1 := OwnGiven(cfg, s, j, pre, args, params);
        ReleaseIsGives(cfg, s1, j, pre, args[1..], params[1..], device);
        OwnGivenOn(cfg, s, s1, j, pre, args, params, end);
      } else if a.Prealloc? && a.buffer.free {
        CallersBlock(s, p);
        GiveBackOne(cfg, s, p.buffer.mem, p.buffer.addr);
        var s1 := Apply(cfg, s, GiveBack(p.buffer.mem, p.buffer.addr));
        HeldByOthers(cfg, args, params);
        ReleaseIsGives(cfg, s1, j, pre, args[1..], params[1..], device);
        CallersOn(cfg, s, s1, j, pre, args, params, end);
      } else {
        NothingFreed(s, a, p);
        HeldRegroups(cfg, pre, args, params);
        ReleaseIsGives(cfg, s, j, pre + HeldOne(cfg, a, p), args[1..], params[1..], device);
        KeptOn(cfg, s, j, pre, args, params, end);
      }
    }
  }

  /** Giving back the block of the first argument. */
  lemma OwnGiven(cfg: Config, s: System, j: nat, pre: seq<Held>, args: seq<Param>, params: seq<Param>)
      returns (s1: System)
    requires |args| == |params| && args != [] && Sane(cfg, s.mems) && j < |s.jobs|
        && s.jobs[j] == pre + HeldOf(cfg, args, params)
    requires HeldOne(cfg, args[0], params[0]) != [] && HeldOne(cfg, args[0], params[0])[0].mem < |s.mems|
    requires var h := HeldOne(cfg, args[0], params[0])[0]; FreeAt(s.mems, h.mem, h.block.base).1.Good?
    ensures var h := HeldOne(cfg, args[0], params[0])[0];
      && |s1.mems| == |s.mems| && s1 == System(FreeAt(s.mems, h.mem, h.block.base).0,
          s.jobs[j := pre + HeldOf(cfg, args[1..], params[1..])])
    ensures Enabled(cfg, s, Give(j, |pre|)) && Apply(cfg, s, Give(j, |pre|)) == s1
  {
    var h, held := HeldOne(cfg, args[0], params[0]), HeldOf(cfg, args[1..], params[1..]);
    assert h == [h[0]] by { hide FixAlignment; }
    hide HeldOne, Apply, Enabled, FreeAt;
    Grouped(pre, h, held);
    GiveOne(cfg, s, j, pre, h[0], held);
    s1 := Apply(cfg, s, Give(j, |pre|));
  }

  lemma OwnGivenOn(cfg: Config, s: System, s1: System, j: nat, pre: seq<Held>, args: seq<Param>, params: seq<Param>,
      end: seq<Memory>)
    requires |args| == |params| && args != [] && j < |s.jobs| && args[0].Alloc? && args[0].free
    requires s1.jobs == s.jobs[j := pre + HeldOf(cfg, args[1..], params[1..])]
    requires Enabled(cfg, s, Give(j, |pre|)) && Apply(cfg, s, Give(j, |pre|)) == s1
    requires Leads(cfg, s1, GivesOf(j, |pre|, args[1..]),
        System(end, s1.jobs[j := pre + HeldKept(cfg, args[1..], params[1..])]))
    ensures Leads(cfg, s, GivesOf(j, |pre|, args), System(end, s.jobs[j := pre + HeldKept(cfg, args, params)]))
  {
    hide Apply, Enabled, HeldOne, HeldOf, Leads;
    var kept := HeldKept(cfg, args[1..], params[1..]);
    Grouped([], [], kept);
    assert s1.jobs[j := pre + kept] == s.jobs[j := pre + kept];
    LeadsOn(cfg, s, Give(j, |pre|), GivesOf(j, |pre|, args[1..]), System(end, s.jobs[j := pre + kept]));
  }

  lemma HeldByOthers(cfg: Config, args: seq<Param>, params: seq<Param>)
    requires |args| == |params| && args != [] && !args[0].Alloc?
    ensures HeldOf(cfg, args, params) == HeldOf(cfg, args[1..], params[1..])
    ensures HeldKept(cfg, args, params) == HeldKept(cfg, args[1..], params[1..])
  {
    Grouped([], [], HeldOf(cfg, args[1..], params[1..]));
    Grouped([], [], HeldKept(cfg, args[1..], params[1..]));
  }

  lemma CallersOn(cfg: Config, s: System, s1: System, j: nat, pre: seq<Held>, args: seq<Param>, params: seq<Param>,
      end: seq<Memory>)
    requires |args| == |params| && args != [] && j < |s.jobs| && args[0].Prealloc? && args[0].buffer.free
        && s1.jobs == s.jobs
    requires var g := GiveBack(args[0].buffer.mem, args[0].buffer.addr); Enabled(cfg, s, g) && Apply(cfg, s, g) == s1
    requires Leads(cfg, s1, GivesOf(j, |pre|, args[1..]),
        System(end, s1.jobs[j := pre + HeldKept(cfg, args[1..], params[1..])]))
    ensures Leads(cfg, s, GivesOf(j, |pre|, args), System(end, s.jobs[j := pre + HeldKept(cfg, args, params)]))
  {
    HeldByOthers(cfg, args, params);
    hide Apply, Enabled, HeldOf, HeldKept, Leads;
    LeadsOn(cfg, s, GiveBack(args[0].buffer.mem, args[0].buffer.addr), GivesOf(j, |pre|, args[1..]),
            System(end, s.jobs[j := pre + HeldKept(cfg, args, params)]));
  }

  lemma HeldRegroups(cfg: Config, pre: seq<Held>, args: seq<Param>, params: seq<Param>)
    requires |args| == |params| && args != []
    ensures pre + HeldOf(cfg, args, params) == (pre + HeldOne(cfg, args[0], params[0])) + HeldOf(cfg, args[1..],
        params[1..])
  {
    hide HeldOne;
    Grouped(pre, HeldOne(cfg, args[0], params[0]), HeldOf(cfg, args[1..], params[1..]));
  }

  lemma KeptOn(cfg: Config, s: System, j: nat, pre: seq<Held>, args: seq<Param>, params: seq<Param>, end: seq<Memory>)
    requires |args| == |params| && args != [] && j < |s.jobs| && MatchesOne(args[0], params[0]) && Sane(cfg, s.mems)
    requires !(args[0].Alloc? && args[0].free) && !(args[0].Prealloc? && args[0].buffer.free)
        && (args[0].Alloc? ==> args[0].mem < |s.mems|)
    requires var pre1 := pre + HeldOne(cfg, args[0], params[0]);
      Leads(cfg, s, GivesOf(j, |pre1|, args[1..]),
          System(end, s.jobs[j := pre1 + HeldKept(cfg, args[1..], params[1..])]))
    ensures Leads(cfg, s, GivesOf(j, |pre|, args), System(end, s.jobs[j := pre + HeldKept(cfg, args, params)]))
  {
    var h, kept := HeldOne(cfg, args[0], params[0]), HeldKept(cfg, args[1..], params[1..]);
    Grouped(pre, h, kept);
    assert |h| == if args[0].Alloc? then 1 else 0 by { hide FixAlignment, Leads; }
    assert HeldKept(cfg, args, params) == h + kept;
    hide HeldOne, HeldKept, Leads, Sane;
  }

  lemma LeadsOn(cfg: Config, s: System, a: Action, acts: seq<Action>, s': System)
    requires Enabled(cfg, s, a) && Leads(cfg, Apply(cfg, s, a), acts, s')
    ensures Leads(cfg, s, [a] + acts, s')
  {
    assert ([a] + acts)[1..] == acts;
  }

  lemma OwnBlock(cfg: Config, s: System, a: Param, p: Param)
    requires Sane(cfg, s.mems) && a.Alloc? && a.mem < |s.mems| && MatchesOne(a, p) && a.free
    ensures var h := HeldOne(cfg, a, p);
      h != [] && h[0].mem == a.mem && FreeAt(s.mems, a.mem, h[0].block.base) == AfterParam(s.mems, p)
  {
    hide FreeAt, FixAlignment;
  }

  lemma CallersBlock(s: System, p: Param)
    requires p.Prealloc? && p.buffer.free && p.buffer.mem < |s.mems|
    ensures FreeAt(s.mems, p.buffer.mem, p.buffer.addr) == AfterParam(s.mems, p)
  {
  }

  lemma NothingFreed(s: System, a: Param, p: Param)
    requires MatchesOne(a, p) && !(a.Alloc? && a.free) && !(a.Prealloc? && a.buffer.free)
        && (p.Prealloc? ==> p.buffer.mem < |s.mems|)
    ensures AfterParam(s.mems, p).0 == s.mems
  {
  }

  /** The memories after the copy-back of one argument. */
  function AfterParam(mems: seq<Memory>, p: Param): (seq<Memory>, Outcome<()>)
    requires p.Prealloc? ==> p.buffer.mem < |mems|
  {
    if p.Prealloc? && p.buffer.free then FreeAt(mems, p.buffer.mem, p.buffer.addr) else (mems, Good(()))
  }

  /** In a copy-back that succeeds, the first argument's part succeeds and then the rest does. */
  lemma FirstBackGood(mems: seq<Memory>, params: seq<Param>, device: Device)
    requires params != [] && BacksInRange(|mems|, Transfers(params).copybacks)
        && (params[0].Prealloc? ==> params[0].buffer.mem < |mems|)
    requires CopyBacks(mems, Transfers(params).copybacks, device).1.Good?
    ensures var (mems1, f), rest := AfterParam(mems, params[0]), Transfers(params[1..]).copybacks;
      && f.Good? && |mems1| == |mems| && BacksInRange(|mems|, rest) && CopyBacks(mems1, rest, device).1.Good?
      && CopyBacks(mems1, rest, device).0 == CopyBacks(mems, Transfers(params).copybacks, device).0
  {
    var p, rest := params[0], Transfers(params[1..]).copybacks;
    if p.Prealloc? && CopyBackOf(p.buffer) != [] {
      assert Transfers(params).copybacks == CopyBackOf(p.buffer) + rest == [CopyBackOf(p.buffer)[0]] + rest;
      hide Transfers, FreeAt, CopyBacks;
      RestInRange(|mems|, CopyBackOf(p.buffer)[0], rest);
      OneBack(mems, CopyBackOf(p.buffer)[0], rest, device);
      FreeAtKeepsSize(mems, p.buffer.mem, p.buffer.addr);
    } else {
      assert Transfers(params).copybacks == rest by { assert [] + rest == rest; }
    }
  }

  lemma GiveBackOne(cfg: Config, s: System, mem: nat, addr: nat)
    requires Sane(cfg, s.mems) && mem < |s.mems| && FreeAt(s.mems, mem, addr).1.Good?
    ensures Enabled(cfg, s, GiveBack(mem, addr)) && Apply(cfg, s, GiveBack(mem, addr))
        == s.(mems := FreeAt(s.mems, mem, addr).0)
    ensures |FreeAt(s.mems, mem, addr).0| == |s.mems|
  {
    hide FreeIn;
  }

  lemma GiveOne(cfg: Config, s: System, j: nat, pre: seq<Held>, h: Held, post: seq<Held>)
    requires Sane(cfg, s.mems) && j < |s.jobs| && s.jobs[j] == pre + [h] + post && h.mem < |s.mems|
    requires FreeAt(s.mems, h.mem, h.block.base).1.Good?
    ensures Enabled(cfg, s, Give(j, |pre|)) && |FreeAt(s.mems, h.mem, h.block.base).0| == |s.mems|
    ensures Apply(cfg, s, Give(j, |pre|)) == System(FreeAt(s.mems, h.mem, h.block.base).0, s.jobs[j := pre + post])
  {
    hide FreeIn;
    assert s.jobs[j][|pre|] == h;
    assert s.jobs[j][..|pre|] + s.jobs[j][|pre| + 1..] == pre + post;
  }
}
