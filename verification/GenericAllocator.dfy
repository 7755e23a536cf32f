/** The first-fit allocator for device memory that the host manages.
 *
 *  The operations are given twice: as functions on the pair of lists, about which the laws are proved, and
 *  as methods of a class that updates the lists in place, proved to compute those functions.
 */
module GenericAllocator {
  import opened Blocks
  import opened Bits

  const WORD64 := 0x1_0000_0000_0000_0000

  datatype Error =
    | OutOfMemory(size: nat)
    | FixedNotAvailable(size: nat, offset: nat)
    | InvalidSize(size: nat)
    | InvalidAlignment(alignment: nat)
    | UnknownMemory(ptr: nat)

  datatype Result<T> = Ok(value: T) | Err(error: Error)

  datatype Memory = Memory(free: seq<Block>, used: seq<Block>)

  // ---- Rounding of sizes ----

  /** 64-bit arithmetic: the sum wraps around. */
  function FixAlignment(alignment: nat, size: nat): nat
    requires 1 <= alignment < WORD64
  {
    And((size + (alignment - 1)) % WORD64, WORD64 - 1 - (alignment - 1))
  }

  predicate NoWrap(alignment: nat, size: nat) {
    size + alignment - 1 < WORD64
  }

  /** A request that does not come to nothing when it is rounded. */
  predicate Rounds(alignment: nat, size: nat)
    requires 1 <= alignment < WORD64
  {
    size > 0 ==> FixAlignment(alignment, size) > 0
  }

  lemma Word64IsPow2()
    ensures Pow2(64) == WORD64
  {
    assert Pow2(8) == 256;
    PowSum(8, 8);
    PowSum(16, 16);
    PowSum(32, 32);
    assert Pow2(16) == 65536;
    assert Pow2(32) == 65536 * 65536;
  }

  lemma {:induction false} PowSum(a: nat, b: nat)
    ensures Pow2(a + b) == Pow2(a) * Pow2(b)
  {
    if a > 0 {
      PowSum(a - 1, b);
      Twice(Pow2(a - 1), Pow2(b));
    }
  }

  lemma Twice(x: nat, y: nat)
    ensures 2 * (x * y) == (2 * x) * y
  {
  }

  lemma FixAlignmentSplit(alignment: nat, size: nat)
    requires 1 <= alignment < WORD64
    ensures var x := (size + (alignment - 1)) % WORD64;
      FixAlignment(alignment, size) == x - And(x, alignment - 1) && And(x, alignment - 1) <= alignment - 1
  {
    var x := (size + (alignment - 1)) % WORD64;
    Word64IsPow2();
    AndComplement(x, alignment - 1, 64);
    AndAtMost(x, alignment - 1);
  }

  /** The rounded size is at least the requested one, for any alignment, exactly when the sum does not wrap. */
  lemma RoundsUpIffNoWrap(alignment: nat, size: nat)
    requires 1 <= alignment < WORD64 && size < WORD64
    ensures FixAlignment(alignment, size) >= size <==> NoWrap(alignment, size)
    ensures NoWrap(alignment, size) ==> FixAlignment(alignment, size) < size + alignment
  {
    FixAlignmentSplit(alignment, size);
  }

  /** For a power of two it is the next multiple of the alignment. */
  lemma RoundsToMultiple(k: nat, size: nat)
    requires Pow2(k) < WORD64 && NoWrap(Pow2(k), size) && size < WORD64
    ensures FixAlignment(Pow2(k), size) % Pow2(k) == 0
    ensures size <= FixAlignment(Pow2(k), size) < size + Pow2(k)
  {
    hide FixAlignment, And, Pow2;
    var a := Pow2(k);
    var x := size + (a - 1);
    assert x % WORD64 == x;
    FixAlignmentSplit(a, size);
    AndLowBits(x, k);
    RoundsUpIffNoWrap(a, size);
    FloorIsMultiple(x, a);
  }

  /** For no other alignment: the smallest request is already rounded to something that is not a multiple. */
  lemma MultiplesNeedPowerOfTwo(alignment: nat)
    requires 1 <= alignment < WORD64
    ensures FixAlignment(alignment, 1) % alignment == 0 <==> IsPow2(alignment)
  {
    hide FixAlignment, And, IsPow2;
    FixAlignmentSplit(alignment, 1);
    assert (1 + (alignment - 1)) % WORD64 == alignment;
    PredecessorBits(alignment);
    var r := FixAlignment(alignment, 1);
    if r < alignment { RemainderOf(r, alignment, 0, r); } else { RemainderOf(r, alignment, 1, 0); }
  }

  // ---- The operations as functions ----

  predicate Fits(b: Block, offset: nat, n: nat) {
    b.base <= offset && offset <= b.End() && b.End() - offset >= n
  }

  /** The first block that holds `n` addresses from `offset` on, or the length of the list. */
  function FixedFit(free: seq<Block>, offset: nat, n: nat): (i: nat)
    ensures i <= |free|
    ensures i < |free| ==> Fits(free[i], offset, n)
    ensures forall j | 0 <= j < i :: !Fits(free[j], offset, n)
  {
    if free == [] || Fits(free[0], offset, n) then 0 else
      var i := FixedFit(free[1..], offset, n);
      assert forall j | 0 < j < i + 1 :: free[j] == free[1..][j - 1];
      i + 1
  }

  /** The first used block that starts at `ptr`, or the length of the list. */
  function Find(used: seq<Block>, ptr: nat): (i: nat)
    ensures i <= |used|
    ensures i < |used| ==> used[i].base == ptr
    ensures forall j | 0 <= j < i :: used[j].base != ptr
  {
    if used == [] || used[0].base == ptr then 0 else
      var i := Find(used[1..], ptr);
      assert forall j | 0 < j < i + 1 :: used[j] == used[1..][j - 1];
      i + 1
  }

  /** Block `i` gives up `n` addresses from `p` on. */
  function Granted(m: Memory, i: nat, p: nat, n: nat): Memory
    requires i < |m.free| && m.free[i].base <= p && p + n <= m.free[i].End()
  {
    Memory(Without(m.free, i, p, n), m.used + [Block(p, n)])
  }

  function AllocateIn(alignment: nat, m: Memory, size: nat): (Memory, Result<nat>)
    requires 1 <= alignment < WORD64
  {
    if size == 0 then (m, Err(InvalidSize(size))) else
      var n := FixAlignment(alignment, size);
      var i := FirstFit(m.free, n);
      if i < |m.free| then (Granted(m, i, m.free[i].base, n), Ok(m.free[i].base)) else (m, Err(OutOfMemory(n)))
  }

  function AllocateFixedIn(alignment: nat, m: Memory, size: nat, offset: nat): (Memory, Result<nat>)
    requires 1 <= alignment < WORD64
  {
    if size == 0 then (m, Err(InvalidSize(size))) else
      var n := FixAlignment(alignment, size);
      var i := FixedFit(m.free, offset, n);
      if i < |m.free| then (Granted(m, i, offset, n), Ok(offset)) else (m, Err(FixedNotAvailable(n, offset)))
  }

  function FreeIn(m: Memory, ptr: nat): (Memory, Result<()>) {
    var i := Find(m.used, ptr);
    if i < |m.used| then (Memory(Given(m.free, m.used[i]), m.used[..i] + m.used[i + 1..]), Ok(()))
    else (m, Err(UnknownMemory(ptr)))
  }

  // ---- The region is partitioned ----

  /** The free list is canonical, used blocks are non-empty and disjoint, and the two lists together cover the
   *  region, each address once. */
  ghost predicate Valid(m: Memory, lo: nat, hi: nat) {
    && Canonical(m.free)
    && (forall i | 0 <= i < |m.used| :: m.used[i].size > 0)
    && (forall i, j | 0 <= i < |m.used| && 0 <= j < |m.used| && i != j :: Disjoint(m.used[i], m.used[j]))
    && (forall x: int :: lo <= x < hi <==> Covers(m.free, x) || Covers(m.used, x))
    && (forall x: int :: !(Covers(m.free, x) && Covers(m.used, x)))
  }

  ghost predicate Disjoint(a: Block, b: Block) {
    forall x: int :: !(a.Has(x) && b.Has(x))
  }

  lemma FreshValid(lo: nat, hi: nat)
    requires lo < hi
    ensures Valid(Memory([Block(lo, hi - lo)], []), lo, hi)
  {
    var free := [Block(lo, hi - lo)];
    forall x: int ensures lo <= x < hi <==> Covers(free, x) {
      ConsCovers(Block(lo, hi - lo), [], x);
      assert [Block(lo, hi - lo)] + [] == free;
    }
  }

  lemma GrantKeepsValid(m: Memory, lo: nat, hi: nat, i: nat, p: nat, n: nat)
    requires Valid(m, lo, hi) && n > 0 && i < |m.free| && m.free[i].base <= p && p + n <= m.free[i].End()
    ensures Valid(Granted(m, i, p, n), lo, hi)
  {
    var m', b := Granted(m, i, p, n), Block(p, n);
    WithoutCanonical(m.free, i, p, n);
    BlockHasRun(m.free, i, p, n);
    forall x: int
      ensures Covers(m'.free, x) <==> Covers(m.free, x) && !b.Has(x)
      ensures Covers(m'.used, x) <==> Covers(m.used, x) || b.Has(x)
    {
      WithoutCovers(m.free, i, p, n, x);
      ConcatCovers(m.used, [b], x);
      ConsCovers(b, [], x);
      assert [b] + [] == [b];
    }
    forall j | 0 <= j < |m.used| ensures Disjoint(m.used[j], b) && Disjoint(b, m.used[j]) {
      forall x: int ensures !(m.used[j].Has(x) && b.Has(x)) {
        if m.used[j].Has(x) { assert Covers(m.used, x); }
      }
    }
  }

  lemma RemovedCovers(used: seq<Block>, i: nat, x: int)
    requires i < |used|
    requires forall j | 0 <= j < |used| && j != i :: Disjoint(used[j], used[i])
    ensures Covers(used[..i] + used[i + 1..], x) <==> Covers(used, x) && !used[i].Has(x)
  {
    var r := used[..i] + used[i + 1..];
    if Covers(r, x) {
      var j :| 0 <= j < |r| && r[j].Has(x);
      if j < i { assert used[j].Has(x); } else { assert used[j + 1].Has(x); }
    }
    if Covers(used, x) && !used[i].Has(x) {
      var j :| 0 <= j < |used| && used[j].Has(x);
      if j < i { assert r[j].Has(x); } else { assert r[j - 1].Has(x); }
    }
  }

  lemma FreeKeepsValid(m: Memory, lo: nat, hi: nat, ptr: nat)
    requires Valid(m, lo, hi)
    ensures Valid(FreeIn(m, ptr).0, lo, hi)
  {
    var i := Find(m.used, ptr);
    if i < |m.used| {
      var b, m' := m.used[i], FreeIn(m, ptr).0;
      forall x | b.Has(x) ensures !Covers(m.free, x) { assert Covers(m.used, x); }
      GivenCanonical(m.free, b);
      forall x ensures Covers(m'.used, x) <==> Covers(m.used, x) && !b.Has(x) {
        RemovedCovers(m.used, i, x);
      }
      forall x | b.Has(x) ensures Covers(m.used, x) { }
    }
  }

  /** Allocation keeps the partition, as long as the request does not round to nothing. */
  lemma AllocateKeepsValid(alignment: nat, m: Memory, lo: nat, hi: nat, size: nat)
    requires 1 <= alignment < WORD64 && Valid(m, lo, hi) && Rounds(alignment, size)
    ensures Valid(AllocateIn(alignment, m, size).0, lo, hi)
  {
    var n := FixAlignment(alignment, size);
    var i := FirstFit(m.free, n);
    hide Valid, FixAlignment;
    if size > 0 && i < |m.free| { GrantKeepsValid(m, lo, hi, i, m.free[i].base, n); }
  }

  lemma AllocateFixedKeepsValid(alignment: nat, m: Memory, lo: nat, hi: nat, size: nat, offset: nat)
    requires 1 <= alignment < WORD64 && Valid(m, lo, hi) && Rounds(alignment, size)
    ensures Valid(AllocateFixedIn(alignment, m, size, offset).0, lo, hi)
  {
    var n := FixAlignment(alignment, size);
    var i := FixedFit(m.free, offset, n);
    hide Valid, FixAlignment;
    if size > 0 && i < |m.free| { GrantKeepsValid(m, lo, hi, i, offset, n); }
  }

  // ---- Every sequence of operations ----

  datatype Op = DoAllocate(size: nat) | DoAllocateFixed(size: nat, offset: nat) | DoFree(ptr: nat)

  predicate Fine(alignment: nat, op: Op)
    requires 1 <= alignment < WORD64
  {
    !op.DoFree? ==> Rounds(alignment, op.size)
  }

  function Do(alignment: nat, m: Memory, op: Op): Memory
    requires 1 <= alignment < WORD64
  {
    match op
    case DoAllocate(size) => AllocateIn(alignment, m, size).0
    case DoAllocateFixed(size, offset) => AllocateFixedIn(alignment, m, size, offset).0
    case DoFree(ptr) => FreeIn(m, ptr).0
  }

  function DoAll(alignment: nat, m: Memory, ops: seq<Op>): Memory
    requires 1 <= alignment < WORD64
    decreases |ops|
  {
    if ops == [] then m else DoAll(alignment, Do(alignment, m, ops[0]), ops[1..])
  }

  /** Whatever is asked for and in whatever order, the region stays partitioned. */
  lemma {:induction false} EverySequenceKeepsValid(alignment: nat, m: Memory, lo: nat, hi: nat, ops: seq<Op>)
    requires 1 <= alignment < WORD64 && Valid(m, lo, hi)
    requires forall i | 0 <= i < |ops| :: Fine(alignment, ops[i])
    ensures Valid(DoAll(alignment, m, ops), lo, hi)
    decreases |ops|
  {
    if ops != [] {
      assert Fine(alignment, ops[0]);
      hide Valid, AllocateIn, AllocateFixedIn, FreeIn;
      match ops[0] {
        case DoAllocate(size) => AllocateKeepsValid(alignment, m, lo, hi, size);
        case DoAllocateFixed(size, offset) => AllocateFixedKeepsValid(alignment, m, lo, hi, size, offset);
        case DoFree(ptr) => FreeKeepsValid(m, lo, hi, ptr);
      }
      EverySequenceKeepsValid(alignment, Do(alignment, m, ops[0]), lo, hi, ops[1..]);
    }
  }

  // ---- First fit is complete; fixed placement is exact ----

  /** `allocate` succeeds exactly when some run of enough free addresses exists, and then grants the lowest
   *  one, with at least the requested size. */
  lemma AllocateIsLowestFit(alignment: nat, m: Memory, lo: nat, hi: nat, size: nat)
    requires 1 <= alignment < WORD64 && Valid(m, lo, hi) && 0 < size < WORD64 && NoWrap(alignment, size)
    ensures var n, (m', r) := FixAlignment(alignment, size), AllocateIn(alignment, m, size);
      && n >= size
      && (r.Ok? <==> exists p: nat :: HasRun(m.free, p, n))
      && (r.Ok? ==>
            && HasRun(m.free, r.value, n)
            && (forall p: nat | HasRun(m.free, p, n) :: r.value <= p)
            && m'.used == m.used + [Block(r.value, n)]
            && (forall x :: Covers(m'.free, x) <==> Covers(m.free, x) && !(r.value <= x < r.value + n)))
      && (r.Err? ==> m' == m && r.error == OutOfMemory(n))
  {
    RoundsUpIffNoWrap(alignment, size);
    var n := FixAlignment(alignment, size);
    hide FixAlignment;
    var i := FirstFit(m.free, n);
    FirstFitIsLowest(m.free, n);
    if i < |m.free| {
      forall x ensures Covers(Without(m.free, i, m.free[i].base, n), x) <==>
          Covers(m.free, x) && !(m.free[i].base <= x < m.free[i].base + n) {
        WithoutCovers(m.free, i, m.free[i].base, n, x);
      }
    }
  }

  /** `allocate_fixed` succeeds exactly when every requested address is free. */
  lemma AllocateFixedIsExact(alignment: nat, m: Memory, lo: nat, hi: nat, size: nat, offset: nat)
    requires 1 <= alignment < WORD64 && Valid(m, lo, hi) && 0 < size < WORD64 && NoWrap(alignment, size)
    ensures var n, (m', r) := FixAlignment(alignment, size), AllocateFixedIn(alignment, m, size, offset);
      && n >= size
      && (r.Ok? <==> HasRun(m.free, offset, n))
      && (r.Ok? ==>
            && r.value == offset
            && m'.used == m.used + [Block(offset, n)]
            && (forall x :: Covers(m'.free, x) <==> Covers(m.free, x) && !(offset <= x < offset + n)))
      && (r.Err? ==> m' == m && r.error == FixedNotAvailable(n, offset))
  {
    RoundsUpIffNoWrap(alignment, size);
    var n := FixAlignment(alignment, size);
    hide FixAlignment;
    var i := FixedFit(m.free, offset, n);
    if HasRun(m.free, offset, n) {
      var j := RunInBlock(m.free, offset, n);
      assert Fits(m.free[j], offset, n);
    }
    if i < |m.free| {
      BlockHasRun(m.free, i, offset, n);
      forall x ensures Covers(Without(m.free, i, offset, n), x) <==> Covers(m.free, x) && !(offset <= x < offset + n) {
        WithoutCovers(m.free, i, offset, n, x);
      }
    }
  }

  /** A valid memory has at most one used block at an address, so `Find` finds the block granted last. */
  lemma FindGranted(m: Memory, lo: nat, hi: nat, i: nat, p: nat, n: nat)
    requires Valid(m, lo, hi) && n > 0 && i < |m.free| && m.free[i].base <= p && p + n <= m.free[i].End()
    ensures Find(m.used + [Block(p, n)], p) == |m.used|
  {
    var used := m.used + [Block(p, n)];
    assert m.free[i].Has(p);
    forall j | 0 <= j < |m.used| ensures used[j].base != p {
      if m.used[j].base == p { assert m.used[j].Has(p); assert Covers(m.used, p) && Covers(m.free, p); assert false; }
    }
    assert used[|m.used|].base == p;
  }

  lemma FreeUndoesGrant(m: Memory, lo: nat, hi: nat, i: nat, p: nat, n: nat)
    requires Valid(m, lo, hi) && n > 0 && i < |m.free| && m.free[i].base <= p && p + n <= m.free[i].End()
    ensures FreeIn(Granted(m, i, p, n), p) == (m, Ok(()))
  {
    FindGranted(m, lo, hi, i, p, n);
    GivenUndoesWithout(m.free, i, p, n);
    var used := m.used + [Block(p, n)];
    assert used[..|m.used|] + used[|m.used| + 1..] == m.used;
  }

  /** Freeing the block just granted restores both lists, element for element. */
  lemma FreeUndoesAllocate(alignment: nat, m: Memory, lo: nat, hi: nat, size: nat)
    requires 1 <= alignment < WORD64 && Valid(m, lo, hi) && Rounds(alignment, size)
    ensures var (m', r) := AllocateIn(alignment, m, size); r.Ok? ==> FreeIn(m', r.value) == (m, Ok(()))
  {
    var n := FixAlignment(alignment, size);
    hide Valid, FixAlignment, FreeIn, Granted;
    var i := FirstFit(m.free, n);
    if size > 0 && i < |m.free| { FreeUndoesGrant(m, lo, hi, i, m.free[i].base, n); }
  }

  lemma FreeUndoesAllocateFixed(alignment: nat, m: Memory, lo: nat, hi: nat, size: nat, offset: nat)
    requires 1 <= alignment < WORD64 && Valid(m, lo, hi) && Rounds(alignment, size)
    ensures var (m', r) := AllocateFixedIn(alignment, m, size, offset); r.Ok? ==> FreeIn(m', r.value) == (m, Ok(()))
  {
    var n := FixAlignment(alignment, size);
    hide Valid, FixAlignment, FreeIn, Granted;
    var i := FixedFit(m.free, offset, n);
    if size > 0 && i < |m.free| { FreeUndoesGrant(m, lo, hi, i, offset, n); }
  }

  /** A request that fits into 64 bits together with the alignment does not round to nothing. */
  lemma NoWrapRounds(alignment: nat, size: nat)
    requires 1 <= alignment < WORD64 && size < WORD64 && NoWrap(alignment, size)
    ensures Rounds(alignment, size)
  {
    RoundsUpIffNoWrap(alignment, size);
  }

  /** The partition survives an allocation exactly when the rounded size is not zero, or there is no free block to
   *  grant nothing from; the empty block granted otherwise breaks it. */
  lemma ValidIffRoundedPositive(alignment: nat, m: Memory, lo: nat, hi: nat, size: nat)
    requires 1 <= alignment < WORD64 && Valid(m, lo, hi) && 0 < size < WORD64
    ensures Valid(AllocateIn(alignment, m, size).0, lo, hi) <==> FixAlignment(alignment, size) > 0 || m.free == []
  {
    var n := FixAlignment(alignment, size);
    hide FixAlignment;
    var i := FirstFit(m.free, n);
    if n > 0 && i < |m.free| {
      GrantKeepsValid(m, lo, hi, i, m.free[i].base, n);
    }
    if n == 0 && m.free != [] {
      var m' := AllocateIn(alignment, m, size).0;
      assert i == 0 && m'.used[|m.used|].size == 0;
    }
  }

  /** The same for fixed placement: nothing is granted where no free block begins, ends or lies. */
  lemma FixedValidIffRoundedPositive(alignment: nat, m: Memory, lo: nat, hi: nat, size: nat, offset: nat)
    requires 1 <= alignment < WORD64 && Valid(m, lo, hi) && 0 < size < WORD64
    ensures Valid(AllocateFixedIn(alignment, m, size, offset).0, lo, hi) <==>
      || FixAlignment(alignment, size) > 0
      || forall j | 0 <= j < |m.free| :: !(m.free[j].base <= offset <= m.free[j].End())
  {
    var n := FixAlignment(alignment, size);
    hide FixAlignment;
    var i := FixedFit(m.free, offset, n);
    if i < |m.free| {
      if n > 0 {
        GrantKeepsValid(m, lo, hi, i, offset, n);
      } else {
        var m' := AllocateFixedIn(alignment, m, size, offset).0;
        assert m'.used[|m.used|].size == 0;
        assert m.free[i].base <= offset <= m.free[i].End();
      }
    } else if n == 0 {
      forall j | 0 <= j < |m.free| ensures !(m.free[j].base <= offset <= m.free[j].End()) {
        assert !Fits(m.free[j], offset, 0);
      }
    }
  }

  /** Such requests exist: the largest one, at the usual alignment. */
  lemma LargestRequestWraps()
    ensures FixAlignment(64, WORD64 - 1) == 0
  {
    FixAlignmentSplit(64, WORD64 - 1);
    assert (WORD64 - 1 + 63) % WORD64 == 62;
    AndLowBits(62, 6);
    assert Pow2(6) == 64;
  }

  // ---- The class ----

  class Allocator {
    var memoryFree: seq<Block>
    var memoryUsed: seq<Block>
    const alignment: nat

    ghost predicate Formed()
      reads this
    {
      1 <= alignment < WORD64
    }

    function Contents(): Memory
      reads this
    {
      Memory(memoryFree, memoryUsed)
    }

    constructor (address: nat, size: nat, alignment: nat)
      requires 1 <= alignment < WORD64 && size > 0
      ensures Formed() && this.alignment == alignment
      ensures Contents() == Memory([Block(address, size)], [])
    {
      memoryFree := [Block(address, size)];
      memoryUsed := [];
      this.alignment := alignment;
    }

    /** Joins neighbours in place until no two blocks touch. */
    method MergeMemory()
      modifies this`memoryFree
      ensures memoryFree == Merged(old(memoryFree))
    {
      hide Merged;
      MergedEnds(memoryFree);
      var i := 0;
      while i < |memoryFree|
        invariant 0 <= i <= |memoryFree|
        invariant memoryFree[..i] + Merged(memoryFree[i..]) == Merged(old(memoryFree))
        decreases |memoryFree| - i
      {
        var n := i + 1;
        if n < |memoryFree| && memoryFree[i].base + memoryFree[i].size == memoryFree[n].base {
          JoinStep(memoryFree, i);
          ghost var joined := Joined(memoryFree, i);
          memoryFree := memoryFree[i := Block(memoryFree[i].base, memoryFree[i].size + memoryFree[n].size)];
          memoryFree := memoryFree[..n] + memoryFree[n + 1..];
          assert memoryFree == joined;
        } else {
          SkipStep(memoryFree, i);
          i := n;
        }
      }
      MergedEnds(memoryFree);
    }

    method Allocate(size: nat) returns (r: Result<nat>)
      requires Formed() && size < WORD64
      modifies this
      ensures (Contents(), r) == AllocateIn(alignment, old(Contents()), size)
    {
      if size == 0 {
        return Err(InvalidSize(size));
      }
      var aligned := FixAlignment(alignment, size);
      var i := 0;
      while i < |memoryFree| && memoryFree[i].size < aligned
        invariant 0 <= i <= |memoryFree|
        invariant forall j | 0 <= j < i :: memoryFree[j].size < aligned
      {
        i := i + 1;
      }
      if i == |memoryFree| {
        return Err(OutOfMemory(aligned));
      }
      var s := memoryFree[i];
      memoryUsed := memoryUsed + [Block(s.base, aligned)];
      if s.size - aligned == 0 {
        memoryFree := memoryFree[..i] + memoryFree[i + 1..];
      } else {
        memoryFree := memoryFree[i := Block(s.base + aligned, s.size - aligned)];
      }
      assert memoryFree == Without(old(memoryFree), i, s.base, aligned);
      r := Ok(s.base);
    }

    method AllocateFixed(size: nat, offset: nat) returns (r: Result<nat>)
      requires Formed() && size < WORD64
      modifies this
      ensures (Contents(), r) == AllocateFixedIn(alignment, old(Contents()), size, offset)
    {
      if size == 0 {
        return Err(InvalidSize(size));
      }
      var aligned := FixAlignment(alignment, size);
      var x := 0;
      while x < |memoryFree| && !Fits(memoryFree[x], offset, aligned)
        invariant 0 <= x <= |memoryFree|
        invariant forall j | 0 <= j < x :: !Fits(memoryFree[j], offset, aligned)
      {
        x := x + 1;
      }
      if x == |memoryFree| {
        return Err(FixedNotAvailable(aligned, offset));
      }
      var s := memoryFree[x];
      memoryUsed := memoryUsed + [Block(offset, aligned)];
      if s.base == offset {
        memoryFree := memoryFree[x := Block(s.base + aligned, s.size - aligned)];
      } else {
        var leftSize := offset - s.base;
        var split := Block(offset + aligned, s.size - (leftSize + aligned));
        if split.size > 0 {
          memoryFree := memoryFree[..x + 1] + [split] + memoryFree[x + 1..];
        }
        memoryFree := memoryFree[x := Block(s.base, leftSize)];
      }
      if memoryFree[x].size == 0 {
        memoryFree := memoryFree[..x] + memoryFree[x + 1..];
      }
      assert memoryFree == Without(old(memoryFree), x, offset, aligned);
      r := Ok(offset);
    }

    method Free(ptr: nat) returns (r: Result<()>)
      modifies this
      ensures (Contents(), r) == FreeIn(old(Contents()), ptr)
    {
      var x := 0;
      while x < |memoryUsed| && memoryUsed[x].base != ptr
        invariant 0 <= x <= |memoryUsed|
        invariant forall j | 0 <= j < x :: memoryUsed[j].base != ptr
      {
        x := x + 1;
      }
      if x == |memoryUsed| {
        return Err(UnknownMemory(ptr));
      }
      var m := memoryUsed[x];
      memoryUsed := memoryUsed[..x] + memoryUsed[x + 1..];
      if memoryFree == [] {
        memoryFree := memoryFree + [m];
      } else {
        var k := 0;
        while k < |memoryFree| && memoryFree[k].base <= m.base
          invariant 0 <= k <= |memoryFree|
          invariant forall j | 0 <= j < k :: memoryFree[j].base <= m.base
        {
          k := k + 1;
        }
        memoryFree := memoryFree[..k] + [m] + memoryFree[k..];
      }
      assert memoryFree == Inserted(old(memoryFree), m);
      MergeMemory();
      r := Ok(());
    }
  }

  /** A new allocator owns one free block, unless its size or its alignment is zero. */
  method New(address: nat, size: nat, alignment: nat) returns (r: Result<Allocator>)
    requires alignment < WORD64 && address + size < WORD64
    ensures size == 0 ==> r == Err(InvalidSize(0))
    ensures size > 0 && alignment == 0 ==> r == Err(InvalidAlignment(0))
    ensures size > 0 && alignment > 0 ==>
      r.Ok? && fresh(r.value) && r.value.Formed() && r.value.alignment == alignment
          && Valid(r.value.Contents(), address, address + size)
  {
    if size == 0 {
      return Err(InvalidSize(size));
    }
    if alignment == 0 {
      return Err(InvalidAlignment(alignment));
    }
    var a := new Allocator(address, size, alignment);
    FreshValid(address, address + size);
    r := Ok(a);
  }
}
