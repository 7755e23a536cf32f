/** Migration of address ranges between RAM and the devices of one process.
 *
 *  A page of a process is resident on at most one of its devices; it is in RAM when it is on none.  The
 *  page migrations themselves are calls into the kernel and the DMA engine that may fail.  How the kernel
 *  answers each of them is given; a success has the effect their bookkeeping records.
 */
module SvmMigrate {
  import opened Common
  import opened SvmPages
  import opened SvmIntervals
  import opened SvmResults

  const MAX_PAGES := 131072

  type Mm = seq<Option<nat>>

  /** Two devices of the same process; `None` is a device without shared virtual memory. */
  predicate Peers(mm: Mm, d: nat, e: nat) {
    d < |mm| && e < |mm| && mm[d].Some? && mm[d] == mm[e]
  }

  ghost predicate Good(t: Tree) {
    Canonical(t) && Aligned(t) && forall n | n in t :: n.last < ULONG_MAX
  }

  /** No address is resident on two devices of one process. */
  ghost predicate Exclusive(mm: Mm, vmem: seq<Tree>) {
    forall d, e, x: int | 0 <= d < |vmem| && 0 <= e < |vmem| && d != e && Peers(mm, d, e) ::
      !(Covers(vmem[d], x) && Covers(vmem[e], x))
  }

  ghost predicate Sound(mm: Mm, vmem: seq<Tree>) {
    |mm| == |vmem| && (forall d | 0 <= d < |vmem| :: Good(vmem[d])) && Exclusive(mm, vmem)
  }

  /** Addresses from `a` to `p` have moved to device `dst`, and nothing else has. */
  ghost predicate Moved(mm: Mm, was: seq<Tree>, vmem: seq<Tree>, dst: nat, a: int, p: int) {
    && |was| == |vmem| == |mm|
    && forall d, x: int | 0 <= d < |vmem| :: Covers(vmem[d], x) <==> Resident(mm, was, dst, a, p, d, x)
  }

  ghost predicate Resident(mm: Mm, was: seq<Tree>, dst: nat, a: int, p: int, d: nat, x: int)
    requires d < |was|
  {
    if a <= x < p && Peers(mm, d, dst) then d == dst else Covers(was[d], x)
  }

  lemma MovedExclusive(mm: Mm, was: seq<Tree>, vmem: seq<Tree>, dst: nat, a: int, p: int)
    requires Moved(mm, was, vmem, dst, a, p) && Exclusive(mm, was) && dst < |mm|
    ensures Exclusive(mm, vmem)
  {
    forall d, e, x: int | 0 <= d < |vmem| && 0 <= e < |vmem| && d != e && Peers(mm, d, e)
      ensures !(Covers(vmem[d], x) && Covers(vmem[e], x))
    {
      assert Covers(vmem[d], x) <==> Resident(mm, was, dst, a, p, d, x);
      assert Covers(vmem[e], x) <==> Resident(mm, was, dst, a, p, e, x);
    }
  }

  lemma MovedOn(mm: Mm, was: seq<Tree>, vmem: seq<Tree>, vmem': seq<Tree>, dst: nat, a: int, p: int, q: int)
    requires Moved(mm, was, vmem, dst, a, p) && Moved(mm, vmem, vmem', dst, p, q) && a <= p <= q
    ensures Moved(mm, was, vmem', dst, a, q)
  {
    forall d, x: int | 0 <= d < |vmem'| ensures Covers(vmem'[d], x) <==> Resident(mm, was, dst, a, q, d, x) {
      assert Covers(vmem[d], x) <==> Resident(mm, was, dst, a, p, d, x);
      assert Covers(vmem'[d], x) <==> Resident(mm, vmem, dst, p, q, d, x);
    }
  }

  /** A piece that was in RAM is inserted at the target. */
  lemma ArrivedFromRam(mm: Mm, vmem: seq<Tree>, t: Tree, dst: nat, p: nat, q: nat)
    requires |mm| == |vmem| && dst < |vmem| && mm[dst].Some?
    requires forall d | 0 <= d < |vmem| && Peers(mm, d, dst) :: Free(vmem[d], p, q - 1)
    requires IsUnion(vmem[dst], t, p, q - 1)
    ensures Moved(mm, vmem, vmem[dst := t], dst, p, q)
  {
    var vmem' := vmem[dst := t];
    forall d, x: int | 0 <= d < |vmem'| ensures Covers(vmem'[d], x) <==> Resident(mm, vmem, dst, p, q, d, x) {
    }
  }

  /** A piece that was on another device of the process is taken out there and inserted at the target. */
  lemma ArrivedFromDevice(mm: Mm, vmem: seq<Tree>, s: Tree, t: Tree, src: nat, dst: nat, p: nat, q: nat)
    requires |mm| == |vmem| && src < |vmem| && dst < |vmem| && src != dst && Peers(mm, src, dst) && Exclusive(mm, vmem)
    requires forall x: int | p <= x < q :: Covers(vmem[src], x)
    requires IsDifference(vmem[src], s, p, q - 1) && IsUnion(vmem[dst], t, p, q - 1)
    ensures Moved(mm, vmem, vmem[src := s][dst := t], dst, p, q)
  {
    var vmem' := vmem[src := s][dst := t];
    forall d, x: int | 0 <= d < |vmem'| ensures Covers(vmem'[d], x) <==> Resident(mm, vmem, dst, p, q, d, x) {
      if d != src && d != dst && p <= x < q && Peers(mm, d, dst) {
        assert Peers(mm, src, d);
        assert !(Covers(vmem[src], x) && Covers(vmem[d], x));
      }
    }
  }

  /** A piece already at the target is there. */
  lemma ArrivedAlready(mm: Mm, vmem: seq<Tree>, dst: nat, p: nat, q: nat)
    requires |mm| == |vmem| && dst < |vmem| && mm[dst].Some? && Exclusive(mm, vmem)
    requires forall x: int | p <= x < q :: Covers(vmem[dst], x)
    ensures Moved(mm, vmem, vmem, dst, p, q)
  {
    forall d, x: int | 0 <= d < |vmem| ensures Covers(vmem[d], x) <==> Resident(mm, vmem, dst, p, q, d, x) {
      if d != dst && p <= x < q && Peers(mm, d, dst) {
        assert Covers(vmem[dst], x);
      }
    }
  }

  // ---- The lists of intervals still to be handled ----

  /** `lists[d]` holds, for each device of the process, the intervals that overlap `[p, q)`, lowest first. */
  ghost predicate Pending(mm: Mm, was: seq<Tree>, lists: seq<seq<Interval>>, dst: nat, p: int, q: int) {
    && |lists| == |was|
    && forall d | 0 <= d < |lists| :: if Peers(mm, d, dst) then IsSearchResult(was[d], p, q - 1, lists[d])
        else lists[d] == []
  }

  /** Intervals to be taken from other devices are still nodes there. */
  ghost predicate Intact(vmem: seq<Tree>, lists: seq<seq<Interval>>, dst: nat) {
    |lists| == |vmem| && forall d, n | 0 <= d < |lists| && d != dst && n in lists[d] :: n in vmem[d]
  }

  /** The list with the lowest head, and where that head starts. */
  ghost predicate IsNext(lists: seq<seq<Interval>>, dev: int, start: nat) {
    && (dev < 0 ==> start == ULONG_MAX && forall d | 0 <= d < |lists| :: lists[d] == [])
    && (dev >= 0 ==>
          && dev < |lists| && lists[dev] != [] && start == lists[dev][0].start
          && forall d | 0 <= d < |lists| && lists[d] != [] :: start <= lists[d][0].start)
  }

  method FindNext(lists: seq<seq<Interval>>) returns (dev: int, start: nat)
    requires forall d, n | 0 <= d < |lists| && n in lists[d] :: n.start < ULONG_MAX
    ensures IsNext(lists, dev, start)
  {
    dev, start := -1, ULONG_MAX;
    for j := 0 to |lists|
      invariant -1 <= dev < j
      invariant dev < 0 ==> start == ULONG_MAX && forall d | 0 <= d < j :: lists[d] == []
      invariant dev >= 0 ==> lists[dev] != [] && start == lists[dev][0].start
      invariant forall d | 0 <= d < j && lists[d] != [] :: start <= lists[d][0].start
    {
      if lists[j] == [] {
        continue;
      }
      assert lists[j][0] in lists[j];
      if lists[j][0].start < start {
        dev, start := j, lists[j][0].start;
      }
    }
  }

  /** The head of the chosen list is the lowest interval of the process in the range. */
  lemma NextIsLowest(mm: Mm, was: seq<Tree>, lists: seq<seq<Interval>>, dst: nat, p: int, q: int, dev: int,
      start: nat, d: nat, m: Interval)
    requires Pending(mm, was, lists, dst, p, q) && IsNext(lists, dev, start)
    requires d < |was| && Peers(mm, d, dst) && m in was[d] && m.Overlaps(p, q - 1) && Canonical(was[d])
    ensures dev >= 0 && start <= m.start
  {
    assert m in lists[d];
    var i :| 0 <= i < |lists[d]| && lists[d][i] == m;
    if i > 0 { assert lists[d][0].last + 1 < lists[d][i].start; assert lists[d][0] in lists[d]; }
  }

  /** Up to the next interval, the range is in RAM. */
  lemma GapIsFree(mm: Mm, was: seq<Tree>, vmem: seq<Tree>, lists: seq<seq<Interval>>, dst: nat, a: int, p: int,
      q: int, dev: int, start: nat, d: nat)
    requires Pending(mm, was, lists, dst, p, q) && IsNext(lists, dev, start) && Moved(mm, was, vmem, dst, a, p)
    requires d < |was| && Peers(mm, d, dst) && Canonical(was[d])
    ensures Free(vmem[d], p, Min2(start, q) - 1)
  {
    forall x | p <= x <= Min2(start, q) - 1 ensures !Covers(vmem[d], x) {
      assert Covers(vmem[d], x) <==> Resident(mm, was, dst, a, p, d, x);
      if Covers(was[d], x) {
        var m :| m in was[d] && m.Has(x);
        NextIsLowest(mm, was, lists, dst, p, q, dev, start, d, m);
      }
    }
  }

  function Min2(a: int, b: int): int {
    if a < b then a else b
  }

  /** What the chosen interval is: a node of its device that contains the piece from `p` or its start on. */
  lemma NextNode(mm: Mm, was: seq<Tree>, lists: seq<seq<Interval>>, dst: nat, p: int, q: int, dev: int, start: nat)
    requires Pending(mm, was, lists, dst, p, q) && IsNext(lists, dev, start) && dev >= 0
    ensures Peers(mm, dev, dst) && lists[dev][0] in was[dev] && lists[dev][0] in lists[dev]
        && lists[dev][0].Overlaps(p, q - 1)
  {
    assert lists[dev][0] in lists[dev];
  }

  /** With the chosen interval handled, the lists hold what overlaps the rest of the range. */
  lemma PendingOn(mm: Mm, was: seq<Tree>, lists: seq<seq<Interval>>, dst: nat, p: int, q: int, dev: int, start: nat)
    requires Sound(mm, was) && Pending(mm, was, lists, dst, p, q) && IsNext(lists, dev, start) && dev >= 0
    requires lists[dev][0].last + 1 < q
    ensures Pending(mm, was, lists[dev := lists[dev][1..]], dst, lists[dev][0].last + 1, q)
  {
    NextNode(mm, was, lists, dst, p, q, dev, start);
    var n, lists' := lists[dev][0], lists[dev := lists[dev][1..]];
    forall d | 0 <= d < |lists'| && Peers(mm, d, dst) ensures IsSearchResult(was[d], n.last + 1, q - 1, lists'[d]) {
      if d == dev {
        TailResult(was[d], p, q - 1, lists[d]);
      } else {
        OtherResult(mm, was, lists, dst, p, q, dev, start, d);
      }
    }
  }

  lemma TailResult(t: Tree, p: int, b: int, list: seq<Interval>)
    requires Canonical(t) && IsSearchResult(t, p, b, list) && list != []
    ensures IsSearchResult(t, list[0].last + 1, b, list[1..])
  {
    var n, tail := list[0], list[1..];
    assert n in list;
    forall m ensures m in tail <==> m in t && m.Overlaps(n.last + 1, b) {
      if m in tail {
        var i :| 0 <= i < |tail| && tail[i] == m;
        assert list[i + 1] == m && list[0].last + 1 < list[i + 1].start;
      }
      if m in t && m.Overlaps(n.last + 1, b) {
        if m != n { assert Apart(m, n); }
        assert m in list;
      }
    }
  }

  lemma OtherResult(mm: Mm, was: seq<Tree>, lists: seq<seq<Interval>>, dst: nat, p: int, q: int, dev: int, start: nat,
      d: nat)
    requires Sound(mm, was) && Pending(mm, was, lists, dst, p, q) && IsNext(lists, dev, start) && dev >= 0
    requires d < |lists| && d != dev && Peers(mm, d, dst) && Peers(mm, dev, dst)
    requires lists[dev][0] in was[dev] && lists[dev][0].Overlaps(p, q - 1)
    ensures IsSearchResult(was[d], lists[dev][0].last + 1, q - 1, lists[d])
  {
    var n := lists[dev][0];
    assert Good(was[d]);
    forall m ensures m in lists[d] <==> m in was[d] && m.Overlaps(n.last + 1, q - 1) {
      if m in was[d] && m.Overlaps(p, q - 1) {
        NextIsLowest(mm, was, lists, dst, p, q, dev, start, d, m);
        Separate(mm, was, dev, d, n, m);
      }
    }
  }

  /** Nodes of two devices of a process do not meet. */
  lemma Separate(mm: Mm, was: seq<Tree>, d: nat, e: nat, n: Interval, m: Interval)
    requires Sound(mm, was) && d < |was| && e < |was| && d != e && Peers(mm, d, e) && n in was[d] && m in was[e]
        && n.start <= m.start
    ensures n.last < m.start
  {
    assert Good(was[d]) && Good(was[e]);
    assert m.Has(m.start);
    assert Covers(was[e], m.start);
    assert !Covers(was[d], m.start);
    assert !n.Has(m.start);
  }

  // ---- The migrations ----

  lemma PagesBetween(p: nat, q: nat)
    requires p % PAGE_SIZE == 0 && q % PAGE_SIZE == 0 && p <= q
    ensures (q - p) / PAGE_SIZE * PAGE_SIZE == q - p
    ensures p < q ==> (q - p) / PAGE_SIZE > 0
  {
  }

  ghost predicate AllFree(mm: Mm, vmem: seq<Tree>, dst: nat, a: int, b: int) {
    forall d | 0 <= d < |vmem| && Peers(mm, d, dst) :: Free(vmem[d], a, b)
  }

  lemma InsertedSound(mm: Mm, vmem: seq<Tree>, dst: nat, t: Tree, p: nat, q: nat)
    requires Sound(mm, vmem) && dst < |vmem| && mm[dst].Some? && AllFree(mm, vmem, dst, p, q - 1) && p < q <= ULONG_MAX
    requires IsUnion(vmem[dst], t, p, q - 1) && Aligned(t)
    ensures Sound(mm, vmem[dst := t]) && Moved(mm, vmem, vmem[dst := t], dst, p, q)
  {
    ArrivedFromRam(mm, vmem, t, dst, p, q);
    MovedExclusive(mm, vmem, vmem[dst := t], dst, p, q);
    assert Good(vmem[dst]);
    BoundedUnion(vmem[dst], t, p, q - 1);
  }

  lemma BoundedUnion(t: Tree, t': Tree, a: nat, b: nat)
    requires Good(t) && IsUnion(t, t', a, b) && Aligned(t') && b < ULONG_MAX
    ensures Good(t')
  {
    forall n | n in t' ensures n.last < ULONG_MAX {
      assert n.Has(n.last);
      assert Covers(t', n.last);
      if !(a <= n.last <= b) { var m :| m in t && m.Has(n.last); }
    }
  }

  lemma BoundedDifference(t: Tree, t': Tree, a: nat, b: nat)
    requires Good(t) && IsDifference(t, t', a, b) && Aligned(t')
    ensures Good(t')
  {
    forall n | n in t' ensures n.last < ULONG_MAX {
      assert n.Has(n.last);
      assert Covers(t', n.last);
      var m :| m in t && m.Has(n.last);
    }
  }

  lemma TakenSound(mm: Mm, vmem: seq<Tree>, src: nat, dst: nat, s: Tree, t: Tree, p: nat, q: nat)
    requires Sound(mm, vmem) && src < |vmem| && dst < |vmem| && src != dst && Peers(mm, src, dst) && p < q <= ULONG_MAX
    requires forall x: int | p <= x < q :: Covers(vmem[src], x)
    requires IsDifference(vmem[src], s, p, q - 1) && Aligned(s) && IsUnion(vmem[dst], t, p, q - 1) && Aligned(t)
    ensures Sound(mm, vmem[src := s][dst := t]) && Moved(mm, vmem, vmem[src := s][dst := t], dst, p, q)
  {
    ArrivedFromDevice(mm, vmem, s, t, src, dst, p, q);
    MovedExclusive(mm, vmem, vmem[src := s][dst := t], dst, p, q);
    assert Good(vmem[dst]) && Good(vmem[src]);
    BoundedUnion(vmem[dst], t, p, q - 1);
    BoundedDifference(vmem[src], s, p, q - 1);
  }

  lemma TargetIsFree(mm: Mm, vmem: seq<Tree>, src: nat, dst: nat, a: int, b: int)
    requires Sound(mm, vmem) && src < |vmem| && dst < |vmem| && src != dst && Peers(mm, src, dst)
    requires forall x: int | a <= x <= b :: Covers(vmem[src], x)
    ensures Free(vmem[dst], a, b)
  {
    forall x | a <= x <= b ensures !Covers(vmem[dst], x) {
      assert !(Covers(vmem[src], x) && Covers(vmem[dst], x));
    }
  }

  lemma StartsBounded(mm: Mm, was: seq<Tree>, lists: seq<seq<Interval>>, dst: nat, p: int, q: int)
    requires Sound(mm, was) && Pending(mm, was, lists, dst, p, q)
    ensures forall d, n | 0 <= d < |lists| && n in lists[d] :: n.start < ULONG_MAX
  {
    forall d, n | 0 <= d < |lists| && n in lists[d] ensures n.start < ULONG_MAX { assert Good(was[d]); }
  }

  lemma GapsAreFree(mm: Mm, was: seq<Tree>, vmem: seq<Tree>, lists: seq<seq<Interval>>, dst: nat, a: int, p: int,
      q: int, dev: int, start: nat)
    requires Sound(mm, was) && Pending(mm, was, lists, dst, p, q) && IsNext(lists, dev, start)
        && Moved(mm, was, vmem, dst, a, p)
    ensures AllFree(mm, vmem, dst, p, Min2(start, q) - 1)
  {
    forall d | 0 <= d < |vmem| && Peers(mm, d, dst) ensures Free(vmem[d], p, Min2(start, q) - 1) {
      assert Good(was[d]);
      GapIsFree(mm, was, vmem, lists, dst, a, p, q, dev, start, d);
    }
  }

  /** The chosen interval is aligned and overlaps the rest of the range. */
  lemma NextFits(mm: Mm, was: seq<Tree>, lists: seq<seq<Interval>>, dst: nat, p: nat, q: nat, dev: int, start: nat)
    requires Sound(mm, was) && Pending(mm, was, lists, dst, p, q) && IsNext(lists, dev, start) && dev >= 0
    requires p % PAGE_SIZE == 0 && q % PAGE_SIZE == 0
    ensures var n := lists[dev][0];
      && Peers(mm, dev, dst) && n in lists[dev] && n in was[dev] && n.start == start < q && p <= n.last
      && n.start % PAGE_SIZE == 0 && (n.last + 1) % PAGE_SIZE == 0 && n.start <= n.last && n.last + 1 <= ULONG_MAX
  {
    NextNode(mm, was, lists, dst, p, q, dev, start);
    assert Good(was[dev]);
  }

  /** Addresses of a node beyond `p` are still on its device. */
  lemma StillThere(mm: Mm, was: seq<Tree>, vmem: seq<Tree>, dst: nat, a: int, p: int, d: nat, n: Interval)
    requires Moved(mm, was, vmem, dst, a, p) && d < |was| && n in was[d]
    ensures forall x: int | n.start <= x <= n.last && p <= x :: Covers(vmem[d], x)
  {
    forall x: int | n.start <= x <= n.last && p <= x ensures Covers(vmem[d], x) {
      assert n.Has(x);
      assert Resident(mm, was, dst, a, p, d, x);
    }
  }

  lemma IntactOn(vmem: seq<Tree>, vmem': seq<Tree>, lists: seq<seq<Interval>>, dst: nat, dev: nat)
    requires Intact(vmem, lists, dst) && dev < |lists| && lists[dev] != [] && |vmem'| == |vmem|
    requires forall d | 0 <= d < |vmem| && d != dst && d != dev :: vmem'[d] == vmem[d]
    requires dev != dst ==> forall m | m in vmem[dev] && m != lists[dev][0] :: m in vmem'[dev]
    requires forall i, j | 0 <= i < j < |lists[dev]| :: lists[dev][i] != lists[dev][j]
    ensures Intact(vmem', lists[dev := lists[dev][1..]], dst)
  {
    var lists' := lists[dev := lists[dev][1..]];
    forall d, n | 0 <= d < |lists'| && d != dst && n in lists'[d] ensures n in vmem'[d] {
      if d == dev {
        var i :| 0 <= i < |lists'[d]| && lists'[d][i] == n;
        assert lists[d][i + 1] == n && lists[d][0] != lists[d][i + 1];
        assert n in lists[d];
      }
    }
  }

  lemma DistinctEntries(t: Tree, a: int, b: int, list: seq<Interval>)
    requires Canonical(t) && IsSearchResult(t, a, b, list)
    ensures forall i, j | 0 <= i < j < |list| :: list[i] != list[j]
  {
    forall i, j | 0 <= i < j < |list| ensures list[i] != list[j] {
      assert list[i] in list;
      assert list[i].last + 1 < list[j].start;
    }
  }

  lemma StartIntact(mm: Mm, vmem: seq<Tree>, lists: seq<seq<Interval>>, dst: nat, p: int, q: int)
    requires Sound(mm, vmem) && Pending(mm, vmem, lists, dst, p, q)
    ensures Intact(vmem, lists, dst) && Moved(mm, vmem, vmem, dst, p, p)
  {
  }

  // ---- The operations ----

  ghost predicate AllOn(t: Tree, a: int, b: int) {
    forall x | a <= x <= b :: Covers(t, x)
  }

  /** A range lies on a device exactly if the interval of its first address reaches to its end. */
  lemma OneNodeHasAll(t: Tree, node: Option<Interval>, a: int, b: int)
    requires Canonical(t) && a <= b && (node.None? <==> forall n | n in t :: !n.Overlaps(a, a))
    requires node.Some? ==> node.value in t && node.value.Overlaps(a, a)
    ensures AllOn(t, a, b) <==> node.Some? && node.value.last >= b
  {
    if node.Some? && node.value.last >= b {
      forall x | a <= x <= b ensures Covers(t, x) { assert node.value.Has(x); }
    } else if AllOn(t, a, b) {
      assert Covers(t, a);
      if node.Some? {
        Uncovered(t, node.value);
      }
    }
  }

  /** What has not been taken of an interval is still there. */
  lemma RestIsOn(was: Tree, before: Tree, n: Interval, start: nat, s: nat, b: nat)
    requires n in was && n.start <= start <= s && b <= n.last && IsDifference(was, before, start, s - 1)
    ensures AllOn(before, s, b)
  {
    forall x | s <= x <= b ensures Covers(before, x) { assert n.Has(x); }
  }

  /** `answers(k)` is what the kernel answers to page migration number `k`; `log` is what they returned so far. */
  class Svm {
    const mm: Mm
    const answers: nat -> int
    var vmem: seq<Tree>
    var log: seq<int>

    ghost predicate Valid()
      reads this
    {
      |vmem| == |mm| && Sound(mm, vmem)
    }

    constructor (mm: Mm, answers: nat -> int)
      ensures this.mm == mm && this.answers == answers && Valid() && log == []
      ensures forall d | 0 <= d < |vmem| :: vmem[d] == {}
    {
      this.mm, this.answers, log := mm, answers, [];
      vmem := seq(|mm|, _ => {});
    }

    /** Pages that are in RAM go to device `dst`. */
    method RamToDevice(dst: nat, vaddr: nat, npages: nat) returns (res: int)
      requires Valid() && dst < |mm| && mm[dst].Some? && npages > 0 && vaddr % PAGE_SIZE == 0
      requires vaddr + npages * PAGE_SIZE <= ULONG_MAX
      requires AllFree(mm, vmem, dst, vaddr, vaddr + npages * PAGE_SIZE - 1)
      modifies this
      ensures Valid()
      ensures res == 0 ==> Moved(mm, old(vmem), vmem, dst, vaddr, vaddr + npages * PAGE_SIZE)
      ensures |vmem| == |old(vmem)|
      ensures res == 0 ==> forall d | 0 <= d < |vmem| && d != dst :: vmem[d] == old(vmem[d])
      ensures res != 0 ==> vmem == old(vmem)
      ensures res == answers(|old(log)|) && log == old(log) + [res]
    {
      res := answers(|log|);
      log := log + [res];
      if res != 0 { return; }
      assert Good(vmem[dst]) && Peers(mm, dst, dst);
      var t := InsertInto(vmem[dst], vaddr, npages);
      InsertedSound(mm, vmem, dst, t, vaddr, vaddr + npages * PAGE_SIZE);
      vmem := vmem[dst := t];
    }

    /** Pages of one interval of device `src` go to device `dst`. */
    method DeviceToDevice(src: nat, dst: nat, vaddr: nat, npages: nat, ghost n: Interval) returns (res: int)
      requires Valid() && Peers(mm, src, dst) && src != dst && npages > 0 && vaddr % PAGE_SIZE == 0
      requires vaddr + npages * PAGE_SIZE <= ULONG_MAX
      requires n in vmem[src] && n.start <= vaddr && vaddr + npages * PAGE_SIZE - 1 <= n.last
      modifies this
      ensures Valid()
      ensures res == 0 ==> Moved(mm, old(vmem), vmem, dst, vaddr, vaddr + npages * PAGE_SIZE)
      ensures res == 0 ==> forall d | 0 <= d < |vmem| && d != dst && d != src :: vmem[d] == old(vmem[d])
      ensures res == 0 ==> forall m | m in old(vmem[src]) && m != n :: m in vmem[src]
      ensures res != 0 ==> vmem == old(vmem)
      ensures res == answers(|old(log)|) && log == old(log) + [res]
    {
      res := answers(|log|);
      log := log + [res];
      if res != 0 { return; }
      ghost var end := vaddr + npages * PAGE_SIZE - 1;
      assert Good(vmem[src]) && Good(vmem[dst]);
      InsideNode(vmem[src], n, vaddr, end);
      var s := RemoveFrom(vmem[src], vaddr, npages);
      TargetIsFree(mm, vmem, src, dst, vaddr, end);
      var t := InsertInto(vmem[dst], vaddr, npages);
      TakenSound(mm, vmem, src, dst, s, t, vaddr, end + 1);
      forall m | m in vmem[src] && m != n ensures m in s {
        assert Apart(m, n);
        OthersStay(vmem[src], s, vaddr, end, m);
      }
      vmem := vmem[src := s];
      vmem := vmem[dst := t];
    }

    /** The intervals in the range, for each device of the process of `dst`. */
    method Collect(dst: nat, vaddr: nat, npages: nat) returns (lists: seq<seq<Interval>>)
      requires Valid() && dst < |mm| && npages > 0 && vaddr + npages * PAGE_SIZE <= ULONG_MAX
      ensures Pending(mm, vmem, lists, dst, vaddr, vaddr + npages * PAGE_SIZE)
    {
      RangeEndExact(vaddr, npages);
      lists := [];
      for i := 0 to |mm|
        invariant |lists| == i
        invariant forall d | 0 <= d < i :: if Peers(mm, d, dst)
            then IsSearchResult(vmem[d], vaddr, vaddr + npages * PAGE_SIZE - 1, lists[d]) else lists[d] == []
      {
        var list := [];
        if mm[i].Some? && mm[i] == mm[dst] {
          assert Good(vmem[i]);
          list := Search(vmem[i], vaddr, npages);
        }
        lists := lists + [list];
      }
    }
  
    /** One round of the migration loop: the gap before the lowest interval comes from RAM, the interval itself
     *  from its device.  `n` pages are handled, also when a migration fails. */
    method Round(dst: nat, ghost was: seq<Tree>, lists: seq<seq<Interval>>, ghost vaddr: nat, curr: nat, end: nat)
      returns (res: int, n: nat, lists': seq<seq<Interval>>, ghost reached: nat)
      requires Valid() && dst < |mm| && mm[dst].Some? && Sound(mm, was) && vaddr <= curr < end <= ULONG_MAX
      requires curr % PAGE_SIZE == 0 && end % PAGE_SIZE == 0
      requires Moved(mm, was, vmem, dst, vaddr, curr) && Pending(mm, was, lists, dst, curr, end)
          && Intact(vmem, lists, dst)
      modifies this
      ensures Valid() && n > 0 && curr + n * PAGE_SIZE <= end && vaddr <= reached <= end
      ensures Moved(mm, was, vmem, dst, vaddr, reached)
      ensures res == 0 ==> reached == curr + n * PAGE_SIZE
      ensures res == 0 && reached < end ==> Pending(mm, was, lists', dst, reached, end) && Intact(vmem, lists', dst)
      ensures StopsAtFailure(old(log), log, res) && AsAnswered(log, |old(log)|, answers)
    {
      hide Sound, Moved, Pending, Intact, IsNext, AllFree, IsSearchResult, StopsAtFailure, AsAnswered;
      NothingReturned(log, answers);
      res, n, lists', reached := 0, 0, lists, curr;
      StartsBounded(mm, was, lists, dst, curr, end);
      var dev, start := FindNext(lists);
      NoListNoInterval(lists, dev, start);
      if dev >= 0 { NextFits(mm, was, lists, dst, curr, end, dev, start); }
      if start > curr {
        var stop := Min(start, end);
        PagesBetween(curr, stop);
        n := (stop - curr) / PAGE_SIZE;
        GapsAreFree(mm, was, vmem, lists, dst, vaddr, curr, end, dev, start);
        ghost var before := vmem;
        res := RamToDevice(dst, curr, n);
        AnsweredOne(old(log), answers);
        if res == 0 {
          MovedOn(mm, was, before, vmem, dst, vaddr, curr, stop);
          SameElsewhere(before, vmem, lists, dst);
          reached := stop;
        }
      }
      if start != ULONG_MAX && res == 0 {
        var stop := Min(lists[dev][0].last + 1, end);
        var from := curr + n * PAGE_SIZE;
        PagesBetween(from, stop);
        var k := (stop - from) / PAGE_SIZE;
        ghost var sofar := log;
        res, reached := Take(dst, was, lists, vaddr, curr, from, stop, end, dev, start, k);
        ReturnedOn(old(log), sofar, log, res, answers);
        lists' := lists[dev := lists[dev][1..]];
        n := n + k;
      }
    }

    /** The piece `[from, stop)` of the lowest interval comes to device `dst`, unless it is there already. */
    method Take(dst: nat, ghost was: seq<Tree>, lists: seq<seq<Interval>>, ghost vaddr: nat, ghost curr: nat,
        from: nat, ghost stop: nat, ghost end: nat, dev: nat, ghost start: nat, k: nat)
      returns (res: int, ghost reached: nat)
      requires Valid() && dst < |mm| && mm[dst].Some? && Sound(mm, was)
      requires vaddr <= curr <= from < stop <= end <= ULONG_MAX && stop == from + k * PAGE_SIZE && k > 0
          && from % PAGE_SIZE == 0
      requires Moved(mm, was, vmem, dst, vaddr, from) && Pending(mm, was, lists, dst, curr, end)
          && Intact(vmem, lists, dst)
      requires IsNext(lists, dev, start) && dev < |lists| && lists[dev] != [] && Peers(mm, dev, dst)
      requires lists[dev][0] in was[dev] && lists[dev][0] in lists[dev]
      requires lists[dev][0].start <= from && stop == Min(lists[dev][0].last + 1, end)
      modifies this
      ensures Valid() && from <= reached <= stop
      ensures Moved(mm, was, vmem, dst, vaddr, reached)
      ensures res == 0 ==> reached == stop
      ensures res == 0 && stop < end ==>
        Pending(mm, was, lists[dev := lists[dev][1..]], dst, stop, end)
            && Intact(vmem, lists[dev := lists[dev][1..]], dst)
      ensures log == old(log) + if dev == dst then [] else [res]
      ensures if dev == dst then res == 0 else res == answers(|old(log)|)
      ensures StopsAtFailure(old(log), log, res) && AsAnswered(log, |old(log)|, answers)
    {
      hide StopsAtFailure, AsAnswered;
      NothingReturned(log, answers);
      assert log + [] == log;
      res, reached := 0, from;
      ghost var before, n := vmem, lists[dev][0];
      if stop < end { PendingOn(mm, was, lists, dst, curr, end, dev, start); }
      assert Good(was[dev]);
      DistinctEntries(was[dev], curr, end - 1, lists[dev]);
      if dev != dst {
        assert n in vmem[dev];
        res := DeviceToDevice(dev, dst, from, k, n);
        AnsweredOne(old(log), answers);
      } else {
        StillThere(mm, was, vmem, dst, vaddr, from, dst, n);
        ArrivedAlready(mm, vmem, dst, from, stop);
      }
      if res == 0 {
        hide Moved, Pending, Sound, Intact;
        MovedOn(mm, was, before, vmem, dst, vaddr, from, stop);
        IntactOn(before, vmem, lists, dst, dev);
        reached := stop;
      }
    }

    /** Brings the whole range to device `dst`, wherever its pages are. */
    method MigrateToDevice(dst: nat, vaddr: nat, npages: nat) returns (res: int, handled: nat, ghost reached: nat)
      requires Valid() && dst < |mm| && mm[dst].Some? && npages > 0 && vaddr % PAGE_SIZE == 0
      requires vaddr + npages * PAGE_SIZE <= ULONG_MAX
      modifies this
      ensures Valid() && vaddr <= reached <= vaddr + npages * PAGE_SIZE
      ensures Moved(mm, old(vmem), vmem, dst, vaddr, reached)
      ensures handled <= npages
      ensures res == 0 ==> handled == npages && reached == vaddr + npages * PAGE_SIZE
      ensures StopsAtFailure(old(log), log, res) && AsAnswered(log, |old(log)|, answers)
    {
      hide Sound, Moved, Pending, Intact, StopsAtFailure, AsAnswered;
      NothingReturned(log, answers);
      ghost var was := vmem;
      var lists := Collect(dst, vaddr, npages);
      StartIntact(mm, vmem, lists, dst, vaddr, vaddr + npages * PAGE_SIZE);
      var end := vaddr + npages * PAGE_SIZE;
      res, handled, reached := 0, 0, vaddr;
      while handled < npages && res == 0
        invariant handled <= npages && vaddr <= reached <= end
        invariant Valid() && Sound(mm, was) && Moved(mm, was, vmem, dst, vaddr, reached)
        invariant res == 0 ==> reached == vaddr + handled * PAGE_SIZE
        invariant res == 0 && handled < npages ==>
            Pending(mm, was, lists, dst, reached, end) && Intact(vmem, lists, dst)
        invariant StopsAtFailure(old(log), log, res) && AsAnswered(log, |old(log)|, answers)
        decreases npages - handled
      {
        var curr := vaddr + handled * PAGE_SIZE;
        var n;
        ghost var sofar := log;
        res, n, lists, reached := Round(dst, was, lists, vaddr, curr, end);
        ReturnedOn(old(log), sofar, log, res, answers);
        handled := handled + n;
      }
    }

    /** Migration that a program asks for: the region is widened to whole pages and moved in blocks.  The page
     *  count is kept in an `int`; when that is not positive, nothing is moved and the result is never set. */
    method MigrateRegionToDevice(dst: nat, vaddr: nat, size: nat) returns (res: int, ghost reached: nat)
      requires Valid() && dst < |mm| && mm[dst].Some? && PageUp(vaddr + size) <= ULONG_MAX
      modifies this
      ensures Valid() && PageDown(vaddr) <= reached <= PageUp(vaddr + size)
      ensures Moved(mm, old(vmem), vmem, dst, PageDown(vaddr), reached)
      ensures var n := PagesOf(PageDown(vaddr), PageUp(vaddr + size));
        if n > 0 then
          && (res == 0 ==> reached == PageDown(vaddr) + n * PAGE_SIZE)
          && StopsAtFailure(old(log), log, res) && AsAnswered(log, |old(log)|, answers)
        else vmem == old(vmem) && log == old(log)
    {
      hide Sound, Moved, StopsAtFailure, AsAnswered;
      NothingReturned(log, answers);
      var start, end := PageDown(vaddr), PageUp(vaddr + size);
      WholePages(vaddr, size);
      CountedPages(start, end);
      var npages := PagesOf(start, end);
      ghost var was, stop := vmem, start + Positive(npages) * PAGE_SIZE;
      NothingMoved(mm, vmem, dst, start);
      reached, res := start, *;
      hide PagesOf, PageDown, PageUp;
      while npages > 0
        invariant start + Positive(npages) * PAGE_SIZE == stop <= end && start % PAGE_SIZE == 0
            && PageDown(vaddr) <= start
        invariant reached == start
        invariant Valid() && Moved(mm, was, vmem, dst, PageDown(vaddr), reached)
        invariant stop == PageDown(vaddr) ==> vmem == was
        invariant npages <= 0 ==> stop == PageDown(vaddr) || res == 0
        invariant StopsAtFailure(old(log), log, 0) && AsAnswered(log, |old(log)|, answers)
        invariant stop == PageDown(vaddr) ==> log == old(log)
        decreases npages
      {
        var n := Min(npages, MAX_PAGES);
        ghost var before := vmem;
        var handled;
        ghost var sofar := log;
        res, handled, reached := MigrateToDevice(dst, start, n);
        ReturnedOn(old(log), sofar, log, res, answers);
        MovedOn(mm, was, before, vmem, dst, PageDown(vaddr), start, reached);
        if res != 0 {
          break;
        }
        start := start + n * PAGE_SIZE;
        npages := npages - n;
      }
    }

    /** Pages of device `src` go back to RAM.  All of them must be on the device, otherwise it is given up. */
    method DeviceToRam(src: nat, vaddr: nat, npages: nat) returns (res: int)
      requires Valid() && src < |mm| && npages > 0 && vaddr % PAGE_SIZE == 0
      modifies this
      ensures Valid() && |vmem| == |old(vmem)|
      ensures forall d | 0 <= d < |vmem| && d != src :: vmem[d] == old(vmem[d])
      ensures res == 0 ==> forall x | vaddr <= x < vaddr + npages * PAGE_SIZE :: Covers(old(vmem[src]), x)
      ensures res == 0 ==> IsDifference(old(vmem[src]), vmem[src], vaddr, vaddr + npages * PAGE_SIZE - 1)
      ensures res != 0 ==> vmem == old(vmem)
      ensures res == 0 <==> answers(|old(log)|) == 0 && AllOn(old(vmem[src]), vaddr, vaddr + npages * PAGE_SIZE - 1)
      ensures answers(|old(log)|) != 0 ==> res == answers(|old(log)|)
      ensures log == old(log) + [res]
    {
      SoundTree(mm, vmem, src);
      res := answers(|log|);
      var node := IterFirst(vmem[src], vaddr, vaddr);
      OneNodeHasAll(vmem[src], node, vaddr, vaddr + npages * PAGE_SIZE - 1);
      if res == 0 && (node.None? || node.value.last < vaddr + npages * PAGE_SIZE - 1) {
        res := -1;
      }
      log := log + [res];
      if res != 0 { return; }
      assert Good(vmem[src]);
      InsideNode(vmem[src], node.value, vaddr, vaddr + npages * PAGE_SIZE - 1);
      var t := RemoveFrom(vmem[src], vaddr, npages);
      ShrunkSound(mm, vmem, src, t, vaddr, vaddr + npages * PAGE_SIZE - 1);
      vmem := vmem[src := t];
    }

    /** Takes back `npages` pages of one interval from `start` on, in blocks; a failure ends it early.  It never
     *  gets past the end of the interval. */
    method IntervalToRam(src: nat, start: nat, npages: int, ghost n: Interval) returns (res: int, ghost reached: nat)
      requires Valid() && src < |mm| && start % PAGE_SIZE == 0
      requires n in vmem[src] && n.start <= start <= n.last
      modifies this
      ensures Valid() && |vmem| == |old(vmem)|
      ensures forall d | 0 <= d < |vmem| && d != src :: vmem[d] == old(vmem[d])
      ensures start <= reached <= n.last + 1 && reached <= start + Positive(npages) * PAGE_SIZE
      ensures res == 0 ==> reached == start + Positive(npages) * PAGE_SIZE
      ensures IsDifference(old(vmem[src]), vmem[src], start, reached - 1)
      ensures StopsAtFailure(old(log), log, res)
      ensures start + Positive(npages) * PAGE_SIZE <= n.last + 1 ==> AsAnswered(log, |old(log)|, answers)
    {
      hide Sound, IsDifference, StopsAtFailure, AsAnswered;
      NothingReturned(log, answers);
      ghost var was := vmem[src];
      SoundTree(mm, vmem, src);
      NothingTaken(was, start);
      var s, k := start, npages;
      reached, res := start, 0;
      while k > 0
        invariant start <= s == reached <= n.last + 1 && s % PAGE_SIZE == 0 && res == 0
        invariant s + Positive(k) * PAGE_SIZE == start + Positive(npages) * PAGE_SIZE
        invariant Valid() && |vmem| == |old(vmem)| && forall d | 0 <= d < |vmem| && d != src :: vmem[d] == old(vmem[d])
        invariant IsDifference(was, vmem[src], start, reached - 1)
        invariant StopsAtFailure(old(log), log, 0)
        invariant start + Positive(npages) * PAGE_SIZE <= n.last + 1 ==> AsAnswered(log, |old(log)|, answers)
        decreases k
      {
        var b := Min(k, MAX_PAGES);
        ghost var before, sofar := vmem[src], log;
        if s + b * PAGE_SIZE <= n.last + 1 { RestIsOn(was, before, n, start, s, s + b * PAGE_SIZE - 1); }
        res := DeviceToRam(src, s, b);
        OneReturned(sofar, res);
        StopsLater(old(log), sofar, log, res);
        if start + Positive(npages) * PAGE_SIZE <= n.last + 1 { AnsweredNext(old(log), sofar, res, answers); }
        if res != 0 {
          break;
        }
        StaysInNode(was, before, n, start, s, s + b * PAGE_SIZE);
        s := s + b * PAGE_SIZE;
        k := k - b;
        TakenOn(was, before, vmem[src], start, reached, s);
        reached := s;
      }
    }

    /** Takes the range back from every device of the process of `dev`. */
    method MigrateRegionToRam(dev: nat, vaddr: nat, size: nat) returns (res: int)
      requires Valid() && dev < |mm| && mm[dev].Some? && PageUp(vaddr + size) <= ULONG_MAX
      modifies this
      ensures Valid() && |vmem| == |old(vmem)|
      ensures forall d | 0 <= d < |vmem| && !Peers(mm, d, dev) :: vmem[d] == old(vmem[d])
      ensures forall d | 0 <= d < |vmem| && Peers(mm, d, dev) ::
          OnlyTaken(old(vmem[d]), vmem[d], PageDown(vaddr), PageUp(vaddr + size))
      ensures res == 0 ==> forall d | 0 <= d < |vmem| && Peers(mm, d, dev) ::
          AllTaken(old(vmem[d]), vmem[d], PageDown(vaddr), PageUp(vaddr + size))
      ensures Countable(PageDown(vaddr), PageUp(vaddr + size)) ==> forall d | 0 <= d < |vmem| && Peers(mm, d, dev) ::
        && OutsideSame(old(vmem[d]), vmem[d], PageDown(vaddr), PageUp(vaddr + size))
        && (res == 0 ==> IsDifference(old(vmem[d]), vmem[d], PageDown(vaddr), PageUp(vaddr + size) - 1))
      ensures KeepsFailure(old(log), log, res)
      ensures Countable(PageDown(vaddr), PageUp(vaddr + size)) ==> AsAnswered(log, |old(log)|, answers)
    {
      hide Sound, OnlyTaken, AllTaken, Countable, OutsideSame, IsDifference, PageDown, PageUp, KeepsFailure, AsAnswered;
      NothingReturned(log, answers);
      WholePages(vaddr, size);
      var start, end := PageDown(vaddr), PageUp(vaddr + size);
      res := 0;
      ghost var was := vmem;
      for i := 0 to |mm|
        invariant Valid() && |vmem| == |was|
        invariant forall d | 0 <= d < |vmem| && (d >= i || !Peers(mm, d, dev)) :: vmem[d] == was[d]
        invariant forall d | 0 <= d < i && Peers(mm, d, dev) :: OnlyTaken(was[d], vmem[d], start, end)
        invariant res == 0 ==> forall d | 0 <= d < i && Peers(mm, d, dev) :: AllTaken(was[d], vmem[d], start, end)
        invariant KeepsFailure(old(log), log, res)
        invariant Countable(start, end) ==> AsAnswered(log, |old(log)|, answers)
      {
        if mm[i].Some? && mm[i] == mm[dev] {
          ghost var sofar := log;
          var r := ClearDevice(i, start, end);
          KeepsOn(old(log), sofar, log, res, r);
          if Countable(start, end) { AnsweredOn(old(log), sofar, log, answers); }
          if r != 0 {
            res := r;
          }
        }
      }
      if Countable(start, end) {
        ghost var last := end as int - 1;
        forall d | 0 <= d < |vmem| && Peers(mm, d, dev)
          ensures OutsideSame(was[d], vmem[d], start, end) && (res == 0 ==> IsDifference(was[d], vmem[d], start, last))
        {
          SoundTree(mm, was, d);
          OutsideStays(was[d], vmem[d], start, end);
          if res == 0 { RightCount(was[d], vmem[d], start, end); }
        }
      }
    }

    /** Takes the range back from one device: every interval found there, one after the other. */
    method ClearDevice(src: nat, start: nat, end: nat) returns (res: int)
      requires Valid() && src < |mm| && start % PAGE_SIZE == 0 && end % PAGE_SIZE == 0 && start <= end <= ULONG_MAX
      modifies this
      ensures Valid() && |vmem| == |old(vmem)|
      ensures forall d | 0 <= d < |vmem| && d != src :: vmem[d] == old(vmem[d])
      ensures OnlyTaken(old(vmem[src]), vmem[src], start, end)
      ensures res == 0 ==> AllTaken(old(vmem[src]), vmem[src], start, end)
      ensures KeepsFailure(old(log), log, res)
      ensures Countable(start, end) ==> AsAnswered(log, |old(log)|, answers)
    {
      hide Sound, TakenIn, GoneIn, PagesOf, IsSearchResult, IsDifference, OnlyTaken, AllTaken, KeepsFailure, AsAnswered,
          StopsAtFailure, Countable;
      NothingReturned(log, answers);
      ghost var was := vmem[src];
      SoundTree(mm, vmem, src);
      var list := Search(vmem[src], start, PagesOf(start, end));
      res := 0;
      ghost var done, all := 0, list;
      NothingDone(was, all, start, end);
      while list != []
        invariant done <= |all| && list == all[done..]
        invariant Valid() && |vmem| == |old(vmem)| && forall d | 0 <= d < |vmem| && d != src :: vmem[d] == old(vmem[d])
        invariant TakenIn(was, vmem[src], all, done, start, end)
        invariant forall i | done <= i < |all| :: all[i] in vmem[src]
        invariant res == 0 ==> GoneIn(vmem[src], all, done, start, end)
        invariant KeepsFailure(old(log), log, res)
        invariant Countable(start, end) ==> AsAnswered(log, |old(log)|, answers)
        decreases |list|
      {
        var entry := list[0];
        assert entry == all[done];
        SoundTree(mm, vmem, src);
        EntryFits(was, vmem[src], all, done, start, end);
        var from, to := From(entry, start), To(entry, end);
        ghost var before := vmem[src];
        var r;
        ghost var reached, sofar := 0, log;
        if Countable(start, end) { CountableEntry(was, vmem[src], all, done, start, end); }
        r, reached := IntervalToRam(src, from, PagesOf(from, to), entry);
        KeepsLater(old(log), sofar, log, res, r);
        if Countable(start, end) { AnsweredOn(old(log), sofar, log, answers); }
        EntryTaken(was, before, vmem[src], all, done, start, end, reached);
        if r != 0 {
          res := r;
        } else if res == 0 {
          EntryGone(before, vmem[src], all, done, start, end);
        }
        list := list[1..];
        done := done + 1;
      }
      SoundTree(mm, vmem, src);
      AllDone(was, vmem[src], all, start, end);
    }

    /** The kernel invalidates a range of a process: it is forgotten on device `d`, interval by interval.  With
     *  2^31 pages or more the counts no longer fit their `int`; what then happens to a tree in which nothing is
     *  found, or that has just one interval, is stated as well. */
    method Invalidate(d: nat, start: nat, end: nat)
      requires Valid() && d < |mm| && start % PAGE_SIZE == 0 && end % PAGE_SIZE == 0 && start < end <= ULONG_MAX
      modifies this`vmem
      ensures |vmem| == |old(vmem)| && forall e | 0 <= e < |vmem| && e != d :: vmem[e] == old(vmem[e])
      ensures (end - start) / PAGE_SIZE < BIT31 ==> Valid() && IsDifference(old(vmem[d]), vmem[d], start, end - 1)
      ensures (forall n | n in old(vmem[d]) :: !n.Overlaps(start, SearchEnd(start, end))) ==> vmem[d] == old(vmem[d])
      ensures forall n | old(vmem[d]) == {n} && n.Overlaps(start, SearchEnd(start, end)) ::
          vmem[d] == Forgotten(n, start, end)
    {
      hide Sound, TakenIn, GoneIn, PagesOf, IsSearchResult, IsDifference, Forgotten, Proper;
      ghost var was := vmem[d];
      SoundTree(mm, vmem, d);
      var list := Search(vmem[d], start, PagesOf(start, end));
      ghost var done, all := 0, list;
      NothingDone(was, all, start, end);
      WhatIsFound(was, start, SearchEnd(start, end), all);
      assert forall n | was == {n} :: |all| <= 1 && (all != [] ==> all == [n]);
      while list != []
        invariant done <= |all| && list == all[done..]
        invariant |vmem| == |old(vmem)| == |mm| && forall e | 0 <= e < |vmem| && e != d :: vmem[e] == old(vmem[e])
        invariant done == 0 ==> vmem[d] == was
        invariant done > 0 ==> forall n | was == {n} :: vmem[d] == Forgotten(n, start, end)
        invariant Small(start, end) ==> InvalidatedTo(was, vmem[d], all, done, start, end) && Valid()
        decreases |list|
      {
        assert list[0] == all[done];
        Forget(d, was, all, done, list[0], start, end);
        list := list[1..];
        done := done + 1;
      }
      if Small(start, end) {
        SoundTree(mm, vmem, d);
        AllDone(was, vmem[d], all, start, end);
        RightCount(was, vmem[d], start, end);
      }
    }

    /** One round of an invalidation. */
    method Forget(d: nat, ghost was: Tree, ghost all: seq<Interval>, ghost done: nat, entry: Interval, start: nat,
        end: nat)
      requires d < |mm| == |vmem| && start % PAGE_SIZE == 0 && end % PAGE_SIZE == 0 && start < end <= ULONG_MAX
      requires done < |all| && entry == all[done] && IsSearchResult(was, start, SearchEnd(start, end), all)
      requires done == 0 ==> vmem[d] == was
      requires forall n | was == {n} :: |all| <= 1 && (all != [] ==> all == [n])
      requires Small(start, end) ==> InvalidatedTo(was, vmem[d], all, done, start, end) && Valid()
      modifies this`vmem
      ensures |vmem| == |old(vmem)| && forall e | 0 <= e < |vmem| && e != d :: vmem[e] == old(vmem[e])
      ensures forall n | was == {n} :: vmem[d] == Forgotten(n, start, end)
      ensures Small(start, end) ==> InvalidatedTo(was, vmem[d], all, done + 1, start, end) && Valid()
    {
      hide Sound, TakenIn, GoneIn, PagesOf, IsSearchResult, IsDifference, Forgotten, Proper;
      var from, to := From(entry, start), To(entry, end);
      if Small(start, end) {
        SoundTree(mm, vmem, d);
        EntryFits(was, vmem[d], all, done, start, end);
        SmallEntry(was, vmem[d], all, done, start, end);
      }
      var t := RemoveFrom(vmem[d], from, PagesOf(from, to));
      if Small(start, end) {
        ghost var reached := from + PagesOf(from, to) * PAGE_SIZE;
        ShrunkSound(mm, vmem, d, t, from, reached - 1);
        EntryTaken(was, vmem[d], t, all, done, start, end, reached);
        EntryGone(vmem[d], t, all, done, start, end);
      }
      ForgottenOne(was, vmem[d], t, all, done, start, end);
      vmem := vmem[d := t];
    }

    /** A page fault of the processor brings one page back; it may or may not be resident on the device. */
    method FaultToRam(d: nat, vaddr: nat)
      requires Valid() && d < |mm| && vaddr % PAGE_SIZE == 0
      modifies this`vmem
      ensures Valid() && |vmem| == |old(vmem)|
      ensures forall e | 0 <= e < |vmem| && e != d :: vmem[e] == old(vmem[e])
      ensures IsDifference(old(vmem[d]), vmem[d], vaddr, vaddr + PAGE_SIZE - 1)
    {
      SoundTree(mm, vmem, d);
      NoStartInPage(vmem[d], vaddr);
      assert Good(vmem[d]) && vaddr + PAGE_SIZE <= WORD64 ==> Proper(vmem[d], vaddr, 1);
      hide Sound, Good, Canonical, Aligned, IsDifference, StartsInside, SvmIntervals.Round;
      var t := RemoveFrom(vmem[d], vaddr, 1);
      ShrunkSound(mm, vmem, d, t, vaddr, vaddr + PAGE_SIZE - 1);
      vmem := vmem[d := t];
    }
  }

  /** A single page always meets the condition for removing it. */
  lemma NoStartInPage(t: Tree, vaddr: nat)
    requires Aligned(t) && vaddr % PAGE_SIZE == 0
    ensures !StartsInside(t, vaddr, vaddr + PAGE_SIZE - 1)
  {
    forall n | n in t ensures !(vaddr < n.start <= vaddr + PAGE_SIZE - 1) {
      assert n.start % PAGE_SIZE == 0;
    }
  }

  // ---- Whole pages ----

  function PageDown(x: nat): nat {
    x - x % PAGE_SIZE
  }

  function PageUp(x: nat): nat {
    if x % PAGE_SIZE != 0 then x - x % PAGE_SIZE + PAGE_SIZE else x - x % PAGE_SIZE
  }

  function Positive(n: int): nat {
    if n > 0 then n else 0
  }

  lemma WholePages(vaddr: nat, size: nat)
    ensures var a, b := PageDown(vaddr), PageUp(vaddr + size); a % PAGE_SIZE == 0 && b % PAGE_SIZE == 0 && a <= b
  {
  }

  /** The widened region consists of whole pages, contains the region, and no page could be left out. */
  lemma PagesAround(vaddr: nat, size: nat)
    requires size > 0
    ensures var a, b := PageDown(vaddr), PageUp(vaddr + size);
      && a % PAGE_SIZE == 0 && b % PAGE_SIZE == 0 && a < b
      && a <= vaddr < a + PAGE_SIZE && b - PAGE_SIZE < vaddr + size <= b
      && a + (b - a) / PAGE_SIZE * PAGE_SIZE == b
  {
    PagesBetween(PageDown(vaddr), PageUp(vaddr + size));
  }

  /** The count in the `int` is never too high, and it is right exactly below 2^31 pages. */
  lemma CountedPages(a: nat, b: nat)
    requires a <= b < WORD64 && a % PAGE_SIZE == 0 && b % PAGE_SIZE == 0
    ensures a + Positive(PagesOf(a, b)) * PAGE_SIZE <= b
    ensures a + Positive(PagesOf(a, b)) * PAGE_SIZE == b <==> (b - a) / PAGE_SIZE < BIT31
    ensures PagesOf(a, b) == (b - a) / PAGE_SIZE <==> (b - a) / PAGE_SIZE < BIT31
  {
    assert (b - a) % WORD64 == b - a;
  }

  // ---- Taking pieces back ----

  lemma NothingMoved(mm: Mm, vmem: seq<Tree>, dst: nat, p: int)
    requires Sound(mm, vmem)
    ensures Moved(mm, vmem, vmem, dst, p, p)
  {
  }

  lemma SoundTree(mm: Mm, vmem: seq<Tree>, d: nat)
    requires Sound(mm, vmem) && d < |mm|
    ensures |mm| == |vmem| && Good(vmem[d]) && Canonical(vmem[d]) && Aligned(vmem[d])
  {
    assert Good(vmem[d]);
  }

  lemma NothingTaken(t: Tree, a: int)
    requires Canonical(t)
    ensures IsDifference(t, t, a, a - 1)
  {
  }

  lemma ShrunkSound(mm: Mm, vmem: seq<Tree>, src: nat, t: Tree, a: nat, b: nat)
    requires Sound(mm, vmem) && src < |vmem| && IsDifference(vmem[src], t, a, b) && Aligned(t)
    ensures Sound(mm, vmem[src := t])
  {
    assert Good(vmem[src]);
    BoundedDifference(vmem[src], t, a, b);
  }

  lemma TakenOn(was: Tree, before: Tree, now: Tree, a: int, p: int, q: int)
    requires IsDifference(was, before, a, p - 1) && IsDifference(before, now, p, q - 1) && a <= p <= q
    ensures IsDifference(was, now, a, q - 1)
  {
  }

  /** Pages taken from `s` on that are all resident do not reach beyond the node. */
  lemma StaysInNode(was: Tree, before: Tree, n: Interval, start: nat, s: nat, q: nat)
    requires Canonical(was) && n in was && n.start <= start <= s <= n.last + 1 && s < q
    requires IsDifference(was, before, start, s - 1) && forall x | s <= x < q :: Covers(before, x)
    ensures q <= n.last + 1
  {
    Uncovered(was, n);
    assert !Covers(before, n.last + 1);
  }

  // ---- What a search with a truncated count finds and takes ----

  function From(n: Interval, start: nat): nat {
    Max(start, n.start)
  }

  function To(n: Interval, end: nat): nat {
    Min(n.last + 1, end)
  }

  function SearchEnd(start: nat, end: nat): nat {
    RangeEnd(start, PagesOf(start, end))
  }

  /** Address `x` is among the pages counted for node `n`. */
  predicate Counts(n: Interval, start: nat, end: nat, x: int) {
    From(n, start) <= x < From(n, start) + PagesOf(From(n, start), To(n, end)) * PAGE_SIZE
  }

  /** Address `x` is counted for a node that the search finds. */
  ghost predicate Taken(t: Tree, start: nat, end: nat, x: int) {
    exists n :: n in t && n.Overlaps(start, SearchEnd(start, end)) && Counts(n, start, end, x)
  }

  /** Nothing but what was taken is gone. */
  ghost predicate OnlyTaken(t: Tree, t': Tree, start: nat, end: nat) {
    forall x :: (Covers(t', x) ==> Covers(t, x)) && (Covers(t, x) && !Taken(t, start, end, x) ==> Covers(t', x))
  }

  /** Exactly what was to be taken is gone. */
  ghost predicate AllTaken(t: Tree, t': Tree, start: nat, end: nat) {
    Canonical(t') && forall x :: Covers(t', x) <==> Covers(t, x) && !Taken(t, start, end, x)
  }

  ghost predicate TakenIn(was: Tree, now: Tree, all: seq<Interval>, done: nat, start: nat, end: nat)
    requires done <= |all|
  {
    && (forall x | Covers(now, x) :: Covers(was, x))
    && (forall x | Covers(was, x) && !Covers(now, x) :: exists i :: 0 <= i < done && Counts(all[i], start, end, x))
  }

  ghost predicate GoneIn(now: Tree, all: seq<Interval>, done: nat, start: nat, end: nat)
    requires done <= |all|
  {
    forall i, x | 0 <= i < done && Counts(all[i], start, end, x) :: !Covers(now, x)
  }

  ghost predicate Small(start: nat, end: nat) {
    (end - start) / PAGE_SIZE < BIT31
  }

  /** The first `done` intervals of the list are gone, the others are still there. */
  ghost predicate InvalidatedTo(was: Tree, now: Tree, all: seq<Interval>, done: nat, start: nat, end: nat) {
    && done <= |all| && TakenIn(was, now, all, done, start, end) && GoneIn(now, all, done, start, end)
    && forall i | done <= i < |all| :: all[i] in now
  }

  lemma NothingDone(was: Tree, all: seq<Interval>, start: nat, end: nat)
    requires IsSearchResult(was, start, SearchEnd(start, end), all)
    ensures TakenIn(was, was, all, 0, start, end) && GoneIn(was, all, 0, start, end)
    ensures forall i | 0 <= i < |all| :: all[i] in was
  {
    assert forall i | 0 <= i < |all| :: all[i] in all;
  }

  lemma EntryFits(was: Tree, now: Tree, all: seq<Interval>, i: nat, start: nat, end: nat)
    requires Canonical(now) && Aligned(now) && i < |all| && all[i] in now
    requires IsSearchResult(was, start, SearchEnd(start, end), all) && start % PAGE_SIZE == 0
    ensures all[i].start <= From(all[i], start) <= all[i].last && From(all[i], start) % PAGE_SIZE == 0
  {
    assert all[i] in all;
  }

  lemma EntryTaken(was: Tree, before: Tree, now: Tree, all: seq<Interval>, i: nat, start: nat, end: nat, reached: nat)
    requires Canonical(before) && IsSearchResult(was, start, SearchEnd(start, end), all) && i < |all|
    requires TakenIn(was, before, all, i, start, end) && IsDifference(before, now, From(all[i], start), reached - 1)
    requires all[i].start <= From(all[i], start) <= reached <= all[i].last + 1
    requires reached <= From(all[i], start) + Positive(PagesOf(From(all[i], start), To(all[i], end))) * PAGE_SIZE
    requires forall j | i <= j < |all| :: all[j] in before
    ensures TakenIn(was, now, all, i + 1, start, end)
    ensures forall j | i + 1 <= j < |all| :: all[j] in now
  {
    hide PagesOf;
    forall j | i + 1 <= j < |all| ensures all[j] in now {
      assert all[i].last + 1 < all[j].start;
      OthersStay(before, now, From(all[i], start), reached - 1, all[j]);
    }
    forall x | Covers(was, x) && !Covers(now, x) ensures exists k :: 0 <= k < i + 1 && Counts(all[k], start, end, x) {
      if Covers(before, x) { assert Counts(all[i], start, end, x); }
    }
  }

  lemma EntryGone(before: Tree, now: Tree, all: seq<Interval>, i: nat, start: nat, end: nat)
    requires i < |all| && GoneIn(before, all, i, start, end)
    requires IsDifference(before, now, From(all[i], start),
               From(all[i], start) + Positive(PagesOf(From(all[i], start), To(all[i], end))) * PAGE_SIZE - 1)
    ensures GoneIn(now, all, i + 1, start, end)
  {
    hide PagesOf;
  }

  lemma AllDone(was: Tree, now: Tree, all: seq<Interval>, start: nat, end: nat)
    requires Canonical(now) && IsSearchResult(was, start, SearchEnd(start, end), all)
        && TakenIn(was, now, all, |all|, start, end)
    ensures OnlyTaken(was, now, start, end)
    ensures GoneIn(now, all, |all|, start, end) ==> AllTaken(was, now, start, end)
  {
    hide PagesOf, RangeEnd;
    forall x ensures Taken(was, start, end, x) <==> exists i :: 0 <= i < |all| && Counts(all[i], start, end, x) {
      if Taken(was, start, end, x) {
        var n :| n in was && n.Overlaps(start, SearchEnd(start, end)) && Counts(n, start, end, x);
        assert n in all;
        var i :| 0 <= i < |all| && all[i] == n;
        assert Counts(all[i], start, end, x);
      }
      if i :| 0 <= i < |all| && Counts(all[i], start, end, x) {
        assert all[i] in all;
      }
    }
  }

  /** With a right count, every interval found is counted up to its end or the end of the range. */
  lemma SmallEntry(was: Tree, now: Tree, all: seq<Interval>, i: nat, start: nat, end: nat)
    requires Canonical(now) && Aligned(now) && (forall n | n in now :: n.last < ULONG_MAX) && i < |all| && all[i] in now
    requires IsSearchResult(was, start, SearchEnd(start, end), all)
    requires start < end <= ULONG_MAX && start % PAGE_SIZE == 0 && end % PAGE_SIZE == 0
        && (end - start) / PAGE_SIZE < BIT31
    ensures var from, to := From(all[i], start), To(all[i], end);
      && from < to <= all[i].last + 1
      && PagesOf(from, to) > 0 && from + PagesOf(from, to) * PAGE_SIZE == to
      && Proper(now, from, PagesOf(from, to)) && !StartsInside(now, from, to - 1)
  {
    hide PagesOf, StartsInside;
    CountedPages(start, end);
    RangeEndExact(start, PagesOf(start, end));
    var n := all[i];
    assert n in all;
    var from, to := From(n, start), To(n, end);
    assert from < to;
    CountedPages(from, to);
    InsideNode(now, n, from, to - 1);
  }

  /** Fewer than 2^31 pages, and not the empty range at address zero, whose search would wrap around. */
  predicate Countable(start: nat, end: nat) {
    (end - start) / PAGE_SIZE < BIT31 && end > 0
  }

  lemma CountsAll(n: Interval, start: nat, end: nat, x: int)
    requires n.start <= n.last < ULONG_MAX && n.start % PAGE_SIZE == 0 && (n.last + 1) % PAGE_SIZE == 0
    requires start <= end <= ULONG_MAX && start % PAGE_SIZE == 0 && end % PAGE_SIZE == 0 && Countable(start, end)
    requires n.Overlaps(start, SearchEnd(start, end))
    ensures Counts(n, start, end, x) <==> n.Has(x) && start <= x < end
  {
    hide PagesOf;
    CountedPages(start, end);
    if start < end {
      RangeEndExact(start, PagesOf(start, end));
      CountedPages(From(n, start), To(n, end));
    } else {
      assert PagesOf(start, end) == 0;
      assert SearchEnd(start, end) == start - 1;
      CountedPages(start, start);
    }
  }

  lemma FoundIfInside(n: Interval, start: nat, end: nat, x: int)
    requires start <= end <= ULONG_MAX && start % PAGE_SIZE == 0 && end % PAGE_SIZE == 0 && Countable(start, end)
    requires n.Has(x) && start <= x < end
    ensures n.Overlaps(start, SearchEnd(start, end))
  {
    hide PagesOf;
    CountedPages(start, end);
    RangeEndExact(start, PagesOf(start, end));
  }

  /** With a right count, what is taken is the range. */
  /** Where the pages can be counted, none is counted behind the end of an interval. */
  lemma CountableEntry(was: Tree, now: Tree, all: seq<Interval>, i: nat, start: nat, end: nat)
    requires Good(now) && i < |all| && all[i] in now && Countable(start, end)
    requires IsSearchResult(was, start, SearchEnd(start, end), all)
    requires start <= end <= ULONG_MAX && start % PAGE_SIZE == 0 && end % PAGE_SIZE == 0
    ensures From(all[i], start) + Positive(PagesOf(From(all[i], start), To(all[i], end))) * PAGE_SIZE <= all[i].last + 1
  {
    if start < end {
      hide IsSearchResult, PagesOf, SearchEnd;
      SmallEntry(was, now, all, i, start, end);
    } else {
      EntryFits(was, now, all, i, start, end);
      assert all[i] in all && SearchEnd(start, end) == start as int - 1;
    }
  }

  lemma RightCount(t: Tree, t': Tree, start: nat, end: nat)
    requires Good(t) && AllTaken(t, t', start, end)
    requires start <= end <= ULONG_MAX && start % PAGE_SIZE == 0 && end % PAGE_SIZE == 0 && Countable(start, end)
    ensures IsDifference(t, t', start, end - 1)
  {
    hide Counts, SearchEnd, Countable;
    forall x | Covers(t, x) ensures Taken(t, start, end, x) <==> start <= x <= end - 1 {
      if start <= x <= end - 1 {
        var n :| n in t && n.Has(x);
        FoundIfInside(n, start, end, x);
        CountsAll(n, start, end, x);
      }
      if Taken(t, start, end, x) {
        var n :| n in t && n.Overlaps(start, SearchEnd(start, end)) && Counts(n, start, end, x);
        CountsAll(n, start, end, x);
      }
    }
  }

  /** Outside `[a, b)` the two trees cover the same, and nothing has been added inside. */
  ghost predicate OutsideSame(was: Tree, now: Tree, a: int, b: int) {
    && (forall x | !(a <= x < b) :: Covers(now, x) <==> Covers(was, x))
    && (forall x | Covers(now, x) :: Covers(was, x))
  }

  lemma OutsideStays(t: Tree, t': Tree, start: nat, end: nat)
    requires Good(t) && OnlyTaken(t, t', start, end)
    requires start <= end <= ULONG_MAX && start % PAGE_SIZE == 0 && end % PAGE_SIZE == 0 && Countable(start, end)
    ensures OutsideSame(t, t', start, end)
  {
    hide Counts, SearchEnd, Countable;
    forall x | !(start <= x < end) ensures !Taken(t, start, end, x) {
      if Taken(t, start, end, x) {
        var n :| n in t && n.Overlaps(start, SearchEnd(start, end)) && Counts(n, start, end, x);
        CountsAll(n, start, end, x);
      }
    }
  }

  // ---- The exact conditions on user-managed migration and invalidation ----

  /** A region of 2^32 pages is counted as none, one of 2^31 as a negative number. */
  lemma HugeRegions()
    ensures PagesOf(4096, 4096 + 0x1000_0000_0000) == 0
    ensures PagesOf(4096, 4096 + 0x800_0000_0000) == -BIT31
  {
  }

  /** Taking a range back does what it should in every tree exactly when its pages can be counted. */
  lemma ClearedIffCountable(start: nat, end: nat)
    requires start <= end <= ULONG_MAX && start % PAGE_SIZE == 0 && end % PAGE_SIZE == 0
    ensures (forall t, t' | Good(t) && AllTaken(t, t', start, end) :: IsDifference(t, t', start, end - 1)) <==>
        Countable(start, end)
  {
    if Countable(start, end) {
      forall t, t' | Good(t) && AllTaken(t, t', start, end) ensures IsDifference(t, t', start, end - 1) {
        RightCount(t, t', start, end);
      }
    } else if end == 0 {
      StrayIsTaken();
    } else {
      RestStays(start, end);
    }
  }

  lemma StrayCounts(x: int)
    ensures STRAY.Overlaps(0, SearchEnd(0, 0)) && (Counts(STRAY, 0, 0, x) <==> STRAY.Has(x))
  {
    assert SearchEnd(0, 0) == ULONG_MAX;
    assert PagesOf(STRAY.start, 0) == BIT31 - 1;
  }

  lemma OneNodeCovers(n: Interval, x: int)
    ensures Covers({n}, x) <==> n.Has(x)
  {
    if n.Has(x) { assert n in {n}; }
  }

  /** The empty range at address zero finds every interval and takes 2^31 - 1 pages of one far above it. */
  lemma StrayIsTaken()
    ensures Good({STRAY}) && AllTaken({STRAY}, {}, 0, 0) && !IsDifference({STRAY}, {}, 0, -1)
  {
    hide SearchEnd, Counts;
    forall x ensures Covers({STRAY}, x) <==> STRAY.Has(x) { OneNodeCovers(STRAY, x); }
    forall x | STRAY.Has(x) ensures Taken({STRAY}, 0, 0, x) {
      StrayCounts(x);
      assert STRAY in {STRAY};
    }
    assert STRAY.Has(STRAY.start);
  }

  /** An interval that fills a region of 2^31 pages or more stays at least in part. */
  lemma RestStays(start: nat, end: nat)
    requires start <= end <= ULONG_MAX && start % PAGE_SIZE == 0 && end % PAGE_SIZE == 0
        && (end - start) / PAGE_SIZE >= BIT31
    ensures exists t, t' :: Good(t) && AllTaken(t, t', start, end) && !IsDifference(t, t', start, end - 1)
  {
    var n := Interval(start, end - 1);
    var t := {n};
    CountedPages(start, end);
    hide PagesOf;
    var cut := start + Positive(PagesOf(start, end)) * PAGE_SIZE;
    var t' := {Interval(cut, end - 1)};
    forall x ensures Covers(t, x) <==> n.Has(x) {
      if n.Has(x) { assert n in t; }
    }
    forall x ensures Covers(t', x) <==> cut <= x <= end - 1 {
      if cut <= x <= end - 1 { assert Interval(cut, end - 1) in t' && Interval(cut, end - 1).Has(x); }
    }
    assert From(n, start) == start && To(n, end) == end;
    if PagesOf(start, end) > 0 { RangeEndExact(start, PagesOf(start, end)); }
    forall x ensures Taken(t, start, end, x) <==> start <= x < cut {
      if start <= x < cut { assert n in t && n.Overlaps(start, SearchEnd(start, end)) && Counts(n, start, end, x); }
    }
    assert Covers(t', cut);
    assert Good(t);
    assert AllTaken(t, t', start, end);
    assert !IsDifference(t, t', start, end - 1);
  }

  /** Moving a region brings all of it to the device, wherever its pages were, exactly below 2^31 pages. */
  lemma ArrivedIffCounted(mm: Mm, dst: nat, start: nat, end: nat)
    requires dst < |mm| && mm[dst].Some? && start <= end <= ULONG_MAX && start % PAGE_SIZE == 0 && end % PAGE_SIZE == 0
    ensures (forall was, vmem | Sound(mm, was)
        && Moved(mm, was, vmem, dst, start, start + Positive(PagesOf(start, end)) * PAGE_SIZE) ::
               OnDevice(vmem, dst, start, end))
       <==> (end - start) / PAGE_SIZE < BIT31
  {
    CountedPages(start, end);
    hide PagesOf, Sound;
    var stop := start + Positive(PagesOf(start, end)) * PAGE_SIZE;
    if stop == end {
      forall was, vmem | Sound(mm, was) && Moved(mm, was, vmem, dst, start, stop)
          ensures OnDevice(vmem, dst, start, end) {
        forall x | start <= x < end ensures Covers(vmem[dst], x) {
          assert Resident(mm, was, dst, start, stop, dst, x);
        }
      }
    } else {
      FromRam(mm, dst, start, stop, end);
    }
  }

  ghost predicate OnDevice(vmem: seq<Tree>, d: nat, start: int, end: int) {
    d < |vmem| && forall x | start <= x < end :: Covers(vmem[d], x)
  }

  lemma FromRam(mm: Mm, dst: nat, start: nat, stop: nat, end: nat)
    requires dst < |mm| && mm[dst].Some? && start <= stop < end
    ensures exists was, vmem ::
        Sound(mm, was) && Moved(mm, was, vmem, dst, start, stop) && !OnDevice(vmem, dst, start, end)
  {
    var was := seq(|mm|, (_: int) => {});
    var t := if start < stop then {Interval(start, stop - 1)} else {};
    var vmem := was[dst := t];
    forall x ensures Covers(t, x) <==> start <= x < stop {
      if start <= x < stop { assert Interval(start, stop - 1) in t && Interval(start, stop - 1).Has(x); }
    }
    forall d, x: int | 0 <= d < |vmem| ensures Covers(vmem[d], x) <==> Resident(mm, was, dst, start, stop, d, x) {
    }
    assert Moved(mm, was, vmem, dst, start, stop);
    assert !Covers(vmem[dst], stop);
    assert !OnDevice(vmem, dst, start, end);
  }

  const STRAY := Interval((BIT31 + 1) * PAGE_SIZE, (BIT31 + 1) * PAGE_SIZE + (BIT31 - 1) * PAGE_SIZE - 1)

  // ---- Invalidation of one interval ----

  /** What is left of a tree with the one interval `n`, if that is found. */
  function Forgotten(n: Interval, start: nat, end: nat): Tree {
    var from := From(n, start);
    var last := RangeEnd(from, PagesOf(from, To(n, end)));
    if n.Overlaps(from, last) then SvmIntervals.Round({n}, n, from, last) else {n}
  }

  lemma WhatIsFound(t: Tree, a: int, b: int, all: seq<Interval>)
    requires Canonical(t) && IsSearchResult(t, a, b, all)
    ensures (forall n | n in t :: !n.Overlaps(a, b)) ==> all == []
    ensures forall n | t == {n} :: all == if n.Overlaps(a, b) then [n] else []
  {
    if all != [] { assert all[0] in all; }
    forall n | t == {n} ensures all == if n.Overlaps(a, b) then [n] else [] {
      assert forall m | m in all :: m == n;
      assert |all| > 1 ==> all[0] in all && all[1] in all && all[0].last + 1 < all[1].start;
      if n.Overlaps(a, b) { assert n in all; }
    }
  }

  lemma ForgottenOne(was: Tree, cur: Tree, t: Tree, all: seq<Interval>, done: nat, start: nat, end: nat)
    requires done < |all| && (done == 0 ==> cur == was)
    requires forall n | was == {n} :: |all| <= 1 && (all != [] ==> all == [n])
    requires var from := From(all[done], start);
      var last := RangeEnd(from, PagesOf(from, To(all[done], end)));
      && ((forall m | m in cur :: !m.Overlaps(from, last)) ==> t == cur)
      && (forall m | cur == {m} && m.Overlaps(from, last) :: t == SvmIntervals.Round({m}, m, from, last))
    ensures forall n | was == {n} :: t == Forgotten(n, start, end)
  {
    hide PagesOf, RangeEnd;
  }

  /** From 2^31 pages on there is a tree that invalidation leaves wrong. */
  method TooManyPages(start: nat, end: nat) returns (t: Tree, s: Svm)
    requires start % PAGE_SIZE == 0 && end % PAGE_SIZE == 0 && start <= end <= ULONG_MAX
        && (end - start) / PAGE_SIZE >= BIT31
    ensures Good(t) && fresh(s) && |s.vmem| == 1 && !IsDifference(t, s.vmem[0], start, end - 1)
  {
    var n := BadInterval(start, end);
    BadIntervalFits(start, end);
    t := {n};
    s := new Svm([Some(0)], _ => 0);
    s.vmem := [t];
    assert Good(s.vmem[0]);
    s.Invalidate(0, start, end);
    BadIntervalIsWrong(start, end, s.vmem[0]);
  }

  /** A page behind or before what is searched; or, where the end of the search wraps around, an interval that
   *  reaches beyond the range, or one of 2^31 pages. */
  function BadInterval(start: nat, end: nat): Interval {
    var n := PagesOf(start, end);
    if n > 0 then Interval(start + n * PAGE_SIZE, start + n * PAGE_SIZE + PAGE_SIZE - 1)
    else if start + n * PAGE_SIZE >= 1 then Interval(start, start + PAGE_SIZE - 1)
    else if end + WORD32 * PAGE_SIZE <= start + n * PAGE_SIZE + WORD64 then Interval(start, end + PAGE_SIZE - 1)
    else Interval(WORD32 * PAGE_SIZE, WORD32 * PAGE_SIZE + BIT31 * PAGE_SIZE - 1)
  }

  /** The count differs from the true one by a multiple of 2^32. */
  lemma CountModulo(start: nat, end: nat) returns (m: nat)
    requires start % PAGE_SIZE == 0 && end % PAGE_SIZE == 0 && start <= end <= ULONG_MAX
    ensures end == start + PagesOf(start, end) * PAGE_SIZE + m * (WORD32 * PAGE_SIZE)
    ensures -BIT31 <= PagesOf(start, end) < BIT31
  {
    var p := (end - start) / PAGE_SIZE;
    assert (end - start) % WORD64 == end - start;
    m := if p % WORD32 < BIT31 then p / WORD32 else p / WORD32 + 1;
  }

  lemma BadIntervalFits(start: nat, end: nat)
    requires start % PAGE_SIZE == 0 && end % PAGE_SIZE == 0 && start <= end <= ULONG_MAX
        && (end - start) / PAGE_SIZE >= BIT31
    ensures Good({BadInterval(start, end)})
  {
    CountedPages(start, end);
    var m := CountModulo(start, end);
    BadIntervalAligned(start, end, m);
    hide BadInterval;
  }

  lemma BadIntervalAligned(start: nat, end: nat, m: nat)
    requires start % PAGE_SIZE == 0 && end % PAGE_SIZE == 0 && start + BIT31 * PAGE_SIZE <= end <= ULONG_MAX
    requires end == start + PagesOf(start, end) * PAGE_SIZE + m * (WORD32 * PAGE_SIZE)
    requires start + Positive(PagesOf(start, end)) * PAGE_SIZE < end && -BIT31 <= PagesOf(start, end) < BIT31
    ensures var n := BadInterval(start, end);
      n.start <= n.last < ULONG_MAX && n.start % PAGE_SIZE == 0 && (n.last + 1) % PAGE_SIZE == 0
  {
    var n, c, p, q := BadInterval(start, end), PagesOf(start, end), start / PAGE_SIZE, end / PAGE_SIZE;
    hide PagesOf;
    assert start == PAGE_SIZE * p && end == PAGE_SIZE * q;
    Multiples(p, c, q);
    if c > 0 {
      assert p + c < q;
    }
  }

  lemma Multiples(p: int, c: int, q: int)
    ensures (PAGE_SIZE * p) % PAGE_SIZE == 0 && (PAGE_SIZE * p + PAGE_SIZE) % PAGE_SIZE == 0
    ensures (PAGE_SIZE * p + c * PAGE_SIZE) % PAGE_SIZE == 0
        && (PAGE_SIZE * p + c * PAGE_SIZE + PAGE_SIZE) % PAGE_SIZE == 0
    ensures (PAGE_SIZE * q + PAGE_SIZE) % PAGE_SIZE == 0
  {
  }

  lemma BadIntervalIsWrong(start: nat, end: nat, t': Tree)
    requires start % PAGE_SIZE == 0 && end % PAGE_SIZE == 0 && start <= end <= ULONG_MAX
        && (end - start) / PAGE_SIZE >= BIT31
    requires var n := BadInterval(start, end); t' == if n.Overlaps(start, SearchEnd(start, end))
        then Forgotten(n, start, end) else {n}
    ensures !IsDifference({BadInterval(start, end)}, t', start, end - 1)
  {
    CountedPages(start, end);
    var m := CountModulo(start, end);
    var n := BadInterval(start, end);
    assert n.Has(n.start) && n.Has(n.last);
    assert n in {n};
    assert Covers({n}, n.start) && Covers({n}, n.last);
  }

  lemma NoListNoInterval(lists: seq<seq<Interval>>, dev: int, start: nat)
    requires IsNext(lists, dev, start)
    ensures dev < 0 ==> start == ULONG_MAX
    ensures dev >= 0 ==> dev < |lists| && lists[dev] != [] && start == lists[dev][0].start
  {
  }

  lemma SameElsewhere(vmem: seq<Tree>, vmem': seq<Tree>, lists: seq<seq<Interval>>, dst: nat)
    requires Intact(vmem, lists, dst) && |vmem'| == |vmem| && forall d | 0 <= d < |vmem| && d != dst ::
        vmem'[d] == vmem[d]
    ensures Intact(vmem', lists, dst)
  {
  }
}
