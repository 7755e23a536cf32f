/** Handling a batch of page faults of the accelerator.
 *
 *  The addresses are sorted, duplicates are squeezed out of the array, pages that turn out to be resident are
 *  zeroed and squeezed out too, and the rest is migrated in runs of consecutive pages.
 */
module SvmFaults {
  import opened SvmPages
  import opened SvmIntervals
  import opened SvmMigrate
  import opened SvmResults

  const MAX_NUM_FAULTS := 48

  predicate Ascending(s: seq<nat>) {
    forall i, j | 0 <= i < j < |s| :: s[i] <= s[j]
  }

  predicate StrictlyAscending(s: seq<nat>) {
    forall i, j | 0 <= i < j < |s| :: s[i] < s[j]
  }

  predicate Masked(s: seq<nat>) {
    forall i | 0 <= i < |s| :: s[i] < WORD48
  }

  // ---- Sorting ----

  function Put(x: nat, s: seq<nat>): seq<nat> {
    if s == [] || Mask(x) <= Mask(s[0]) then [x] + s else [s[0]] + Put(x, s[1..])
  }

  /** What the library sort leaves for masked addresses: the ascending permutation. */
  function Sort(s: seq<nat>): seq<nat> {
    if s == [] then [] else Put(s[0], Sort(s[1..]))
  }

  lemma {:induction false} PutPermutes(x: nat, s: seq<nat>)
    ensures multiset(Put(x, s)) == multiset(s) + multiset{x}
  {
    if s != [] && Mask(x) > Mask(s[0]) {
      PutPermutes(x, s[1..]);
      assert s == [s[0]] + s[1..];
    }
  }

  lemma {:induction false} PutAscending(x: nat, s: seq<nat>)
    requires Ascending(s) && Masked(s) && x < WORD48
    ensures Ascending(Put(x, s)) && Masked(Put(x, s))
    ensures Put(x, s) != [] && Put(x, s)[0] == if s == [] || x <= s[0] then x else s[0]
  {
    if s != [] {
      Unmasked(x);
      Unmasked(s[0]);
      if x > s[0] {
        PutAscending(x, s[1..]);
        Prepend(s[0], Put(x, s[1..]));
      } else {
        Prepend(x, s);
      }
    }
  }

  lemma Unmasked(x: nat)
    requires x < WORD48
    ensures Mask(x) == x
  {
  }

  lemma Prepend(x: nat, s: seq<nat>)
    requires Ascending(s) && Masked(s) && x < WORD48 && (s != [] ==> x <= s[0])
    ensures Ascending([x] + s) && Masked([x] + s)
  {
  }

  lemma {:induction false} SortAscending(s: seq<nat>)
    requires Masked(s)
    ensures Ascending(Sort(s)) && Masked(Sort(s)) && multiset(Sort(s)) == multiset(s) && |Sort(s)| == |s|
  {
    if s != [] {
      SortAscending(s[1..]);
      PutAscending(s[0], Sort(s[1..]));
      PutPermutes(s[0], Sort(s[1..]));
      assert s == [s[0]] + s[1..];
      assert |multiset(Sort(s))| == |multiset(s)|;
    }
  }

  // ---- Duplicates ----

  /** An entry that equals the one before it is dropped. */
  function Dedup(s: seq<nat>): seq<nat>
    decreases |s|
  {
    if |s| < 2 then s
    else if Mask(s[1]) == Mask(s[0]) then Dedup([s[0]] + s[2..])
    else [s[0]] + Dedup(s[1..])
  }

  lemma {:induction false} DedupElements(s: seq<nat>, x: nat)
    requires Masked(s)
    ensures x in Dedup(s) <==> x in s
    decreases |s|
  {
    if |s| >= 2 {
      if Mask(s[1]) == Mask(s[0]) {
        DedupElements([s[0]] + s[2..], x);
        assert s == [s[0], s[1]] + s[2..];
      } else {
        DedupElements(s[1..], x);
        assert s == [s[0]] + s[1..];
      }
    }
  }

  /** In a sorted array exactly the repetitions go. */
  lemma {:induction false} DedupDistinct(s: seq<nat>)
    requires Ascending(s) && Masked(s)
    ensures StrictlyAscending(Dedup(s)) && Masked(Dedup(s))
    ensures s != [] ==> Dedup(s) != [] && Dedup(s)[0] == s[0]
    decreases |s|
  {
    if |s| >= 2 {
      if Mask(s[1]) == Mask(s[0]) {
        DedupDistinct([s[0]] + s[2..]);
      } else {
        DedupDistinct(s[1..]);
        var r := Dedup(s[1..]);
        assert s[0] < s[1] == r[0];
        forall i | 0 <= i < |r| ensures s[0] < r[i] { if i > 0 { assert r[0] < r[i]; } }
      }
    }
  }

  /** Removes `n` entries at position `i` by moving the rest down. */
  method Close(a: array<nat>, i: nat, n: nat, size: nat)
    requires 0 < n && i + n <= size <= a.Length
    modifies a
    ensures a[..size - n] == old(a[..i]) + old(a[i + n..size])
  {
    ghost var s := a[..];
    var j := i;
    while j < size - n
      invariant i <= j <= size - n
      invariant forall k | 0 <= k < i :: a[k] == s[k]
      invariant forall k | i <= k < j :: a[k] == s[k + n]
      invariant forall k | j <= k < a.Length :: a[k] == s[k]
    {
      a[j] := a[j + n];
      j := j + 1;
    }
  }

  method RemoveDuplicates(a: array<nat>, size: nat) returns (size': nat)
    requires size <= a.Length
    modifies a
    ensures size' <= size && a[..size'] == Dedup(old(a[..size]))
  {
    hide Dedup;
    size' := size;
    var i := 1;
    DedupEnds(a[..size]);
    if size == 0 { return; }
    assert a[..0] == a[..size][..0] && a[0..size] == a[..size];
    while i < size'
      invariant 1 <= i <= size' <= size
      invariant a[..i - 1] + Dedup(a[i - 1..size']) == Dedup(old(a[..size]))
      decreases size' - i
    {
      ghost var was := a[..size'];
      assert was[i - 1..] == a[i - 1..size'] && was[..i - 1] == a[..i - 1];
      if Mask(a[i]) == Mask(a[i - 1]) {
        DropStep(was, i);
        Close(a, i, 1, size');
        size' := size' - 1;
        assert a[..size'] == Dropped(was, i);
        assert a[i - 1..size'] == Dropped(was, i)[i - 1..] && a[..i - 1] == Dropped(was, i)[..i - 1];
      } else {
        KeepStep(was, i);
        i := i + 1;
        assert a[i - 1..size'] == was[i - 1..] && a[..i - 1] == was[..i - 1];
      }
    }
    DedupEnds(a[..size']);
    assert a[i - 1..size'] == a[..size'][|a[..size']| - 1..];
  }

  lemma DedupEnds(s: seq<nat>)
    ensures s == [] ==> Dedup(s) == []
    ensures s[..0] + Dedup(s) == Dedup(s)
    ensures s != [] ==> s[..|s| - 1] + Dedup(s[|s| - 1..]) == s
  {
  }

  function Dropped(s: seq<nat>, i: nat): seq<nat>
    requires i < |s|
  {
    s[..i] + s[i + 1..]
  }

  lemma DropStep(s: seq<nat>, i: nat)
    requires 1 <= i < |s| && Mask(s[i]) == Mask(s[i - 1])
    ensures s[..i - 1] + Dedup(s[i - 1..]) == Dropped(s, i)[..i - 1] + Dedup(Dropped(s, i)[i - 1..])
  {
    var t := s[i - 1..];
    assert Dropped(s, i)[i - 1..] == [t[0]] + t[2..];
    assert Dropped(s, i)[..i - 1] == s[..i - 1];
  }

  lemma KeepStep(s: seq<nat>, i: nat)
    requires 1 <= i < |s| && Mask(s[i]) != Mask(s[i - 1])
    ensures s[..i - 1] + Dedup(s[i - 1..]) == s[..i] + Dedup(s[i..])
  {
    var t := s[i - 1..];
    assert t[1..] == s[i..];
    assert Dedup(t) == [t[0]] + Dedup(s[i..]);
    assert s[..i] == s[..i - 1] + [t[0]];
  }

  // ---- Zeros ----

  function NonZero(s: seq<nat>): seq<nat> {
    if s == [] then [] else NonZero(s[..|s| - 1]) + (if s[|s| - 1] != 0 then [s[|s| - 1]] else [])
  }

  lemma {:induction false} NonZeroConcat(a: seq<nat>, b: seq<nat>)
    ensures NonZero(a + b) == NonZero(a) + NonZero(b)
  {
    if b == [] {
      assert a + b == a;
    } else {
      assert (a + b)[..|a + b| - 1] == a + b[..|b| - 1];
      NonZeroConcat(a, b[..|b| - 1]);
    }
  }

  lemma {:induction false} NonZeroElements(s: seq<nat>)
    ensures forall x :: x in NonZero(s) <==> x in s && x != 0
    ensures StrictlyAscending(s) ==> StrictlyAscending(NonZero(s))
    ensures |NonZero(s)| <= |s|
  {
    if s != [] {
      var f := s[..|s| - 1];
      NonZeroElements(f);
      assert s == f + [s[|s| - 1]];
      if StrictlyAscending(s) {
        assert forall i | 0 <= i < |NonZero(f)| :: NonZero(f)[i] in f;
      }
    }
  }

  lemma {:induction false} AllZero(s: seq<nat>)
    requires forall i | 0 <= i < |s| :: s[i] == 0
    ensures NonZero(s) == []
  {
    if s != [] { AllZero(s[..|s| - 1]); }
  }

  lemma {:induction false} NoZero(s: seq<nat>)
    requires forall i | 0 <= i < |s| :: s[i] != 0
    ensures NonZero(s) == s
  {
    if s != [] {
      NoZero(s[..|s| - 1]);
      assert s == s[..|s| - 1] + [s[|s| - 1]];
    }
  }

  /** Squeezes the zeros out of an array, gap by gap. */
  method PackArray(a: array<nat>, size: nat) returns (size': nat)
    requires size <= a.Length
    modifies a
    ensures size' <= size && a[..size'] == NonZero(old(a[..size]))
  {
    hide NonZero;
    size' := size;
    var idx := 0;
    ghost var was := a[..size];
    while idx < size'
      invariant size' <= size && 0 <= idx
      invariant forall k | 0 <= k < idx && k < size' :: a[k] != 0
      invariant NonZero(a[..size']) == NonZero(was)
      decreases size' - idx
    {
      if a[idx] == 0 {
        var gap := 1;
        while idx + gap < size' && a[idx + gap] == 0
          invariant 1 <= gap && idx + gap <= size'
          invariant forall k | idx <= k < idx + gap :: a[k] == 0
        {
          gap := gap + 1;
        }
        ghost var before := a[..size'];
        CutZeros(before, idx, gap);
        Close(a, idx, gap, size');
        size' := size' - gap;
        assert a[..size'] == before[..idx] + before[idx + gap..];
      }
      idx := idx + 1;
    }
    NoZero(a[..size']);
  }

  lemma CutZeros(s: seq<nat>, i: nat, n: nat)
    requires i + n <= |s| && forall k | i <= k < i + n :: s[k] == 0
    ensures NonZero(s[..i] + s[i + n..]) == NonZero(s)
  {
    hide NonZero;
    assert s == s[..i] + (s[i..i + n] + s[i + n..]);
    NonZeroConcat(s[..i], s[i..i + n] + s[i + n..]);
    NonZeroConcat(s[i..i + n], s[i + n..]);
    AllZero(s[i..i + n]);
    NonZeroConcat(s[..i], s[i + n..]);
  }

  // ---- Runs of consecutive pages ----

  datatype Run = Run(start: nat, npages: nat) {
    function Pages(): seq<nat> {
      seq(npages, k requires 0 <= k => start + k * PAGE_SIZE)
    }

    function End(): nat {
      start + npages * PAGE_SIZE
    }
  }

  function AllPages(runs: seq<Run>): seq<nat> {
    if runs == [] then [] else runs[0].Pages() + AllPages(runs[1..])
  }

  /** How many addresses at the front follow each other page by page, counting from the `n`-th on. */
  function RunLength(s: seq<nat>, n: nat): (r: nat)
    requires 1 <= n <= |s|
    ensures n <= r <= |s|
    ensures forall k | n <= k < r :: IsContiguous(s[k], s[k - 1])
    ensures r < |s| ==> !IsContiguous(s[r], s[r - 1])
    decreases |s| - n
  {
    if n < |s| && IsContiguous(s[n], s[n - 1]) then RunLength(s, n + 1) else n
  }

  function RunsOf(s: seq<nat>): seq<Run>
    decreases |s|
  {
    if s == [] then [] else var n := RunLength(s, 1); [Run(s[0], n)] + RunsOf(s[n..])
  }

  lemma {:induction false} RunPages(s: seq<nat>, n: nat, k: nat)
    requires Masked(s) && 1 <= n <= |s| && k < n && forall j | 1 <= j < n :: IsContiguous(s[j], s[j - 1])
    ensures s[k] == s[0] + k * PAGE_SIZE
  {
    if k > 0 {
      RunPages(s, n, k - 1);
      assert IsContiguous(s[k], s[k - 1]);
      Unmasked(s[k]);
      Unmasked(s[k - 1]);
    }
  }

  /** The runs are the addresses, in order and once each. */
  lemma {:induction false} RunsPartition(s: seq<nat>)
    requires Masked(s)
    ensures AllPages(RunsOf(s)) == s
    decreases |s|
  {
    if s != [] {
      var n := RunLength(s, 1);
      RunsPartition(s[n..]);
      forall k | 0 <= k < n ensures Run(s[0], n).Pages()[k] == s[k] { RunPages(s, n, k); }
      assert s == s[..n] + s[n..];
      assert Run(s[0], n).Pages() == s[..n];
    }
  }

  /** No run could be longer: the next one does not start where it ends. */
  lemma {:induction false} RunsMaximal(s: seq<nat>, i: nat)
    requires Masked(s) && i < |RunsOf(s)|
    ensures RunsOf(s)[i].npages > 0
    ensures i + 1 < |RunsOf(s)| ==> RunsOf(s)[i].End() != RunsOf(s)[i + 1].start
    decreases |s|
  {
    var n := RunLength(s, 1);
    if i > 0 {
      RunsMaximal(s[n..], i - 1);
    } else if n < |s| {
      RunPages(s, n, n - 1);
      Unmasked(s[n]);
      Unmasked(s[n - 1]);
      assert RunsOf(s)[1].start == s[n];
    }
  }

  // ---- A batch ----

  function Addresses(registers: seq<nat>): seq<nat> {
    seq(|registers|, i requires 0 <= i < |registers| => Mask(registers[i]))
  }

  /** The page at an address is on the device. */
  predicate Present(resident: Tree, vaddr: nat) {
    exists n :: n in resident && n.Overlaps(vaddr, vaddr + PAGE_SIZE - 1)
  }

  /** Resident pages are marked by a zero. */
  function Marked(s: seq<nat>, resident: Tree): seq<nat> {
    seq(|s|, i requires 0 <= i < |s| => if Present(resident, s[i]) then 0 else s[i])
  }

  /** The addresses a batch has to migrate. */
  function Todo(registers: seq<nat>, resident: Tree): seq<nat> {
    NonZero(Marked(Dedup(Sort(Addresses(registers))), resident))
  }

  lemma MarkedElements(s: seq<nat>, resident: Tree, x: nat)
    ensures x != 0 ==> (x in Marked(s, resident) <==> x in s && !Present(resident, x))
  {
    var m := Marked(s, resident);
    if x in m {
      var i :| 0 <= i < |m| && m[i] == x;
      assert m[i] == if Present(resident, s[i]) then 0 else s[i];
    }
    if x in s && !Present(resident, x) {
      var i :| 0 <= i < |s| && s[i] == x;
      assert m[i] == x;
    }
  }

  lemma {:induction false} MarkedAscending(s: seq<nat>, resident: Tree)
    requires StrictlyAscending(s)
    ensures StrictlyAscending(NonZero(Marked(s, resident)))
    ensures forall x | x in NonZero(Marked(s, resident)) :: x in s
  {
    if s != [] {
      var f, l := s[..|s| - 1], s[|s| - 1];
      MarkedAscending(f, resident);
      assert Marked(s, resident)[..|s| - 1] == Marked(f, resident);
      assert s == f + [l];
      var r := NonZero(Marked(f, resident));
      forall i | 0 <= i < |r| ensures r[i] < l { assert r[i] in f; }
    }
  }

  lemma NonZeroMarked(s: seq<nat>, resident: Tree)
    requires StrictlyAscending(s)
    ensures StrictlyAscending(NonZero(Marked(s, resident)))
    ensures forall x :: x in NonZero(Marked(s, resident)) <==> x in s && x != 0 && !Present(resident, x)
  {
    MarkedAscending(s, resident);
    NonZeroElements(Marked(s, resident));
    hide NonZero, Marked, StrictlyAscending;
    forall x ensures x in NonZero(Marked(s, resident)) <==> x in s && x != 0 && !Present(resident, x) {
      MarkedElements(s, resident, x);
    }
  }

  /** What a batch migrates: every faulted page that is neither resident nor page zero, in ascending order, once. */
  lemma BatchIsExact(registers: seq<nat>, resident: Tree)
    ensures var pages := AllPages(RunsOf(Todo(registers, resident)));
      && StrictlyAscending(pages)
      && forall p: nat :: p in pages <==> p != 0 && !Present(resident, p) && p in Addresses(registers)
  {
    hide Sort, Dedup, NonZero, RunsOf, AllPages;
    var s := Addresses(registers);
    SortAscending(s);
    DedupDistinct(Sort(s));
    NonZeroMarked(Dedup(Sort(s)), resident);
    forall x: nat ensures x in Dedup(Sort(s)) <==> x in s {
      DedupElements(Sort(s), x);
      SameElements(Sort(s), s, x);
    }
    TodoMasked(registers, resident);
    RunsPartition(Todo(registers, resident));
  }

  lemma SameElements(a: seq<nat>, b: seq<nat>, x: nat)
    requires multiset(a) == multiset(b)
    ensures x in a <==> x in b
  {
    assert x in a <==> x in multiset(a);
    assert x in b <==> x in multiset(b);
  }

  lemma TodoMasked(registers: seq<nat>, resident: Tree)
    ensures Masked(Todo(registers, resident))
  {
    var s := Addresses(registers);
    SortAscending(s);
    DedupDistinct(Sort(s));
    var d := Dedup(Sort(s));
    NonZeroMarked(d, resident);
    hide Sort, Dedup, NonZero;
    forall i | 0 <= i < |Todo(registers, resident)| ensures Todo(registers, resident)[i] < WORD48 {
      assert Todo(registers, resident)[i] in d;
    }
  }

  // ---- Where the pages are afterwards ----

  /** The page in which an address lies. */
  function PageOf(x: int): int {
    x - x % PAGE_SIZE
  }

  /** The given pages have moved to device `dst`, and nothing else has. */
  ghost predicate MovedPages(mm: Mm, was: seq<Tree>, vmem: seq<Tree>, dst: nat, pages: seq<nat>) {
    && |was| == |vmem| == |mm|
    && forall d, x: int | 0 <= d < |vmem| ::
         Covers(vmem[d], x) <==> if PageOf(x) in pages && Peers(mm, d, dst) then d == dst else Covers(was[d], x)
  }

  /** Outside the given pages nothing has moved. */
  ghost predicate OthersSame(was: seq<Tree>, vmem: seq<Tree>, pages: seq<nat>) {
    |was| == |vmem| && forall d, x: int | 0 <= d < |vmem| && PageOf(x) !in pages :: Covers(vmem[d], x) <==>
        Covers(was[d], x)
  }

  lemma InRun(run: Run, x: int)
    requires run.start % PAGE_SIZE == 0
    ensures PageOf(x) in run.Pages() <==> run.start <= x < run.End()
  {
    var k := (PageOf(x) - run.start) / PAGE_SIZE;
    assert PageOf(x) % PAGE_SIZE == 0;
    assert PageOf(x) == run.start + k * PAGE_SIZE;
    if run.start <= x < run.End() {
      assert run.Pages()[k] == PageOf(x);
    }
    if PageOf(x) in run.Pages() {
      var i :| 0 <= i < run.npages && run.Pages()[i] == PageOf(x);
    }
  }

  lemma RunMoved(mm: Mm, was: seq<Tree>, before: seq<Tree>, vmem: seq<Tree>, dst: nat, done: seq<nat>, run: Run)
    requires MovedPages(mm, was, before, dst, done) && Moved(mm, before, vmem, dst, run.start, run.End())
        && run.start % PAGE_SIZE == 0
    ensures MovedPages(mm, was, vmem, dst, done + run.Pages())
  {
    hide Run.Pages, Run.End, PageOf;
    forall d, x: int | 0 <= d < |vmem|
      ensures Covers(vmem[d], x) <==> if PageOf(x) in done + run.Pages() && Peers(mm, d, dst) then d == dst
          else Covers(was[d], x)
    {
      InRun(run, x);
      assert Covers(vmem[d], x) <==> Resident(mm, before, dst, run.start, run.End(), d, x);
    }
  }

  lemma RunPartlyMoved(mm: Mm, was: seq<Tree>, before: seq<Tree>, vmem: seq<Tree>, dst: nat, done: seq<nat>, run: Run,
      reached: nat, all: seq<nat>)
    requires MovedPages(mm, was, before, dst, done) && Moved(mm, before, vmem, dst, run.start, reached)
    requires run.start % PAGE_SIZE == 0 && run.start <= reached <= run.End()
    requires (forall q | q in done :: q in all) && (forall q | q in run.Pages() :: q in all)
    ensures OthersSame(was, vmem, all)
  {
    hide Run.Pages, Run.End, PageOf;
    forall d, x: int | 0 <= d < |vmem| && PageOf(x) !in all ensures Covers(vmem[d], x) <==> Covers(was[d], x) {
      InRun(run, x);
      assert Covers(vmem[d], x) <==> Resident(mm, before, dst, run.start, reached, d, x);
    }
  }

  lemma NoneMoved(mm: Mm, vmem: seq<Tree>, dst: nat)
    requires |mm| == |vmem|
    ensures MovedPages(mm, vmem, vmem, dst, [])
  {
  }

  /** A page on the device is there entirely. */
  lemma PresentIsCovered(t: Tree, p: nat, x: int)
    requires Good(t) && p % PAGE_SIZE == 0 && Present(t, p) && p <= x < p + PAGE_SIZE
    ensures Covers(t, x)
  {
    var n :| n in t && n.Overlaps(p, p + PAGE_SIZE - 1);
    assert Aligned(t);
    hide Good, Canonical;
    WholePage(n.start, n.last + 1, p);
    assert n.Has(x);
  }

  lemma WholePage(a: nat, b: nat, p: nat)
    requires a % PAGE_SIZE == 0 && b % PAGE_SIZE == 0 && p % PAGE_SIZE == 0 && a < p + PAGE_SIZE && p < b
    ensures a <= p && p + PAGE_SIZE <= b
  {
    assert a == PAGE_SIZE * (a / PAGE_SIZE) && b == PAGE_SIZE * (b / PAGE_SIZE) && p == PAGE_SIZE * (p / PAGE_SIZE);
  }

  predicate PageAligned(s: seq<nat>) {
    forall i | 0 <= i < |s| :: s[i] % PAGE_SIZE == 0
  }

  /** After a batch without failure every faulted page but page zero is on the device, and no other page has moved. */
  lemma BatchArrived(mm: Mm, was: seq<Tree>, vmem: seq<Tree>, dst: nat, registers: seq<nat>, p: nat, x: int)
    requires dst < |mm| && mm[dst].Some? && Sound(mm, was) && PageAligned(Addresses(registers))
    requires MovedPages(mm, was, vmem, dst, Todo(registers, was[dst]))
    requires p in Addresses(registers) && p != 0 && p <= x < p + PAGE_SIZE
    ensures Covers(vmem[dst], x)
  {
    assert p % PAGE_SIZE == 0 by {
      var i :| 0 <= i < |Addresses(registers)| && Addresses(registers)[i] == p;
    }
    assert PageOf(x) == p;
    BatchIsExact(registers, was[dst]);
    TodoMasked(registers, was[dst]);
    RunsPartition(Todo(registers, was[dst]));
    assert Good(was[dst]);
    hide Todo, RunsOf, AllPages, PageOf;
    if Present(was[dst], p) {
      PresentIsCovered(was[dst], p, x);
    }
  }

  /** Handles one batch of fault registers, which hold page addresses.  `calls` are the migrations asked for; the
   *  first one that fails ends it. */
  method HandleBatch(svm: Svm, dst: nat, registers: seq<nat>) returns (res: int, calls: seq<Run>)
    requires svm.Valid() && dst < |svm.mm| && svm.mm[dst].Some?
    requires |registers| <= MAX_NUM_FAULTS && PageAligned(Addresses(registers))
    modifies svm
    ensures svm.Valid() && calls <= RunsOf(Todo(registers, old(svm.vmem[dst])))
    ensures res == 0 ==> calls == RunsOf(Todo(registers, old(svm.vmem[dst])))
    ensures res == 0 ==> MovedPages(svm.mm, old(svm.vmem), svm.vmem, dst, Todo(registers, old(svm.vmem[dst])))
    ensures OthersSame(old(svm.vmem), svm.vmem, Todo(registers, old(svm.vmem[dst])))
    ensures StopsAtFailure(old(svm.log), svm.log, res) && AsAnswered(svm.log, |old(svm.log)|, svm.answers)
  {
    var vaddrs := new nat[MAX_NUM_FAULTS];
    ghost var todo := Todo(registers, svm.vmem[dst]);
    var n := Prepare(vaddrs, registers, svm.vmem[dst]);
    TodoMasked(registers, svm.vmem[dst]);
    TodoNonZero(registers, svm.vmem[dst]);
    TodoAligned(registers, svm.vmem[dst]);
    assert Migratable(todo);
    hide Todo, RunsOf;
    res, calls := MigrateRuns(svm, dst, vaddrs, n);
  }

  lemma TodoAligned(registers: seq<nat>, resident: Tree)
    requires PageAligned(Addresses(registers))
    ensures PageAligned(Todo(registers, resident))
  {
    BatchIsExact(registers, resident);
    TodoMasked(registers, resident);
    RunsPartition(Todo(registers, resident));
    hide Todo, RunsOf, AllPages;
    var todo, s := Todo(registers, resident), Addresses(registers);
    forall i | 0 <= i < |todo| ensures todo[i] % PAGE_SIZE == 0 {
      assert todo[i] in todo;
      var k :| 0 <= k < |s| && s[k] == todo[i];
    }
  }

  /** Reads the registers and leaves in the array what has to be migrated. */
  method Prepare(vaddrs: array<nat>, registers: seq<nat>, resident: Tree) returns (n: nat)
    requires |registers| <= vaddrs.Length
    modifies vaddrs
    ensures n <= |registers| && vaddrs[..n] == Todo(registers, resident)
  {
    hide Sort, Dedup, NonZero;
    n := 0;
    while n < |registers|
      invariant 0 <= n <= |registers| && forall k | 0 <= k < n :: vaddrs[k] == Mask(registers[k])
    {
      vaddrs[n] := Mask(registers[n]);
      n := n + 1;
    }
    assert vaddrs[..n] == Addresses(registers);
    SortInPlace(vaddrs, n);
    n := RemoveDuplicates(vaddrs, n);
    MarkResident(vaddrs, n, resident);
    n := PackArray(vaddrs, n);
  }

  /** Migrates the addresses in the array run by run, until one migration fails. */
  method MigrateRuns(svm: Svm, dst: nat, vaddrs: array<nat>, size: nat) returns (res: int, calls: seq<Run>)
    requires svm.Valid() && dst < |svm.mm| && svm.mm[dst].Some?
    requires size <= vaddrs.Length && Migratable(vaddrs[..size])
    modifies svm, vaddrs
    ensures svm.Valid() && calls <= RunsOf(old(vaddrs[..size]))
    ensures res == 0 ==> calls == RunsOf(old(vaddrs[..size]))
    ensures res == 0 ==> MovedPages(svm.mm, old(svm.vmem), svm.vmem, dst, old(vaddrs[..size]))
    ensures OthersSame(old(svm.vmem), svm.vmem, old(vaddrs[..size]))
    ensures StopsAtFailure(old(svm.log), svm.log, res) && AsAnswered(svm.log, |old(svm.log)|, svm.answers)
  {
    hide RunsOf, MovedPages, OthersSame, Moved, Sound, Run.Pages, Run.End, Migratable, StrictlyAscending;
    hide StopsAtFailure, AsAnswered;
    NothingReturned(svm.log, svm.answers);
    ghost var todo, done := vaddrs[..size], [];
    ghost var was := svm.vmem;
    NoRuns();
    NoneMoved(svm.mm, was, dst);
    res, calls := 0, [];
    var n: nat := size;
    assert done + vaddrs[..n] == todo;
    while n > 0
      invariant n <= vaddrs.Length && res == 0 && svm.Valid()
      invariant calls + RunsOf(vaddrs[..n]) == RunsOf(todo)
      invariant done + vaddrs[..n] == todo
      invariant MovedPages(svm.mm, was, svm.vmem, dst, done)
      invariant Migratable(vaddrs[..n])
      invariant StopsAtFailure(old(svm.log), svm.log, 0) && AsAnswered(svm.log, |old(svm.log)|, svm.answers)
      decreases n
    {
      var ncontiguous := FrontRun(vaddrs, n);
      ghost var rest := vaddrs[..n];
      NextRun(rest);
      FrontPages(rest);
      ghost var run := Run(rest[0], ncontiguous);
      calls := calls + [Run(Mask(vaddrs[0]), ncontiguous)];
      assert calls + RunsOf(rest[ncontiguous..]) == RunsOf(todo);
      assert calls <= RunsOf(todo);
      ghost var sofar := svm.log;
      res := MigrateRun(svm, dst, Mask(vaddrs[0]), ncontiguous, was, done, todo);
      ReturnedOn(old(svm.log), sofar, svm.log, res, svm.answers);
      if res != 0 {
        return;
      }
      n := DropFront(vaddrs, n, ncontiguous);
      done := done + run.Pages();
      assert done + vaddrs[..n] == todo by { assert rest == run.Pages() + rest[ncontiguous..]; }
    }
    assert done == todo;
    AllSame(svm.mm, was, svm.vmem, dst, todo);
  }

  /** Migrates one run; `done` has been migrated before, `todo` is all there is to do. */
  method MigrateRun(svm: Svm, dst: nat, start: nat, npages: nat, ghost was: seq<Tree>, ghost done: seq<nat>,
      ghost todo: seq<nat>)
    returns (res: int)
    requires svm.Valid() && dst < |svm.mm| && svm.mm[dst].Some? && npages > 0 && start % PAGE_SIZE == 0
    requires start + npages * PAGE_SIZE <= ULONG_MAX && MovedPages(svm.mm, was, svm.vmem, dst, done)
    requires (forall q | q in done :: q in todo) && (forall q | q in Run(start, npages).Pages() :: q in todo)
    modifies svm
    ensures svm.Valid()
    ensures res == 0 ==> MovedPages(svm.mm, was, svm.vmem, dst, done + Run(start, npages).Pages())
    ensures res != 0 ==> OthersSame(was, svm.vmem, todo)
    ensures StopsAtFailure(old(svm.log), svm.log, res) && AsAnswered(svm.log, |old(svm.log)|, svm.answers)
  {
    hide MovedPages, OthersSame, Moved, Sound, Run.Pages;
    ghost var before, run := svm.vmem, Run(start, npages);
    var handled;
    ghost var reached;
    res, handled, reached := svm.MigrateToDevice(dst, start, npages);
    if res != 0 {
      RunPartlyMoved(svm.mm, was, before, svm.vmem, dst, done, run, reached, todo);
    } else {
      RunMoved(svm.mm, was, before, svm.vmem, dst, done, run);
    }
  }

  /** Addresses as the squeezing leaves them. */
  predicate Migratable(s: seq<nat>) {
    Masked(s) && ZeroFree(s) && PageAligned(s)
  }

  /** What is known of the run at the front. */
  lemma FrontPages(s: seq<nat>)
    requires s != [] && Migratable(s)
    ensures var n := RunLength(s, 1);
      && Mask(s[0]) == s[0] && s[0] % PAGE_SIZE == 0 && s[0] + n * PAGE_SIZE <= ULONG_MAX
      && Run(s[0], n).End() == s[0] + n * PAGE_SIZE
      && Run(s[0], n).Pages() == s[..n] && ZeroFree(s) && Migratable(s[n..])
      && s == s[..n] + s[n..]
  {
    var n := RunLength(s, 1);
    Unmasked(s[0]);
    PagesOfRun(s, n);
    assert s[n - 1] < WORD48;
    TailMigratable(s, n);
    hide RunLength, Migratable, Run.Pages;
  }

  lemma PagesOfRun(s: seq<nat>, n: nat)
    requires Masked(s) && 1 <= n <= |s| && forall j | 1 <= j < n :: IsContiguous(s[j], s[j - 1])
    ensures Run(s[0], n).Pages() == s[..n] && s[n - 1] == s[0] + (n - 1) * PAGE_SIZE
  {
    hide IsContiguous;
    forall k | 0 <= k < n ensures s[k] == s[0] + k * PAGE_SIZE { RunPages(s, n, k); }
  }

  lemma TailMigratable(s: seq<nat>, n: nat)
    requires Migratable(s) && n <= |s|
    ensures Migratable(s[n..]) && ZeroFree(s) && s == s[..n] + s[n..]
  {
  }

  lemma AllSame(mm: Mm, was: seq<Tree>, vmem: seq<Tree>, dst: nat, pages: seq<nat>)
    requires MovedPages(mm, was, vmem, dst, pages)
    ensures OthersSame(was, vmem, pages)
  {
    hide PageOf;
  }

  predicate ZeroFree(s: seq<nat>) {
    forall i | 0 <= i < |s| :: s[i] != 0
  }

  lemma TodoNonZero(registers: seq<nat>, resident: Tree)
    ensures ZeroFree(Todo(registers, resident))
  {
    var m := Marked(Dedup(Sort(Addresses(registers))), resident);
    NonZeroElements(m);
    hide NonZero;
    forall i | 0 <= i < |NonZero(m)| ensures NonZero(m)[i] != 0 { assert NonZero(m)[i] in NonZero(m); }
  }

  lemma NoRuns()
    ensures RunsOf([]) == []
  {
  }

  lemma NextRun(s: seq<nat>)
    requires s != []
    ensures RunsOf(s) == [Run(s[0], RunLength(s, 1))] + RunsOf(s[RunLength(s, 1)..])
  {
  }

  /** The kernel's sort, by its result. */
  method SortInPlace(a: array<nat>, n: nat)
    requires n <= a.Length && Masked(a[..n])
    modifies a
    ensures a[..n] == Sort(old(a[..n]))
  {
    var t := Sort(a[..n]);
    SortAscending(a[..n]);
    hide Sort;
    for i := 0 to n
      invariant a[..i] == t[..i]
    {
      a[i] := t[i];
    }
  }

  method MarkResident(a: array<nat>, n: nat, resident: Tree)
    requires n <= a.Length
    modifies a
    ensures a[..n] == Marked(old(a[..n]), resident)
  {
    ghost var s := a[..];
    for i := 0 to n
      invariant forall k | 0 <= k < i :: a[k] == if Present(resident, s[k]) then 0 else s[k]
      invariant forall k | i <= k < a.Length :: a[k] == s[k]
    {
      var node := IterFirst(resident, a[i], a[i] + PAGE_SIZE - 1);
      if node.Some? {
        a[i] := 0;
      }
    }
  }

  /** The length of the run at the front. */
  method FrontRun(a: array<nat>, n: nat) returns (r: nat)
    requires 0 < n <= a.Length
    ensures r == RunLength(a[..n], 1)
  {
    r := 1;
    ghost var s := a[..n];
    while r < n && IsContiguous(a[r], a[r - 1])
      invariant 1 <= r <= n
      invariant RunLength(s, r) == RunLength(s, 1)
    {
      r := r + 1;
    }
  }

  /** Zeroes the front and squeezes it out. */
  method DropFront(a: array<nat>, n: nat, k: nat) returns (n': nat)
    requires k <= n <= a.Length && ZeroFree(a[..n])
    modifies a
    ensures n' == n - k && a[..n'] == old(a[..n])[k..]
  {
    ghost var s := a[..n];
    for i := 0 to k
      invariant forall j | 0 <= j < i :: a[j] == 0
      invariant forall j | i <= j < n :: a[j] == s[j]
    {
      a[i] := 0;
    }
    FrontGone(s, a[..n], k);
    n' := PackArray(a, n);
    assert |a[..n']| == n';
  }

  lemma FrontGone(s: seq<nat>, t: seq<nat>, k: nat)
    requires k <= |s| == |t| && ZeroFree(s) && (forall j | 0 <= j < k :: t[j] == 0)
        && (forall j | k <= j < |s| :: t[j] == s[j])
    ensures NonZero(t) == s[k..]
  {
    hide NonZero;
    assert t == t[..k] + s[k..];
    NonZeroConcat(t[..k], s[k..]);
    AllZero(t[..k]);
    NoZero(s[k..]);
  }
}
