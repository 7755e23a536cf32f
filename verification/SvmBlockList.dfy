/** The free device memory of a shared-virtual-memory device.
 *
 *  The list is canonical in the sense of module `Blocks`.  Unlike the host's allocator it merges a freed
 *  region in the same pass that finds its place.
 */
module SvmBlockList {
  import opened Blocks
  import opened SvmPages

  /** All ones in 64 bits: the address returned when no block is large enough. */
  const NO_ADDRESS := 0xFFFF_FFFF_FFFF_FFFF

  /** Blocks `i` up to `j` give way to `c`. */
  function Spliced(s: seq<Block>, i: nat, j: nat, c: Block): seq<Block>
    requires i <= j <= |s|
  {
    s[..i] + [c] + s[j..]
  }

  /** The list after `b`, whose place is before block `k`, is merged with the block before it, the block after
   *  it, both or neither. */
  function OnePass(s: seq<Block>, b: Block, k: nat): seq<Block>
    requires k <= |s|
  {
    var i := if k > 0 && Touch(s[k - 1], b) then k - 1 else k;
    var j := if k < |s| && Touch(b, s[k]) then k + 1 else k;
    var base := if i < k then s[k - 1].base else b.base;
    Spliced(s, i, j, Block(base, (if j > k then s[k].End() else b.End()) - base))
  }

  lemma SplicedCovers(s: seq<Block>, i: nat, j: nat, c: Block, b: Block, x: int)
    requires i <= j <= |s| && (c.Has(x) <==> b.Has(x) || Covers(s[i..j], x))
    ensures Covers(Spliced(s, i, j, c), x) <==> Covers(s, x) || b.Has(x)
  {
    assert Spliced(s, i, j, c) == s[..i] + ([c] + s[j..]);
    ConcatCovers(s[..i], [c] + s[j..], x);
    ConsCovers(c, s[j..], x);
    assert s == s[..i] + (s[i..j] + s[j..]);
    ConcatCovers(s[..i], s[i..j] + s[j..], x);
    ConcatCovers(s[i..j], s[j..], x);
  }

  lemma OneCovers(a: Block, x: int)
    ensures Covers([a], x) <==> a.Has(x)
  {
    ConsCovers(a, [], x);
    assert [a] + [] == [a];
  }

  lemma OnePassCovers(s: seq<Block>, b: Block, k: nat, x: int)
    requires k <= |s| && b.size > 0
    ensures Covers(OnePass(s, b, k), x) <==> Covers(s, x) || b.Has(x)
  {
    var prev, next := k > 0 && Touch(s[k - 1], b), k < |s| && Touch(b, s[k]);
    var i, j := if prev then k - 1 else k, if next then k + 1 else k;
    var base := if prev then s[k - 1].base else b.base;
    var c := Block(base, (if next then s[k].End() else b.End()) - base);
    if prev { OneCovers(s[k - 1], x); }
    if next { OneCovers(s[k], x); }
    if prev && next {
      ConcatCovers([s[k - 1]], [s[k]], x);
      assert s[i..j] == [s[k - 1]] + [s[k]];
    } else if prev {
      assert s[i..j] == [s[k - 1]];
    } else if next {
      assert s[i..j] == [s[k]];
    }
    hide Covers, Spliced;
    SplicedCovers(s, i, j, c, b, x);
  }

  lemma SplicedCanonical(s: seq<Block>, i: nat, j: nat, c: Block)
    requires Canonical(s) && i <= j <= |s| && c.size > 0
    requires forall q | 0 <= q < i :: s[q].End() < c.base
    requires forall q | j <= q < |s| :: c.End() < s[q].base
    ensures Canonical(Spliced(s, i, j, c))
  {
    var r := Spliced(s, i, j, c);
    assert forall q | 0 <= q < i :: r[q] == s[q];
    assert forall q | i < q < |r| :: r[q] == s[q - i - 1 + j];
    forall p, q | 0 <= p < q < |r| ensures r[p].End() < r[q].base {
      if p < i && q < i { assert s[p].End() < s[q].base; }
      if p < i && q > i { assert s[p].End() < s[q - i - 1 + j].base; }
      if p > i { assert s[p - i - 1 + j].End() < s[q - i - 1 + j].base; }
    }
  }

  lemma LeftOf(s: seq<Block>, b: Block, k: nat)
    requires Canonical(s) && k <= |s| && forall i | 0 <= i < k :: s[i].End() <= b.base
    ensures if k > 0 && Touch(s[k - 1], b) then forall q | 0 <= q < k - 1 :: s[q].End() < s[k - 1].base
            else forall q | 0 <= q < k :: s[q].End() < b.base
  {
    if k > 0 {
      assert s[k - 1].End() <= b.base;
      forall q | 0 <= q < k - 1 ensures s[q].End() < s[k - 1].base { }
    }
  }

  lemma RightOf(s: seq<Block>, b: Block, k: nat)
    requires Canonical(s) && k <= |s| && forall i | k <= i < |s| :: b.End() <= s[i].base
    ensures if k < |s| && Touch(b, s[k]) then forall q | k < q < |s| :: s[k].End() < s[q].base
            else forall q | k <= q < |s| :: b.End() < s[q].base
  {
    if k < |s| {
      assert b.End() <= s[k].base;
      forall q | k < q < |s| ensures s[k].base < s[q].base { assert s[k].End() < s[q].base; }
    }
  }

  lemma OnePassCanonical(s: seq<Block>, b: Block)
    requires Canonical(s) && Apart(s, b) && b.size > 0
    ensures Canonical(OnePass(s, b, Above(s, b.base)))
  {
    PlaceOf(s, b);
    hide Apart, Canonical;
    OnePassFits(s, b, Above(s, b.base));
  }

  lemma OnePassFits(s: seq<Block>, b: Block, k: nat)
    requires Canonical(s) && b.size > 0 && k <= |s|
    requires forall i | 0 <= i < k :: s[i].End() <= b.base
    requires forall i | k <= i < |s| :: b.End() <= s[i].base
    ensures Canonical(OnePass(s, b, k))
  {
    if k > 0 && Touch(s[k - 1], b) { PrevFits(s, b, k); } else { NoPrevFits(s, b, k); }
  }

  lemma PrevFits(s: seq<Block>, b: Block, k: nat)
    requires Canonical(s) && b.size > 0 && 0 < k <= |s| && Touch(s[k - 1], b)
    requires forall i | 0 <= i < k :: s[i].End() <= b.base
    requires forall i | k <= i < |s| :: b.End() <= s[i].base
    ensures Canonical(OnePass(s, b, k))
  {
    LeftOf(s, b, k);
    RightOf(s, b, k);
    hide Canonical, Spliced;
    if k < |s| && Touch(b, s[k]) { SplicedCanonical(s, k - 1, k + 1,
        Block(s[k - 1].base, s[k].End() - s[k - 1].base)); }
    else { SplicedCanonical(s, k - 1, k, Block(s[k - 1].base, b.End() - s[k - 1].base)); }
  }

  lemma NoPrevFits(s: seq<Block>, b: Block, k: nat)
    requires Canonical(s) && b.size > 0 && k <= |s| && !(k > 0 && Touch(s[k - 1], b))
    requires forall i | 0 <= i < k :: s[i].End() <= b.base
    requires forall i | k <= i < |s| :: b.End() <= s[i].base
    ensures Canonical(OnePass(s, b, k))
  {
    LeftOf(s, b, k);
    RightOf(s, b, k);
    hide Canonical, Spliced;
    if k < |s| && Touch(b, s[k]) { SplicedCanonical(s, k, k + 1, Block(b.base, s[k].End() - b.base)); }
    else { SplicedCanonical(s, k, k, b); }
  }

  lemma AboveIs(s: seq<Block>, p: nat, k: nat)
    requires k <= |s| && (forall j | 0 <= j < k :: s[j].base <= p) && (k < |s| ==> s[k].base > p)
    ensures Above(s, p) == k
  {
  }

  // The shapes the list takes in the branches of the one-pass merge.

  lemma BothMerged(s: seq<Block>, b: Block, k: nat)
    requires 0 < k < |s| && Touch(s[k - 1], b) && Touch(b, s[k])
    ensures var t := s[k - 1 := Block(s[k - 1].base, s[k - 1].size + (b.size + s[k].size))];
      t[..k] + t[k + 1..] == OnePass(s, b, k)
  {
    var t := s[k - 1 := Block(s[k - 1].base, s[k - 1].size + (b.size + s[k].size))];
    assert t[..k] == s[..k - 1] + [t[k - 1]];
    assert t[k + 1..] == s[k + 1..];
  }

  lemma PrevMerged(s: seq<Block>, b: Block, k: nat)
    requires 0 < k <= |s| && Touch(s[k - 1], b) && !(k < |s| && Touch(b, s[k]))
    ensures s[k - 1 := Block(s[k - 1].base, s[k - 1].size + b.size)] == OnePass(s, b, k)
  {
  }

  lemma NextMerged(s: seq<Block>, b: Block, k: nat)
    requires k < |s| && !(k > 0 && Touch(s[k - 1], b)) && Touch(b, s[k])
    ensures s[k := Block(b.base, s[k].size + b.size)] == OnePass(s, b, k)
  {
  }

  lemma NoneMerged(s: seq<Block>, b: Block, k: nat)
    requires k <= |s| && !(k > 0 && Touch(s[k - 1], b)) && !(k < |s| && Touch(b, s[k]))
    ensures s[..k] + [b] + s[k..] == OnePass(s, b, k)
  {
  }

  /** One-pass merging leaves the list that inserting and then merging everywhere would leave. */
  lemma OnePassIsGiven(s: seq<Block>, b: Block)
    requires Canonical(s) && Apart(s, b) && b.size > 0
    ensures OnePass(s, b, Above(s, b.base)) == Given(s, b)
  {
    var r := OnePass(s, b, Above(s, b.base));
    OnePassCanonical(s, b);
    GivenCanonical(s, b);
    hide OnePass, Given, Canonical, Covers;
    forall x ensures Covers(r, x) <==> Covers(Given(s, b), x) { OnePassCovers(s, b, Above(s, b.base), x); }
    Unique(r, Given(s, b));
  }

  // ---- Pages ----

  /** The page frames belong to the device. */
  predicate InZone(basePfn: nat, pages: seq<nat>) {
    forall i | 0 <= i < |pages| :: basePfn <= pages[i]
  }

  /** The device memory of a page frame. */
  function PageBlock(basePfn: nat, pfn: nat): Block
    requires basePfn <= pfn
  {
    Block((pfn - basePfn) * PAGE_SIZE, PAGE_SIZE)
  }

  /** The list after the pages are freed one by one. */
  function FreedOneByOne(s: seq<Block>, basePfn: nat, pages: seq<nat>): seq<Block>
    requires InZone(basePfn, pages)
  {
    if pages == [] then s
    else Given(FreedOneByOne(s, basePfn, pages[..|pages| - 1]), PageBlock(basePfn, pages[|pages| - 1]))
  }

  ghost predicate OnPages(basePfn: nat, pages: seq<nat>, x: int)
    requires InZone(basePfn, pages)
  {
    exists i | 0 <= i < |pages| :: PageBlock(basePfn, pages[i]).Has(x)
  }

  /** The pages are distinct and none of them is free. */
  ghost predicate Freeable(s: seq<Block>, basePfn: nat, pages: seq<nat>) {
    && InZone(basePfn, pages)
    && (forall i, j | 0 <= i < j < |pages| :: pages[i] != pages[j])
    && (forall i | 0 <= i < |pages| :: Apart(s, PageBlock(basePfn, pages[i])))
  }

  lemma {:induction false} FreedOneByOneCovers(s: seq<Block>, basePfn: nat, pages: seq<nat>)
    requires Canonical(s) && Freeable(s, basePfn, pages)
    ensures Canonical(FreedOneByOne(s, basePfn, pages))
    ensures forall x :: Covers(FreedOneByOne(s, basePfn, pages), x) <==> Covers(s, x) || OnPages(basePfn, pages, x)
  {
    if pages != [] {
      var n := |pages| - 1;
      var front, b := pages[..n], PageBlock(basePfn, pages[n]);
      FreedOneByOneCovers(s, basePfn, front);
      var t := FreedOneByOne(s, basePfn, front);
      forall x | b.Has(x) ensures !Covers(t, x) {
        NotOnFront(basePfn, pages, x);
      }
      GivenCanonical(t, b);
      forall x ensures OnPages(basePfn, pages, x) <==> OnPages(basePfn, front, x) || b.Has(x) {
        LastPage(basePfn, pages, x);
      }
    }
  }

  lemma NotOnFront(basePfn: nat, pages: seq<nat>, x: int)
    requires pages != [] && InZone(basePfn, pages)
    requires forall i, j | 0 <= i < j < |pages| :: pages[i] != pages[j]
    requires PageBlock(basePfn, pages[|pages| - 1]).Has(x)
    ensures !OnPages(basePfn, pages[..|pages| - 1], x)
  {
    var n := |pages| - 1;
    forall i | 0 <= i < n ensures !PageBlock(basePfn, pages[i]).Has(x) {
      assert pages[i] != pages[n];
    }
  }

  lemma LastPage(basePfn: nat, pages: seq<nat>, x: int)
    requires pages != [] && InZone(basePfn, pages)
    ensures OnPages(basePfn, pages, x) <==>
      OnPages(basePfn, pages[..|pages| - 1], x) || PageBlock(basePfn, pages[|pages| - 1]).Has(x)
  {
    var front := pages[..|pages| - 1];
    if OnPages(basePfn, front, x) {
      var i :| 0 <= i < |front| && PageBlock(basePfn, front[i]).Has(x);
      assert PageBlock(basePfn, pages[i]).Has(x);
    }
    if OnPages(basePfn, pages, x) && !PageBlock(basePfn, pages[|pages| - 1]).Has(x) {
      var i :| 0 <= i < |pages| && PageBlock(basePfn, pages[i]).Has(x);
      assert PageBlock(basePfn, front[i]).Has(x);
    }
  }

  /** Page frames in a row. */
  predicate Consecutive(pages: seq<nat>) {
    forall i | 0 <= i < |pages| - 1 :: pages[i + 1] == pages[i] + 1
  }

  lemma {:induction false} ConsecutiveAt(pages: seq<nat>, i: nat)
    requires Consecutive(pages) && i < |pages|
    ensures pages[i] == pages[0] + i
  {
    if i > 0 {
      ConsecutiveAt(pages, i - 1);
      assert pages[i - 1 + 1] == pages[i - 1] + 1;
    }
  }

  function GroupBlock(basePfn: nat, first: nat, n: nat): Block
    requires basePfn <= first
  {
    Block((first - basePfn) * PAGE_SIZE, n * PAGE_SIZE)
  }

  /** Consecutive pages cover exactly their group. */
  lemma GroupCovers(basePfn: nat, pages: seq<nat>, x: int)
    requires pages != [] && Consecutive(pages) && InZone(basePfn, pages)
    ensures OnPages(basePfn, pages, x) <==> GroupBlock(basePfn, pages[0], |pages|).Has(x)
  {
    var g := GroupBlock(basePfn, pages[0], |pages|);
    if OnPages(basePfn, pages, x) {
      var i :| 0 <= i < |pages| && PageBlock(basePfn, pages[i]).Has(x);
      ConsecutiveAt(pages, i);
    }
    if g.Has(x) {
      var i := (x - g.base) / PAGE_SIZE;
      ConsecutiveAt(pages, i);
      assert PageBlock(basePfn, pages[i]).Has(x);
    }
  }

  /** Freeing a group at once leaves the list that freeing its pages one by one leaves. */
  lemma GroupIsOneByOne(s: seq<Block>, basePfn: nat, done: seq<nat>, group: seq<nat>)
    requires Canonical(s) && Freeable(s, basePfn, done + group) && group != [] && Consecutive(group)
    ensures Freeable(s, basePfn, done)
    ensures basePfn <= group[0]
    ensures Apart(FreedOneByOne(s, basePfn, done), GroupBlock(basePfn, group[0], |group|))
    ensures Given(FreedOneByOne(s, basePfn, done), GroupBlock(basePfn, group[0], |group|))
        == FreedOneByOne(s, basePfn, done + group)
  {
    DoneIsFreeable(s, basePfn, done, group);
    var t, g := FreedOneByOne(s, basePfn, done), GroupBlock(basePfn, group[0], |group|);
    FreedOneByOneCovers(s, basePfn, done);
    forall x
      ensures OnPages(basePfn, done + group, x) <==> OnPages(basePfn, done, x) || g.Has(x)
      ensures g.Has(x) ==> !Covers(t, x)
    {
      ConcatPages(basePfn, done, group, x);
      GroupCovers(basePfn, group, x);
      GroupApart(s, basePfn, done, group, x);
    }
    GivenCanonical(t, g);
    FreedOneByOneCovers(s, basePfn, done + group);
    Unique(Given(t, g), FreedOneByOne(s, basePfn, done + group));
  }

  lemma DoneIsFreeable(s: seq<Block>, basePfn: nat, done: seq<nat>, group: seq<nat>)
    requires Freeable(s, basePfn, done + group)
    ensures Freeable(s, basePfn, done)
    ensures InZone(basePfn, group) && forall i | 0 <= i < |group| :: Apart(s, PageBlock(basePfn, group[i]))
    ensures forall i, j | 0 <= i < |done| && 0 <= j < |group| :: done[i] != group[j]
  {
    var all := done + group;
    forall i | 0 <= i < |done| ensures basePfn <= done[i]
        && Apart(s, PageBlock(basePfn, done[i])) { assert all[i] == done[i]; }
    forall i, j | 0 <= i < j < |done| ensures done[i] != done[j] { assert all[i] == done[i] && all[j] == done[j]; }
    forall i | 0 <= i < |group| ensures basePfn <= group[i]
        && Apart(s, PageBlock(basePfn, group[i])) { assert all[|done| + i] == group[i]; }
    forall i, j | 0 <= i < |done| && 0 <= j < |group| ensures done[i] != group[j] {
      assert all[i] == done[i] && all[|done| + j] == group[j];
    }
  }

  lemma GroupApart(s: seq<Block>, basePfn: nat, done: seq<nat>, group: seq<nat>, x: int)
    requires Freeable(s, basePfn, done)
    requires InZone(basePfn, group) && forall i | 0 <= i < |group| :: Apart(s, PageBlock(basePfn, group[i]))
    requires forall i, j | 0 <= i < |done| && 0 <= j < |group| :: done[i] != group[j]
    ensures OnPages(basePfn, group, x) ==> !Covers(s, x) && !OnPages(basePfn, done, x)
  {
    if OnPages(basePfn, group, x) {
      var j :| 0 <= j < |group| && PageBlock(basePfn, group[j]).Has(x);
      forall i | 0 <= i < |done| ensures !PageBlock(basePfn, done[i]).Has(x) {
        assert done[i] != group[j];
      }
    }
  }

  lemma ConcatPages(basePfn: nat, a: seq<nat>, b: seq<nat>, x: int)
    requires InZone(basePfn, a) && InZone(basePfn, b)
    ensures OnPages(basePfn, a + b, x) <==> OnPages(basePfn, a, x) || OnPages(basePfn, b, x)
  {
    var c := a + b;
    if OnPages(basePfn, c, x) {
      var i :| 0 <= i < |c| && PageBlock(basePfn, c[i]).Has(x);
      if i < |a| { assert PageBlock(basePfn, a[i]).Has(x); } else { assert PageBlock(basePfn, b[i - |a|]).Has(x); }
    }
    if OnPages(basePfn, a, x) {
      var i :| 0 <= i < |a| && PageBlock(basePfn, a[i]).Has(x);
      assert PageBlock(basePfn, c[i]).Has(x);
    }
    if OnPages(basePfn, b, x) {
      var i :| 0 <= i < |b| && PageBlock(basePfn, b[i]).Has(x);
      assert PageBlock(basePfn, c[|a| + i]).Has(x);
    }
  }

  // ---- The list, changed in place ----

  class DeviceMemory {
    var freeBlocks: seq<Block>

    constructor (size: nat)
      requires size > 0
      ensures freeBlocks == [Block(0, size)] && Canonical(freeBlocks)
    {
      freeBlocks := [Block(0, size)];
    }

    /** First fit from the front of the lowest block that is large enough. */
    method Allocate(size: nat) returns (addr: nat)
      modifies this
      ensures var s, i := old(freeBlocks), FirstFit(old(freeBlocks), size);
        if i < |s| then addr == s[i].base && freeBlocks == Without(s, i, addr, size)
        else addr == NO_ADDRESS && freeBlocks == s
      ensures old(Canonical(freeBlocks)) && size > 0 ==> Canonical(freeBlocks)
    {
      if freeBlocks == [] {
        return NO_ADDRESS;
      }
      var k := 0;
      while true
        invariant 0 <= k < |freeBlocks| && freeBlocks == old(freeBlocks)
        invariant forall j | 0 <= j < k :: freeBlocks[j].size < size
        decreases |freeBlocks| - k
      {
        var block := freeBlocks[k];
        if block.size >= size {
          addr := block.base;
          if block.size - size != 0 {
            freeBlocks := freeBlocks[k := Block(block.base + size, block.size - size)];
          } else {
            freeBlocks := freeBlocks[..k] + freeBlocks[k + 1..];
          }
          assert freeBlocks == Without(old(freeBlocks), k, addr, size);
          if old(Canonical(freeBlocks)) && size > 0 { WithoutCanonical(old(freeBlocks), k, addr, size); }
          return;
        }
        if k == |freeBlocks| - 1 {
          return NO_ADDRESS;
        }
        k := k + 1;
      }
    }

    /** The freed region joins the list, merged with its neighbours in one pass. */
    method Free(addr: nat, size: nat)
      requires Canonical(freeBlocks) && size > 0 && Apart(freeBlocks, Block(addr, size))
      modifies this
      ensures freeBlocks == Given(old(freeBlocks), Block(addr, size)) && Canonical(freeBlocks)
    {
      OnePassIsGiven(freeBlocks, Block(addr, size));
      GivenCanonical(freeBlocks, Block(addr, size));
      hide Given, Canonical, Apart, OnePass, Above;
      if freeBlocks == [] {
        NoneMerged(freeBlocks, Block(addr, size), 0);
        freeBlocks := [Block(addr, size)];
        return;
      }
      var k := 0;
      while k < |freeBlocks| && freeBlocks[k].base <= addr
        invariant 0 <= k <= |freeBlocks|
        invariant forall j | 0 <= j < k :: freeBlocks[j].base <= addr
      {
        k := k + 1;
      }
      AboveIs(freeBlocks, addr, k);
      if k < |freeBlocks| {
        PlaceBefore(k, addr, size);
      } else {
        PlaceLast(addr, size);
      }
    }

    /** The freed region goes before block `k`. */
    method PlaceBefore(k: nat, addr: nat, size: nat)
      requires k < |freeBlocks|
      modifies this
      ensures freeBlocks == OnePass(old(freeBlocks), Block(addr, size), k)
    {
      var block := freeBlocks[k];
      ghost var s, b := freeBlocks, Block(addr, size);
      hide OnePass;
      if k > 0 && freeBlocks[k - 1].base + freeBlocks[k - 1].size == addr {
        var prev := freeBlocks[k - 1];
        if addr + size == block.base {
          BothMerged(s, b, k);
          freeBlocks := freeBlocks[k - 1 := Block(prev.base, prev.size + (size + block.size))];
          freeBlocks := freeBlocks[..k] + freeBlocks[k + 1..];
        } else {
          PrevMerged(s, b, k);
          freeBlocks := freeBlocks[k - 1 := Block(prev.base, prev.size + size)];
        }
      } else if addr + size == block.base {
        NextMerged(s, b, k);
        freeBlocks := freeBlocks[k := Block(addr, block.size + size)];
      } else {
        NoneMerged(s, b, k);
        freeBlocks := freeBlocks[..k] + [Block(addr, size)] + freeBlocks[k..];
      }
    }

    /** The freed region goes behind the last block. */
    method PlaceLast(addr: nat, size: nat)
      requires freeBlocks != []
      modifies this
      ensures freeBlocks == OnePass(old(freeBlocks), Block(addr, size), |old(freeBlocks)|)
    {
      var k := |freeBlocks| - 1;
      var block := freeBlocks[k];
      if block.base + block.size == addr {
        PrevMerged(freeBlocks, Block(addr, size), k + 1);
        freeBlocks := freeBlocks[k := Block(block.base, block.size + size)];
      } else {
        NoneMerged(freeBlocks, Block(addr, size), k + 1);
        freeBlocks := freeBlocks + [Block(addr, size)];
      }
    }

    /** Runs of consecutive page frames are freed as one region each; the list ends up as if every page had been
     *  freed on its own. */
    method FreePages(basePfn: nat, pages: seq<nat>)
      requires Canonical(freeBlocks) && Freeable(freeBlocks, basePfn, pages)
      modifies this
      ensures freeBlocks == FreedOneByOne(old(freeBlocks), basePfn, pages) && Canonical(freeBlocks)
    {
      ghost var s := freeBlocks;
      hide Canonical, Apart, FreedOneByOne;
      StartFreeing(s, basePfn, pages);
      var i := 0;
      while i < |pages|
        invariant 0 <= i <= |pages|
        invariant Freeable(s, basePfn, pages[..i])
        invariant freeBlocks == FreedOneByOne(s, basePfn, pages[..i]) && Canonical(freeBlocks)
      {
        var n := 1;
        while i + n < |pages| && pages[i + n] == pages[i + n - 1] + 1
          invariant 1 <= n && i + n <= |pages|
          invariant forall q | i <= q < i + n - 1 :: pages[q + 1] == pages[q] + 1
        {
          n := n + 1;
        }
        NextGroup(s, basePfn, pages, i, n);
        hide Freeable;
        Free((pages[i] - basePfn) * PAGE_SIZE, n * PAGE_SIZE);
        i := i + n;
      }
      assert pages[..i] == pages;
    }
  }

  lemma StartFreeing(s: seq<Block>, basePfn: nat, pages: seq<nat>)
    requires Freeable(s, basePfn, pages)
    ensures Freeable(s, basePfn, pages[..0]) && FreedOneByOne(s, basePfn, pages[..0]) == s
  {
  }

  lemma NextGroup(s: seq<Block>, basePfn: nat, pages: seq<nat>, i: nat, n: nat)
    requires Canonical(s) && Freeable(s, basePfn, pages) && 0 < n && i + n <= |pages|
        && Freeable(s, basePfn, pages[..i])
    requires forall q | i <= q < i + n - 1 :: pages[q + 1] == pages[q] + 1
    ensures basePfn <= pages[i] && Freeable(s, basePfn, pages[..i + n])
    ensures var t, g := FreedOneByOne(s, basePfn, pages[..i]), Block((pages[i] - basePfn) * PAGE_SIZE, n * PAGE_SIZE);
      Apart(t, g) && Given(t, g) == FreedOneByOne(s, basePfn, pages[..i + n])
  {
    FreeableUpTo(s, basePfn, pages, i + n);
    Slice(pages, i, n);
    hide Canonical, Freeable, Apart, Given, Consecutive, FreedOneByOne;
    GroupIsOneByOne(s, basePfn, pages[..i], pages[i..i + n]);
  }

  lemma Slice(pages: seq<nat>, i: nat, n: nat)
    requires 0 < n && i + n <= |pages|
    requires forall q | i <= q < i + n - 1 :: pages[q + 1] == pages[q] + 1
    ensures pages[..i] + pages[i..i + n] == pages[..i + n] && Consecutive(pages[i..i + n])
        && pages[i..i + n][0] == pages[i]
  {
    var g := pages[i..i + n];
    forall q | 0 <= q < |g| - 1 ensures g[q + 1] == g[q] + 1 {
      assert pages[i + q + 1] == pages[i + q] + 1;
    }
  }

  lemma FreeableUpTo(s: seq<Block>, basePfn: nat, pages: seq<nat>, n: nat)
    requires Freeable(s, basePfn, pages) && n <= |pages|
    ensures Freeable(s, basePfn, pages[..n])
  {
  }

  /** Freeing what was just allocated restores the list. */
  lemma FreeUndoesAllocate(s: seq<Block>, size: nat)
    requires Canonical(s) && size > 0 && FirstFit(s, size) < |s|
    ensures var i := FirstFit(s, size); Given(Without(s, i, s[i].base, size), Block(s[i].base, size)) == s
  {
    GivenUndoesWithout(s, FirstFit(s, size), s[FirstFit(s, size)].base, size);
  }
}
