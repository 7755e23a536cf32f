/** Lists of address blocks as sets of addresses.
 *
 *  Both allocators of the runtime keep their free memory as a list of blocks that is sorted, has no empty
 *  block and no two blocks that touch.  Such a list is determined by the set of addresses it covers, so two
 *  ways of bookkeeping that free the same addresses end with the same list.
 */
module Blocks {

  datatype Block = Block(base: nat, size: nat) {
    function End(): nat {
      base + size
    }

    predicate Has(x: int) {
      base <= x < End()
    }
  }

  ghost predicate Covers(s: seq<Block>, x: int) {
    exists i | 0 <= i < |s| :: s[i].Has(x)
  }

  /** Sorted, no empty block, no two blocks touching. */
  ghost predicate Canonical(s: seq<Block>) {
    && (forall i | 0 <= i < |s| :: s[i].size > 0)
    && (forall i, j | 0 <= i < j < |s| :: s[i].End() < s[j].base)
  }

  /** Sorted, no empty block, no two blocks overlapping; they may touch. */
  ghost predicate Sorted(s: seq<Block>) {
    && (forall i | 0 <= i < |s| :: s[i].size > 0)
    && (forall i, j | 0 <= i < j < |s| :: s[i].End() <= s[j].base)
  }

  /** All addresses from `p` to `p + n` are covered. */
  ghost predicate HasRun(s: seq<Block>, p: int, n: nat) {
    forall x | p <= x < p + n :: Covers(s, x)
  }

  ghost predicate SameSet(a: seq<Block>, b: seq<Block>) {
    forall x :: Covers(a, x) <==> Covers(b, x)
  }

  // ---- Uniqueness of the canonical form ----

  lemma CoversTail(s: seq<Block>, x: int)
    requires s != [] && Canonical(s)
    ensures Covers(s[1..], x) <==> Covers(s, x) && x >= s[0].End()
    ensures Covers(s, x) ==> x >= s[0].base
    ensures !Covers(s, s[0].End())
  {
    if Covers(s[1..], x) {
      var i :| 0 <= i < |s[1..]| && s[1..][i].Has(x);
      assert s[i + 1].Has(x);
    }
    if Covers(s, x) && x >= s[0].End() {
      var i :| 0 <= i < |s| && s[i].Has(x);
      assert s[1..][i - 1].Has(x);
    }
  }

  lemma HeadCovered(s: seq<Block>)
    requires s != [] && Canonical(s)
    ensures Covers(s, s[0].base)
  {
    assert s[0].Has(s[0].base);
  }

  lemma HeadReaches(a: seq<Block>, b: seq<Block>)
    requires a != [] && b != [] && Canonical(a) && SameSet(a, b) && a[0].base == b[0].base
    ensures b[0].End() <= a[0].End()
  {
    CoversTail(a, a[0].End());
    assert !Covers(b, a[0].End());
    assert !b[0].Has(a[0].End());
  }

  lemma SameHead(a: seq<Block>, b: seq<Block>)
    requires a != [] && b != [] && Canonical(a) && Canonical(b) && SameSet(a, b)
    ensures a[0] == b[0]
  {
    HeadCovered(a);
    HeadCovered(b);
    CoversTail(a, b[0].base);
    CoversTail(b, a[0].base);
    HeadReaches(a, b);
    HeadReaches(b, a);
  }

  /** Two canonical lists that cover the same addresses are equal, element for element. */
  lemma {:induction false} Unique(a: seq<Block>, b: seq<Block>)
    requires Canonical(a) && Canonical(b) && SameSet(a, b)
    ensures a == b
  {
    if a != [] { HeadCovered(a); }
    if b != [] { HeadCovered(b); }
    if a != [] && b != [] {
      SameHead(a, b);
      forall x ensures Covers(a[1..], x) <==> Covers(b[1..], x) {
        CoversTail(a, x);
        CoversTail(b, x);
      }
      Unique(a[1..], b[1..]);
      assert a == [a[0]] + a[1..] && b == [b[0]] + b[1..];
    }
  }

  // ---- Runs of free addresses ----

  lemma EndUncovered(s: seq<Block>, i: nat)
    requires Canonical(s) && i < |s|
    ensures !Covers(s, s[i].End())
  {
    forall j | 0 <= j < |s| ensures !s[j].Has(s[i].End()) {
      if j < i { assert s[j].End() < s[i].base; }
      if i < j { assert s[i].End() < s[j].base; }
    }
  }

  /** A run of covered addresses lies inside one block of a canonical list. */
  lemma RunInBlock(s: seq<Block>, p: nat, n: nat) returns (i: nat)
    requires Canonical(s) && n > 0 && HasRun(s, p, n)
    ensures i < |s| && s[i].base <= p && p + n <= s[i].End()
  {
    assert Covers(s, p);
    i :| 0 <= i < |s| && s[i].Has(p);
    EndUncovered(s, i);
  }

  lemma BlockHasRun(s: seq<Block>, i: nat, p: nat, n: nat)
    requires i < |s| && s[i].base <= p && p + n <= s[i].End()
    ensures HasRun(s, p, n)
  {
    forall x | p <= x < p + n ensures Covers(s, x) {
      assert s[i].Has(x);
    }
  }

  /** The first block with room for `n`, or the length of the list. */
  function FirstFit(s: seq<Block>, n: nat): (i: nat)
    ensures i <= |s|
    ensures i < |s| ==> s[i].size >= n
    ensures forall j | 0 <= j < i :: s[j].size < n
  {
    if s == [] || s[0].size >= n then 0 else
      var i := FirstFit(s[1..], n);
      assert forall j | 0 < j < i + 1 :: s[j] == s[1..][j - 1];
      i + 1
  }

  /** A first fit exists exactly when a run of `n` covered addresses does, and it starts at the lowest one. */
  lemma FirstFitIsLowest(s: seq<Block>, n: nat)
    requires Canonical(s) && n > 0
    ensures var i := FirstFit(s, n);
      && (i < |s| <==> exists p: nat :: HasRun(s, p, n))
      && (i < |s| ==> HasRun(s, s[i].base, n) && forall p: nat | HasRun(s, p, n) :: s[i].base <= p)
  {
    var i := FirstFit(s, n);
    forall p: nat | HasRun(s, p, n) ensures i < |s| && s[i].base <= p {
      var j := RunInBlock(s, p, n);
      assert i <= j;
      assert i < j ==> s[i].End() < s[j].base;
    }
    if i < |s| { BlockHasRun(s, i, s[i].base, n); }
  }

  // ---- Taking a run out of one block ----

  /** What is left of block `i` when `n` addresses from `p` on are taken out of it. */
  function Without(s: seq<Block>, i: nat, p: nat, n: nat): seq<Block>
    requires i < |s| && s[i].base <= p && p + n <= s[i].End()
  {
    var left := Block(s[i].base, p - s[i].base);
    var right := Block(p + n, s[i].End() - (p + n));
    s[..i] + (if left.size > 0 then [left] else []) + (if right.size > 0 then [right] else []) + s[i + 1..]
  }

  lemma WithoutCanonical(s: seq<Block>, i: nat, p: nat, n: nat)
    requires Canonical(s) && i < |s| && s[i].base <= p && p + n <= s[i].End() && n > 0
    ensures Canonical(Without(s, i, p, n))
  {
  }

  lemma ConcatCovers(a: seq<Block>, b: seq<Block>, x: int)
    ensures Covers(a + b, x) <==> Covers(a, x) || Covers(b, x)
  {
    if Covers(a + b, x) {
      var i :| 0 <= i < |a + b| && (a + b)[i].Has(x);
      if i < |a| { assert a[i].Has(x); } else { assert b[i - |a|].Has(x); }
    }
    if Covers(a, x) {
      var i :| 0 <= i < |a| && a[i].Has(x);
      assert (a + b)[i].Has(x);
    }
    if Covers(b, x) {
      var i :| 0 <= i < |b| && b[i].Has(x);
      assert (a + b)[|a| + i].Has(x);
    }
  }

  /** A block, and what lies left and right of it. */
  lemma SplitCovers(s: seq<Block>, i: nat, x: int)
    requires Canonical(s) && i < |s|
    ensures Covers(s, x) <==> Covers(s[..i], x) || s[i].Has(x) || Covers(s[i + 1..], x)
    ensures Covers(s[..i], x) ==> x < s[i].base
    ensures Covers(s[i + 1..], x) ==> s[i].End() <= x
  {
    assert s == s[..i] + ([s[i]] + s[i + 1..]);
    ConcatCovers(s[..i], [s[i]] + s[i + 1..], x);
    ConsCovers(s[i], s[i + 1..], x);
  }

  /** Exactly the run is taken out. */
  lemma WithoutCovers(s: seq<Block>, i: nat, p: nat, n: nat, x: int)
    requires Canonical(s) && i < |s| && s[i].base <= p && p + n <= s[i].End() && n > 0
    ensures Covers(Without(s, i, p, n), x) <==> Covers(s, x) && !(p <= x < p + n)
  {
    var left := Block(s[i].base, p - s[i].base);
    var right := Block(p + n, s[i].End() - (p + n));
    var l, r := if left.size > 0 then [left] else [], if right.size > 0 then [right] else [];
    SplitCovers(s, i, x);
    ConcatCovers(s[..i] + l + r, s[i + 1..], x);
    ConcatCovers(s[..i] + l, r, x);
    ConcatCovers(s[..i], l, x);
    ConsCovers(left, [], x);
    ConsCovers(right, [], x);
    hide Covers;
    assert Covers(l, x) <==> left.Has(x) by { if left.size > 0 { assert l == [left] + []; } }
    assert Covers(r, x) <==> right.Has(x) by { if right.size > 0 { assert r == [right] + []; } }
  }

  // ---- Giving a block back ----

  predicate Touch(a: Block, b: Block) {
    a.End() == b.base
  }

  /** Neighbouring blocks that touch are joined, from the left. */
  function Merged(s: seq<Block>): seq<Block>
    decreases |s|
  {
    if |s| < 2 then s
    else if Touch(s[0], s[1]) then Merged([Block(s[0].base, s[0].size + s[1].size)] + s[2..])
    else [s[0]] + Merged(s[1..])
  }

  lemma JoinCovers(s: seq<Block>, x: int)
    requires |s| >= 2 && Touch(s[0], s[1])
    ensures Covers([Block(s[0].base, s[0].size + s[1].size)] + s[2..], x) <==> Covers(s, x)
  {
    var r := [Block(s[0].base, s[0].size + s[1].size)] + s[2..];
    if Covers(r, x) {
      var i :| 0 <= i < |r| && r[i].Has(x);
      if i == 0 { assert s[0].Has(x) || s[1].Has(x); } else { assert s[i + 1].Has(x); }
    }
    if Covers(s, x) {
      var i :| 0 <= i < |s| && s[i].Has(x);
      if i < 2 { assert r[0].Has(x); } else { assert r[i - 1].Has(x); }
    }
  }

  lemma ConsCovers(b: Block, s: seq<Block>, x: int)
    ensures Covers([b] + s, x) <==> b.Has(x) || Covers(s, x)
  {
    var r := [b] + s;
    if Covers(r, x) {
      var i :| 0 <= i < |r| && r[i].Has(x);
      if i > 0 { assert s[i - 1].Has(x); }
    }
    if b.Has(x) { assert r[0].Has(x); }
    if Covers(s, x) {
      var i :| 0 <= i < |s| && s[i].Has(x);
      assert r[i + 1].Has(x);
    }
  }

  /** Blocks `i` and `i + 1` become one. */
  function Joined(s: seq<Block>, i: nat): seq<Block>
    requires i + 1 < |s|
  {
    s[..i] + [Block(s[i].base, s[i].size + s[i + 1].size)] + s[i + 2..]
  }

  /** Joining from position `i` on, the blocks before it being done: two touching blocks become one. */
  lemma JoinStep(s: seq<Block>, i: nat)
    requires i + 1 < |s| && Touch(s[i], s[i + 1])
    ensures s[..i] + Merged(s[i..]) == Joined(s, i)[..i] + Merged(Joined(s, i)[i..])
  {
    var rest, b := s[i..], Block(s[i].base, s[i].size + s[i + 1].size);
    assert rest[2..] == s[i + 2..];
    assert Joined(s, i)[i..] == [b] + rest[2..];
    assert Joined(s, i)[..i] == s[..i];
  }

  /** Otherwise block `i` is done too. */
  lemma SkipStep(s: seq<Block>, i: nat)
    requires i < |s| && !(i + 1 < |s| && Touch(s[i], s[i + 1]))
    ensures s[..i] + Merged(s[i..]) == s[..i + 1] + Merged(s[i + 1..])
  {
    var rest := s[i..];
    assert rest[1..] == s[i + 1..];
    assert Merged(rest) == [s[i]] + Merged(s[i + 1..]);
    assert s[..i + 1] == s[..i] + [s[i]];
  }

  lemma MergedEnds(s: seq<Block>)
    ensures s[..0] + Merged(s[0..]) == Merged(s)
    ensures s[..|s|] + Merged(s[|s|..]) == s
  {
    assert s[0..] == s;
  }

  /** Joining keeps the set of addresses. */
  lemma {:induction false} MergedCovers(s: seq<Block>, x: int)
    ensures Covers(Merged(s), x) <==> Covers(s, x)
    decreases |s|
  {
    if |s| >= 2 {
      if Touch(s[0], s[1]) {
        JoinCovers(s, x);
        MergedCovers([Block(s[0].base, s[0].size + s[1].size)] + s[2..], x);
      } else {
        MergedCovers(s[1..], x);
        ConsCovers(s[0], Merged(s[1..]), x);
        ConsCovers(s[0], s[1..], x);
        assert s == [s[0]] + s[1..];
      }
    }
  }

  /** Joining a sorted list gives the canonical list; its first block starts where the first one started. */
  lemma {:induction false} MergedCanonical(s: seq<Block>)
    requires Sorted(s)
    ensures Canonical(Merged(s))
    ensures s != [] ==> Merged(s) != [] && Merged(s)[0].base == s[0].base
    decreases |s|
  {
    if |s| >= 2 {
      if Touch(s[0], s[1]) {
        MergedCanonical([Block(s[0].base, s[0].size + s[1].size)] + s[2..]);
      } else {
        MergedCanonical(s[1..]);
        var t := Merged(s[1..]);
        assert s[0].End() < t[0].base;
        assert t[0].size > 0;
        forall j | 0 <= j < |t| ensures s[0].End() < t[j].base {
          if j > 0 { assert t[0].End() < t[j].base; }
        }
      }
    }
  }

  /** Position of the first block starting above `p`. */
  function Above(s: seq<Block>, p: nat): (i: nat)
    ensures i <= |s|
    ensures forall j | 0 <= j < i :: s[j].base <= p
    ensures i < |s| ==> s[i].base > p
  {
    if s == [] || s[0].base > p then 0 else
      var i := Above(s[1..], p);
      assert forall j | 0 < j < i + 1 :: s[j] == s[1..][j - 1];
      i + 1
  }

  function Inserted(s: seq<Block>, b: Block): seq<Block> {
    var i := Above(s, b.base);
    s[..i] + [b] + s[i..]
  }

  /** The list after block `b` is given back. */
  function Given(s: seq<Block>, b: Block): seq<Block> {
    Merged(Inserted(s, b))
  }

  /** No address of `b` is covered. */
  ghost predicate Apart(s: seq<Block>, b: Block) {
    forall x | b.Has(x) :: !Covers(s, x)
  }

  /** A block apart from a list overlaps none of its blocks. */
  lemma ApartBlocks(s: seq<Block>, b: Block, i: nat)
    requires Canonical(s) && Apart(s, b) && b.size > 0 && i < |s|
    ensures s[i].End() <= b.base || b.End() <= s[i].base
  {
    if s[i].End() > b.base && b.End() > s[i].base {
      var x := if s[i].base > b.base then s[i].base else b.base;
      assert s[i].Has(x) && b.Has(x);
      assert false;
    }
  }

  /** The place of a block that overlaps nothing: everything before it ends at or below it, and so on. */
  lemma PlaceOf(s: seq<Block>, b: Block)
    requires Canonical(s) && Apart(s, b) && b.size > 0
    ensures var k := Above(s, b.base);
      && (forall i | 0 <= i < k :: s[i].End() <= b.base)
      && (forall i | k <= i < |s| :: b.End() <= s[i].base)
  {
    var k := Above(s, b.base);
    forall i | 0 <= i < |s| ensures s[i].End() <= b.base || b.End() <= s[i].base { ApartBlocks(s, b, i); }
    forall i | 0 <= i < k ensures s[i].End() <= b.base { assert s[i].base <= b.base; }
    forall i | k <= i < |s| ensures b.End() <= s[i].base { if i > k { assert s[k].End() < s[i].base; } }
  }

  lemma InsertedSorted(s: seq<Block>, b: Block)
    requires Canonical(s) && Apart(s, b) && b.size > 0
    ensures Sorted(Inserted(s, b))
  {
    PlaceOf(s, b);
    hide Apart, Above;
    var k := Above(s, b.base);
    var r := s[..k] + [b] + s[k..];
    assert forall q | 0 <= q < k :: r[q] == s[q];
    assert forall q | k < q < |r| :: r[q] == s[q - 1];
    forall p, q | 0 <= p < q < |r| ensures r[p].End() <= r[q].base {
      if p < k && q < k { assert s[p].End() < s[q].base; }
      if p < k && q > k { assert s[p].End() <= b.base; }
      if p > k { assert s[p - 1].End() < s[q - 1].base; }
    }
  }

  lemma InsertedCovers(s: seq<Block>, b: Block, x: int)
    ensures Covers(Inserted(s, b), x) <==> Covers(s, x) || b.Has(x)
  {
    var r, k := Inserted(s, b), Above(s, b.base);
    if Covers(r, x) {
      var i :| 0 <= i < |r| && r[i].Has(x);
      if i < k { assert s[i].Has(x); } else if i > k { assert s[i - 1].Has(x); }
    }
    if b.Has(x) { assert r[k].Has(x); }
    if Covers(s, x) {
      var i :| 0 <= i < |s| && s[i].Has(x);
      if i < k { assert r[i].Has(x); } else { assert r[i + 1].Has(x); }
    }
  }

  /** Giving back a block adds exactly its addresses and keeps the list canonical. */
  lemma GivenCanonical(s: seq<Block>, b: Block)
    requires Canonical(s) && Apart(s, b) && b.size > 0
    ensures Canonical(Given(s, b))
    ensures forall x :: Covers(Given(s, b), x) <==> Covers(s, x) || b.Has(x)
  {
    InsertedSorted(s, b);
    MergedCanonical(Inserted(s, b));
    forall x ensures Covers(Given(s, b), x) <==> Covers(s, x) || b.Has(x) {
      MergedCovers(Inserted(s, b), x);
      InsertedCovers(s, b, x);
    }
  }

  /** Giving back a run that was taken out restores the list, element for element. */
  lemma GivenUndoesWithout(s: seq<Block>, i: nat, p: nat, n: nat)
    requires Canonical(s) && i < |s| && s[i].base <= p && p + n <= s[i].End() && n > 0
    ensures Given(Without(s, i, p, n), Block(p, n)) == s
  {
    var r, b := Without(s, i, p, n), Block(p, n);
    WithoutCanonical(s, i, p, n);
    forall x ensures Covers(r, x) <==> Covers(s, x) && !b.Has(x) { WithoutCovers(s, i, p, n, x); }
    GivenCanonical(r, b);
    BlockHasRun(s, i, p, n);
    Unique(Given(r, b), s);
  }

  /** The order in which two blocks are given back does not matter. */
  lemma GivenCommutes(s: seq<Block>, a: Block, b: Block)
    requires Canonical(s) && Apart(s, a) && Apart(s, b) && a.size > 0 && b.size > 0
    requires forall x :: !(a.Has(x) && b.Has(x))
    ensures Given(Given(s, a), b) == Given(Given(s, b), a)
  {
    GivenCanonical(s, a);
    GivenCanonical(s, b);
    GivenCanonical(Given(s, a), b);
    GivenCanonical(Given(s, b), a);
    Unique(Given(Given(s, a), b), Given(Given(s, b), a));
  }

  /** Giving back two neighbours is giving back their union. */
  lemma GivenTogether(s: seq<Block>, p: nat, m: nat, n: nat)
    requires Canonical(s) && Apart(s, Block(p, m + n)) && m > 0 && n > 0
    ensures Given(Given(s, Block(p, m)), Block(p + m, n)) == Given(s, Block(p, m + n))
  {
    var a, b, c := Block(p, m), Block(p + m, n), Block(p, m + n);
    assert forall x :: c.Has(x) <==> a.Has(x) || b.Has(x);
    GivenCanonical(s, a);
    GivenCanonical(Given(s, a), b);
    GivenCanonical(s, c);
    Unique(Given(Given(s, a), b), Given(s, c));
  }
}
