/** The interval tree in which a shared-virtual-memory device keeps its resident address ranges.
 *
 *  The kernel's interval tree is taken as a set of nodes with the in-order search operations it offers;
 *  addresses are 64-bit words and `last` is inclusive.  A tree is canonical when its nodes are the maximal
 *  runs of resident addresses.
 */
module SvmIntervals {
  import opened Common
  import opened SvmPages

  const ULONG_MAX := 0xFFFF_FFFF_FFFF_FFFF
  const WORD64 := 0x1_0000_0000_0000_0000
  const WORD32 := 0x1_0000_0000
  const BIT31 := 0x8000_0000

  /** What an `int` holds of a number. */
  function ToInt32(n: int): int {
    var m := n % WORD32;
    if m < BIT31 then m else m - WORD32
  }

  /** The number of pages between two addresses, computed in 64 bits and kept in an `int`. */
  function PagesOf(from: nat, to: nat): int {
    ToInt32((to - from) % WORD64 / PAGE_SIZE)
  }

  /** The last address of a range of `npages` pages, in 64 bits; it may lie before the first. */
  function RangeEnd(vaddr: nat, npages: int): nat {
    (vaddr + npages * PAGE_SIZE - 1) % WORD64
  }

  lemma RangeEndExact(vaddr: nat, npages: int)
    requires npages > 0 && vaddr + npages * PAGE_SIZE <= WORD64
    ensures RangeEnd(vaddr, npages) == vaddr + npages * PAGE_SIZE - 1
  {
  }

  datatype Interval = Interval(start: nat, last: nat) {
    predicate Has(x: int) {
      start <= x <= last
    }

    predicate Overlaps(a: int, b: int) {
      start <= b && a <= last
    }
  }

  type Tree = set<Interval>

  ghost predicate Covers(t: Tree, x: int) {
    exists n :: n in t && n.Has(x)
  }

  predicate Apart(m: Interval, n: Interval) {
    m.last + 1 < n.start || n.last + 1 < m.start
  }

  /** The nodes are the maximal runs of covered addresses. */
  ghost predicate Canonical(t: Tree) {
    && (forall n | n in t :: n.start <= n.last)
    && (forall m, n | m in t && n in t && m != n :: Apart(m, n))
  }

  ghost predicate Aligned(t: Tree) {
    forall n | n in t :: n.start % PAGE_SIZE == 0 && (n.last + 1) % PAGE_SIZE == 0
  }

  ghost predicate Free(t: Tree, a: int, b: int) {
    forall x | a <= x <= b :: !Covers(t, x)
  }

  ghost predicate IsUnion(t: Tree, t': Tree, a: int, b: int) {
    Canonical(t') && forall x :: Covers(t', x) <==> Covers(t, x) || a <= x <= b
  }

  ghost predicate IsDifference(t: Tree, t': Tree, a: int, b: int) {
    Canonical(t') && forall x :: Covers(t', x) <==> Covers(t, x) && !(a <= x <= b)
  }

  lemma NodeOf(a: Tree, b: Tree, n: Interval)
    requires Canonical(a) && Canonical(b) && (forall x :: Covers(a, x) <==> Covers(b, x)) && n in a
    ensures n in b
  {
    assert n.Has(n.start);
    assert Covers(a, n.start);
    var m :| m in b && m.Has(n.start);
    assert m.Has(m.start) && m.Has(m.last);
    assert Covers(b, m.start) && Covers(b, m.last);
    InsideOne(a, b, n, m);
    assert m.Has(n.start) && n.Has(m.start);
    InsideOne(b, a, m, n);
  }

  /** A node of one tree that meets a node of the other lies inside it. */
  lemma InsideOne(a: Tree, b: Tree, n: Interval, m: Interval)
    requires Canonical(a) && Canonical(b) && (forall x :: Covers(a, x) <==> Covers(b, x)) && n in a && m in b
    requires m.Has(n.start) || n.Has(m.start)
    ensures n.start <= m.start && m.last <= n.last
  {
    Uncovered(a, n);
    assert !Covers(b, n.start - 1) && !Covers(b, n.last + 1);
    assert !m.Has(n.start - 1) && !m.Has(n.last + 1);
  }

  /** The addresses next to a node are not covered. */
  lemma Uncovered(t: Tree, n: Interval)
    requires Canonical(t) && n in t
    ensures !Covers(t, n.start - 1) && !Covers(t, n.last + 1)
  {
    forall m | m in t ensures !m.Has(n.start - 1) && !m.Has(n.last + 1) {
      if m != n { assert Apart(m, n); }
    }
  }

  /** Two canonical trees that cover the same addresses have the same nodes. */
  lemma Unique(a: Tree, b: Tree)
    requires Canonical(a) && Canonical(b) && forall x :: Covers(a, x) <==> Covers(b, x)
    ensures a == b
  {
    forall n ensures n in a <==> n in b {
      if n in a { NodeOf(a, b, n); }
      if n in b { NodeOf(b, a, n); }
    }
  }

  // ---- Searching the tree ----

  /** The lowest node among `s`. */
  method Lowest(s: Tree) returns (r: Option<Interval>)
    ensures r.None? <==> s == {}
    ensures r.Some? ==> r.value in s && forall m | m in s :: r.value.start <= m.start
  {
    if s == {} { return None; }
    var n :| n in s;
    var rest := s - {n};
    while rest != {}
      invariant n in s && rest <= s && forall m | m in s && m !in rest :: n.start <= m.start
      decreases |rest|
    {
      var m :| m in rest;
      if m.start < n.start {
        n := m;
      }
      rest := rest - {m};
    }
    r := Some(n);
  }

  /** The lowest node that overlaps `[a, b]`. */
  method IterFirst(t: Tree, a: int, b: int) returns (r: Option<Interval>)
    ensures r.None? <==> forall n | n in t :: !n.Overlaps(a, b)
    ensures r.Some? ==> r.value in t && r.value.Overlaps(a, b) && forall m | m in t && m.Overlaps(a, b) ::
        r.value.start <= m.start
  {
    var s := set n | n in t && n.Overlaps(a, b);
    r := Lowest(s);
    assert forall n | n in t && n.Overlaps(a, b) :: n in s;
  }

  /** The lowest node behind `node` that overlaps `[a, b]`. */
  method IterNext(t: Tree, node: Interval, a: int, b: int) returns (r: Option<Interval>)
    ensures r.None? <==> forall n | n in t && n.start > node.start :: !n.Overlaps(a, b)
    ensures r.Some? ==>
      && r.value in t && r.value.start > node.start && r.value.Overlaps(a, b)
      && forall m | m in t && m.start > node.start && m.Overlaps(a, b) :: r.value.start <= m.start
  {
    var s := set n | n in t && n.start > node.start && n.Overlaps(a, b);
    r := Lowest(s);
    assert forall n | n in t && n.start > node.start && n.Overlaps(a, b) :: n in s;
  }

  /** The nodes that overlap `[vaddr, end]`, lowest first. */
  ghost predicate IsSearchResult(t: Tree, a: int, b: int, list: seq<Interval>) {
    && (forall n :: n in list <==> n in t && n.Overlaps(a, b))
    && (forall i, j | 0 <= i < j < |list| :: list[i].last + 1 < list[j].start)
  }

  /** Looks for the nodes in a range; also when its end lies before its start. */
  method Search(t: Tree, vaddr: nat, npages: int) returns (list: seq<Interval>)
    requires Canonical(t)
    ensures IsSearchResult(t, vaddr, RangeEnd(vaddr, npages), list)
  {
    var end := RangeEnd(vaddr, npages);
    hide RangeEnd;
    var node := IterFirst(t, vaddr, end);
    list := [];
    while node.Some?
      invariant node.Some? ==> node.value in t && node.value.Overlaps(vaddr, end)
      invariant forall n :: n in list <==>
          n in t && n.Overlaps(vaddr, end) && (node.Some? ==> n.start < node.value.start)
      invariant forall i, j | 0 <= i < j < |list| :: list[i].last + 1 < list[j].start
      decreases if node.Some? then end + 1 - node.value.start else 0
    {
      var n := node.value;
      SearchStep(t, list, n, vaddr, end);
      list := list + [n];
      var start := Min(n.last + 1, end);
      node := IterNext(t, n, start, end);
      NextOverlaps(t, n, vaddr, end);
    }
  }

  lemma SearchStep(t: Tree, list: seq<Interval>, n: Interval, a: int, b: int)
    requires Canonical(t) && n in t
    requires forall m :: m in list <==> m in t && m.Overlaps(a, b) && m.start < n.start
    ensures forall i | 0 <= i < |list| :: list[i].last + 1 < n.start
  {
    forall i | 0 <= i < |list| ensures list[i].last + 1 < n.start {
      assert list[i] in list;
      assert Apart(list[i], n);
    }
  }

  /** Behind a node that overlaps the range, searching from its end finds what searching from the start would. */
  lemma NextOverlaps(t: Tree, n: Interval, a: nat, b: nat)
    requires Canonical(t) && n in t && n.Overlaps(a, b)
    ensures forall m | m in t && m.start > n.start :: m.Overlaps(a, b) <==> m.Overlaps(Min(n.last + 1, b), b)
    ensures forall m | m in t && m.start <= n.start && m != n :: m.start < n.start
  {
    forall m | m in t && m.start > n.start ensures m.Overlaps(a, b) <==> m.Overlaps(Min(n.last + 1, b), b) {
      assert Apart(m, n);
    }
    forall m | m in t && m.start <= n.start && m != n ensures m.start < n.start {
      assert Apart(m, n);
    }
  }

  // ---- Inserting ----

  method InsertInto(t: Tree, vaddr: nat, npages: nat) returns (t': Tree)
    requires Canonical(t) && Aligned(t) && npages > 0 && vaddr % PAGE_SIZE == 0
    requires Free(t, vaddr, vaddr + npages * PAGE_SIZE - 1)
    ensures IsUnion(t, t', vaddr, vaddr + npages * PAGE_SIZE - 1) && Aligned(t')
  {
    hide Canonical, Aligned, Free, IsUnion, Found;
    var predecessor, successor := None, None;
    if vaddr > 0 {
      predecessor := IterFirst(t, vaddr - PAGE_SIZE, vaddr - 1);
    }
    var next := vaddr + npages * PAGE_SIZE;
    successor := IterFirst(t, next, next);
    t' := t;
    var start, last := vaddr, next - 1;
    if predecessor.Some? {
      start := predecessor.value.start;
      t' := t' - {predecessor.value};
    }
    if successor.Some? {
      last := successor.value.last;
      t' := t' - {successor.value};
    }
    t' := t' + {Interval(start, last)};
    assert t' == Joined(t, vaddr, next, predecessor, successor);
    Neighbours(t, vaddr, next, predecessor, successor);
    JoinedIsUnion(t, vaddr, next, predecessor, successor);
  }

  /** The tree with its new node, which takes in the neighbours that were found. */
  function Joined(t: Tree, vaddr: nat, next: nat, pred: Option<Interval>, succ: Option<Interval>): Tree
    requires vaddr < next
  {
    var n := Interval(if pred.Some? then pred.value.start else vaddr, if succ.Some? then succ.value.last else next - 1);
    t - (if pred.Some? then {pred.value} else {}) - (if succ.Some? then {succ.value} else {}) + {n}
  }

  /** What the two searches of an insertion find. */
  ghost predicate Found(t: Tree, vaddr: nat, next: nat, pred: Option<Interval>, succ: Option<Interval>) {
    && (pred.Some? ==> pred.value in t && pred.value.last + 1 == vaddr)
    && (pred.None? ==> forall n | n in t :: n.last + 1 != vaddr)
    && (succ.Some? ==> succ.value in t && succ.value.start == next)
    && (succ.None? ==> forall n | n in t :: n.start != next)
    && (forall n | n in t :: n.last < vaddr || next <= n.start)
  }

  lemma BeforeOrAfter(t: Tree, vaddr: nat, next: nat)
    requires Canonical(t) && vaddr < next && Free(t, vaddr, next - 1)
    ensures forall n | n in t :: n.last < vaddr || next <= n.start
  {
    forall n | n in t ensures n.last < vaddr || next <= n.start {
      assert !Covers(t, vaddr) && !n.Has(vaddr);
      if vaddr <= n.start < next { assert n.Has(n.start); assert Covers(t, n.start); assert false; }
    }
  }

  lemma Neighbours(t: Tree, vaddr: nat, next: nat, pred: Option<Interval>, succ: Option<Interval>)
    requires Canonical(t) && Aligned(t) && vaddr < next && vaddr % PAGE_SIZE == 0 && next % PAGE_SIZE == 0
    requires Free(t, vaddr, next - 1)
    requires pred.None? <==> vaddr == 0 || forall n | n in t :: !n.Overlaps(vaddr - PAGE_SIZE, vaddr - 1)
    requires pred.Some? ==> pred.value in t && pred.value.Overlaps(vaddr - PAGE_SIZE, vaddr - 1)
    requires succ.None? <==> forall n | n in t :: !n.Overlaps(next, next)
    requires succ.Some? ==> succ.value in t && succ.value.Overlaps(next, next)
    ensures Found(t, vaddr, next, pred, succ)
  {
    BeforeOrAfter(t, vaddr, next);
    if pred.Some? { EndsThere(pred.value, vaddr); }
    if pred.None? {
      forall n | n in t ensures n.last + 1 != vaddr {
        if n.last + 1 == vaddr { assert n.Overlaps(vaddr - PAGE_SIZE, vaddr - 1); }
      }
    }
    if succ.None? {
      forall n | n in t ensures n.start != next {
        if n.start == next { assert n.Overlaps(next, next); }
      }
    }
  }

  /** Aligned nodes that overlap the page before an aligned address end with it or reach beyond. */
  lemma EndsThere(n: Interval, vaddr: nat)
    requires n.start <= n.last && (n.last + 1) % PAGE_SIZE == 0 && vaddr % PAGE_SIZE == 0
    requires n.last >= vaddr - PAGE_SIZE && n.last < vaddr
    ensures n.last + 1 == vaddr
  {
  }

  lemma JoinedIsUnion(t: Tree, vaddr: nat, next: nat, pred: Option<Interval>, succ: Option<Interval>)
    requires Canonical(t) && Aligned(t) && vaddr < next && vaddr % PAGE_SIZE == 0 && next % PAGE_SIZE == 0
    requires Found(t, vaddr, next, pred, succ)
    ensures var t' := Joined(t, vaddr, next, pred, succ); IsUnion(t, t', vaddr, next - 1) && Aligned(t')
  {
    var n := Interval(if pred.Some? then pred.value.start else vaddr, if succ.Some? then succ.value.last else next - 1);
    var t' := Joined(t, vaddr, next, pred, succ);
    forall m | m in t' && m != n ensures Apart(m, n) {
      if pred.Some? { assert Apart(m, pred.value); }
      if succ.Some? { assert Apart(m, succ.value); }
    }
    forall x ensures Covers(t', x) <==> Covers(t, x) || vaddr <= x <= next - 1 {
      assert n.Has(x) <==>
          (pred.Some? && pred.value.Has(x)) || vaddr <= x <= next - 1 || (succ.Some? && succ.value.Has(x));
      if Covers(t, x) {
        var m :| m in t && m.Has(x);
        assert m in t' || n.Has(x);
        assert n in t';
      }
      if n.Has(x) { assert n in t'; }
      if Covers(t', x) {
        var m :| m in t' && m.Has(x);
      }
    }
  }

  // ---- Removing ----

  /** No node starts strictly inside the range: the condition under which removing works. */
  ghost predicate StartsInside(t: Tree, a: int, b: int) {
    exists n :: n in t && a < n.start <= b
  }

  /** Unsigned subtraction of one. */
  function Minus1(x: nat): nat {
    if x == 0 then ULONG_MAX else x - 1
  }

  /** What one round of the removal does with node `n`. */
  function Round(t: Tree, n: Interval, start: nat, end: nat): Tree {
    var right := if n.last > end then {Interval(end + 1, n.last)} else {};
    t - {n} + right + (if n.start != start then {Interval(n.start, Minus1(start))} else {})
  }

  /** A range that removal is meant for. */
  ghost predicate Proper(t: Tree, vaddr: nat, npages: int) {
    Canonical(t) && npages > 0 && vaddr + npages * PAGE_SIZE <= WORD64
  }

  /** Removes the range from the tree; the result is the difference exactly when no node starts inside it.  A
   *  page count may also be negative or zero; then the end of the range lies before its start. */
  method RemoveFrom(t: Tree, vaddr: nat, npages: int) returns (t': Tree)
    ensures Proper(t, vaddr, npages) ==>
      var end := vaddr + npages * PAGE_SIZE - 1;
      && (IsDifference(t, t', vaddr, end) <==> !StartsInside(t, vaddr, end))
      && (Aligned(t) && vaddr % PAGE_SIZE == 0 && !StartsInside(t, vaddr, end) ==> Aligned(t'))
    ensures (forall n | n in t :: !n.Overlaps(vaddr, RangeEnd(vaddr, npages))) ==> t' == t
    ensures forall n | t == {n} && n.Overlaps(vaddr, RangeEnd(vaddr, npages)) ::
        t' == Round({n}, n, vaddr, RangeEnd(vaddr, npages))
  {
    hide Canonical, IsDifference, StartsInside, Aligned, RangeEnd, Round;
    var start: nat, end: nat := vaddr, RangeEnd(vaddr, npages);
    ghost var proper := Proper(t, vaddr, npages);
    if proper { RangeEndExact(vaddr, npages); }
    t' := t;
    var node := IterFirst(t', vaddr, end);
    ghost var first := true;
    while node.Some?
      invariant first ==> t' == t && start == vaddr && IsFirst(t, node, vaddr, end)
      invariant !first ==> exists n :: n in t && n.Overlaps(vaddr, end)
      invariant !first ==> forall n | t == {n} :: node.None? && t' == Round({n}, n, vaddr, end)
      invariant proper && !StartsInside(t, vaddr, end) && !first ==>
        node.None? && IsDifference(t, t', vaddr, end) && (Aligned(t) && vaddr % PAGE_SIZE == 0 ==> Aligned(t'))
      invariant proper && StartsInside(t, vaddr, end) ==> StartsInside(t', vaddr, end)
      invariant node.Some? ==> node.value in t' && node.value.start <= end
      invariant proper && node.Some? ==> Queued(t, t', node.value, end)
      invariant proper && !first && node.Some? ==> vaddr < node.value.start && start < node.value.start
      decreases if node.Some? then end + 1 - node.value.start else 0
    {
      var n := node.value;
      var nextStart := Min(n.last + 1, end);
      var nextNode := IterNext(t', n, start, end);
      ghost var before := t';
      t' := t' - {n};
      if n.start != start {
        if n.last > end {
          t' := t' + {Interval(end + 1, n.last)};
        }
        t' := t' + {Interval(n.start, Minus1(start))};
      } else if n.last > end {
        t' := t' + {Interval(end + 1, n.last)};
      }
      IsRound(before, n, start, end, t');
      if proper {
        if !StartsInside(t, vaddr, end) {
          OnlyNode(t, n, vaddr, end);
        } else {
          StillInside(before, n, start, vaddr, end);
        }
        if nextNode.Some? { NextQueued(t, before, n, nextNode.value, start, end); }
        if first { FirstIsBefore(t, n, vaddr, end); }
      }
      if nextNode.Some? { NodeStays(before, n, nextNode.value, start, end); }
      first := false;
      start := nextStart;
      node := nextNode;
    }
    if proper {
      if first { NothingMet(t, vaddr, end); }
      if StartsInside(t, vaddr, end) { InsideIsWrong(t, t', vaddr, end); }
    }
  }

  lemma IsRound(t: Tree, n: Interval, start: nat, end: nat, t': Tree)
    requires t' == (if n.start != start then
                      (if n.last > end then t - {n} + {Interval(end + 1, n.last)}
                          else t - {n}) + {Interval(n.start, Minus1(start))}
                    else if n.last > end then t - {n} + {Interval(end + 1, n.last)} else t - {n})
    ensures t' == Round(t, n, start, end)
  {
  }

  lemma NodeStays(t: Tree, n: Interval, m: Interval, start: nat, end: nat)
    requires m in t && m != n
    ensures m in Round(t, n, start, end)
  {
  }

  ghost predicate IsFirst(t: Tree, node: Option<Interval>, a: int, b: int) {
    && (node.Some? ==> node.value in t && node.value.Overlaps(a, b) && forall m | m in t && m.Overlaps(a, b) ::
        node.value.start <= m.start)
    && (node.None? ==> forall m | m in t :: !m.Overlaps(a, b))
  }

  /** Node `n` and everything behind it up to `end` is still as it was in `t`. */
  ghost predicate Queued(t: Tree, t': Tree, n: Interval, end: int) {
    n in t' && n in t && n.start <= end && forall m | m in t' && n.start <= m.start <= end :: m in t
  }

  lemma NothingMet(t: Tree, a: int, b: int)
    requires Canonical(t) && forall m | m in t :: !m.Overlaps(a, b)
    ensures !StartsInside(t, a, b) && IsDifference(t, t, a, b)
  {
    forall m | m in t ensures !(a < m.start <= b) { assert !m.Overlaps(a, b); }
    forall x ensures Covers(t, x) ==> !(a <= x <= b) {
      if Covers(t, x) { var m :| m in t && m.Has(x); assert !m.Overlaps(a, b); }
    }
  }

  lemma InsideIsWrong(t: Tree, t': Tree, a: int, b: int)
    requires StartsInside(t', a, b)
    ensures !IsDifference(t, t', a, b)
  {
    var n :| n in t' && a < n.start <= b;
    if Canonical(t') {
      assert n.Has(n.start);
      assert Covers(t', n.start);
    }
  }

  lemma StillInside(t: Tree, n: Interval, start: nat, a: int, b: int)
    requires StartsInside(t, a, b) && b >= 0 && (n.start > a ==> n.start != start)
    ensures StartsInside(Round(t, n, start, b), a, b)
  {
    var m :| m in t && a < m.start <= b;
    var t' := Round(t, n, start, b);
    if m == n { assert Interval(n.start, Minus1(start)) in t'; } else { assert m in t'; }
  }

  lemma NextQueued(t: Tree, before: Tree, n: Interval, next: Interval, start: nat, end: nat)
    requires Canonical(t) && Queued(t, before, n, end) && next in before && n.start < next.start <= end
    requires forall m | m in before && m.start > n.start && m.Overlaps(start, end) :: next.start <= m.start
    ensures Queued(t, Round(before, n, start, end), next, end)
    ensures Min(n.last + 1, end) < next.start
  {
    assert Apart(n, next);
  }

  /** When no node starts inside the range, the first node met is the only one and is cut. */
  lemma OnlyNode(t: Tree, n: Interval, a: nat, b: nat)
    requires Canonical(t) && !StartsInside(t, a, b) && IsFirst(t, Some(n), a, b) && a <= b
    ensures IsDifference(t, Round(t, n, a, b), a, b)
    ensures Aligned(t) && a % PAGE_SIZE == 0 && (b + 1) % PAGE_SIZE == 0 ==> Aligned(Round(t, n, a, b))
    ensures forall m | m in t && m.start > n.start :: !m.Overlaps(a, b)
  {
    assert !(a < n.start <= b);
    assert n.start <= a;
    assert Round(t, n, a, b) == Cut(t, n, a, b);
    OneNode(t, n, a, b);
    forall m | m in t && m.start > n.start ensures !m.Overlaps(a, b) {
      assert !(a < m.start <= b);
      assert Apart(m, n);
    }
  }

  lemma FirstIsBefore(t: Tree, n: Interval, a: nat, b: nat)
    requires Canonical(t) && IsFirst(t, Some(n), a, b)
    ensures forall m | m in t && m.start > n.start :: a < m.start
  {
    forall m | m in t && m.start > n.start ensures a < m.start { assert Apart(m, n); }
  }

  function Cut(t: Tree, n: Interval, a: nat, b: nat): Tree {
    var right := if n.last > b then {Interval(b + 1, n.last)} else {};
    var left := if n.start < a then {Interval(n.start, a - 1)} else {};
    t - {n} + right + left
  }

  /** Cutting a range out of the one node it meets. */
  lemma OneNode(t: Tree, n: Interval, a: nat, b: nat)
    requires Canonical(t) && n in t && n.Overlaps(a, b) && n.start <= a <= b
    requires !StartsInside(t, a, b)
    ensures IsDifference(t, Cut(t, n, a, b), a, b)
    ensures Aligned(t) && a % PAGE_SIZE == 0 && (b + 1) % PAGE_SIZE == 0 ==> Aligned(Cut(t, n, a, b))
  {
    var t' := Cut(t, n, a, b);
    forall m | m in t && m != n ensures m.last + 1 < n.start || b < m.start {
      assert Apart(m, n);
      assert !(a < m.start <= b);
    }
    forall x ensures Covers(t', x) <==> Covers(t, x) && !(a <= x <= b) {
      if Covers(t', x) { var m :| m in t' && m.Has(x); assert m in t || n.Has(x); }
      if Covers(t, x) && !(a <= x <= b) {
        var m :| m in t && m.Has(x);
        if m == n {
          if x < a { assert Interval(n.start, a - 1) in t'; assert Interval(n.start, a - 1).Has(x); }
          else { assert Interval(b + 1, n.last) in t'; assert Interval(b + 1, n.last).Has(x); }
        } else {
          assert m in t';
        }
      }
    }
    forall p, q | p in t' && q in t' && p != q ensures Apart(p, q) {
      if p in t && q in t { }
      else if p in t { assert Apart(p, n); }
      else if q in t { assert Apart(n, q); }
    }
  }

  /** The smallest failing removal: one resident page, and a range that begins one page before it. */
  lemma GapBeforeNode()
    ensures var t := {Interval(8192, 12287)};
      && Canonical(t) && Aligned(t) && StartsInside(t, 4096, 12287)
      && Round(t, Interval(8192, 12287), 4096, 12287) == {Interval(8192, 4095)}
  {
    var t := {Interval(8192, 12287)};
    assert Interval(8192, 12287) in t;
    assert Round(t, Interval(8192, 12287), 4096, 12287) == {} + {Interval(8192, 4095)};
  }

  /** A maximal run of covered addresses is a node. */
  lemma RunIsNode(t: Tree, m: Interval)
    requires Canonical(t) && m.start <= m.last && (forall x | m.start <= x <= m.last :: Covers(t, x))
    requires !Covers(t, m.start - 1) && !Covers(t, m.last + 1)
    ensures m in t
  {
    assert Covers(t, m.start);
    var n :| n in t && n.Has(m.start);
    assert !n.Has(m.start - 1) && !n.Has(m.last + 1);
    Uncovered(t, n);
    assert n.last < m.last ==> Covers(t, n.last + 1);
  }

  /** A removal leaves the nodes it does not meet in place. */
  lemma OthersStay(t: Tree, t': Tree, a: int, b: int, m: Interval)
    requires Canonical(t) && IsDifference(t, t', a, b) && m in t && !m.Overlaps(a, b)
    ensures m in t'
  {
    Uncovered(t, m);
    forall x | m.start <= x <= m.last ensures Covers(t', x) {
      assert m.Has(x);
      assert Covers(t, x);
    }
    RunIsNode(t', m);
  }

  /** A range inside one node meets the condition for removing it. */
  lemma InsideNode(t: Tree, n: Interval, a: int, b: int)
    requires Canonical(t) && n in t && n.start <= a && b <= n.last
    ensures !StartsInside(t, a, b)
    ensures forall x | a <= x <= b :: Covers(t, x)
  {
    forall m | m in t ensures !(a < m.start <= b) {
      if m != n { assert Apart(m, n); }
    }
    forall x | a <= x <= b ensures Covers(t, x) { assert n.Has(x); }
  }
}
