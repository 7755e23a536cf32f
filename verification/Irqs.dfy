/** Interrupt registration and dispatch through per-controller entry points.
 *
 *  Registered interrupts form one list, sorted by number.  Each interrupt controller keeps a pointer to its
 *  first registered interrupt, so that its handler need not walk the whole list.  Entries are named by their
 *  number here; a status word is the sequence of its 32 bits, lowest first.
 */
module Irqs {
  import opened Common

  const DIRECT := 4
  const PER_CONTROLLER := 32
  const CONTROLLERS := 4

  function ControllerOf(irq: nat): int {
    (irq - DIRECT) / PER_CONTROLLER
  }

  predicate Ascending(list: seq<nat>) {
    forall i, j | 0 <= i < j < |list| :: list[i] < list[j]
  }

  predicate Belongs(irq: nat, c: nat) {
    irq >= DIRECT && ControllerOf(irq) == c
  }

  /** The lowest registered interrupt of controller `c`, or none. */
  predicate IsFirst(list: seq<nat>, c: nat, first: Option<nat>) {
    match first
    case None => forall i | 0 <= i < |list| :: !Belongs(list[i], c)
    case Some(irq) => irq in list && Belongs(irq, c) && forall i | 0 <= i < |list| && Belongs(list[i], c) ::
        irq <= list[i]
  }

  ghost predicate Indexed(list: seq<nat>, mapping: seq<Option<nat>>) {
    && Ascending(list)
    && (forall i | 0 <= i < |list| :: list[i] < DIRECT + CONTROLLERS * PER_CONTROLLER)
    && |mapping| == CONTROLLERS
    && forall c | 0 <= c < CONTROLLERS :: IsFirst(list, c, mapping[c])
  }

  /** Where a new interrupt goes. */
  function Place(list: seq<nat>, irq: nat): (k: nat)
    ensures k <= |list| && (forall i | 0 <= i < k :: list[i] <= irq) && (k < |list| ==> list[k] > irq)
  {
    if list == [] || list[0] > irq then 0 else
      var k := Place(list[1..], irq);
      assert forall i | 0 < i < k + 1 :: list[i] == list[1..][i - 1];
      k + 1
  }

  function Inserted(list: seq<nat>, irq: nat): seq<nat> {
    var k := Place(list, irq);
    list[..k] + [irq] + list[k..]
  }

  lemma InsertedAscending(list: seq<nat>, irq: nat)
    requires Ascending(list) && irq !in list
    ensures Ascending(Inserted(list, irq)) && forall x :: x in Inserted(list, irq) <==> x in list || x == irq
  {
    var k := Place(list, irq);
    hide Place;
    assert list == list[..k] + list[k..];
    forall i | 0 <= i < k ensures list[i] < irq { assert list[i] in list; }
    forall i | k <= i < |list| ensures list[i] > irq { if i > k { assert list[k] < list[i]; } }
    Between(list, k, irq);
  }

  lemma Between(list: seq<nat>, k: nat, irq: nat)
    requires Ascending(list) && k <= |list| && (forall i | 0 <= i < k :: list[i] < irq)
        && (forall i | k <= i < |list| :: list[i] > irq)
    ensures Ascending(list[..k] + [irq] + list[k..])
  {
    var r := list[..k] + [irq] + list[k..];
    forall i, j | 0 <= i < j < |r| ensures r[i] < r[j] {
      assert r[i] == if i < k then list[i] else if i == k then irq else list[i - 1];
      assert r[j] == if j < k then list[j] else if j == k then irq else list[j - 1];
    }
  }

  lemma InRange(irq: nat)
    requires irq < DIRECT + CONTROLLERS * PER_CONTROLLER && irq >= DIRECT
    ensures 0 <= ControllerOf(irq) < CONTROLLERS
  {
  }

  class IrqTable {
    var list: seq<nat>
    var mapping: seq<Option<nat>>

    ghost predicate Valid()
      reads this
    {
      Indexed(list, mapping)
    }

    constructor ()
      ensures Valid() && list == []
    {
      list := [];
      mapping := seq(CONTROLLERS, _ => None);
    }

    /** Adds an interrupt unless it is taken; the list stays sorted and the entry points stay lowest. */
    method Register(irq: nat) returns (ok: bool)
      requires Valid() && irq < DIRECT + CONTROLLERS * PER_CONTROLLER
      modifies this
      ensures Valid() && ok == (irq !in old(list))
      ensures list == if ok then Inserted(old(list), irq) else old(list)
    {
      var i := 0;
      while i < |list|
        invariant 0 <= i <= |list| && irq !in list[..i]
      {
        if list[i] == irq {
          return false;
        }
        i := i + 1;
      }
      RequestPlatformIrq(irq);
      InsertedAscending(list, irq);
      EntryAdded(old(list), old(mapping), irq, mapping);
      var k := 0;
      while k < |list| && list[k] <= irq
        invariant 0 <= k <= |list|
        invariant forall i | 0 <= i < k :: list[i] <= irq
      {
        k := k + 1;
      }
      assert k == Place(list, irq);
      list := list[..k] + [irq] + list[k..];
      ok := true;
    }

    /** The entry point of the controller moves to the new interrupt if that is lower. */
    method RequestPlatformIrq(irq: nat)
      requires |mapping| == CONTROLLERS && irq < DIRECT + CONTROLLERS * PER_CONTROLLER
      modifies this`mapping
      ensures mapping == NewMapping(old(mapping), irq)
    {
      if irq >= DIRECT {
        var c := ControllerOf(irq);
        if mapping[c].None? {
          mapping := mapping[c := Some(irq)];
        } else if mapping[c].value > irq {
          mapping := mapping[c := Some(irq)];
        }
      }
    }

    /** The entry point of the controller moves on to the next interrupt of the list, if that is one of its own. */
    method ReleasePlatformIrq(i: nat)
      requires Valid() && i < |list|
      modifies this`mapping
      ensures mapping == LessMapping(old(mapping), list, i)
    {
      var irq := list[i];
      if irq >= DIRECT {
        var c := ControllerOf(irq);
        InRange(irq);
        if mapping[c].Some? && mapping[c].value == irq {
          if i + 1 < |list| {
            if (list[i + 1] - DIRECT) / PER_CONTROLLER == c {
              mapping := mapping[c := Some(list[i + 1])];
            } else {
              mapping := mapping[c := None];
            }
          } else {
            mapping := mapping[c := None];
          }
        }
      }
    }

    /** Closing the control file releases every interrupt, from the front; the entry points are right after
     *  each of them. */
    method ReleaseAll()
      requires Valid()
      modifies this
      ensures Valid() && list == [] && forall c | 0 <= c < CONTROLLERS :: mapping[c] == None
    {
      while list != []
        invariant Valid()
        decreases |list|
      {
        EntryRemoved(list, mapping);
        ReleasePlatformIrq(0);
        list := list[1..];
      }
    }

    /** One pass of the handler of controller `c` over a status word: exactly the registered set bits are signalled,
     *  lowest first, once each. */
    method Dispatch(c: nat, word: seq<bool>) returns (signalled: seq<nat>)
      requires Valid() && c < CONTROLLERS && |word| == PER_CONTROLLER
      ensures Ascending(signalled)
      ensures forall n: nat :: n in signalled <==> n in list && BitOf(word, n - (c * PER_CONTROLLER + DIRECT))
    {
      signalled := [];
      var start := c * PER_CONTROLLER + DIRECT;
      assert IsFirst(list, c, mapping[c]);
      if mapping[c].None? {
        NobodyThere(list, c, word);
        return;
      }
      var pos: nat := IndexOf(list, mapping[c].value);
      FirstIsBehind(list, c, pos);
      var status := word;
      ghost var done: nat := 0;
      while true in status
        invariant done <= PER_CONTROLLER && |status| == PER_CONTROLLER && pos < |list|
        invariant forall k | 0 <= k < PER_CONTROLLER :: status[k] == (k >= done && word[k])
        invariant forall j | 0 <= j < pos :: list[j] < done + start
        invariant Told(list, start, word, done, signalled)
        decreases PER_CONTROLLER - done
      {
        var slot := FindFirstSet(status);
        ghost var pos0: nat := pos;
        while list[pos] < slot + start && pos + 1 < |list|
          invariant pos0 <= pos < |list|
          invariant forall j | 0 <= j < pos :: list[j] < slot + start
          decreases |list| - pos
        {
          pos := pos + 1;
        }
        Found(list, pos, slot + start);
        ToldOne(list, start, word, done, signalled, slot);
        if list[pos] == slot + start {
          signalled := signalled + [list[pos]];
        }
        status := status[slot := false];
        done := slot + 1;
      }
      ToldAll(list, start, word, done, signalled);
    }
  }

  // ---- The entry points ----

  function NewMapping(mapping: seq<Option<nat>>, irq: nat): seq<Option<nat>>
    requires |mapping| == CONTROLLERS && irq < DIRECT + CONTROLLERS * PER_CONTROLLER
  {
    if irq < DIRECT then mapping
    else
      var c := ControllerOf(irq);
      if mapping[c].None? || mapping[c].value > irq then mapping[c := Some(irq)] else mapping
  }

  lemma EntryAdded(list: seq<nat>, mapping: seq<Option<nat>>, irq: nat, mapping': seq<Option<nat>>)
    requires Indexed(list, mapping) && irq !in list && irq < DIRECT + CONTROLLERS * PER_CONTROLLER
        && mapping' == NewMapping(mapping, irq)
    ensures Indexed(Inserted(list, irq), mapping')
  {
    InsertedAscending(list, irq);
    var r := Inserted(list, irq);
    hide Inserted;
    forall i | 0 <= i < |r| ensures r[i] < DIRECT + CONTROLLERS * PER_CONTROLLER { assert r[i] in r; }
    forall c | 0 <= c < CONTROLLERS ensures IsFirst(r, c, mapping'[c]) {
      assert IsFirst(list, c, mapping[c]);
      FirstAdded(list, r, irq, c, mapping[c]);
    }
  }

  lemma FirstAdded(list: seq<nat>, r: seq<nat>, irq: nat, c: nat, first: Option<nat>)
    requires IsFirst(list, c, first) && forall x :: x in r <==> x in list || x == irq
    ensures IsFirst(r, c, if Belongs(irq, c) && (first.None? || first.value > irq) then Some(irq) else first)
  {
    assert irq in r;
    forall i | 0 <= i < |r| && Belongs(r[i], c) ensures (first.Some? && first.value <= r[i]) || r[i] == irq {
      assert r[i] in r;
      if r[i] != irq {
        var j :| 0 <= j < |list| && list[j] == r[i];
        assert Belongs(list[j], c);
      }
    }
  }

  function LessMapping(mapping: seq<Option<nat>>, list: seq<nat>, i: nat): seq<Option<nat>>
    requires Indexed(list, mapping) && i < |list|
  {
    var irq := list[i];
    if irq < DIRECT then mapping
    else
      InRange(irq);
      var c := ControllerOf(irq);
      if mapping[c] != Some(irq) then mapping
      else if i + 1 < |list| && ControllerOf(list[i + 1]) == c then mapping[c := Some(list[i + 1])]
      else mapping[c := None]
  }

  /** Removing the front of the list. */
  lemma EntryRemoved(list: seq<nat>, mapping: seq<Option<nat>>)
    requires Indexed(list, mapping) && list != []
    ensures Indexed(list[1..], LessMapping(mapping, list, 0))
  {
    var r, m := list[1..], LessMapping(mapping, list, 0);
    forall c | 0 <= c < CONTROLLERS ensures IsFirst(r, c, m[c]) {
      assert IsFirst(list, c, mapping[c]);
      FrontGone(list, c, mapping[c]);
    }
  }

  lemma FrontGone(list: seq<nat>, c: nat, first: Option<nat>)
    requires Ascending(list) && list != [] && IsFirst(list, c, first)
    ensures IsFirst(list[1..], c,
      if !Belongs(list[0], c) then first
      else if |list| > 1 && ControllerOf(list[1]) == c then Some(list[1]) else None)
    ensures Belongs(list[0], c) ==> first == Some(list[0])
  {
    var r := list[1..];
    assert list == [list[0]] + r;
    forall i | 0 <= i < |r| ensures r[i] == list[i + 1] && list[0] < r[i]
        && list[1] <= r[i] { if i > 0 { assert list[1] < list[i + 1]; } }
    if Belongs(list[0], c) && !(|list| > 1 && ControllerOf(list[1]) == c) {
      forall i | 0 <= i < |r| ensures !Belongs(r[i], c) {
        Monotone(list[0], list[1], r[i]);
      }
    }
  }

  /** Controllers are ranges of interrupt numbers. */
  lemma Monotone(a: nat, b: nat, d: nat)
    requires a <= b <= d
    ensures ControllerOf(a) <= ControllerOf(b) <= ControllerOf(d)
  {
  }

  // ---- Dispatch ----

  predicate BitOf(word: seq<bool>, k: int) {
    0 <= k < |word| && word[k]
  }

  lemma NobodyThere(list: seq<nat>, c: nat, word: seq<bool>)
    requires IsFirst(list, c, None) && |word| == PER_CONTROLLER
    ensures forall n: nat | n in list :: !BitOf(word, n - (c * PER_CONTROLLER + DIRECT))
  {
    forall n: nat | n in list ensures !BitOf(word, n - (c * PER_CONTROLLER + DIRECT)) {
      var i :| 0 <= i < |list| && list[i] == n;
      assert !Belongs(list[i], c);
      OneRange(n, c);
    }
  }

  lemma OneRange(n: nat, c: nat)
    ensures Belongs(n, c) <==> 0 <= n - (c * PER_CONTROLLER + DIRECT) < PER_CONTROLLER
  {
  }

  method IndexOf(list: seq<nat>, irq: nat) returns (i: nat)
    requires irq in list
    ensures i < |list| && list[i] == irq
  {
    i := 0;
    while list[i] != irq
      invariant 0 <= i < |list| && irq in list[i..]
      decreases |list| - i
    {
      i := i + 1;
    }
  }

  /** Everything before a controller's first interrupt lies below its range. */
  lemma FirstIsBehind(list: seq<nat>, c: nat, pos: nat)
    requires Ascending(list) && pos < |list| && IsFirst(list, c, Some(list[pos]))
    ensures forall j | 0 <= j < pos :: list[j] < c * PER_CONTROLLER + DIRECT
  {
    forall j | 0 <= j < pos ensures list[j] < c * PER_CONTROLLER + DIRECT {
      assert list[j] < list[pos];
      assert !Belongs(list[j], c);
      OneRange(list[j], c);
      OneRange(list[pos], c);
    }
  }

  method FindFirstSet(status: seq<bool>) returns (slot: nat)
    requires true in status
    ensures slot < |status| && status[slot] && forall k | 0 <= k < slot :: !status[k]
  {
    slot := 0;
    while !status[slot]
      invariant slot < |status| && true in status[slot..] && forall k | 0 <= k < slot :: !status[k]
      decreases |status| - slot
    {
      slot := slot + 1;
    }
  }

  /** Having walked past all lower entries, the number is in the list exactly if it is here. */
  lemma Found(list: seq<nat>, pos: nat, n: int)
    requires Ascending(list) && pos < |list| && (forall j | 0 <= j < pos :: list[j] < n)
        && (list[pos] >= n || pos + 1 == |list|)
    ensures (exists j | 0 <= j < |list| :: list[j] == n) <==> list[pos] == n
  {
    forall j | pos < j < |list| ensures list[j] > n { assert list[pos] < list[j]; }
  }

  /** What has been signalled when the first `done` bits are handled. */
  ghost predicate Told(list: seq<nat>, start: int, word: seq<bool>, done: nat, signalled: seq<nat>) {
    && Ascending(signalled)
    && (forall n: nat :: n in signalled <==> n in list && n - start < done && BitOf(word, n - start))
  }

  lemma ToldOne(list: seq<nat>, start: nat, word: seq<bool>, done: nat, signalled: seq<nat>, slot: nat)
    requires Told(list, start, word, done, signalled) && done <= slot < |word| && word[slot]
    requires forall k | done <= k < slot :: !word[k]
    ensures (exists j | 0 <= j < |list| :: list[j] == slot + start) ==>
        Told(list, start, word, slot + 1, signalled + [slot + start])
    ensures !(exists j | 0 <= j < |list| :: list[j] == slot + start) ==> Told(list, start, word, slot + 1, signalled)
  {
    forall i | 0 <= i < |signalled| ensures signalled[i] < slot + start { assert signalled[i] in signalled; }
    forall k: int ensures k < slot + 1 && BitOf(word, k) <==> (k < done && BitOf(word, k)) || k == slot { }
    if exists j | 0 <= j < |list| :: list[j] == slot + start {
      var j :| 0 <= j < |list| && list[j] == slot + start;
      assert list[j] in list;
      assert Ascending(signalled + [slot + start]);
    }
  }

  lemma ToldAll(list: seq<nat>, start: nat, word: seq<bool>, done: nat, signalled: seq<nat>)
    requires Told(list, start, word, done, signalled) && forall k | done <= k < |word| :: !word[k]
    ensures forall n: nat :: n in signalled <==> n in list && BitOf(word, n - start)
  {
  }
}
