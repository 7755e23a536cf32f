/** The lock-free pool of a fixed number of things.
 *
 *  `get` draws indices from `curr` with fetch-and-add until test-and-set of the lock succeeds or the index
 *  is out of range.  `put` clears the lock and lowers `curr` to its index with compare-and-swap, unless
 *  `curr` is already at or below it.  Each atomic operation is one step here; any number of threads
 *  interleave.  An index that `get` returned may be put back by any thread.
 */
module FixedSizePool {

  const WORD := 0x1_0000_0000

  /** The index `get` returns when the pool is empty: all ones in 32 bits. */
  const INVALID := WORD - 1

  /** The atomic operation a thread performs next; `Returned` holds the result of its last call. */
  datatype Pc =
    | Idle
    | Fetch
    | Test(i: nat)
    | AddRef(i: nat)
    | SubRef(i: nat)
    | Clear(i: nat)
    | Read(i: nat)
    | Cas(i: nat, seen: nat)
    | Returned(result: nat)
    | AssertionFailed

  /** Who owns an index; kept for the proofs only.  `Granted` is between a get and the matching put. */
  datatype Owner = Nobody | Thread(t: nat) | Granted

  /** `asserting` says whether the build has assertions: the reference count is raised inside one. */
  datatype State = State(asserting: bool, locked: seq<bool>, refcnt: seq<int>, curr: nat, owner: seq<Owner>,
      threads: seq<Pc>) {
    function Goto(t: nat, pc: Pc): State
      requires t < |threads|
    {
      this.(threads := threads[t := pc])
    }
  }

  datatype Action = BeginGet(t: nat) | BeginPut(t: nat, i: nat) | Step(t: nat)

  predicate Shaped(s: State) {
    |s.locked| == |s.refcnt| == |s.owner| && |s.locked| < WORD
  }

  predicate Init(s: State) {
    && Shaped(s)
    && (forall i | 0 <= i < |s.locked| :: !s.locked[i] && s.refcnt[i] == 0 && s.owner[i] == Nobody)
    && s.curr == 0
    && forall t | 0 <= t < |s.threads| :: s.threads[t].Idle?
  }

  predicate Enabled(s: State, a: Action) {
    && Shaped(s)
    && match a
       case BeginGet(t) => t < |s.threads| && (s.threads[t].Idle? || s.threads[t].Returned?)
       case BeginPut(t, i) =>
         && t < |s.threads| && (s.threads[t].Idle? || s.threads[t].Returned?)
         && (i < |s.locked| ==> s.owner[i] == Granted)
       case Step(t) =>
         && t < |s.threads|
         && match s.threads[t]
            case Idle => false
            case Returned(_) => false
            case AssertionFailed => false
            case Fetch => true
            case Test(i) => i < |s.locked|
            case AddRef(i) => i < |s.locked|
            case SubRef(i) => i < |s.locked|
            case Clear(i) => i < |s.locked|
            case Read(i) => i < |s.locked|
            case Cas(i, _) => i < |s.locked|
  }

  function Grant(s: State, t: nat, i: nat): State
    requires Shaped(s) && t < |s.threads| && i < |s.locked|
  {
    s.(owner := s.owner[i := Granted]).Goto(t, Returned(i))
  }

  function StepThread(s: State, t: nat): State
    requires Enabled(s, Step(t))
  {
    match s.threads[t]
    case Fetch =>
      s.(curr := (s.curr + 1) % WORD).Goto(t, if s.curr < |s.locked| then Test(s.curr) else Returned(INVALID))
    case Test(i) =>
      if s.locked[i] then s.Goto(t, Fetch)
      else s.(locked := s.locked[i := true], owner := s.owner[i := Thread(t)]).Goto(t, AddRef(i))
    case AddRef(i) =>
      if !s.asserting then Grant(s, t, i)
      else
        var s' := s.(refcnt := s.refcnt[i := s.refcnt[i] + 1]);
        if s'.refcnt[i] < 2 then Grant(s', t, i) else s'.Goto(t, AssertionFailed)
    case SubRef(i) => s.(refcnt := s.refcnt[i := s.refcnt[i] - 1]).Goto(t, Clear(i))
    case Clear(i) => s.(locked := s.locked[i := false], owner := s.owner[i := Nobody]).Goto(t, Read(i))
    case Read(i) => s.Goto(t, if i < s.curr then Cas(i, s.curr) else Idle)
    case Cas(i, seen) => if s.curr == seen then s.(curr := i).Goto(t, Idle) else s.Goto(t, Read(i))
  }

  function Apply(s: State, a: Action): State
    requires Enabled(s, a)
  {
    match a
    case BeginGet(t) => s.Goto(t, Fetch)
    case BeginPut(t, i) =>
      if i < |s.locked| then s.(owner := s.owner[i := Thread(t)]).Goto(t, SubRef(i)) else s.Goto(t, Idle)
    case Step(t) => StepThread(s, t)
  }

  // ---- The invariant ----

  /** The thread is inside a call and has index `i` locked for itself. */
  predicate Owns(pc: Pc, i: nat) {
    pc == AddRef(i) || pc == SubRef(i) || pc == Clear(i)
  }

  /** The thread will yet test index `i`, or yet make `curr` no larger than `i`. */
  predicate Covers(pc: Pc, i: nat) {
    pc == Test(i) || pc == Read(i) || (pc.Cas? && pc.i == i)
  }

  predicate Covered(threads: seq<Pc>, i: nat) {
    exists t | 0 <= t < |threads| :: Covers(threads[t], i)
  }

  /** The reference count a build with assertions shows for an index. */
  predicate Counted(owner: Owner, threads: seq<Pc>, i: nat) {
    owner == Granted || (owner.Thread? && owner.t < |threads| && threads[owner.t] == SubRef(i))
  }

  predicate OwnerOk(owner: Owner, threads: seq<Pc>, i: nat) {
    owner.Thread? ==> owner.t < |threads| && Owns(threads[owner.t], i)
  }

  predicate IndexInv(s: State, i: nat)
    requires Shaped(s) && i < |s.locked|
  {
    && s.locked[i] == (s.owner[i] != Nobody)
    && OwnerOk(s.owner[i], s.threads, i)
    && (s.asserting ==> s.refcnt[i] == if Counted(s.owner[i], s.threads, i) then 1 else 0)
    && Reachable(s, i)
  }

  predicate Reachable(s: State, i: nat)
    requires i < |s.locked|
  {
    s.locked[i] || s.curr <= i || Covered(s.threads, i)
  }

  /** A thread's own index is in range, and it owns it when it should. */
  predicate ThreadInv(s: State, t: nat)
    requires Shaped(s) && t < |s.threads|
  {
    match s.threads[t]
    case AddRef(i) => i < |s.locked| && s.owner[i] == Thread(t)
    case SubRef(i) => i < |s.locked| && s.owner[i] == Thread(t)
    case Clear(i) => i < |s.locked| && s.owner[i] == Thread(t)
    case Test(i) => i < |s.locked|
    case Read(i) => i < |s.locked|
    case Cas(i, seen) => i < seen && i < |s.locked|
    case Returned(r) => r < |s.locked| || r == INVALID
    case AssertionFailed => false
    case _ => true
  }

  ghost predicate Inv(s: State) {
    && Shaped(s)
    && s.curr < WORD
    && (forall i | 0 <= i < |s.locked| :: IndexInv(s, i))
    && (forall t | 0 <= t < |s.threads| :: ThreadInv(s, t))
  }

  lemma StillCovered(threads: seq<Pc>, threads': seq<Pc>, t: nat, i: nat)
    requires t < |threads| && |threads'| == |threads| && threads' == threads[t := threads'[t]]
    requires Covered(threads, i) && (Covers(threads[t], i) ==> Covers(threads'[t], i))
    ensures Covered(threads', i)
  {
    var u :| 0 <= u < |threads| && Covers(threads[u], i);
    assert Covers(threads'[u], i);
  }

  lemma StepReachable(s: State, t: nat, i: nat)
    requires Enabled(s, Step(t)) && ThreadInv(s, t) && i < |s.locked| && Reachable(s, i)
    ensures var s' := StepThread(s, t); i < |s'.locked| && Reachable(s', i)
  {
    var s' := StepThread(s, t);
    if !s'.locked[i] && s'.curr > i {
      if Covers(s'.threads[t], i) {
        assert Covered(s'.threads, i);
      } else {
        StillCovered(s.threads, s'.threads, t, i);
      }
    }
  }

  lemma StepIndex(s: State, t: nat, i: nat)
    requires Inv(s) && Enabled(s, Step(t)) && i < |s.locked|
    ensures var s' := StepThread(s, t); Shaped(s') && i < |s'.locked| && IndexInv(s', i)
  {
    hide Covered, Reachable;
    assert ThreadInv(s, t) && IndexInv(s, i);
    StepReachable(s, t, i);
  }

  lemma StepOwnThread(s: State, t: nat)
    requires Inv(s) && Enabled(s, Step(t))
    ensures var s' := StepThread(s, t); Shaped(s') && t < |s'.threads| && ThreadInv(s', t)
  {
    assert ThreadInv(s, t);
    if s.threads[t].AddRef? { assert IndexInv(s, s.threads[t].i); }
  }

  lemma StepOtherThread(s: State, t: nat, u: nat)
    requires Inv(s) && Enabled(s, Step(t)) && u < |s.threads| && u != t
    ensures var s' := StepThread(s, t); Shaped(s') && u < |s'.threads| && ThreadInv(s', u)
  {
    assert ThreadInv(s, t) && ThreadInv(s, u);
    if s.threads[t].Test? { assert IndexInv(s, s.threads[t].i); }
  }

  lemma BeginInv(s: State, a: Action)
    requires Inv(s) && Enabled(s, a) && !a.Step?
    ensures Inv(Apply(s, a))
  {
    var s' := Apply(s, a);
    forall i | 0 <= i < |s'.locked| ensures IndexInv(s', i) {
      assert IndexInv(s, i);
      if !s.locked[i] && s.curr > i { StillCovered(s.threads, s'.threads, a.t, i); }
    }
    forall u | 0 <= u < |s'.threads| ensures ThreadInv(s', u) { assert ThreadInv(s, u); }
  }

  lemma StepShape(s: State, t: nat)
    requires Enabled(s, Step(t)) && s.curr < WORD
    ensures var s' := StepThread(s, t);
      Shaped(s') && |s'.locked| == |s.locked| && |s'.threads| == |s.threads| && (s.threads[t].Cas? || s'.curr < WORD)
  {
  }

  /** Every enabled action keeps the invariant. */
  lemma ApplyInv(s: State, a: Action)
    requires Inv(s) && Enabled(s, a)
    ensures Inv(Apply(s, a))
  {
    if a.Step? {
      var s' := StepThread(s, a.t);
      StepShape(s, a.t);
      hide StepThread, IndexInv, ThreadInv;
      forall i | 0 <= i < |s'.locked| ensures IndexInv(s', i) { StepIndex(s, a.t, i); }
      forall u | 0 <= u < |s'.threads| ensures ThreadInv(s', u) {
        if u == a.t { StepOwnThread(s, u); } else { StepOtherThread(s, a.t, u); }
      }
    } else {
      BeginInv(s, a);
    }
  }

  lemma InitInv(s: State)
    requires Init(s)
    ensures Inv(s)
  {
  }

  // ---- Runs ----

  ghost predicate IsRun(run: seq<State>, acts: seq<Action>) {
    && |run| == |acts| + 1
    && Init(run[0])
    && forall i | 0 <= i < |acts| :: Enabled(run[i], acts[i]) && run[i + 1] == Apply(run[i], acts[i])
  }

  /** The invariant holds in every state of every run. */
  lemma {:induction false} RunInv(run: seq<State>, acts: seq<Action>, k: nat)
    requires IsRun(run, acts) && k < |run|
    ensures Inv(run[k])
  {
    if k == 0 {
      InitInv(run[0]);
    } else {
      RunInv(run, acts, k - 1);
      assert run[k - 1 + 1] == Apply(run[k - 1], acts[k - 1]);
      hide Inv, Apply;
      ApplyInv(run[k - 1], acts[k - 1]);
    }
  }

  /** A locked index has exactly one holder: it is out on grant, or it is inside the call of one thread. */
  lemma OneHolder(run: seq<State>, acts: seq<Action>, k: nat, i: nat)
    requires IsRun(run, acts) && k < |run| && i < |run[k].locked|
    ensures |run[k].owner| == |run[k].locked|
    ensures var s := run[k];
      && (s.locked[i] <==> s.owner[i] == Granted || exists t | 0 <= t < |s.threads| :: Owns(s.threads[t], i))
      && (forall t | 0 <= t < |s.threads| && Owns(s.threads[t], i) :: s.owner[i] != Granted)
      && (forall t, u | 0 <= t < |s.threads| && 0 <= u < |s.threads| && Owns(s.threads[t], i)
          && Owns(s.threads[u], i) :: t == u)
  {
    RunInv(run, acts, k);
    var s := run[k];
    hide IsRun;
    assert IndexInv(s, i);
    forall t | 0 <= t < |s.threads| && Owns(s.threads[t], i) ensures s.owner[i] == Thread(t) {
      assert ThreadInv(s, t);
    }
    if s.owner[i].Thread? { assert Owns(s.threads[s.owner[i].t], i); }
  }

  /** `get` never hands out an index that is already out: at the moment it returns `i`, no grant of `i` and no
   *  other call on `i` is outstanding. */
  lemma GetIsExclusive(run: seq<State>, acts: seq<Action>, k: nat)
    requires IsRun(run, acts) && k < |acts| && acts[k].Step? && run[k].threads[acts[k].t].AddRef?
    ensures var s, s', t := run[k], run[k + 1], acts[k].t;
      && t < |s'.threads| && s'.threads[t] == Returned(s.threads[t].i)
      && s.threads[t].i < |s.owner| && s.owner[s.threads[t].i] == Thread(t)
      && forall u | 0 <= u < |s.threads| && u != t :: !Owns(s.threads[u], s.threads[t].i)
  {
    RunInv(run, acts, k);
    assert run[k + 1] == Apply(run[k], acts[k]);
    var s, t := run[k], acts[k].t;
    hide IsRun;
    assert ThreadInv(s, t);
    assert IndexInv(s, s.threads[t].i);
    forall u | 0 <= u < |s.threads| && u != t ensures !Owns(s.threads[u], s.threads[t].i) {
      assert ThreadInv(s, u);
    }
  }

  /** No slot is ever lost: an unlocked index is at or above `curr`, or a pending call will yet offer it. */
  lemma NoSlotLost(run: seq<State>, acts: seq<Action>, k: nat, i: nat)
    requires IsRun(run, acts) && k < |run| && i < |run[k].locked| && !run[k].locked[i]
    ensures run[k].curr <= i || Covered(run[k].threads, i)
  {
    RunInv(run, acts, k);
    assert IndexInv(run[k], i);
  }

  /** A `get` fails only at a moment when each slot is taken or in the hands of a pending call. */
  lemma GetFailsOnlyWhenTaken(run: seq<State>, acts: seq<Action>, k: nat, i: nat)
    requires IsRun(run, acts) && k < |acts| && acts[k].Step? && run[k].threads[acts[k].t].Fetch?
    requires acts[k].t < |run[k + 1].threads| && run[k + 1].threads[acts[k].t] == Returned(INVALID)
    requires i < |run[k].locked|
    ensures run[k].locked[i] || Covered(run[k].threads, i)
  {
    assert run[k + 1] == Apply(run[k], acts[k]);
    if !run[k].locked[i] {
      NoSlotLost(run, acts, k, i);
    }
  }

  /** With assertions compiled in, the reference count of an index is 1 exactly while it is out, and the
   *  assertion in `get` holds every time. */
  lemma CountsAreZeroOrOne(run: seq<State>, acts: seq<Action>, k: nat, i: nat)
    requires IsRun(run, acts) && k < |run| && run[k].asserting && i < |run[k].locked|
    ensures |run[k].refcnt| == |run[k].owner| == |run[k].locked|
    ensures 0 <= run[k].refcnt[i] <= 1
    ensures run[k].owner[i] == Granted ==> run[k].refcnt[i] == 1
    ensures !run[k].locked[i] ==> run[k].refcnt[i] == 0
    ensures forall t | 0 <= t < |run[k].threads| :: !run[k].threads[t].AssertionFailed?
  {
    RunInv(run, acts, k);
    assert IndexInv(run[k], i);
    forall t | 0 <= t < |run[k].threads| ensures !run[k].threads[t].AssertionFailed? {
      assert ThreadInv(run[k], t);
    }
  }

  /** How often the count of index `i` has been lowered in the first `k` steps. */
  ghost function Lowered(run: seq<State>, acts: seq<Action>, k: nat, i: nat): nat
    requires k <= |acts| <= |run|
  {
    if k == 0 then 0 else Lowered(run, acts, k - 1, i) + if Lowers(run[k - 1], acts[k - 1], i) then 1 else 0
  }

  predicate Lowers(s: State, a: Action, i: nat) {
    a.Step? && a.t < |s.threads| && s.threads[a.t] == SubRef(i)
  }

  /** Without assertions the increment is compiled out with them: the count is minus the number of puts. */
  lemma {:induction false} CountsFallWithPuts(run: seq<State>, acts: seq<Action>, k: nat, i: nat)
    requires IsRun(run, acts) && k < |run| && i < |run[0].refcnt|
    ensures run[k].asserting == run[0].asserting && |run[k].refcnt| == |run[0].refcnt|
    ensures !run[0].asserting ==> run[k].refcnt[i] + Lowered(run, acts, k, i) == 0
    decreases k
  {
    if k > 0 {
      CountsFallWithPuts(run, acts, k - 1, i);
      assert run[k - 1 + 1] == Apply(run[k - 1], acts[k - 1]);
    }
  }

  /** The reference count of an index is 0 or 1 exactly in a build with assertions, or as long as it has not been
   *  put back. */
  lemma CountsRightIff(run: seq<State>, acts: seq<Action>, k: nat, i: nat)
    requires IsRun(run, acts) && k < |run| && i < |run[0].refcnt|
    ensures |run[k].refcnt| == |run[0].refcnt|
    ensures 0 <= run[k].refcnt[i] <= 1 <==> run[0].asserting || Lowered(run, acts, k, i) == 0
  {
    CountsFallWithPuts(run, acts, k, i);
    if run[0].asserting {
      RunInv(run, acts, k);
      CountsAreZeroOrOne(run, acts, k, i);
    }
  }

  /** One get and one put. */
  const GET_THEN_PUT := [BeginGet(0), Step(0), Step(0), Step(0), BeginPut(0, 0), Step(0)]

  function Single(locked: bool, refcnt: int, curr: nat, owner: Owner, pc: Pc): State {
    State(false, [locked], [refcnt], curr, [owner], [pc])
  }

  /** In a pool of one without assertions, the first put leaves the count at -1. */
  lemma CountGoesNegative() returns (run: seq<State>)
    ensures IsRun(run, GET_THEN_PUT) && run[6].refcnt == [-1]
  {
    run := [Single(false, 0, 0, Nobody, Idle), Single(false, 0, 0, Nobody, Fetch), Single(false, 0, 1, Nobody, Test(0)),
            Single(true, 0, 1, Thread(0), AddRef(0)), Single(true, 0, 1, Granted, Returned(0)),
            Single(true, 0, 1, Thread(0), SubRef(0)), Single(true, -1, 1, Thread(0), Clear(0))];
    forall i | 0 <= i < 6 ensures Enabled(run[i], GET_THEN_PUT[i]) && run[i + 1] == Apply(run[i], GET_THEN_PUT[i]) {
      assert i == 0 || i == 1 || i == 2 || i == 3 || i == 4 || i == 5;
    }
  }

  // ---- Calls that run alone ----

  /** No call is pending. */
  predicate Quiescent(s: State) {
    forall t | 0 <= t < |s.threads| :: s.threads[t].Idle? || s.threads[t].Returned?
  }

  predicate Getting(s: State, t: nat) {
    && Shaped(s)
    && t < |s.threads|
    && (s.threads[t].Fetch? || (s.threads[t].Test? && s.threads[t].i < |s.locked| && s.threads[t].i + 1 == s.curr))
  }

  /** Thread `t` takes the steps of its `get` up to the lock or the failure, with nobody else moving. */
  function GetAlone(s: State, t: nat): (r: State)
    requires Getting(s, t)
    decreases |s.locked| - s.curr, if s.threads[t].Test? then 1 else 0
  {
    var s' := StepThread(s, t);
    if s.threads[t].Fetch? && s.curr >= |s.locked| then s'
    else if s.threads[t].Test? && !s.locked[s.threads[t].i] then s'
    else GetAlone(s', t)
  }

  predicate Lowest(locked: seq<bool>, i: nat) {
    i < |locked| && !locked[i] && forall j | 0 <= j < i :: locked[j]
  }

  /** From `curr` upwards, a `get` that runs alone takes the first unlocked index, and fails if there is none. */
  lemma {:induction false} GetAloneScans(s: State, t: nat)
    requires Getting(s, t) && s.threads[t].Fetch?
    ensures var s' := GetAlone(s, t);
      && t < |s'.threads|
      && (s'.threads[t].AddRef? || s'.threads[t] == Returned(INVALID))
      && (s'.threads[t].AddRef? ==>
            && var i := s'.threads[t].i;
            && s.curr <= i < |s.locked| && !s.locked[i] && (forall j | s.curr <= j < i :: s.locked[j])
            && s' == s.(locked := s.locked[i := true], owner := s.owner[i := Thread(t)], curr := i + 1).Goto(t,
                AddRef(i)))
      && (s'.threads[t] == Returned(INVALID) ==>
            && (forall j | s.curr <= j < |s.locked| :: s.locked[j])
            && s'.locked == s.locked && s'.owner == s.owner && s'.refcnt == s.refcnt)
    decreases |s.locked| - s.curr
  {
    if s.curr < |s.locked| {
      var s1 := StepThread(s, t);
      assert s1.threads[t] == Test(s.curr);
      assert GetAlone(s, t) == GetAlone(s1, t);
      var s2 := StepThread(s1, t);
      if s.locked[s.curr] {
        assert GetAlone(s1, t) == GetAlone(s2, t);
        assert s2 == s.(curr := s.curr + 1) by { assert s2.threads == s.threads; }
        GetAloneScans(s2, t);
      } else {
        assert GetAlone(s1, t) == s2;
        assert s2.threads == s.threads[t := AddRef(s.curr)];
      }
    }
  }

  /** A `get` that runs alone to its end. */
  function GetToEnd(s: State, t: nat): State
    requires Getting(s, t)
  {
    var s' := GetAlone(s, t);
    if Enabled(s', Step(t)) then StepThread(s', t) else s'
  }

  /** From a state with no call pending, a `get` that runs alone returns the lowest free index, and fails
   *  exactly when every slot is taken. */
  lemma QuiescentGet(run: seq<State>, acts: seq<Action>, k: nat, t: nat)
    requires IsRun(run, acts) && k < |run| && Quiescent(run[k]) && t < |run[k].threads|
    ensures Enabled(run[k], BeginGet(t)) && Getting(Apply(run[k], BeginGet(t)), t)
    ensures var s, s' := run[k], GetToEnd(Apply(run[k], BeginGet(t)), t);
      && |s.owner| == |s.locked| && t < |s'.threads| && s'.threads[t].Returned?
      && var i := s'.threads[t].result;
         && (i == INVALID <==> forall j | 0 <= j < |s.locked| :: s.locked[j])
         && (if i == INVALID then s'.locked == s.locked && s'.owner == s.owner
             else Lowest(s.locked, i) && s'.locked == s.locked[i := true] && s'.owner == s.owner[i := Granted])
  {
    RunInv(run, acts, k);
    var s := run[k];
    hide IsRun;
    forall i | 0 <= i < |s.locked| && i < s.curr ensures s.locked[i] {
      assert IndexInv(s, i);
      if Covered(s.threads, i) {
        assert false;
      }
    }
    var s1 := Apply(s, BeginGet(t));
    GetAloneScans(s1, t);
    var s2 := GetAlone(s1, t);
    if s2.threads[t].AddRef? {
      assert IndexInv(s, s2.threads[t].i);
      assert s2.owner[s2.threads[t].i := Granted] == s.owner[s2.threads[t].i := Granted];
    }
  }

  predicate Putting(s: State, t: nat) {
    Shaped(s) && t < |s.threads| && s.threads[t].SubRef? && s.threads[t].i < |s.locked|
  }

  /** The steps of a `put` that runs alone; its compare-and-swap, if any, succeeds the first time. */
  function PutAlone(s: State, t: nat): State
    requires Putting(s, t)
  {
    var s3 := StepThread(StepThread(StepThread(s, t), t), t);
    if s3.threads[t].Idle? then s3 else StepThread(s3, t)
  }

  /** A `put` that runs alone frees its index, brings `curr` down to it and touches nothing else. */
  lemma QuiescentPut(s: State, t: nat)
    requires Putting(s, t)
    ensures var i, s' := s.threads[t].i, PutAlone(s, t);
      && s'.locked == s.locked[i := false]
      && s'.curr == (if i < s.curr then i else s.curr)
      && s'.owner == s.owner[i := Nobody]
      && s'.threads == s.threads[t := Idle]
  {
    var s1 := StepThread(s, t);
    var s2 := StepThread(s1, t);
    var s3 := StepThread(s2, t);
    assert s3.threads == s.threads[t := s3.threads[t]];
  }
}
