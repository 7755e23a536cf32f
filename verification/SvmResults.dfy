/** What an operation returns when the steps it is made of may fail.  A log holds what each step returned: zero, or
 *  an error number. */
module SvmResults {

  predicate NoFailure(log: seq<int>, from: nat) {
    forall k | from <= k < |log| :: log[k] == 0
  }

  /** The result is zero exactly if no step since `was` has failed; otherwise it is what the last one returned, and
   *  all before it succeeded. */
  ghost predicate StopsAtFailure(was: seq<int>, log: seq<int>, res: int) {
    && was <= log
    && (res == 0 <==> NoFailure(log, |was|))
    && (res != 0 ==> |was| < |log| && log[|log| - 1] == res && NoFailure(log[..|log| - 1], |was|))
  }

  /** The result is zero exactly if no step since `was` has failed; otherwise it is what the last one to fail
   *  returned. */
  ghost predicate KeepsFailure(was: seq<int>, log: seq<int>, res: int) {
    && was <= log
    && (res == 0 <==> NoFailure(log, |was|))
    && (res != 0 ==> exists k :: |was| <= k < |log| && log[k] == res && NoFailure(log, k + 1))
  }

  /** Every step from number `from` on returned what it was answered. */
  ghost predicate AsAnswered(log: seq<int>, from: nat, answers: nat -> int) {
    forall k | from <= k < |log| :: log[k] == answers(k)
  }

  lemma OneReturned(was: seq<int>, res: int)
    ensures StopsAtFailure(was, was + [res], res) && StopsAtFailure(was, was, 0)
  {
    assert (was + [res])[..|was|] == was && (was + [res])[|was|] == res;
  }

  /** After a part that succeeded, what the rest returns counts. */
  lemma StopsLater(a: seq<int>, b: seq<int>, c: seq<int>, res: int)
    requires StopsAtFailure(a, b, 0) && StopsAtFailure(b, c, res)
    ensures StopsAtFailure(a, c, res) && a <= b <= c
  {
    forall k | |a| <= k < |b| ensures c[k] == 0 { assert c[k] == b[k]; }
    if res != 0 {
      var d := c[..|c| - 1];
      forall k | |a| <= k < |d| ensures d[k] == 0 { assert k >= |b| ==> d[k] == c[..|c| - 1][k]; }
    }
  }

  /** After other parts, a part's failure replaces the earlier one. */
  lemma KeepsLater(a: seq<int>, b: seq<int>, c: seq<int>, res: int, r: int)
    requires KeepsFailure(a, b, res) && StopsAtFailure(b, c, r)
    ensures KeepsFailure(a, c, if r != 0 then r else res) && a <= b <= c
  {
    forall k | |a| <= k < |b| ensures c[k] == b[k] { }
    if r != 0 {
      assert NoFailure(c, |c| - 1 + 1);
    } else if res != 0 {
      var k :| |a| <= k < |b| && b[k] == res && NoFailure(b, k + 1);
      forall j | k + 1 <= j < |c| ensures c[j] == 0 { if j < |b| { assert c[j] == b[j]; } }
      assert c[k] == res && NoFailure(c, k + 1);
    }
  }

  lemma KeepsOn(a: seq<int>, b: seq<int>, c: seq<int>, res: int, r: int)
    requires KeepsFailure(a, b, res) && KeepsFailure(b, c, r)
    ensures KeepsFailure(a, c, if r != 0 then r else res) && a <= b <= c
  {
    forall k | |a| <= k < |b| ensures c[k] == b[k] { }
    if r != 0 {
      var k :| |b| <= k < |c| && c[k] == r && NoFailure(c, k + 1);
    } else if res != 0 {
      var k :| |a| <= k < |b| && b[k] == res && NoFailure(b, k + 1);
      forall j | k + 1 <= j < |c| ensures c[j] == 0 { if j < |b| { assert c[j] == b[j]; } }
      assert c[k] == res && NoFailure(c, k + 1);
    }
  }

  lemma AnsweredOn(a: seq<int>, b: seq<int>, c: seq<int>, answers: nat -> int)
    requires a <= b <= c && AsAnswered(b, |a|, answers) && AsAnswered(c, |b|, answers)
    ensures AsAnswered(c, |a|, answers)
  {
    forall k | |a| <= k < |c| ensures c[k] == answers(k) { if k < |b| { assert c[k] == b[k]; } }
  }

  lemma NothingReturned(log: seq<int>, answers: nat -> int)
    ensures StopsAtFailure(log, log, 0) && KeepsFailure(log, log, 0) && AsAnswered(log, |log|, answers)
  {
  }

  lemma AnsweredNext(a: seq<int>, b: seq<int>, res: int, answers: nat -> int)
    requires a <= b && AsAnswered(b, |a|, answers) && res == answers(|b|)
    ensures AsAnswered(b + [res], |a|, answers)
  {
  }

  lemma AnsweredOne(was: seq<int>, answers: nat -> int)
    ensures var res := answers(|was|);
      StopsAtFailure(was, was + [res], res) && AsAnswered(was + [res], |was|, answers)
  {
    OneReturned(was, answers(|was|));
  }

  lemma ReturnedOn(a: seq<int>, b: seq<int>, c: seq<int>, res: int, answers: nat -> int)
    requires StopsAtFailure(a, b, 0) && AsAnswered(b, |a|, answers)
    requires StopsAtFailure(b, c, res) && AsAnswered(c, |b|, answers)
    ensures StopsAtFailure(a, c, res) && AsAnswered(c, |a|, answers)
  {
    StopsLater(a, b, c, res);
    AnsweredOn(a, b, c, answers);
  }

  /** One more step after those that succeeded. */
  lemma OneMoreAnswer(a: seq<int>, b: seq<int>, answers: nat -> int)
    requires StopsAtFailure(a, b, 0) && AsAnswered(b, |a|, answers)
    ensures var res := answers(|b|); StopsAtFailure(a, b + [res], res) && AsAnswered(b + [res], |a|, answers)
  {
    AnsweredOne(b, answers);
    ReturnedOn(a, b, b + [answers(|b|)], answers(|b|), answers);
  }
}
