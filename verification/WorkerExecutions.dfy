/**
 What becomes of an inserted candidate. Every insertion of something that is not yet a
 candidate leads to exactly one execution, and inserting a known candidate adds none.
 */
module WorkerExecutions {
  import opened Pools
  import opened Tasks
  import opened WorkerProtocol
  import opened WorkerDrain

  /** A liquidatable account or a conditional swap. */
  datatype Item = LiqItem(account: Pubkey) | TcsItem(swap: Tcs)

  predicate Candidate(s: System, x: Item) {
    match x
    case LiqItem(account) => account in s.shared.liq.candidates
    case TcsItem(swap) => swap in s.shared.tcs.candidates
  }

  predicate Inserting(a: Action, x: Item) {
    match x
    case LiqItem(account) => a == InsertLiq(account)
    case TcsItem(swap) => a == InsertTcs(swap)
  }

  predicate Includes(t: Task, x: Item) {
    match x
    case LiqItem(account) => t == Liquidation(account)
    case TcsItem(swap) => t.TakeTcs? && swap in t.batch
  }

  /** The step in which a worker executes a task with `x` in it. */
  predicate Executing(s: System, a: Action, x: Item)
    requires Enabled(s, a)
  {
    a.Execute? && Includes(s.workers[a.w].task, x)
  }

  /** The step in which a worker takes `x` off the books. */
  predicate Finalizing(s: System, a: Action, x: Item)
    requires Enabled(s, a)
  {
    a.Finalize? && Includes(s.workers[a.w].task, x)
  }

  /** A worker has executed `x` and has not taken it off the books yet. */
  ghost predicate BeingFinished(s: System, x: Item) {
    exists w :: 0 <= w < |s.workers| && s.workers[w].Finishing? && Includes(s.workers[w].task, x)
  }

  /** Still to be executed. */
  ghost predicate Due(s: System, x: Item) {
    Candidate(s, x) && !BeingFinished(s, x)
  }

  function One(b: bool): nat {
    if b then 1 else 0
  }

  function Executions(s: System, run: seq<Action>, x: Item): nat
    requires ValidRun(s, run)
    decreases |run|
  {
    if run == [] then 0
    else One(Executing(s, run[0], x)) + Executions(Step(s, run[0]), run[1..], x)
  }

  /** How often `x` is inserted while it is no candidate. */
  function Additions(s: System, run: seq<Action>, x: Item): nat
    requires ValidRun(s, run)
    decreases |run|
  {
    if run == [] then 0
    else One(Inserting(run[0], x) && !Candidate(s, x)) + Additions(Step(s, run[0]), run[1..], x)
  }

  // ---------- one step ----------

  lemma {:induction false} HeldIsCandidate(s: System, w: nat, x: Item)
    requires Exclusive(s) && w < |s.workers| && Includes(HeldTask(s.workers[w]), x)
    ensures Candidate(s, x)
  {
    HeldIsProcessed(s, w);
    match x
    case LiqItem(account) => assert account in Elements(Liquidations(HeldTask(s.workers[w])));
    case TcsItem(swap) => assert swap in Elements(Swaps(HeldTask(s.workers[w])));
  }

  lemma {:induction false} HeldByOne(s: System, v: nat, w: nat, x: Item)
    requires Exclusive(s) && v < |s.workers| && w < |s.workers|
    requires Includes(HeldTask(s.workers[v]), x) && Includes(HeldTask(s.workers[w]), x)
    ensures v == w
  {
    match x
    case LiqItem(account) =>
      assert account in LiqHeld(s.workers)[v] && account in LiqHeld(s.workers)[w];
    case TcsItem(swap) =>
      assert swap in TcsHeld(s.workers)[v] && swap in TcsHeld(s.workers)[w];
  }

  /**
   A step makes `x` a candidate exactly by inserting it, and only the worker that holds
   `x` removes it, when it finalizes.
   */
  lemma {:induction false} StepCandidate(s: System, a: Action, x: Item)
    requires Enabled(s, a)
    ensures Candidate(Step(s, a), x) <==> Inserting(a, x) || (Candidate(s, x) && !Finalizing(s, a, x))
  {
    if a.Finalize? {
      var t := s.workers[a.w].task;
      WithoutMembers(s.shared.liq.candidates, Elements(Liquidations(t)));
      WithoutMembers(s.shared.tcs.candidates, Elements(Swaps(t)));
    }
  }

  /** A worker starts finishing by executing, and keeps its task until it finalizes. */
  lemma {:induction false} FinishingAfter(s: System, a: Action, v: nat)
    requires Enabled(s, a) && v < |s.workers|
    ensures var s' := Step(s, a);
            && |s'.workers| == |s.workers|
            && (s'.workers[v].Finishing? <==> a == Execute(v) || (s.workers[v].Finishing? && a != Finalize(v)))
            && (s'.workers[v].Finishing? ==> s'.workers[v].task == HeldTask(s.workers[v]))
  {
  }

  lemma {:induction false} FinishedBefore(s: System, a: Action, x: Item)
    requires Exclusive(s) && Enabled(s, a) && BeingFinished(Step(s, a), x)
    ensures Executing(s, a, x) || (BeingFinished(s, x) && !Finalizing(s, a, x))
  {
    var s' := Step(s, a);
    var v :| 0 <= v < |s'.workers| && s'.workers[v].Finishing? && Includes(s'.workers[v].task, x);
    FinishingAfter(s, a, v);
    if Finalizing(s, a, x) {
      HeldByOne(s, v, a.w, x);
    }
  }

  lemma {:induction false} FinishedStill(s: System, a: Action, x: Item)
    requires Enabled(s, a) && (Executing(s, a, x) || (BeingFinished(s, x) && !Finalizing(s, a, x)))
    ensures BeingFinished(Step(s, a), x)
  {
    var v :| 0 <= v < |s.workers| && Includes(HeldTask(s.workers[v]), x)
             && (a == Execute(v) || (s.workers[v].Finishing? && a != Finalize(v)));
    FinishingAfter(s, a, v);
  }

  lemma {:induction false} StepBeingFinished(s: System, a: Action, x: Item)
    requires Exclusive(s) && Enabled(s, a)
    ensures BeingFinished(Step(s, a), x) <==> Executing(s, a, x) || (BeingFinished(s, x) && !Finalizing(s, a, x))
  {
    if BeingFinished(Step(s, a), x) {
      FinishedBefore(s, a, x);
    } else if Executing(s, a, x) || (BeingFinished(s, x) && !Finalizing(s, a, x)) {
      FinishedStill(s, a, x);
    }
  }

  /** What is being executed is due, and what is being finished is a candidate. */
  lemma {:induction false} ExecutingIsDue(s: System, a: Action, x: Item)
    requires Exclusive(s) && Enabled(s, a)
    ensures Executing(s, a, x) ==> Due(s, x)
    ensures Finalizing(s, a, x) ==> Candidate(s, x) && BeingFinished(s, x)
    ensures BeingFinished(s, x) ==> Candidate(s, x)
  {
    if BeingFinished(s, x) {
      var v :| 0 <= v < |s.workers| && s.workers[v].Finishing? && Includes(s.workers[v].task, x);
      HeldIsCandidate(s, v, x);
      if Executing(s, a, x) {
        HeldByOne(s, v, a.w, x);
      }
    }
    if Executing(s, a, x) {
      HeldIsCandidate(s, a.w, x);
    }
  }

  /** `x` becomes due by being added, and stops being due by being executed. */
  lemma {:induction false} StepDue(s: System, a: Action, x: Item)
    requires Exclusive(s) && Enabled(s, a)
    ensures One(Due(Step(s, a), x)) + One(Executing(s, a, x))
         == One(Due(s, x)) + One(Inserting(a, x) && !Candidate(s, x))
  {
    StepCandidate(s, a, x);
    StepBeingFinished(s, a, x);
    ExecutingIsDue(s, a, x);
  }

  // ---------- whole runs ----------

  lemma {:induction false} RunDue(s: System, run: seq<Action>, x: Item)
    requires Inv(s) && ValidRun(s, run)
    ensures Executions(s, run, x) + One(Due(After(s, run), x)) == One(Due(s, x)) + Additions(s, run, x)
    decreases |run|
  {
    if run != [] {
      StepDue(s, run[0], x);
      StepInv(s, run[0]);
      RunDue(Step(s, run[0]), run[1..], x);
    }
  }

  lemma NothingDueWhenDrained(s: System, x: Item)
    requires Drained(s)
    ensures !Candidate(s, x) && !Due(s, x)
  {
  }

  /**
   Exactly once. At every point of every run, `x` has been executed once for each time it
   was added, except that the latest addition may still be due; when the workers have come
   to rest none is.
   */
  lemma {:induction false} ExecutedOncePerAddition(maxParallel: nat, enableLiquidation: bool, run: seq<Action>, x: Item)
    requires maxParallel >= 1 && ValidRun(Init(maxParallel, enableLiquidation), run)
    ensures var s := Init(maxParallel, enableLiquidation);
            && Executions(s, run, x) <= Additions(s, run, x) <= Executions(s, run, x) + 1
            && (Additions(s, run, x) > Executions(s, run, x) ==> Candidate(After(s, run), x))
            && (Quiescent(After(s, run)) ==> Executions(s, run, x) == Additions(s, run, x))
  {
    var s := Init(maxParallel, enableLiquidation);
    InitInv(maxParallel, enableLiquidation);
    RunInv(s, run);
    RunDue(s, run, x);
    assert !Candidate(s, x);
    if Quiescent(After(s, run)) {
      QuiescentMeansDrained(After(s, run));
      NothingDueWhenDrained(After(s, run), x);
    }
  }

  ghost predicate NeverInserts(run: seq<Action>, x: Item) {
    forall i :: 0 <= i < |run| ==> !Inserting(run[i], x)
  }

  lemma {:induction false} NoAdditions(s: System, run: seq<Action>, x: Item)
    requires ValidRun(s, run) && NeverInserts(run, x)
    ensures Additions(s, run, x) == 0
    decreases |run|
  {
    if run != [] {
      assert forall i :: 0 <= i < |run[1..]| ==> run[1..][i] == run[i + 1];
      NoAdditions(Step(s, run[0]), run[1..], x);
    }
  }

  /**
   After an insertion, whatever the state it happens in. The inserted `x` is a candidate.
   If the workers come to rest with no further insertion of `x`, then `x` has been executed
   since the insertion, exactly once, if and only if no worker had just executed it and was
   about to take it off the books.
   */
  lemma {:induction false} InsertedIsExecuted(s: System, a: Action, tail: seq<Action>, x: Item)
    requires Inv(s) && Enabled(s, a) && Inserting(a, x) && ValidRun(Step(s, a), tail)
    ensures Candidate(Step(s, a), x)
    ensures Quiescent(After(Step(s, a), tail)) && !BeingFinished(s, x) ==> Executions(Step(s, a), tail, x) >= 1
    ensures Quiescent(After(Step(s, a), tail)) && NeverInserts(tail, x) ==>
              Executions(Step(s, a), tail, x) == if BeingFinished(s, x) then 0 else 1
  {
    var s' := Step(s, a);
    StepCandidate(s, a, x);
    StepBeingFinished(s, a, x);
    StepInv(s, a);
    if Quiescent(After(s', tail)) {
      RunInv(s', tail);
      QuiescentMeansDrained(After(s', tail));
      NothingDueWhenDrained(After(s', tail), x);
      RunDue(s', tail, x);
      if NeverInserts(tail, x) {
        NoAdditions(s', tail, x);
      }
    }
  }

  /** A candidate stays one until the step in which the worker that executed it finalizes it. */
  lemma {:induction false} CandidateUntilFinalized(s: System, run: seq<Action>, x: Item) returns (i: nat)
    requires Inv(s) && ValidRun(s, run) && Candidate(s, x) && !Candidate(After(s, run), x)
    ensures i < |run| && run[i].Finalize? && ValidRun(s, run[..i])
    ensures var t := After(s, run[..i]);
            Enabled(t, run[i]) && Candidate(t, x) && Finalizing(t, run[i], x)
    decreases |run|
  {
    StepCandidate(s, run[0], x);
    if Candidate(Step(s, run[0]), x) {
      StepInv(s, run[0]);
      var j := CandidateUntilFinalized(Step(s, run[0]), run[1..], x);
      i := j + 1;
      assert run[..i][1..] == run[1..][..j];
    } else {
      i := 0;
    }
  }

  /** One worker that has executed `account` and not finalized yet. */
  function JustExecuted(account: Pubkey): System {
    System(Shared(Pool([account], {account}), Pool([], {})), 0, 0, 0, 0, [Finishing(Liquidation(account))], false)
  }

  function FirstExecution(account: Pubkey): seq<Action> {
    [InsertLiq(account), SendLiq, RecvLiq(0), Pull(0), Execute(0)]
  }

  lemma {:induction false} WokenWithOne(account: Pubkey)
    ensures var s := System(Shared(Pool([account], {}), Pool([], {})), 0, 0, 0, 0, [Woken], false);
            ValidRun(s, [Pull(0), Execute(0)]) && After(s, [Pull(0), Execute(0)]) == JustExecuted(account)
  {
    var s := System(Shared(Pool([account], {}), Pool([], {})), 0, 0, 0, 0, [Woken], false);
    WithoutNone([account]);
    assert Unclaimed(s.shared.liq) == [account];
    assert Elements([account]) == {account};
    var s' := Step(s, Pull(0));
    assert s' == System(Shared(Pool([account], {account}), Pool([], {})), 0, 0, 0, 0,
                        [Phase.Executing(Liquidation(account))], false);
    assert [Pull(0), Execute(0)][1..] == [Execute(0)];
    assert Step(s', Execute(0)) == JustExecuted(account);
  }

  lemma {:induction false} FirstExecutionReaches(account: Pubkey)
    ensures ValidRun(Init(1, true), FirstExecution(account))
    ensures After(Init(1, true), FirstExecution(account)) == JustExecuted(account)
  {
    var past := FirstExecution(account);
    var s1 := Step(Init(1, true), InsertLiq(account));
    var s2 := Step(s1, SendLiq);
    var s3 := Step(s2, RecvLiq(0));
    WokenWithOne(account);
    assert s3 == System(Shared(Pool([account], {}), Pool([], {})), 0, 0, 0, 0, [Woken], false);
    assert past[1..][1..][1..] == [Pull(0), Execute(0)];
    assert ValidRun(s2, past[1..][1..]) && After(s2, past[1..][1..]) == JustExecuted(account);
    assert ValidRun(s1, past[1..]) && After(s1, past[1..]) == JustExecuted(account);
  }

  /**
   The exception is real: an account inserted again between its execution and the end of
   that task is a candidate at that moment, yet it is dropped without another execution.
   */
  lemma {:induction false} ReinsertedIsDropped(account: Pubkey)
    ensures ValidRun(Init(1, true), FirstExecution(account))
    ensures var s := Step(After(Init(1, true), FirstExecution(account)), InsertLiq(account));
            && Candidate(s, LiqItem(account))
            && ValidRun(s, [Finalize(0)]) && Drained(After(s, [Finalize(0)]))
            && Executions(s, [Finalize(0)], LiqItem(account)) == 0
  {
    FirstExecutionReaches(account);
    var s := JustExecuted(account);
    assert Step(s, InsertLiq(account)) == s;
    NothingClaimedOrReleased(s.shared.tcs);
    WithoutAll([account], Elements([account]));
    assert Elements([account]) == {account};
    assert Step(s, Finalize(0)).shared == Shared(Pool([], {}), Pool([], {}));
    assert After(s, [Finalize(0)]) == Step(s, Finalize(0));
  }
}
