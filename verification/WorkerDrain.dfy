/**
 Consequences of the worker invariant over whole runs: bounded work per candidate,
 draining, and liquidations that never wait behind slow swaps.
 */
module WorkerDrain {
  import opened Pools
  import opened Tasks
  import opened WorkerProtocol

  /** How much is left to do for a worker in a phase; giving up passes a swap token on. */
  function GeneralWeight(w: nat, p: Phase): nat {
    match p
    case Waiting => 0
    case Woken => 3
    case Executing(t) => if t.GiveUpTcs? then 6 else 2
    case Finishing(_) => 1
  }

  function ReservedWeight(w: nat, p: Phase): nat {
    if w == 0 && p.Woken? then 7 else GeneralWeight(w, p)
  }

  function Weight(s: System): (nat, Phase) -> nat {
    if s.reserved then ReservedWeight else GeneralWeight
  }

  function Measure(s: System): nat {
    9 * s.liqSends + 8 * s.liqTokens + 5 * s.tcsSends + 4 * s.tcsTokens + Total(s.workers, Weight(s))
  }

  function Inserts(run: seq<Action>): nat {
    if run == [] then 0 else (if IsInsert(run[0]) then 1 else 0) + Inserts(run[1..])
  }

  predicate NoInserts(run: seq<Action>) {
    forall i :: 0 <= i < |run| ==> !IsInsert(run[i])
  }

  /** A worker's move changes the measure by the difference of the two phases. */
  lemma {:induction false} MoveWeight(s: System, w: nat, p: Phase)
    requires w < |s.workers|
    ensures Total(s.workers[w := p], Weight(s)) + Weight(s)(w, s.workers[w]) == Total(s.workers, Weight(s)) + Weight(s)(w, p)
  {
    TotalUpdate(s.workers, Weight(s), w, p);
  }

  lemma {:induction false} WakeDecreases(s: System, w: nat, a: Action)
    requires Enabled(s, a) && (a == RecvLiq(w) || a == RecvTcs(w))
    ensures Measure(Step(s, a)) < Measure(s)
  {
    MoveWeight(s, w, Woken);
  }

  lemma {:induction false} PullDecreases(s: System, w: nat)
    requires Enabled(s, Pull(w))
    ensures Measure(Step(s, Pull(w))) < Measure(s)
  {
    MoveWeight(s, w, Executing(NextTask(s.shared, OnlyLiquidation(s, w))));
  }

  lemma {:induction false} ExecuteDecreases(s: System, w: nat)
    requires Enabled(s, Execute(w))
    ensures Measure(Step(s, Execute(w))) < Measure(s)
  {
    MoveWeight(s, w, Finishing(s.workers[w].task));
  }

  lemma {:induction false} FinalizeDecreases(s: System, w: nat)
    requires Enabled(s, Finalize(w))
    ensures Measure(Step(s, Finalize(w))) < Measure(s)
  {
    MoveWeight(s, w, Waiting);
  }

  lemma {:induction false} StepDecreases(s: System, a: Action)
    requires Enabled(s, a)
    ensures !IsInsert(a) ==> Measure(Step(s, a)) < Measure(s)
    ensures IsInsert(a) ==> Measure(Step(s, a)) <= Measure(s) + 9
  {
    match a
    case InsertLiq(_) =>
    case InsertTcs(_) =>
    case SendLiq =>
    case SendTcs =>
    case RecvLiq(w) => WakeDecreases(s, w, a);
    case RecvTcs(w) => WakeDecreases(s, w, a);
    case Pull(w) => PullDecreases(s, w);
    case Execute(w) => ExecuteDecreases(s, w);
    case Finalize(w) => FinalizeDecreases(s, w);
  }

  /** Every run is bounded: each inserted candidate costs at most ten steps in all. */
  lemma {:induction false} RunLengthBounded(s: System, run: seq<Action>)
    requires Inv(s) && ValidRun(s, run)
    ensures |run| <= Measure(s) + 10 * Inserts(run)
    decreases |run|
  {
    if run != [] {
      StepDecreases(s, run[0]);
      StepInv(s, run[0]);
      RunLengthBounded(Step(s, run[0]), run[1..]);
    }
  }

  lemma {:induction false} NoInsertsCount(run: seq<Action>)
    requires NoInserts(run)
    ensures Inserts(run) == 0
  {
    if run != [] {
      assert forall i :: 0 <= i < |run[1..]| ==> run[1..][i] == run[i + 1];
      NoInsertsCount(run[1..]);
    }
  }

  /** Nothing but a scanning job could act. */
  ghost predicate Quiescent(s: System) {
    forall a :: Enabled(s, a) ==> IsInsert(a)
  }

  ghost predicate Drained(s: System) {
    && s.shared.liq == Pool([], {})
    && s.shared.tcs == Pool([], {})
    && s.liqTokens == s.tcsTokens == s.liqSends == s.tcsSends == 0
    && forall w :: 0 <= w < |s.workers| ==> s.workers[w] == Waiting
  }

  /** Workers only come to rest when all work is done: no candidate is ever stranded. */
  lemma QuiescentMeansDrained(s: System)
    requires Inv(s) && Quiescent(s)
    ensures Drained(s)
  {
    AllWaiting(s);
    var general := |s.workers| - 1;
    assert !Enabled(s, SendLiq) && !Enabled(s, SendTcs);
    assert !Enabled(s, RecvLiq(general)) && !Enabled(s, RecvTcs(general));
    TotalZero(s.workers, IsWoken);
    TotalZero(s.workers, IsGivingUp);
    assert Unclaimed(s.shared.liq) == [] && Unclaimed(s.shared.tcs) == [];
    NothingHeld(s);
    WithoutNone(s.shared.liq.candidates);
    WithoutNone(s.shared.tcs.candidates);
  }

  lemma AllWaiting(s: System)
    requires Quiescent(s)
    ensures forall w :: 0 <= w < |s.workers| ==> s.workers[w] == Waiting
  {
    forall w: nat | w < |s.workers| ensures s.workers[w] == Waiting {
      assert !Enabled(s, Pull(w)) && !Enabled(s, Execute(w)) && !Enabled(s, Finalize(w));
    }
  }

  lemma NothingHeld(s: System)
    requires Exclusive(s)
    requires forall w :: 0 <= w < |s.workers| ==> s.workers[w] == Waiting
    ensures s.shared.liq.processing == {} && s.shared.tcs.processing == {}
  {
  }

  /**
   Draining. Take any number of workers, with or without the reserved one, and any
   interleaving up to some point. Once no more candidates are inserted, every
   continuation is finite, with an explicit bound, and if it cannot be continued it
   has emptied both candidate sets.
   */
  lemma Draining(maxParallel: nat, enableLiquidation: bool, past: seq<Action>, tail: seq<Action>)
    requires maxParallel >= 1
    requires ValidRun(Init(maxParallel, enableLiquidation), past)
    requires ValidRun(After(Init(maxParallel, enableLiquidation), past), tail) && NoInserts(tail)
    ensures var s := After(Init(maxParallel, enableLiquidation), past);
            && |tail| <= Measure(s) <= 9 * Inserts(past)
            && (Quiescent(After(s, tail)) ==> Drained(After(s, tail)))
  {
    var s0 := Init(maxParallel, enableLiquidation);
    InitInv(maxParallel, enableLiquidation);
    RunInv(s0, past);
    var s := After(s0, past);
    RunInv(s, tail);
    RunLengthBounded(s, tail);
    NoInsertsCount(tail);
    InitMeasure(maxParallel, enableLiquidation);
    MeasureAfter(s0, past);
    if Quiescent(After(s, tail)) {
      QuiescentMeansDrained(After(s, tail));
    }
  }

  lemma InitMeasure(maxParallel: nat, enableLiquidation: bool)
    requires maxParallel >= 1
    ensures Measure(Init(maxParallel, enableLiquidation)) == 0
  {
    var s := Init(maxParallel, enableLiquidation);
    TotalZero(s.workers, Weight(s));
  }

  lemma {:induction false} MeasureAfter(s: System, run: seq<Action>)
    requires Inv(s) && ValidRun(s, run)
    ensures Measure(After(s, run)) <= Measure(s) + 9 * Inserts(run)
    decreases |run|
  {
    if run != [] {
      StepDecreases(s, run[0]);
      StepInv(s, run[0]);
      MeasureAfter(Step(s, run[0]), run[1..]);
    }
  }

  /** From every state the invariant allows, some insert-free run drains the system. */
  lemma {:induction false} CanDrain(s: System) returns (tail: seq<Action>)
    requires Inv(s)
    ensures ValidRun(s, tail) && NoInserts(tail) && Drained(After(s, tail))
    decreases Measure(s)
  {
    if Quiescent(s) {
      QuiescentMeansDrained(s);
      tail := [];
    } else {
      var a :| Enabled(s, a) && !IsInsert(a);
      StepDecreases(s, a);
      StepInv(s, a);
      var rest := CanDrain(Step(s, a));
      tail := [a] + rest;
      assert tail[1..] == rest;
    }
  }

  /**
   The reserved worker keeps liquidations moving on its own. Even when every other
   worker is stuck executing a task, the system only comes to rest once each
   liquidation candidate has been claimed.
   */
  lemma LiquidationsNeverWaitForSwaps(s: System)
    requires Inv(s) && s.reserved
    requires forall a :: Enabled(s, a) ==> IsInsert(a) || (a.Execute? && a.w != 0)
    ensures Unclaimed(s.shared.liq) == []
  {
    assert !Enabled(s, SendLiq);
    forall w: nat | w < |s.workers| ensures !s.workers[w].Woken? {
      assert !Enabled(s, Pull(w));
    }
    TotalZero(s.workers, IsWoken);
    assert !Enabled(s, RecvLiq(0)) && !Enabled(s, Execute(0)) && !Enabled(s, Finalize(0));
  }

  lemma {:induction false} RolesStay(s: System, run: seq<Action>)
    requires ValidRun(s, run)
    ensures After(s, run).reserved == s.reserved && |After(s, run).workers| == |s.workers|
    decreases |run|
  {
    if run != [] {
      RolesStay(Step(s, run[0]), run[1..]);
    }
  }

  /**
   One worker is reserved exactly if there are several and liquidation is enabled. Then,
   after any run, liquidations do not wait for swaps: with all other workers stuck in
   executions, each liquidation candidate gets claimed before the system comes to rest.
   */
  lemma {:induction false} ReservedWorkerServes(maxParallel: nat, enableLiquidation: bool, run: seq<Action>)
    requires maxParallel >= 1 && ValidRun(Init(maxParallel, enableLiquidation), run)
    ensures var s := After(Init(maxParallel, enableLiquidation), run);
            && |s.workers| == maxParallel
            && ((exists w :: OnlyLiquidation(s, w)) <==> maxParallel > 1 && enableLiquidation)
            && (maxParallel > 1 && enableLiquidation
                && (forall a :: Enabled(s, a) ==> IsInsert(a) || (a.Execute? && a.w != 0))
                ==> Unclaimed(s.shared.liq) == [])
  {
    var s0 := Init(maxParallel, enableLiquidation);
    var s := After(s0, run);
    InitInv(maxParallel, enableLiquidation);
    RunInv(s0, run);
    RolesStay(s0, run);
    assert OnlyLiquidation(s, 0) <==> s.reserved;
    if maxParallel > 1 && enableLiquidation && forall a :: Enabled(s, a) ==> IsInsert(a) || (a.Execute? && a.w != 0) {
      LiquidationsNeverWaitForSwaps(s);
    }
  }
}
