/**
 The liquidator's work distribution as a transition system.

 Two scanning jobs insert candidates and then, as a separate step, send one token
 per new candidate. Workers receive a token, pull a task, execute it and finalize
 it, each as a separate step. Worker 0 may be reserved for liquidations.
 */
module WorkerProtocol {
  import opened Pools
  import opened Tasks

  datatype Phase =
    | Waiting
    | Woken
    | Executing(task: Task)
    | Finishing(task: Task)

  /**
   Both trigger channels are unbounded, so a channel is the number of tokens in it.
   `liqSends` and `tcsSends` count candidates inserted whose token is not sent yet.
   */
  datatype System = System(
    shared: Shared,
    liqTokens: nat,
    tcsTokens: nat,
    liqSends: nat,
    tcsSends: nat,
    workers: seq<Phase>,
    reserved: bool)

  datatype Action =
    | InsertLiq(account: Pubkey)
    | InsertTcs(swap: Tcs)
    | SendLiq
    | SendTcs
    | RecvLiq(w: nat)
    | RecvTcs(w: nat)
    | Pull(w: nat)
    | Execute(w: nat)
    | Finalize(w: nat)

  predicate IsInsert(a: Action) {
    a.InsertLiq? || a.InsertTcs?
  }

  predicate OnlyLiquidation(s: System, w: nat) {
    s.reserved && w == 0
  }

  function Init(maxParallel: nat, enableLiquidation: bool): System
    requires maxParallel >= 1
  {
    System(Shared(Pool([], {}), Pool([], {})), 0, 0, 0, 0,
           seq(maxParallel, _ => Waiting), maxParallel > 1 && enableLiquidation)
  }

  predicate Enabled(s: System, a: Action) {
    match a
    case InsertLiq(_) => true
    case InsertTcs(_) => true
    case SendLiq => s.liqSends > 0
    case SendTcs => s.tcsSends > 0
    case RecvLiq(w) => w < |s.workers| && s.workers[w].Waiting? && s.liqTokens > 0
    case RecvTcs(w) => w < |s.workers| && s.workers[w].Waiting? && s.tcsTokens > 0 && !OnlyLiquidation(s, w)
    case Pull(w) => w < |s.workers| && s.workers[w].Woken?
    case Execute(w) => w < |s.workers| && s.workers[w].Executing?
    case Finalize(w) => w < |s.workers| && s.workers[w].Finishing?
  }

  function Step(s: System, a: Action): System
    requires Enabled(s, a)
  {
    match a
    case InsertLiq(x) =>
      s.(shared := s.shared.(liq := Insert(s.shared.liq, x)),
         liqSends := s.liqSends + if x in s.shared.liq.candidates then 0 else 1)
    case InsertTcs(x) =>
      s.(shared := s.shared.(tcs := Insert(s.shared.tcs, x)),
         tcsSends := s.tcsSends + if x in s.shared.tcs.candidates then 0 else 1)
    case SendLiq => s.(liqSends := s.liqSends - 1, liqTokens := s.liqTokens + 1)
    case SendTcs => s.(tcsSends := s.tcsSends - 1, tcsTokens := s.tcsTokens + 1)
    case RecvLiq(w) => s.(liqTokens := s.liqTokens - 1, workers := s.workers[w := Woken])
    case RecvTcs(w) => s.(tcsTokens := s.tcsTokens - 1, workers := s.workers[w := Woken])
    case Pull(w) =>
      var t := NextTask(s.shared, OnlyLiquidation(s, w));
      s.(shared := ClaimTask(s.shared, t), workers := s.workers[w := Executing(t)])
    case Execute(w) =>
      var t := s.workers[w].task;
      s.(tcsTokens := s.tcsTokens + if t.GiveUpTcs? then 1 else 0, workers := s.workers[w := Finishing(t)])
    case Finalize(w) =>
      s.(shared := ReleaseTask(s.shared, s.workers[w].task), workers := s.workers[w := Waiting])
  }

  predicate ValidRun(s: System, run: seq<Action>)
    decreases |run|
  {
    run == [] || (Enabled(s, run[0]) && ValidRun(Step(s, run[0]), run[1..]))
  }

  function After(s: System, run: seq<Action>): System
    requires ValidRun(s, run)
    decreases |run|
  {
    if run == [] then s else After(Step(s, run[0]), run[1..])
  }

  // ---------- sums over the workers ----------

  function Total(ws: seq<Phase>, f: (nat, Phase) -> nat): nat {
    if ws == [] then 0
    else Total(ws[..|ws| - 1], f) + f(|ws| - 1, ws[|ws| - 1])
  }

  lemma {:induction false} TotalUpdate(ws: seq<Phase>, f: (nat, Phase) -> nat, w: nat, p: Phase)
    requires w < |ws|
    ensures Total(ws[w := p], f) + f(w, ws[w]) == Total(ws, f) + f(w, p)
    ensures f(w, ws[w]) <= Total(ws, f)
  {
    var n := |ws| - 1;
    if w == n {
      assert ws[w := p][..n] == ws[..n];
    } else {
      assert ws[w := p][..n] == ws[..n][w := p];
      TotalUpdate(ws[..n], f, w, p);
    }
  }

  lemma {:induction false} TotalZero(ws: seq<Phase>, f: (nat, Phase) -> nat)
    ensures Total(ws, f) == 0 <==> forall w :: 0 <= w < |ws| ==> f(w, ws[w]) == 0
  {
    if ws != [] {
      var n := |ws| - 1;
      TotalZero(ws[..n], f);
      assert forall w :: 0 <= w < n ==> ws[..n][w] == ws[w];
    }
  }

  function IsWoken(w: nat, p: Phase): nat {
    if p.Woken? then 1 else 0
  }

  function IsGivingUp(w: nat, p: Phase): nat {
    if p.Executing? && p.task.GiveUpTcs? then 1 else 0
  }

  // ---------- who holds what ----------

  function HeldTask(p: Phase): Task {
    if p.Executing? || p.Finishing? then p.task else NoWork
  }

  function LiqHeld(ws: seq<Phase>): (r: seq<set<Pubkey>>)
    ensures |r| == |ws| && forall i :: 0 <= i < |ws| ==> r[i] == Elements(Liquidations(HeldTask(ws[i])))
  {
    seq(|ws|, i requires 0 <= i < |ws| => Elements(Liquidations(HeldTask(ws[i]))))
  }

  function TcsHeld(ws: seq<Phase>): (r: seq<set<Tcs>>)
    ensures |r| == |ws| && forall i :: 0 <= i < |ws| ==> r[i] == Elements(Swaps(HeldTask(ws[i])))
  {
    seq(|ws|, i requires 0 <= i < |ws| => Elements(Swaps(HeldTask(ws[i]))))
  }

  /** `parts` are pairwise disjoint and make up exactly `all`. */
  ghost predicate Partition<T(!new)>(all: set<T>, parts: seq<set<T>>) {
    && (forall i, j :: 0 <= i < j < |parts| ==> parts[i] !! parts[j])
    && (forall i :: 0 <= i < |parts| ==> parts[i] <= all)
    && (forall x :: x in all ==> exists i :: 0 <= i < |parts| && x in parts[i])
  }

  lemma PartitionGrow<T(!new)>(all: set<T>, parts: seq<set<T>>, w: nat, d: set<T>)
    requires Partition(all, parts) && w < |parts| && parts[w] == {} && d !! all
    ensures Partition(all + d, parts[w := d])
  {
    var parts' := parts[w := d];
    forall x | x in all + d ensures exists i :: 0 <= i < |parts'| && x in parts'[i] {
      if x in d {
        assert x in parts'[w];
      } else {
        var i :| 0 <= i < |parts| && x in parts[i];
        assert x in parts'[i];
      }
    }
  }

  lemma PartitionDrop<T(!new)>(all: set<T>, parts: seq<set<T>>, w: nat)
    requires Partition(all, parts) && w < |parts|
    ensures Partition(all - parts[w], parts[w := {}])
  {
    var parts' := parts[w := {}];
    forall x | x in all - parts[w] ensures exists i :: 0 <= i < |parts'| && x in parts'[i] {
      var i :| 0 <= i < |parts| && x in parts[i];
      assert x in parts'[i];
    }
  }

  // ---------- the invariant ----------

  /** Entries in processing are exactly those held by workers, each by one worker. */
  ghost predicate Exclusive(s: System) {
    && ValidShared(s.shared)
    && Partition(s.shared.liq.processing, LiqHeld(s.workers))
    && Partition(s.shared.tcs.processing, TcsHeld(s.workers))
  }

  /** A reserved worker never takes swaps and only a reserved worker gives them up. */
  ghost predicate RolesKept(s: System) {
    && |s.workers| >= 1
    && (s.reserved ==> |s.workers| > 1)
    && forall w :: 0 <= w < |s.workers| ==>
         var t := HeldTask(s.workers[w]);
         if OnlyLiquidation(s, w) then !t.TakeTcs? else !t.GiveUpTcs?
  }

  /** Wake-ups in flight that a liquidation can rely on. */
  function LiqWakeups(s: System): nat {
    s.liqTokens + s.liqSends + Total(s.workers, IsWoken)
  }

  function AllWakeups(s: System): nat {
    LiqWakeups(s) + s.tcsTokens + s.tcsSends + Total(s.workers, IsGivingUp)
  }

  /**
   No wake-up is lost: tokens, pending sends, woken workers and pending give-ups
   cover all unclaimed work, and liquidations are covered without any swap token.
   */
  ghost predicate Covered(s: System) {
    && |Unclaimed(s.shared.liq)| <= LiqWakeups(s)
    && |Unclaimed(s.shared.liq)| + |Unclaimed(s.shared.tcs)| <= AllWakeups(s)
  }

  ghost predicate Inv(s: System) {
    Exclusive(s) && RolesKept(s) && Covered(s)
  }

  lemma {:induction false} InitInv(maxParallel: nat, enableLiquidation: bool)
    requires maxParallel >= 1
    ensures Inv(Init(maxParallel, enableLiquidation))
  {
  }

  lemma {:induction false} StepExclusive(s: System, a: Action)
    requires Exclusive(s) && Enabled(s, a)
    ensures Exclusive(Step(s, a))
  {
    var s' := Step(s, a);
    match a
    case InsertLiq(x) => InsertAddsOne(s.shared.liq, x);
    case InsertTcs(x) => InsertAddsOne(s.shared.tcs, x);
    case Pull(w) => PullExclusive(s, w);
    case Finalize(w) => FinalizeExclusive(s, w);
    case _ =>
      assert LiqHeld(s'.workers) == LiqHeld(s.workers);
      assert TcsHeld(s'.workers) == TcsHeld(s.workers);
  }

  /** A pull only claims what nobody processes. */
  lemma {:induction false} PullClaimsUnclaimed(s: Shared, onlyLiquidation: bool)
    requires ValidShared(s)
    ensures var t := NextTask(s, onlyLiquidation);
            Elements(Liquidations(t)) !! s.liq.processing && Elements(Swaps(t)) !! s.tcs.processing
  {
    var t := NextTask(s, onlyLiquidation);
    PullEffect(s, onlyLiquidation);
    WithoutMembers(s.liq.candidates, s.liq.processing);
    WithoutMembers(s.tcs.candidates, s.tcs.processing);
    assert forall x :: x in Liquidations(t) ==> x in Unclaimed(s.liq);
    assert forall x :: x in Swaps(t) ==> x in Unclaimed(s.tcs);
  }

  /** What the workers hold after one of them has moved to another phase. */
  lemma {:induction false} HeldAfterMove(ws: seq<Phase>, w: nat, p: Phase)
    requires w < |ws|
    ensures LiqHeld(ws[w := p]) == LiqHeld(ws)[w := Elements(Liquidations(HeldTask(p)))]
    ensures TcsHeld(ws[w := p]) == TcsHeld(ws)[w := Elements(Swaps(HeldTask(p)))]
  {
  }

  lemma {:induction false} NothingHeldBefore(ws: seq<Phase>, w: nat)
    requires w < |ws| && HeldTask(ws[w]).NoWork?
    ensures LiqHeld(ws)[w] == {} && TcsHeld(ws)[w] == {}
  {
  }

  lemma {:induction false} ClaimPartition(s: Shared, ws: seq<Phase>, w: nat, t: Task)
    requires w < |ws| && HeldTask(ws[w]).NoWork?
    requires Partition(s.liq.processing, LiqHeld(ws)) && Partition(s.tcs.processing, TcsHeld(ws))
    requires Elements(Liquidations(t)) !! s.liq.processing && Elements(Swaps(t)) !! s.tcs.processing
    ensures Partition(ClaimTask(s, t).liq.processing, LiqHeld(ws)[w := Elements(Liquidations(t))])
    ensures Partition(ClaimTask(s, t).tcs.processing, TcsHeld(ws)[w := Elements(Swaps(t))])
  {
    NothingHeldBefore(ws, w);
    PartitionGrow(s.liq.processing, LiqHeld(ws), w, Elements(Liquidations(t)));
    PartitionGrow(s.tcs.processing, TcsHeld(ws), w, Elements(Swaps(t)));
  }

  lemma {:induction false} PullExclusive(s: System, w: nat)
    requires Exclusive(s) && Enabled(s, Pull(w))
    ensures Exclusive(Step(s, Pull(w)))
  {
    var t := NextTask(s.shared, OnlyLiquidation(s, w));
    assert ValidShared(ClaimTask(s.shared, t)) by {
      PullEffect(s.shared, OnlyLiquidation(s, w));
    }
    PullClaimsUnclaimed(s.shared, OnlyLiquidation(s, w));
    ClaimPartition(s.shared, s.workers, w, t);
    HeldAfterMove(s.workers, w, Executing(t));
  }

  lemma {:induction false} ReleasePartition(s: Shared, ws: seq<Phase>, w: nat)
    requires w < |ws|
    requires Partition(s.liq.processing, LiqHeld(ws)) && Partition(s.tcs.processing, TcsHeld(ws))
    ensures Partition(ReleaseTask(s, HeldTask(ws[w])).liq.processing, LiqHeld(ws)[w := {}])
    ensures Partition(ReleaseTask(s, HeldTask(ws[w])).tcs.processing, TcsHeld(ws)[w := {}])
  {
    PartitionDrop(s.liq.processing, LiqHeld(ws), w);
    PartitionDrop(s.tcs.processing, TcsHeld(ws), w);
  }

  lemma {:induction false} HeldIsProcessed(s: System, w: nat)
    requires Exclusive(s) && w < |s.workers|
    ensures Elements(Liquidations(HeldTask(s.workers[w]))) <= s.shared.liq.processing
    ensures Elements(Swaps(HeldTask(s.workers[w]))) <= s.shared.tcs.processing
  {
    assert LiqHeld(s.workers)[w] <= s.shared.liq.processing;
    assert TcsHeld(s.workers)[w] <= s.shared.tcs.processing;
  }

  lemma {:induction false} FinalizeExclusive(s: System, w: nat)
    requires Exclusive(s) && Enabled(s, Finalize(w))
    ensures Exclusive(Step(s, Finalize(w)))
  {
    HeldIsProcessed(s, w);
    assert ValidShared(ReleaseTask(s.shared, s.workers[w].task)) by {
      FinalizeEffect(s.shared, s.workers[w].task);
    }
    ReleasePartition(s.shared, s.workers, w);
    HeldAfterMove(s.workers, w, Waiting);
    assert Elements(Liquidations(NoWork)) == {} && Elements(Swaps(NoWork)) == {};
  }

  lemma {:induction false} StepCovered(s: System, a: Action)
    requires Inv(s) && Enabled(s, a)
    ensures Covered(Step(s, a))
  {
    match a
    case InsertLiq(x) => InsertAddsOne(s.shared.liq, x);
    case InsertTcs(x) => InsertAddsOne(s.shared.tcs, x);
    case SendLiq =>
    case SendTcs =>
    case RecvLiq(w) => WorkerMoves(s, w, Woken);
    case RecvTcs(w) => WorkerMoves(s, w, Woken);
    case Pull(w) => PullCovered(s, w);
    case Execute(w) => WorkerMoves(s, w, Finishing(s.workers[w].task));
    case Finalize(w) => FinalizeCovered(s, w);
  }

  lemma {:induction false} FinalizeCovered(s: System, w: nat)
    requires Exclusive(s) && Covered(s) && Enabled(s, Finalize(w))
    ensures Covered(Step(s, Finalize(w)))
  {
    WorkerMoves(s, w, Waiting);
    HeldIsProcessed(s, w);
    FinalizeEffect(s.shared, s.workers[w].task);
  }

  lemma WorkerMoves(s: System, w: nat, p: Phase)
    requires w < |s.workers|
    ensures var ws := s.workers[w := p];
            && Total(ws, IsWoken) == Total(s.workers, IsWoken) - IsWoken(w, s.workers[w]) + IsWoken(w, p)
            && Total(ws, IsGivingUp)
               == Total(s.workers, IsGivingUp) - IsGivingUp(w, s.workers[w]) + IsGivingUp(w, p)
  {
    TotalUpdate(s.workers, IsWoken, w, p);
    TotalUpdate(s.workers, IsGivingUp, w, p);
  }

  lemma {:induction false} PullCovered(s: System, w: nat)
    requires Inv(s) && Enabled(s, Pull(w))
    ensures Covered(Step(s, Pull(w)))
  {
    var t := NextTask(s.shared, OnlyLiquidation(s, w));
    WorkerMoves(s, w, Executing(t));
    PullEffect(s.shared, OnlyLiquidation(s, w));
    var s' := Step(s, Pull(w));
    assert |Unclaimed(s.shared.liq)| == |Liquidations(t)| + |Unclaimed(s'.shared.liq)|;
    assert |Unclaimed(s.shared.tcs)| == |Swaps(t)| + |Unclaimed(s'.shared.tcs)|;
  }

  lemma {:induction false} StepRoles(s: System, a: Action)
    requires RolesKept(s) && Enabled(s, a)
    ensures RolesKept(Step(s, a))
  {
  }

  lemma {:induction false} StepInv(s: System, a: Action)
    requires Inv(s) && Enabled(s, a)
    ensures Inv(Step(s, a))
  {
    StepExclusive(s, a);
    StepRoles(s, a);
    StepCovered(s, a);
  }

  /** The invariant holds in every reachable state, whatever the interleaving. */
  lemma {:induction false} RunInv(s: System, run: seq<Action>)
    requires Inv(s) && ValidRun(s, run)
    ensures Inv(After(s, run))
    decreases |run|
  {
    if run != [] {
      StepInv(s, run[0]);
      RunInv(Step(s, run[0]), run[1..]);
    }
  }

  /**
   Whatever has happened since the start: no entry is executed by two workers, and there
   are at least as many wake-ups under way as there are unclaimed entries, for liquidations
   without counting those for swaps.
   */
  lemma {:induction false} ReachableSafety(maxParallel: nat, enableLiquidation: bool, run: seq<Action>)
    requires maxParallel >= 1 && ValidRun(Init(maxParallel, enableLiquidation), run)
    ensures var s := After(Init(maxParallel, enableLiquidation), run);
            && (forall v, w :: 0 <= v < w < |s.workers| ==>
                  LiqHeld(s.workers)[v] !! LiqHeld(s.workers)[w] && TcsHeld(s.workers)[v] !! TcsHeld(s.workers)[w])
            && |Unclaimed(s.shared.liq)| <= LiqWakeups(s)
            && |Unclaimed(s.shared.liq)| + |Unclaimed(s.shared.tcs)| <= AllWakeups(s)
  {
    InitInv(maxParallel, enableLiquidation);
    RunInv(Init(maxParallel, enableLiquidation), run);
  }
}
