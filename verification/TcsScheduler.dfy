/**
 Preparing conditional swap executions within a volume budget.

 Candidates are started in random order, weighted by volume, as long as there are free
 slots and budget. Each started job reserves its estimated volume; when it completes, the
 reservation is released and, if it is executable, its actual volume is committed.
 */
module TcsScheduler {

  import opened Common
  import opened Tasks

  /** Candidates are marked with this volume once they have been started. */
  const STARTED: nat := 0xFFFF_FFFF_FFFF_FFFF

  const MAX_PREPARED: nat := 32

  /** A running preparation: which candidate, and the volume it reserved. */
  datatype Job = Job(index: nat, reserved: nat)

  datatype Prepared = Prepared(job: Job, volume: nat)

  /**
   Which candidates are taken up (one with too many recent errors is not), and what the
   preparation of each finds: the volume to execute, or nothing.
   */
  datatype World = World(accepts: nat -> bool, outcome: nat -> Option<nat>)

  function Max(x: nat, y: nat): nat { if x < y then y else x }

  /** What a candidate counts against the budget when it is picked. */
  function Clamped(volume: nat, maxVolume: nat): nat {
    Max(Min(volume, maxVolume), 1)
  }

  predicate Fits(c: Tcs, maxVolume: nat, available: int) {
    c.volume != STARTED && Clamped(c.volume, maxVolume) <= available
  }

  function Reserved(jobs: seq<Job>): nat {
    if jobs == [] then 0 else Reserved(jobs[..|jobs| - 1]) + jobs[|jobs| - 1].reserved
  }

  /** Reservations counted at no more than the whole budget each. */
  function Capped(jobs: seq<Job>, maxVolume: nat): nat {
    if jobs == [] then 0
    else Capped(jobs[..|jobs| - 1], maxVolume) + Min(jobs[|jobs| - 1].reserved, maxVolume)
  }

  function Committed(prepared: seq<Prepared>): nat {
    if prepared == [] then 0 else Committed(prepared[..|prepared| - 1]) + prepared[|prepared| - 1].volume
  }

  function Unstarted(tcs: seq<Tcs>): nat {
    if tcs == [] then 0 else Unstarted(tcs[..|tcs| - 1]) + if tcs[|tcs| - 1].volume == STARTED then 0 else 1
  }

  function Without(jobs: seq<Job>, k: nat): seq<Job>
    requires k < |jobs|
  {
    jobs[..k] + jobs[k + 1..]
  }

  lemma {:induction false} CompleteOne(jobs: seq<Job>, k: nat, maxVolume: nat)
    requires k < |jobs|
    ensures Reserved(jobs) == Reserved(Without(jobs, k)) + jobs[k].reserved
    ensures Capped(jobs, maxVolume) == Capped(Without(jobs, k), maxVolume) + Min(jobs[k].reserved, maxVolume)
  {
    var n := |jobs| - 1;
    var rest := Without(jobs, k);
    if k == n {
      assert rest == jobs[..n];
    } else {
      CompleteOne(jobs[..n], k, maxVolume);
      assert rest[..n - 1] == Without(jobs[..n], k);
      assert rest[n - 1] == jobs[n];
    }
  }

  lemma StartOne(jobs: seq<Job>, j: Job, maxVolume: nat)
    ensures Reserved(jobs + [j]) == Reserved(jobs) + j.reserved
    ensures Capped(jobs + [j], maxVolume) == Capped(jobs, maxVolume) + Min(j.reserved, maxVolume)
  {
  }

  lemma CommitOne(prepared: seq<Prepared>, p: Prepared)
    ensures Committed(prepared + [p]) == Committed(prepared) + p.volume
  {
  }

  lemma {:induction false} CappedBelow(jobs: seq<Job>, maxVolume: nat)
    ensures Capped(jobs, maxVolume) <= Reserved(jobs)
  {
    if jobs != [] {
      CappedBelow(jobs[..|jobs| - 1], maxVolume);
    }
  }

  lemma {:induction false} MarkOne(tcs: seq<Tcs>, k: nat)
    requires k < |tcs| && tcs[k].volume != STARTED
    ensures Unstarted(tcs[k := tcs[k].(volume := STARTED)]) == Unstarted(tcs) - 1
    ensures Unstarted(tcs) > 0
  {
    var n := |tcs| - 1;
    var marked := tcs[k := tcs[k].(volume := STARTED)];
    if k == n {
      assert marked[..n] == tcs[..n];
    } else {
      MarkOne(tcs[..n], k);
      assert marked[..n] == tcs[..n][k := tcs[k].(volume := STARTED)];
    }
  }

  /** A job belongs to a marked candidate and reserved that candidate's estimate. */
  ghost predicate Owns(j: Job, tcs: seq<Tcs>, estimates: seq<Tcs>) {
    && j.index < |tcs| == |estimates|
    && tcs[j.index].volume == STARTED != estimates[j.index].volume
    && j.reserved == estimates[j.index].volume
  }

  /** No candidate is started twice. */
  ghost predicate StartedOnce(pending: seq<Job>, prepared: seq<Prepared>) {
    && (forall i, j :: 0 <= i < j < |pending| ==> pending[i].index != pending[j].index)
    && (forall i, j :: 0 <= i < j < |prepared| ==> prepared[i].job.index != prepared[j].job.index)
    && (forall i, j :: 0 <= i < |pending| && 0 <= j < |prepared| ==> pending[i].index != prepared[j].job.index)
  }

  ghost predicate Ledger(pending: seq<Job>, prepared: seq<Prepared>, tcs: seq<Tcs>, estimates: seq<Tcs>) {
    && |tcs| == |estimates|
    && StartedOnce(pending, prepared)
    && (forall i :: 0 <= i < |pending| ==> Owns(pending[i], tcs, estimates))
    && (forall i :: 0 <= i < |prepared| ==> Owns(prepared[i].job, tcs, estimates))
    && (forall i :: 0 <= i < |tcs| ==> tcs[i] == estimates[i] || tcs[i] == estimates[i].(volume := STARTED))
  }

  /** Every prepared execution stayed within what it reserved and within the budget. */
  ghost predicate WithinReservation(prepared: seq<Prepared>, maxVolume: nat) {
    forall i :: 0 <= i < |prepared| ==>
      prepared[i].volume <= prepared[i].job.reserved && prepared[i].volume <= maxVolume
  }

  /** Before the last commitment the budget was not used up. */
  ghost predicate BelowBefore(prepared: seq<Prepared>, maxVolume: nat) {
    prepared != [] ==> Committed(prepared[..|prepared| - 1]) < maxVolume
  }

  ghost function Indexes(jobs: seq<Job>): set<nat> {
    set i | 0 <= i < |jobs| :: jobs[i].index
  }

  ghost function PreparedIndexes(prepared: seq<Prepared>): set<nat> {
    set i | 0 <= i < |prepared| :: prepared[i].job.index
  }

  /** Only accepted candidates run, and prepared executions are what their preparation found. */
  ghost predicate Truthful(pending: seq<Job>, prepared: seq<Prepared>, world: World) {
    && (forall i :: 0 <= i < |pending| ==> world.accepts(pending[i].index))
    && (forall i :: 0 <= i < |prepared| ==>
          world.accepts(prepared[i].job.index) && world.outcome(prepared[i].job.index) == Some(prepared[i].volume))
  }

  predicate Executable(i: nat, c: Tcs, estimate: Tcs, world: World) {
    c.volume == STARTED != estimate.volume && world.accepts(i) && world.outcome(i).Some?
  }

  /** Every started candidate that is executable is pending or prepared. */
  ghost predicate Accounted(known: set<nat>, tcs: seq<Tcs>, estimates: seq<Tcs>, world: World) {
    forall i :: 0 <= i < |tcs| && i < |estimates| && Executable(i, tcs[i], estimates[i], world) ==> i in known
  }

  lemma IndexesComplete(jobs: seq<Job>, k: nat)
    requires k < |jobs|
    ensures Indexes(jobs) == Indexes(Without(jobs, k)) + {jobs[k].index}
  {
    var rest := Without(jobs, k);
    forall x | x in Indexes(jobs) ensures x in Indexes(rest) + {jobs[k].index} {
      var i :| 0 <= i < |jobs| && jobs[i].index == x;
      if i != k {
        var j := if i < k then i else i - 1;
        assert rest[j] == jobs[i];
      }
    }
    forall x | x in Indexes(rest) ensures x in Indexes(jobs) {
      var j :| 0 <= j < |rest| && rest[j].index == x;
      var i := if j < k then j else j + 1;
      assert jobs[i] == rest[j];
    }
    assert jobs[k].index in Indexes(jobs);
  }

  lemma IndexesStart(jobs: seq<Job>, j: Job)
    ensures Indexes(jobs + [j]) == Indexes(jobs) + {j.index}
  {
    var all := jobs + [j];
    IndexesComplete(all, |jobs|);
    assert Without(all, |jobs|) == jobs;
  }

  lemma IndexesCommit(prepared: seq<Prepared>, p: Prepared)
    ensures PreparedIndexes(prepared + [p]) == PreparedIndexes(prepared) + {p.job.index}
  {
    var all := prepared + [p];
    forall x | x in PreparedIndexes(prepared) ensures x in PreparedIndexes(all) {
      var i :| 0 <= i < |prepared| && prepared[i].job.index == x;
      assert all[i] == prepared[i];
    }
    assert all[|prepared|] == p;
  }

  lemma LedgerCompletes(pending: seq<Job>, prepared: seq<Prepared>, tcs: seq<Tcs>, estimates: seq<Tcs>, k: nat, v: nat)
    requires Ledger(pending, prepared, tcs, estimates) && k < |pending|
    ensures Ledger(Without(pending, k), prepared, tcs, estimates)
    ensures Ledger(Without(pending, k), prepared + [Prepared(pending[k], v)], tcs, estimates)
  {
  }

  lemma LedgerStarts(pending: seq<Job>, prepared: seq<Prepared>, tcs: seq<Tcs>, estimates: seq<Tcs>, k: nat)
    requires Ledger(pending, prepared, tcs, estimates) && k < |tcs| && tcs[k].volume != STARTED
    ensures var marked := tcs[k := tcs[k].(volume := STARTED)];
            && Ledger(pending, prepared, marked, estimates)
            && Ledger(pending + [Job(k, tcs[k].volume)], prepared, marked, estimates)
  {
  }

  lemma CommitWithin(prepared: seq<Prepared>, p: Prepared, maxVolume: nat)
    ensures WithinReservation(prepared + [p], maxVolume) ==>
              WithinReservation(prepared, maxVolume) && p.volume <= Min(p.job.reserved, maxVolume)
  {
    if WithinReservation(prepared + [p], maxVolume) {
      assert (prepared + [p])[|prepared|] == p;
      assert forall i :: 0 <= i < |prepared| ==> (prepared + [p])[i] == prepared[i];
    }
  }

  // ---------- the state of the loop ----------

  datatype Plan = Plan(pending: seq<Job>, prepared: seq<Prepared>, pendingVolume: nat, preparedVolume: nat)

  /** Who was started, and what became of it. */
  ghost predicate Books(p: Plan, tcs: seq<Tcs>, estimates: seq<Tcs>, world: World) {
    && Ledger(p.pending, p.prepared, tcs, estimates)
    && Truthful(p.pending, p.prepared, world)
    && Accounted(Indexes(p.pending) + PreparedIndexes(p.prepared), tcs, estimates, world)
  }

  /** The volumes are sums over the jobs, and within the budget as far as that can be known. */
  ghost predicate Budget(p: Plan, maxVolume: nat) {
    && p.pendingVolume == Reserved(p.pending)
    && p.preparedVolume == Committed(p.prepared)
    && BelowBefore(p.prepared, maxVolume)
    && (WithinReservation(p.prepared, maxVolume) ==> p.preparedVolume + Capped(p.pending, maxVolume) <= maxVolume)
  }

  /** The `k`-th pending job has completed. */
  function Completed(p: Plan, k: nat, world: World): Plan
    requires k < |p.pending| && p.pending[k].reserved <= p.pendingVolume
  {
    var job := p.pending[k];
    var rest := p.(pending := Without(p.pending, k), pendingVolume := p.pendingVolume - job.reserved);
    match world.outcome(job.index)
    case None => rest
    case Some(v) => rest.(prepared := p.prepared + [Prepared(job, v)], preparedVolume := p.preparedVolume + v)
  }

  function Launched(p: Plan, job: Job): Plan {
    p.(pending := p.pending + [job], pendingVolume := p.pendingVolume + job.reserved)
  }

  lemma CompletedBooks(p: Plan, k: nat, tcs: seq<Tcs>, estimates: seq<Tcs>, world: World)
    requires Books(p, tcs, estimates, world) && k < |p.pending| && p.pending[k].reserved <= p.pendingVolume
    ensures Books(Completed(p, k, world), tcs, estimates, world)
  {
    IndexesComplete(p.pending, k);
    match world.outcome(p.pending[k].index)
    case None =>
      LedgerCompletes(p.pending, p.prepared, tcs, estimates, k, 0);
    case Some(v) =>
      LedgerCompletes(p.pending, p.prepared, tcs, estimates, k, v);
      IndexesCommit(p.prepared, Prepared(p.pending[k], v));
  }

  lemma CompletedBudget(p: Plan, k: nat, maxVolume: nat, world: World)
    requires Budget(p, maxVolume) && k < |p.pending| && p.preparedVolume < maxVolume
    ensures p.pending[k].reserved <= p.pendingVolume && Budget(Completed(p, k, world), maxVolume)
  {
    CompleteOne(p.pending, k, maxVolume);
    match world.outcome(p.pending[k].index)
    case None =>
    case Some(v) =>
      CommitOne(p.prepared, Prepared(p.pending[k], v));
      CommitWithin(p.prepared, Prepared(p.pending[k], v), maxVolume);
      assert (p.prepared + [Prepared(p.pending[k], v)])[..|p.prepared|] == p.prepared;
  }

  lemma StartBooks(p: Plan, k: nat, tcs: seq<Tcs>, estimates: seq<Tcs>, world: World)
    requires Books(p, tcs, estimates, world) && k < |tcs| && tcs[k].volume != STARTED
    ensures var marked := tcs[k := tcs[k].(volume := STARTED)];
            Books(if world.accepts(k) then Launched(p, Job(k, tcs[k].volume)) else p, marked, estimates, world)
  {
    var job, marked := Job(k, tcs[k].volume), tcs[k := tcs[k].(volume := STARTED)];
    LedgerStarts(p.pending, p.prepared, tcs, estimates, k);
    IndexesStart(p.pending, job);
    var known := Indexes(p.pending) + PreparedIndexes(p.prepared);
    assert forall i :: 0 <= i < |tcs| && i != k ==> marked[i] == tcs[i];
    assert Accounted(known + {k}, marked, estimates, world);
    if world.accepts(k) {
      assert Indexes(p.pending + [job]) + PreparedIndexes(p.prepared) == known + {k};
    }
  }

  lemma StartBudget(p: Plan, job: Job, maxVolume: nat)
    requires Budget(p, maxVolume) && Clamped(job.reserved, maxVolume) <= maxVolume - p.pendingVolume - p.preparedVolume
    ensures Budget(Launched(p, job), maxVolume)
  {
    StartOne(p.pending, job, maxVolume);
    CappedBelow(p.pending, maxVolume);
  }

  ghost predicate NoneFits(tcs: seq<Tcs>, maxVolume: nat, available: int) {
    forall i :: 0 <= i < |tcs| ==> !Fits(tcs[i], maxVolume, available)
  }

  /**
   All slots or the budget are used, or every executable candidate that was started is
   prepared and no unstarted candidate fits what is left.
   */
  ghost predicate NothingLeft(prepared: seq<Prepared>, tcs: seq<Tcs>, estimates: seq<Tcs>, maxVolume: nat, world: World) {
    || |prepared| == MAX_PREPARED
    || Committed(prepared) >= maxVolume
    || (&& Accounted(PreparedIndexes(prepared), tcs, estimates, world)
        && NoneFits(tcs, maxVolume, maxVolume - Committed(prepared)))
  }

  /**
   The preparation loop. The order of picks and of completions is left open, and refusals
   and outcomes are arbitrary.

   At most 32 executions are prepared, each from a different candidate. The committed
   volume stays within the budget when each execution stays within its reservation, and in
   any case it was below the budget before the last commitment. The loop only stops with
   all slots used, with the budget used, or when every executable candidate it started is
   prepared and no unstarted candidate fits what is left. In numbers: with slots and budget
   left, every candidate not started has a larger volume than is left, and none is skipped
   while nothing is committed.
   */
  method PrepareExecutions(tcs: array<Tcs>, maxVolume: nat, world: World) returns (prepared: seq<Prepared>)
    requires tcs.Length > 0
    modifies tcs
    ensures |prepared| <= MAX_PREPARED
    ensures Ledger([], prepared, tcs[..], old(tcs[..])) && Truthful([], prepared, world)
    ensures WithinReservation(prepared, maxVolume) ==> Committed(prepared) <= maxVolume
    ensures BelowBefore(prepared, maxVolume)
    ensures NothingLeft(prepared, tcs[..], old(tcs[..]), maxVolume, world)
    ensures |prepared| < 32 && Committed(prepared) < maxVolume ==>
              forall i :: 0 <= i < tcs.Length && tcs[i].volume != 0xFFFF_FFFF_FFFF_FFFF ==>
                tcs[i].volume > maxVolume - Committed(prepared) && Committed(prepared) > 0
    ensures prepared == [] && maxVolume > 0 ==>
              forall i :: 0 <= i < tcs.Length ==> tcs[i].volume == 0xFFFF_FFFF_FFFF_FFFF
  {
    ghost var estimates := tcs[..];
    var p := Plan([], [], 0, 0);
    var noNewJob := false;
    while |p.prepared| < MAX_PREPARED && p.preparedVolume < maxVolume
      invariant |p.prepared| + |p.pending| <= MAX_PREPARED
      invariant Budget(p, maxVolume) && Books(p, tcs[..], estimates, world)
      invariant noNewJob ==> NoneFits(tcs[..], maxVolume, maxVolume - p.pendingVolume - p.preparedVolume)
      decreases Unstarted(tcs[..]), |p.pending|, if noNewJob then 0 else 1
    {
      if |p.prepared| + |p.pending| >= MAX_PREPARED || p.preparedVolume + p.pendingVolume >= maxVolume || noNewJob {
        if |p.pending| == 0 {
          break;
        }
        p := AwaitOne(p, maxVolume, world, tcs[..], estimates);
        noNewJob := false;
        continue;
      }

      var sample := Pick(tcs, maxVolume, maxVolume - p.pendingVolume - p.preparedVolume);
      if sample == tcs.Length {
        noNewJob := true;
        continue;
      }
      p := Start(tcs, sample, p, maxVolume, world, estimates);
    }
    StopsWell(p, tcs[..], estimates, maxVolume, world);
    if |p.prepared| < 32 && Committed(p.prepared) < maxVolume {
      LeftTooLarge(p.prepared, tcs[..], estimates, maxVolume, world);
    }
    BudgetCovers(p, maxVolume);
    BooksClosed(p, tcs[..], estimates, world);
    return p.prepared;
  }

  lemma {:induction false} LeftTooLarge(prepared: seq<Prepared>, tcs: seq<Tcs>, estimates: seq<Tcs>, maxVolume: nat, world: World)
    requires NothingLeft(prepared, tcs, estimates, maxVolume, world)
    requires |prepared| < 32 && Committed(prepared) < maxVolume
    ensures forall i :: 0 <= i < |tcs| && tcs[i].volume != 0xFFFF_FFFF_FFFF_FFFF ==>
              tcs[i].volume > maxVolume - Committed(prepared) && Committed(prepared) > 0
  {
    forall i | 0 <= i < |tcs| && tcs[i].volume != 0xFFFF_FFFF_FFFF_FFFF
      ensures tcs[i].volume > maxVolume - Committed(prepared) && Committed(prepared) > 0
    {
      assert !Fits(tcs[i], maxVolume, maxVolume - Committed(prepared));
    }
  }

  lemma {:induction false} StopsWell(p: Plan, tcs: seq<Tcs>, estimates: seq<Tcs>, maxVolume: nat, world: World)
    requires Budget(p, maxVolume) && Books(p, tcs, estimates, world)
    requires || |p.prepared| == MAX_PREPARED
             || p.preparedVolume >= maxVolume
             || (p.pending == [] && (p.pendingVolume + p.preparedVolume >= maxVolume
                                     || NoneFits(tcs, maxVolume, maxVolume - p.pendingVolume - p.preparedVolume)))
    ensures NothingLeft(p.prepared, tcs, estimates, maxVolume, world)
  {
    if p.pending == [] {
      assert Indexes(p.pending) + PreparedIndexes(p.prepared) == PreparedIndexes(p.prepared);
    }
  }

  lemma {:induction false} BooksClosed(p: Plan, tcs: seq<Tcs>, estimates: seq<Tcs>, world: World)
    requires Books(p, tcs, estimates, world)
    ensures Ledger([], p.prepared, tcs, estimates) && Truthful([], p.prepared, world)
  {
  }

  lemma {:induction false} BudgetCovers(p: Plan, maxVolume: nat)
    requires Budget(p, maxVolume)
    ensures WithinReservation(p.prepared, maxVolume) ==> Committed(p.prepared) <= maxVolume
    ensures BelowBefore(p.prepared, maxVolume)
  {
  }

  /** Any candidate that fits the available volume, or the end of the list if none does. */
  method Pick(tcs: array<Tcs>, maxVolume: nat, available: int) returns (sample: nat)
    ensures sample <= tcs.Length
    ensures sample < tcs.Length ==> Fits(tcs[sample], maxVolume, available)
    ensures sample == tcs.Length ==> NoneFits(tcs[..], maxVolume, available)
  {
    if i: nat :| i < tcs.Length && Fits(tcs[i], maxVolume, available) {
      sample := i;
    } else {
      sample := tcs.Length;
    }
  }

  /** Marks the candidate and, if it is accepted, adds its job. */
  method Start(tcs: array<Tcs>, sample: nat, p: Plan, maxVolume: nat, world: World, ghost estimates: seq<Tcs>)
    returns (p': Plan)
    requires sample < tcs.Length && Fits(tcs[sample], maxVolume, maxVolume - p.pendingVolume - p.preparedVolume)
    requires Budget(p, maxVolume) && Books(p, tcs[..], estimates, world)
    modifies tcs
    ensures Budget(p', maxVolume) && Books(p', tcs[..], estimates, world)
    ensures Unstarted(tcs[..]) < old(Unstarted(tcs[..]))
    ensures p'.prepared == p.prepared && |p'.pending| <= |p.pending| + 1
  {
    var volume := tcs[sample].volume;
    ghost var before := tcs[..];
    MarkOne(before, sample);
    StartBooks(p, sample, before, estimates, world);
    StartBudget(p, Job(sample, volume), maxVolume);
    tcs[sample] := tcs[sample].(volume := STARTED);
    assert tcs[..] == before[sample := before[sample].(volume := STARTED)];
    p' := if world.accepts(sample) then Launched(p, Job(sample, volume)) else p;
  }

  /**
   Waits for one of the pending jobs. Its reservation is released; an executable result
   commits its volume, a failed or unexecutable one leaves nothing behind.
   */
  method AwaitOne(p: Plan, maxVolume: nat, world: World, ghost tcs: seq<Tcs>, ghost estimates: seq<Tcs>)
    returns (p': Plan)
    requires |p.pending| > 0 && p.preparedVolume < maxVolume
    requires Budget(p, maxVolume) && Books(p, tcs, estimates, world)
    ensures Budget(p', maxVolume) && Books(p', tcs, estimates, world)
    ensures |p'.pending| == |p.pending| - 1 && |p.prepared| <= |p'.prepared| <= |p.prepared| + 1
  {
    var k: nat :| k < |p.pending|;
    CompletedBudget(p, k, maxVolume, world);
    CompletedBooks(p, k, tcs, estimates, world);
    p' := Completed(p, k, world);
  }
}
