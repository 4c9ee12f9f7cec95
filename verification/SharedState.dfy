/** The shared state as the workers and scanning jobs update it under the lock. */
module SharedStateObject {
  import opened Pools
  import opened Tasks

  class SharedState {
    var liquidationCandidates: seq<Pubkey>
    var interestingTcs: seq<Tcs>
    var processingLiquidation: set<Pubkey>
    var processingTcs: set<Tcs>

    ghost function View(): Shared
      reads this
    {
      Shared(Pool(liquidationCandidates, processingLiquidation), Pool(interestingTcs, processingTcs))
    }

    constructor ()
      ensures View() == Shared(Pool([], {}), Pool([], {})) && ValidShared(View())
    {
      liquidationCandidates, interestingTcs := [], [];
      processingLiquidation, processingTcs := {}, {};
    }

    /** Returns whether the candidate is new; only then does the scanning job send a token. */
    method InsertLiquidation(account: Pubkey) returns (isNew: bool)
      requires ValidShared(View())
      modifies this
      ensures View() == old(View()).(liq := Insert(old(View()).liq, account))
      ensures ValidShared(View())
      ensures isNew <==> old(account !in liquidationCandidates)
    {
      InsertAddsOne(View().liq, account);
      isNew := account !in liquidationCandidates;
      if isNew {
        liquidationCandidates := liquidationCandidates + [account];
      }
    }

    method InsertTcs(swap: Tcs) returns (isNew: bool)
      requires ValidShared(View())
      modifies this
      ensures View() == old(View()).(tcs := Insert(old(View()).tcs, swap))
      ensures ValidShared(View())
      ensures isNew <==> old(swap !in interestingTcs)
    {
      InsertAddsOne(View().tcs, swap);
      isNew := swap !in interestingTcs;
      if isNew {
        interestingTcs := interestingTcs + [swap];
      }
    }

    /** Picks and marks the next task; the count of open swaps cannot underflow. */
    method PullTask(onlyLiquidation: bool) returns (task: Task, tcsTodo: nat)
      requires ValidShared(View())
      modifies this
      ensures task == NextTask(old(View()), onlyLiquidation)
      ensures View() == ClaimTask(old(View()), task)
      ensures ValidShared(View())
      ensures tcsTodo == |old(interestingTcs)| - |old(processingTcs)|
    {
      ghost var before := View();
      PullEffect(before, onlyLiquidation);
      ProcessingFits(before.tcs);
      tcsTodo := |interestingTcs| - |processingTcs|;

      var next := FirstOutside(liquidationCandidates, processingLiquidation);
      if next < |liquidationCandidates| {
        task := Liquidation(liquidationCandidates[next]);
        LiquidationClaimed(before, task.account);
        processingLiquidation := processingLiquidation + {task.account};
        return;
      }
      NothingClaimedOrReleased(before.liq);
      if onlyLiquidation {
        NothingClaimedOrReleased(before.tcs);
        return GiveUpTcs, tcsTodo;
      }
      var batch := TakeOutside(interestingTcs, processingTcs, MAX_TCS_BATCH_SIZE);
      task := if |batch| > 0 then TakeTcs(batch) else NoWork;
      assert Swaps(task) == batch;
      MarkProcessing(batch);
    }

    method MarkProcessing(batch: seq<Tcs>)
      modifies this`processingTcs
      ensures processingTcs == old(processingTcs) + Elements(batch)
    {
      var j := 0;
      while j < |batch|
        invariant 0 <= j <= |batch|
        invariant processingTcs == old(processingTcs) + Elements(batch[..j])
      {
        assert Elements(batch[..j + 1]) == Elements(batch[..j]) + {batch[j]};
        processingTcs := processingTcs + {batch[j]};
        j := j + 1;
      }
      assert batch[..j] == batch;
    }

    /** Takes a finished task off the books. */
    method FinalizeTask(task: Task)
      requires ValidShared(View())
      requires Elements(Liquidations(task)) <= processingLiquidation && Elements(Swaps(task)) <= processingTcs
      modifies this
      ensures View() == ReleaseTask(old(View()), task)
      ensures ValidShared(View())
    {
      ghost var before := View();
      FinalizeEffect(before, task);
      NothingClaimedOrReleased(before.liq);
      NothingClaimedOrReleased(before.tcs);
      match task
      case Liquidation(account) =>
        assert Elements([account]) == {account};
        liquidationCandidates := ShiftRemove(liquidationCandidates, account);
        processingLiquidation := processingLiquidation - {account};
      case TakeTcs(batch) =>
        RemoveSwaps(batch);
      case GiveUpTcs =>
      case NoWork =>
    }

    method RemoveSwaps(batch: seq<Tcs>)
      requires Distinct(interestingTcs)
      modifies this`interestingTcs, this`processingTcs
      ensures interestingTcs == Without(old(interestingTcs), Elements(batch))
      ensures processingTcs == old(processingTcs) - Elements(batch)
    {
      var j := 0;
      WithoutNone(interestingTcs);
      assert Elements(batch[..0]) == {};
      while j < |batch|
        invariant 0 <= j <= |batch|
        invariant interestingTcs == Without(old(interestingTcs), Elements(batch[..j]))
        invariant processingTcs == old(processingTcs) - Elements(batch[..j])
      {
        assert Elements(batch[..j + 1]) == Elements(batch[..j]) + {batch[j]};
        WithoutTwice(old(interestingTcs), Elements(batch[..j]), {batch[j]});
        WithoutMembers(old(interestingTcs), Elements(batch[..j]));
        interestingTcs := ShiftRemove(interestingTcs, batch[j]);
        processingTcs := processingTcs - {batch[j]};
        j := j + 1;
      }
      assert batch[..j] == batch;
    }
  }

  lemma LiquidationClaimed(s: Shared, account: Pubkey)
    ensures ClaimTask(s, Liquidation(account)) == s.(liq := s.liq.(processing := s.liq.processing + {account}))
  {
    NothingClaimedOrReleased(s.tcs);
    assert Elements([account]) == {account};
  }

  /** The position of the first element nobody processes, or the end. */
  method FirstOutside<T(==)>(s: seq<T>, gone: set<T>) returns (i: nat)
    ensures i <= |s|
    ensures if i == |s| then Without(s, gone) == [] else Without(s, gone) != [] && Without(s, gone)[0] == s[i]
  {
    i := 0;
    while i < |s| && s[i] in gone
      invariant 0 <= i <= |s| && Without(s[i..], gone) == Without(s, gone)
    {
      assert s[i..][1..] == s[i + 1..];
      i := i + 1;
    }
  }

  /** The first elements nobody processes, at most `limit` of them. */
  method TakeOutside<T(==)>(s: seq<T>, gone: set<T>, limit: nat) returns (batch: seq<T>)
    ensures batch == Without(s, gone)[..if |Without(s, gone)| < limit then |Without(s, gone)| else limit]
  {
    batch := [];
    var i := 0;
    while i < |s| && |batch| < limit
      invariant 0 <= i <= |s| && |batch| <= limit && Without(s, gone) == batch + Without(s[i..], gone)
    {
      TakeOne(s, gone, i, batch);
      if s[i] !in gone {
        batch := batch + [s[i]];
      }
      i := i + 1;
    }
    assert i == |s| ==> s[i..] == [];
  }

  lemma {:induction false} TakeOne<T>(s: seq<T>, gone: set<T>, i: nat, batch: seq<T>)
    requires i < |s|
    ensures batch + Without(s[i..], gone) == (if s[i] in gone then batch else batch + [s[i]]) + Without(s[i + 1..], gone)
  {
    assert s[i..][1..] == s[i + 1..];
  }

  /** Removes an element and closes the gap, as the ordered set does. */
  function ShiftRemove<T(==)>(s: seq<T>, x: T): (r: seq<T>)
    requires Distinct(s)
    ensures r == Without(s, {x})
  {
    if s == [] then []
    else if s[0] == x then
      assert forall y :: y in s[1..] ==> y != x by {
        forall i | 0 <= i < |s[1..]| ensures s[1..][i] != x { assert s[1..][i] == s[i + 1]; }
      }
      WithoutAgree(s[1..], {x}, {});
      WithoutNone(s[1..]);
      s[1..]
    else
      [s[0]] + ShiftRemove(s[1..], x)
  }
}
