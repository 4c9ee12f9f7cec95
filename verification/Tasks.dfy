/**
 What a worker does with the shared state while it holds the lock: pick the next
 task, and take a finished task off the books.
 */
module Tasks {
  import opened Pools

  type Pubkey = nat

  /** A token conditional swap candidate: account, swap id and estimated volume. */
  datatype Tcs = Tcs(account: Pubkey, id: nat, volume: nat)

  datatype Task =
    | Liquidation(account: Pubkey)
    | TakeTcs(batch: seq<Tcs>)
    | GiveUpTcs
    | NoWork

  /** The part of the shared state the workers and the scanning jobs use. */
  datatype Shared = Shared(liq: Pool<Pubkey>, tcs: Pool<Tcs>)

  const MAX_TCS_BATCH_SIZE: nat := 20

  ghost predicate ValidShared(s: Shared) {
    ValidPool(s.liq) && ValidPool(s.tcs)
  }

  function NextTask(s: Shared, onlyLiquidation: bool): Task {
    var liq := Unclaimed(s.liq);
    if liq != [] then Liquidation(liq[0])
    else if onlyLiquidation then GiveUpTcs
    else
      var tcs := Unclaimed(s.tcs);
      if tcs == [] then NoWork
      else TakeTcs(tcs[..if |tcs| < MAX_TCS_BATCH_SIZE then |tcs| else MAX_TCS_BATCH_SIZE])
  }

  function Liquidations(t: Task): seq<Pubkey> {
    if t.Liquidation? then [t.account] else []
  }

  function Swaps(t: Task): seq<Tcs> {
    if t.TakeTcs? then t.batch else []
  }

  function ClaimTask(s: Shared, t: Task): Shared {
    Shared(Claim(s.liq, Liquidations(t)), Claim(s.tcs, Swaps(t)))
  }

  function ReleaseTask(s: Shared, t: Task): Shared {
    Shared(Release(s.liq, Liquidations(t)), Release(s.tcs, Swaps(t)))
  }

  /**
   What a pull achieves. A liquidation is preferred and the oldest one is taken;
   otherwise a general worker takes the oldest swaps, at most 20, and a reserved
   worker leaves them alone. `NoWork` is only given when nothing is unclaimed.
   */
  lemma PullEffect(s: Shared, onlyLiquidation: bool)
    requires ValidShared(s)
    ensures var t := NextTask(s, onlyLiquidation);
            var s' := ClaimTask(s, t);
            && ValidShared(s')
            && Unclaimed(s.liq) == Liquidations(t) + Unclaimed(s'.liq)
            && Unclaimed(s.tcs) == Swaps(t) + Unclaimed(s'.tcs)
            && |Swaps(t)| <= 20
            && (t.Liquidation? <==> Unclaimed(s.liq) != [])
            && (t.GiveUpTcs? <==> onlyLiquidation && Unclaimed(s.liq) == [])
            && (t.NoWork? <==> !onlyLiquidation && Unclaimed(s.liq) == [] && Unclaimed(s.tcs) == [])
            && (t.TakeTcs? ==> t.batch != [] && (|t.batch| < 20 ==> Unclaimed(s'.tcs) == []))
  {
    var t := NextTask(s, onlyLiquidation);
    assert Liquidations(t) == Unclaimed(s.liq)[..|Liquidations(t)|];
    assert Swaps(t) == Unclaimed(s.tcs)[..|Swaps(t)|];
    ClaimTakesFront(s.liq, |Liquidations(t)|);
    ClaimTakesFront(s.tcs, |Swaps(t)|);
  }

  /** Finishing a claimed task drops its entries and never touches unclaimed ones. */
  lemma FinalizeEffect(s: Shared, t: Task)
    requires ValidShared(s)
    requires Elements(Liquidations(t)) <= s.liq.processing && Elements(Swaps(t)) <= s.tcs.processing
    ensures var s' := ReleaseTask(s, t);
            && ValidShared(s')
            && Unclaimed(s'.liq) == Unclaimed(s.liq)
            && Unclaimed(s'.tcs) == Unclaimed(s.tcs)
            && (forall x :: x in Liquidations(t) ==> x !in s'.liq.candidates)
            && (forall x :: x in Swaps(t) ==> x !in s'.tcs.candidates)
  {
    ReleaseKeepsUnclaimed(s.liq, Liquidations(t));
    ReleaseKeepsUnclaimed(s.tcs, Swaps(t));
    WithoutMembers(s.liq.candidates, Elements(Liquidations(t)));
    WithoutMembers(s.tcs.candidates, Elements(Swaps(t)));
  }
}
