/**
 Which accounts of a market can make a settlement round lose fee-earning pairs, told
 from the fees the market pays.
 */
module SettleFees {

  import opened Settlement
  import opened SettleMarket
  import opened SettleCompleteness
  import StableSort
  import opened Common

  /** What the market's fee schedule allows. */
  predicate MarketFee(p: Positive, m: Market) {
    && (p.amount >= m.feeAmountThreshold ==> p.fee == Min(m.feeFlat, p.amount))
    && (p.amount < m.feeAmountThreshold ==> 0 <= p.fee <= Min(2 * m.feeFlat, p.amount))
  }

  lemma {:induction false} PositivesHaveMarketFees(accounts: seq<Account>, m: Market)
    ensures forall i :: 0 <= i < |Positives(accounts, m)| ==> MarketFee(Positives(accounts, m)[i], m)
  {
    if accounts != [] {
      PositivesHaveMarketFees(accounts[..|accounts| - 1], m);
    }
  }

  /** With a flat fee within the threshold, only accounts below the threshold have a lower fee. */
  lemma LowerFeeIsSmall(p: Positive, m: Market)
    requires MarketFee(p, m) && m.feeFlat <= m.feeAmountThreshold
    ensures p.amount >= m.feeAmountThreshold ==> p.fee == m.feeFlat
    ensures p.fee < m.feeFlat ==> p.amount < m.feeAmountThreshold
  {
  }

  /** An account with the flat fee that can fail to settle in front of one that would. */
  predicate Blocks(p: Positive, m: Market) {
    IsFlat(p, m) && (m.feeAmountThreshold >= 2 || !IsLarge(p, m))
  }

  /** Some account may block one whose fee is below the flat one. */
  ghost predicate Mixed(positives: seq<Positive>, m: Market) {
    exists i, j :: 0 <= i < |positives| && 0 <= j < |positives| && Blocks(positives[i], m) && positives[j].fee < m.feeFlat
  }

  /** The accounts with the flat fee, in order. */
  function Flats(positives: seq<Positive>, m: Market): seq<Positive> {
    if positives == [] then []
    else
      var last := positives[|positives| - 1];
      Flats(positives[..|positives| - 1], m) + if IsFlat(last, m) then [last] else []
  }

  /** Among the accounts with the flat fee, those above the threshold come first. */
  ghost predicate LargeFirst(s: seq<Positive>, m: Market) {
    forall i, j :: 0 <= i < j < |s| && IsFlat(s[i], m) && IsFlat(s[j], m) && IsLarge(s[j], m) ==> IsLarge(s[i], m)
  }

  predicate IsFlat(p: Positive, m: Market) { p.fee == m.feeFlat }

  predicate IsLarge(p: Positive, m: Market) { p.amount > m.feeAmountThreshold }

  // ---------- sorting by fee keeps the accounts with the flat fee in order ----------

  function Strip(s: seq<StableSort.Entry<Positive>>): (r: seq<Positive>)
    ensures |r| == |s| && forall i :: 0 <= i < |r| ==> r[i] == s[i].account
  {
    seq(|s|, i requires 0 <= i < |s| => s[i].account)
  }

  ghost predicate ByFeeKeys(s: seq<StableSort.Entry<Positive>>) {
    forall i :: 0 <= i < |s| ==> s[i].pnl == -s[i].account.fee
  }

  lemma {:induction false} FlatsAreOneKey(s: seq<StableSort.Entry<Positive>>, m: Market)
    requires ByFeeKeys(s)
    ensures Flats(Strip(s), m) == Strip(StableSort.WithKey(s, 0 - m.feeFlat))
  {
    if s != [] {
      var n := |s| - 1;
      FlatsAreOneKey(s[..n], m);
      assert Strip(s)[..n] == Strip(s[..n]);
      var front := StableSort.WithKey(s[..n], 0 - m.feeFlat);
      assert Strip(front + [s[n]]) == Strip(front) + [s[n].account];
    }
  }

  lemma {:induction false} FlatsKept(positives: seq<Positive>, m: Market)
    ensures Flats(ByFee(positives), m) == Flats(positives, m)
  {
    var s := Keyed(positives);
    StableSort.SortSpec(s);
    var t := StableSort.Sort(s);
    forall i | 0 <= i < |t| ensures t[i].pnl == -t[i].account.fee {
      SortedPositive(positives, i);
    }
    FlatsAreOneKey(t, m);
    FlatsAreOneKey(s, m);
    assert Strip(t) == ByFee(positives);
    assert Strip(s) == positives;
  }

  lemma MixedKept(positives: seq<Positive>, m: Market)
    ensures Mixed(ByFee(positives), m) <==> Mixed(positives, m)
  {
    ByFeeMembers(positives);
    if Mixed(positives, m) {
      var i, j :| 0 <= i < |positives| && 0 <= j < |positives| && Blocks(positives[i], m) && positives[j].fee < m.feeFlat;
      SortedMember(positives, i);
      SortedMember(positives, j);
    }
    if Mixed(ByFee(positives), m) {
      var s := ByFee(positives);
      var i, j :| 0 <= i < |s| && 0 <= j < |s| && Blocks(s[i], m) && s[j].fee < m.feeFlat;
      assert s[i] in positives && s[j] in positives;
    }
  }

  lemma SortedMember(positives: seq<Positive>, i: nat)
    requires i < |positives|
    ensures exists k :: 0 <= k < |ByFee(positives)| && ByFee(positives)[k] == positives[i]
  {
    ByFeeMembers(positives);
    assert positives[i] in ByFee(positives);
  }

  // ---------- safe sides ----------

  ghost predicate AllLarge(s: seq<Positive>, m: Market) {
    forall i :: 0 <= i < |s| && IsFlat(s[i], m) ==> IsLarge(s[i], m)
  }

  lemma {:induction false} AllLargeSplit(s: seq<Positive>, p: Positive, m: Market)
    ensures AllLarge(s + [p], m) <==> AllLarge(s, m) && (IsFlat(p, m) ==> IsLarge(p, m))
  {
    var all := s + [p];
    assert all[|s|] == p;
    assert forall i :: 0 <= i < |s| ==> all[i] == s[i];
  }

  lemma {:induction false} LargeFirstSplit(s: seq<Positive>, p: Positive, m: Market)
    ensures LargeFirst(s + [p], m) <==> LargeFirst(s, m) && (IsFlat(p, m) && IsLarge(p, m) ==> AllLarge(s, m))
  {
    var all := s + [p];
    assert all[|s|] == p;
    assert forall i :: 0 <= i < |s| ==> all[i] == s[i];
    if LargeFirst(all, m) && IsFlat(p, m) && IsLarge(p, m) {
      forall i | 0 <= i < |s| && IsFlat(s[i], m) ensures IsLarge(s[i], m) {
        assert IsFlat(all[i], m) && IsFlat(all[|s|], m);
      }
    }
    if LargeFirst(all, m) {
      forall i, j | 0 <= i < j < |s| && IsFlat(s[i], m) && IsFlat(s[j], m) && IsLarge(s[j], m) ensures IsLarge(s[i], m) {
        assert IsFlat(all[i], m) && IsFlat(all[j], m) && IsLarge(all[j], m);
      }
    }
  }

  /** Only the accounts with the flat fee matter. */
  lemma {:induction false} FlatsDecide(s: seq<Positive>, m: Market)
    ensures LargeFirst(s, m) <==> LargeFirst(Flats(s, m), m)
    ensures AllLarge(s, m) <==> AllLarge(Flats(s, m), m)
  {
    if s != [] {
      var n := |s| - 1;
      FlatsDecide(s[..n], m);
      assert s == s[..n] + [s[n]];
      AllLargeSplit(s[..n], s[n], m);
      LargeFirstSplit(s[..n], s[n], m);
      AllLargeSplit(Flats(s[..n], m), s[n], m);
      LargeFirstSplit(Flats(s[..n], m), s[n], m);
      assert Flats(s[..n], m) + [] == Flats(s[..n], m);
    }
  }

  ghost predicate Descending(s: seq<Positive>) {
    forall i, j :: 0 <= i < j < |s| ==> s[i].fee >= s[j].fee
  }

  lemma FlatBeforeLower(s: seq<Positive>, m: Market, i: nat, j: nat)
    requires Descending(s) && i < |s| && j < |s| && Blocks(s[i], m) && s[j].fee < m.feeFlat && s[j].amount > 0
    ensures !Safe(s, m)
  {
    assert i < j;
    assert !SafePair(s[i], s[j], m);
  }

  /** In fee order a side is safe if no fee is lower than a flat one and the large flat ones come first. */
  lemma SafeWhenSorted(s: seq<Positive>, m: Market)
    requires Descending(s) && forall i :: 0 <= i < |s| ==> s[i].amount > 0
    ensures Safe(s, m) <==> !Mixed(s, m) && LargeFirst(s, m)
  {
    if Mixed(s, m) {
      var i, j :| 0 <= i < |s| && 0 <= j < |s| && Blocks(s[i], m) && s[j].fee < m.feeFlat;
      FlatBeforeLower(s, m, i, j);
    } else if Safe(s, m) {
      forall i, j | 0 <= i < j < |s| && IsFlat(s[i], m) && IsFlat(s[j], m) && IsLarge(s[j], m) ensures IsLarge(s[i], m) {
        assert SafePair(s[i], s[j], m);
      }
    } else {
      var i, j :| 0 <= i < j < |s| && !SafePair(s[i], s[j], m);
      assert s[i].fee >= s[j].fee;
      assert Blocks(s[i], m) ==> IsFlat(s[j], m);
    }
  }

  lemma {:induction false} SafeIffUnmixed(positives: seq<Positive>, m: Market)
    requires ValidSides(positives, map[])
    ensures Safe(ByFee(positives), m) <==> !Mixed(positives, m) && LargeFirst(positives, m)
  {
    ByFeeSpec(positives, map[]);
    SafeWhenSorted(ByFee(positives), m);
    MixedKept(positives, m);
    FlatsDecide(ByFee(positives), m);
    FlatsKept(positives, m);
    FlatsDecide(positives, m);
  }

  /**
   Every round over these accounts is complete, whatever the counterparties, if and only if
   no account's fee is below the flat fee while another's is the flat fee, and among the
   accounts with the flat fee those above the threshold come first. Otherwise there are
   counterparties for which no round is. (With a threshold below two of the smallest units
   a large account at the flat fee cannot fail and does not count.)
   */
  lemma {:induction false} AlwaysCompleteIff(accounts: seq<Account>, m: Market)
    requires UniqueKeys(accounts)
    ensures var positives := Positives(accounts, m);
            var s := ByFee(positives);
            if !Mixed(positives, m) && LargeFirst(positives, m)
            then forall negatives :: ValidSides(s, negatives) ==> AlwaysComplete(s, negatives, m)
            else exists negatives :: ValidSides(s, negatives) && NeverComplete(s, negatives, m)
  {
    var positives := Positives(accounts, m);
    SidesAreDisjoint(accounts, m);
    assert ValidSides(positives, map[]);
    ByFeeSpec(positives, map[]);
    SafeIffUnmixed(positives, m);
    CompleteIffSafe(ByFee(positives), m);
  }

  // ---------- for given counterparties ----------

  /**
   A round that stopped early has lost nothing if and only if the counterparties are used up,
   or every account behind the one it stopped at has the flat fee and is not above the
   threshold, or has it while no counterparty has the threshold left.
   */
  lemma {:induction false} StoppedCompleteIff(positives: seq<Positive>, negatives: map<Key, int>, m: Market,
                                              pairs: seq<Pairing>, remaining: map<Key, int>, served: nat, top: Key)
    requires ValidSides(positives, negatives) && Round(positives, negatives, m, pairs, remaining, served)
    requires served < |positives|
    requires top in remaining && forall b :: b in remaining ==> remaining[b] <= remaining[top]
    ensures Complete(positives, m, pairs, remaining) <==>
              || remaining[top] <= 0
              || forall j :: served < j < |positives| ==>
                   IsFlat(positives[j], m) && (!IsLarge(positives[j], m) || remaining[top] < m.feeAmountThreshold)
  {
    forall j | served < j < |positives|
      ensures NoPartner(Left(positives[j], pairs), positives[j].fee, remaining, m)
         <==> remaining[top] <= 0 || (IsFlat(positives[j], m) && (!IsLarge(positives[j], m) || remaining[top] < m.feeAmountThreshold))
    {
      BestDecides(positives[j], remaining, m, top);
    }
  }

  lemma {:induction false} BestDecides(p: Positive, remaining: map<Key, int>, m: Market, top: Key)
    requires p.amount > 0 && top in remaining && forall b :: b in remaining ==> remaining[b] <= remaining[top]
    ensures NoPartner(p.amount, p.fee, remaining, m)
       <==> remaining[top] <= 0 || (IsFlat(p, m) && (!IsLarge(p, m) || remaining[top] < m.feeAmountThreshold))
  {
    if FeeEarning(p.amount, remaining[top], p.fee, m) {
      assert !NoPartner(p.amount, p.fee, remaining, m);
    } else {
      PeekDecides(p.amount, p.fee, remaining, top, m);
    }
  }

  // ---------- told from the accounts ----------

  function Listed(acc: Account, m: Market): Positive {
    Positive(acc.key, acc.settleable, SettleFee(acc, m))
  }

  lemma {:induction false} WorthyAreListed(accounts: seq<Account>, m: Market, p: Positive)
    ensures p in Positives(accounts, m)
       <==> exists i :: 0 <= i < |accounts| && WorthSettling(accounts[i], m) && p == Listed(accounts[i], m)
  {
    if accounts != [] {
      var n := |accounts| - 1;
      var front := accounts[..n];
      WorthyAreListed(front, m, p);
      assert forall i :: 0 <= i < n ==> front[i] == accounts[i];
      if WorthSettling(accounts[n], m) && p == Listed(accounts[n], m) {
        assert p in Positives(accounts, m);
      }
    }
  }

  /** If every account worth settling is above the threshold, rounds are always complete. */
  lemma {:induction false} LargeAccountsAreComplete(accounts: seq<Account>, m: Market)
    requires UniqueKeys(accounts) && m.feeFlat <= m.feeAmountThreshold
    requires forall i :: 0 <= i < |accounts| && WorthSettling(accounts[i], m) ==> accounts[i].settleable > m.feeAmountThreshold
    ensures forall negatives :: ValidSides(ByFee(Positives(accounts, m)), negatives)
                                ==> AlwaysComplete(ByFee(Positives(accounts, m)), negatives, m)
  {
    var positives := Positives(accounts, m);
    PositivesHaveMarketFees(accounts, m);
    forall i | 0 <= i < |positives| ensures IsFlat(positives[i], m) && IsLarge(positives[i], m) {
      WorthyAreListed(accounts, m, positives[i]);
      LowerFeeIsSmall(positives[i], m);
    }
    AlwaysCompleteIff(accounts, m);
  }

  /**
   An account at or above the threshold together with one of low health that is worth settling
   for less than the flat fee: there are counterparties for which no round is complete.
   */
  lemma {:induction false} LowHealthBesideLarge(accounts: seq<Account>, m: Market, i: nat, j: nat)
    requires UniqueKeys(accounts) && m.feeFlat <= m.feeAmountThreshold
    requires i < |accounts| && WorthSettling(accounts[i], m) && accounts[i].settleable >= m.feeAmountThreshold
    requires j < |accounts| && WorthSettling(accounts[j], m) && accounts[j].settleable < m.feeAmountThreshold
    requires accounts[j].lowHealthFee < m.feeFlat
    ensures exists negatives :: ValidSides(ByFee(Positives(accounts, m)), negatives)
                                && NeverComplete(ByFee(Positives(accounts, m)), negatives, m)
  {
    var positives := Positives(accounts, m);
    WorthyAreListed(accounts, m, Listed(accounts[i], m));
    WorthyAreListed(accounts, m, Listed(accounts[j], m));
    var k :| 0 <= k < |positives| && positives[k] == Listed(accounts[i], m);
    var l :| 0 <= l < |positives| && positives[l] == Listed(accounts[j], m);
    assert positives[k].fee == m.feeFlat && positives[l].fee < m.feeFlat;
    assert Mixed(positives, m);
    AlwaysCompleteIff(accounts, m);
  }

  // ---------- a lost pair ----------

  lemma {:induction false} TwoByFee(p: Positive, q: Positive)
    requires p.fee >= q.fee
    ensures ByFee([p, q]) == [p, q]
  {
    var s := Keyed([p, q]);
    assert s[..1] == [s[0]] && s[..1][..0] == [];
    assert StableSort.Sort(s[..1]) == [s[0]] by {
      assert StableSort.Sort(s[..1][..0]) == [];
    }
    assert StableSort.Sort(s) == [s[0], s[1]];
  }

  lemma {:induction false} OneMoreAccount(front: seq<Account>, acc: Account, m: Market)
    ensures Positives(front + [acc], m)
         == Positives(front, m) + if WorthSettling(acc, m) then [Positive(acc.key, acc.settleable, SettleFee(acc, m))] else []
    ensures Negatives(front + [acc])
         == if acc.settleable < 0 then Negatives(front)[acc.key := -acc.settleable] else Negatives(front)
  {
    assert (front + [acc])[..|front|] == front;
  }

  /**
   Three accounts: a large one at the flat fee, one of low health below the threshold, and a
   counterparty below the threshold. The first account cannot be settled for a fee and stops
   the round; the second would have earned its fee with the counterparty.
   */
  lemma {:induction false} LostPairExample()
    ensures var m := Market(100, 1000);
            var accounts := [Account(1, 5000, true, 0), Account(2, 500, true, 60), Account(3, -700, true, 0)];
            && UniqueKeys(accounts)
            && ByFee(Positives(accounts, m)) == [Positive(1, 5000, 100), Positive(2, 500, 60)]
            && Negatives(accounts) == map[3 := 700]
            && FeeEarning(500, 700, 60, m)
            && NeverComplete(ByFee(Positives(accounts, m)), Negatives(accounts), m)
  {
    var m := Market(100, 1000);
    var accounts := [Account(1, 5000, true, 0), Account(2, 500, true, 60), Account(3, -700, true, 0)];
    OneMoreAccount([], accounts[0], m);
    assert [] + [accounts[0]] == [accounts[0]];
    OneMoreAccount([accounts[0]], accounts[1], m);
    assert [accounts[0]] + [accounts[1]] == [accounts[0], accounts[1]];
    OneMoreAccount([accounts[0], accounts[1]], accounts[2], m);
    assert [accounts[0], accounts[1]] + [accounts[2]] == accounts;
    assert Positives(accounts, m) == [Positive(1, 5000, 100), Positive(2, 500, 60)];
    assert Negatives(accounts) == map[3 := 700];
    TwoByFee(Positive(1, 5000, 100), Positive(2, 500, 60));
    LostToFlatFee();
  }

  lemma {:induction false} LostToFlatFee()
    ensures NeverComplete([Positive(1, 5000, 100), Positive(2, 500, 60)], map[3 := 700], Market(100, 1000))
  {
    var m, positives, negatives := Market(100, 1000), [Positive(1, 5000, 100), Positive(2, 500, 60)], map[3 := 700];
    forall pairs, remaining, served | Round(positives, negatives, m, pairs, remaining, served)
      ensures !Complete(positives, m, pairs, remaining)
    {
      FlatNeverServed(positives, negatives, m, 0, pairs, remaining, served);
      assert pairs == [];
      assert remaining[3] == 700;
      assert FeeEarning(Left(positives[1], pairs), remaining[3], positives[1].fee, m);
    }
  }
}
