/**
 When a settlement round leaves no fee-earning pair behind. A round stops at the first
 account that cannot be settled, so pairs can be lost; whether that can happen is
 decided by the order, amounts and fees of the positive side alone.
 */
module SettleCompleteness {

  import opened Settlement
  import opened SettleMarket

  /** No account could still earn a fee with any counterparty. */
  ghost predicate Complete(positives: seq<Positive>, m: Market, pairs: seq<Pairing>, remaining: map<Key, int>) {
    forall i :: 0 <= i < |positives| ==> NoPartner(Left(positives[i], pairs), positives[i].fee, remaining, m)
  }

  /**
   An account that may earn is not behind one that may not, nor (unless the threshold is
   at most the smallest amount) one with another fee behind one with the flat fee.
   */
  ghost predicate Safe(positives: seq<Positive>, m: Market) {
    forall i, j :: 0 <= i < j < |positives| ==> SafePair(positives[i], positives[j], m)
  }

  predicate SafePair(p: Positive, q: Positive, m: Market) {
    && (MayEarn(q.amount, q.fee, m) ==> MayEarn(p.amount, p.fee, m))
    && (m.feeAmountThreshold >= 2 && p.fee == m.feeFlat ==> q.fee == m.feeFlat)
  }

  /** A safe positive side is settled completely, whatever the counterparties are. */
  lemma SafeIsComplete(positives: seq<Positive>, negatives: map<Key, int>, m: Market,
                       pairs: seq<Pairing>, remaining: map<Key, int>, served: nat)
    requires ValidSides(positives, negatives) && Safe(positives, m)
    requires Round(positives, negatives, m, pairs, remaining, served)
    ensures Complete(positives, m, pairs, remaining)
  {
  }

  // ---------- unsafe sides lose pairs ----------

  /** A key larger than every account's. */
  function FreshKey(positives: seq<Positive>): (k: Key)
    ensures forall i :: 0 <= i < |positives| ==> positives[i].key < k
  {
    if positives == [] then 0
    else
      var n := |positives| - 1;
      var k := FreshKey(positives[..n]);
      assert forall i :: 0 <= i < n ==> positives[i] == positives[..n][i];
      if positives[n].key < k then k else positives[n].key + 1
  }

  lemma {:induction false} PrefixAmounts(positives: seq<Positive>, n: nat)
    requires n <= |positives| && forall i :: 0 <= i < |positives| ==> positives[i].amount > 0
    ensures 0 <= Amounts(positives[..n]) <= Amounts(positives)
  {
    if positives == [] || n == |positives| {
      assert positives[..n] == positives;
      if positives != [] {
        PrefixAmounts(positives[..n - 1], n - 1);
        assert positives[..n - 1][..n - 1] == positives[..n - 1];
      }
    } else {
      PrefixAmounts(positives[..|positives| - 1], n);
      assert positives[..|positives| - 1][..n] == positives[..n];
    }
  }

  /** One counterparty with more than all accounts can use. */
  function OneRich(positives: seq<Positive>, m: Market): map<Key, int> {
    var rich := Amounts(positives) + 1 + if m.feeAmountThreshold > 0 then m.feeAmountThreshold else 0;
    map[FreshKey(positives) := rich]
  }

  /** An account that may not earn stops the round in front of one that may. */
  lemma StoppedByThreshold(positives: seq<Positive>, m: Market, i: nat, j: nat,
                           pairs: seq<Pairing>, remaining: map<Key, int>, served: nat)
    requires i < j < |positives|
    requires ValidSides(positives, OneRich(positives, m))
    requires Round(positives, OneRich(positives, m), m, pairs, remaining, served)
    requires !MayEarn(positives[i].amount, positives[i].fee, m) && MayEarn(positives[j].amount, positives[j].fee, m)
    ensures !Complete(positives, m, pairs, remaining)
  {
    var b := FreshKey(positives);
    assert forall k :: 0 <= k < served ==> MayEarn(positives[k].amount, positives[k].fee, m);
    ProperIsPositive(positives[..served], OneRich(positives, m), pairs, m);
    GivenBounds(pairs, b);
    PrefixAmounts(positives, served);
    assert FeeEarning(Left(positives[j], pairs), remaining[b], positives[j].fee, m);
  }

  /** `n` counterparties, each with the smallest amount. */
  function ManySmall(lo: Key, n: nat): (r: map<Key, int>)
    ensures |r| == n && forall b :: b in r ==> lo <= b < lo + n && r[b] == 1
  {
    if n == 0 then map[] else ManySmall(lo, n - 1)[lo + n - 1 := 1]
  }

  /** More counterparties than all accounts can use up. */
  function Crowd(positives: seq<Positive>): map<Key, int>
    requires Amounts(positives) >= 0
  {
    ManySmall(FreshKey(positives), Amounts(positives) + 1)
  }

  ghost function Counterparties(pairs: seq<Pairing>): set<Key> {
    set i | 0 <= i < |pairs| :: pairs[i].b
  }

  lemma {:induction false} FewCounterparties(pairs: seq<Pairing>)
    ensures |Counterparties(pairs)| <= |pairs|
  {
    if pairs != [] {
      var n := |pairs| - 1;
      FewCounterparties(pairs[..n]);
      assert Counterparties(pairs) == Counterparties(pairs[..n]) + {pairs[n].b} by {
        assert forall i :: 0 <= i < n ==> pairs[..n][i] == pairs[i];
      }
    }
  }

  lemma {:induction false} NotGiven(pairs: seq<Pairing>, b: Key)
    requires b !in Counterparties(pairs)
    ensures Given(pairs, b) == 0
  {
    if pairs != [] {
      var n := |pairs| - 1;
      assert pairs[n].b != b;
      assert b !in Counterparties(pairs[..n]) by {
        assert forall i :: 0 <= i < n ==> pairs[..n][i] == pairs[i];
      }
      NotGiven(pairs[..n], b);
    }
  }

  /** Fewer pairings than counterparties leave one untouched. */
  lemma SomeoneUntouched(pairs: seq<Pairing>, negatives: map<Key, int>) returns (b: Key)
    requires |pairs| < |negatives|
    ensures b in negatives && Given(pairs, b) == 0
  {
    FewCounterparties(pairs);
    if negatives.Keys <= Counterparties(pairs) {
      SubsetSize(negatives.Keys, Counterparties(pairs));
    }
    b :| b in negatives && b !in Counterparties(pairs);
    NotGiven(pairs, b);
  }

  lemma {:induction false} SubsetSize(a: set<Key>, b: set<Key>)
    requires a <= b
    ensures |a| <= |b|
  {
    if a != {} {
      var x :| x in a;
      SubsetSize(a - {x}, b - {x});
    }
  }

  /** With every counterparty below the threshold, an account with the flat fee is never served. */
  lemma FlatNeverServed(positives: seq<Positive>, negatives: map<Key, int>, m: Market, i: nat,
                        pairs: seq<Pairing>, remaining: map<Key, int>, served: nat)
    requires ValidSides(positives, negatives) && i < |positives|
    requires Round(positives, negatives, m, pairs, remaining, served)
    requires positives[i].fee == m.feeFlat && forall b :: b in negatives ==> negatives[b] < m.feeAmountThreshold
    ensures served <= i
  {
    if i < served {
      assert Served(positives[i], pairs, remaining, m);
      TakenHasPair(pairs, positives[i].key);
      var k :| 0 <= k < |pairs| && pairs[k].a == positives[i].key;
      var i' :| 0 <= i' < served && Proper(pairs[k], positives[..served][i'], negatives, m);
      assert i' == i;
      ProperIsPositive(positives[..served], negatives, pairs, m);
      PairWithinGiven(pairs, k);
      assert false;
    }
  }

  /** An account with the flat fee stops the round in front of one with another fee. */
  lemma StoppedByFlatFee(positives: seq<Positive>, m: Market, i: nat, j: nat,
                         pairs: seq<Pairing>, remaining: map<Key, int>, served: nat)
    requires i < j < |positives| && Amounts(positives) >= 0
    requires ValidSides(positives, Crowd(positives))
    requires Round(positives, Crowd(positives), m, pairs, remaining, served)
    requires m.feeAmountThreshold >= 2 && positives[i].fee == m.feeFlat && positives[j].fee != m.feeFlat
    ensures !Complete(positives, m, pairs, remaining)
  {
    var negatives := Crowd(positives);
    FlatNeverServed(positives, negatives, m, i, pairs, remaining, served);
    ProperIsPositive(positives[..served], negatives, pairs, m);
    GivenBounds(pairs, 0);
    PrefixAmounts(positives, served);
    var b := SomeoneUntouched(pairs, negatives);
    assert remaining[b] == 1;
    assert FeeEarning(Left(positives[j], pairs), remaining[b], positives[j].fee, m);
  }

  ghost predicate AlwaysComplete(positives: seq<Positive>, negatives: map<Key, int>, m: Market) {
    forall pairs, remaining, served :: Round(positives, negatives, m, pairs, remaining, served)
                                       ==> Complete(positives, m, pairs, remaining)
  }

  /** A safe side is settled completely against all counterparties; an unsafe side against some is not. */
  lemma CompleteIffSafe(positives: seq<Positive>, m: Market)
    requires ValidSides(positives, map[])
    ensures Safe(positives, m) ==>
              forall negatives :: ValidSides(positives, negatives) ==> AlwaysComplete(positives, negatives, m)
    ensures !Safe(positives, m) ==>
              exists negatives :: ValidSides(positives, negatives) && NeverComplete(positives, negatives, m)
  {
    if Safe(positives, m) {
      forall negatives | ValidSides(positives, negatives) ensures AlwaysComplete(positives, negatives, m) {
        forall pairs, remaining, served | Round(positives, negatives, m, pairs, remaining, served)
          ensures Complete(positives, m, pairs, remaining)
        {
          SafeIsComplete(positives, negatives, m, pairs, remaining, served);
        }
      }
    } else {
      var negatives := LosingCounterparties(positives, m);
    }
  }

  ghost predicate NeverComplete(positives: seq<Positive>, negatives: map<Key, int>, m: Market) {
    forall pairs, remaining, served :: Round(positives, negatives, m, pairs, remaining, served)
                                       ==> !Complete(positives, m, pairs, remaining)
  }

  lemma LosingCounterparties(positives: seq<Positive>, m: Market) returns (negatives: map<Key, int>)
    requires ValidSides(positives, map[]) && !Safe(positives, m)
    ensures ValidSides(positives, negatives) && NeverComplete(positives, negatives, m)
  {
    PrefixAmounts(positives, |positives|);
    assert positives[..|positives|] == positives;
    var i, j :| 0 <= i < j < |positives| && !SafePair(positives[i], positives[j], m);
    if MayEarn(positives[j].amount, positives[j].fee, m) && !MayEarn(positives[i].amount, positives[i].fee, m) {
      negatives := OneRich(positives, m);
      forall pairs, remaining, served | Round(positives, negatives, m, pairs, remaining, served)
        ensures !Complete(positives, m, pairs, remaining)
      {
        StoppedByThreshold(positives, m, i, j, pairs, remaining, served);
      }
    } else {
      negatives := Crowd(positives);
      forall pairs, remaining, served | Round(positives, negatives, m, pairs, remaining, served)
        ensures !Complete(positives, m, pairs, remaining)
      {
        StoppedByFlatFee(positives, m, i, j, pairs, remaining, served);
      }
    }
  }
}
