/**
 Matching accounts with positive perp pnl against accounts with negative pnl in one
 market. The counterparties sit in a priority queue whose entries shrink as they settle.
 Amounts and fees are I80F48 bit patterns.
 */
module Settlement {

  import opened Common

  type Key = nat

  datatype Market = Market(feeFlat: nat, feeAmountThreshold: int)

  /**
   An account's settleable pnl in the market, whether its pnl is at least one percent of
   its position, and the fee its low health would pay.
   */
  datatype Account = Account(key: Key, settleable: int, onePercent: bool, lowHealthFee: nat)

  datatype Positive = Positive(key: Key, amount: int, fee: int)

  datatype Pairing = Pairing(a: Key, b: Key, amount: int)

  // ---------- sorting accounts into the two sides ----------

  ghost predicate UniqueKeys(accounts: seq<Account>) {
    forall i, j :: 0 <= i < j < |accounts| ==> accounts[i].key != accounts[j].key
  }

  /**
   What the market pays for settling the account: the flat fee from the threshold on, below
   it the low-health fee up to twice the flat fee, and never more than is settled.
   */
  function SettleFee(acc: Account, m: Market): int {
    if !acc.onePercent then 0
    else
      var fee := if acc.settleable >= m.feeAmountThreshold then m.feeFlat else Min(acc.lowHealthFee, 2 * m.feeFlat);
      Min(fee, acc.settleable)
  }

  /** What the fee of an account may not exceed. */
  predicate WithinFee(acc: Account, m: Market, fee: int) {
    && fee <= acc.settleable
    && (acc.settleable >= m.feeAmountThreshold ==> fee <= m.feeFlat)
    && (acc.settleable < m.feeAmountThreshold ==> fee <= acc.lowHealthFee && fee <= 2 * m.feeFlat)
  }

  /** The fee is the largest one allowed, or none if the pnl is too small a part of the position. */
  lemma SettleFeeIsLargest(acc: Account, m: Market)
    ensures !acc.onePercent ==> SettleFee(acc, m) == 0
    ensures acc.onePercent ==> WithinFee(acc, m, SettleFee(acc, m))
    ensures acc.onePercent ==> forall fee :: WithinFee(acc, m, fee) ==> fee <= SettleFee(acc, m)
  {
  }

  /** The fee makes up for a share of the transaction fee. */
  predicate WorthSettling(acc: Account, m: Market) {
    acc.settleable > 0 && 10 * SettleFee(acc, m) > m.feeFlat
  }

  function Positives(accounts: seq<Account>, m: Market): seq<Positive> {
    if accounts == [] then []
    else
      var acc := accounts[|accounts| - 1];
      Positives(accounts[..|accounts| - 1], m) +
      if WorthSettling(acc, m) then [Positive(acc.key, acc.settleable, SettleFee(acc, m))] else []
  }

  function Negatives(accounts: seq<Account>): map<Key, int> {
    if accounts == [] then map[]
    else
      var acc := accounts[|accounts| - 1];
      var rest := Negatives(accounts[..|accounts| - 1]);
      if acc.settleable < 0 then rest[acc.key := -acc.settleable] else rest
  }

  method Classify(accounts: seq<Account>, m: Market) returns (positives: seq<Positive>, negatives: map<Key, int>)
    ensures positives == Positives(accounts, m) && negatives == Negatives(accounts)
  {
    positives, negatives := [], map[];
    for i := 0 to |accounts|
      invariant positives == Positives(accounts[..i], m) && negatives == Negatives(accounts[..i])
    {
      var acc := accounts[i];
      assert accounts[..i + 1][..i] == accounts[..i];
      if acc.settleable > 0 {
        var fee := SettleFee(acc, m);
        if 10 * fee > m.feeFlat {
          positives := positives + [Positive(acc.key, acc.settleable, fee)];
        }
      } else if acc.settleable < 0 {
        negatives := negatives[acc.key := -acc.settleable];
      }
    }
    assert accounts[..|accounts|] == accounts;
  }

  /** Each side holds exactly the accounts it should. */
  lemma {:induction false} SidesAreExact(accounts: seq<Account>, m: Market, k: Key)
    requires UniqueKeys(accounts)
    ensures (exists j :: 0 <= j < |Positives(accounts, m)| && Positives(accounts, m)[j].key == k)
            <==> exists i :: 0 <= i < |accounts| && accounts[i].key == k
                             && accounts[i].settleable > 0 && 10 * SettleFee(accounts[i], m) > m.feeFlat
    ensures k in Negatives(accounts) <==> exists i :: 0 <= i < |accounts| && accounts[i].key == k && accounts[i].settleable < 0
    ensures forall i :: 0 <= i < |accounts| && accounts[i].key == k && accounts[i].settleable < 0
              ==> Negatives(accounts)[k] == -accounts[i].settleable
  {
    PositivesAreExact(accounts, m, k);
    NegativesAreExact(accounts, k);
  }

  lemma {:induction false} PositivesAreExact(accounts: seq<Account>, m: Market, k: Key)
    requires UniqueKeys(accounts)
    ensures (exists j :: 0 <= j < |Positives(accounts, m)| && Positives(accounts, m)[j].key == k)
            <==> exists i :: 0 <= i < |accounts| && accounts[i].key == k && WorthSettling(accounts[i], m)
  {
    if accounts != [] {
      var n := |accounts| - 1;
      var front := accounts[..n];
      PositivesAreExact(front, m, k);
      assert forall i :: 0 <= i < n ==> front[i] == accounts[i];
      var ps, fs := Positives(accounts, m), Positives(front, m);
      assert forall j :: 0 <= j < |fs| ==> ps[j] == fs[j];
      if WorthSettling(accounts[n], m) {
        assert ps[|fs|].key == accounts[n].key;
      }
    }
  }

  lemma {:induction false} NegativesAreExact(accounts: seq<Account>, k: Key)
    requires UniqueKeys(accounts)
    ensures k in Negatives(accounts) <==> exists i :: 0 <= i < |accounts| && accounts[i].key == k && accounts[i].settleable < 0
    ensures forall i :: 0 <= i < |accounts| && accounts[i].key == k && accounts[i].settleable < 0
              ==> Negatives(accounts)[k] == -accounts[i].settleable
  {
    if accounts != [] {
      var n := |accounts| - 1;
      NegativesAreExact(accounts[..n], k);
      assert forall i :: 0 <= i < n ==> accounts[..n][i] == accounts[i];
    }
  }

  /** No account is on both sides, or twice on one. */
  lemma {:induction false} SidesAreDisjoint(accounts: seq<Account>, m: Market)
    requires UniqueKeys(accounts)
    ensures ValidSides(Positives(accounts, m), Negatives(accounts))
  {
    if accounts != [] {
      var n := |accounts| - 1;
      SidesAreDisjoint(accounts[..n], m);
      SidesAreExact(accounts[..n], m, accounts[n].key);
      assert forall i :: 0 <= i < n ==> accounts[..n][i].key != accounts[n].key;
    }
  }

  /** Positive amounts on both sides, and no account twice. */
  ghost predicate ValidSides(positives: seq<Positive>, negatives: map<Key, int>) {
    && (forall i, j :: 0 <= i < j < |positives| ==> positives[i].key != positives[j].key)
    && (forall i :: 0 <= i < |positives| ==> positives[i].amount > 0 && positives[i].key !in negatives)
    && (forall k :: k in negatives ==> negatives[k] > 0)
  }

  // ---------- what a list of pairings moves ----------

  function Taken(pairs: seq<Pairing>, a: Key): int {
    if pairs == [] then 0
    else Taken(pairs[..|pairs| - 1], a) + if pairs[|pairs| - 1].a == a then pairs[|pairs| - 1].amount else 0
  }

  function Given(pairs: seq<Pairing>, b: Key): int {
    if pairs == [] then 0
    else Given(pairs[..|pairs| - 1], b) + if pairs[|pairs| - 1].b == b then pairs[|pairs| - 1].amount else 0
  }

  lemma {:induction false} NotTaken(pairs: seq<Pairing>, a: Key)
    requires forall i :: 0 <= i < |pairs| ==> pairs[i].a != a
    ensures Taken(pairs, a) == 0
  {
    if pairs != [] {
      NotTaken(pairs[..|pairs| - 1], a);
    }
  }

  // ---------- which settlements earn a fee ----------

  /** The account still has enough for a fee. */
  predicate MayEarn(amount: int, fee: int, m: Market) {
    amount > m.feeAmountThreshold || (amount > 0 && fee != m.feeFlat)
  }

  /** Settling `amount` against a counterparty with `other` left earns a fee. */
  predicate FeeEarning(amount: int, other: int, fee: int, m: Market) {
    && MayEarn(amount, fee, m)
    && Min(amount, other) > 0
    && !(Min(amount, other) < m.feeAmountThreshold && fee == m.feeFlat)
  }

  /** A counterparty with no less left is no worse. */
  lemma FeeEarningMono(amount: int, y: int, z: int, fee: int, m: Market)
    requires FeeEarning(amount, y, fee, m) && y <= z
    ensures FeeEarning(amount, z, fee, m)
  {
  }

  ghost predicate NoPartner(amount: int, fee: int, remaining: map<Key, int>, m: Market) {
    forall b :: b in remaining ==> !FeeEarning(amount, remaining[b], fee, m)
  }

  /**
   In numbers: with every counterparty, nothing is left to settle on one of the sides, or
   the account counts on the flat fee and what is left or would be settled is too small.
   */
  lemma NoPartnerMeans(amount: int, fee: int, remaining: map<Key, int>, m: Market)
    ensures NoPartner(amount, fee, remaining, m) <==>
            forall b :: b in remaining ==>
              || amount <= 0 || remaining[b] <= 0
              || (fee == m.feeFlat && (amount <= m.feeAmountThreshold || remaining[b] < m.feeAmountThreshold))
  {
  }

  ghost function Open(remaining: map<Key, int>): set<Key> {
    set b | b in remaining && remaining[b] > 0
  }

  ghost predicate NonNegative(remaining: map<Key, int>) {
    forall b :: b in remaining ==> remaining[b] >= 0
  }

  /** What is left of the counterparties is what was not given away. */
  ghost predicate Conserved(negatives: map<Key, int>, remaining: map<Key, int>, pairs: seq<Pairing>) {
    && remaining.Keys == negatives.Keys
    && forall b :: b in negatives ==> remaining[b] == negatives[b] - Given(pairs, b) >= 0
  }

  /** A positive, fee-earning amount between the account and a counterparty. */
  ghost predicate Proper(pair: Pairing, p: Positive, negatives: map<Key, int>, m: Market) {
    && pair.a == p.key && pair.b in negatives
    && pair.amount > 0 && (pair.amount >= m.feeAmountThreshold || p.fee != m.feeFlat)
  }

  /** What one account's pairings have moved so far. */
  ghost predicate Moved(p: Positive, before: map<Key, int>, pairs: seq<Pairing>, left: int, after: map<Key, int>, m: Market) {
    && Conserved(before, after, pairs)
    && left == p.amount - Taken(pairs, p.key) >= 0
    && (forall i :: 0 <= i < |pairs| ==> Proper(pairs[i], p, before, m))
    && (pairs != [] ==> MayEarn(p.amount, p.fee, m))
  }

  lemma MoveOne(p: Positive, before: map<Key, int>, pairs: seq<Pairing>, left: int, after: map<Key, int>, b: Key, m: Market)
    requires Moved(p, before, pairs, left, after, m)
    requires b in after && FeeEarning(left, after[b], p.fee, m) && left <= p.amount
    ensures Moved(p, before, pairs + [Pairing(p.key, b, Min(left, after[b]))], left - Min(left, after[b]),
                  after[b := after[b] - Min(left, after[b])], m)
  {
  }

  /** Counterparties only shrink, and whoever was paired had no less than anyone has left. */
  ghost predicate LargestFirst(before: map<Key, int>, pairs: seq<Pairing>, after: map<Key, int>) {
    && after.Keys == before.Keys
    && (forall k :: k in after ==> after[k] <= before[k])
    && (forall i, k :: 0 <= i < |pairs| && k in after && pairs[i].b in before ==> after[k] <= before[pairs[i].b])
  }

  lemma PairLargest(before: map<Key, int>, pairs: seq<Pairing>, after: map<Key, int>, pair: Pairing)
    requires LargestFirst(before, pairs, after) && pair.b in after && pair.amount >= 0
    requires forall k :: k in after ==> after[k] <= after[pair.b]
    ensures LargestFirst(before, pairs + [pair], after[pair.b := after[pair.b] - pair.amount])
  {
  }

  /** How much is still open: the counterparties with something left, and the account itself. */
  ghost function OpenSides(left: int, remaining: map<Key, int>): nat {
    |Open(remaining)| + if left > 0 then 1 else 0
  }

  /** A pairing uses up one of its two sides. */
  lemma PairingClosesASide(left: int, remaining: map<Key, int>, b: Key)
    requires b in remaining && left > 0 && remaining[b] > 0
    ensures OpenSides(left - Min(left, remaining[b]), remaining[b := remaining[b] - Min(left, remaining[b])]) < OpenSides(left, remaining)
  {
    var rest := remaining[b] - Min(left, remaining[b]);
    assert b in Open(remaining);
    assert Open(remaining[b := rest]) == if rest > 0 then Open(remaining) else Open(remaining) - {b};
  }

  lemma PairOne(p: Positive, before: map<Key, int>, pairs: seq<Pairing>, left: int, after: map<Key, int>, b: Key, m: Market,
                pairs': seq<Pairing>, left': int, after': map<Key, int>)
    requires Moved(p, before, pairs, left, after, m) && LargestFirst(before, pairs, after)
    requires b in after && FeeEarning(left, after[b], p.fee, m) && left <= p.amount
    requires forall k :: k in after ==> after[k] <= after[b]
    requires pairs' == pairs + [Pairing(p.key, b, Min(left, after[b]))]
    requires left' == left - Min(left, after[b]) && after' == after[b := after[b] - Min(left, after[b])]
    ensures Moved(p, before, pairs', left', after', m) && LargestFirst(before, pairs', after')
    ensures OpenSides(left', after') < OpenSides(left, after)
  {
    MoveOne(p, before, pairs, left, after, b, m);
    PairLargest(before, pairs, after, Pairing(p.key, b, Min(left, after[b])));
    PairingClosesASide(left, after, b);
  }

  /**
   Settles one account as far as it earns a fee. Every pairing uses up the account or the
   counterparty, which bounds their number; when the loop is left, no remaining
   counterparty could give the account another fee-earning settlement.
   */
  method SettleAccount(p: Positive, remaining: map<Key, int>, m: Market)
    returns (pairs: seq<Pairing>, left: int, remaining': map<Key, int>)
    requires p.amount > 0 && NonNegative(remaining)
    ensures Moved(p, remaining, pairs, left, remaining', m)
    ensures NoPartner(left, p.fee, remaining', m)
    ensures LargestFirst(remaining, pairs, remaining')
    ensures |pairs| + |Open(remaining')| <= |Open(remaining)| + 1
    ensures pairs == [] ==> left == p.amount && remaining' == remaining
  {
    pairs, left, remaining' := [], p.amount, remaining;
    var more := true;
    while MayEarn(left, p.fee, m) && more
      invariant Moved(p, remaining, pairs, left, remaining', m) && LargestFirst(remaining, pairs, remaining')
      invariant |pairs| + OpenSides(left, remaining') <= |Open(remaining)| + 1
      invariant left <= p.amount && (pairs == [] ==> left == p.amount && remaining' == remaining)
      invariant !more ==> NoPartner(left, p.fee, remaining', m)
      decreases OpenSides(left, remaining'), more
    {
      pairs, left, remaining', more := SettleOnce(p, remaining, pairs, left, remaining', m);
    }
  }

  /** One pairing with the counterparty that has the most left, if it earns a fee. */
  method SettleOnce(p: Positive, before: map<Key, int>, pairs: seq<Pairing>, left: int, after: map<Key, int>, m: Market)
    returns (pairs': seq<Pairing>, left': int, after': map<Key, int>, more: bool)
    requires Moved(p, before, pairs, left, after, m) && MayEarn(left, p.fee, m) && left <= p.amount
    requires LargestFirst(before, pairs, after)
    ensures Moved(p, before, pairs', left', after', m) && LargestFirst(before, pairs', after')
    ensures more ==> |pairs'| == |pairs| + 1 && OpenSides(left', after') < OpenSides(left, after) && left' <= left
    ensures !more ==> pairs' == pairs && left' == left && after' == after && NoPartner(left, p.fee, after, m)
  {
    pairs', left', after', more := pairs, left, after, false;
    if after == map[] {
      return;
    }
    var b := Peek(after);
    var settleable := Min(left, after[b]);
    if settleable <= 0 || (settleable < m.feeAmountThreshold && p.fee == m.feeFlat) {
      PeekDecides(left, p.fee, after, b, m);
      return;
    }
    pairs', left', after', more :=
      pairs + [Pairing(p.key, b, settleable)], left - settleable, after[b := after[b] - settleable], true;
    PairOne(p, before, pairs, left, after, b, m, pairs', left', after');
  }

  /** The counterparty with the most left; ties are broken arbitrarily. */
  method Peek(remaining: map<Key, int>) returns (b: Key)
    requires remaining != map[]
    ensures b in remaining && forall k :: k in remaining ==> remaining[k] <= remaining[b]
  {
    var keys := remaining.Keys;
    b :| b in keys;
    keys := keys - {b};
    while keys != {}
      invariant b in remaining && keys <= remaining.Keys
      invariant forall k :: k in remaining && k !in keys ==> remaining[k] <= remaining[b]
      decreases keys
    {
      var k :| k in keys;
      if remaining[k] > remaining[b] {
        b := k;
      }
      keys := keys - {k};
    }
  }

  /** If the best counterparty does not earn a fee, none does. */
  lemma PeekDecides(amount: int, fee: int, remaining: map<Key, int>, b: Key, m: Market)
    requires b in remaining && forall k :: k in remaining ==> remaining[k] <= remaining[b]
    requires !FeeEarning(amount, remaining[b], fee, m)
    ensures NoPartner(amount, fee, remaining, m)
  {
  }
}
