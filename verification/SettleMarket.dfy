/**
 One market's settlement round: the accounts in order of their fee, each settled as far
 as it earns one, until an account cannot be settled at all.
 */
module SettleMarket {

  import opened Settlement
  import StableSort

  // ---------- by fee, descending ----------

  function Keyed(positives: seq<Positive>): (r: seq<StableSort.Entry<Positive>>)
    ensures |r| == |positives| && forall i :: 0 <= i < |r| ==> r[i] == StableSort.Entry(positives[i], -positives[i].fee)
  {
    seq(|positives|, i requires 0 <= i < |positives| => StableSort.Entry(positives[i], -positives[i].fee))
  }

  function ByFee(positives: seq<Positive>): (r: seq<Positive>)
  {
    var s := StableSort.Sort(Keyed(positives));
    seq(|s|, i requires 0 <= i < |s| => s[i].account)
  }

  lemma SortedPositive(positives: seq<Positive>, i: nat)
    requires i < |ByFee(positives)|
    ensures ByFee(positives)[i] in positives
    ensures StableSort.Sort(Keyed(positives))[i] == StableSort.Entry(ByFee(positives)[i], -ByFee(positives)[i].fee)
  {
    StableSort.SortMember(Keyed(positives), StableSort.Sort(Keyed(positives))[i]);
  }

  /** An entry found at two places of a sequence counts twice. */
  lemma CountedTwice<T>(s: seq<T>, i: nat, j: nat)
    requires i < j < |s| && s[i] == s[j]
    ensures multiset(s)[s[i]] >= 2
  {
    assert s == s[..j] + s[j..];
    assert s[i] in multiset(s[..j]) && s[j] in multiset(s[j..]) by {
      assert s[..j][i] == s[i] && s[j..][0] == s[j];
    }
  }

  lemma {:induction false} CountedOnce(positives: seq<Positive>, e: StableSort.Entry<Positive>)
    requires forall i, j :: 0 <= i < j < |positives| ==> positives[i].key != positives[j].key
    ensures multiset(Keyed(positives))[e] <= 1
  {
    if positives != [] {
      var n := |positives| - 1;
      var s := Keyed(positives);
      CountedOnce(positives[..n], e);
      assert s == Keyed(positives[..n]) + [s[n]];
      assert s[n] !in Keyed(positives[..n]) by {
        assert forall i :: 0 <= i < n ==> positives[i].key != positives[n].key;
      }
    }
  }

  lemma ByFeeMembers(positives: seq<Positive>)
    ensures |ByFee(positives)| == |positives|
    ensures forall p :: p in ByFee(positives) <==> p in positives
  {
    var s, t := Keyed(positives), ByFee(positives);
    StableSort.SortSpec(s);
    forall i | 0 <= i < |t| ensures t[i] in positives {
      SortedPositive(positives, i);
    }
    forall p | p in positives ensures p in t {
      var i :| 0 <= i < |positives| && positives[i] == p;
      StableSort.SortMember(s, s[i]);
      var j :| 0 <= j < |t| && StableSort.Sort(s)[j] == s[i];
      assert t[j] == p;
    }
  }

  lemma ByFeeUnique(positives: seq<Positive>, i: nat, j: nat)
    requires forall i, j :: 0 <= i < j < |positives| ==> positives[i].key != positives[j].key
    requires i < j < |ByFee(positives)|
    ensures ByFee(positives)[i].key != ByFee(positives)[j].key
  {
    SortedPositive(positives, i);
    SortedPositive(positives, j);
    if ByFee(positives)[i].key == ByFee(positives)[j].key {
      var s := Keyed(positives);
      StableSort.SortSpec(s);
      CountedTwice(StableSort.Sort(s), i, j);
      CountedOnce(positives, StableSort.Sort(s)[i]);
    }
  }

  /** Highest fee first, and still the same accounts, each once. */
  lemma ByFeeSpec(positives: seq<Positive>, negatives: map<Key, int>)
    requires ValidSides(positives, negatives)
    ensures ValidSides(ByFee(positives), negatives)
    ensures |ByFee(positives)| == |positives|
    ensures forall p :: p in ByFee(positives) <==> p in positives
    ensures forall i, j :: 0 <= i < j < |positives| ==> ByFee(positives)[i].fee >= ByFee(positives)[j].fee
  {
    var t := ByFee(positives);
    ByFeeMembers(positives);
    forall i, j | 0 <= i < j < |t| ensures t[i].key != t[j].key && t[i].fee >= t[j].fee {
      ByFeeUnique(positives, i, j);
      StableSort.SortSpec(Keyed(positives));
      SortedPositive(positives, i);
      SortedPositive(positives, j);
    }
    forall i | 0 <= i < |t| ensures t[i].amount > 0 && t[i].key !in negatives {
      assert t[i] in t;
    }
  }

  // ---------- composing accounts ----------

  function Total(pairs: seq<Pairing>): int {
    if pairs == [] then 0 else Total(pairs[..|pairs| - 1]) + pairs[|pairs| - 1].amount
  }

  function Amounts(positives: seq<Positive>): int {
    if positives == [] then 0 else Amounts(positives[..|positives| - 1]) + positives[|positives| - 1].amount
  }

  lemma {:induction false} Joined(pairs: seq<Pairing>, more: seq<Pairing>, k: Key)
    ensures Taken(pairs + more, k) == Taken(pairs, k) + Taken(more, k)
    ensures Given(pairs + more, k) == Given(pairs, k) + Given(more, k)
    ensures Total(pairs + more) == Total(pairs) + Total(more)
  {
    if more == [] {
      assert pairs + more == pairs;
    } else {
      var n := |more| - 1;
      Joined(pairs, more[..n], k);
      assert (pairs + more)[..|pairs + more| - 1] == pairs + more[..n];
    }
  }

  ghost predicate AllPositive(pairs: seq<Pairing>) {
    forall i :: 0 <= i < |pairs| ==> pairs[i].amount > 0
  }

  lemma {:induction false} GivenBounds(pairs: seq<Pairing>, b: Key)
    requires AllPositive(pairs)
    ensures 0 <= Given(pairs, b) <= Total(pairs) && |pairs| <= Total(pairs)
  {
    if pairs != [] {
      GivenBounds(pairs[..|pairs| - 1], b);
    }
  }

  lemma {:induction false} OneGiver(pairs: seq<Pairing>, a: Key)
    requires forall i :: 0 <= i < |pairs| ==> pairs[i].a == a
    ensures Total(pairs) == Taken(pairs, a)
  {
    if pairs != [] {
      OneGiver(pairs[..|pairs| - 1], a);
    }
  }

  /** A single pairing moves no more than all of its counterparty's. */
  lemma {:induction false} PairWithinGiven(pairs: seq<Pairing>, i: nat)
    requires AllPositive(pairs) && i < |pairs|
    ensures pairs[i].amount <= Given(pairs, pairs[i].b)
  {
    var n := |pairs| - 1;
    GivenBounds(pairs[..n], pairs[i].b);
    if i < n {
      PairWithinGiven(pairs[..n], i);
    }
  }

  lemma {:induction false} TakenHasPair(pairs: seq<Pairing>, a: Key)
    requires Taken(pairs, a) != 0
    ensures exists i :: 0 <= i < |pairs| && pairs[i].a == a
  {
    if forall i :: 0 <= i < |pairs| ==> pairs[i].a != a {
      NotTaken(pairs, a);
    }
  }

  lemma ConservedJoin(negatives: map<Key, int>, mid: map<Key, int>, after: map<Key, int>, pairs: seq<Pairing>, more: seq<Pairing>)
    requires Conserved(negatives, mid, pairs) && Conserved(mid, after, more)
    ensures Conserved(negatives, after, pairs + more)
  {
    forall b | b in negatives ensures Given(pairs + more, b) == Given(pairs, b) + Given(more, b) {
      Joined(pairs, more, b);
    }
  }

  /** Counterparties only shrink, so an account without a partner never gets one. */
  lemma NoPartnerStays(amount: int, fee: int, before: map<Key, int>, after: map<Key, int>, more: seq<Pairing>, m: Market)
    requires NoPartner(amount, fee, before, m) && Conserved(before, after, more) && AllPositive(more)
    ensures NoPartner(amount, fee, after, m)
  {
    forall b | b in after ensures !FeeEarning(amount, after[b], fee, m) {
      GivenBounds(more, b);
      if FeeEarning(amount, after[b], fee, m) {
        FeeEarningMono(amount, after[b], before[b], fee, m);
      }
    }
  }

  // ---------- the round ----------

  /** What is left of an account after the given pairings. */
  function Left(p: Positive, pairs: seq<Pairing>): int {
    p.amount - Taken(pairs, p.key)
  }

  ghost predicate Served(p: Positive, pairs: seq<Pairing>, remaining: map<Key, int>, m: Market) {
    && 0 <= Left(p, pairs) < p.amount
    && MayEarn(p.amount, p.fee, m)
    && NoPartner(Left(p, pairs), p.fee, remaining, m)
  }

  /** Every pairing is between a served account and a counterparty, and earns a fee. */
  ghost predicate PairsProper(positives: seq<Positive>, negatives: map<Key, int>, pairs: seq<Pairing>, m: Market) {
    forall k :: 0 <= k < |pairs| ==> exists i :: 0 <= i < |positives| && Proper(pairs[k], positives[i], negatives, m)
  }

  /** The first `served` accounts have been settled, the others not touched. */
  ghost predicate Progress(positives: seq<Positive>, negatives: map<Key, int>, m: Market,
                           pairs: seq<Pairing>, remaining: map<Key, int>, served: nat) {
    && served <= |positives|
    && Conserved(negatives, remaining, pairs)
    && PairsProper(positives[..served], negatives, pairs, m)
    && (forall i :: 0 <= i < served ==> Served(positives[i], pairs, remaining, m))
    && (forall i :: served <= i < |positives| ==> Taken(pairs, positives[i].key) == 0)
    && |pairs| + |Open(remaining)| <= |Open(negatives)| + served
    && Total(pairs) <= Amounts(positives[..served])
  }

  /** A round ends with every account served, or at the first that cannot be. */
  ghost predicate Round(positives: seq<Positive>, negatives: map<Key, int>, m: Market,
                        pairs: seq<Pairing>, remaining: map<Key, int>, served: nat) {
    && Progress(positives, negatives, m, pairs, remaining, served)
    && (served < |positives| ==> NoPartner(positives[served].amount, positives[served].fee, remaining, m))
  }

  lemma ProperIsPositive(positives: seq<Positive>, negatives: map<Key, int>, pairs: seq<Pairing>, m: Market)
    requires PairsProper(positives, negatives, pairs, m)
    ensures AllPositive(pairs)
  {
  }

  lemma ServeNextPairs(positives: seq<Positive>, negatives: map<Key, int>, m: Market,
                       pairs: seq<Pairing>, remaining: map<Key, int>, served: nat,
                       more: seq<Pairing>, left: int, remaining': map<Key, int>)
    requires served < |positives| && PairsProper(positives[..served], negatives, pairs, m)
    requires remaining.Keys == negatives.Keys
    requires Moved(positives[served], remaining, more, left, remaining', m)
    ensures PairsProper(positives[..served + 1], negatives, pairs + more, m)
  {
  }

  lemma ServedNow(p: Positive, pairs: seq<Pairing>, remaining: map<Key, int>,
                  more: seq<Pairing>, left: int, remaining': map<Key, int>, m: Market)
    requires Moved(p, remaining, more, left, remaining', m) && more != []
    requires NoPartner(left, p.fee, remaining', m) && Taken(pairs, p.key) == 0
    ensures Served(p, pairs + more, remaining', m)
  {
    Joined(pairs, more, p.key);
    OneGiver(more, p.key);
    GivenBounds(more, p.key);
  }

  /** Serving one account leaves what another has, and its lack of partners, as they were. */
  lemma OtherKept(q: Positive, p: Positive, pairs: seq<Pairing>, remaining: map<Key, int>,
                  more: seq<Pairing>, left: int, remaining': map<Key, int>, m: Market)
    requires Moved(p, remaining, more, left, remaining', m) && q.key != p.key
    ensures Taken(pairs + more, q.key) == Taken(pairs, q.key)
    ensures Served(q, pairs, remaining, m) ==> Served(q, pairs + more, remaining', m)
  {
    Joined(pairs, more, q.key);
    NotTaken(more, q.key);
    if NoPartner(Left(q, pairs), q.fee, remaining, m) {
      NoPartnerStays(Left(q, pairs), q.fee, remaining, remaining', more, m);
    }
  }

  lemma ServeNextAccounts(positives: seq<Positive>, m: Market, pairs: seq<Pairing>, remaining: map<Key, int>, served: nat,
                          more: seq<Pairing>, left: int, remaining': map<Key, int>)
    requires served < |positives|
    requires forall i, j :: 0 <= i < j < |positives| ==> positives[i].key != positives[j].key
    requires Moved(positives[served], remaining, more, left, remaining', m) && more != []
    requires NoPartner(left, positives[served].fee, remaining', m)
    requires forall i :: 0 <= i < served ==> Served(positives[i], pairs, remaining, m)
    requires forall i :: served <= i < |positives| ==> Taken(pairs, positives[i].key) == 0
    ensures forall i :: 0 <= i <= served ==> Served(positives[i], pairs + more, remaining', m)
    ensures forall i :: served < i < |positives| ==> Taken(pairs + more, positives[i].key) == 0
  {
    forall i | 0 <= i < |positives|
      ensures i <= served ==> Served(positives[i], pairs + more, remaining', m)
      ensures i > served ==> Taken(pairs + more, positives[i].key) == 0
    {
      if i == served {
        ServedNow(positives[i], pairs, remaining, more, left, remaining', m);
      } else {
        OtherKept(positives[i], positives[served], pairs, remaining, more, left, remaining', m);
      }
    }
  }

  lemma ServeNext(positives: seq<Positive>, negatives: map<Key, int>, m: Market,
                  pairs: seq<Pairing>, remaining: map<Key, int>, served: nat,
                  more: seq<Pairing>, left: int, remaining': map<Key, int>)
    requires ValidSides(positives, negatives) && served < |positives|
    requires Progress(positives, negatives, m, pairs, remaining, served)
    requires Moved(positives[served], remaining, more, left, remaining', m) && more != []
    requires NoPartner(left, positives[served].fee, remaining', m)
    requires |more| + |Open(remaining')| <= |Open(remaining)| + 1
    ensures Progress(positives, negatives, m, pairs + more, remaining', served + 1)
  {
    ConservedJoin(negatives, remaining, remaining', pairs, more);
    ServeNextPairs(positives, negatives, m, pairs, remaining, served, more, left, remaining');
    ServeNextAccounts(positives, m, pairs, remaining, served, more, left, remaining');
    var p := positives[served];
    Joined(pairs, more, p.key);
    OneGiver(more, p.key);
    assert positives[..served + 1][..served] == positives[..served];
  }

  lemma StartRound(positives: seq<Positive>, negatives: map<Key, int>, m: Market)
    requires ValidSides(positives, negatives)
    ensures Progress(positives, negatives, m, [], negatives, 0)
  {
  }

  lemma RemainingValid(positives: seq<Positive>, negatives: map<Key, int>, m: Market,
                 pairs: seq<Pairing>, remaining: map<Key, int>, served: nat)
    requires ValidSides(positives, negatives) && Progress(positives, negatives, m, pairs, remaining, served)
    ensures NonNegative(remaining)
  {
  }

  /** The next account, or the end of the round if it cannot be settled at all. */
  method SettleNext(positives: seq<Positive>, negatives: map<Key, int>, m: Market,
                    pairs: seq<Pairing>, remaining: map<Key, int>, served: nat)
    returns (pairs': seq<Pairing>, remaining': map<Key, int>, once: bool)
    requires ValidSides(positives, negatives) && served < |positives|
    requires Progress(positives, negatives, m, pairs, remaining, served)
    ensures once ==> Progress(positives, negatives, m, pairs', remaining', served + 1)
    ensures !once ==> pairs' == pairs && remaining' == remaining && Round(positives, negatives, m, pairs, remaining, served)
  {
    RemainingValid(positives, negatives, m, pairs, remaining, served);
    var more, left, rest := SettleAccount(positives[served], remaining, m);
    once := more != [];
    if once {
      ServeNext(positives, negatives, m, pairs, remaining, served, more, left, rest);
      pairs', remaining' := pairs + more, rest;
    } else {
      pairs', remaining' := pairs, remaining;
    }
  }

  /**
   Conserves every account's amount, pairs no account with itself, and makes at most one
   pairing per account and counterparty; see `Round`.
   */
  method SettleRound(positives: seq<Positive>, negatives: map<Key, int>, m: Market)
    returns (pairs: seq<Pairing>, remaining: map<Key, int>, settled: seq<Key>)
    requires ValidSides(positives, negatives)
    ensures Round(positives, negatives, m, pairs, remaining, |settled|)
    ensures forall i :: 0 <= i < |settled| ==> settled[i] == positives[i].key
  {
    pairs, remaining, settled := [], negatives, [];
    StartRound(positives, negatives, m);
    for i := 0 to |positives|
      invariant |settled| == i && forall k :: 0 <= k < i ==> settled[k] == positives[k].key
      invariant Progress(positives, negatives, m, pairs, remaining, i)
    {
      var once;
      pairs, remaining, once := SettleNext(positives, negatives, m, pairs, remaining, i);
      if !once {
        return;
      }
      settled := settled + [positives[i].key];
    }
  }

  /** No account settles with itself, and there are at most as many pairings as accounts. */
  lemma RoundIsBounded(positives: seq<Positive>, negatives: map<Key, int>, m: Market,
                       pairs: seq<Pairing>, remaining: map<Key, int>, served: nat)
    requires ValidSides(positives, negatives) && Round(positives, negatives, m, pairs, remaining, served)
    ensures |pairs| <= |positives| + |negatives|
    ensures forall k :: 0 <= k < |pairs| ==> pairs[k].a != pairs[k].b
  {
    assert Open(negatives) == negatives.Keys;
    forall k | 0 <= k < |pairs| ensures pairs[k].a != pairs[k].b {
      var i :| 0 <= i < served && Proper(pairs[k], positives[..served][i], negatives, m);
      assert positives[i].key !in negatives;
    }
  }

  lemma {:induction false} SidesFit(accounts: seq<Account>, m: Market)
    ensures |Positives(accounts, m)| + |Negatives(accounts)| <= |accounts|
  {
    if accounts != [] {
      SidesFit(accounts[..|accounts| - 1], m);
    }
  }

  /**
   Everything the settler does with one market: sort the accounts into sides, order the
   positive side by fee, settle. At most one transaction instruction per account.
   */
  method SettleAccounts(accounts: seq<Account>, m: Market)
    returns (pairs: seq<Pairing>, remaining: map<Key, int>, settled: seq<Key>)
    requires UniqueKeys(accounts)
    ensures Round(ByFee(Positives(accounts, m)), Negatives(accounts), m, pairs, remaining, |settled|)
    ensures |pairs| <= |accounts|
    ensures forall k :: 0 <= k < |pairs| ==> pairs[k].a != pairs[k].b
  {
    var positives, negatives := Classify(accounts, m);
    SidesAreDisjoint(accounts, m);
    SidesFit(accounts, m);
    ByFeeSpec(positives, negatives);
    pairs, remaining, settled := SettleRound(ByFee(positives), negatives, m);
    RoundIsBounded(ByFee(positives), negatives, m, pairs, remaining, |settled|);
  }
}
