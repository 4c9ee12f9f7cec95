/**
 The cache of the lowest swap price per mint pair, used by many preparations at once.

 Each pair's price sits behind its own lock. The first quote of a pair is fetched while
 holding the lock; later ones check the cached price first and fetch without the lock.
 The interleaving of lock acquisitions, quote arrivals and failures is arbitrary.
 */
module QuoteCache {

  import opened Common

  /** Input tokens per output token. */
  type Price = x: real | x >= 0.0

  /** What a swap query returns; a quote of no output tokens has an infinite price. */
  type Quoted = Option<Price>

  /** The highest acceptable price; none stands for the largest double. */
  type Limit = Option<Price>

  predicate Exceeds(quote: Quoted, limit: Limit) {
    quote.None? || (limit.Some? && quote.value > limit.value)
  }

  type Mint = nat

  /** Input mint and output mint. */
  type PairId = (Mint, Mint)

  type CallId = nat

  /** One pair: lowest price if any, lock holder, and the finite quotes compared so far. */
  datatype Pair = Pair(price: Option<Price>, lock: Option<CallId>, quotes: seq<Price>)

  /** `BadCached` remembers how many quotes had been compared when the call gave up. */
  datatype Result =
    | BadCached(price: Price, seen: nat)
    | BadQuote(quote: Quoted)
    | Quote(price: Price)
    | Error

  datatype Phase =
    | Waiting
    | Fetching(holdsLock: bool)
    | Storing(quote: Quoted)
    | Done(result: Result)

  datatype Call = Call(pair: PairId, maxPrice: Limit, phase: Phase)

  datatype System = System(pairs: map<PairId, Pair>, calls: map<CallId, Call>)

  datatype Action =
    | Begin(c: CallId, pair: PairId, maxPrice: Limit)
    | Check(c: CallId)
    | Arrive(c: CallId, quote: Quoted)
    | Store(c: CallId)
    | Fail(c: CallId)

  function PairOf(s: System, p: PairId): Pair {
    if p in s.pairs then s.pairs[p] else Pair(None, None, [])
  }

  predicate Enabled(s: System, a: Action) {
    match a
    case Begin(c, _, _) => c !in s.calls
    case Check(c) => c in s.calls && s.calls[c].phase.Waiting? && PairOf(s, s.calls[c].pair).lock.None?
    case Arrive(c, _) => c in s.calls && s.calls[c].phase.Fetching?
    case Store(c) => c in s.calls && s.calls[c].phase.Storing? && PairOf(s, s.calls[c].pair).lock.None?
    case Fail(c) => c in s.calls && s.calls[c].phase.Fetching?
  }

  function SetCall(s: System, c: CallId, phase: Phase): System
    requires c in s.calls
  {
    s.(calls := s.calls[c := s.calls[c].(phase := phase)])
  }

  function SetPair(s: System, p: PairId, pair: Pair): System {
    s.(pairs := s.pairs[p := pair])
  }

  /** The lower of the cached price and a fresh quote is kept. */
  function Compared(pair: Pair, quote: Quoted): Pair {
    match quote
    case None => pair
    case Some(q) =>
      pair.(price := if pair.price.None? || q < pair.price.value then Some(q) else pair.price,
            quotes := pair.quotes + [q])
  }

  function Verdict(quote: Quoted, maxPrice: Limit): Result {
    if Exceeds(quote, maxPrice) then BadQuote(quote) else Quote(quote.value)
  }

  function Step(s: System, a: Action): System
    requires Enabled(s, a)
  {
    match a
    case Begin(c, p, maxPrice) => s.(calls := s.calls[c := Call(p, maxPrice, Waiting)])
    case Check(c) =>
      var call := s.calls[c];
      var pair := PairOf(s, call.pair);
      if pair.price.None? then
        SetPair(SetCall(s, c, Fetching(true)), call.pair, pair.(lock := Some(c)))
      else if Exceeds(pair.price, call.maxPrice) then
        SetCall(s, c, Done(BadCached(pair.price.value, |pair.quotes|)))
      else
        SetCall(s, c, Fetching(false))
    case Arrive(c, quote) =>
      var call := s.calls[c];
      if call.phase.holdsLock then
        var pair := Compared(PairOf(s, call.pair), quote);
        SetPair(SetCall(s, c, Done(Verdict(quote, call.maxPrice))), call.pair, pair.(lock := None))
      else
        SetCall(s, c, Storing(quote))
    case Store(c) =>
      var call := s.calls[c];
      SetPair(SetCall(s, c, Done(Verdict(call.phase.quote, call.maxPrice))), call.pair,
              Compared(PairOf(s, call.pair), call.phase.quote))
    case Fail(c) =>
      var call := s.calls[c];
      var failed := SetCall(s, c, Done(Error));
      if call.phase.holdsLock then SetPair(failed, call.pair, PairOf(s, call.pair).(lock := None)) else failed
  }

  // ---------- invariants ----------

  /** The cached price is the minimum of all compared quotes, or unset. */
  ghost predicate RunningMinimum(pair: Pair) {
    && (pair.price.None? <==> pair.quotes == [])
    && (pair.price.Some? ==> pair.price.value in pair.quotes)
    && forall i :: 0 <= i < |pair.quotes| ==> pair.price.value <= pair.quotes[i]
  }

  ghost predicate Minimums(s: System) {
    forall p :: p in s.pairs ==> RunningMinimum(s.pairs[p])
  }

  ghost predicate HoldsItsLock(s: System, c: CallId) {
    c in s.calls && s.calls[c].phase == Fetching(true) ==> PairOf(s, s.calls[c].pair).lock == Some(c)
  }

  ghost predicate HolderFetches(s: System, p: PairId) {
    PairOf(s, p).lock.Some? ==>
      var c := PairOf(s, p).lock.value;
      c in s.calls && s.calls[c].pair == p && s.calls[c].phase == Fetching(true)
  }

  /** The lock is held exactly by the call that fetches the first quote. */
  ghost predicate LocksMatch(s: System) {
    (forall c :: HoldsItsLock(s, c)) && (forall p :: HolderFetches(s, p))
  }

  /** Quotes fetched without the lock only exist once the pair has a price. */
  ghost predicate FirstQuoteAlone(s: System) {
    forall c :: c in s.calls && (s.calls[c].phase == Fetching(false) || s.calls[c].phase.Storing?) ==>
      PairOf(s, s.calls[c].pair).price.Some?
  }

  /** What the finished calls were told is true. */
  ghost predicate Honest(call: Call, pair: Pair) {
    match call.phase
    case Done(BadCached(price, seen)) =>
      && call.maxPrice.Some? && price > call.maxPrice.value && 0 < seen <= |pair.quotes|
      && (forall i :: 0 <= i < seen ==> pair.quotes[i] > call.maxPrice.value)
      && price in pair.quotes[..seen]
    case Done(BadQuote(quote)) => Exceeds(quote, call.maxPrice) && (quote.Some? ==> quote.value in pair.quotes)
    case Done(Quote(price)) => !Exceeds(Some(price), call.maxPrice) && price in pair.quotes
    case _ => true
  }

  ghost predicate AllHonest(s: System) {
    forall c :: c in s.calls ==> Honest(s.calls[c], PairOf(s, s.calls[c].pair))
  }

  ghost predicate Inv(s: System) {
    Minimums(s) && LocksMatch(s) && FirstQuoteAlone(s) && AllHonest(s)
  }

  /** Quotes are only ever added and the price only ever falls. */
  ghost predicate Grows(before: Pair, after: Pair) {
    && before.quotes <= after.quotes
    && (before.price.Some? ==> after.price.Some? && after.price.value <= before.price.value)
  }

  lemma StepGrows(s: System, a: Action, p: PairId)
    requires Enabled(s, a)
    ensures Grows(PairOf(s, p), PairOf(Step(s, a), p))
  {
  }

  lemma StepMinimums(s: System, a: Action)
    requires Minimums(s) && Enabled(s, a)
    ensures Minimums(Step(s, a))
  {
  }

  lemma StepHoldsItsLock(s: System, a: Action, c: CallId)
    requires LocksMatch(s) && Enabled(s, a)
    ensures HoldsItsLock(Step(s, a), c)
  {
    assert HoldsItsLock(s, c) && HoldsItsLock(s, a.c);
    if c in s.calls && a.c in s.calls {
      assert HolderFetches(s, s.calls[a.c].pair);
    }
  }

  lemma StepHolderFetches(s: System, a: Action, p: PairId)
    requires LocksMatch(s) && Enabled(s, a)
    ensures HolderFetches(Step(s, a), p)
  {
    assert HolderFetches(s, p) && HoldsItsLock(s, a.c);
  }

  lemma StepLocks(s: System, a: Action)
    requires LocksMatch(s) && Enabled(s, a)
    ensures LocksMatch(Step(s, a))
  {
    forall c ensures HoldsItsLock(Step(s, a), c) {
      StepHoldsItsLock(s, a, c);
    }
    forall p ensures HolderFetches(Step(s, a), p) {
      StepHolderFetches(s, a, p);
    }
  }

  lemma StepFirstQuote(s: System, a: Action)
    requires Minimums(s) && FirstQuoteAlone(s) && Enabled(s, a)
    ensures FirstQuoteAlone(Step(s, a))
  {
    var s' := Step(s, a);
    forall c | c in s'.calls && (s'.calls[c].phase == Fetching(false) || s'.calls[c].phase.Storing?)
      ensures PairOf(s', s'.calls[c].pair).price.Some?
    {
      StepGrows(s, a, s'.calls[c].pair);
    }
  }

  lemma HonestGrows(call: Call, before: Pair, after: Pair)
    requires Honest(call, before) && Grows(before, after)
    ensures Honest(call, after)
  {
  }

  /** The call that acts is told the truth. */
  lemma ActorHonest(s: System, a: Action)
    requires Minimums(s) && Enabled(s, a)
    ensures a.c in Step(s, a).calls
    ensures Honest(Step(s, a).calls[a.c], PairOf(Step(s, a), Step(s, a).calls[a.c].pair))
  {
  }

  lemma StepHonest(s: System, a: Action)
    requires Minimums(s) && AllHonest(s) && Enabled(s, a)
    ensures AllHonest(Step(s, a))
  {
    var s' := Step(s, a);
    forall c | c in s'.calls ensures Honest(s'.calls[c], PairOf(s', s'.calls[c].pair)) {
      if c == a.c {
        ActorHonest(s, a);
      } else {
        var p := s.calls[c].pair;
        StepGrows(s, a, p);
        HonestGrows(s.calls[c], PairOf(s, p), PairOf(s', p));
      }
    }
  }

  lemma StepInv(s: System, a: Action)
    requires Inv(s) && Enabled(s, a)
    ensures Inv(Step(s, a))
  {
    StepMinimums(s, a);
    StepLocks(s, a);
    StepFirstQuote(s, a);
    StepHonest(s, a);
  }

  predicate ValidRun(s: System, run: seq<Action>)
    decreases |run|
  {
    run == [] || (Enabled(s, run[0]) && ValidRun(Step(s, run[0]), run[1..]))
  }

  function After(s: System, run: seq<Action>): System
    requires ValidRun(s, run)
    decreases |run|
  {
    if run == [] then s else After(Step(s, run[0]), run[1..])
  }

  /** Under every interleaving. */
  lemma {:induction false} RunInv(s: System, run: seq<Action>)
    requires Inv(s) && ValidRun(s, run)
    ensures Inv(After(s, run))
    decreases |run|
  {
    if run != [] {
      StepInv(s, run[0]);
      RunInv(Step(s, run[0]), run[1..]);
    }
  }

  /** Over a run a pair's quotes only grow and its price only falls. */
  lemma {:induction false} RunGrows(s: System, run: seq<Action>, p: PairId)
    requires ValidRun(s, run)
    ensures Grows(PairOf(s, p), PairOf(After(s, run), p))
    decreases |run|
  {
    if run != [] {
      StepGrows(s, run[0], p);
      RunGrows(Step(s, run[0]), run[1..], p);
    }
  }

  lemma EmptyCache()
    ensures Inv(System(map[], map[]))
  {
  }

  /**
   From the empty cache, under every interleaving: each price is the minimum of the quotes
   compared, every answer given is true, and a pair without a price is queried once at a time.
   */
  lemma {:induction false} ReachableTruth(run: seq<Action>)
    requires ValidRun(System(map[], map[]), run)
    ensures var s := After(System(map[], map[]), run);
            && (forall p :: p in s.pairs ==> RunningMinimum(s.pairs[p]))
            && (forall c :: c in s.calls ==> Honest(s.calls[c], PairOf(s, s.calls[c].pair)))
            && (forall c, d :: SameFirstQuote(s, c, d) ==> c == d)
  {
    EmptyCache();
    RunInv(System(map[], map[]), run);
    var s := After(System(map[], map[]), run);
    forall c, d | SameFirstQuote(s, c, d) ensures c == d {
      AtMostOneFirstQuote(s, c, d);
    }
  }

  /** Both calls have a quote in flight for the same pair, which has no price yet. */
  predicate SameFirstQuote(s: System, c: CallId, d: CallId) {
    && c in s.calls && d in s.calls && s.calls[c].pair == s.calls[d].pair
    && PairOf(s, s.calls[c].pair).price.None? && InFlight(s.calls[c]) && InFlight(s.calls[d])
  }

  predicate InFlight(call: Call) {
    call.phase.Fetching? || call.phase.Storing?
  }

  /** Until a pair has a price, at most one quote for it is in flight. */
  lemma AtMostOneFirstQuote(s: System, c: CallId, d: CallId)
    requires Inv(s) && c in s.calls && d in s.calls
    requires s.calls[c].pair == s.calls[d].pair && PairOf(s, s.calls[c].pair).price.None?
    requires InFlight(s.calls[c]) && InFlight(s.calls[d])
    ensures c == d
  {
    assert HoldsItsLock(s, c) && HoldsItsLock(s, d);
  }

  /** A call without a price limit is never turned away by the cache. */
  lemma UncheckedNeverTurnedAway(s: System, c: CallId)
    requires Inv(s) && c in s.calls && s.calls[c].maxPrice.None? && s.calls[c].phase.Done?
    ensures !s.calls[c].phase.result.BadCached?
    ensures s.calls[c].phase.result.BadQuote? ==> s.calls[c].phase.result.quote.None?
  {
  }

  // ---------- routes over a collateral token ----------

  /** A token costs one of itself; otherwise what the cache knows. */
  function CachedPrice(s: System, input: Mint, output: Mint): Option<Price> {
    if input == output then Some(1.0) else PairOf(s, (input, output)).price
  }

  /** The quotes a leg's cached price stands for. */
  function LegQuotes(s: System, input: Mint, output: Mint): seq<Price> {
    if input == output then [1.0] else PairOf(s, (input, output)).quotes
  }

  /** The route is dismissed unqueried when both legs are known and too expensive. */
  predicate Dismissed(collateralToBuy: Option<Price>, sellToCollateral: Option<Price>, maxPrice: Price) {
    collateralToBuy.Some? && sellToCollateral.Some? && sellToCollateral.value * collateralToBuy.value > maxPrice
  }

  lemma ProductExceeds(a: real, b: real, x: real, y: real, limit: real)
    requires 0.0 <= a <= x && 0.0 <= b <= y && a * b > limit
    ensures x * y > limit
  {
  }

  /** A leg's cached price is one of its quotes, and none is lower. */
  lemma LegMinimum(s: System, input: Mint, output: Mint)
    requires Minimums(s) && CachedPrice(s, input, output).Some?
    ensures IsMinimum(CachedPrice(s, input, output).value, LegQuotes(s, input, output))
  {
  }

  ghost predicate PairsExceed(xs: seq<Price>, ys: seq<Price>, limit: Price) {
    forall i, j :: 0 <= i < |xs| && 0 <= j < |ys| ==> xs[i] * ys[j] > limit
  }

  /** Every pair of quotes known in this state exceeds the limit. */
  ghost predicate AllKnownExceed(s: System, collateral: Mint, buy: Mint, sell: Mint, maxPrice: Price) {
    PairsExceed(LegQuotes(s, sell, collateral), LegQuotes(s, collateral, buy), maxPrice)
  }

  ghost predicate IsMinimum(x: Price, xs: seq<Price>) {
    x in xs && forall i :: 0 <= i < |xs| ==> x <= xs[i]
  }

  lemma {:induction false} MinimumsDecide(xs: seq<Price>, ys: seq<Price>, x: Price, y: Price, limit: Price)
    requires IsMinimum(x, xs) && IsMinimum(y, ys)
    ensures PairsExceed(xs, ys, limit) <==> x * y > limit
  {
    if x * y > limit {
      forall i, j | 0 <= i < |xs| && 0 <= j < |ys| ensures xs[i] * ys[j] > limit {
        ProductExceeds(x, y, xs[i], ys[j], limit);
      }
    } else {
      var i :| 0 <= i < |xs| && xs[i] == x;
      var j :| 0 <= j < |ys| && ys[j] == y;
      assert !(xs[i] * ys[j] > limit);
    }
  }

  /** The earlier quotes all exceed the limit, so the new ones decide whether the lowest does. */
  lemma {:induction false} NewQuotesDecide(earlier: seq<Price>, now: seq<Price>, earlierMin: Price, min: Price, x: Price, limit: Price)
    requires earlier <= now && IsMinimum(earlierMin, earlier) && IsMinimum(min, now) && x * earlierMin > limit
    ensures x * min > limit <==> NewExceed(now, |earlier|, x, limit)
  {
    if x * min > limit {
      forall i | |earlier| <= i < |now| ensures x * now[i] > limit {
        ProductExceeds(x, min, x, now[i], limit);
      }
    } else {
      var i :| 0 <= i < |now| && now[i] == min;
      if i < |earlier| {
        assert earlier[i] == min;
        ProductExceeds(x, earlierMin, x, min, limit);
      }
    }
  }

  lemma {:induction false} LegKept(s: System, run: seq<Action>, input: Mint, output: Mint)
    requires Inv(s) && ValidRun(s, run) && CachedPrice(s, input, output).Some?
    ensures LegQuotes(s, input, output) <= LegQuotes(After(s, run), input, output)
    ensures CachedPrice(After(s, run), input, output).Some?
    ensures IsMinimum(CachedPrice(s, input, output).value, LegQuotes(s, input, output))
    ensures IsMinimum(CachedPrice(After(s, run), input, output).value, LegQuotes(After(s, run), input, output))
  {
    RunInv(s, run);
    RunGrows(s, run, (input, output));
    LegMinimum(s, input, output);
    LegMinimum(After(s, run), input, output);
  }

  lemma {:induction false} RouteDecided(earlier: seq<Price>, now: seq<Price>, sells: seq<Price>,
                                        earlierMin: Price, first: Price, second: Price, limit: Price)
    requires earlier <= now && IsMinimum(earlierMin, earlier) && IsMinimum(first, now) && IsMinimum(second, sells)
    requires second * earlierMin > limit
    ensures PairsExceed(sells, now, limit) <==> second * first > limit
    ensures PairsExceed(sells, now, limit) <==> NewExceed(now, |earlier|, second, limit)
  {
    MinimumsDecide(sells, now, second, first, limit);
    NewQuotesDecide(earlier, now, earlierMin, first, second, limit);
  }

  /** Every quote from position `from` on exceeds the limit at the given price of the other leg. */
  ghost predicate NewExceed(quotes: seq<Price>, from: nat, other: Price, limit: Price) {
    forall i :: from <= i < |quotes| ==> other * quotes[i] > limit
  }

  lemma {:induction false} LaterMinimum(s: System, run: seq<Action>, input: Mint, output: Mint)
    requires Inv(s) && ValidRun(s, run) && CachedPrice(After(s, run), input, output).Some?
    ensures IsMinimum(CachedPrice(After(s, run), input, output).value, LegQuotes(After(s, run), input, output))
  {
    RunInv(s, run);
    LegMinimum(After(s, run), input, output);
  }

  /** What is known of two reads with a run between them: the first leg's in `s`, the second's in `s'`. */
  ghost predicate ReadAs(s: System, s': System, collateral: Mint, buy: Mint, sell: Mint) {
    && CachedPrice(s, collateral, buy).Some? && CachedPrice(s', collateral, buy).Some? && CachedPrice(s', sell, collateral).Some?
    && LegQuotes(s, collateral, buy) <= LegQuotes(s', collateral, buy)
    && IsMinimum(CachedPrice(s, collateral, buy).value, LegQuotes(s, collateral, buy))
    && IsMinimum(CachedPrice(s', collateral, buy).value, LegQuotes(s', collateral, buy))
    && IsMinimum(CachedPrice(s', sell, collateral).value, LegQuotes(s', sell, collateral))
  }

  lemma {:induction false} RunReads(s: System, run: seq<Action>, collateral: Mint, buy: Mint, sell: Mint)
    requires Inv(s) && ValidRun(s, run)
    requires CachedPrice(s, collateral, buy).Some? && CachedPrice(After(s, run), sell, collateral).Some?
    ensures ReadAs(s, After(s, run), collateral, buy, sell)
  {
    LegKept(s, run, collateral, buy);
    LaterMinimum(s, run, sell, collateral);
  }

  /**
   The two legs are read one after the other, and quotes may be compared in between. A
   dismissal is justified by every quote of each leg that had been compared when that leg
   was read.
   */
  lemma {:induction false} DismissalJustified(s: System, run: seq<Action>, s': System,
                                              collateral: Mint, buy: Mint, sell: Mint, maxPrice: Price)
    requires Inv(s) && ValidRun(s, run) && s' == After(s, run)
    requires Dismissed(CachedPrice(s, collateral, buy), CachedPrice(s', sell, collateral), maxPrice)
    ensures PairsExceed(LegQuotes(s', sell, collateral), LegQuotes(s, collateral, buy), maxPrice)
  {
    RunReads(s, run, collateral, buy, sell);
    MinimumsDecide(LegQuotes(s', sell, collateral), LegQuotes(s, collateral, buy),
                   CachedPrice(s', sell, collateral).value, CachedPrice(s, collateral, buy).value, maxPrice);
  }

  /** Whether a dismissal is also supported by everything known in `s'`, decided in two ways. */
  ghost predicate Decided(s: System, s': System, collateral: Mint, buy: Mint, sell: Mint, maxPrice: Price)
    requires CachedPrice(s', sell, collateral).Some?
  {
    && (AllKnownExceed(s', collateral, buy, sell, maxPrice)
        <==> Dismissed(CachedPrice(s', collateral, buy), CachedPrice(s', sell, collateral), maxPrice))
    && (AllKnownExceed(s', collateral, buy, sell, maxPrice)
        <==> NewExceed(LegQuotes(s', collateral, buy), |LegQuotes(s, collateral, buy)|,
                       CachedPrice(s', sell, collateral).value, maxPrice))
  }

  lemma {:induction false} ReadsDecide(s: System, s': System, collateral: Mint, buy: Mint, sell: Mint, maxPrice: Price)
    requires ReadAs(s, s', collateral, buy, sell)
    requires Dismissed(CachedPrice(s, collateral, buy), CachedPrice(s', sell, collateral), maxPrice)
    ensures Decided(s, s', collateral, buy, sell, maxPrice)
  {
    RouteDecided(LegQuotes(s, collateral, buy), LegQuotes(s', collateral, buy), LegQuotes(s', sell, collateral),
                 CachedPrice(s, collateral, buy).value, CachedPrice(s', collateral, buy).value,
                 CachedPrice(s', sell, collateral).value, maxPrice);
  }

  /**
   A route whose first leg was read in `s` and whose second was read after `run` has been
   dismissed. Everything known by then supports that if and only if the first leg's price
   at that moment would have led to it as well; and if and only if no quote compared for the
   first leg between the two reads admits the route.
   */
  lemma {:induction false} DismissalCurrentIff(s: System, run: seq<Action>, s': System,
                                               collateral: Mint, buy: Mint, sell: Mint, maxPrice: Price)
    requires Inv(s) && ValidRun(s, run) && s' == After(s, run)
    requires Dismissed(CachedPrice(s, collateral, buy), CachedPrice(s', sell, collateral), maxPrice)
    ensures Decided(s, s', collateral, buy, sell, maxPrice)
  {
    RunReads(s, run, collateral, buy, sell);
    ReadsDecide(s, s', collateral, buy, sell, maxPrice);
  }

  lemma {:induction false} OneMoreAction(s: System, run: seq<Action>, a: Action)
    requires ValidRun(s, run) && Enabled(After(s, run), a)
    ensures ValidRun(s, run + [a]) && After(s, run + [a]) == Step(After(s, run), a)
    decreases |run|
  {
    if run == [] {
      assert [a][1..] == [];
    } else {
      OneMoreAction(Step(s, run[0]), run[1..], a);
      assert (run + [a])[1..] == run[1..] + [a];
    }
  }

  /** A first quote of a pair, from the call's start to its answer. */
  lemma {:induction false} FirstQuoteRun(s: System, run: seq<Action>, c: CallId, p: PairId, q: Price) returns (next: seq<Action>)
    requires ValidRun(s, run) && c !in After(s, run).calls && p !in After(s, run).pairs
    ensures next == run + [Begin(c, p, None), Check(c), Arrive(c, Some(q))] && ValidRun(s, next)
    ensures After(s, next) == System(After(s, run).pairs[p := Pair(Some(q), None, [q])],
                                     After(s, run).calls[c := Call(p, None, Done(Quote(q)))])
  {
    var s0 := After(s, run);
    OneMoreAction(s, run, Begin(c, p, None));
    var run1 := run + [Begin(c, p, None)];
    OneMoreAction(s, run1, Check(c));
    var run2 := run1 + [Check(c)];
    OneMoreAction(s, run2, Arrive(c, Some(q)));
    next := run2 + [Arrive(c, Some(q))];
    assert [] + [q] == [q];
  }

  /** A later quote of a pair, up to the moment before it is compared with the cached price. */
  lemma {:induction false} LaterQuoteRun(s: System, run: seq<Action>, c: CallId, p: PairId, limit: Price, q: Price) returns (next: seq<Action>)
    requires ValidRun(s, run) && c !in After(s, run).calls && p in After(s, run).pairs
    requires var pair := After(s, run).pairs[p]; pair.lock.None? && pair.price.Some? && pair.price.value <= limit
    ensures next == run + [Begin(c, p, Some(limit)), Check(c), Arrive(c, Some(q))] && ValidRun(s, next)
    ensures After(s, next) == After(s, run).(calls := After(s, run).calls[c := Call(p, Some(limit), Storing(Some(q)))])
  {
    OneMoreAction(s, run, Begin(c, p, Some(limit)));
    var run1 := run + [Begin(c, p, Some(limit))];
    OneMoreAction(s, run1, Check(c));
    var run2 := run1 + [Check(c)];
    OneMoreAction(s, run2, Arrive(c, Some(q)));
    next := run2 + [Arrive(c, Some(q))];
  }

  /**
   From the empty cache: both legs have been quoted at 2, and a quote of 1 for the first leg
   has arrived. The first leg is read, the quote is stored, the second leg is read: with a
   limit of 3 the route is dismissed although the quotes then known would admit it.
   */
  lemma {:induction false} StaleDismissal() returns (past: seq<Action>, between: seq<Action>)
    ensures ValidRun(System(map[], map[]), past)
    ensures ValidRun(After(System(map[], map[]), past), between)
    ensures var s := After(System(map[], map[]), past);
            var s' := After(s, between);
            && Dismissed(CachedPrice(s, 0, 1), CachedPrice(s', 2, 0), 3.0)
            && !AllKnownExceed(s', 0, 1, 2, 3.0)
  {
    var empty := System(map[], map[]);
    past := FirstQuoteRun(empty, [], 0, (0, 1), 2.0);
    past := FirstQuoteRun(empty, past, 1, (2, 0), 2.0);
    past := LaterQuoteRun(empty, past, 7, (0, 1), 5.0, 1.0);
    var s := After(empty, past);
    between := [Store(7)];
    assert between[1..] == [];
    var s' := Step(s, Store(7));
    assert After(s, between) == s';
    assert LegQuotes(s', 0, 1)[1] == 1.0 && LegQuotes(s', 2, 0)[0] == 2.0;
  }
}
