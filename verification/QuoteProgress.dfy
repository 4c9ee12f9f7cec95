/**
 What becomes of every call to the price cache: which answer it gets, from which query, and
 that it gets one.
 */
module QuoteProgress {

  import opened Common
  import opened QuoteCache

  // ---------- the decision at the lock ----------

  ghost predicate AllAbove(quotes: seq<Price>, limit: Price) {
    forall i :: 0 <= i < |quotes| ==> quotes[i] > limit
  }

  /**
   With the lock, a call is turned away exactly if the pair has quotes and all of them are
   too high for it. Otherwise it asks for a quote, keeping the lock exactly if there is none.
   */
  lemma CheckDecides(s: System, c: CallId)
    requires Inv(s) && Enabled(s, Check(c))
    ensures var quotes := PairOf(s, s.calls[c].pair).quotes;
            var phase := Step(s, Check(c)).calls[c].phase;
            && (phase.Done? <==> quotes != [] && s.calls[c].maxPrice.Some? && AllAbove(quotes, s.calls[c].maxPrice.value))
            && (phase == Fetching(true) <==> quotes == [])
            && (phase.Done? || phase.Fetching?)
            && Step(s, Check(c)).pairs.Keys == s.pairs.Keys + (if quotes == [] then {s.calls[c].pair} else {})
  {
    var pair := PairOf(s, s.calls[c].pair);
    assert RunningMinimum(pair);
    assert pair.price.Some? ==> exists i :: 0 <= i < |pair.quotes| && pair.quotes[i] == pair.price.value;
  }

  // ---------- the answers belong to the calls ----------

  /** The run so far explains where the call is. */
  ghost predicate Explained(run: seq<Action>, c: CallId, call: Call) {
    && Begin(c, call.pair, call.maxPrice) in run
    && match call.phase
       case Waiting => true
       case Fetching(_) => Check(c) in run
       case Storing(quote) => Arrive(c, quote) in run
       case Done(BadCached(_, _)) => Check(c) in run
       case Done(BadQuote(quote)) => Arrive(c, quote) in run
       case Done(Quote(price)) => Arrive(c, Some(price)) in run
       case Done(Error) => Fail(c) in run
  }

  /** No query was made for the call. */
  ghost predicate Unqueried(run: seq<Action>, c: CallId) {
    forall i :: 0 <= i < |run| ==> run[i] != Fail(c) && !(run[i].Arrive? && run[i].c == c)
  }

  ghost predicate BeforeQuery(phase: Phase) {
    phase.Waiting? || phase.Fetching? || (phase.Done? && phase.result.BadCached?)
  }

  ghost predicate AllExplained(run: seq<Action>, s: System) {
    && (forall i :: 0 <= i < |run| ==> run[i].c in s.calls)
    && (forall c :: c in s.calls ==> Explained(run, c, s.calls[c]))
    && (forall c :: c in s.calls && BeforeQuery(s.calls[c].phase) ==> Unqueried(run, c))
  }

  lemma {:induction false} CallAfter(s: System, a: Action, c: CallId)
    requires Enabled(s, a)
    ensures var s' := Step(s, a);
            && (c in s'.calls <==> c in s.calls || c == a.c)
            && (c in s.calls && c != a.c ==> s'.calls[c] == s.calls[c])
            && (c in s.calls && !a.Begin? ==> s'.calls[c].pair == s.calls[c].pair && s'.calls[c].maxPrice == s.calls[c].maxPrice)
  {
  }

  lemma {:induction false} ExplainedLater(run: seq<Action>, a: Action, c: CallId, call: Call)
    requires Explained(run, c, call)
    ensures Explained(run + [a], c, call)
  {
    assert forall x :: x in run ==> x in run + [a];
  }

  lemma {:induction false} ActorExplained(run: seq<Action>, s: System, a: Action)
    requires Enabled(s, a) && (a.c in s.calls ==> Explained(run, a.c, s.calls[a.c]))
    ensures a.c in Step(s, a).calls && Explained(run + [a], a.c, Step(s, a).calls[a.c])
  {
    assert a in run + [a];
    assert forall x :: x in run ==> x in run + [a];
  }

  lemma {:induction false} CallExplained(run: seq<Action>, s: System, a: Action, c: CallId)
    requires AllExplained(run, s) && Enabled(s, a) && c in Step(s, a).calls
    ensures Explained(run + [a], c, Step(s, a).calls[c])
  {
    CallAfter(s, a, c);
    if c == a.c {
      ActorExplained(run, s, a);
    } else {
      ExplainedLater(run, a, c, s.calls[c]);
    }
  }

  lemma {:induction false} CallUnqueried(run: seq<Action>, s: System, a: Action, c: CallId)
    requires AllExplained(run, s) && Enabled(s, a) && c in Step(s, a).calls && BeforeQuery(Step(s, a).calls[c].phase)
    ensures Unqueried(run + [a], c)
  {
    CallAfter(s, a, c);
    if c in s.calls {
      assert BeforeQuery(s.calls[c].phase);
    } else {
      assert forall i :: 0 <= i < |run| ==> run[i].c != c;
    }
  }

  lemma {:induction false} StepExplained(run: seq<Action>, s: System, a: Action)
    requires AllExplained(run, s) && Enabled(s, a)
    ensures AllExplained(run + [a], Step(s, a))
  {
    var s' := Step(s, a);
    forall i | 0 <= i < |run + [a]| ensures (run + [a])[i].c in s'.calls {
      CallAfter(s, a, (run + [a])[i].c);
    }
    forall c | c in s'.calls ensures Explained(run + [a], c, s'.calls[c]) {
      CallExplained(run, s, a, c);
    }
    forall c | c in s'.calls && BeforeQuery(s'.calls[c].phase) ensures Unqueried(run + [a], c) {
      CallUnqueried(run, s, a, c);
    }
  }

  lemma {:induction false} RunExplained(past: seq<Action>, s: System, run: seq<Action>, all: seq<Action>)
    requires AllExplained(past, s) && ValidRun(s, run) && all == past + run
    ensures AllExplained(all, After(s, run))
    decreases |run|
  {
    if run == [] {
      assert all == past;
    } else {
      StepExplained(past, s, run[0]);
      RunExplained(past + [run[0]], Step(s, run[0]), run[1..], all);
    }
  }

  /**
   From the empty cache, under every interleaving: every call that was begun is known with
   its pair and limit; a quote it was told about is the one that arrived for it, an error
   is its own query's failure, and a call turned away by the cache made no query.
   */
  lemma {:induction false} ReachableExplained(run: seq<Action>)
    requires ValidRun(System(map[], map[]), run)
    ensures AllExplained(run, After(System(map[], map[]), run))
  {
    var s := System(map[], map[]);
    assert AllExplained([], s);
    RunExplained([], s, run, run);
  }

  // ---------- no quote is lost ----------

  /** The finite quote that arrived for `c` has been compared, or is about to be. */
  ghost predicate Kept(s: System, c: CallId, price: Price) {
    && c in s.calls
    && (s.calls[c].phase == Storing(Some(price)) || price in PairOf(s, s.calls[c].pair).quotes)
  }

  ghost predicate AllKept(run: seq<Action>, s: System) {
    forall i :: 0 <= i < |run| && run[i].Arrive? && run[i].quote.Some? ==> Kept(s, run[i].c, run[i].quote.value)
  }

  lemma {:induction false} StaysKept(s: System, a: Action, c: CallId, price: Price)
    requires Enabled(s, a) && Kept(s, c, price)
    ensures Kept(Step(s, a), c, price)
  {
    CallAfter(s, a, c);
    StepGrows(s, a, s.calls[c].pair);
  }

  lemma {:induction false} ArrivedIsKept(s: System, c: CallId, price: Price)
    requires Enabled(s, Arrive(c, Some(price)))
    ensures Kept(Step(s, Arrive(c, Some(price))), c, price)
  {
  }

  lemma {:induction false} RunKept(past: seq<Action>, s: System, run: seq<Action>)
    requires AllKept(past, s) && ValidRun(s, run)
    ensures AllKept(past + run, After(s, run))
    decreases |run|
  {
    if run == [] {
      assert past + run == past;
    } else {
      var a := run[0];
      forall i | 0 <= i < |past + [a]| && (past + [a])[i].Arrive? && (past + [a])[i].quote.Some?
        ensures Kept(Step(s, a), (past + [a])[i].c, (past + [a])[i].quote.value)
      {
        if i < |past| {
          StaysKept(s, a, past[i].c, past[i].quote.value);
        } else {
          ArrivedIsKept(s, a.c, a.quote.value);
        }
      }
      RunKept(past + [a], Step(s, a), run[1..]);
      assert past + [a] + run[1..] == past + run;
    }
  }

  // ---------- every call gets an answer ----------

  /** Steps a call has ahead of it at most. */
  function Ahead(phase: Phase): nat {
    match phase
    case Waiting => 3
    case Fetching(_) => 2
    case Storing(_) => 1
    case Done(_) => 0
  }

  /** Calls that have at least `n` steps ahead. */
  ghost function CallsAhead(s: System, n: nat): set<CallId> {
    set c | c in s.calls && Ahead(s.calls[c].phase) >= n
  }

  ghost function Measure(s: System): nat {
    |CallsAhead(s, 1)| + |CallsAhead(s, 2)| + |CallsAhead(s, 3)|
  }

  lemma {:induction false} AheadAfter(s: System, a: Action, n: nat)
    requires Enabled(s, a) && n >= 1
    ensures var s' := Step(s, a);
            CallsAhead(s', n) == if Ahead(s'.calls[a.c].phase) >= n then CallsAhead(s, n) + {a.c} else CallsAhead(s, n) - {a.c}
  {
    var s' := Step(s, a);
    assert forall c :: c in s.calls && c != a.c ==> c in s'.calls && s'.calls[c] == s.calls[c];
    assert forall c :: c in s'.calls && c != a.c ==> c in s.calls;
  }

  /** Beginning a call adds three steps at most, and every other step uses one up. */
  lemma {:induction false} StepMeasure(s: System, a: Action)
    requires Enabled(s, a)
    ensures a.Begin? ==> Measure(Step(s, a)) <= Measure(s) + 3
    ensures !a.Begin? ==> Measure(Step(s, a)) < Measure(s)
  {
    AheadAfter(s, a, 1);
    AheadAfter(s, a, 2);
    AheadAfter(s, a, 3);
    if !a.Begin? {
      AheadFalls(s, a);
      assert a.c in CallsAhead(s, Ahead(s.calls[a.c].phase));
    }
  }

  lemma AheadFalls(s: System, a: Action)
    requires Enabled(s, a) && !a.Begin?
    ensures Ahead(Step(s, a).calls[a.c].phase) < Ahead(s.calls[a.c].phase) <= 3
  {
  }

  function Begins(run: seq<Action>): nat {
    if run == [] then 0 else (if run[0].Begin? then 1 else 0) + Begins(run[1..])
  }

  /** A run has at most four steps for each call it begins, so the calls come to rest. */
  lemma {:induction false} RunBounded(s: System, run: seq<Action>)
    requires ValidRun(s, run)
    ensures |run| + Measure(After(s, run)) <= Measure(s) + 4 * Begins(run)
    decreases |run|
  {
    if run != [] {
      StepMeasure(s, run[0]);
      RunBounded(Step(s, run[0]), run[1..]);
    }
  }

  /** A call without its answer is never stuck behind the lock of a pair. */
  lemma {:induction false} NextStep(s: System, c: CallId) returns (a: Action)
    requires Inv(s) && c in s.calls && !s.calls[c].phase.Done?
    ensures Enabled(s, a) && !a.Begin?
  {
    var lock := PairOf(s, s.calls[c].pair).lock;
    if s.calls[c].phase.Fetching? {
      a := Fail(c);
    } else if lock.Some? {
      assert HolderFetches(s, s.calls[c].pair);
      a := Fail(lock.value);
    } else if s.calls[c].phase.Waiting? {
      a := Check(c);
    } else {
      a := Store(c);
    }
  }

  /** The pair's price is known and not above the quote. */
  ghost predicate LowestOf(pair: Pair, quote: Price) {
    pair.price.Some? && pair.price.value <= quote
  }

  lemma {:induction false} KeptIsCompared(s: System, c: CallId, price: Price)
    requires Inv(s) && Kept(s, c, price) && !s.calls[c].phase.Storing?
    ensures LowestOf(PairOf(s, s.calls[c].pair), price)
  {
    var pair := PairOf(s, s.calls[c].pair);
    assert RunningMinimum(pair);
    var i :| 0 <= i < |pair.quotes| && pair.quotes[i] == price;
  }

  /**
   When nothing but a new call could happen, every call begun has its answer, every pair is
   unlocked, and no finite quote that arrived for a pair is below the pair's price.
   */
  lemma {:induction false} RestMeansAnswered(run: seq<Action>)
    requires ValidRun(System(map[], map[]), run)
    requires forall a :: Enabled(After(System(map[], map[]), run), a) ==> a.Begin?
    ensures var s := After(System(map[], map[]), run);
            && (forall i :: 0 <= i < |run| ==> run[i].c in s.calls && s.calls[run[i].c].phase.Done?)
            && (forall p :: PairOf(s, p).lock.None?)
            && (forall i :: 0 <= i < |run| && run[i].Arrive? && run[i].quote.Some? ==>
                  LowestOf(PairOf(s, s.calls[run[i].c].pair), run[i].quote.value))
  {
    var s := After(System(map[], map[]), run);
    EmptyCache();
    RunInv(System(map[], map[]), run);
    ReachableExplained(run);
    forall c | c in s.calls ensures s.calls[c].phase.Done? {
      if !s.calls[c].phase.Done? {
        var a := NextStep(s, c);
        assert false;
      }
    }
    forall p ensures PairOf(s, p).lock.None? {
      assert HolderFetches(s, p);
    }
    RunKept([], System(map[], map[]), run);
    assert [] + run == run;
    forall i | 0 <= i < |run| && run[i].Arrive? && run[i].quote.Some?
      ensures LowestOf(PairOf(s, s.calls[run[i].c].pair), run[i].quote.value)
    {
      assert Kept(s, run[i].c, run[i].quote.value);
      KeptIsCompared(s, run[i].c, run[i].quote.value);
    }
  }
}
