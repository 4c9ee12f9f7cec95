/**
 How long an answer is cached, over any interleaving: from the arrival that brings it until
 the cache is cleared. In between, nothing is asked of the backend again for that request.
 */
module FetchCaching {

  import opened Common
  import opened AccountCache
  import opened FetchProtocol

  lemma {:induction false} StoredExactly(accounts: map<Key, Data>, rows: Rows, k: Key)
    ensures k in Stored(accounts, rows) <==> k in accounts || k in KeysOf(rows)
  {
    if rows != [] {
      var n := |rows| - 1;
      StoredExactly(accounts, rows[..n], k);
      assert KeysOf(rows) == KeysOf(rows[..n]) + [rows[n].0];
    }
  }

  /** The rows bring an answer for `r`: it is what was asked for, or one of the accounts listed. */
  predicate Brings(rows: Rows, asked: Request, r: Request) {
    match r
    case Account(k) => k in KeysOf(rows)
    case Accounts(_) => r == asked
  }

  lemma {:induction false} FinishedExactly(c: Cache, asked: Request, rows: Rows, r: Request)
    ensures IsCached(Finished(c, asked, Some(rows)), r) <==> IsCached(c, r) || Brings(rows, asked, r)
  {
    match r
    case Account(k) => StoredExactly(c.accounts, rows, k);
    case Accounts(_) =>
  }

  /** What the action brings an answer for. */
  ghost predicate Answers(b: Backend, s: System, a: Action, r: Request)
    requires ValidBackend(b) && Enabled(b, s, a)
  {
    match a
    case Arrive(job) => Brings(Direct(b, s.jobs[job].request), s.jobs[job].request, r)
    case FetchMultiple(keys) => r.Account? && r.key in keys
    case _ => false
  }

  /** A request is cached once an answer for it has arrived, and until the cache is cleared. */
  lemma {:induction false} CachedAfterStep(b: Backend, s: System, a: Action, r: Request)
    requires ValidBackend(b) && IndexCovered(s.cache) && Enabled(b, s, a)
    ensures IsCached(Step(b, s, a).cache, r) <==> Answers(b, s, a, r) || (IsCached(s.cache, r) && a != Clear)
  {
    match a
    case Arrive(job) => FinishedExactly(s.cache, s.jobs[job].request, Direct(b, s.jobs[job].request), r);
    case FetchMultiple(keys) =>
      var rows := RowsOf(keys, b.accounts);
      assert KeysOf(rows) == keys;
      if r.Account? {
        StoredExactly(s.cache.accounts, rows, r.key);
      }
    case _ =>
  }

  /** The request of an arriving job is answered. */
  lemma ArrivalAnswers(b: Backend, s: System, job: JobId)
    requires ValidBackend(b) && Enabled(b, s, Arrive(job))
    ensures Answers(b, s, Arrive(job), s.jobs[job].request)
  {
    var r := s.jobs[job].request;
    if r.Account? {
      assert KeysOf(Direct(b, r))[0] == r.key;
    }
  }

  /** Fetching what is cached is answered at once and starts no job. */
  lemma CachedFetch(b: Backend, s: System, call: CallId, r: Request, newJob: JobId)
    requires ValidBackend(b) && Inv(b, s) && Enabled(b, s, Fetch(call, r, newJob))
    ensures var s' := Step(b, s, Fetch(call, r, newJob));
            && call in s'.calls && s'.calls[call].request == r
            && (IsCached(s.cache, r) ==> Has(b, r) && s'.calls[call].answer == Returned(Direct(b, r)) && s'.jobs == s.jobs)
            && (!IsCached(s.cache, r) ==> s'.calls[call].answer.Waiting?)
            && (!IsCached(s.cache, r) && r in s.cache.jobs ==> s'.jobs == s.jobs)
            && (!IsCached(s.cache, r) && r !in s.cache.jobs ==> s'.jobs == s.jobs[newJob := Job(r, Running)])
  {
    if IsCached(s.cache, r) {
      assert CachedRows(s.cache, r) == Direct(b, r);
    }
  }

  // ---------- whole runs ----------

  ghost predicate NeverClears(run: seq<Action>) {
    forall i :: 0 <= i < |run| ==> run[i] != Clear
  }

  /** The jobs for a request. */
  ghost function JobsFor(s: System, r: Request): set<JobId> {
    set job | job in s.jobs && s.jobs[job].request == r
  }

  lemma {:induction false} NoNewJob(b: Backend, s: System, a: Action, r: Request)
    requires ValidBackend(b) && Inv(b, s) && Enabled(b, s, a) && IsCached(s.cache, r)
    ensures JobsFor(Step(b, s, a), r) == JobsFor(s, r)
  {
  }

  /**
   One fetch per request. Once `r` is cached, then as long as nobody clears the cache it
   stays cached and no further job for it is started, whatever else is fetched, arrives or
   fails, and every fetch of it is answered at once.
   */
  lemma {:induction false} CachedUntilCleared(b: Backend, s: System, run: seq<Action>, s': System, r: Request)
    requires ValidBackend(b) && Inv(b, s) && Reaches(b, s, run, s') && IsCached(s.cache, r) && NeverClears(run)
    ensures Inv(b, s') && IsCached(s'.cache, r) && JobsFor(s', r) == JobsFor(s, r)
    decreases |run|
  {
    if run != [] {
      var a := run[0];
      assert a != Clear;
      CachedAfterStep(b, s, a, r);
      NoNewJob(b, s, a, r);
      StepInv(b, s, a);
      assert forall i :: 0 <= i < |run[1..]| ==> run[1..][i] == run[i + 1];
      CachedUntilCleared(b, Step(b, s, a), run[1..], s', r);
    }
  }

  /** Clearing forgets every answer; jobs in flight and calls waiting for them go on. */
  lemma ClearForgets(b: Backend, s: System, r: Request)
    requires ValidBackend(b) && IndexCovered(s.cache)
    ensures var s' := Step(b, s, Clear);
            !IsCached(s'.cache, r) && s'.jobs == s.jobs && s'.calls == s.calls && s'.cache.jobs == s.cache.jobs
  {
  }

  /** What was fetched before stays recorded with the same request, whatever happens next. */
  lemma {:induction false} CallsStay(b: Backend, s: System, run: seq<Action>, s': System, call: CallId)
    requires ValidBackend(b) && Inv(b, s) && Reaches(b, s, run, s') && call in s.calls
    ensures call in s'.calls && s'.calls[call].request == s.calls[call].request
    ensures !s.calls[call].answer.Waiting? ==> s'.calls[call] == s.calls[call]
    decreases |run|
  {
    if run != [] {
      StepInv(b, s, run[0]);
      CallsStay(b, Step(b, s, run[0]), run[1..], s', call);
    }
  }
}
