/**
 Concurrent fetches through the cache against a backend whose contents do not change:
 any interleaving of fetches, arrivals, failures and clearing.
 */
module FetchProtocol {

  import opened Common
  import opened AccountCache

  datatype Backend = Backend(accounts: map<Key, Data>, programs: map<Program, seq<Key>>)

  ghost predicate ValidBackend(b: Backend) {
    forall p :: p in b.programs ==> Covered(b.programs[p], b.accounts)
  }

  predicate Has(b: Backend, r: Request) {
    match r
    case Account(k) => k in b.accounts
    case Accounts(p) => p in b.programs
  }

  /** What fetching directly returns. */
  function Direct(b: Backend, r: Request): Rows
    requires ValidBackend(b) && Has(b, r)
  {
    match r
    case Account(k) => [(k, b.accounts[k])]
    case Accounts(p) => RowsOf(b.programs[p], b.accounts)
  }

  type CallId = nat

  datatype Progress = Running | Done(result: Option<Rows>)

  datatype Job = Job(request: Request, progress: Progress)

  /** `Failed` names the job that failed. */
  datatype Answer = Waiting(job: JobId) | Returned(rows: Rows) | Failed(job: JobId)

  datatype Call = Call(request: Request, answer: Answer)

  datatype System = System(cache: Cache, jobs: map<JobId, Job>, calls: map<CallId, Call>)

  datatype Action =
    | Fetch(call: CallId, request: Request, newJob: JobId)
    | Arrive(job: JobId)
    | Fail(job: JobId)
    | Deliver(call: CallId)
    | FetchMultiple(keys: seq<Key>)  // a fetch of several accounts arrives
    | Clear

  ghost predicate Enabled(b: Backend, s: System, a: Action) {
    match a
    case Fetch(call, _, newJob) => call !in s.calls && newJob !in s.jobs
    case Arrive(job) => job in s.jobs && s.jobs[job].progress.Running? && Has(b, s.jobs[job].request)
    case Fail(job) => job in s.jobs && s.jobs[job].progress.Running?
    case Deliver(call) =>
      && call in s.calls && s.calls[call].answer.Waiting?
      && s.calls[call].answer.job in s.jobs && s.jobs[s.calls[call].answer.job].progress.Done?
    case FetchMultiple(keys) => Covered(keys, b.accounts)
    case Clear => true
  }

  ghost function Complete(s: System, job: JobId, result: Option<Rows>): System
    requires job in s.jobs
  {
    System(Finished(s.cache, s.jobs[job].request, result), s.jobs[job := s.jobs[job].(progress := Done(result))], s.calls)
  }

  ghost function Step(b: Backend, s: System, a: Action): System
    requires ValidBackend(b) && IndexCovered(s.cache) && Enabled(b, s, a)
  {
    match a
    case Fetch(call, r, newJob) =>
      if IsCached(s.cache, r) then
        s.(calls := s.calls[call := Call(r, Returned(CachedRows(s.cache, r)))])
      else
        var cache := Started(s.cache, r, newJob);
        System(cache, if r in s.cache.jobs then s.jobs else s.jobs[newJob := Job(r, Running)],
               s.calls[call := Call(r, Waiting(cache.jobs[r]))])
    case Arrive(job) => Complete(s, job, Some(Direct(b, s.jobs[job].request)))
    case Fail(job) => Complete(s, job, None)
    case Deliver(call) =>
      var job := s.calls[call].answer.job;
      var answer := match s.jobs[job].progress.result case Some(rows) => Returned(rows) case None => Failed(job);
      s.(calls := s.calls[call := s.calls[call].(answer := answer)])
    case FetchMultiple(keys) => s.(cache := s.cache.(accounts := Stored(s.cache.accounts, RowsOf(keys, b.accounts))))
    case Clear => s.(cache := Cleared(s.cache))
  }

  // ---------- invariants ----------

  /** The cache holds only what the backend has. */
  ghost predicate Agrees(c: Cache, b: Backend) {
    && (forall k :: k in c.accounts ==> k in b.accounts && c.accounts[k] == b.accounts[k])
    && (forall p :: p in c.index ==> p in b.programs && c.index[p] == b.programs[p])
  }

  /** A job is running exactly if it is the registered one for its request. */
  ghost predicate JobMatches(s: System, job: JobId) {
    job in s.jobs ==> (s.jobs[job].progress.Running? <==>
                       s.jobs[job].request in s.cache.jobs && s.cache.jobs[s.jobs[job].request] == job)
  }

  ghost predicate RequestMatches(s: System, r: Request) {
    r in s.cache.jobs ==> s.cache.jobs[r] in s.jobs && s.jobs[s.cache.jobs[r]].request == r
  }

  ghost predicate JobsMatch(s: System) {
    (forall job :: JobMatches(s, job)) && (forall r :: RequestMatches(s, r))
  }

  ghost predicate JobHonest(b: Backend, job: Job)
    requires ValidBackend(b)
  {
    job.progress.Done? && job.progress.result.Some? ==>
      Has(b, job.request) && job.progress.result.value == Direct(b, job.request)
  }

  ghost predicate CallHonest(b: Backend, s: System, call: Call)
    requires ValidBackend(b)
  {
    match call.answer
    case Waiting(job) => job in s.jobs && s.jobs[job].request == call.request
    case Returned(rows) => Has(b, call.request) && rows == Direct(b, call.request)
    case Failed(job) => job in s.jobs && s.jobs[job] == Job(call.request, Done(None))
  }

  ghost predicate Honest(b: Backend, s: System)
    requires ValidBackend(b)
  {
    && (forall job :: job in s.jobs ==> JobHonest(b, s.jobs[job]))
    && (forall call :: call in s.calls ==> CallHonest(b, s, s.calls[call]))
  }

  ghost predicate Inv(b: Backend, s: System)
    requires ValidBackend(b)
  {
    IndexCovered(s.cache) && Agrees(s.cache, b) && JobsMatch(s) && Honest(b, s)
  }

  lemma StartInv(b: Backend)
    requires ValidBackend(b)
    ensures Inv(b, System(EMPTY, map[], map[]))
  {
  }

  ghost predicate RowsAgree(rows: Rows, b: Backend) {
    forall i :: 0 <= i < |rows| ==> rows[i].0 in b.accounts && rows[i].1 == b.accounts[rows[i].0]
  }

  lemma {:induction false} StoredAgrees(accounts: map<Key, Data>, rows: Rows, b: Backend)
    requires RowsAgree(rows, b) && forall k :: k in accounts ==> k in b.accounts && accounts[k] == b.accounts[k]
    ensures forall k :: k in Stored(accounts, rows) ==> k in b.accounts && Stored(accounts, rows)[k] == b.accounts[k]
  {
    if rows != [] {
      StoredAgrees(accounts, rows[..|rows| - 1], b);
    }
  }

  lemma DirectAgrees(b: Backend, r: Request)
    requires ValidBackend(b) && Has(b, r)
    ensures RowsAgree(Direct(b, r), b)
    ensures r.Accounts? ==> KeysOf(Direct(b, r)) == b.programs[r.program]
  {
  }

  /** A cached answer is the direct one. */
  lemma CachedIsDirect(b: Backend, c: Cache, r: Request)
    requires ValidBackend(b) && IndexCovered(c) && Agrees(c, b) && IsCached(c, r)
    ensures Has(b, r) && CachedRows(c, r) == Direct(b, r)
  {
  }

  lemma StepCache(b: Backend, s: System, a: Action)
    requires ValidBackend(b) && Inv(b, s) && Enabled(b, s, a)
    ensures IndexCovered(Step(b, s, a).cache) && Agrees(Step(b, s, a).cache, b)
  {
    match a
    case Arrive(job) =>
      var r := s.jobs[job].request;
      DirectAgrees(b, r);
      StoredAgrees(s.cache.accounts, Direct(b, r), b);
      FinishedCovered(s.cache, r, Some(Direct(b, r)));
    case Fail(job) => FinishedCovered(s.cache, s.jobs[job].request, None);
    case FetchMultiple(keys) =>
      StoredAgrees(s.cache.accounts, RowsOf(keys, b.accounts), b);
      StoredKeys(s.cache.accounts, RowsOf(keys, b.accounts));
    case _ =>
  }

  lemma CompleteJobs(s: System, job: JobId, result: Option<Rows>)
    requires JobsMatch(s) && job in s.jobs && s.jobs[job].progress.Running?
    ensures JobsMatch(Complete(s, job, result))
  {
    var s' := Complete(s, job, result);
    assert JobMatches(s, job);
    forall j ensures JobMatches(s', j) {
      assert JobMatches(s, j);
    }
    forall r ensures RequestMatches(s', r) {
      assert RequestMatches(s, r);
    }
  }

  lemma FetchJobs(b: Backend, s: System, call: CallId, r: Request, newJob: JobId)
    requires ValidBackend(b) && IndexCovered(s.cache) && JobsMatch(s) && Enabled(b, s, Fetch(call, r, newJob))
    ensures JobsMatch(Step(b, s, Fetch(call, r, newJob)))
  {
    var s' := Step(b, s, Fetch(call, r, newJob));
    forall j ensures JobMatches(s', j) {
      assert JobMatches(s, j);
      if j in s.jobs {
        assert RequestMatches(s, s.jobs[j].request);
      }
    }
    forall q ensures RequestMatches(s', q) {
      assert RequestMatches(s, q);
    }
  }

  lemma StepJobs(b: Backend, s: System, a: Action)
    requires ValidBackend(b) && IndexCovered(s.cache) && JobsMatch(s) && Enabled(b, s, a)
    ensures JobsMatch(Step(b, s, a))
  {
    match a
    case Fetch(call, r, newJob) => FetchJobs(b, s, call, r, newJob);
    case Arrive(job) => CompleteJobs(s, job, Some(Direct(b, s.jobs[job].request)));
    case Fail(job) => CompleteJobs(s, job, None);
    case _ =>
      var s' := Step(b, s, a);
      forall j ensures JobMatches(s', j) {
        assert JobMatches(s, j);
      }
      forall r ensures RequestMatches(s', r) {
        assert RequestMatches(s, r);
      }
  }

  /** Jobs keep their request, and a result once they have one. */
  ghost predicate JobsKept(s: System, s': System) {
    forall job :: job in s.jobs ==>
      job in s'.jobs && s'.jobs[job].request == s.jobs[job].request
      && (s.jobs[job].progress.Done? ==> s'.jobs[job] == s.jobs[job])
  }

  lemma StepKeepsJobs(b: Backend, s: System, a: Action)
    requires ValidBackend(b) && IndexCovered(s.cache) && Enabled(b, s, a)
    ensures JobsKept(s, Step(b, s, a))
  {
  }

  lemma StepJobsHonest(b: Backend, s: System, a: Action)
    requires ValidBackend(b) && Inv(b, s) && Enabled(b, s, a)
    ensures forall job :: job in Step(b, s, a).jobs ==> JobHonest(b, Step(b, s, a).jobs[job])
  {
  }

  lemma ActorHonest(b: Backend, s: System, a: Action)
    requires ValidBackend(b) && Inv(b, s) && Enabled(b, s, a) && (a.Fetch? || a.Deliver?)
    ensures CallHonest(b, Step(b, s, a), Step(b, s, a).calls[a.call])
  {
    match a
    case Fetch(call, r, newJob) =>
      assert RequestMatches(s, r);
      if IsCached(s.cache, r) {
        CachedIsDirect(b, s.cache, r);
      }
    case Deliver(call) =>
      assert CallHonest(b, s, s.calls[call]);
      assert JobHonest(b, s.jobs[s.calls[call].answer.job]);
  }

  lemma StepHonest(b: Backend, s: System, a: Action)
    requires ValidBackend(b) && Inv(b, s) && Enabled(b, s, a)
    ensures Honest(b, Step(b, s, a))
  {
    var s' := Step(b, s, a);
    StepJobsHonest(b, s, a);
    StepKeepsJobs(b, s, a);
    forall call | call in s'.calls ensures CallHonest(b, s', s'.calls[call]) {
      if (a.Fetch? || a.Deliver?) && a.call == call {
        ActorHonest(b, s, a);
      } else {
        assert CallHonest(b, s, s.calls[call]);
      }
    }
  }

  lemma StepInv(b: Backend, s: System, a: Action)
    requires ValidBackend(b) && Inv(b, s) && Enabled(b, s, a)
    ensures Inv(b, Step(b, s, a))
  {
    StepCache(b, s, a);
    StepJobs(b, s, a);
    StepHonest(b, s, a);
  }

  /** `s'` is reached from `s` by the actions. */
  ghost predicate Reaches(b: Backend, s: System, run: seq<Action>, s': System)
    requires ValidBackend(b) && IndexCovered(s.cache)
    decreases |run|
  {
    if run == [] then s' == s
    else
      Enabled(b, s, run[0]) && IndexCovered(Step(b, s, run[0]).cache) && Reaches(b, Step(b, s, run[0]), run[1..], s')
  }

  /**
   Through every run, every fetch that returns rows returns what the backend has, the
   index never lists a missing account, and at most one job per request is running.
   */
  lemma {:induction false} RunInv(b: Backend, s: System, run: seq<Action>, s': System)
    requires ValidBackend(b) && Inv(b, s) && Reaches(b, s, run, s')
    ensures Inv(b, s')
    decreases |run|
  {
    if run != [] {
      StepInv(b, s, run[0]);
      RunInv(b, Step(b, s, run[0]), run[1..], s');
    }
  }

  lemma OneJobPerRequest(b: Backend, s: System, i: JobId, j: JobId)
    requires ValidBackend(b) && Inv(b, s) && i in s.jobs && j in s.jobs
    requires s.jobs[i].progress.Running? && s.jobs[j].progress.Running? && s.jobs[i].request == s.jobs[j].request
    ensures i == j
  {
    assert JobMatches(s, i) && JobMatches(s, j);
  }

  /** A failure is not remembered: the next fetch of the request starts a new job. */
  lemma FailureIsRetried(b: Backend, s: System, job: JobId, call: CallId, newJob: JobId)
    requires ValidBackend(b) && Inv(b, s) && Enabled(b, s, Fail(job)) && !IsCached(s.cache, s.jobs[job].request)
    requires call !in s.calls && newJob !in s.jobs
    ensures var s1 := Step(b, s, Fail(job));
            var r := s.jobs[job].request;
            && IndexCovered(s1.cache) && Enabled(b, s1, Fetch(call, r, newJob))
            && Step(b, s1, Fetch(call, r, newJob)).calls[call] == Call(r, Waiting(newJob))
            && Step(b, s1, Fetch(call, r, newJob)).jobs[newJob] == Job(r, Running)
  {
  }

  // ---------- every call is answered ----------

  /** Something a fetch is waiting for happens. */
  predicate Completes(a: Action) {
    a.Arrive? || a.Fail? || a.Deliver?
  }

  ghost function RunningJobs(s: System): set<JobId> {
    set job | job in s.jobs && s.jobs[job].progress.Running?
  }

  ghost function WaitingCalls(s: System): set<CallId> {
    set call | call in s.calls && s.calls[call].answer.Waiting?
  }

  ghost function Measure(s: System): nat {
    |RunningJobs(s)| + |WaitingCalls(s)|
  }

  lemma {:induction false} FetchRunning(b: Backend, s: System, call: CallId, r: Request, newJob: JobId)
    requires ValidBackend(b) && IndexCovered(s.cache) && Enabled(b, s, Fetch(call, r, newJob))
    ensures |RunningJobs(Step(b, s, Fetch(call, r, newJob)))| <= |RunningJobs(s)| + 1
  {
    var s' := Step(b, s, Fetch(call, r, newJob));
    if IsCached(s.cache, r) || r in s.cache.jobs {
      assert s'.jobs == s.jobs;
      assert RunningJobs(s') == RunningJobs(s);
    } else {
      assert RunningJobs(s') == RunningJobs(s) + {newJob};
    }
  }

  lemma {:induction false} FetchWaiting(b: Backend, s: System, call: CallId, r: Request, newJob: JobId)
    requires ValidBackend(b) && IndexCovered(s.cache) && Enabled(b, s, Fetch(call, r, newJob))
    ensures |WaitingCalls(Step(b, s, Fetch(call, r, newJob)))| <= |WaitingCalls(s)| + 1
  {
    var s' := Step(b, s, Fetch(call, r, newJob));
    if s'.calls[call].answer.Waiting? {
      assert WaitingCalls(s') == WaitingCalls(s) + {call};
    } else {
      assert WaitingCalls(s') == WaitingCalls(s);
    }
  }

  lemma CompletionMeasure(b: Backend, s: System, a: Action)
    requires ValidBackend(b) && IndexCovered(s.cache) && Enabled(b, s, a) && Completes(a)
    ensures Measure(Step(b, s, a)) < Measure(s)
  {
    var s' := Step(b, s, a);
    if a.Deliver? {
      assert WaitingCalls(s') == WaitingCalls(s) - {a.call} && a.call in WaitingCalls(s);
      assert RunningJobs(s') == RunningJobs(s);
    } else {
      assert RunningJobs(s') == RunningJobs(s) - {a.job} && a.job in RunningJobs(s);
      assert WaitingCalls(s') == WaitingCalls(s);
    }
  }

  lemma StepMeasure(b: Backend, s: System, a: Action)
    requires ValidBackend(b) && IndexCovered(s.cache) && Enabled(b, s, a)
    ensures Measure(Step(b, s, a)) + (if Completes(a) then 1 else 0) <= Measure(s) + if a.Fetch? then 2 else 0
  {
    if a.Fetch? {
      FetchRunning(b, s, a.call, a.request, a.newJob);
      FetchWaiting(b, s, a.call, a.request, a.newJob);
    } else if Completes(a) {
      CompletionMeasure(b, s, a);
    } else {
      assert RunningJobs(Step(b, s, a)) == RunningJobs(s) && WaitingCalls(Step(b, s, a)) == WaitingCalls(s);
    }
  }

  function Fetches(run: seq<Action>): nat {
    if run == [] then 0 else (if run[0].Fetch? then 1 else 0) + Fetches(run[1..])
  }

  function Completions(run: seq<Action>): nat {
    if run == [] then 0 else (if Completes(run[0]) then 1 else 0) + Completions(run[1..])
  }

  /** Each fetch leads to at most two completions, however much is cleared or stored meanwhile. */
  lemma {:induction false} CompletionsBounded(b: Backend, s: System, run: seq<Action>, s': System)
    requires ValidBackend(b) && Inv(b, s) && Reaches(b, s, run, s')
    ensures Completions(run) + Measure(s') <= Measure(s) + 2 * Fetches(run)
    decreases |run|
  {
    if run != [] {
      StepMeasure(b, s, run[0]);
      StepInv(b, s, run[0]);
      CompletionsBounded(b, Step(b, s, run[0]), run[1..], s');
    }
  }

  lemma {:induction false} NextCompletion(b: Backend, s: System, call: CallId) returns (a: Action)
    requires ValidBackend(b) && Inv(b, s) && call in s.calls && s.calls[call].answer.Waiting?
    ensures Enabled(b, s, a) && Completes(a)
  {
    var job := s.calls[call].answer.job;
    assert CallHonest(b, s, s.calls[call]);
    a := if s.jobs[job].progress.Done? then Deliver(call) else Fail(job);
  }

  /** What a finished call was told: the backend's rows, or that the job it waited for failed. */
  ghost predicate Answered(b: Backend, s: System, call: Call)
    requires ValidBackend(b)
  {
    match call.answer
    case Waiting(_) => false
    case Returned(rows) => Has(b, call.request) && rows == Direct(b, call.request)
    case Failed(job) => job in s.jobs && s.jobs[job] == Job(call.request, Done(None))
  }

  /**
   Once no completion is left to happen, every call has been answered, whatever jobs it
   shared, what was cleared and what failed. By the bound above that point is reached
   after finitely many completions.
   */
  lemma {:induction false} RestMeansAnswered(b: Backend, s: System, run: seq<Action>, s': System)
    requires ValidBackend(b) && Inv(b, s) && Reaches(b, s, run, s')
    requires forall a :: Enabled(b, s', a) ==> !Completes(a)
    ensures forall call :: call in s'.calls ==> Answered(b, s', s'.calls[call])
  {
    RunInv(b, s, run, s');
    forall call | call in s'.calls ensures Answered(b, s', s'.calls[call]) {
      assert CallHonest(b, s', s'.calls[call]);
      if s'.calls[call].answer.Waiting? {
        var a := NextCompletion(b, s', call);
        assert false;
      }
    }
  }

  /**
   From the empty cache, over every run: each call is still waiting or has been answered by
   the backend's rows or a failed job, no request is fetched by two jobs at once, and no
   listed account is missing.
   */
  lemma {:induction false} ReachableAnswers(b: Backend, run: seq<Action>, s: System)
    requires ValidBackend(b) && Reaches(b, System(EMPTY, map[], map[]), run, s)
    ensures forall call :: call in s.calls ==> s.calls[call].answer.Waiting? || Answered(b, s, s.calls[call])
    ensures forall i, j :: i in RunningJobs(s) && j in RunningJobs(s) && s.jobs[i].request == s.jobs[j].request ==> i == j
    ensures IndexCovered(s.cache)
  {
    StartInv(b);
    RunInv(b, System(EMPTY, map[], map[]), run, s);
    forall call | call in s.calls ensures s.calls[call].answer.Waiting? || Answered(b, s, s.calls[call]) {
      assert CallHonest(b, s, s.calls[call]);
    }
    forall i, j | i in RunningJobs(s) && j in RunningJobs(s) && s.jobs[i].request == s.jobs[j].request ensures i == j {
      OneJobPerRequest(b, s, i, j);
    }
  }
}
