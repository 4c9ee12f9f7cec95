/**
 The caching account fetcher: what is cached, which requests are being fetched, and the
 critical sections in which fetches, finished jobs and clearing change that.
 */
module AccountCache {

  import opened Common

  type Key = nat
  type Program = nat
  type Data = nat
  type JobId = nat

  datatype Request = Account(key: Key) | Accounts(program: Program)

  /** Accounts with their data, in the order the backend lists them. */
  type Rows = seq<(Key, Data)>

  /** Single accounts, the keys listed for a program, and the job fetching each request. */
  datatype Cache = Cache(accounts: map<Key, Data>, index: map<Program, seq<Key>>, jobs: map<Request, JobId>)

  const EMPTY := Cache(map[], map[], map[])

  ghost predicate Covered(keys: seq<Key>, accounts: map<Key, Data>) {
    forall i :: 0 <= i < |keys| ==> keys[i] in accounts
  }

  /** Every key listed for a program has its data. */
  ghost predicate IndexCovered(c: Cache) {
    forall p :: p in c.index ==> Covered(c.index[p], c.accounts)
  }

  function RowsOf(keys: seq<Key>, accounts: map<Key, Data>): (r: Rows)
    requires Covered(keys, accounts)
    ensures |r| == |keys| && forall i :: 0 <= i < |r| ==> r[i] == (keys[i], accounts[keys[i]])
  {
    seq(|keys|, i requires 0 <= i < |keys| => (keys[i], accounts[keys[i]]))
  }

  function KeysOf(rows: Rows): (r: seq<Key>)
    ensures |r| == |rows| && forall i :: 0 <= i < |r| ==> r[i] == rows[i].0
  {
    seq(|rows|, i requires 0 <= i < |rows| => rows[i].0)
  }

  predicate IsCached(c: Cache, r: Request) {
    match r
    case Account(k) => k in c.accounts
    case Accounts(p) => p in c.index
  }

  function CachedRows(c: Cache, r: Request): Rows
    requires IndexCovered(c) && IsCached(c, r)
  {
    match r
    case Account(k) => [(k, c.accounts[k])]
    case Accounts(p) => RowsOf(c.index[p], c.accounts)
  }

  /** A job is registered unless one is in flight already. */
  function Started(c: Cache, r: Request, newJob: JobId): Cache {
    if r in c.jobs then c else c.(jobs := c.jobs[r := newJob])
  }

  function Stored(accounts: map<Key, Data>, rows: Rows): map<Key, Data> {
    if rows == [] then accounts else Stored(accounts, rows[..|rows| - 1])[rows[|rows| - 1].0 := rows[|rows| - 1].1]
  }

  /** The job is taken off the list, and a success is kept. */
  function Finished(c: Cache, r: Request, result: Option<Rows>): Cache {
    var done := c.(jobs := c.jobs - {r});
    match result
    case None => done
    case Some(rows) =>
      var stored := done.(accounts := Stored(c.accounts, rows));
      if r.Accounts? then stored.(index := c.index[r.program := KeysOf(rows)]) else stored
  }

  /** Jobs in flight are not affected. */
  function Cleared(c: Cache): Cache {
    c.(accounts := map[], index := map[])
  }

  lemma {:induction false} StoredKeys(accounts: map<Key, Data>, rows: Rows)
    ensures forall k :: k in accounts ==> k in Stored(accounts, rows)
    ensures Covered(KeysOf(rows), Stored(accounts, rows))
  {
    if rows != [] {
      var n := |rows| - 1;
      StoredKeys(accounts, rows[..n]);
      assert forall i :: 0 <= i < n ==> KeysOf(rows)[i] == KeysOf(rows[..n])[i];
    }
  }

  /** Looking up a program's keys never misses, whatever has been fetched or cleared. */
  lemma FinishedCovered(c: Cache, r: Request, result: Option<Rows>)
    requires IndexCovered(c)
    ensures IndexCovered(Finished(c, r, result))
  {
    if result.Some? {
      StoredKeys(c.accounts, result.value);
      var c' := Finished(c, r, result);
      forall p | p in c'.index ensures Covered(c'.index[p], c'.accounts) {
        if p in c.index && c'.index[p] == c.index[p] {
          assert Covered(c.index[p], c.accounts);
        }
      }
    }
  }

  /** What a fetch finds: the answer, or the job to wait for. */
  datatype Found = Hit(rows: Rows) | Await(job: JobId)

  class CachedFetcher {
    var accounts: map<Key, Data>
    var index: map<Program, seq<Key>>
    var jobs: map<Request, JobId>

    function Contents(): Cache
      reads this
    {
      Cache(accounts, index, jobs)
    }

    ghost predicate Valid()
      reads this
    {
      IndexCovered(Contents())
    }

    constructor ()
      ensures Valid() && Contents() == EMPTY
    {
      accounts, index, jobs := map[], map[], map[];
    }

    /** Answers from the cache, joins the job in flight, or starts one. */
    method Fetch(r: Request, newJob: JobId) returns (found: Found)
      requires Valid()
      modifies this`jobs
      ensures Valid()
      ensures IsCached(old(Contents()), r) ==>
                Contents() == old(Contents()) && found == Hit(CachedRows(old(Contents()), r))
      ensures !IsCached(old(Contents()), r) ==>
                Contents() == Started(old(Contents()), r, newJob) && found == Await(Contents().jobs[r])
    {
      match r {
        case Account(k) =>
          if k in accounts {
            return Hit([(k, accounts[k])]);
          }
        case Accounts(p) =>
          if p in index {
            return Hit(RowsOf(index[p], accounts));
          }
      }
      if r !in jobs {
        jobs := jobs[r := newJob];
      }
      return Await(jobs[r]);
    }

    method Finish(r: Request, result: Option<Rows>)
      requires Valid()
      modifies this
      ensures Valid() && Contents() == Finished(old(Contents()), r, result)
    {
      FinishedCovered(Contents(), r, result);
      jobs := jobs - {r};
      if result.Some? {
        var rows := result.value;
        if r.Accounts? {
          index := index[r.program := KeysOf(rows)];
        }
        ghost var before := accounts;
        for i := 0 to |rows|
          invariant accounts == Stored(before, rows[..i])
          invariant jobs == old(jobs) - {r}
          invariant index == if r.Accounts? then old(index)[r.program := KeysOf(rows)] else old(index)
        {
          assert rows[..i + 1][..i] == rows[..i];
          accounts := accounts[rows[i].0 := rows[i].1];
        }
        assert rows[..|rows|] == rows;
      }
    }

    method Clear()
      requires Valid()
      modifies this`accounts, this`index
      ensures Valid() && Contents() == Cleared(old(Contents()))
    {
      accounts, index := map[], map[];
    }
  }
}
