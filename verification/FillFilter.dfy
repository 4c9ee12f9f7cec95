/**
 The update loop of the fill feed: a version gate per queue account, the caches of the
 last processed version, and the stream of messages they produce.
 */
module FillFilter {
  import opened EventQueue
  import opened FillFeed

  type Key = nat

  /** Slot and write version of an account update, compared in that order. */
  datatype Stamp = Stamp(slot: nat, writeVersion: nat)

  predicate Newer(v: Stamp, last: Stamp) {
    v.slot > last.slot || (v.slot == last.slot && v.writeVersion > last.writeVersion)
  }

  /** Versions are in one order, the slot first: any two different ones are newer one way only. */
  lemma NewerIsAnOrder(u: Stamp, v: Stamp, w: Stamp)
    ensures !Newer(v, v)
    ensures u != v ==> (Newer(u, v) <==> !Newer(v, u))
    ensures Newer(u, v) && Newer(v, w) ==> Newer(u, w)
    ensures u.slot > v.slot ==> Newer(u, v)
    ensures u.slot == v.slot && u.writeVersion > v.writeVersion ==> Newer(u, v)
  {
  }

  /** A consumer of one queue's messages and the highest number it has heard of. */
  datatype Consumer = Consumer(table: Table, highest: nat)

  /** The consumer agrees with the version on its guaranteed window. */
  ghost predicate UpToDate(c: Consumer, q: Snapshot) {
    Stamped(q) && q.seqNum <= c.highest && Agree(c.table, q, Oldest(c.highest))
  }

  class Filter {
    var lastVersions: map<Key, Stamp>
    // The sequence number, head and slots of the last processed version.
    var cache: map<Key, Snapshot>
    // One consumer per queue; it starts with the first version's fills.
    ghost var consumers: map<Key, Consumer>

    /** Every consumer is up to date with the cached version. */
    ghost predicate Valid()
      reads this
    {
      forall key :: key in cache ==> key in consumers && UpToDate(consumers[key], cache[key])
    }

    constructor ()
      ensures Valid() && cache == map[] && lastVersions == map[]
    {
      lastVersions, cache, consumers := map[], map[], map[];
    }

    function LastVersion(key: Key): Stamp
      reads this
    {
      if key in lastVersions then lastVersions[key] else Stamp(0, 0)
    }

    /**
     Handles one observed version of a queue account. A stale version changes nothing
     and sends nothing. Otherwise the version is cached and, from the second one on, the
     difference is published; the consumer that applies it is up to date again.
     */
    method OnAccount(key: Key, v: Stamp, q: Snapshot) returns (msgs: seq<Message>, crashed: bool)
      requires Valid() && Stamped(q)
      modifies this
      ensures !Newer(v, old(LastVersion(key))) ==> msgs == [] && !crashed && unchanged(this)
      ensures Newer(v, old(LastVersion(key))) ==> lastVersions == old(lastVersions)[key := v]
      ensures Newer(v, old(LastVersion(key))) && !crashed ==> cache == old(cache)[key := q]
      ensures !crashed ==> Valid()
      ensures !crashed && old(key in cache) ==>
                key in consumers && key in old(consumers) && consumers[key].table == Replay(old(consumers)[key].table, msgs)
      ensures crashed <==> && Newer(v, old(LastVersion(key))) && key in old(cache)
                           && (q.head == 0 || old(cache)[key].head == 0)
      ensures crashed ==> msgs == Updates(old(cache)[key], q)
      ensures !crashed && Newer(v, old(LastVersion(key))) && key in old(cache) ==> msgs == Changes(old(cache)[key], q)
      ensures key !in old(cache) ==> msgs == []
    {
      msgs, crashed := [], false;
      var last := LastVersion(key);
      if v == last {
        return;
      }
      if v.slot < last.slot {
        return;
      }
      if v.slot == last.slot && v.writeVersion < last.writeVersion {
        return;
      }
      lastVersions := lastVersions[key := v];
      if key in cache {
        msgs, crashed := PublishChanges(q, cache[key]);
        if crashed {
          return;
        }
        consumers := consumers[key := Heard(consumers[key], cache[key], q, msgs)];
      } else {
        consumers := consumers[key := Consumer(FirstTable(q), q.seqNum)];
      }
      cache := cache[key := q];
    }
  }

  /** A consumer after the messages of one step. */
  ghost function Heard(c: Consumer, prev: Snapshot, q: Snapshot, msgs: seq<Message>): (r: Consumer)
    requires UpToDate(c, prev) && Stamped(q) && Updates(prev, q) <= msgs
    requires forall i :: |Updates(prev, q)| <= i < |msgs| ==> !msgs[i].Update?
    ensures UpToDate(r, q) && r.table == Replay(c.table, msgs)
  {
    OnlyUpdatesMatter(c.table, msgs, Updates(prev, q));
    StepAgrees(c.table, prev, q, c.highest);
    Consumer(Replay(c.table, msgs), if q.seqNum > c.highest then q.seqNum else c.highest)
  }

  /** The fills of a version's window. */
  ghost function FirstTable(q: Snapshot): (m: Table)
    ensures Agree(m, q, Oldest(q.seqNum))
  {
    map s: nat | Oldest(q.seqNum) <= s < q.seqNum && FillAt(q, s).Some? :: FillAt(q, s).value
  }

  /** Head updates and checkpoints do not change the table. */
  lemma {:induction false} OnlyUpdatesMatter(m: Table, msgs: seq<Message>, updates: seq<Message>)
    requires updates <= msgs
    requires forall i :: |updates| <= i < |msgs| ==> !msgs[i].Update?
    ensures Replay(m, msgs) == Replay(m, updates)
    decreases |msgs|
  {
    if |updates| == |msgs| {
      assert updates == msgs;
    } else {
      OnlyUpdatesMatter(m, msgs[..|msgs| - 1], updates);
    }
  }

  /**
   The publisher crashes on the first change of a new queue: observed when created and again
   after its first event, both versions have their head at slot 0.
   */
  method FirstEventOfNewQueue(zero: Event, event: Event) returns (before: Snapshot, after: Snapshot, crashed: bool)
    requires event.seqNum == 0
    ensures Stamped(before) && before.seqNum == 0
    ensures Stamped(after) && after.seqNum == 1 && EventAt(after, 0) == event
    ensures crashed
  {
    var queue := new Queue(zero);
    before := queue.Observe();
    var ok := queue.PushBack(event);
    assert queue.Contents()[0] == event;
    after := queue.Observe();
    var msgs;
    msgs, crashed := PublishChanges(after, before);
  }
}
