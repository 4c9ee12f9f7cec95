/**
 The fill feed: differences between two observed versions of a circular event queue,
 published as New and Revoke messages, including versions from abandoned forks.
 */
module FillFeed {
  import opened Common
  import opened EventQueue

  datatype Status = New | Revoke

  datatype Message =
    | Update(event: Event, status: Status)
    | HeadUpdate(head: nat, prevHead: nat, headSeqNum: nat, prevHeadSeqNum: nat)
    | Checkpoint(events: seq<Event>)

  function EventAt(q: Snapshot, s: nat): Event
  {
    q.events[Slot(s)]
  }

  /** The fill with number `s`, if the queue version has one. */
  function FillAt(q: Snapshot, s: nat): Option<Event>
  {
    if s < q.seqNum && EventAt(q, s).eventType.Fill? then Some(EventAt(q, s)) else None
  }

  // ---------- what is published ----------

  function StartSeqNum(prev: Snapshot, q: Snapshot): nat {
    Oldest(if prev.seqNum > q.seqNum then prev.seqNum else q.seqNum)
  }

  function IfFill(e: Event, status: Status): seq<Message> {
    if e.eventType.Fill? then [Update(e, status)] else []
  }

  /** Updates for one number of the new version. */
  function UpdatesAt(prev: Snapshot, q: Snapshot, s: nat): seq<Message>
  {
    if s >= prev.seqNum then IfFill(EventAt(q, s), New)
    else if EventAt(prev, s) != EventAt(q, s) then IfFill(EventAt(prev, s), Revoke) + IfFill(EventAt(q, s), New)
    else []
  }

  function Sent(fill: Option<Event>, status: Status): seq<Message> {
    if fill.Some? then [Update(fill.value, status)] else []
  }

  /** The messages that tell a consumer about a change of one fill. */
  function Change(before: Option<Event>, now: Option<Event>): seq<Message> {
    if before == now then [] else Sent(before, Revoke) + Sent(now, New)
  }

  /** Unchanged fills are not sent again, and a changed one is revoked before it is replaced. */
  lemma UpdatesAtAreChange(prev: Snapshot, q: Snapshot, t: nat)
    requires t < q.seqNum
    ensures UpdatesAt(prev, q, t) == Change(FillAt(prev, t), FillAt(q, t))
    ensures UpdatesAt(prev, q, t) == [] <==> FillAt(prev, t) == FillAt(q, t)
  {
  }

  /** The messages for a range of numbers, in order. */
  function Collect(updates: nat -> seq<Message>, from: nat, end: nat): seq<Message> {
    if from >= end then [] else Collect(updates, from, end - 1) + updates(end - 1)
  }

  function UpdatesBetween(prev: Snapshot, q: Snapshot): nat -> seq<Message> {
    (s: nat) => UpdatesAt(prev, q, s)
  }

  function Diff(prev: Snapshot, q: Snapshot, from: nat, end: nat): seq<Message> {
    Collect(UpdatesBetween(prev, q), from, end)
  }

  /** Revocations for numbers a fork rollback removed. */
  function Drops(prev: Snapshot, from: nat, end: nat): seq<Message>
  {
    if from >= end then [] else Drops(prev, from, end - 1) + IfFill(EventAt(prev, end - 1), Revoke)
  }

  function Updates(prev: Snapshot, q: Snapshot): seq<Message>
  {
    Diff(prev, q, StartSeqNum(prev, q), q.seqNum) + Drops(prev, q.seqNum, prev.seqNum)
  }

  /** The fills numbered from `from` to `end`, in order. */
  function Fills(q: Snapshot, from: nat, end: nat): seq<Event>
  {
    if from >= end then []
    else Fills(q, from, end - 1) + if EventAt(q, end - 1).eventType.Fill? then [EventAt(q, end - 1)] else []
  }

  /** One past the number of the last consumed event. */
  function HeadSeqNum(q: Snapshot): nat
    requires q.head > 0
  {
    var e := q.events[q.head - 1];
    if e.eventType.Fill? || e.eventType.Out? then e.seqNum + 1 else 0
  }

  /**
   What a queue with `count` unconsumed events publishes as the number after the last
   consumed one. It is the next number to be consumed, except that in a full queue the slot
   before the head holds the newest event, and that a liquidation event gives 0.
   */
  lemma HeadSeqNumMeaning(q: Snapshot, count: nat)
    requires Stamped(q) && q.head > 0 && count <= 488 && count <= q.seqNum && Slot(q.head + count) == Slot(q.seqNum)
    ensures !q.events[q.head - 1].eventType.Liquidate? ==>
              HeadSeqNum(q) == if count < 488 then q.seqNum - count else q.seqNum
    ensures q.events[q.head - 1].eventType.Liquidate? ==> HeadSeqNum(q) == 0
  {
    HeadSlot(q.head, count, q.seqNum);
    var last := if count < 488 then q.seqNum - count - 1 else q.seqNum - 1;
    BeforeHead(q.seqNum - count);
    assert q.events[Slot(last)].seqNum == last;
  }

  lemma BeforeHead(n: nat)
    requires Slot(n) > 0
    ensures n > 0 && Slot(n - 1) == Slot(n) - 1 && Slot(n + 487) == Slot(n) - 1
  {
  }

  /** All messages of a step: updates, the head if it moved, and a checkpoint. */
  function Changes(prev: Snapshot, q: Snapshot): seq<Message>
    requires prev.head > 0 && q.head > 0
  {
    Updates(prev, q)
    + (if q.head == prev.head then [] else [HeadUpdate(q.head, prev.head, HeadSeqNum(q), HeadSeqNum(prev))])
    + [Checkpoint(Fills(q, StartSeqNum(prev, q), q.seqNum))]
  }

  /**
   Publishes the changes from `prev` to `q`. The updates are sent first; looking up the
   last consumed event indexes slot `head - 1` of both versions, so the publisher
   crashes when either head is 0 and then sends nothing more.
   */
  method PublishChanges(q: Snapshot, prev: Snapshot) returns (msgs: seq<Message>, crashed: bool)
    ensures crashed <==> q.head == 0 || prev.head == 0
    ensures crashed ==> msgs == Updates(prev, q)
    ensures !crashed ==> msgs == Changes(prev, q)
  {
    var diffs, checkpoint := PublishDiff(q, prev);
    var drops := PublishDrops(q, prev);
    msgs := diffs + drops;

    if q.head == 0 || prev.head == 0 {
      return msgs, true;
    }
    if q.head != prev.head {
      msgs := msgs + [HeadUpdate(q.head, prev.head, HeadSeqNum(q), HeadSeqNum(prev))];
    }
    msgs := msgs + [Checkpoint(checkpoint)];
    crashed := false;
  }

  /** New and changed fills of the new version, and all its fills for the checkpoint. */
  method PublishDiff(q: Snapshot, prev: Snapshot) returns (msgs: seq<Message>, checkpoint: seq<Event>)
    ensures msgs == Diff(prev, q, StartSeqNum(prev, q), q.seqNum)
    ensures checkpoint == Fills(q, StartSeqNum(prev, q), q.seqNum)
  {
    msgs, checkpoint := [], [];
    var start := StartSeqNum(prev, q);
    if start >= q.seqNum {
      return;
    }
    for s := start to q.seqNum
      invariant msgs == Diff(prev, q, start, s) && checkpoint == Fills(q, start, s)
    {
      var updates, fills := PublishSlot(q, prev, s);
      CollectNext(UpdatesBetween(prev, q), start, s);
      msgs, checkpoint := msgs + updates, checkpoint + fills;
    }
  }

  lemma {:induction false} CollectNext(updates: nat -> seq<Message>, start: nat, s: nat)
    requires start <= s
    ensures Collect(updates, start, s + 1) == Collect(updates, start, s) + updates(s)
  {
  }

  /** One number of the new version: its updates, and its fill for the checkpoint. */
  method PublishSlot(q: Snapshot, prev: Snapshot, s: nat) returns (updates: seq<Message>, fills: seq<Event>)
    ensures updates == UpdatesAt(prev, q, s)
    ensures s < q.seqNum ==> updates == Change(FillAt(prev, s), FillAt(q, s))
    ensures fills == if EventAt(q, s).eventType.Fill? then [EventAt(q, s)] else []
  {
    updates, fills := [], [];
    var idx := Slot(s);
    if s >= prev.seqNum {
      if q.events[idx].eventType.Fill? {
        updates := [Update(q.events[idx], New)];
        fills := [q.events[idx]];
      }
    } else if prev.events[idx] != q.events[idx] {
      if prev.events[idx].eventType.Fill? {
        updates := [Update(prev.events[idx], Revoke)];
      }
      if q.events[idx].eventType.Fill? {
        updates := updates + [Update(q.events[idx], New)];
        fills := [q.events[idx]];
      }
    } else {
      if q.events[idx].eventType.Fill? {
        fills := [q.events[idx]];
      }
    }
    if s < q.seqNum {
      UpdatesAtAreChange(prev, q, s);
    }
  }

  /** Revocations of the old version's fills that a shorter new version dropped. */
  method PublishDrops(q: Snapshot, prev: Snapshot) returns (msgs: seq<Message>)
    ensures msgs == Drops(prev, q.seqNum, prev.seqNum)
  {
    msgs := [];
    if q.seqNum >= prev.seqNum {
      return;
    }
    for s := q.seqNum to prev.seqNum
      invariant msgs == Drops(prev, q.seqNum, s)
    {
      if prev.events[Slot(s)].eventType.Fill? {
        msgs := msgs + [Update(prev.events[Slot(s)], Revoke)];
      }
    }
  }

  // ---------- a consumer ----------

  /** A table keyed by sequence number: New inserts unless present, Revoke deletes. */
  type Table = map<nat, Event>

  function Consume(m: Table, msg: Message): Table {
    match msg
    case Update(e, New) => if e.seqNum in m then m else m[e.seqNum := e]
    case Update(e, Revoke) => m - {e.seqNum}
    case _ => m
  }

  function Replay(m: Table, msgs: seq<Message>): Table {
    if msgs == [] then m else Consume(Replay(m, msgs[..|msgs| - 1]), msgs[|msgs| - 1])
  }

  function Lookup(m: Table, s: nat): Option<Event> {
    if s in m then Some(m[s]) else None
  }

  lemma {:induction false} ReplayAppend(m: Table, a: seq<Message>, b: seq<Message>)
    ensures Replay(m, a + b) == Replay(Replay(m, a), b)
  {
    if b == [] {
      assert a + b == a;
    } else {
      var n := |b| - 1;
      assert (a + b)[..|a + b| - 1] == a + b[..n];
      ReplayAppend(m, a, b[..n]);
    }
  }

  lemma ReplayIfFill(m: Table, e: Event, status: Status)
    ensures Replay(m, IfFill(e, status)) == if e.eventType.Fill? then Consume(m, Update(e, status)) else m
  {
  }

  /** The table agrees with a queue version on all numbers from `from` on. */
  ghost predicate Agree(m: Table, q: Snapshot, from: nat)
  {
    forall s: nat :: s >= from ==> Lookup(m, s) == FillAt(q, s)
  }

  /** Updates for number `t` bring key `t` from the old to the new fill. */
  lemma UpdatesAtEffect(m: Table, prev: Snapshot, q: Snapshot, t: nat)
    requires Stamped(prev) && Stamped(q)
    requires Oldest(prev.seqNum) <= t && Oldest(q.seqNum) <= t < q.seqNum
    requires Lookup(m, t) == FillAt(prev, t)
    ensures Lookup(Replay(m, UpdatesAt(prev, q, t)), t) == FillAt(q, t)
  {
  }

  lemma {:induction false} ReplayUntouched(m: Table, msgs: seq<Message>, s: nat)
    requires forall i :: 0 <= i < |msgs| && msgs[i].Update? ==> msgs[i].event.seqNum != s
    ensures Lookup(Replay(m, msgs), s) == Lookup(m, s)
  {
    if msgs != [] {
      ReplayUntouched(m, msgs[..|msgs| - 1], s);
    }
  }

  /** All messages are updates with numbers from `lo` up to `hi`. */
  ghost predicate Numbered(msgs: seq<Message>, lo: nat, hi: nat) {
    forall i :: 0 <= i < |msgs| ==> msgs[i].Update? && lo <= msgs[i].event.seqNum < hi
  }

  lemma NumberedAppend(a: seq<Message>, b: seq<Message>, lo: nat, mid: nat, hi: nat)
    requires Numbered(a, lo, mid) && Numbered(b, mid, hi) && lo <= mid <= hi
    ensures Numbered(a + b, lo, hi)
  {
  }

  lemma UpdatesAtNumbers(prev: Snapshot, q: Snapshot, t: nat)
    requires Stamped(prev) && Stamped(q)
    requires Oldest(prev.seqNum) <= t && Oldest(q.seqNum) <= t < q.seqNum
    ensures Numbered(UpdatesAt(prev, q, t), t, t + 1)
  {
  }

  lemma {:induction false} CollectNumbers(updates: nat -> seq<Message>, start: nat, end: nat)
    requires forall t :: start <= t < end ==> Numbered(updates(t), t, t + 1)
    ensures Numbered(Collect(updates, start, end), start, end)
    decreases end
  {
    if start < end {
      CollectNumbers(updates, start, end - 1);
      NumberedAppend(Collect(updates, start, end - 1), updates(end - 1), start, end - 1, end);
    }
  }

  lemma {:induction false} DiffNumbers(prev: Snapshot, q: Snapshot, start: nat, end: nat)
    requires Stamped(prev) && Stamped(q) && end <= q.seqNum
    requires Oldest(prev.seqNum) <= start && Oldest(q.seqNum) <= start
    ensures Numbered(Diff(prev, q, start, end), start, end)
  {
    var updates := UpdatesBetween(prev, q);
    forall t | start <= t < end ensures Numbered(updates(t), t, t + 1) {
      UpdatesAtNumbers(prev, q, t);
    }
    CollectNumbers(updates, start, end);
  }

  lemma {:induction false} Regroup<T>(a: seq<T>, b: seq<T>, c: seq<T>)
    ensures (a + b) + c == a + (b + c)
  {
  }

  lemma {:induction false} CollectSplit(updates: nat -> seq<Message>, start: nat, s: nat, end: nat)
    requires start <= s < end
    ensures Collect(updates, start, end) == Collect(updates, start, s) + updates(s) + Collect(updates, s + 1, end)
    decreases end
  {
    if s < end - 1 {
      CollectSplit(updates, start, s, end - 1);
      Regroup(Collect(updates, start, s) + updates(s), Collect(updates, s + 1, end - 1), updates(end - 1));
    } else {
      assert Collect(updates, s + 1, end) == [];
    }
  }

  lemma {:induction false} DiffSplit(prev: Snapshot, q: Snapshot, start: nat, s: nat, end: nat)
    requires start <= s < end
    ensures Diff(prev, q, start, end) == Diff(prev, q, start, s) + UpdatesAt(prev, q, s) + Diff(prev, q, s + 1, end)
  {
    CollectSplit(UpdatesBetween(prev, q), start, s, end);
  }

  lemma DiffElsewhere(m: Table, prev: Snapshot, q: Snapshot, start: nat, end: nat, s: nat)
    requires Stamped(prev) && Stamped(q) && end <= q.seqNum
    requires Oldest(prev.seqNum) <= start && Oldest(q.seqNum) <= start
    requires s < start || s >= end
    ensures Lookup(Replay(m, Diff(prev, q, start, end)), s) == Lookup(m, s)
  {
    DiffNumbers(prev, q, start, end);
    ReplayUntouched(m, Diff(prev, q, start, end), s);
  }

  lemma DiffWithin(m: Table, prev: Snapshot, q: Snapshot, start: nat, end: nat, s: nat)
    requires Stamped(prev) && Stamped(q) && end <= q.seqNum
    requires Oldest(prev.seqNum) <= start && Oldest(q.seqNum) <= start
    requires start <= s < end && Lookup(m, s) == FillAt(prev, s)
    ensures Lookup(Replay(m, Diff(prev, q, start, end)), s) == FillAt(q, s)
  {
    var before, here, after := Diff(prev, q, start, s), UpdatesAt(prev, q, s), Diff(prev, q, s + 1, end);
    DiffSplit(prev, q, start, s, end);
    ReplayAppend(m, before + here, after);
    ReplayAppend(m, before, here);
    DiffElsewhere(m, prev, q, start, s, s);
    UpdatesAtEffect(Replay(m, before), prev, q, s);
    DiffElsewhere(Replay(m, before + here), prev, q, s + 1, end, s);
  }

  /** The number in the window that shares a slot with `t`. */
  function InWindow(n: nat, t: nat): (u: nat)
    requires t < n
    ensures t <= u < n && Oldest(n) <= u && Slot(u) == Slot(t)
    ensures Oldest(n) <= t ==> u == t
    decreases n - t
  {
    if t < Oldest(n) then InWindow(n, t + 488) else t
  }

  /** One revocation: the slot may by now belong to a later number, never to an earlier one. */
  lemma {:induction false} DropOne(m: Table, prev: Snapshot, t: nat, s: nat)
    requires Stamped(prev) && t < prev.seqNum
    ensures var m' := Replay(m, IfFill(EventAt(prev, t), Revoke));
            && (s < t || s >= prev.seqNum ==> Lookup(m', s) == Lookup(m, s))
            && (s == t && Oldest(prev.seqNum) <= t && FillAt(prev, t).Some? ==> Lookup(m', s) == None)
            && (Lookup(m', s) == Lookup(m, s) || Lookup(m', s) == None)
  {
    var e := EventAt(prev, t);
    ReplayIfFill(m, e, Revoke);
    assert e.seqNum == InWindow(prev.seqNum, t) by {
      assert EventAt(prev, InWindow(prev.seqNum, t)) == e;
    }
  }

  /** Drops delete old fills numbered at or above the rolled-back number, and nothing else. */
  lemma {:induction false} DropsEffect(m: Table, prev: Snapshot, from: nat, end: nat, s: nat)
    requires Stamped(prev) && end <= prev.seqNum
    ensures var m' := Replay(m, Drops(prev, from, end));
            && (s < from || s >= prev.seqNum ==> Lookup(m', s) == Lookup(m, s))
            && (from <= s < end && Oldest(prev.seqNum) <= s && Lookup(m, s) == FillAt(prev, s) ==> Lookup(m', s) == None)
            && (Lookup(m', s) == Lookup(m, s) || Lookup(m', s) == None)
    decreases end
  {
    if from < end {
      DropsEffect(m, prev, from, end - 1, s);
      ReplayAppend(m, Drops(prev, from, end - 1), IfFill(EventAt(prev, end - 1), Revoke));
      DropOne(Replay(m, Drops(prev, from, end - 1)), prev, end - 1, s);
    }
  }

  /**
   One step of the feed. A table that agrees with the old version on the window of the
   highest number seen agrees with the new version after the published updates.
   */
  lemma StepAgrees(m: Table, prev: Snapshot, q: Snapshot, highest: nat)
    requires Stamped(prev) && Stamped(q) && prev.seqNum <= highest
    requires Agree(m, prev, Oldest(highest))
    ensures Agree(Replay(m, Updates(prev, q)), q, Oldest(if q.seqNum > highest then q.seqNum else highest))
  {
    var diff := Diff(prev, q, StartSeqNum(prev, q), q.seqNum);
    var drops := Drops(prev, q.seqNum, prev.seqNum);
    var mid := Replay(m, diff);
    ReplayAppend(m, diff, drops);
    forall s: nat | s >= Oldest(if q.seqNum > highest then q.seqNum else highest)
      ensures Lookup(Replay(mid, drops), s) == FillAt(q, s)
    {
      if s < q.seqNum {
        DiffWithin(m, prev, q, StartSeqNum(prev, q), q.seqNum, s);
      } else {
        DiffElsewhere(m, prev, q, StartSeqNum(prev, q), q.seqNum, s);
      }
      DropsEffect(mid, prev, q.seqNum, prev.seqNum, s);
    }
  }

  // ---------- whole runs ----------

  function Highest(qs: seq<Snapshot>): nat {
    if qs == [] then 0
    else
      var h := Highest(qs[..|qs| - 1]);
      if qs[|qs| - 1].seqNum > h then qs[|qs| - 1].seqNum else h
  }

  /** The table after observing `qs` in order, starting from `m` at the first version. */
  function AfterVersions(m: Table, qs: seq<Snapshot>): Table
    requires qs != []
  {
    var n := |qs| - 1;
    if n == 0 then m else Replay(AfterVersions(m, qs[..n]), Updates(qs[n - 1], qs[n]))
  }

  /**
   Replay over whole runs, growing and shrinking versions alike: a table that starts
   with the first version's fills and applies every update in order has, for every
   number in the window of the highest number ever seen, exactly the current version's
   fill or nothing.
   */
  lemma {:induction false} ReplayRun(m: Table, qs: seq<Snapshot>)
    requires qs != [] && forall i :: 0 <= i < |qs| ==> Stamped(qs[i])
    requires Agree(m, qs[0], Oldest(qs[0].seqNum))
    ensures qs[|qs| - 1].seqNum <= Highest(qs)
    ensures Agree(AfterVersions(m, qs), qs[|qs| - 1], Oldest(Highest(qs)))
    decreases |qs|
  {
    var n := |qs| - 1;
    var past := qs[..n];
    if n == 0 {
      assert Highest(past) == 0;
    } else {
      assert past[n - 1] == qs[n - 1];
      ReplayRun(m, past);
      StepAgrees(AfterVersions(m, past), qs[n - 1], qs[n], Highest(past));
    }
  }

  /** A checkpoint lists exactly the current fills of the compared window, in order. */
  lemma {:induction false} CheckpointIsCurrent(q: Snapshot, from: nat, end: nat)
    requires Stamped(q) && Oldest(q.seqNum) <= from && end <= q.seqNum
    ensures forall i, j :: 0 <= i < j < |Fills(q, from, end)| ==>
              Fills(q, from, end)[i].seqNum < Fills(q, from, end)[j].seqNum
    ensures forall e :: e in Fills(q, from, end) <==> from <= e.seqNum < end && FillAt(q, e.seqNum) == Some(e)
  {
    if from < end {
      CheckpointIsCurrent(q, from, end - 1);
    }
  }

  /** Where the table is guaranteed, the checkpoint of a step lists the same fills. */
  lemma CheckpointMatchesTable(m: Table, prev: Snapshot, q: Snapshot, highest: nat, e: Event)
    requires Stamped(q) && prev.seqNum <= highest && q.seqNum <= highest
    requires Agree(m, q, Oldest(highest)) && Oldest(highest) <= e.seqNum
    ensures e in Fills(q, StartSeqNum(prev, q), q.seqNum) <==> Lookup(m, e.seqNum) == Some(e)
  {
    CheckpointIsCurrent(q, StartSeqNum(prev, q), q.seqNum);
  }
}
