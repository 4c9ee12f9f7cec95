/** The perp market's circular event queue, as it is kept on chain. */
module EventQueue {

  import opened Common

  datatype EventType = Fill | Out | Liquidate

  /** `body` stands for the bytes of the event beyond its type and sequence number. */
  datatype Event = Event(eventType: EventType, seqNum: nat, body: nat)

  /** A copy of the account's 488 slots and header; `seqNum` counts all events ever pushed. */
  datatype Version = Version(seqNum: nat, head: nat, events: seq<Event>)

  type Snapshot = v: Version | |v.events| == 488 && v.head < 488
    witness Version(0, 0, seq(488, _ => Event(Fill, 0, 0)))

  /** The queue has 488 slots; number `s` lives in slot `s` modulo 488. */
  function Slot(s: nat): (r: nat)
    ensures r < 488
  {
    s % 488
  }

  /** The oldest sequence number whose slot has not been overwritten. */
  function Oldest(seqNum: nat): nat {
    if seqNum < 488 then 0 else seqNum - 488
  }

  /** Every slot in the window holds the event whose number is the slot's position. */
  ghost predicate Stamped(q: Snapshot) {
    forall s: nat :: Oldest(q.seqNum) <= s < q.seqNum ==> q.events[Slot(s)].seqNum == s
  }

  /** The `count` events from `head` on, oldest first. */
  function Live(events: seq<Event>, head: nat, count: nat): (r: seq<Event>)
    requires |events| == 488
    ensures |r| == count && forall i :: 0 <= i < count ==> r[i] == events[Slot(head + i)]
  {
    seq(count, i requires 0 <= i => events[Slot(head + i)])
  }

  class Queue {
    const buf: array<Event>
    var head: nat
    var count: nat
    var seqNum: nat

    /** The next free slot is the one the next sequence number maps to. */
    ghost predicate Valid()
      reads this, buf
    {
      && buf.Length == 488
      && head < 488
      && count <= 488
      && count <= seqNum
      && Slot(head + count) == Slot(seqNum)
    }

    /** Every event in the window carries its number. */
    ghost predicate AllStamped()
      requires Valid()
      reads this, buf
    {
      Stamped(Version(seqNum, head, buf[..]))
    }

    /** Pushed and not yet popped events, oldest first. */
    ghost function Contents(): (r: seq<Event>)
      requires Valid()
      reads this, buf
    {
      Live(buf[..], head, count)
    }

    constructor (zero: Event)
      ensures Valid() && AllStamped() && seqNum == 0 && head == 0 && Contents() == [] && fresh(buf)
    {
      buf := new Event[488](_ => zero);
      head, count, seqNum := 0, 0, 0;
    }

    /** The book stamps each event with the queue's sequence number before pushing it. */
    method PushBack(value: Event) returns (ok: bool)
      requires Valid()
      modifies this, buf
      ensures Valid() && head == old(head)
      ensures old(AllStamped()) && value.seqNum == old(seqNum) ==> AllStamped()
      ensures ok <==> old(count) < 488
      ensures ok ==> Contents() == old(Contents()) + [value] && seqNum == old(seqNum) + 1
      ensures !ok ==> Contents() == old(Contents()) && seqNum == old(seqNum)
    {
      if count == 488 {
        return false;
      }
      var slot := Slot(head + count);
      ghost var events := buf[..];
      PushLive(events, head, count, value);
      SlotsAdvance(head + count, seqNum);
      if AllStamped() && value.seqNum == seqNum {
        PushStamped(Version(seqNum, head, events), value);
      }
      buf[slot] := value;
      assert buf[..] == events[slot := value];
      count := count + 1;
      seqNum := seqNum + 1;
      return true;
    }

    /** Takes the oldest event; its slot keeps its bytes until it is reused. */
    method PopFront() returns (value: Option<Event>)
      requires Valid()
      modifies this`head, this`count
      ensures Valid() && AllStamped() == old(AllStamped())
      ensures old(count) == 0 ==> value == None && Contents() == old(Contents())
      ensures old(count) > 0 ==> value == Some(old(Contents())[0]) && Contents() == old(Contents())[1..]
    {
      if count == 0 {
        return None;
      }
      value := Some(buf[head]);
      PopLive(buf[..], head, count);
      SlotOfSlot(head + 1, count - 1);
      count := count - 1;
      head := Slot(head + 1);
    }

    /** What an observer of the account sees. */
    method Observe() returns (q: Snapshot)
      requires Valid()
      ensures q == Version(seqNum, head, buf[..]) && Stamped(q) == AllStamped()
    {
      q := Version(seqNum, head, buf[..]);
    }
  }

  lemma SlotSuccessor(n: nat)
    ensures Slot(n + 1) == if Slot(n) == 487 then 0 else Slot(n) + 1
  {
  }

  lemma SlotsAdvance(m: nat, n: nat)
    requires Slot(m) == Slot(n)
    ensures Slot(m + 1) == Slot(n + 1)
  {
    SlotSuccessor(m);
    SlotSuccessor(n);
  }

  lemma SlotOfSlot(n: nat, i: nat)
    ensures Slot(Slot(n) + i) == Slot(n + i)
  {
  }

  lemma PushLive(events: seq<Event>, head: nat, count: nat, value: Event)
    requires |events| == 488 && count < 488
    ensures Live(events[Slot(head + count) := value], head, count + 1) == Live(events, head, count) + [value]
  {
  }

  lemma PopLive(events: seq<Event>, head: nat, count: nat)
    requires |events| == 488 && head < 488 && count > 0
    ensures Live(events, head, count) == [events[head]] + Live(events, Slot(head + 1), count - 1)
  {
  }

  /** Advancing the window by one reuses the slot of the number that leaves it. */
  lemma PushStamped(q: Snapshot, value: Event)
    requires Stamped(q) && value.seqNum == q.seqNum
    ensures Stamped(Version(q.seqNum + 1, q.head, q.events[Slot(q.seqNum) := value]))
  {
  }

  lemma SlotsRetreat(m: nat, n: nat)
    requires Slot(m + 1) == Slot(n + 1)
    ensures Slot(m) == Slot(n)
  {
    SlotSuccessor(m);
    SlotSuccessor(n);
  }

  /** The next number to be popped belongs to the slot at the head. */
  lemma {:induction false} HeadSlot(head: nat, count: nat, seqNum: nat)
    requires head < 488 && count <= seqNum && Slot(head + count) == Slot(seqNum)
    ensures head == Slot(seqNum - count)
  {
    if count > 0 {
      SlotsRetreat(head + count - 1, seqNum - 1);
      HeadSlot(head, count - 1, seqNum - 1);
    }
  }
}
