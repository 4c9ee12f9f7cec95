/**
 What the fill feed sends for each number, against the fills of the two versions: nothing
 for a fill that did not change, otherwise the old fill is revoked and then the new one sent.
 */
module FillChanges {
  import opened Common
  import opened EventQueue
  import opened FillFeed

  /** The updates about number `s`, in order. */
  function About(msgs: seq<Message>, s: nat): seq<Message> {
    if msgs == [] then []
    else
      var m := msgs[|msgs| - 1];
      About(msgs[..|msgs| - 1], s) + if m.Update? && m.event.seqNum == s then [m] else []
  }

  lemma {:induction false} AboutAppend(a: seq<Message>, b: seq<Message>, s: nat)
    ensures About(a + b, s) == About(a, s) + About(b, s)
  {
    if b == [] {
      assert a + b == a;
    } else {
      var n := |b| - 1;
      assert (a + b)[..|a + b| - 1] == a + b[..n];
      AboutAppend(a, b[..n], s);
    }
  }

  lemma {:induction false} AboutOthers(msgs: seq<Message>, lo: nat, hi: nat, s: nat)
    requires Numbered(msgs, lo, hi) && (s < lo || hi <= s)
    ensures About(msgs, s) == []
  {
    if msgs != [] {
      AboutOthers(msgs[..|msgs| - 1], lo, hi, s);
    }
  }

  lemma {:induction false} AboutItself(msgs: seq<Message>, s: nat)
    requires Numbered(msgs, s, s + 1)
    ensures About(msgs, s) == msgs
  {
    if msgs != [] {
      var n := |msgs| - 1;
      var front := msgs[..n];
      AboutItself(front, s);
      AboutNext(front, msgs[n], s);
      assert msgs == front + [msgs[n]];
    }
  }

  lemma {:induction false} AboutNext(msgs: seq<Message>, m: Message, s: nat)
    ensures About(msgs + [m], s) == About(msgs, s) + if m.Update? && m.event.seqNum == s then [m] else []
  {
    assert (msgs + [m])[..|msgs|] == msgs;
  }

  lemma {:induction false} DiffAboutElsewhere(prev: Snapshot, q: Snapshot, start: nat, end: nat, s: nat)
    requires Stamped(prev) && Stamped(q) && end <= q.seqNum
    requires Oldest(prev.seqNum) <= start && Oldest(q.seqNum) <= start
    requires s < start || end <= s
    ensures About(Diff(prev, q, start, end), s) == []
  {
    DiffNumbers(prev, q, start, end);
    AboutOthers(Diff(prev, q, start, end), start, end, s);
  }

  lemma {:induction false} AboutMiddle(a: seq<Message>, b: seq<Message>, c: seq<Message>, s: nat)
    requires About(a, s) == [] && About(c, s) == []
    ensures About(a + b + c, s) == About(b, s)
  {
    AboutAppend(a + b, c, s);
    AboutAppend(a, b, s);
  }

  /** The difference of two versions has, for each number it covers, just that number's change. */
  lemma {:induction false} DiffAbout(prev: Snapshot, q: Snapshot, start: nat, end: nat, s: nat)
    requires Stamped(prev) && Stamped(q) && end <= q.seqNum
    requires Oldest(prev.seqNum) <= start && Oldest(q.seqNum) <= start
    ensures About(Diff(prev, q, start, end), s)
         == if start <= s < end then Change(FillAt(prev, s), FillAt(q, s)) else []
  {
    if start <= s < end {
      DiffSplit(prev, q, start, s, end);
      DiffAboutElsewhere(prev, q, start, s, s);
      DiffAboutElsewhere(prev, q, s + 1, end, s);
      AboutMiddle(Diff(prev, q, start, s), UpdatesAt(prev, q, s), Diff(prev, q, s + 1, end), s);
      UpdatesAtNumbers(prev, q, s);
      AboutItself(UpdatesAt(prev, q, s), s);
      UpdatesAtAreChange(prev, q, s);
    } else {
      DiffAboutElsewhere(prev, q, start, end, s);
    }
  }

  // ---------- a shorter version ----------

  /** Numbers from `from` up to `end` that share a slot with `s`. */
  function Sharing(from: nat, end: nat, s: nat): nat {
    if from >= end then 0
    else Sharing(from, end - 1, s) + if Slot(end - 1) == Slot(s) then 1 else 0
  }

  function Repeated(msgs: seq<Message>, times: nat): seq<Message> {
    if times == 0 then [] else Repeated(msgs, times - 1) + msgs
  }

  /** The event in the slot of `t` is that of number `s` exactly when the two share the slot. */
  lemma {:induction false} StoredNumber(prev: Snapshot, t: nat, s: nat)
    requires Stamped(prev) && t < prev.seqNum && Oldest(prev.seqNum) <= s < prev.seqNum
    ensures EventAt(prev, t).seqNum == s <==> Slot(t) == Slot(s)
  {
    assert EventAt(prev, InWindow(prev.seqNum, t)) == EventAt(prev, t);
  }

  lemma {:induction false} StoredInWindow(prev: Snapshot, t: nat)
    requires Stamped(prev) && t < prev.seqNum
    ensures t <= EventAt(prev, t).seqNum < prev.seqNum && Oldest(prev.seqNum) <= EventAt(prev, t).seqNum
  {
    assert EventAt(prev, InWindow(prev.seqNum, t)) == EventAt(prev, t);
  }

  /** A visit of the slot of `s` revokes the old fill with that number. */
  lemma {:induction false} DropAbout(prev: Snapshot, t: nat, s: nat)
    requires Stamped(prev) && t < prev.seqNum && Oldest(prev.seqNum) <= s
    ensures About(IfFill(EventAt(prev, t), Revoke), s)
         == if Slot(t) == Slot(s) then Sent(FillAt(prev, s), Revoke) else []
  {
    if s < prev.seqNum {
      StoredNumber(prev, t, s);
    } else {
      StoredInWindow(prev, t);
    }
  }

  lemma {:induction false} DropsAbout(prev: Snapshot, from: nat, end: nat, s: nat)
    requires Stamped(prev) && end <= prev.seqNum && Oldest(prev.seqNum) <= s
    ensures About(Drops(prev, from, end), s) == Repeated(Sent(FillAt(prev, s), Revoke), Sharing(from, end, s))
    decreases end
  {
    if from < end {
      DropsAbout(prev, from, end - 1, s);
      var times := Sharing(from, end - 1, s);
      DropsAboutNext(prev, from, end - 1, s, times);
      SharingNext(from, end - 1, s, times);
    }
  }

  lemma {:induction false} SharingNext(from: nat, t: nat, s: nat, times: nat)
    requires from <= t && times == Sharing(from, t, s)
    ensures Sharing(from, t + 1, s) == if Slot(t) == Slot(s) then times + 1 else times
  {
  }

  lemma {:induction false} DropsAboutNext(prev: Snapshot, from: nat, t: nat, s: nat, times: nat)
    requires Stamped(prev) && from <= t < prev.seqNum && Oldest(prev.seqNum) <= s
    requires About(Drops(prev, from, t), s) == Repeated(Sent(FillAt(prev, s), Revoke), times)
    ensures About(Drops(prev, from, t + 1), s)
         == Repeated(Sent(FillAt(prev, s), Revoke), if Slot(t) == Slot(s) then times + 1 else times)
  {
    DropAbout(prev, t, s);
    AboutAppend(Drops(prev, from, t), IfFill(EventAt(prev, t), Revoke), s);
  }

  lemma {:induction false} DropAboutOld(prev: Snapshot, t: nat, s: nat)
    requires Stamped(prev) && t < prev.seqNum && (s < t || s < Oldest(prev.seqNum))
    ensures About(IfFill(EventAt(prev, t), Revoke), s) == []
  {
    StoredInWindow(prev, t);
  }

  lemma {:induction false} DropsAboutOld(prev: Snapshot, from: nat, end: nat, s: nat)
    requires Stamped(prev) && end <= prev.seqNum && (s < from || s < Oldest(prev.seqNum))
    ensures About(Drops(prev, from, end), s) == []
    decreases end
  {
    if from < end {
      DropsAboutOld(prev, from, end - 1, s);
      AboutAppend(Drops(prev, from, end - 1), IfFill(EventAt(prev, end - 1), Revoke), s);
      DropAboutOld(prev, end - 1, s);
    }
  }

  lemma SlotsApart(t: nat, s: nat)
    requires t < s < t + 488
    ensures Slot(t) != Slot(s)
  {
  }

  lemma SlotAgain(s: nat)
    requires s >= 488
    ensures Slot(s - 488) == Slot(s)
  {
  }

  lemma {:induction false} SharingNone(from: nat, end: nat, s: nat)
    requires forall t :: from <= t < end ==> Slot(t) != Slot(s)
    ensures Sharing(from, end, s) == 0
    decreases end
  {
    if from < end {
      SharingNone(from, end - 1, s);
    }
  }

  lemma {:induction false} SharingSplit(from: nat, mid: nat, end: nat, s: nat)
    requires from <= mid <= end
    ensures Sharing(from, end, s) == Sharing(from, mid, s) + Sharing(mid, end, s)
    decreases end
  {
    if mid < end {
      SharingSplit(from, mid, end - 1, s);
    }
  }

  /** Counted from its own number and for the rest of a window, a slot is visited once. */
  lemma {:induction false} SharingFromItself(end: nat, s: nat)
    requires s < end <= s + 488
    ensures Sharing(s, end, s) == 1
  {
    forall t | s + 1 <= t < end ensures Slot(t) != Slot(s) {
      SlotsApart(s, t);
    }
    SharingNone(s + 1, end, s);
    SharingSplit(s, s + 1, end, s);
    assert Sharing(s, s + 1, s) == Sharing(s, s, s) + 1;
  }

  /** From a window further back it is visited again. */
  lemma {:induction false} SharingOnce(from: nat, end: nat, s: nat)
    requires from <= s < end <= s + 488
    ensures Sharing(from, end, s) >= 1
    ensures Sharing(from, end, s) == 1 <==> s < from + 488
  {
    SharingFromItself(end, s);
    SharingSplit(from, s, end, s);
    if s < from + 488 {
      forall t | from <= t < s ensures Slot(t) != Slot(s) {
        SlotsApart(t, s);
      }
      SharingNone(from, s, s);
    } else {
      SlotAgain(s);
      SharingFromItself(s, s - 488);
      SharingAgrees(s - 488, s, s - 488, s);
      SharingSplit(from, s - 488, s, s);
    }
  }

  lemma {:induction false} SharingAgrees(from: nat, end: nat, s: nat, s': nat)
    requires Slot(s) == Slot(s')
    ensures Sharing(from, end, s) == Sharing(from, end, s')
    decreases end
  {
    if from < end {
      SharingAgrees(from, end - 1, s, s');
    }
  }

  // ---------- all updates of a step ----------

  /**
   What a step sends about number `s`. Inside the compared window and the new version it is
   the change of that fill. A fill above the new version's end is revoked once if the
   version shrank by at most 488, and again for every further time its slot comes round.
   Nothing is sent about numbers below the window.
   */
  lemma {:induction false} UpdatesAbout(prev: Snapshot, q: Snapshot, s: nat)
    requires Stamped(prev) && Stamped(q)
    ensures s < StartSeqNum(prev, q) ==> About(Updates(prev, q), s) == []
    ensures StartSeqNum(prev, q) <= s < q.seqNum ==>
              About(Updates(prev, q), s) == Change(FillAt(prev, s), FillAt(q, s))
    ensures StartSeqNum(prev, q) <= s && q.seqNum <= s ==>
              About(Updates(prev, q), s)
              == Repeated(Change(FillAt(prev, s), FillAt(q, s)), Sharing(q.seqNum, prev.seqNum, s))
  {
    var start := StartSeqNum(prev, q);
    AboutAppend(Diff(prev, q, start, q.seqNum), Drops(prev, q.seqNum, prev.seqNum), s);
    DiffAbout(prev, q, start, q.seqNum, s);
    if s < start || s < q.seqNum {
      DropsAboutOld(prev, q.seqNum, prev.seqNum, s);
    } else {
      DropsAbout(prev, q.seqNum, prev.seqNum, s);
      ChangeToNothing(FillAt(prev, s));
    }
  }

  lemma ChangeToNothing(fill: Option<Event>)
    ensures Change(fill, None) == Sent(fill, Revoke)
  {
  }

  /** A dropped fill is revoked exactly once if and only if its slot was visited once. */
  lemma {:induction false} DroppedRevokedOnce(prev: Snapshot, q: Snapshot, s: nat)
    requires Stamped(prev) && Stamped(q) && q.seqNum <= s && Oldest(prev.seqNum) <= s && FillAt(prev, s).Some?
    ensures Update(FillAt(prev, s).value, Revoke) in About(Updates(prev, q), s)
    ensures About(Updates(prev, q), s) == [Update(FillAt(prev, s).value, Revoke)] <==> s < q.seqNum + 488
  {
    UpdatesAbout(prev, q, s);
    SharingOnce(q.seqNum, prev.seqNum, s);
    RepeatedLength(Update(FillAt(prev, s).value, Revoke), Sharing(q.seqNum, prev.seqNum, s));
  }

  /** It can be revoked twice: a queue seen with 489 events and then rolled back to none. */
  lemma {:induction false} RevokedTwice() returns (prev: Snapshot, q: Snapshot)
    ensures Stamped(prev) && Stamped(q) && FillAt(prev, 488).Some?
    ensures |About(Updates(prev, q), 488)| == 2
  {
    prev := Version(489, 1, seq(488, i requires 0 <= i => Event(Fill, if i == 0 then 488 else i, 0)));
    q := Version(0, 1, seq(488, _ => Event(Fill, 0, 0)));
    UpdatesAbout(prev, q, 488);
    ChangeToNothing(FillAt(prev, 488));
    SharingFromItself(489, 488);
    SharingFromItself(488, 0);
    SharingAgrees(0, 488, 0, 488);
    SharingSplit(0, 488, 489, 488);
    RepeatedLength(Update(FillAt(prev, 488).value, Revoke), 2);
  }

  lemma {:induction false} RepeatedLength(m: Message, times: nat)
    ensures |Repeated([m], times)| == times
    ensures forall i :: 0 <= i < times ==> Repeated([m], times)[i] == m
  {
    if times > 0 {
      RepeatedLength(m, times - 1);
    }
  }

  lemma {:induction false} AboutLast(msgs: seq<Message>)
    requires msgs != [] && msgs[|msgs| - 1].Update?
    ensures About(msgs, msgs[|msgs| - 1].event.seqNum) != []
  {
  }

  lemma {:induction false} AboutEach(msgs: seq<Message>, lo: nat, hi: nat)
    requires Numbered(msgs, lo, hi) && forall s: nat :: lo <= s < hi ==> About(msgs, s) == []
    ensures msgs == []
  {
    if msgs != [] {
      AboutLast(msgs);
    }
  }

  lemma {:induction false} DropsNumbers(prev: Snapshot, from: nat, end: nat)
    requires Stamped(prev) && end <= prev.seqNum
    ensures Numbered(Drops(prev, from, end), Oldest(prev.seqNum), prev.seqNum)
    decreases end
  {
    if from < end {
      DropsNumbers(prev, from, end - 1);
      StoredInWindow(prev, end - 1);
    }
  }

  lemma {:induction false} UpdatesNumbers(prev: Snapshot, q: Snapshot)
    requires Stamped(prev) && Stamped(q)
    ensures Numbered(Updates(prev, q), StartSeqNum(prev, q), if prev.seqNum > q.seqNum then prev.seqNum else q.seqNum)
  {
    DiffNumbers(prev, q, StartSeqNum(prev, q), q.seqNum);
    DropsNumbers(prev, q.seqNum, prev.seqNum);
  }

  /** A step sends no update exactly when both versions have the same fills in the window. */
  lemma {:induction false} SilentIff(prev: Snapshot, q: Snapshot)
    requires Stamped(prev) && Stamped(q)
    ensures Updates(prev, q) == [] <==> forall s: nat :: StartSeqNum(prev, q) <= s ==> FillAt(prev, s) == FillAt(q, s)
  {
    if Updates(prev, q) == [] {
      forall s: nat | StartSeqNum(prev, q) <= s ensures FillAt(prev, s) == FillAt(q, s) {
        UpdatesAbout(prev, q, s);
        if s >= q.seqNum && FillAt(prev, s).Some? {
          DroppedRevokedOnce(prev, q, s);
        }
      }
    } else if forall s: nat :: StartSeqNum(prev, q) <= s ==> FillAt(prev, s) == FillAt(q, s) {
      UpdatesNumbers(prev, q);
      var end := if prev.seqNum > q.seqNum then prev.seqNum else q.seqNum;
      forall s: nat | StartSeqNum(prev, q) <= s < end ensures About(Updates(prev, q), s) == [] {
        UpdatesAbout(prev, q, s);
        RepeatedNothing(Sharing(q.seqNum, prev.seqNum, s));
      }
      AboutEach(Updates(prev, q), StartSeqNum(prev, q), end);
    }
  }

  lemma {:induction false} RepeatedNothing(times: nat)
    ensures Repeated([], times) == []
  {
    if times > 0 {
      RepeatedNothing(times - 1);
    }
  }
}
