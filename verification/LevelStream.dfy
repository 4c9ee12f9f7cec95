/**
 A market's level feed over a whole run: the filter remembers both sides' last orders and
 publishes checkpoints and differences; a subscriber may join between any two messages.
 */
module LevelStream {

  import opened Common
  import opened LevelFeed

  datatype Side = Bid | Ask

  /** The orders last seen on each side. */
  datatype Cache = Cache(bids: Option<seq<Order>>, asks: Option<seq<Order>>)

  datatype Message = Checkpoint(bids: seq<Level>, asks: seq<Level>) | Difference(side: Side, levels: seq<Level>)

  /** A side's orders as read from a new version of its account. */
  datatype Event = Event(side: Side, orders: seq<Order>)

  function Cached(cache: Cache, side: Side): Option<seq<Order>> {
    if side.Bid? then cache.bids else cache.asks
  }

  function Remember(cache: Cache, e: Event): Cache {
    if e.side.Bid? then cache.(bids := Some(e.orders)) else cache.(asks := Some(e.orders))
  }

  /** Both sides' levels, once both sides are known. */
  function Checkpoints(cache: Cache): seq<Message> {
    if cache.bids.Some? && cache.asks.Some? then [Checkpoint(Levels(cache.bids.value), Levels(cache.asks.value))] else []
  }

  function Differences(side: Side, update: seq<Level>): seq<Message> {
    if update == [] then [] else [Difference(side, update)]
  }

  /** Nothing is published for a side that was not known before. */
  function Published(cache: Cache, e: Event): seq<Message> {
    match Cached(cache, e.side)
    case None => []
    case Some(previous) =>
      Checkpoints(Remember(cache, e)) + Differences(e.side, Update(Levels(e.orders), Levels(previous)))
  }

  class BookFilter {
    var bids: Option<seq<Order>>
    var asks: Option<seq<Order>>

    function Contents(): Cache
      reads this
    {
      Cache(bids, asks)
    }

    constructor ()
      ensures Contents() == Cache(None, None)
    {
      bids, asks := None, None;
    }

    method OnBookside(side: Side, orders: seq<Order>) returns (messages: seq<Message>)
      modifies this
      ensures Contents() == Remember(old(Contents()), Event(side, orders))
      ensures messages == Published(old(Contents()), Event(side, orders))
    {
      messages := [];
      var previous, other := if side.Bid? then bids else asks, if side.Bid? then asks else bids;
      if previous.Some? {
        var current := Levels(orders);
        var update := LevelUpdate(current, Levels(previous.value));
        if other.Some? {
          var others := Levels(other.value);
          messages := [if side.Bid? then Checkpoint(current, others) else Checkpoint(others, current)];
        }
        if update != [] {
          messages := messages + [Difference(side, update)];
        }
      }
      if side.Bid? {
        bids := Some(orders);
      } else {
        asks := Some(orders);
      }
    }
  }

  // ---------- subscribers ----------

  datatype View = View(bids: Book, asks: Book)

  /** A checkpoint is sent on subscribing only; differences are sent as they happen. */
  function Receive(view: View, msg: Message): View {
    match msg
    case Checkpoint(_, _) => view
    case Difference(Bid, levels) => view.(bids := Apply(view.bids, levels))
    case Difference(Ask, levels) => view.(asks := Apply(view.asks, levels))
  }

  function ReceiveAll(view: View, msgs: seq<Message>): View {
    if msgs == [] then view else Receive(ReceiveAll(view, msgs[..|msgs| - 1]), msgs[|msgs| - 1])
  }

  function Subscribed(msg: Message): View
    requires msg.Checkpoint?
  {
    View(BookOf(msg.bids), BookOf(msg.asks))
  }

  /** The checkpoint that a new subscriber is given, if there has been one. */
  function Latest(msgs: seq<Message>): Option<View> {
    if msgs == [] then None
    else if msgs[|msgs| - 1].Checkpoint? then Some(Subscribed(msgs[|msgs| - 1]))
    else Latest(msgs[..|msgs| - 1])
  }

  function After(run: seq<Event>): Cache {
    if run == [] then Cache(None, None) else Remember(After(run[..|run| - 1]), run[|run| - 1])
  }

  function Stream(run: seq<Event>): seq<Message> {
    if run == [] then []
    else Stream(run[..|run| - 1]) + Published(After(run[..|run| - 1]), run[|run| - 1])
  }

  ghost predicate ValidRun(run: seq<Event>) {
    forall i :: 0 <= i < |run| ==> ValidOrders(run[i].orders, run[i].side.Ask?)
  }

  ghost predicate ValidCache(cache: Cache) {
    && (cache.bids.Some? ==> ValidOrders(cache.bids.value, false))
    && (cache.asks.Some? ==> ValidOrders(cache.asks.value, true))
  }

  predicate Known(cache: Cache) {
    cache.bids.Some? && cache.asks.Some?
  }

  function Current(cache: Cache): View
    requires Known(cache)
  {
    View(BookOf(Levels(cache.bids.value)), BookOf(Levels(cache.asks.value)))
  }

  lemma {:induction false} RunCacheValid(run: seq<Event>)
    requires ValidRun(run)
    ensures ValidCache(After(run))
  {
    if run != [] {
      RunCacheValid(run[..|run| - 1]);
    }
  }

  lemma {:induction false} ReceiveJoined(view: View, a: seq<Message>, b: seq<Message>)
    ensures ReceiveAll(view, a + b) == ReceiveAll(ReceiveAll(view, a), b)
  {
    if b == [] {
      assert a + b == a;
    } else {
      var n := |b| - 1;
      ReceiveJoined(view, a, b[..n]);
      assert (a + b)[..|a + b| - 1] == a + b[..n];
    }
  }

  lemma {:induction false} LatestJoined(a: seq<Message>, b: seq<Message>)
    ensures Latest(a + b) == if Latest(b).Some? then Latest(b) else Latest(a)
  {
    if b == [] {
      assert a + b == a;
    } else {
      var n := |b| - 1;
      LatestJoined(a, b[..n]);
      assert (a + b)[..|a + b| - 1] == a + b[..n];
    }
  }

  /** Receives one message. */
  lemma ReceiveOne(view: View, msg: Message)
    ensures ReceiveAll(view, [msg]) == Receive(view, msg)
  {
  }

  /** Before or after the side's change: the difference leads to the current view. */
  lemma {:induction false} DifferenceReplays(cache: Cache, e: Event, view: View)
    requires ValidCache(cache) && ValidOrders(e.orders, e.side.Ask?) && Known(cache)
    requires view == Current(cache) || view == Current(Remember(cache, e))
    ensures ReceiveAll(view, Differences(e.side, Update(Levels(e.orders), Levels(Cached(cache, e.side).value))))
            == Current(Remember(cache, e))
  {
    var current, previous := Levels(e.orders), Levels(Cached(cache, e.side).value);
    var book := if e.side.Bid? then view.bids else view.asks;
    LevelsValid(e.orders, e.side.Ask?);
    LevelsValid(Cached(cache, e.side).value, e.side.Ask?);
    BookTidy(current);
    BookTidy(previous);
    UpdateReplays(book, current, previous, e.side.Ask?);
    var update := Update(current, previous);
    ReceiveOne(view, Difference(e.side, update));
  }

  /** A checkpoint only exists once both sides are known. */
  lemma {:induction false} CheckpointNeedsBoth(run: seq<Event>)
    ensures Latest(Stream(run)).Some? ==> Known(After(run))
  {
    if run != [] {
      var before, e := run[..|run| - 1], run[|run| - 1];
      CheckpointNeedsBoth(before);
      PublishedLatest(After(before), e);
      LatestJoined(Stream(before), Published(After(before), e));
    }
  }

  /** What is published ends in the current view: it is the checkpoint, if there is one. */
  lemma {:induction false} PublishedLatest(cache: Cache, e: Event)
    ensures Latest(Published(cache, e)) ==
            if Cached(cache, e.side).Some? && Known(Remember(cache, e)) then Some(Current(Remember(cache, e))) else None
  {
    if Cached(cache, e.side).Some? {
      var update := Update(Levels(e.orders), Levels(Cached(cache, e.side).value));
      var checkpoints, differences := Checkpoints(Remember(cache, e)), Differences(e.side, update);
      LatestJoined(checkpoints, differences);
      assert Latest(differences) == None by {
        if differences != [] {
          assert differences[..0] == [];
        }
      }
      if checkpoints != [] {
        assert checkpoints[|checkpoints| - 1].Checkpoint?;
      }
    }
  }

  /** Once published, the latest checkpoint is always the current view. */
  lemma {:induction false} CheckpointIsCurrent(run: seq<Event>)
    ensures Latest(Stream(run)).Some? ==> Known(After(run)) && Latest(Stream(run)).value == Current(After(run))
  {
    CheckpointNeedsBoth(run);
    if run != [] {
      var before, e := run[..|run| - 1], run[|run| - 1];
      CheckpointIsCurrent(before);
      PublishedLatest(After(before), e);
      LatestJoined(Stream(before), Published(After(before), e));
    }
  }

  /** A subscriber with the view before an event has the view after it. */
  lemma {:induction false} PublishedReplays(cache: Cache, e: Event)
    requires ValidCache(cache) && ValidOrders(e.orders, e.side.Ask?) && Known(cache)
    ensures ReceiveAll(Current(cache), Published(cache, e)) == Current(Remember(cache, e))
  {
    var checkpoints := Checkpoints(Remember(cache, e));
    var differences := Differences(e.side, Update(Levels(e.orders), Levels(Cached(cache, e.side).value)));
    ReceiveJoined(Current(cache), checkpoints, differences);
    ReceiveOne(Current(cache), checkpoints[0]);
    assert checkpoints == [checkpoints[0]];
    DifferenceReplays(cache, e, Current(cache));
  }

  ghost predicate NoCheckpoint(msgs: seq<Message>) {
    forall i :: 0 <= i < |msgs| ==> msgs[i].Difference?
  }

  lemma {:induction false} NoneLatest(msgs: seq<Message>)
    requires NoCheckpoint(msgs)
    ensures Latest(msgs) == None
  {
    if msgs != [] {
      NoneLatest(msgs[..|msgs| - 1]);
    }
  }

  /** Differences after a checkpoint do not replace it. */
  lemma {:induction false} LatestBehind(cp: Message, more: seq<Message>, k: nat)
    requires cp.Checkpoint? && NoCheckpoint(more) && 0 < k <= 1 + |more|
    ensures Latest(([cp] + more)[..k]) == Some(Subscribed(cp))
  {
    assert ([cp] + more)[..k] == [cp] + more[..k - 1];
    LatestJoined([cp], more[..k - 1]);
    NoneLatest(more[..k - 1]);
    assert Latest([cp]) == Some(Subscribed(cp)) by {
      assert [cp][0].Checkpoint?;
    }
  }

  /** What is published for a market with both sides known: its checkpoint, then a difference if there is one. */
  lemma {:induction false} PublishedForm(cache: Cache, e: Event)
    requires Cached(cache, e.side).Some? && Known(Remember(cache, e))
    ensures |Checkpoints(Remember(cache, e))| == 1
    ensures Subscribed(Checkpoints(Remember(cache, e))[0]) == Current(Remember(cache, e))
    ensures Published(cache, e)
         == [Checkpoints(Remember(cache, e))[0]] + Differences(e.side, Update(Levels(e.orders), Levels(Cached(cache, e.side).value)))
  {
  }

  /** Joining behind a checkpoint that the differences after it do not change. */
  lemma {:induction false} JoinBehindCheckpoint(cp: Message, more: seq<Message>, k: nat)
    requires cp.Checkpoint? && NoCheckpoint(more) && |more| <= 1 && ReceiveAll(Subscribed(cp), more) == Subscribed(cp)
    requires 0 < k <= 1 + |more|
    ensures Latest(([cp] + more)[..k]) == Some(Subscribed(cp))
    ensures ReceiveAll(Subscribed(cp), ([cp] + more)[k..]) == Subscribed(cp)
  {
    LatestBehind(cp, more, k);
    assert ([cp] + more)[k..] == more[k - 1..];
    assert k == 1 ==> more[k - 1..] == more;
    assert k == 2 ==> more[k - 1..] == [];
  }

  /** Joining while an event is being published, after its checkpoint. */
  lemma {:induction false} JoinWhilePublishing(cache: Cache, e: Event, k: nat)
    requires ValidCache(cache) && ValidOrders(e.orders, e.side.Ask?)
    requires 0 < k <= |Published(cache, e)| && Known(Remember(cache, e))
    ensures Latest(Published(cache, e)[..k]) == Some(Current(Remember(cache, e)))
    ensures ReceiveAll(Current(Remember(cache, e)), Published(cache, e)[k..]) == Current(Remember(cache, e))
  {
    assert Cached(cache, e.side).Some?;
    PublishedForm(cache, e);
    DifferenceReplays(cache, e, Current(Remember(cache, e)));
    JoinBehindCheckpoint(Checkpoints(Remember(cache, e))[0],
                         Differences(e.side, Update(Levels(e.orders), Levels(Cached(cache, e.side).value))), k);
  }

  lemma NoCheckpointYet(cache: Cache, e: Event, j: nat)
    requires !Known(Remember(cache, e)) && j <= |Published(cache, e)|
    ensures Latest(Published(cache, e)[..j]).None?
  {
  }

  /** The view of whoever joins after `k` messages, once all have been received. */
  function Joined(msgs: seq<Message>, k: nat): Option<View>
    requires k <= |msgs|
  {
    match Latest(msgs[..k])
    case None => None
    case Some(view) => Some(ReceiveAll(view, msgs[k..]))
  }

  lemma {:induction false} JoinedEarlier(msgs: seq<Message>, more: seq<Message>, k: nat)
    requires k <= |msgs|
    ensures Joined(msgs + more, k) == match Joined(msgs, k) case None => None case Some(view) => Some(ReceiveAll(view, more))
  {
    assert (msgs + more)[..k] == msgs[..k] && (msgs + more)[k..] == msgs[k..] + more;
    if Latest(msgs[..k]).Some? {
      ReceiveJoined(Latest(msgs[..k]).value, msgs[k..], more);
    }
  }

  lemma {:induction false} JoinedLater(msgs: seq<Message>, more: seq<Message>, j: nat)
    requires j <= |more|
    ensures Latest(more[..j]).Some? ==> Joined(msgs + more, |msgs| + j) == Some(ReceiveAll(Latest(more[..j]).value, more[j..]))
    ensures Latest(more[..j]).None? && Latest(msgs).None? ==> Joined(msgs + more, |msgs| + j) == None
  {
    assert (msgs + more)[..|msgs| + j] == msgs + more[..j] && (msgs + more)[|msgs| + j..] == more[j..];
    LatestJoined(msgs, more[..j]);
  }

  ghost predicate IsCurrent(view: Option<View>, cache: Cache) {
    view.Some? ==> Known(cache) && view.value == Current(cache)
  }

  /** Whoever joins inside `more`, behind a checkpoint in it, gets the current view. */
  ghost predicate PartCurrent(more: seq<Message>, j: nat, cache: Cache)
    requires j <= |more|
  {
    match Latest(more[..j])
    case None => !Known(cache)
    case Some(view) => Known(cache) && ReceiveAll(view, more[j..]) == Current(cache)
  }

  /** `more` leads a subscriber from one cache's view to another's, and lets others join inside. */
  ghost predicate StepCorrect(more: seq<Message>, before: Cache, after: Cache) {
    && (Known(before) ==> Known(after) && ReceiveAll(Current(before), more) == Current(after))
    && (forall j :: 0 < j <= |more| ==> PartCurrent(more, j, after))
  }

  lemma {:induction false} PublishedPart(cache: Cache, e: Event, j: nat)
    requires ValidCache(cache) && ValidOrders(e.orders, e.side.Ask?) && 0 < j <= |Published(cache, e)|
    ensures PartCurrent(Published(cache, e), j, Remember(cache, e))
  {
    if Known(Remember(cache, e)) {
      JoinWhilePublishing(cache, e, j);
    } else {
      NoCheckpointYet(cache, e, j);
    }
  }

  lemma {:induction false} PublishedCorrect(cache: Cache, e: Event)
    requires ValidCache(cache) && ValidOrders(e.orders, e.side.Ask?)
    ensures StepCorrect(Published(cache, e), cache, Remember(cache, e))
  {
    if Known(cache) {
      PublishedReplays(cache, e);
    }
    forall j | 0 < j <= |Published(cache, e)| ensures PartCurrent(Published(cache, e), j, Remember(cache, e)) {
      PublishedPart(cache, e, j);
    }
  }

  /** Whenever a subscriber has joined, the messages so far have led to the current view. */
  ghost predicate FeedCorrect(msgs: seq<Message>, cache: Cache) {
    forall k :: 0 <= k <= |msgs| ==> IsCurrent(Joined(msgs, k), cache)
  }

  lemma {:induction false} JoinedInside(msgs: seq<Message>, more: seq<Message>, k: nat, after: Cache)
    requires |msgs| < k <= |msgs| + |more| && PartCurrent(more, k - |msgs|, after)
    requires Latest(msgs).Some? ==> Known(after)
    ensures IsCurrent(Joined(msgs + more, k), after)
  {
    JoinedLater(msgs, more, k - |msgs|);
  }

  lemma {:induction false} JoinedBefore(msgs: seq<Message>, more: seq<Message>, k: nat, before: Cache, after: Cache)
    requires k <= |msgs| && IsCurrent(Joined(msgs, k), before) && StepCorrect(more, before, after)
    ensures IsCurrent(Joined(msgs + more, k), after)
  {
    JoinedEarlier(msgs, more, k);
  }

  lemma {:induction false} FeedExtends(msgs: seq<Message>, more: seq<Message>, before: Cache, after: Cache)
    requires FeedCorrect(msgs, before) && StepCorrect(more, before, after) && (Latest(msgs).Some? ==> Known(before))
    ensures FeedCorrect(msgs + more, after)
  {
    forall k | 0 <= k <= |msgs + more| ensures IsCurrent(Joined(msgs + more, k), after) {
      if k <= |msgs| {
        JoinedBefore(msgs, more, k, before, after);
      } else {
        JoinedInside(msgs, more, k, after);
      }
    }
  }

  /**
   Whoever joins between any two messages, takes the latest checkpoint and follows the
   differences from there holds exactly the current book of both sides.
   */
  lemma {:induction false} SubscribersAreCurrent(run: seq<Event>)
    requires ValidRun(run)
    ensures FeedCorrect(Stream(run), After(run))
  {
    if run != [] {
      var before := run[..|run| - 1];
      SubscribersAreCurrent(before);
      RunCacheValid(before);
      CheckpointNeedsBoth(before);
      PublishedCorrect(After(before), run[|run| - 1]);
      FeedExtends(Stream(before), Published(After(before), run[|run| - 1]), After(before), After(run));
    }
  }
}
