/**
 The order book service's price levels: orders grouped by price, the differences between
 two books, and what a subscriber makes of a checkpoint followed by differences.
 Prices and quantities are exact numbers here.
 */
module LevelFeed {

  import opened Common

  type Price = int

  datatype Order = Order(price: Price, quantity: int)

  datatype Level = Level(price: Price, size: int)

  // ---------- grouping ----------

  /** An order joins the last level if it has the same price. */
  function AddOrder(levels: seq<Level>, o: Order): (r: seq<Level>) {
    if levels != [] && levels[|levels| - 1].price == o.price then
      levels[..|levels| - 1] + [Level(o.price, levels[|levels| - 1].size + o.quantity)]
    else
      levels + [Level(o.price, o.quantity)]
  }

  /** Adjacent orders of one price become one level with their summed quantity. */
  function Levels(orders: seq<Order>): seq<Level> {
    if orders == [] then [] else AddOrder(Levels(orders[..|orders| - 1]), orders[|orders| - 1])
  }

  /** Best first: asks come with rising prices, bids with falling ones. */
  predicate Before(rising: bool, p: Price, q: Price) {
    if rising then p <= q else p >= q
  }

  ghost predicate ValidOrders(orders: seq<Order>, rising: bool) {
    && (forall i, j :: 0 <= i < j < |orders| ==> Before(rising, orders[i].price, orders[j].price))
    && (forall i :: 0 <= i < |orders| ==> orders[i].quantity > 0)
  }

  /** Total quantity offered at a price. */
  function Depth(orders: seq<Order>, p: Price): int {
    if orders == [] then 0
    else Depth(orders[..|orders| - 1], p) + if orders[|orders| - 1].price == p then orders[|orders| - 1].quantity else 0
  }

  ghost predicate DistinctPrices(levels: seq<Level>) {
    forall i, j :: 0 <= i < j < |levels| ==> levels[i].price != levels[j].price
  }

  /** A subscriber's book: the size at each price that has any. */
  type Book = map<Price, int>

  function BookOf(levels: seq<Level>): Book {
    if levels == [] then map[]
    else BookOf(levels[..|levels| - 1])[levels[|levels| - 1].price := levels[|levels| - 1].size]
  }

  lemma {:induction false} BookAt(levels: seq<Level>, i: nat)
    requires DistinctPrices(levels) && i < |levels|
    ensures levels[i].price in BookOf(levels) && BookOf(levels)[levels[i].price] == levels[i].size
  {
    var n := |levels| - 1;
    if i < n {
      BookAt(levels[..n], i);
    }
  }

  lemma {:induction false} BookFrom(levels: seq<Level>, p: Price) returns (i: nat)
    requires p in BookOf(levels)
    ensures i < |levels| && levels[i].price == p
  {
    i := |levels| - 1;
    if levels[i].price != p {
      i := BookFrom(levels[..i], p);
    }
  }

  /** Levels are strictly ordered, with positive sizes. */
  ghost predicate ValidLevels(levels: seq<Level>, rising: bool) {
    && (forall i, j :: 0 <= i < j < |levels| ==>
          Before(rising, levels[i].price, levels[j].price) && levels[i].price != levels[j].price)
    && (forall i :: 0 <= i < |levels| ==> levels[i].size > 0)
  }

  lemma AddOrderValid(levels: seq<Level>, o: Order, rising: bool)
    requires ValidLevels(levels, rising) && o.quantity > 0
    requires levels != [] ==> Before(rising, levels[|levels| - 1].price, o.price)
    ensures ValidLevels(AddOrder(levels, o), rising)
    ensures AddOrder(levels, o)[|AddOrder(levels, o)| - 1].price == o.price
  {
  }

  lemma {:induction false} LevelsValid(orders: seq<Order>, rising: bool)
    requires ValidOrders(orders, rising)
    ensures ValidLevels(Levels(orders), rising)
    ensures orders != [] ==> Levels(orders) != [] && Levels(orders)[|Levels(orders)| - 1].price == orders[|orders| - 1].price
  {
    if orders != [] {
      var n := |orders| - 1;
      LevelsValid(orders[..n], rising);
      if n > 0 {
        assert Before(rising, orders[n - 1].price, orders[n].price);
      }
      AddOrderValid(Levels(orders[..n]), orders[n], rising);
    }
  }

  lemma BookOfLast(front: seq<Level>, last: Level)
    ensures BookOf(front + [last]) == BookOf(front)[last.price := last.size]
  {
  }

  lemma BookWithoutLast(levels: seq<Level>)
    requires DistinctPrices(levels) && levels != []
    ensures levels[|levels| - 1].price !in BookOf(levels[..|levels| - 1])
  {
    var n := |levels| - 1;
    if levels[n].price in BookOf(levels[..n]) {
      var i := BookFrom(levels[..n], levels[n].price);
    }
  }

  lemma AddOrderEffect(levels: seq<Level>, o: Order, p: Price)
    requires DistinctPrices(levels) && DistinctPrices(AddOrder(levels, o))
    ensures SizeIn(BookOf(AddOrder(levels, o)), p) == SizeIn(BookOf(levels), p) + if p == o.price then o.quantity else 0
  {
    if levels != [] && levels[|levels| - 1].price == o.price {
      var n := |levels| - 1;
      assert levels == levels[..n] + [levels[n]];
      BookOfLast(levels[..n], levels[n]);
      BookOfLast(levels[..n], Level(o.price, levels[n].size + o.quantity));
    } else {
      BookOfLast(levels, Level(o.price, o.quantity));
      BookWithoutLast(AddOrder(levels, o));
      assert AddOrder(levels, o)[..|levels|] == levels;
    }
  }

  /** A book shows at each price the total quantity of its orders, and lists no other price. */
  lemma {:induction false} LevelsAreDepths(orders: seq<Order>, rising: bool, p: Price)
    requires ValidOrders(orders, rising)
    ensures SizeIn(BookOf(Levels(orders)), p) == Depth(orders, p)
  {
    if orders != [] {
      var n := |orders| - 1;
      LevelsAreDepths(orders[..n], rising, p);
      LevelsValid(orders[..n], rising);
      LevelsValid(orders, rising);
      AddOrderEffect(Levels(orders[..n]), orders[n], p);
    }
  }

  lemma {:induction false} BookTidy(levels: seq<Level>)
    requires forall i :: 0 <= i < |levels| ==> levels[i].size > 0
    ensures Tidy(BookOf(levels))
  {
    if levels != [] {
      BookTidy(levels[..|levels| - 1]);
    }
  }

  // ---------- differences ----------

  function Find(levels: seq<Level>, p: Price): Option<int> {
    if levels == [] then None
    else if levels[0].price == p then Some(levels[0].size)
    else Find(levels[1..], p)
  }

  lemma {:induction false} FindFirst(levels: seq<Level>, p: Price)
    ensures Find(levels, p).None? <==> forall i :: 0 <= i < |levels| ==> levels[i].price != p
    ensures Find(levels, p).Some? ==> exists i :: 0 <= i < |levels| && levels[i] == Level(p, Find(levels, p).value)
  {
    if levels != [] {
      FindFirst(levels[1..], p);
      assert forall i :: 0 < i < |levels| ==> levels[i] == levels[1..][i - 1];
      if levels[0].price == p {
        assert levels[0] == Level(p, levels[0].size);
      }
    }
  }

  lemma FindBook(levels: seq<Level>, p: Price)
    requires DistinctPrices(levels)
    ensures Find(levels, p).Some? <==> p in BookOf(levels)
    ensures p in BookOf(levels) ==> Find(levels, p) == Some(BookOf(levels)[p])
  {
    FindFirst(levels, p);
    if Find(levels, p).Some? {
      var i :| 0 <= i < |levels| && levels[i] == Level(p, Find(levels, p).value);
      BookAt(levels, i);
    }
    if p in BookOf(levels) {
      var i := BookFrom(levels, p);
    }
  }

  /** Levels that are no longer present, with size zero. */
  function Removed(previous: seq<Level>, current: seq<Level>): seq<Level> {
    if previous == [] then []
    else
      var last := previous[|previous| - 1];
      Removed(previous[..|previous| - 1], current) + if Find(current, last.price).None? then [Level(last.price, 0)] else []
  }

  /** Levels that are new or whose size has changed. */
  function Changed(current: seq<Level>, previous: seq<Level>): seq<Level> {
    if current == [] then []
    else
      var last := current[|current| - 1];
      Changed(current[..|current| - 1], previous) + if Find(previous, last.price) != Some(last.size) then [last] else []
  }

  method LevelUpdate(current: seq<Level>, previous: seq<Level>) returns (update: seq<Level>)
    ensures update == Removed(previous, current) + Changed(current, previous)
  {
    update := [];
    for i := 0 to |previous|
      invariant update == Removed(previous[..i], current)
    {
      assert previous[..i + 1][..i] == previous[..i];
      if Find(current, previous[i].price).None? {
        update := update + [Level(previous[i].price, 0)];
      }
    }
    assert previous[..|previous|] == previous;
    for i := 0 to |current|
      invariant update == Removed(previous, current) + Changed(current[..i], previous)
    {
      assert current[..i + 1][..i] == current[..i];
      var peer := Find(previous, current[i].price);
      if peer.None? || peer.value != current[i].size {
        update := update + [current[i]];
      }
    }
    assert current[..|current|] == current;
  }

  function Update(current: seq<Level>, previous: seq<Level>): seq<Level> {
    Removed(previous, current) + Changed(current, previous)
  }

  /** A subscriber drops a price at size zero and otherwise takes the new size. */
  function Apply(book: Book, update: seq<Level>): Book {
    if update == [] then book
    else
      var last := update[|update| - 1];
      var front := Apply(book, update[..|update| - 1]);
      if last.size == 0 then front - {last.price} else front[last.price := last.size]
  }

  function SizeIn(book: Book, p: Price): int {
    if p in book then book[p] else 0
  }

  /** No price with size zero is kept. */
  ghost predicate Tidy(book: Book) {
    forall p :: p in book ==> book[p] != 0
  }

  lemma SameBook(a: Book, b: Book)
    requires Tidy(a) && Tidy(b) && forall p :: SizeIn(a, p) == SizeIn(b, p)
    ensures a == b
  {
    forall p: Price ensures p in a <==> p in b {
      assert SizeIn(a, p) == SizeIn(b, p);
    }
    forall p: Price | p in a ensures a[p] == b[p] {
      assert SizeIn(a, p) == SizeIn(b, p);
    }
  }

  /** Every entry of the update tells the price's size in `target`. */
  ghost predicate Tells(update: seq<Level>, target: Book) {
    forall i :: 0 <= i < |update| ==> update[i].size == SizeIn(target, update[i].price)
  }

  ghost predicate Mentions(update: seq<Level>, p: Price) {
    exists i :: 0 <= i < |update| && update[i].price == p
  }

  lemma {:induction false} ApplyEffect(book: Book, update: seq<Level>, target: Book, p: Price)
    requires Tells(update, target)
    ensures SizeIn(Apply(book, update), p) == if Mentions(update, p) then SizeIn(target, p) else SizeIn(book, p)
  {
    if update != [] {
      var n := |update| - 1;
      ApplyEffect(book, update[..n], target, p);
      if update[n].price == p {
        assert Mentions(update, p);
      } else {
        assert Mentions(update, p) <==> Mentions(update[..n], p) by {
          assert forall i :: 0 <= i < n ==> update[..n][i] == update[i];
        }
      }
    }
  }

  lemma {:induction false} ApplyTidy(book: Book, update: seq<Level>)
    requires Tidy(book)
    ensures Tidy(Apply(book, update))
  {
    if update != [] {
      ApplyTidy(book, update[..|update| - 1]);
    }
  }

  lemma {:induction false} RemovedEntries(previous: seq<Level>, current: seq<Level>)
    ensures forall i :: 0 <= i < |Removed(previous, current)| ==>
              var e := Removed(previous, current)[i];
              e.size == 0 && Find(current, e.price).None? && exists k :: 0 <= k < |previous| && previous[k].price == e.price
    ensures forall k :: 0 <= k < |previous| && Find(current, previous[k].price).None? ==> Mentions(Removed(previous, current), previous[k].price)
    ensures DistinctPrices(previous) ==> DistinctPrices(Removed(previous, current))
  {
    if previous != [] {
      var n := |previous| - 1;
      RemovedEntries(previous[..n], current);
      var front, all := Removed(previous[..n], current), Removed(previous, current);
      assert forall k :: 0 <= k < n ==> previous[..n][k] == previous[k];
      assert forall i :: 0 <= i < |front| ==> all[i] == front[i];
      if Find(current, previous[n].price).None? {
        assert all[|front|].price == previous[n].price;
      }
    }
  }

  lemma {:induction false} ChangedEntries(current: seq<Level>, previous: seq<Level>)
    ensures forall i :: 0 <= i < |Changed(current, previous)| ==>
              var e := Changed(current, previous)[i];
              Find(previous, e.price) != Some(e.size) && exists k :: 0 <= k < |current| && current[k] == e
    ensures forall k :: 0 <= k < |current| && Find(previous, current[k].price) != Some(current[k].size)
              ==> Mentions(Changed(current, previous), current[k].price)
    ensures DistinctPrices(current) ==> DistinctPrices(Changed(current, previous))
  {
    if current != [] {
      var n := |current| - 1;
      ChangedEntries(current[..n], previous);
      var front, all := Changed(current[..n], previous), Changed(current, previous);
      assert forall k :: 0 <= k < n ==> current[..n][k] == current[k];
      assert forall i :: 0 <= i < |front| ==> all[i] == front[i];
      if Find(previous, current[n].price) != Some(current[n].size) {
        assert all[|front|] == current[n];
      }
    }
  }

  /** Every entry is the new size of a price whose size has changed. */
  lemma UpdateEntries(current: seq<Level>, previous: seq<Level>)
    requires DistinctPrices(current) && DistinctPrices(previous)
    ensures Tells(Update(current, previous), BookOf(current))
  {
    var update := Update(current, previous);
    RemovedEntries(previous, current);
    ChangedEntries(current, previous);
    var removed, changed := Removed(previous, current), Changed(current, previous);
    forall i | 0 <= i < |update| ensures update[i].size == SizeIn(BookOf(current), update[i].price) {
      FindBook(current, update[i].price);
      if i < |removed| {
        assert update[i] == removed[i];
      } else {
        assert update[i] == changed[i - |removed|];
        var k :| 0 <= k < |current| && current[k] == changed[i - |removed|];
        BookAt(current, k);
      }
    }
  }

  lemma MentionsEither(a: seq<Level>, b: seq<Level>, p: Price)
    ensures Mentions(a + b, p) <==> Mentions(a, p) || Mentions(b, p)
  {
    if Mentions(a, p) {
      var i :| 0 <= i < |a| && a[i].price == p;
      assert (a + b)[i].price == p;
    }
    if Mentions(b, p) {
      var i :| 0 <= i < |b| && b[i].price == p;
      assert (a + b)[|a| + i].price == p;
    }
  }

  lemma RemovedMentions(previous: seq<Level>, current: seq<Level>, p: Price)
    requires DistinctPrices(current) && DistinctPrices(previous)
    ensures Mentions(Removed(previous, current), p) <==> p in BookOf(previous) && p !in BookOf(current)
  {
    RemovedEntries(previous, current);
    FindBook(current, p);
    if Mentions(Removed(previous, current), p) {
      var k :| 0 <= k < |previous| && previous[k].price == p;
      BookAt(previous, k);
    } else if p in BookOf(previous) {
      var k := BookFrom(previous, p);
    }
  }

  lemma ChangedMentions(current: seq<Level>, previous: seq<Level>, p: Price)
    requires DistinctPrices(current) && DistinctPrices(previous)
    ensures Mentions(Changed(current, previous), p) <==> p in BookOf(current) && Find(previous, p) != Some(BookOf(current)[p])
  {
    ChangedEntries(current, previous);
    var changed := Changed(current, previous);
    if Mentions(changed, p) {
      var i :| 0 <= i < |changed| && changed[i].price == p;
      var k :| 0 <= k < |current| && current[k] == changed[i];
      BookAt(current, k);
    } else if p in BookOf(current) {
      var k := BookFrom(current, p);
      BookAt(current, k);
    }
  }

  /** A price is mentioned exactly if its size has changed. */
  lemma UpdateMentions(current: seq<Level>, previous: seq<Level>, p: Price)
    requires DistinctPrices(current) && DistinctPrices(previous)
    requires Tidy(BookOf(current)) && Tidy(BookOf(previous))
    ensures Mentions(Update(current, previous), p) <==> SizeIn(BookOf(current), p) != SizeIn(BookOf(previous), p)
  {
    MentionsEither(Removed(previous, current), Changed(current, previous), p);
    RemovedMentions(previous, current, p);
    ChangedMentions(current, previous, p);
    FindBook(previous, p);
  }

  /** No price is mentioned twice. */
  lemma UpdateDistinct(current: seq<Level>, previous: seq<Level>)
    requires DistinctPrices(current) && DistinctPrices(previous)
    ensures DistinctPrices(Update(current, previous))
  {
    RemovedEntries(previous, current);
    ChangedEntries(current, previous);
    var removed, changed := Removed(previous, current), Changed(current, previous);
    forall i, j | 0 <= i < |removed| && 0 <= j < |changed| ensures removed[i].price != changed[j].price {
      FindFirst(current, removed[i].price);
    }
  }

  /**
   An update brings a subscriber to the current book from the previous one, and from any
   book that is in part already current: applying it late or twice does no harm.
   */
  lemma UpdateReplays(book: Book, current: seq<Level>, previous: seq<Level>, rising: bool)
    requires ValidLevels(current, rising) && ValidLevels(previous, rising) && Tidy(book)
    requires forall p :: SizeIn(book, p) == SizeIn(BookOf(previous), p) || SizeIn(book, p) == SizeIn(BookOf(current), p)
    ensures Apply(book, Update(current, previous)) == BookOf(current)
  {
    var update := Update(current, previous);
    BookTidy(current);
    BookTidy(previous);
    UpdateEntries(current, previous);
    ApplyTidy(book, update);
    forall p: Price ensures SizeIn(Apply(book, update), p) == SizeIn(BookOf(current), p) {
      ApplyEffect(book, update, BookOf(current), p);
      UpdateMentions(current, previous, p);
    }
    SameBook(Apply(book, update), BookOf(current));
  }
}
