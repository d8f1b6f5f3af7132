/** Rebuilding a book by restoring a list of orders: what it builds, and when two lists agree. */
module RestoreLaws {
  import opened Domain
  import opened Matching
  import opened Measures
  import opened MatchingLaws
  import opened BookLaws

  predicate Listed(orders: seq<Entry>, id: Uuid) {
    exists k :: 0 <= k < |orders| && orders[k].id == id
  }

  /** The orders of one side and price, each id at its first occurrence in the whole list, in list order. */
  function Firsts(orders: seq<Entry>, side: Side, price: int): seq<Entry> {
    if orders == [] then []
    else
      var front, e := orders[..|orders| - 1], orders[|orders| - 1];
      Firsts(front, side, price) + if e.side == side && e.price == price && !Listed(front, e.id) then [e] else []
  }

  predicate AllOpen(orders: seq<Entry>) {
    forall k | 0 <= k < |orders| :: orders[k].remaining > 0
  }

  lemma RestoreCount(book: BookValue, e: Entry, id: Uuid)
    ensures Count(RestoreOrder(book, e), id)
         == Count(book, id) + if book.FindOrder(e.id) == None && e.id == id then 1 else 0
  {
    AddSum(CountOf(id), book.Of(e.side), e);
  }

  /** What restoring a list builds: at each price the first occurrences, and no other id. */
  lemma {:induction false} RestoreBuilds(orders: seq<Entry>)
    requires AllOpen(orders)
    ensures var book := RestoreAll(EMPTY_BOOK, orders);
            && BookOk(book) && UniqueIds(book)
            && (forall id :: Count(book, id) > 0 <==> Listed(orders, id))
            && (forall side: Side, p :: QueueAt(book.Of(side), p) == Firsts(orders, side, p))
  {
    var book := RestoreAll(EMPTY_BOOK, orders);
    if orders != [] {
      var front, e := orders[..|orders| - 1], orders[|orders| - 1];
      var before := RestoreAll(EMPTY_BOOK, front);
      RestoreBuilds(front);
      hide RestoreOrder, Listed, BookOk, LadderSum, QueueAt, BookValue.FindOrder;
      FindOrderCount(before, e.id);
      assert orders == front + [e];
      forall id ensures 0 <= Count(book, id) <= 1 && (Count(book, id) > 0 <==> Listed(orders, id)) {
        RestoreCount(before, e, id);
        FindOrderCount(before, id);
        ListedSnoc(front, e, id);
      }
      forall side: Side, p ensures QueueAt(book.Of(side), p) == Firsts(orders, side, p) {
        RestoreQueueAt(before, e, side, p);
      }
      RestoreQueueAt(before, e, Buy, 0);
    } else {
      assert forall side: Side, p :: QueueAt(book.Of(side), p) == [];
    }
  }

  /** Restoring an order whose id is not on the book appends it to its own queue, and changes no other. */
  lemma RestoreQueueAt(book: BookValue, e: Entry, side: Side, p: int)
    requires BookOk(book) && e.remaining > 0
    ensures BookOk(RestoreOrder(book, e))
    ensures QueueAt(RestoreOrder(book, e).Of(side), p)
         == QueueAt(book.Of(side), p)
            + if e.side == side && e.price == p && book.FindOrder(e.id) == None then [e] else []
  {
    AddQueueAt(e.side, book.Of(e.side), e);
    hide LadderOk, Add, QueueAt, BookValue.FindOrder;
    assert QueueAt(book.Of(side), p) + [] == QueueAt(book.Of(side), p);
  }

  lemma ListedSnoc(front: seq<Entry>, e: Entry, id: Uuid)
    ensures Listed(front + [e], id) <==> Listed(front, id) || e.id == id
  {
    if e.id == id {
      assert (front + [e])[|front|].id == id;
    }
    if k :| 0 <= k < |front| && front[k].id == id {
      assert (front + [e])[k].id == id;
    }
  }

  /** The lists have the same first occurrences on each side at each price. */
  ghost predicate Agree(a: seq<Entry>, b: seq<Entry>) {
    forall side: Side, p :: Firsts(a, side, p) == Firsts(b, side, p)
  }

  /** Two lists build the same book exactly when they agree. */
  lemma RestoreDetermined(a: seq<Entry>, b: seq<Entry>)
    requires AllOpen(a) && AllOpen(b)
    ensures Agree(a, b) <==> RestoreAll(EMPTY_BOOK, a) == RestoreAll(EMPTY_BOOK, b)
  {
    RestoreBuilds(a);
    RestoreBuilds(b);
    var x, y := RestoreAll(EMPTY_BOOK, a), RestoreAll(EMPTY_BOOK, b);
    if x == y {
      forall side: Side, p ensures Firsts(a, side, p) == Firsts(b, side, p) {
        assert QueueAt(x.Of(side), p) == QueueAt(y.Of(side), p);
      }
    }
    if Agree(a, b) {
      forall side: Side ensures x.Of(side) == y.Of(side) {
        forall p ensures QueueAt(x.Of(side), p) == QueueAt(y.Of(side), p) {
          assert Firsts(a, side, p) == Firsts(b, side, p);
        }
        LadderExtensional(side, x.Of(side), y.Of(side));
      }
      assert x.Of(Buy) == y.Of(Buy) && x.Of(Sell) == y.Of(Sell);
    }
  }

  // ---------- Dumping a book and restoring it ----------

  function Flat(ladder: Ladder): seq<Entry> {
    if ladder == [] then [] else ladder[0].queue + Flat(ladder[1..])
  }

  /** All resting orders in priority order: the bids, then the asks. */
  function Dump(book: BookValue): seq<Entry> {
    Flat(book.bids) + Flat(book.asks)
  }

  function AtPrice(orders: seq<Entry>, side: Side, price: int): seq<Entry> {
    if orders == [] then []
    else
      (if orders[0].side == side && orders[0].price == price then [orders[0]] else [])
      + AtPrice(orders[1..], side, price)
  }

  lemma {:induction false} AtPriceConcat(a: seq<Entry>, b: seq<Entry>, side: Side, price: int)
    ensures AtPrice(a + b, side, price) == AtPrice(a, side, price) + AtPrice(b, side, price)
  {
    if a == [] {
      assert a + b == b;
    } else {
      AtPriceConcat(a[1..], b, side, price);
      assert (a + b)[1..] == a[1..] + b && (a + b)[0] == a[0];
      var head := if a[0].side == side && a[0].price == price then [a[0]] else [];
      assert head + (AtPrice(a[1..], side, price) + AtPrice(b, side, price))
          == head + AtPrice(a[1..], side, price) + AtPrice(b, side, price);
    }
  }

  lemma {:induction false} QueueAtPrice(queue: seq<Entry>, side: Side, price: int, side': Side, price': int)
    requires QueueOk(side, price, queue)
    ensures AtPrice(queue, side', price') == if side == side' && price == price' then queue else []
  {
    if queue != [] {
      QueueAtPrice(queue[1..], side, price, side', price');
    }
  }

  lemma {:induction false} FlatAtPrice(side: Side, ladder: Ladder, side': Side, price: int)
    requires LadderOk(side, ladder)
    ensures AtPrice(Flat(ladder), side', price) == if side == side' then QueueAt(ladder, price) else []
    ensures AllOpen(Flat(ladder))
  {
    if ladder != [] {
      LadderTail(side, ladder);
      TailAvoids(side, ladder);
      FlatAtPrice(side, ladder[1..], side', price);
      AtPriceConcat(ladder[0].queue, Flat(ladder[1..]), side', price);
      QueueAtPrice(ladder[0].queue, side, ladder[0].price, side', price);
    }
  }

  /** With no id twice, every order is a first occurrence. */
  lemma {:induction false} FirstsOfDistinct(orders: seq<Entry>, side: Side, price: int)
    requires forall id :: Sum(CountOf(id), orders) <= 1
    ensures Firsts(orders, side, price) == AtPrice(orders, side, price)
  {
    if orders != [] {
      var front, e := orders[..|orders| - 1], orders[|orders| - 1];
      assert orders == front + [e];
      forall id ensures Sum(CountOf(id), front) <= 1 && (Listed(front, id) ==> Sum(CountOf(id), front) >= 1) {
        SumConcat(CountOf(id), front, [e]);
        CountNonNegative(CountOf(id), [e]);
        if k :| 0 <= k < |front| && front[k].id == id {
          CountAt(CountOf(id), front, k);
        }
      }
      SumConcat(CountOf(e.id), front, [e]);
      assert Sum(CountOf(e.id), [e]) == 1;
      FirstsOfDistinct(front, side, price);
      AtPriceConcat(front, [e], side, price);
      assert AtPrice([e], side, price) == if e.side == side && e.price == price then [e] else [];
    }
  }

  lemma {:induction false} FlatSum(m: Measure, ladder: Ladder)
    ensures Sum(m, Flat(ladder)) == LadderSum(m, ladder)
  {
    if ladder != [] {
      FlatSum(m, ladder[1..]);
      SumConcat(m, ladder[0].queue, Flat(ladder[1..]));
    }
  }

  /** Restoring the dump of a book gives the same book. */
  lemma RestoreDump(book: BookValue)
    requires BookOk(book) && UniqueIds(book)
    ensures RestoreAll(EMPTY_BOOK, Dump(book)) == book
  {
    var orders := Dump(book);
    var back := RestoreAll(EMPTY_BOOK, orders);
    FlatAtPrice(Buy, book.bids, Buy, 0);
    FlatAtPrice(Sell, book.asks, Buy, 0);
    assert AllOpen(orders);
    RestoreBuilds(orders);
    forall id ensures Sum(CountOf(id), orders) <= 1 {
      FlatSum(CountOf(id), book.bids);
      FlatSum(CountOf(id), book.asks);
      SumConcat(CountOf(id), Flat(book.bids), Flat(book.asks));
      assert Count(book, id) <= 1;
    }
    forall side: Side, p ensures QueueAt(back.Of(side), p) == QueueAt(book.Of(side), p) {
      FirstsOfDistinct(orders, side, p);
      AtPriceConcat(Flat(book.bids), Flat(book.asks), side, p);
      FlatAtPrice(Buy, book.bids, side, p);
      FlatAtPrice(Sell, book.asks, side, p);
    }
    LadderExtensional(Buy, back.bids, book.bids) by {
      assert forall p :: QueueAt(back.Of(Buy), p) == QueueAt(book.Of(Buy), p);
    }
    LadderExtensional(Sell, back.asks, book.asks) by {
      assert forall p :: QueueAt(back.Of(Sell), p) == QueueAt(book.Of(Sell), p);
    }
  }

  lemma {:induction false} RestoreAllConcat(book: BookValue, a: seq<Entry>, b: seq<Entry>)
    ensures RestoreAll(RestoreAll(book, a), b) == RestoreAll(book, a + b)
    decreases |b|
  {
    hide RestoreOrder;
    if b == [] {
      assert a + b == a;
    } else {
      assert (a + b)[..|a + b| - 1] == a + b[..|b| - 1];
      RestoreAllConcat(book, a, b[..|b| - 1]);
    }
  }

  /** A rebuild that restores a book's bids and then its asks, each in priority order, gives the book back. */
  lemma RebuildDump(book: BookValue)
    requires BookOk(book) && UniqueIds(book)
    ensures RestoreAll(RestoreAll(EMPTY_BOOK, Flat(book.bids)), Flat(book.asks)) == book
  {
    hide RestoreAll, Flat;
    RestoreAllConcat(EMPTY_BOOK, Flat(book.bids), Flat(book.asks));
    RestoreDump(book);
  }
}
