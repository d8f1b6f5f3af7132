/**
 The limit-order book as a value: each side is a ladder of price levels, best price first,
 each level a queue of orders, oldest first. The matcher here is the reference that the
 pointer-based book (module Book) is proved to refine.
 */
module Matching {
  import opened Domain

  datatype Level = Level(price: int, queue: seq<Entry>)

  type Ladder = seq<Level>

  predicate Better(side: Side, a: int, b: int) {
    if side.Buy? then a > b else a < b
  }

  /** Does the taker's limit reach `best`, the best price of the other side? */
  predicate Reaches(taker: Entry, best: int) {
    if taker.side.Buy? then taker.price >= best else taker.price <= best
  }

  // ---------- Matching ----------

  datatype Swept = Swept(queue: seq<Entry>, trades: seq<Trade>, taker: Entry)

  datatype Matched = Matched(ladder: Ladder, trades: seq<Trade>, taker: Entry)

  function Reduce(e: Entry, quantity: int): Entry {
    e.(remaining := e.remaining - quantity)
  }

  function Fill(taker: Entry, maker: Entry, price: int, id: Uuid): Trade {
    Trade(id, price, Min(taker.remaining, maker.remaining), taker.id, maker.id, taker.user, maker.user)
  }

  /** Match one level, oldest order first, passing over the taker's own orders. */
  function Sweep(queue: seq<Entry>, price: int, taker: Entry, nextId: nat): Swept {
    if queue == [] || taker.remaining <= 0 then
      Swept(queue, [], taker)
    else if queue[0].user == taker.user then
      var r := Sweep(queue[1..], price, taker, nextId);
      r.(queue := [queue[0]] + r.queue)
    else
      var t := Fill(taker, queue[0], price, nextId);
      var r := Sweep(queue[1..], price, Reduce(taker, t.quantity), nextId + 1);
      Swept(AfterFill(queue[0], t.quantity) + r.queue, [t] + r.trades, r.taker)
  }

  /** What a fill leaves of the maker in its queue. */
  function AfterFill(maker: Entry, quantity: int): seq<Entry> {
    if maker.remaining == quantity then [] else [Reduce(maker, quantity)]
  }

  /** Match level by level while the limit reaches; stop at a level that cannot be emptied. */
  function Match(ladder: Ladder, taker: Entry, nextId: nat): Matched {
    if ladder == [] || taker.remaining <= 0 || !Reaches(taker, ladder[0].price) then
      Matched(ladder, [], taker)
    else
      var s := Sweep(ladder[0].queue, ladder[0].price, taker, nextId);
      if s.queue != [] then
        Matched([Level(ladder[0].price, s.queue)] + ladder[1..], s.trades, s.taker)
      else
        var r := Match(ladder[1..], s.taker, nextId + |s.trades|);
        r.(trades := s.trades + r.trades)
  }

  /** One step of Match, as an equation. */
  lemma MatchUnfold(ladder: Ladder, taker: Entry, nextId: nat)
    ensures ladder == [] || taker.remaining <= 0 || !Reaches(taker, ladder[0].price)
        ==> Match(ladder, taker, nextId) == Matched(ladder, [], taker)
    ensures ladder != [] && taker.remaining > 0 && Reaches(taker, ladder[0].price)
        ==> var s := Sweep(ladder[0].queue, ladder[0].price, taker, nextId);
            Match(ladder, taker, nextId) ==
            if s.queue != [] then
              Matched([Level(ladder[0].price, s.queue)] + ladder[1..], s.trades, s.taker)
            else
              var r := Match(ladder[1..], s.taker, nextId + |s.trades|);
              Matched(r.ladder, s.trades + r.trades, r.taker)
  {}

  // ---------- Resting, removing and finding orders ----------

  function Add(ladder: Ladder, e: Entry): Ladder {
    if ladder == [] || Better(e.side, e.price, ladder[0].price) then
      [Level(e.price, [e])] + ladder
    else if ladder[0].price == e.price then
      [Level(e.price, ladder[0].queue + [e])] + ladder[1..]
    else
      [ladder[0]] + Add(ladder[1..], e)
  }

  function Without(queue: seq<Entry>, id: Uuid): seq<Entry> {
    if queue == [] then []
    else if queue[0].id == id then queue[1..]
    else [queue[0]] + Without(queue[1..], id)
  }

  function Remove(ladder: Ladder, price: int, id: Uuid): Ladder {
    if ladder == [] then []
    else if ladder[0].price == price then
      var queue := Without(ladder[0].queue, id);
      if queue == [] then ladder[1..] else [Level(price, queue)] + ladder[1..]
    else [ladder[0]] + Remove(ladder[1..], price, id)
  }

  function FindIn(queue: seq<Entry>, id: Uuid): Option<Entry> {
    if queue == [] then None
    else if queue[0].id == id then Some(queue[0])
    else FindIn(queue[1..], id)
  }

  function Find(ladder: Ladder, id: Uuid): Option<Entry> {
    if ladder == [] then None
    else
      var r := FindIn(ladder[0].queue, id);
      if r.Some? then r else Find(ladder[1..], id)
  }

  // ---------- The book and its operations ----------

  datatype BookValue = BookValue(bids: Ladder, asks: Ladder) {
    function Of(side: Side): Ladder {
      if side.Buy? then bids else asks
    }

    function With(side: Side, ladder: Ladder): BookValue {
      if side.Buy? then this.(bids := ladder) else this.(asks := ladder)
    }

    function FindOrder(id: Uuid): Option<Entry> {
      var r := Find(bids, id);
      if r.Some? then r else Find(asks, id)
    }
  }

  datatype PlaceResult = PlaceResult(book: BookValue, trades: seq<Trade>, status: Status)

  function PlaceOrder(book: BookValue, taker: Entry, nextId: nat): PlaceResult {
    var m := Match(book.Of(taker.side.Opposite()), taker, nextId);
    var matched := book.With(taker.side.Opposite(), m.ladder);
    if m.taker.remaining == 0 then
      PlaceResult(matched, m.trades, Filled)
    else
      var rested := matched.With(taker.side, Add(matched.Of(taker.side), m.taker));
      PlaceResult(rested, m.trades, if m.taker.remaining < m.taker.quantity then Partial else Placed)
  }

  /** Something of the taker is left, and after matching an order of its id is still on the book. */
  predicate RestsTwice(book: BookValue, taker: Entry, nextId: nat) {
    var m := Match(book.Of(taker.side.Opposite()), taker, nextId);
    m.taker.remaining != 0 && book.With(taker.side.Opposite(), m.ladder).FindOrder(taker.id).Some?
  }

  function CancelOrder(book: BookValue, id: Uuid): Option<(BookValue, Entry)> {
    match book.FindOrder(id)
    case None => None
    case Some(e) => Some((book.With(e.side, Remove(book.Of(e.side), e.price, id)), e))
  }

  function RestoreOrder(book: BookValue, e: Entry): BookValue {
    if book.FindOrder(e.id).Some? then book else book.With(e.side, Add(book.Of(e.side), e))
  }

  function RestoreAll(book: BookValue, orders: seq<Entry>): BookValue {
    if orders == [] then book
    else RestoreOrder(RestoreAll(book, orders[..|orders| - 1]), orders[|orders| - 1])
  }

  const EMPTY_BOOK := BookValue([], [])

  // ---------- Well-formedness ----------

  predicate EntryOk(side: Side, price: int, e: Entry) {
    e.price == price && e.side == side && e.remaining > 0
  }

  predicate QueueOk(side: Side, price: int, queue: seq<Entry>) {
    forall j | 0 <= j < |queue| :: EntryOk(side, price, queue[j])
  }

  /** Levels strictly ordered from the best price, none empty, all remainders positive. */
  predicate LadderOk(side: Side, ladder: Ladder) {
    && (forall i | 0 <= i < |ladder| :: ladder[i].queue != [] && QueueOk(side, ladder[i].price, ladder[i].queue))
    && (forall i, j | 0 <= i < j < |ladder| :: Better(side, ladder[i].price, ladder[j].price))
  }

  predicate BookOk(book: BookValue) {
    LadderOk(Buy, book.bids) && LadderOk(Sell, book.asks)
  }

  /** What a placement does side by side: matching on the other side, resting the remainder on its own. */
  lemma PlaceUnfold(book: BookValue, taker: Entry, nextId: nat)
    ensures var m, r := Match(book.Of(taker.side.Opposite()), taker, nextId), PlaceOrder(book, taker, nextId);
            && r.trades == m.trades && r.book.Of(taker.side.Opposite()) == m.ladder
            && r.book.Of(taker.side) == if m.taker.remaining == 0 then book.Of(taker.side)
              else Add(book.Of(taker.side), m.taker)
  {
    hide Match, Add;
  }

  lemma BookOkSides(book: BookValue, side: Side)
    ensures BookOk(book) <==> LadderOk(side, book.Of(side)) && LadderOk(side.Opposite(), book.Of(side.Opposite()))
  {
    hide LadderOk;
  }

  // ---------- A ladder is determined by its queue at each price ----------

  function QueueAt(ladder: Ladder, price: int): seq<Entry> {
    if ladder == [] then []
    else if ladder[0].price == price then ladder[0].queue
    else QueueAt(ladder[1..], price)
  }

  lemma {:induction false} QueueAtOk(side: Side, ladder: Ladder, price: int)
    requires LadderOk(side, ladder)
    ensures QueueOk(side, price, QueueAt(ladder, price))
    ensures ladder != [] && Better(side, price, ladder[0].price) ==> QueueAt(ladder, price) == []
    ensures QueueAt(ladder, price) != [] <==> exists i :: 0 <= i < |ladder| && ladder[i].price == price
  {
    if ladder != [] {
      QueueAtOk(side, ladder[1..], price);
      if ladder[0].price != price {
        if i :| 0 <= i < |ladder| && ladder[i].price == price {
          assert ladder[1..][i - 1].price == price;
        }
        if i :| 0 <= i < |ladder[1..]| && ladder[1..][i].price == price {
          assert ladder[i + 1].price == price;
        }
      }
    }
  }

  /** Two well-formed ladders with the same queue at every price are the same ladder. */
  lemma {:induction false} LadderExtensional(side: Side, a: Ladder, b: Ladder)
    requires LadderOk(side, a) && LadderOk(side, b)
    requires forall p :: QueueAt(a, p) == QueueAt(b, p)
    ensures a == b
  {
    if a == [] {
      FirstQueue(b);
    } else {
      var p := a[0].price;
      assert QueueAt(b, p) != [];
      QueueAtOk(side, b, p);
      QueueAtOk(side, a, b[0].price);
      assert b[0].price == p;
      forall x ensures QueueAt(a[1..], x) == QueueAt(b[1..], x) {
        assert QueueAt(a, x) == QueueAt(b, x);
        if x == p {
          TailAvoids(side, a);
          TailAvoids(side, b);
        }
      }
      LadderExtensional(side, a[1..], b[1..]);
      assert a == [a[0]] + a[1..] && b == [b[0]] + b[1..];
    }
  }

  lemma FirstQueue(ladder: Ladder)
    ensures ladder != [] ==> QueueAt(ladder, ladder[0].price) == ladder[0].queue
  {}

  lemma TailAvoids(side: Side, ladder: Ladder)
    requires LadderOk(side, ladder) && ladder != []
    ensures QueueAt(ladder[1..], ladder[0].price) == []
  {
    QueueAtOk(side, ladder[1..], ladder[0].price);
  }

  lemma {:induction false} AddOk(side: Side, ladder: Ladder, e: Entry)
    requires LadderOk(side, ladder) && EntryOk(side, e.price, e)
    ensures LadderOk(side, Add(ladder, e))
    ensures ladder != [] ==>
        Add(ladder, e)[0].price == if Better(side, e.price, ladder[0].price) then e.price else ladder[0].price
    ensures Add(ladder, e) != [] && (ladder == [] ==> Add(ladder, e)[0].price == e.price)
  {
    var r := Add(ladder, e);
    if ladder == [] || Better(side, e.price, ladder[0].price) {
      assert r[1..] == ladder;
    } else if ladder[0].price == e.price {
      assert r[1..] == ladder[1..];
    } else {
      AddOk(side, ladder[1..], e);
      assert r[1..] == Add(ladder[1..], e);
    }
  }

  /** Resting an order appends it to its own level's queue and touches no other price. */
  lemma {:induction false} AddQueueAt(side: Side, ladder: Ladder, e: Entry)
    requires LadderOk(side, ladder) && EntryOk(side, e.price, e)
    ensures LadderOk(side, Add(ladder, e))
    ensures forall p :: QueueAt(Add(ladder, e), p) == QueueAt(ladder, p) + (if p == e.price then [e] else [])
    ensures ladder != [] ==>
        Add(ladder, e)[0].price == if Better(side, e.price, ladder[0].price) then e.price else ladder[0].price
    ensures Add(ladder, e) != [] && (ladder == [] ==> Add(ladder, e)[0].price == e.price)
  {
    var r := Add(ladder, e);
    AddOk(side, ladder, e);
    if ladder == [] || Better(side, e.price, ladder[0].price) {
      QueueAtOk(side, ladder, e.price);
      assert r[1..] == ladder;
    } else if ladder[0].price == e.price {
      assert r[1..] == ladder[1..];
    } else {
      AddQueueAt(side, ladder[1..], e);
      assert r[1..] == Add(ladder[1..], e);
    }
    hide LadderOk, Add;
  }

  /** Removing an order takes it out of its own level's queue and touches no other price. */
  lemma {:induction false} RemoveQueueAt(side: Side, ladder: Ladder, price: int, id: Uuid)
    requires LadderOk(side, ladder)
    ensures LadderOk(side, Remove(ladder, price, id))
    ensures forall p :: QueueAt(Remove(ladder, price, id), p)
                     == if p == price then Without(QueueAt(ladder, p), id) else QueueAt(ladder, p)
    ensures forall k | 0 <= k < |Remove(ladder, price, id)| ::
              exists i | 0 <= i < |ladder| :: ladder[i].price == Remove(ladder, price, id)[k].price
  {
    var r := Remove(ladder, price, id);
    if ladder != [] {
      if ladder[0].price == price {
        WithoutOk(side, price, ladder[0].queue, id);
        TailAvoids(side, ladder);
        if Without(ladder[0].queue, id) == [] {
          assert r == ladder[1..];
        } else {
          assert r[1..] == ladder[1..];
        }
      } else {
        RemoveQueueAt(side, ladder[1..], price, id);
        var rest := Remove(ladder[1..], price, id);
        assert r[1..] == rest;
        forall k | 0 <= k < |r|
          ensures exists i | 0 <= i < |ladder| :: ladder[i].price == r[k].price
        {
          if k == 0 {
            assert ladder[0].price == r[0].price;
          } else {
            var i :| 0 <= i < |ladder[1..]| && ladder[1..][i].price == rest[k - 1].price;
            assert ladder[i + 1].price == r[k].price;
          }
        }
      }
    }
  }

  lemma {:induction false} WithoutOk(side: Side, price: int, queue: seq<Entry>, id: Uuid)
    requires QueueOk(side, price, queue)
    ensures QueueOk(side, price, Without(queue, id))
  {
    if queue != [] {
      WithoutOk(side, price, queue[1..], id);
    }
  }
}
