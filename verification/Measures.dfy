/** Additive quantities over queues, ladders and trade lists, and what matching does to them. */
module Measures {
  import opened Domain
  import opened Matching

  /**
   One number per resting order, summed over the book: the open volume, a user's locked
   base or quote amount, the number of orders with an id, or the open quantity under an id.
   */
  datatype Measure = Volume | BaseOf(user: Uuid) | QuoteOf(user: Uuid) | CountOf(id: Uuid) | RemainingOf(id: Uuid) {
    predicate Linear() {
      Volume? || BaseOf? || RemainingOf?
    }
  }

  function Weight(m: Measure, e: Entry): int {
    match m
    case Volume => e.remaining
    case BaseOf(u) => if e.user == u then e.remaining else 0
    case QuoteOf(u) => if e.user == u then QuoteAmount(e.price, e.remaining) else 0
    case CountOf(id) => if e.id == id then 1 else 0
    case RemainingOf(id) => if e.id == id then e.remaining else 0
  }

  /** How much one trade takes from its maker's share of a measure. */
  function Take(m: Measure, t: Trade): int {
    match m
    case Volume => t.quantity
    case BaseOf(u) => if t.makerUser == u then t.quantity else 0
    case QuoteOf(u) => if t.makerUser == u then QuoteAmount(t.price, t.quantity) else 0
    case CountOf(_) => 0
    case RemainingOf(id) => if t.makerOrder == id then t.quantity else 0
  }

  function Sum(m: Measure, queue: seq<Entry>): int {
    if queue == [] then 0 else Weight(m, queue[0]) + Sum(m, queue[1..])
  }

  function LadderSum(m: Measure, ladder: Ladder): int {
    if ladder == [] then 0 else Sum(m, ladder[0].queue) + LadderSum(m, ladder[1..])
  }

  function BookSum(m: Measure, book: BookValue): int {
    LadderSum(m, book.bids) + LadderSum(m, book.asks)
  }

  function Taken(m: Measure, trades: seq<Trade>): int {
    if trades == [] then 0 else Take(m, trades[0]) + Taken(m, trades[1..])
  }

  /** The number of trades in which `user` is the maker. */
  function MakerTrades(user: Uuid, trades: seq<Trade>): nat {
    if trades == [] then 0 else (if trades[0].makerUser == user then 1 else 0) + MakerTrades(user, trades[1..])
  }

  /** The number of trades against the order `id`. */
  function Hits(id: Uuid, trades: seq<Trade>): nat {
    if trades == [] then 0 else (if trades[0].makerOrder == id then 1 else 0) + Hits(id, trades[1..])
  }

  /** The quote amount of all the trades. */
  function Cost(trades: seq<Trade>): int {
    if trades == [] then 0 else QuoteAmount(trades[0].price, trades[0].quantity) + Cost(trades[1..])
  }

  /** What a snapshot shows of one level. */
  datatype LevelDepth = LevelDepth(price: int, totalVol: int)

  datatype Snapshot = Snapshot(bids: seq<LevelDepth>, asks: seq<LevelDepth>)

  function Depth(ladder: Ladder): seq<LevelDepth> {
    seq(|ladder|, i requires 0 <= i < |ladder| => LevelDepth(ladder[i].price, Sum(Volume, ladder[i].queue)))
  }

  /** The depth of a book: every level's price and open volume, best price first. */
  function DepthOf(book: BookValue): Snapshot {
    Snapshot(Depth(book.bids), Depth(book.asks))
  }

  lemma {:induction false} DepthAt(side: Side, ladder: Ladder, p: int, v: int)
    requires LadderOk(side, ladder)
    ensures LevelDepth(p, v) in Depth(ladder) <==> QueueAt(ladder, p) != [] && v == Sum(Volume, QueueAt(ladder, p))
  {
    if ladder != [] {
      var rest := ladder[1..];
      DepthAt(side, rest, p, v);
      assert Depth(ladder) == [LevelDepth(ladder[0].price, Sum(Volume, ladder[0].queue))] + Depth(rest);
      if p == ladder[0].price {
        TailAvoids(side, ladder);
      }
    }
  }

  /** The depth shows a price just when orders rest there, with what is open at it, and the best price first. */
  lemma DepthShows(book: BookValue)
    requires BookOk(book)
    ensures var shown := DepthOf(book);
            && (forall p, v :: LevelDepth(p, v) in shown.bids
                  <==> QueueAt(book.bids, p) != [] && v == Sum(Volume, QueueAt(book.bids, p)))
            && (forall p, v :: LevelDepth(p, v) in shown.asks
                  <==> QueueAt(book.asks, p) != [] && v == Sum(Volume, QueueAt(book.asks, p)))
            && (forall i, j | 0 <= i < j < |shown.bids| :: shown.bids[i].price > shown.bids[j].price)
            && (forall i, j | 0 <= i < j < |shown.asks| :: shown.asks[i].price < shown.asks[j].price)
  {
    forall p, v
      ensures LevelDepth(p, v) in Depth(book.bids)
          <==> QueueAt(book.bids, p) != [] && v == Sum(Volume, QueueAt(book.bids, p))
      ensures LevelDepth(p, v) in Depth(book.asks)
          <==> QueueAt(book.asks, p) != [] && v == Sum(Volume, QueueAt(book.asks, p))
    {
      DepthAt(Buy, book.bids, p, v);
      DepthAt(Sell, book.asks, p, v);
    }
  }

  // ---------- Sums over concatenations and edits ----------

  lemma {:induction false} SumConcat(m: Measure, a: seq<Entry>, b: seq<Entry>)
    ensures Sum(m, a + b) == Sum(m, a) + Sum(m, b)
  {
    if a == [] {
      assert a + b == b;
    } else {
      SumConcat(m, a[1..], b);
      assert (a + b)[1..] == a[1..] + b;
    }
  }

  lemma {:induction false} TakenConcat(m: Measure, a: seq<Trade>, b: seq<Trade>)
    ensures Taken(m, a + b) == Taken(m, a) + Taken(m, b)
    ensures m.QuoteOf? ==> MakerTrades(m.user, a + b) == MakerTrades(m.user, a) + MakerTrades(m.user, b)
    ensures m.CountOf? ==> Hits(m.id, a + b) == Hits(m.id, a) + Hits(m.id, b)
    ensures Cost(a + b) == Cost(a) + Cost(b)
  {
    if a == [] {
      assert a + b == b;
    } else {
      TakenConcat(m, a[1..], b);
      assert (a + b)[1..] == a[1..] + b;
    }
  }

  lemma {:induction false} SumNonNegative(m: Measure, queue: seq<Entry>)
    requires m.CountOf? || m.Linear()
    requires forall e | e in queue :: e.remaining >= 0
    ensures Sum(m, queue) >= 0
  {
    if queue != [] {
      SumNonNegative(m, queue[1..]);
    }
  }

  /** Removing position `j` from a queue takes exactly its weight off the sum. */
  lemma SumRemove(m: Measure, queue: seq<Entry>, j: nat)
    requires j < |queue|
    ensures Sum(m, queue) == Sum(m, queue[..j] + queue[j + 1..]) + Weight(m, queue[j])
  {
    assert queue == queue[..j] + ([queue[j]] + queue[j + 1..]);
    SumConcat(m, queue[..j], [queue[j]] + queue[j + 1..]);
    SumConcat(m, [queue[j]], queue[j + 1..]);
    SumConcat(m, queue[..j], queue[j + 1..]);
    assert Sum(m, [queue[j]]) == Weight(m, queue[j]);
  }

  lemma SumUpdate(m: Measure, queue: seq<Entry>, j: nat, e: Entry)
    requires j < |queue|
    ensures Sum(m, queue[j := e]) == Sum(m, queue) - Weight(m, queue[j]) + Weight(m, e)
  {
    SumRemove(m, queue, j);
    SumRemove(m, queue[j := e], j);
    assert queue[j := e][..j] + queue[j := e][j + 1..] == queue[..j] + queue[j + 1..];
  }

  /** Resting an order adds its weight and nothing else. */
  lemma {:induction false} AddSum(m: Measure, ladder: Ladder, e: Entry)
    ensures LadderSum(m, Add(ladder, e)) == LadderSum(m, ladder) + Weight(m, e)
  {
    var r := Add(ladder, e);
    if ladder == [] || Better(e.side, e.price, ladder[0].price) {
      assert r[1..] == ladder && Sum(m, [e]) == Weight(m, e);
    } else if ladder[0].price == e.price {
      assert r[1..] == ladder[1..];
      SumConcat(m, ladder[0].queue, [e]);
      assert Sum(m, [e]) == Weight(m, e);
    } else {
      assert r[1..] == Add(ladder[1..], e);
      AddSum(m, ladder[1..], e);
    }
  }

  /** Cancelling the order found under an id takes exactly its weight off. */
  lemma {:induction false} RemoveSum(m: Measure, side: Side, ladder: Ladder, id: Uuid)
    requires LadderOk(side, ladder) && Find(ladder, id).Some?
    ensures var e := Find(ladder, id).value;
            && e.id == id && e.side == side && e.remaining > 0
            && LadderSum(m, Remove(ladder, e.price, id)) == LadderSum(m, ladder) - Weight(m, e)
  {
    var r := FindIn(ladder[0].queue, id);
    if r.Some? {
      WithoutSum(m, side, ladder[0].price, ladder[0].queue, id);
      var queue := Without(ladder[0].queue, id);
      var l := Remove(ladder, ladder[0].price, id);
      assert queue != [] ==> l[1..] == ladder[1..];
    } else {
      RemoveSum(m, side, ladder[1..], id);
      var e := Find(ladder[1..], id).value;
      FindPrice(side, ladder[1..], id);
      assert Remove(ladder, e.price, id)[1..] == Remove(ladder[1..], e.price, id);
    }
  }

  lemma {:induction false} WithoutSum(m: Measure, side: Side, price: int, queue: seq<Entry>, id: Uuid)
    requires QueueOk(side, price, queue) && FindIn(queue, id).Some?
    ensures var e := FindIn(queue, id).value;
            && EntryOk(side, price, e) && e.id == id && e in queue
            && Sum(m, Without(queue, id)) == Sum(m, queue) - Weight(m, e)
  {
    if queue[0].id != id {
      WithoutSum(m, side, price, queue[1..], id);
      assert Without(queue, id)[1..] == Without(queue[1..], id);
    }
  }

  /** The order found in a ladder sits at one of its levels, at that level's price. */
  lemma {:induction false} FindPrice(side: Side, ladder: Ladder, id: Uuid)
    requires LadderOk(side, ladder) && Find(ladder, id).Some?
    ensures var e := Find(ladder, id).value;
            exists i :: 0 <= i < |ladder| && ladder[i].price == e.price && e in ladder[i].queue
    ensures Find(ladder, id).value.id == id && Find(ladder, id).value.side == side
    ensures Find(ladder, id).value.remaining > 0
  {
    var r := FindIn(ladder[0].queue, id);
    if r.Some? {
      WithoutSum(Volume, side, ladder[0].price, ladder[0].queue, id);
    } else {
      FindPrice(side, ladder[1..], id);
      var e := Find(ladder[1..], id).value;
      var i :| 0 <= i < |ladder[1..]| && ladder[1..][i].price == e.price && e in ladder[1..][i].queue;
      assert ladder[i + 1].price == e.price && e in ladder[i + 1].queue;
    }
  }

  // ---------- Matching and measures ----------

  predicate QueueFits(queue: seq<Entry>) {
    forall j | 0 <= j < |queue| :: QuoteFits(queue[j].price, queue[j].remaining)
  }

  predicate LadderFits(ladder: Ladder) {
    forall i | 0 <= i < |ladder| :: QueueFits(ladder[i].queue)
  }

  /** One fill against one maker: linear measures split exactly, quote amounts up to one unit. */
  lemma FillSplits(m: Measure, taker: Entry, maker: Entry, price: int, id: nat)
    requires maker.price == price && taker.remaining > 0 && maker.remaining > 0
    requires m.QuoteOf? ==> QuoteFits(price, maker.remaining)
    ensures var t := Fill(taker, maker, price, id);
            var after := Sum(m, AfterFill(maker, t.quantity));
            && after + Take(m, t) <= Weight(m, maker) + (if m.CountOf? then 1 else 0)
            && (m.Linear() ==> after + Take(m, t) == Weight(m, maker))
            && (m.CountOf? ==> after <= Weight(m, maker))
            && (m.QuoteOf? ==> Weight(m, maker) <= after + Take(m, t) + (if maker.user == m.user then 1 else 0))
  {
    var t := Fill(taker, maker, price, id);
    if t.quantity < maker.remaining {
      assert Sum(m, [Reduce(maker, t.quantity)]) == Weight(m, Reduce(maker, t.quantity));
    }
    if m.QuoteOf? {
      QuoteSplit(price, maker.remaining - t.quantity, t.quantity);
    }
  }

  /**
   What trades do to a measure: a linear one falls by exactly what they take, a user's quote
   sum by at least that and by at most one unit more per trade of that user, and no order
   id is traded against more often than it occurs.
   */
  predicate Accounted(m: Measure, before: int, after: int, trades: seq<Trade>) {
    && before >= after + Taken(m, trades)
    && (m.Linear() ==> before == after + Taken(m, trades))
    && (m.QuoteOf? ==> before <= after + Taken(m, trades) + MakerTrades(m.user, trades))
    && (m.CountOf? ==> Hits(m.id, trades) <= before)
  }

  lemma AccountedConcat(m: Measure, b: int, a: int, t: seq<Trade>, b': int, a': int, t': seq<Trade>)
    requires Accounted(m, b, a, t) && Accounted(m, b', a', t')
    ensures Accounted(m, b + b', a + a', t + t')
  {
    TakenConcat(m, t, t');
  }

  lemma AccountedNone(m: Measure, sum: int)
    requires m.CountOf? ==> sum >= 0
    ensures Accounted(m, sum, sum, [])
  {}

  lemma FillAccounted(m: Measure, taker: Entry, maker: Entry, price: int, id: nat)
    requires maker.price == price && taker.remaining > 0 && maker.remaining > 0
    requires m.QuoteOf? ==> QuoteFits(price, maker.remaining)
    ensures var t := Fill(taker, maker, price, id);
            Accounted(m, Sum(m, [maker]), Sum(m, AfterFill(maker, t.quantity)), [t])
  {
    FillSplits(m, taker, maker, price, id);
    hide QuoteAmount, QuoteFits;
    var t := Fill(taker, maker, price, id);
    var after := AfterFill(maker, t.quantity);
    assert Taken(m, [t]) == Take(m, t) && Sum(m, [maker]) == Weight(m, maker);
    assert m.QuoteOf? ==> MakerTrades(m.user, [t]) == if maker.user == m.user then 1 else 0;
    if m.CountOf? {
      assert Hits(m.id, [t]) == if maker.id == m.id then 1 else 0;
      CountNonNegative(m, after);
    }
  }

  lemma SweepUnfold(queue: seq<Entry>, price: int, taker: Entry, nextId: nat)
    requires queue != [] && taker.remaining > 0
    ensures queue[0].user == taker.user ==>
      var r := Sweep(queue[1..], price, taker, nextId);
      Sweep(queue, price, taker, nextId) == r.(queue := [queue[0]] + r.queue)
    ensures queue[0].user != taker.user ==>
      var t := Fill(taker, queue[0], price, nextId);
      var r := Sweep(queue[1..], price, Reduce(taker, t.quantity), nextId + 1);
      Sweep(queue, price, taker, nextId) == Swept(AfterFill(queue[0], t.quantity) + r.queue, [t] + r.trades, r.taker)
  {}

  lemma {:induction false} SweepSums(m: Measure, side: Side, queue: seq<Entry>, price: int, taker: Entry, nextId: nat)
    requires QueueOk(side, price, queue)
    requires m.QuoteOf? ==> QueueFits(queue)
    ensures var r := Sweep(queue, price, taker, nextId); Accounted(m, Sum(m, queue), Sum(m, r.queue), r.trades)
  {
    if queue == [] || taker.remaining <= 0 {
      CountNonNegative(m, queue);
      AccountedNone(m, Sum(m, queue));
    } else {
      SweepUnfold(queue, price, taker, nextId);
      assert queue == [queue[0]] + queue[1..];
      SumConcat(m, [queue[0]], queue[1..]);
      assert EntryOk(side, price, queue[0]);
      hide Sweep, Sum, Accounted, QuoteFits;
      if queue[0].user == taker.user {
        var tail := Sweep(queue[1..], price, taker, nextId);
        SweepSums(m, side, queue[1..], price, taker, nextId);
        CountNonNegative(m, [queue[0]]);
        AccountedNone(m, Sum(m, [queue[0]]));
        AccountedConcat(m, Sum(m, [queue[0]]), Sum(m, [queue[0]]), [], Sum(m, queue[1..]), Sum(m, tail.queue),
            tail.trades);
        SumConcat(m, [queue[0]], tail.queue);
        assert [] + tail.trades == tail.trades;
      } else {
        var t := Fill(taker, queue[0], price, nextId);
        var after := AfterFill(queue[0], t.quantity);
        var tail := Sweep(queue[1..], price, Reduce(taker, t.quantity), nextId + 1);
        SweepSums(m, side, queue[1..], price, Reduce(taker, t.quantity), nextId + 1);
        FillAccounted(m, taker, queue[0], price, nextId);
        AccountedConcat(m, Sum(m, [queue[0]]), Sum(m, after), [t], Sum(m, queue[1..]), Sum(m, tail.queue), tail.trades);
        SumConcat(m, after, tail.queue);
      }
    }
  }

  lemma LadderSumHead(m: Measure, ladder: Ladder)
    requires ladder != []
    ensures LadderSum(m, ladder) == Sum(m, ladder[0].queue) + LadderSum(m, ladder[1..])
  {}

  /** Matching over a whole side of the book accounts for every measure. */
  lemma {:induction false} MatchSums(m: Measure, side: Side, ladder: Ladder, taker: Entry, nextId: nat)
    requires LadderOk(side, ladder)
    requires m.QuoteOf? ==> LadderFits(ladder)
    ensures var r := Match(ladder, taker, nextId);
            Accounted(m, LadderSum(m, ladder), LadderSum(m, r.ladder), r.trades)
  {
    hide Match, Sweep, Accounted, LadderSum, QueueFits;
    MatchUnfold(ladder, taker, nextId);
    var r := Match(ladder, taker, nextId);
    LadderCountNonNegative(m, ladder);
    if ladder == [] || taker.remaining <= 0 || !Reaches(taker, ladder[0].price) {
      AccountedNone(m, LadderSum(m, ladder));
    } else {
      var s := Sweep(ladder[0].queue, ladder[0].price, taker, nextId);
      SweepSums(m, side, ladder[0].queue, ladder[0].price, taker, nextId);
      LadderSumHead(m, ladder);
      var rest := LadderSum(m, ladder[1..]);
      if s.queue != [] {
        LadderCountNonNegative(m, ladder[1..]);
        LadderSumHead(m, r.ladder);
        assert r.ladder[1..] == ladder[1..];
        AccountedNone(m, rest);
        AccountedConcat(m, Sum(m, ladder[0].queue), Sum(m, s.queue), s.trades, rest, rest, []);
        assert s.trades + [] == s.trades;
      } else {
        var tail := Match(ladder[1..], s.taker, nextId + |s.trades|);
        MatchSums(m, side, ladder[1..], s.taker, nextId + |s.trades|);
        AccountedConcat(m, Sum(m, ladder[0].queue), Sum(m, s.queue), s.trades,
                        rest, LadderSum(m, tail.ladder), tail.trades);
        assert Sum(m, s.queue) == 0;
      }
    }
  }

  lemma {:induction false} LadderCountNonNegative(m: Measure, ladder: Ladder)
    ensures m.CountOf? ==> LadderSum(m, ladder) >= 0
  {
    if ladder != [] {
      CountNonNegative(m, ladder[0].queue);
      LadderCountNonNegative(m, ladder[1..]);
    }
  }

  lemma {:induction false} CountNonNegative(m: Measure, queue: seq<Entry>)
    ensures m.CountOf? ==> Sum(m, queue) >= 0
  {
    if queue != [] {
      CountNonNegative(m, queue[1..]);
    }
  }
}
