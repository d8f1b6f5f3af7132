/** Price-time priority and the other promises of the matcher, for every book and taker. */
module MatchingLaws {
  import opened Domain
  import opened Matching
  import opened Measures

  /** What every trade of a placement satisfies. */
  predicate TradeOk(taker: Entry, t: Trade) {
    && t.takerOrder == taker.id && t.takerUser == taker.user && t.makerUser != taker.user
    && t.quantity > 0 && Reaches(taker, t.price)
  }

  function Traded(trades: seq<Trade>): int {
    if trades == [] then 0 else trades[0].quantity + Traded(trades[1..])
  }

  lemma {:induction false} TradedConcat(a: seq<Trade>, b: seq<Trade>)
    ensures Traded(a + b) == Traded(a) + Traded(b)
  {
    if a == [] {
      assert a + b == b;
    } else {
      TradedConcat(a[1..], b);
      assert (a + b)[1..] == a[1..] + b;
    }
  }

  /** Only the remainder of the taker changes, and it falls by the traded quantity. */
  predicate TakerPays(taker: Entry, after: Entry, trades: seq<Trade>) {
    && after == taker.(remaining := after.remaining)
    && 0 <= after.remaining == taker.remaining - Traded(trades)
  }

  predicate TradesOk(taker: Entry, trades: seq<Trade>, nextId: nat) {
    forall k | 0 <= k < |trades| :: TradeOk(taker, trades[k]) && trades[k].id == nextId + k
  }

  // ---------- One level ----------

  lemma {:induction false} SweepFacts(side: Side, queue: seq<Entry>, price: int, taker: Entry, nextId: nat)
    requires QueueOk(side, price, queue) && taker.remaining >= 0 && Reaches(taker, price)
    ensures var r := Sweep(queue, price, taker, nextId);
            && QueueOk(side, price, r.queue)
            && TakerPays(taker, r.taker, r.trades)
            && TradesOk(taker, r.trades, nextId)
            && (forall k | 0 <= k < |r.trades| :: r.trades[k].price == price)
            && (r.trades == [] ==> r.queue == queue)
  {
    hide Sweep;
    var r := Sweep(queue, price, taker, nextId);
    if queue == [] || taker.remaining <= 0 {
      SweepNothing(queue, price, taker, nextId);
    } else if queue[0].user == taker.user {
      SweepUnfold(queue, price, taker, nextId);
      SweepFacts(side, queue[1..], price, taker, nextId);
      assert queue == [queue[0]] + queue[1..];
    } else {
      SweepUnfold(queue, price, taker, nextId);
      var t := Fill(taker, queue[0], price, nextId);
      SweepFacts(side, queue[1..], price, Reduce(taker, t.quantity), nextId + 1);
      var tail := Sweep(queue[1..], price, Reduce(taker, t.quantity), nextId + 1);
      assert r.trades[1..] == tail.trades;
      forall k | 0 <= k < |r.trades| ensures TradeOk(taker, r.trades[k]) && r.trades[k].id == nextId + k
      {
        assert k > 0 ==> r.trades[k] == tail.trades[k - 1];
      }
    }
  }

  lemma SweepNothing(queue: seq<Entry>, price: int, taker: Entry, nextId: nat)
    requires queue == [] || taker.remaining <= 0
    ensures Sweep(queue, price, taker, nextId) == Swept(queue, [], taker)
  {}

  predicate AllOf(queue: seq<Entry>, user: Uuid) {
    forall j | 0 <= j < |queue| :: queue[j].user == user
  }

  /** If the taker is not filled, what is left of the level is the taker's own. */
  lemma {:induction false} SweepLeavesOwn(queue: seq<Entry>, price: int, taker: Entry, nextId: nat)
    ensures var r := Sweep(queue, price, taker, nextId);
            r.taker.remaining > 0 ==> AllOf(r.queue, taker.user)
  {
    if queue == [] || taker.remaining <= 0 {
    } else if queue[0].user == taker.user {
      SweepLeavesOwn(queue[1..], price, taker, nextId);
      var tail := Sweep(queue[1..], price, taker, nextId);
      assert Sweep(queue, price, taker, nextId) == tail.(queue := [queue[0]] + tail.queue);
    } else {
      var t := Fill(taker, queue[0], price, nextId);
      SweepLeavesOwn(queue[1..], price, Reduce(taker, t.quantity), nextId + 1);
      SweepDone(queue[1..], price, Reduce(taker, t.quantity), nextId + 1);
    }
  }

  /** A filled taker, or a level of the taker's own orders, yields no trade. */
  lemma {:induction false} SweepDone(queue: seq<Entry>, price: int, taker: Entry, nextId: nat)
    ensures (taker.remaining <= 0 || AllOf(queue, taker.user))
        ==> Sweep(queue, price, taker, nextId) == Swept(queue, [], taker)
  {
    if queue != [] && taker.remaining > 0 && AllOf(queue, taker.user) {
      assert queue[0].user == taker.user;
      SweepDone(queue[1..], price, taker, nextId);
      assert queue == [queue[0]] + queue[1..];
    }
  }

  // ---------- Sweeping order by order ----------

  /** Sweeping all of a level is what is done so far followed by sweeping the orders to do. */
  ghost predicate SweptSoFar(whole: Swept, price: int, done: seq<Entry>, todo: seq<Entry>, trades: seq<Trade>,
                             taker: Entry, nextId: nat) {
    var r := Sweep(todo, price, taker, nextId);
    whole == Swept(done + r.queue, trades + r.trades, r.taker)
  }

  lemma SweepStarts(queue: seq<Entry>, price: int, taker: Entry, nextId: nat)
    ensures SweptSoFar(Sweep(queue, price, taker, nextId), price, [], queue, [], taker, nextId)
  {
    var r := Sweep(queue, price, taker, nextId);
    hide Sweep;
    assert [] + r.queue == r.queue && [] + r.trades == r.trades;
  }

  /** Passing over an own order. */
  lemma SweepSkips(whole: Swept, price: int, done: seq<Entry>, todo: seq<Entry>, trades: seq<Trade>, taker: Entry,
                   nextId: nat)
    requires SweptSoFar(whole, price, done, todo, trades, taker, nextId)
    requires todo != [] && taker.remaining > 0 && todo[0].user == taker.user
    ensures SweptSoFar(whole, price, done + [todo[0]], todo[1..], trades, taker, nextId)
  {
    var r := Sweep(todo[1..], price, taker, nextId);
    assert done + ([todo[0]] + r.queue) == done + [todo[0]] + r.queue;
  }

  /** Trading with the next order. */
  lemma SweepFills(whole: Swept, price: int, done: seq<Entry>, todo: seq<Entry>, trades: seq<Trade>, taker: Entry,
                   nextId: nat)
    requires SweptSoFar(whole, price, done, todo, trades, taker, nextId)
    requires todo != [] && taker.remaining > 0 && todo[0].user != taker.user
    ensures var t := Fill(taker, todo[0], price, nextId);
            SweptSoFar(whole, price, done + AfterFill(todo[0], t.quantity), todo[1..], trades + [t],
                Reduce(taker, t.quantity), nextId + 1)
  {
    var t := Fill(taker, todo[0], price, nextId);
    var r := Sweep(todo[1..], price, Reduce(taker, t.quantity), nextId + 1);
    assert done + (AfterFill(todo[0], t.quantity) + r.queue) == done + AfterFill(todo[0], t.quantity) + r.queue;
    assert trades + ([t] + r.trades) == trades + [t] + r.trades;
  }

  /** Nothing to do: the whole sweep has been done. */
  lemma SweepEnds(whole: Swept, price: int, done: seq<Entry>, todo: seq<Entry>, trades: seq<Trade>, taker: Entry,
                  nextId: nat)
    requires SweptSoFar(whole, price, done, todo, trades, taker, nextId)
    requires todo == [] || taker.remaining <= 0
    ensures whole == Swept(done + todo, trades, taker)
  {}

  // ---------- The whole side ----------

  /**
   Matching keeps the side well-formed, pays every trade out of the taker, trades only with
   other users and only within the taker's limit.
   */
  lemma {:induction false} MatchFacts(side: Side, ladder: Ladder, taker: Entry, nextId: nat)
    requires LadderOk(side, ladder) && taker.remaining >= 0
    ensures var r := Match(ladder, taker, nextId);
            && LadderOk(side, r.ladder)
            && TakerPays(taker, r.taker, r.trades)
            && TradesOk(taker, r.trades, nextId)
            && (r.trades == [] ==> r.ladder == ladder)
            && (r.ladder != [] ==>
                  && ladder != []
                  && (r.ladder[0].price == ladder[0].price || Better(side, ladder[0].price, r.ladder[0].price)))
  {
    MatchUnfold(ladder, taker, nextId);
    hide Match, Sweep, LadderOk, QueueOk, TradesOk, Better;
    var r := Match(ladder, taker, nextId);
    if ladder == [] || taker.remaining <= 0 || !Reaches(taker, ladder[0].price) {
      NoTradesOk(taker, nextId);
    } else {
      var s := Sweep(ladder[0].queue, ladder[0].price, taker, nextId);
      LadderTail(side, ladder);
      SweepFacts(side, ladder[0].queue, ladder[0].price, taker, nextId);
      SweepLeavesSomething(side, ladder[0].queue, ladder[0].price, taker, nextId);
      if s.queue != [] {
        FirstReplaced(side, ladder, s.queue);
        if r.trades == [] {
          assert r.ladder == [ladder[0]] + ladder[1..] == ladder;
        }
      } else {
        var tail := Match(ladder[1..], s.taker, nextId + |s.trades|);
        MatchFacts(side, ladder[1..], s.taker, nextId + |s.trades|);
        TradedConcat(s.trades, tail.trades);
        TradesConcat(taker, s.taker, s.trades, tail.trades, nextId);
        if tail.ladder != [] {
          SecondWorse(side, ladder, tail.ladder[0].price);
        }
      }
    }
  }

  lemma NoTradesOk(taker: Entry, nextId: nat)
    ensures TradesOk(taker, [], nextId)
  {}

  lemma FirstReplaced(side: Side, ladder: Ladder, queue: seq<Entry>)
    requires LadderOk(side, ladder) && ladder != [] && queue != [] && QueueOk(side, ladder[0].price, queue)
    ensures LadderOk(side, [Level(ladder[0].price, queue)] + ladder[1..])
  {
    assert ([Level(ladder[0].price, queue)] + ladder[1..])[1..] == ladder[1..];
  }

  lemma SecondWorse(side: Side, ladder: Ladder, price: int)
    requires LadderOk(side, ladder) && |ladder| > 1
    requires (price == ladder[1].price || Better(side, ladder[1].price, price))
    ensures Better(side, ladder[0].price, price)
  {}

  lemma TradesConcat(taker: Entry, after: Entry, a: seq<Trade>, b: seq<Trade>, nextId: nat)
    requires TradesOk(taker, a, nextId) && TradesOk(after, b, nextId + |a|)
    requires after == taker.(remaining := after.remaining)
    ensures TradesOk(taker, a + b, nextId)
  {
    forall k | 0 <= k < |a + b| ensures TradeOk(taker, (a + b)[k]) && (a + b)[k].id == nextId + k {
      if k >= |a| {
        assert TradeOk(after, b[k - |a|]) && (a + b)[k] == b[k - |a|];
      }
    }
  }

  lemma SweepLeavesSomething(side: Side, queue: seq<Entry>, price: int, taker: Entry, nextId: nat)
    requires QueueOk(side, price, queue) && queue != [] && taker.remaining >= 0 && Reaches(taker, price)
    ensures var r := Sweep(queue, price, taker, nextId); r.queue == [] ==> r.trades != []
  {
    SweepFacts(side, queue, price, taker, nextId);
  }

  /**
   When the taker keeps a remainder, the best level left either lies beyond its limit or
   holds only the taker's own orders.
   */
  lemma {:induction false} MatchStops(side: Side, ladder: Ladder, taker: Entry, nextId: nat)
    requires LadderOk(side, ladder) && taker.remaining >= 0
    ensures var r := Match(ladder, taker, nextId);
            r.taker.remaining > 0 && r.ladder != [] && Reaches(taker, r.ladder[0].price)
            ==> AllOf(r.ladder[0].queue, taker.user)
    ensures var r := Match(ladder, taker, nextId);
            forall n: nat :: Match(r.ladder, r.taker, n) == Matched(r.ladder, [], r.taker)
  {
    MatchUnfold(ladder, taker, nextId);
    hide Match, Sweep;
    var r := Match(ladder, taker, nextId);
    if ladder == [] || taker.remaining <= 0 || !Reaches(taker, ladder[0].price) {
    } else {
      var s := Sweep(ladder[0].queue, ladder[0].price, taker, nextId);
      SweepFacts(side, ladder[0].queue, ladder[0].price, taker, nextId);
      SweepLeavesOwn(ladder[0].queue, ladder[0].price, taker, nextId);
      if s.queue != [] {
        forall n: nat ensures Match(r.ladder, r.taker, n) == Matched(r.ladder, [], r.taker) {
          SweepDone(s.queue, ladder[0].price, s.taker, n);
          MatchUnfold(r.ladder, r.taker, n);
          assert r.ladder == [Level(ladder[0].price, s.queue)] + r.ladder[1..];
        }
      } else {
        MatchStops(side, ladder[1..], s.taker, nextId + |s.trades|);
      }
    }
    forall n: nat ensures Match(r.ladder, r.taker, n) == Matched(r.ladder, [], r.taker) {
      MatchUnfold(r.ladder, r.taker, n);
    }
  }

  // ---------- Matching level by level ----------

  /** The ladder once its first level has been swept down to `queue`. */
  function AfterFirst(ladder: Ladder, queue: seq<Entry>): Ladder
    requires ladder != []
  {
    if queue == [] then ladder[1..] else [Level(ladder[0].price, queue)] + ladder[1..]
  }

  /** Matching the whole side is what has been traded so far followed by matching what is left. */
  ghost predicate MatchedSoFar(whole: Matched, ladder: Ladder, trades: seq<Trade>, taker: Entry, nextId: nat) {
    var r := Match(ladder, taker, nextId);
    whole == Matched(r.ladder, trades + r.trades, r.taker)
  }

  lemma MatchStarts(ladder: Ladder, taker: Entry, nextId: nat)
    ensures MatchedSoFar(Match(ladder, taker, nextId), ladder, [], taker, nextId)
  {
    var r := Match(ladder, taker, nextId);
    hide Match;
    assert [] + r.trades == r.trades;
  }

  /** One level swept; after a sweep without a trade nothing more can be matched. */
  lemma MatchSweeps(whole: Matched, side: Side, ladder: Ladder, trades: seq<Trade>, taker: Entry, nextId: nat)
    requires LadderOk(side, ladder) && ladder != [] && taker.remaining > 0 && Reaches(taker, ladder[0].price)
    requires MatchedSoFar(whole, ladder, trades, taker, nextId)
    ensures var s := Sweep(ladder[0].queue, ladder[0].price, taker, nextId);
            var ladder' := AfterFirst(ladder, s.queue);
            && QueueOk(side, ladder[0].price, s.queue) && s.taker == taker.(remaining := s.taker.remaining)
            && s.taker.remaining >= 0 && (s.trades != [] ==> s.taker.remaining < taker.remaining)
            && MatchedSoFar(whole, ladder', trades + s.trades, s.taker, nextId + |s.trades|)
            && (s.trades == [] ==> Match(ladder', s.taker, nextId) == Matched(ladder', [], s.taker))
  {
    hide Match, Sweep, LadderOk, QueueOk, TradesOk, Better, Traded, TradeOk, Reaches;
    var s := Sweep(ladder[0].queue, ladder[0].price, taker, nextId);
    var n := nextId + |s.trades|;
    var ladder' := AfterFirst(ladder, s.queue);
    LadderTail(side, ladder);
    SweepFacts(side, ladder[0].queue, ladder[0].price, taker, nextId);
    SweepLeavesOwn(ladder[0].queue, ladder[0].price, taker, nextId);
    SweepDone(s.queue, ladder[0].price, s.taker, n);
    TradedPositive(taker, s.trades, nextId);
    MatchUnfold(ladder, taker, nextId);
    MatchUnfold(ladder', s.taker, n);
    var r := Match(ladder', s.taker, n);
    assert s.queue == [] ==> Match(ladder, taker, nextId) == Matched(r.ladder, s.trades + r.trades, r.taker);
    assert s.queue != [] ==>
      Match(ladder, taker, nextId) == Matched(ladder', s.trades, s.taker) && r == Matched(ladder', [], s.taker) by {
      assert s.queue != [] ==>
          ladder'[1..] == ladder[1..] && [Level(ladder[0].price, s.queue)] + ladder'[1..] == ladder';
    }
    assert trades + (s.trades + r.trades) == trades + s.trades + r.trades;
    assert s.trades + [] == s.trades;
  }

  lemma TradedPositive(taker: Entry, trades: seq<Trade>, nextId: nat)
    requires TradesOk(taker, trades, nextId)
    ensures Traded(trades) >= 0 && (trades != [] ==> Traded(trades) > 0)
  {
    if trades != [] {
      assert TradeOk(taker, trades[0]);
      TradedPositive(taker, trades[1..], nextId + 1);
    }
  }

  lemma MatchEnds(whole: Matched, ladder: Ladder, trades: seq<Trade>, taker: Entry, nextId: nat)
    requires MatchedSoFar(whole, ladder, trades, taker, nextId)
    requires Match(ladder, taker, nextId) == Matched(ladder, [], taker)
    ensures whole == Matched(ladder, trades, taker)
  {}

  // ---------- An independent definition: filling the makers in turn ----------

  /** The orders of other users, in queue order. */
  function Others(queue: seq<Entry>, user: Uuid): seq<Entry> {
    if queue == [] then []
    else (if queue[0].user == user then [] else [queue[0]]) + Others(queue[1..], user)
  }

  /**
   The orders a taker may trade with, in price-time order: those of other users at the levels
   its limit reaches, up to and including the first level that holds one of its own orders.
   */
  function Makers(ladder: Ladder, taker: Entry): seq<Entry> {
    if ladder == [] || !Reaches(taker, ladder[0].price) then []
    else
      var here := Others(ladder[0].queue, taker.user);
      if |here| < |ladder[0].queue| then here else here + Makers(ladder[1..], taker)
  }

  /** The volume ahead of maker `k`. */
  function Ahead(makers: seq<Entry>, k: nat): int
    requires k <= |makers|
  {
    Sum(Volume, makers[..k])
  }

  /** The trade of maker `k` when the makers before it have been filled. */
  function InTurn(makers: seq<Entry>, taker: Entry, nextId: nat, k: nat): Trade
    requires k < |makers|
  {
    Trade(nextId + k, makers[k].price, Min(makers[k].remaining, taker.remaining - Ahead(makers, k)),
          taker.id, makers[k].id, taker.user, makers[k].user)
  }

  /**
   Maker `k` trades exactly when the volume ahead of it does not fill the taker, and then for
   the smaller of its remainder and what is left of the taker; whatever volume the makers
   cannot supply is the taker's remainder.
   */
  predicate FilledInTurn(makers: seq<Entry>, taker: Entry, nextId: nat, trades: seq<Trade>, left: int) {
    && |trades| <= |makers|
    && (forall k | 0 <= k < |makers| :: k < |trades| <==> Ahead(makers, k) < taker.remaining)
    && (forall k | 0 <= k < |trades| :: trades[k] == InTurn(makers, taker, nextId, k))
    && left == (if Ahead(makers, |makers|) < taker.remaining then taker.remaining - Ahead(makers, |makers|) else 0)
  }

  lemma AheadStep(makers: seq<Entry>, k: nat)
    requires 0 < k <= |makers|
    ensures Ahead(makers, k) == makers[0].remaining + Ahead(makers[1..], k - 1)
  {
    assert makers[..k][1..] == makers[1..][..k - 1];
  }

  lemma {:induction false} AheadNonNegative(makers: seq<Entry>, k: nat)
    requires k <= |makers|
    requires forall e | e in makers :: e.remaining > 0
    ensures Ahead(makers, k) >= 0
    ensures k > 0 ==> Ahead(makers, k) > 0
  {
    SumNonNegative(Volume, makers[..k]);
    if k > 0 {
      AheadStep(makers, k);
      SumNonNegative(Volume, makers[1..][..k - 1]);
    }
  }

  lemma {:induction false} OthersOk(queue: seq<Entry>, side: Side, price: int, user: Uuid)
    requires QueueOk(side, price, queue)
    ensures forall e | e in Others(queue, user) :: e.price == price && e.remaining > 0 && e.user != user
    ensures |Others(queue, user)| <= |queue|
    ensures |Others(queue, user)| == |queue| ==> Others(queue, user) == queue
  {
    if queue != [] {
      OthersOk(queue[1..], side, price, user);
    }
  }

  lemma {:induction false} SweepFillsInTurn(side: Side, queue: seq<Entry>, price: int, taker: Entry, nextId: nat)
    requires QueueOk(side, price, queue) && taker.remaining >= 0
    ensures var r := Sweep(queue, price, taker, nextId);
            && FilledInTurn(Others(queue, taker.user), taker, nextId, r.trades, r.taker.remaining)
            && (taker.remaining > 0 ==>
                  (r.queue == [] <==>
                     |Others(queue, taker.user)| == |queue| && Ahead(queue, |queue|) <= taker.remaining))
  {
    var makers := Others(queue, taker.user);
    OthersOk(queue, side, price, taker.user);
    if queue == [] || taker.remaining <= 0 {
      FillNone(makers, taker, nextId);
    } else if queue[0].user == taker.user {
      SweepFillsInTurn(side, queue[1..], price, taker, nextId);
      OthersOk(queue[1..], side, price, taker.user);
      assert makers == Others(queue[1..], taker.user);
      assert Sweep(queue, price, taker, nextId).trades == Sweep(queue[1..], price, taker, nextId).trades;
      hide FilledInTurn;
    } else {
      var t := Fill(taker, queue[0], price, nextId);
      var taker' := Reduce(taker, t.quantity);
      SweepFillsInTurn(side, queue[1..], price, taker', nextId + 1);
      OthersOk(queue[1..], side, price, taker.user);
      assert makers[1..] == Others(queue[1..], taker.user);
      hide FilledInTurn;
      FillFirst(makers, taker, nextId, Sweep(queue[1..], price, taker', nextId + 1).trades,
                Sweep(queue[1..], price, taker', nextId + 1).taker.remaining);
      SweepEmpties(side, queue, price, taker, nextId);
    }
  }

  lemma SweepEmpties(side: Side, queue: seq<Entry>, price: int, taker: Entry, nextId: nat)
    requires QueueOk(side, price, queue) && taker.remaining > 0 && queue != [] && queue[0].user != taker.user
    requires var t := Fill(taker, queue[0], price, nextId);
             var r := Sweep(queue[1..], price, Reduce(taker, t.quantity), nextId + 1);
             Reduce(taker, t.quantity).remaining > 0 ==>
               (r.queue == [] <==>
                  && |Others(queue[1..], taker.user)| == |queue[1..]|
                  && Ahead(queue[1..], |queue[1..]|) <= taker.remaining - t.quantity)
    ensures Sweep(queue, price, taker, nextId).queue == []
       <==> |Others(queue, taker.user)| == |queue| && Ahead(queue, |queue|) <= taker.remaining
  {
    AheadStep(queue, |queue|);
    var t := Fill(taker, queue[0], price, nextId);
    SweepDone(queue[1..], price, Reduce(taker, t.quantity), nextId + 1);
    if Reduce(taker, t.quantity).remaining == 0 && |queue| > 1 {
      assert queue[1..][0].remaining > 0;
      AheadNonNegative(queue[1..], |queue[1..]|);
    }
  }

  lemma FillNone(makers: seq<Entry>, taker: Entry, nextId: nat)
    requires taker.remaining >= 0 && forall e | e in makers :: e.remaining > 0
    requires makers == [] || taker.remaining == 0
    ensures FilledInTurn(makers, taker, nextId, [], taker.remaining)
  {
    forall k | 0 <= k <= |makers| ensures Ahead(makers, k) >= 0 {
      AheadNonNegative(makers, k);
    }
  }

  /** Filling the first maker and then the others in turn is filling all of them in turn. */
  lemma FillFirst(makers: seq<Entry>, taker: Entry, nextId: nat, trades: seq<Trade>, left: int)
    requires makers != [] && taker.remaining > 0 && forall e | e in makers :: e.remaining > 0
    requires var t := Fill(taker, makers[0], makers[0].price, nextId);
             FilledInTurn(makers[1..], Reduce(taker, t.quantity), nextId + 1, trades, left)
    ensures FilledInTurn(makers, taker, nextId, [Fill(taker, makers[0], makers[0].price, nextId)] + trades, left)
  {
    var t := Fill(taker, makers[0], makers[0].price, nextId);
    var taker' := Reduce(taker, t.quantity);
    var all := [t] + trades;
    forall k | 0 <= k < |makers|
      ensures k < |all| <==> Ahead(makers, k) < taker.remaining
      ensures k < |all| ==> all[k] == InTurn(makers, taker, nextId, k)
    {
      if k > 0 {
        AheadStep(makers, k);
        AheadNonNegative(makers[1..], k - 1);
        assert makers[k] == makers[1..][k - 1];
        assert k - 1 < |trades| <==> Ahead(makers[1..], k - 1) < taker'.remaining;
        if k < |all| {
          assert all[k] == trades[k - 1];
        }
      }
    }
    AheadStep(makers, |makers|);
    AheadNonNegative(makers[1..], |makers| - 1);
  }

  lemma AheadFirst(a: seq<Entry>, b: seq<Entry>, k: nat)
    requires k <= |a|
    ensures Ahead(a + b, k) == Ahead(a, k)
  {
    assert (a + b)[..k] == a[..k];
  }

  lemma AheadSecond(a: seq<Entry>, b: seq<Entry>, k: nat)
    requires k <= |b|
    ensures Ahead(a + b, |a| + k) == Ahead(a, |a|) + Ahead(b, k)
  {
    assert (a + b)[..|a| + k] == a + b[..k] && a[..|a|] == a;
    SumConcat(Volume, a, b[..k]);
  }

  lemma AllFilled(a: seq<Entry>, taker: Entry, nextId: nat, s: seq<Trade>, mid: int)
    requires FilledInTurn(a, taker, nextId, s, mid) && 0 <= taker.remaining && Ahead(a, |a|) <= taker.remaining
    requires forall e | e in a :: e.remaining > 0
    ensures |s| == |a| && mid == taker.remaining - Ahead(a, |a|)
  {
    if |a| > 0 {
      var k := |a| - 1;
      assert a[..|a|] == a && a[..k] + [a[k]] == a;
      SumConcat(Volume, a[..k], [a[k]]);
      assert Sum(Volume, [a[k]]) == a[k].remaining;
      assert Ahead(a, k) + a[k].remaining == Ahead(a, |a|);
      assert k < |s| <==> Ahead(a, k) < taker.remaining;
    }
  }

  /** Filling a first group of makers completely and then a second is filling them all in turn. */
  lemma FillGroups(a: seq<Entry>, b: seq<Entry>, taker: Entry, nextId: nat, s: seq<Trade>, mid: int, t: seq<Trade>,
                   left: int)
    requires forall e | e in a + b :: e.remaining > 0
    requires taker.remaining >= 0
    requires FilledInTurn(a, taker, nextId, s, mid) && Ahead(a, |a|) <= taker.remaining
    requires FilledInTurn(b, taker.(remaining := mid), nextId + |s|, t, left)
    ensures FilledInTurn(a + b, taker, nextId, s + t, left)
  {
    hide Ahead;
    AllFilled(a, taker, nextId, s, mid);
    forall k | 0 <= k < |a + b|
      ensures k < |s + t| <==> Ahead(a + b, k) < taker.remaining
      ensures k < |s + t| ==> (s + t)[k] == InTurn(a + b, taker, nextId, k)
    {
      if k >= |a| {
        AheadSecond(a, b, k - |a|);
        assert k - |a| < |t| <==> Ahead(b, k - |a|) < mid;
        assert (a + b)[k] == b[k - |a|];
      } else {
        AheadFirst(a, b, k);
        assert k < |s| <==> Ahead(a, k) < taker.remaining;
      }
    }
    AheadSecond(a, b, |b|);
  }

  lemma {:induction false} MakersOk(side: Side, ladder: Ladder, taker: Entry)
    requires LadderOk(side, ladder)
    ensures forall e | e in Makers(ladder, taker) :: e.remaining > 0
  {
    if ladder == [] || !Reaches(taker, ladder[0].price) {
    } else {
      OthersOk(ladder[0].queue, side, ladder[0].price, taker.user);
      MakersOk(side, ladder[1..], taker);
    }
  }

  lemma MakersUnfold(ladder: Ladder, taker: Entry)
    ensures ladder == [] || !Reaches(taker, ladder[0].price) ==> Makers(ladder, taker) == []
    ensures ladder != [] && Reaches(taker, ladder[0].price) ==>
        var here := Others(ladder[0].queue, taker.user);
        Makers(ladder, taker) == if |here| < |ladder[0].queue| then here else here + Makers(ladder[1..], taker)
  {}

  /**
   The matcher's trades have a closed form: they fill the taker's possible makers in
   price-time order, each as far as the taker's quantity goes.
   */
  lemma {:induction false} MatchFillsInTurn(side: Side, ladder: Ladder, taker: Entry, nextId: nat)
    requires LadderOk(side, ladder) && taker.remaining >= 0
    ensures var r := Match(ladder, taker, nextId);
            FilledInTurn(Makers(ladder, taker), taker, nextId, r.trades, r.taker.remaining)
  {
    hide *;
    MatchUnfold(ladder, taker, nextId);
    MakersUnfold(ladder, taker);
    MakersOk(side, ladder, taker);
    if ladder == [] || taker.remaining == 0 || !Reaches(taker, ladder[0].price) {
      FillNone(Makers(ladder, taker), taker, nextId);
    } else {
      LadderTail(side, ladder);
      var queue := ladder[0].queue;
      var s := Sweep(queue, ladder[0].price, taker, nextId);
      var here := Others(queue, taker.user);
      SweepTaker(side, queue, ladder[0].price, taker, nextId);
      OthersOk(queue, side, ladder[0].price, taker.user);
      SweepFillsInTurn(side, queue, ladder[0].price, taker, nextId);
      if |here| == |queue| && s.queue == [] {
        var tail := Match(ladder[1..], s.taker, nextId + |s.trades|);
        MatchFillsInTurn(side, ladder[1..], s.taker, nextId + |s.trades|);
        MakersSame(ladder[1..], taker, s.taker);
        FillGroups(here, Makers(ladder[1..], taker), taker, nextId, s.trades, s.taker.remaining, tail.trades,
            tail.taker.remaining);
      } else if |here| == |queue| {
        FillBeyond(here, Makers(ladder[1..], taker), taker, nextId, s.trades, s.taker.remaining);
      }
    }
  }

  lemma LadderTail(side: Side, ladder: Ladder)
    requires LadderOk(side, ladder) && ladder != []
    ensures LadderOk(side, ladder[1..]) && ladder[0].queue != [] && QueueOk(side, ladder[0].price, ladder[0].queue)
  {}

  lemma SweepTaker(side: Side, queue: seq<Entry>, price: int, taker: Entry, nextId: nat)
    requires QueueOk(side, price, queue) && taker.remaining >= 0 && Reaches(taker, price)
    ensures var r := Sweep(queue, price, taker, nextId);
            r.taker == taker.(remaining := r.taker.remaining) && r.taker.remaining >= 0
  {
    SweepFacts(side, queue, price, taker, nextId);
  }

  lemma {:induction false} MakersSame(ladder: Ladder, a: Entry, b: Entry)
    requires b == a.(remaining := b.remaining)
    ensures Makers(ladder, a) == Makers(ladder, b)
  {
    if ladder != [] {
      MakersSame(ladder[1..], a, b);
    }
  }

  /** Once a first group of makers fills the taker, makers behind them change nothing. */
  lemma FillBeyond(a: seq<Entry>, b: seq<Entry>, taker: Entry, nextId: nat, s: seq<Trade>, left: int)
    requires forall e | e in a + b :: e.remaining > 0
    requires FilledInTurn(a, taker, nextId, s, left) && Ahead(a, |a|) > taker.remaining
    ensures FilledInTurn(a + b, taker, nextId, s, left)
  {
    forall k | 0 <= k <= |a| ensures Ahead(a + b, k) == Ahead(a, k) {
      assert (a + b)[..k] == a[..k];
    }
    forall k | |a| <= k <= |a + b| ensures Ahead(a + b, k) > taker.remaining {
      assert (a + b)[..k] == a + b[..k - |a|] && a[..|a|] == a;
      SumConcat(Volume, a, b[..k - |a|]);
      AheadNonNegative(b, k - |a|);
    }
    forall k | 0 <= k < |a + b| ensures k < |s| <==> Ahead(a + b, k) < taker.remaining {
      if k < |a| {
        assert k < |s| <==> Ahead(a, k) < taker.remaining;
      }
    }
  }

  // ---------- The answer ----------

  lemma {:induction false} SomeTraded(trades: seq<Trade>)
    requires forall k | 0 <= k < |trades| :: trades[k].quantity > 0
    ensures Traded(trades) >= 0 && (Traded(trades) == 0 <==> trades == [])
  {
    if trades != [] {
      SomeTraded(trades[1..]);
    }
  }

  /** The status tells how much of the order traded: all of it, some of it, or nothing. */
  lemma PlaceStatus(book: BookValue, taker: Entry, nextId: nat)
    requires BookOk(book) && taker.remaining == taker.quantity > 0
    ensures var r := PlaceOrder(book, taker, nextId);
            && r.status in {Filled, Partial, Placed} && 0 <= Traded(r.trades) <= taker.quantity
            && (r.status == Filled <==> Traded(r.trades) == taker.quantity)
            && (r.status == Partial <==> 0 < Traded(r.trades) < taker.quantity)
            && (r.status == Placed <==> r.trades == [])
  {
    var opposite := taker.side.Opposite();
    var m := Match(book.Of(opposite), taker, nextId);
    hide Match, LadderOk, Add, Traded;
    MatchFacts(opposite, book.Of(opposite), taker, nextId);
    SomeTraded(m.trades);
  }
}
