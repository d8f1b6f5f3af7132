/** Laws of the book's operations: priority by id, identity of orders, crossing, round trips. */
module BookLaws {
  import opened Domain
  import opened Matching
  import opened Measures
  import opened MatchingLaws

  // ---------- Orders by id ----------

  /** How many orders of the book carry an id. */
  function Count(book: BookValue, id: Uuid): int {
    BookSum(CountOf(id), book)
  }

  ghost predicate UniqueIds(book: BookValue) {
    forall id :: Count(book, id) <= 1
  }

  lemma {:induction false} CountAt(m: Measure, queue: seq<Entry>, j: nat)
    requires m.CountOf? && j < |queue|
    ensures Sum(m, queue) >= Weight(m, queue[j])
  {
    CountNonNegative(m, queue[1..]);
    if j > 0 {
      CountAt(m, queue[1..], j - 1);
    }
  }

  lemma {:induction false} FindInCount(queue: seq<Entry>, id: Uuid)
    ensures FindIn(queue, id) == None <==> Sum(CountOf(id), queue) == 0
  {
    if queue != [] {
      CountNonNegative(CountOf(id), queue[1..]);
      FindInCount(queue[1..], id);
    }
  }

  lemma {:induction false} FindCount(ladder: Ladder, id: Uuid)
    ensures Find(ladder, id) == None <==> LadderSum(CountOf(id), ladder) == 0
    ensures LadderSum(CountOf(id), ladder) >= 0
  {
    LadderCountNonNegative(CountOf(id), ladder);
    if ladder != [] {
      LadderCountNonNegative(CountOf(id), ladder[1..]);
      CountNonNegative(CountOf(id), ladder[0].queue);
      FindInCount(ladder[0].queue, id);
      FindCount(ladder[1..], id);
    }
  }

  lemma FindOrderCount(book: BookValue, id: Uuid)
    ensures book.FindOrder(id) == None <==> Count(book, id) == 0
    ensures Count(book, id) >= 0
  {
    FindCount(book.bids, id);
    FindCount(book.asks, id);
  }

  lemma FindOrderOk(book: BookValue, id: Uuid)
    requires BookOk(book) && book.FindOrder(id).Some?
    ensures var e := book.FindOrder(id).value;
            e.id == id && e.remaining > 0 && Find(book.Of(e.side), id) == Some(e)
  {
    if Find(book.bids, id).Some? {
      FindPrice(Buy, book.bids, id);
    } else {
      FindPrice(Sell, book.asks, id);
    }
  }

  lemma {:induction false} RestedIsFound(ladder: Ladder, e: Entry)
    requires Find(ladder, e.id) == None
    ensures Find(Add(ladder, e), e.id) == Some(e)
  {
    if ladder == [] || Better(e.side, e.price, ladder[0].price) {
    } else if ladder[0].price == e.price {
      AppendedIsFound(ladder[0].queue, e);
    } else {
      RestedIsFound(ladder[1..], e);
      assert Add(ladder, e)[1..] == Add(ladder[1..], e);
    }
  }

  lemma {:induction false} AppendedIsFound(queue: seq<Entry>, e: Entry)
    requires FindIn(queue, e.id) == None
    ensures FindIn(queue + [e], e.id) == Some(e)
    ensures Without(queue + [e], e.id) == queue
  {
    if queue != [] {
      AppendedIsFound(queue[1..], e);
      assert (queue + [e])[1..] == queue[1..] + [e];
    }
  }

  // ---------- Price-time priority ----------

  lemma {:induction false} SweepPriority(side: Side, queue: seq<Entry>, price: int, taker: Entry, nextId: nat, j: nat,
                                         j': nat)
    requires QueueOk(side, price, queue) && j < j' < |queue| && queue[j].user != taker.user
    requires Sum(CountOf(queue[j].id), queue) <= 1 && Sum(CountOf(queue[j'].id), queue) <= 1
    requires Hits(queue[j'].id, Sweep(queue, price, taker, nextId).trades) > 0
    ensures Sum(CountOf(queue[j].id), Sweep(queue, price, taker, nextId).queue) == 0
  {
    var a, b := CountOf(queue[j].id), CountOf(queue[j'].id);
    var tail := queue[1..];
    CountAt(b, tail, j' - 1);
    if queue[0].user == taker.user {
      CountAt(a, tail, j - 1);
      SweepPriority(side, tail, price, taker, nextId, j - 1, j' - 1);
      assert Sweep(queue, price, taker, nextId).queue[1..] == Sweep(tail, price, taker, nextId).queue;
    } else {
      var t := Fill(taker, queue[0], price, nextId);
      var taker' := Reduce(taker, t.quantity);
      var s := Sweep(tail, price, taker', nextId + 1);
      assert Sweep(queue, price, taker, nextId).trades[1..] == s.trades;
      assert t.quantity == queue[0].remaining && AfterFill(queue[0], t.quantity) + s.queue == s.queue;
      if j == 0 {
        SweepCounts(a.id, side, tail, price, taker', nextId + 1);
      } else {
        CountAt(a, tail, j - 1);
        SweepPriority(side, tail, price, taker', nextId + 1, j - 1, j' - 1);
      }
    }
  }

  /** Position (i, j) of a ladder comes before position (i', j') in price-time order. */
  predicate Precedes(i: nat, j: nat, i': nat, j': nat) {
    i < i' || (i == i' && j < j')
  }

  predicate At(ladder: Ladder, i: nat, j: nat) {
    i < |ladder| && j < |ladder[i].queue|
  }

  lemma {:induction false} LadderCountAt(m: Measure, ladder: Ladder, i: nat, j: nat)
    requires m.CountOf? && At(ladder, i, j)
    ensures LadderSum(m, ladder) >= Weight(m, ladder[i].queue[j])
    ensures i == 0 ==> Sum(m, ladder[0].queue) >= Weight(m, ladder[i].queue[j])
    ensures i > 0 ==> LadderSum(m, ladder[1..]) >= Weight(m, ladder[i].queue[j])
  {
    CountNonNegative(m, ladder[0].queue);
    LadderCountNonNegative(m, ladder[1..]);
    if i == 0 {
      CountAt(m, ladder[0].queue, j);
    } else {
      LadderCountAt(m, ladder[1..], i - 1, j);
    }
  }

  /** An order of another user precedes one that trades, and both ids occur once. */
  predicate Overtaken(ladder: Ladder, taker: Entry, nextId: nat, i: nat, j: nat, i': nat, j': nat) {
    && At(ladder, i, j) && At(ladder, i', j') && Precedes(i, j, i', j')
    && ladder[i].queue[j].user != taker.user
    && LadderSum(CountOf(ladder[i].queue[j].id), ladder) <= 1
    && LadderSum(CountOf(ladder[i'].queue[j'].id), ladder) <= 1
    && Hits(ladder[i'].queue[j'].id, Match(ladder, taker, nextId).trades) > 0
  }

  /**
   No order trades while an order of another user before it in price-time order is left:
   if the order at (i', j') trades, every such order before it is filled and off the book.
   */
  lemma {:induction false} MatchPriority(side: Side, ladder: Ladder, taker: Entry, nextId: nat, i: nat, j: nat, i': nat,
                                         j': nat)
    requires LadderOk(side, ladder) && taker.remaining >= 0
    requires Overtaken(ladder, taker, nextId, i, j, i', j')
    ensures LadderSum(CountOf(ladder[i].queue[j].id), Match(ladder, taker, nextId).ladder) == 0
  {
    hide Match, Sweep, Sum, LadderOk, Hits, LadderSum, QueueOk, Reaches;
    var id, id' := ladder[i].queue[j].id, ladder[i'].queue[j'].id;
    var queue, rest := ladder[0].queue, ladder[1..];
    var s := Sweep(queue, ladder[0].price, taker, nextId);
    LadderTail(side, ladder);
    assert taker.remaining > 0 && Reaches(taker, ladder[0].price) by {
      MatchUnfold(ladder, taker, nextId);
      NoHits(id');
    }
    FirstLevelCounts(side, ladder, taker, nextId, i, j);
    FirstLevelCounts(side, ladder, taker, nextId, i', j');
    SweepTaker(side, queue, ladder[0].price, taker, nextId);
    if i' == 0 {
      SweepPriority(side, queue, ladder[0].price, taker, nextId, j, j');
    } else if i > 0 {
      MatchPriority(side, rest, s.taker, nextId + |s.trades|, i - 1, j, i' - 1, j');
    }
  }

  lemma FirstLevelCount(ladder: Ladder, i: nat, j: nat)
    requires At(ladder, i, j) && LadderSum(CountOf(ladder[i].queue[j].id), ladder) <= 1
    ensures var m := CountOf(ladder[i].queue[j].id);
            && Sum(m, ladder[0].queue) == (if i == 0 then 1 else 0)
            && LadderSum(m, ladder[1..]) == (if i == 0 then 0 else 1)
  {
    var m := CountOf(ladder[i].queue[j].id);
    LadderCountAt(m, ladder, i, j);
    CountNonNegative(m, ladder[0].queue);
    LadderCountNonNegative(m, ladder[1..]);
    LadderSumHead(m, ladder);
    hide Sum, LadderSum;
  }

  /** How the counts and hits of the order at (i, j) split between the first level and the rest. */
  lemma FirstLevelCounts(side: Side, ladder: Ladder, taker: Entry, nextId: nat, i: nat, j: nat)
    requires LadderOk(side, ladder) && At(ladder, i, j) && taker.remaining > 0 && Reaches(taker, ladder[0].price)
    requires LadderSum(CountOf(ladder[i].queue[j].id), ladder) <= 1
    ensures var id, r, s :=
        ladder[i].queue[j].id, Match(ladder, taker, nextId), Sweep(ladder[0].queue, ladder[0].price, taker, nextId);
            var tail := Match(ladder[1..], s.taker, nextId + |s.trades|);
            && Sum(CountOf(id), ladder[0].queue) == (if i == 0 then 1 else 0)
            && LadderSum(CountOf(id), ladder[1..]) == (if i == 0 then 0 else 1)
            && (i == 0 && (s.queue == [] || Sum(CountOf(id), s.queue) == 0) ==> LadderSum(CountOf(id), r.ladder) == 0)
            && (i == 0 ==> Hits(id, r.trades) <= Hits(id, s.trades))
            && (i > 0 && Hits(id, r.trades) > 0 ==>
              s.queue == [] && r.ladder == tail.ladder && Hits(id, r.trades) == Hits(id, tail.trades))
  {
    hide Match, Sweep, Sum, LadderOk, Hits, LadderSum, QueueOk, Reaches;
    var m := CountOf(ladder[i].queue[j].id);
    var s := Sweep(ladder[0].queue, ladder[0].price, taker, nextId);
    var rest, n := ladder[1..], nextId + |s.trades|;
    FirstLevelCount(ladder, i, j);
    LadderTail(side, ladder);
    MatchUnfold(ladder, taker, nextId);
    SweepCounts(m.id, side, ladder[0].queue, ladder[0].price, taker, nextId);
    if s.queue != [] {
      var first := [Level(ladder[0].price, s.queue)] + rest;
      LadderSumHead(m, first);
      assert first[1..] == rest;
    } else {
      MatchCounts(m.id, side, rest, s.taker, n);
      HitsConcat(m.id, s.trades, Match(rest, s.taker, n).trades);
    }
  }

  lemma NoHits(id: Uuid)
    ensures Hits(id, []) == 0
  {}

  lemma {:induction false} HitsConcat(id: Uuid, a: seq<Trade>, b: seq<Trade>)
    ensures Hits(id, a + b) == Hits(id, a) + Hits(id, b)
  {
    TakenConcat(CountOf(id), a, b);
  }

  lemma SweepCounts(id: Uuid, side: Side, queue: seq<Entry>, price: int, taker: Entry, nextId: nat)
    requires QueueOk(side, price, queue)
    ensures var r := Sweep(queue, price, taker, nextId);
            0 <= Sum(CountOf(id), r.queue) <= Sum(CountOf(id), queue) && Hits(id, r.trades) <= Sum(CountOf(id), queue)
  {
    var r := Sweep(queue, price, taker, nextId);
    SweepSums(CountOf(id), side, queue, price, taker, nextId);
    CountNonNegative(CountOf(id), r.queue);
    TakenCount(id, r.trades);
  }

  /** Within one placement no order is traded against twice, and no order appears. */
  lemma MatchCounts(id: Uuid, side: Side, ladder: Ladder, taker: Entry, nextId: nat)
    requires LadderOk(side, ladder)
    ensures var r := Match(ladder, taker, nextId);
            && 0 <= LadderSum(CountOf(id), r.ladder) <= LadderSum(CountOf(id), ladder)
            && Hits(id, r.trades) <= LadderSum(CountOf(id), ladder)
  {
    var r := Match(ladder, taker, nextId);
    MatchSums(CountOf(id), side, ladder, taker, nextId);
    LadderCountNonNegative(CountOf(id), r.ladder);
    TakenCount(id, r.trades);
  }

  // ---------- Arrival order ----------

  /** The position at which an order arrived; orders never placed come after all others. */
  function Arrival(placed: seq<Uuid>, id: Uuid): nat {
    if placed == [] then 0 else if placed[0] == id then 0 else 1 + Arrival(placed[1..], id)
  }

  /** The queue's orders arrived one after the other, all of them later than `n`. */
  predicate InArrivalOrder(queue: seq<Entry>, placed: seq<Uuid>, n: int) {
    queue == [] ||
    (n < Arrival(placed, queue[0].id) < |placed| && InArrivalOrder(queue[1..], placed, Arrival(placed, queue[0].id)))
  }

  predicate LadderInArrivalOrder(ladder: Ladder, placed: seq<Uuid>) {
    forall i | 0 <= i < |ladder| :: InArrivalOrder(ladder[i].queue, placed, -1)
  }

  lemma InArrivalOrderWeaken(queue: seq<Entry>, placed: seq<Uuid>, n: int, n': int)
    requires InArrivalOrder(queue, placed, n) && n' <= n
    ensures InArrivalOrder(queue, placed, n')
  {}

  /** In a queue in arrival order, an earlier position means an earlier arrival. */
  lemma {:induction false} InArrivalOrderMeans(queue: seq<Entry>, placed: seq<Uuid>, n: int, j: nat, j': nat)
    requires InArrivalOrder(queue, placed, n) && j < |queue| && j' < |queue|
    ensures n < Arrival(placed, queue[j].id) < |placed|
    ensures j < j' <==> Arrival(placed, queue[j].id) < Arrival(placed, queue[j'].id)
  {
    var first := Arrival(placed, queue[0].id);
    if j > 0 && j' > 0 {
      InArrivalOrderMeans(queue[1..], placed, first, j - 1, j' - 1);
    } else if j > 0 {
      InArrivalOrderMeans(queue[1..], placed, first, j - 1, j - 1);
    } else if j' > 0 {
      InArrivalOrderMeans(queue[1..], placed, first, j' - 1, j' - 1);
    }
  }

  lemma {:induction false} SweepKeepsOrder(queue: seq<Entry>, price: int, taker: Entry, nextId: nat, placed: seq<Uuid>,
                                           n: int)
    requires InArrivalOrder(queue, placed, n)
    ensures InArrivalOrder(Sweep(queue, price, taker, nextId).queue, placed, n)
  {
    if queue == [] || taker.remaining <= 0 {
    } else if queue[0].user == taker.user {
      SweepKeepsOrder(queue[1..], price, taker, nextId, placed, Arrival(placed, queue[0].id));
      assert Sweep(queue, price, taker, nextId).queue[1..] == Sweep(queue[1..], price, taker, nextId).queue;
    } else {
      var t := Fill(taker, queue[0], price, nextId);
      var taker' := Reduce(taker, t.quantity);
      var kept := Sweep(queue[1..], price, taker', nextId + 1).queue;
      SweepKeepsOrder(queue[1..], price, taker', nextId + 1, placed, Arrival(placed, queue[0].id));
      InArrivalOrderWeaken(kept, placed, Arrival(placed, queue[0].id), n);
      if t.quantity != queue[0].remaining {
        assert ([Reduce(queue[0], t.quantity)] + kept)[1..] == kept;
      } else {
        assert [] + kept == kept;
      }
    }
  }

  lemma {:induction false} MatchKeepsOrder(ladder: Ladder, taker: Entry, nextId: nat, placed: seq<Uuid>)
    requires LadderInArrivalOrder(ladder, placed)
    ensures LadderInArrivalOrder(Match(ladder, taker, nextId).ladder, placed)
  {
    MatchUnfold(ladder, taker, nextId);
    hide Match, Sweep;
    if ladder == [] || taker.remaining <= 0 || !Reaches(taker, ladder[0].price) {
    } else {
      var s := Sweep(ladder[0].queue, ladder[0].price, taker, nextId);
      SweepKeepsOrder(ladder[0].queue, ladder[0].price, taker, nextId, placed, -1);
      if s.queue == [] {
        MatchKeepsOrder(ladder[1..], s.taker, nextId + |s.trades|, placed);
      }
    }
  }

  lemma {:induction false} ArrivalGrows(placed: seq<Uuid>, id: Uuid, x: Uuid)
    ensures Arrival(placed, x) < |placed| ==> Arrival(placed + [id], x) == Arrival(placed, x)
    ensures x !in placed ==> Arrival(placed, x) == |placed| && (x == id ==> Arrival(placed + [id], x) == |placed|)
  {
    if placed != [] {
      assert (placed + [id])[1..] == placed[1..] + [id];
      ArrivalGrows(placed[1..], id, x);
    }
  }

  lemma {:induction false} OrderGrows(queue: seq<Entry>, placed: seq<Uuid>, id: Uuid, n: int)
    requires InArrivalOrder(queue, placed, n)
    ensures InArrivalOrder(queue, placed + [id], n)
  {
    if queue != [] {
      ArrivalGrows(placed, id, queue[0].id);
      OrderGrows(queue[1..], placed, id, Arrival(placed, queue[0].id));
    }
  }

  lemma {:induction false} AppendKeepsOrder(queue: seq<Entry>, e: Entry, placed: seq<Uuid>, n: int)
    requires InArrivalOrder(queue, placed, n) && e.id !in placed && n < |placed|
    ensures InArrivalOrder(queue + [e], placed + [e.id], n)
  {
    if queue == [] {
      ArrivalGrows(placed, e.id, e.id);
      assert [e][1..] == [];
    } else {
      ArrivalGrows(placed, e.id, queue[0].id);
      AppendKeepsOrder(queue[1..], e, placed, Arrival(placed, queue[0].id));
      assert (queue + [e])[1..] == queue[1..] + [e];
    }
  }

  lemma {:induction false} AddKeepsOrder(ladder: Ladder, e: Entry, placed: seq<Uuid>)
    requires LadderInArrivalOrder(ladder, placed) && e.id !in placed
    ensures LadderInArrivalOrder(Add(ladder, e), placed + [e.id])
  {
    forall i | 0 <= i < |ladder| ensures InArrivalOrder(ladder[i].queue, placed + [e.id], -1) {
      OrderGrows(ladder[i].queue, placed, e.id, -1);
    }
    if ladder == [] || Better(e.side, e.price, ladder[0].price) {
      AppendKeepsOrder([], e, placed, -1);
      assert [] + [e] == [e];
    } else if ladder[0].price == e.price {
      AppendKeepsOrder(ladder[0].queue, e, placed, -1);
    } else {
      AddKeepsOrder(ladder[1..], e, placed);
    }
  }

  lemma {:induction false} WithoutKeepsOrder(queue: seq<Entry>, id: Uuid, placed: seq<Uuid>, n: int)
    requires InArrivalOrder(queue, placed, n)
    ensures InArrivalOrder(Without(queue, id), placed, n)
  {
    if queue != [] {
      if queue[0].id == id {
        InArrivalOrderWeaken(queue[1..], placed, Arrival(placed, queue[0].id), n);
      } else {
        WithoutKeepsOrder(queue[1..], id, placed, Arrival(placed, queue[0].id));
        assert Without(queue, id)[1..] == Without(queue[1..], id);
      }
    }
  }

  lemma {:induction false} RemoveKeepsOrder(ladder: Ladder, price: int, id: Uuid, placed: seq<Uuid>)
    requires LadderInArrivalOrder(ladder, placed)
    ensures LadderInArrivalOrder(Remove(ladder, price, id), placed)
  {
    if ladder != [] {
      if ladder[0].price == price {
        WithoutKeepsOrder(ladder[0].queue, id, placed, -1);
      } else {
        RemoveKeepsOrder(ladder[1..], price, id, placed);
      }
    }
  }

  // ---------- Crossing ----------

  predicate Uncrossed(book: BookValue) {
    book.bids == [] || book.asks == [] || book.bids[0].price < book.asks[0].price
  }

  /** No order of `user` rests on the ladder. */
  predicate Avoids(ladder: Ladder, user: Uuid) {
    forall i, j | 0 <= i < |ladder| && 0 <= j < |ladder[i].queue| :: ladder[i].queue[j].user != user
  }

  /** The taker's limit reaches a level that holds an order of its own user. */
  predicate OwnReached(ladder: Ladder, taker: Entry) {
    exists i, j :: 0 <= i < |ladder| && 0 <= j < |ladder[i].queue|
                   && Reaches(taker, ladder[i].price) && ladder[i].queue[j].user == taker.user
  }

  /** The orders the taker may trade with do not fill it. */
  predicate Outlasts(taker: Entry, ladder: Ladder) {
    Ahead(Makers(ladder, taker), |Makers(ladder, taker)|) < taker.remaining
  }

  lemma {:induction false} OthersAll(queue: seq<Entry>, user: Uuid)
    ensures |Others(queue, user)| <= |queue|
    ensures |Others(queue, user)| == |queue| <==> forall j | 0 <= j < |queue| :: queue[j].user != user
  {
    if queue != [] {
      OthersAll(queue[1..], user);
      assert forall j | 0 < j < |queue| :: queue[1..][j - 1] == queue[j];
    }
  }

  lemma OwnReachedSplit(side: Side, ladder: Ladder, taker: Entry)
    requires LadderOk(side, ladder) && taker.side == side.Opposite() && ladder != []
    ensures !Reaches(taker, ladder[0].price) ==> !OwnReached(ladder, taker)
    ensures Reaches(taker, ladder[0].price) ==>
      (OwnReached(ladder, taker) <==>
         |Others(ladder[0].queue, taker.user)| != |ladder[0].queue| || OwnReached(ladder[1..], taker))
  {
    var rest := ladder[1..];
    OthersAll(ladder[0].queue, taker.user);
    assert forall i | 0 < i < |ladder| :: Better(side, ladder[0].price, ladder[i].price) && rest[i - 1] == ladder[i];
    if i, j :| 0 <= i < |rest| && 0 <= j < |rest[i].queue|
               && Reaches(taker, rest[i].price) && rest[i].queue[j].user == taker.user {
      assert ladder[i + 1].queue[j].user == taker.user;
    }
    if i, j :| 0 <= i < |ladder| && 0 <= j < |ladder[i].queue|
               && Reaches(taker, ladder[i].price) && ladder[i].queue[j].user == taker.user && i > 0 {
      assert rest[i - 1].queue[j].user == taker.user;
    }
  }

  /** If something of the taker is left, its limit still reaches the best level left just if it reached an own order. */
  lemma {:induction false} LeftReaches(side: Side, ladder: Ladder, taker: Entry, nextId: nat)
    requires LadderOk(side, ladder) && taker.side == side.Opposite() && taker.remaining >= 0
    requires Match(ladder, taker, nextId).taker.remaining > 0
    ensures var left := Match(ladder, taker, nextId).ladder;
            left != [] && Reaches(taker, left[0].price) <==> OwnReached(ladder, taker)
  {
    hide Match, Sweep, LadderOk, QueueOk, Reaches, OwnReached, Others, Ahead, FilledInTurn;
    MatchUnfold(ladder, taker, nextId);
    if ladder == [] {
      NothingReached(taker);
    } else {
      OwnReachedSplit(side, ladder, taker);
      if taker.remaining > 0 && Reaches(taker, ladder[0].price) {
        var queue := ladder[0].queue;
        var s := Sweep(queue, ladder[0].price, taker, nextId);
        LadderTail(side, ladder);
        SweepTaker(side, queue, ladder[0].price, taker, nextId);
        var n := nextId + |s.trades|;
        MatchUnfold(ladder[1..], s.taker, n);
        OwnLeft(side, queue, ladder[0].price, taker, nextId);
        if s.queue == [] {
          LeftReaches(side, ladder[1..], s.taker, n);
          SameLimit(ladder[1..], taker, s.taker);
          SameLimit(Match(ladder[1..], s.taker, n).ladder, taker, s.taker);
        }
      }
    }
  }

  lemma NothingReached(taker: Entry)
    ensures !OwnReached([], taker)
  {}

  lemma SameLimit(ladder: Ladder, taker: Entry, after: Entry)
    requires after == taker.(remaining := after.remaining)
    ensures OwnReached(ladder, taker) <==> OwnReached(ladder, after)
    ensures forall price :: Reaches(taker, price) <==> Reaches(after, price)
  {}

  /** A level that does not fill the taker is emptied just if none of its orders is the taker's own. */
  lemma OwnLeft(side: Side, queue: seq<Entry>, price: int, taker: Entry, nextId: nat)
    requires QueueOk(side, price, queue) && taker.remaining > 0
    requires Sweep(queue, price, taker, nextId).taker.remaining > 0
    ensures Sweep(queue, price, taker, nextId).queue == [] <==> |Others(queue, taker.user)| == |queue|
  {
    hide Sweep, Others, Ahead;
    SweepFillsInTurn(side, queue, price, taker, nextId);
    OthersOk(queue, side, price, taker.user);
  }

  /**
   When a placement crosses the book: exactly if the taker's limit reaches an order of its own user,
   and the orders it may trade with, up to that level, do not fill it.
   */
  lemma PlaceUncrossedIff(book: BookValue, taker: Entry, nextId: nat)
    requires BookOk(book) && Uncrossed(book) && taker.remaining > 0
    ensures var ladder := book.Of(taker.side.Opposite());
            Uncrossed(PlaceOrder(book, taker, nextId).book) <==> !(OwnReached(ladder, taker) && Outlasts(taker, ladder))
  {
    hide Match, LadderOk, OwnReached, Makers, Ahead, TradesOk, PlaceOrder, Add;
    var opposite := taker.side.Opposite();
    var ladder, own := book.Of(opposite), book.Of(taker.side);
    var m := Match(ladder, taker, nextId);
    BookOkSides(book, taker.side);
    MatchFacts(opposite, ladder, taker, nextId);
    MatchFillsInTurn(opposite, ladder, taker, nextId);
    PlaceUnfold(book, taker, nextId);
    if m.taker.remaining > 0 {
      LeftReaches(opposite, ladder, taker, nextId);
      AddOk(taker.side, own, m.taker);
    }
  }

  /** So a placement keeps the book uncrossed if none of its user's orders rests on the other side. */
  lemma PlaceKeepsUncrossed(book: BookValue, taker: Entry, nextId: nat)
    requires BookOk(book) && taker.remaining > 0 && Uncrossed(book)
    requires Avoids(book.Of(taker.side.Opposite()), taker.user)
    ensures Uncrossed(PlaceOrder(book, taker, nextId).book)
  {
    PlaceUncrossedIff(book, taker, nextId);
  }

  // ---------- Place and Cancel keep the book well-formed ----------

  lemma PlaceOk(book: BookValue, taker: Entry, nextId: nat)
    requires BookOk(book) && taker.remaining >= 0
    ensures BookOk(PlaceOrder(book, taker, nextId).book)
  {
    var opposite := taker.side.Opposite();
    var r := Match(book.Of(opposite), taker, nextId);
    hide Match, LadderOk, BookOk, Add, TradesOk, PlaceOrder, BookValue.Of;
    BookOkSides(book, taker.side);
    MatchFacts(opposite, book.Of(opposite), taker, nextId);
    PlaceUnfold(book, taker, nextId);
    if r.taker.remaining > 0 {
      AddOk(taker.side, book.Of(taker.side), r.taker);
    }
    BookOkSides(PlaceOrder(book, taker, nextId).book, taker.side);
  }

  lemma CancelOk(book: BookValue, id: Uuid)
    requires BookOk(book)
    ensures match CancelOrder(book, id)
            case None => Count(book, id) == 0
            case Some((after, e)) => BookOk(after) && e.id == id && e.remaining > 0
  {
    FindOrderCount(book, id);
    if book.FindOrder(id).Some? {
      var e := book.FindOrder(id).value;
      FindOrderOk(book, id);
      RemoveQueueAt(e.side, book.Of(e.side), e.price, id);
    }
  }

  /** A placement adds at most the taker's own id, a cancellation adds none. */
  lemma PlaceCount(book: BookValue, taker: Entry, nextId: nat, id: Uuid)
    requires BookOk(book) && taker.remaining >= 0
    ensures 0 <= Count(PlaceOrder(book, taker, nextId).book, id) <= Count(book, id) + if id == taker.id then 1 else 0
  {
    hide Match, LadderOk, LadderSum, Add, TradesOk, Traded, BookValue.FindOrder;
    var opposite := taker.side.Opposite();
    var r := Match(book.Of(opposite), taker, nextId);
    MatchFacts(opposite, book.Of(opposite), taker, nextId);
    MatchCounts(id, opposite, book.Of(opposite), taker, nextId);
    AddSum(CountOf(id), book.Of(taker.side), r.taker);
    FindOrderCount(PlaceOrder(book, taker, nextId).book, id);
  }

  /** A new order is found afterwards exactly if it is not filled, as it came but for what traded. */
  lemma PlaceFinds(book: BookValue, taker: Entry, nextId: nat)
    requires BookOk(book) && taker.remaining == taker.quantity > 0 && book.FindOrder(taker.id) == None
    ensures var r := PlaceOrder(book, taker, nextId);
            r.book.FindOrder(taker.id) == if r.status == Filled then None
              else Some(taker.(remaining := taker.quantity - Traded(r.trades)))
  {
    var side, opposite := taker.side, taker.side.Opposite();
    var m, r := Match(book.Of(opposite), taker, nextId), PlaceOrder(book, taker, nextId);
    hide Match, LadderOk, LadderSum, Add, Find, Traded;
    BookOkSides(book, side);
    FoundOn(book, side, taker.id);
    MatchFacts(opposite, book.Of(opposite), taker, nextId);
    MatchCounts(taker.id, opposite, book.Of(opposite), taker, nextId);
    FindCount(book.Of(opposite), taker.id);
    FindCount(m.ladder, taker.id);
    PlaceUnfold(book, taker, nextId);
    if m.taker.remaining != 0 {
      RestedIsFound(book.Of(side), m.taker);
    }
    FoundOn(r.book, side, taker.id);
  }

  lemma FoundOn(book: BookValue, side: Side, id: Uuid)
    ensures var own, other := Find(book.Of(side), id), Find(book.Of(side.Opposite()), id);
            && (own == None ==> book.FindOrder(id) == other) && (other == None ==> book.FindOrder(id) == own)
  {
    hide Find;
  }

  lemma {:induction false} TakenCount(id: Uuid, trades: seq<Trade>)
    ensures Taken(CountOf(id), trades) == 0
  {
    if trades != [] {
      TakenCount(id, trades[1..]);
    }
  }

  lemma CancelCount(book: BookValue, id: Uuid, x: Uuid)
    requires BookOk(book) && CancelOrder(book, id).Some?
    ensures Count(CancelOrder(book, id).value.0, x) == Count(book, x) - if x == id then 1 else 0
  {
    var e := book.FindOrder(id).value;
    FindOrderOk(book, id);
    RemoveSum(CountOf(x), e.side, book.Of(e.side), id);
  }

  // ---------- Placing and cancelling ----------

  /** Cancelling an order that rested without trading gives back the very book it came to. */
  lemma PlaceThenCancel(book: BookValue, taker: Entry, nextId: nat)
    requires BookOk(book) && taker.remaining > 0 && Count(book, taker.id) == 0
    requires PlaceOrder(book, taker, nextId).trades == []
    ensures CancelOrder(PlaceOrder(book, taker, nextId).book, taker.id) == Some((book, taker))
  {
    var opposite := taker.side.Opposite();
    var own := book.Of(taker.side);
    FindOrderCount(book, taker.id);
    MatchFacts(opposite, book.Of(opposite), taker, nextId);
    hide Match;
    assert PlaceOrder(book, taker, nextId).book == book.With(taker.side, Add(own, taker));
    assert Find(own, taker.id) == None;
    RestedIsFound(own, taker);
    AddQueueAt(taker.side, own, taker);
    RemoveQueueAt(taker.side, Add(own, taker), taker.price, taker.id);
    var back := Remove(Add(own, taker), taker.price, taker.id);
    NotInQueue(own, taker.id, taker.price);
    AppendedIsFound(QueueAt(own, taker.price), taker);
    forall p ensures QueueAt(back, p) == QueueAt(own, p) {
      assert p != taker.price ==> QueueAt(own, p) + [] == QueueAt(own, p);
    }
    LadderExtensional(taker.side, back, own);
  }

  lemma {:induction false} NotInQueue(ladder: Ladder, id: Uuid, price: int)
    requires Find(ladder, id) == None
    ensures FindIn(QueueAt(ladder, price), id) == None
  {
    if ladder != [] && ladder[0].price != price {
      NotInQueue(ladder[1..], id, price);
    }
  }
}
