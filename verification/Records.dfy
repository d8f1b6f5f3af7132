/** What is recorded is what was asked for: events as the calls gave them, trade rows as the orders were placed. */
module Records {
  import opened Domain
  import opened Matching
  import opened MatchingLaws
  import opened BookLaws
  import opened Funds
  import opened Engine
  import opened Rows
  import opened RunLaws
  import opened Exchange

  // ---------- Orders on the book are as they were placed ----------

  /** The order was placed as it is, and no more of it is open than was placed. */
  predicate PlacedAs(events: seq<Event>, o: Entry) {
    && o.remaining <= o.quantity
    && exists i :: 0 <= i < |events| && events[i] == OrderPlaced(o.id, o.user, o.price, o.quantity, o.side)
  }

  predicate QueuePlaced(events: seq<Event>, queue: seq<Entry>) {
    forall j | 0 <= j < |queue| :: PlacedAs(events, queue[j])
  }

  predicate LadderPlaced(events: seq<Event>, ladder: Ladder) {
    forall i | 0 <= i < |ladder| :: QueuePlaced(events, ladder[i].queue)
  }

  /** Event `i` placed the maker of the trade, whose price the trade has. */
  predicate Makes(events: seq<Event>, i: nat, side: Side, t: Trade)
    requires i < |events|
  {
    && events[i].OrderPlaced? && events[i].side == side
    && events[i].id == t.makerOrder && events[i].user == t.makerUser && events[i].price == t.price
    && t.quantity <= events[i].quantity
  }

  predicate Made(events: seq<Event>, side: Side, t: Trade) {
    exists i :: 0 <= i < |events| && Makes(events, i, side, t)
  }

  predicate Takes(taker: Entry, t: Trade) {
    t.takerOrder == taker.id && t.takerUser == taker.user && t.quantity <= taker.remaining
  }

  lemma FillPlaced(events: seq<Event>, side: Side, price: int, maker: Entry, taker: Entry, nextId: nat)
    requires PlacedAs(events, maker) && EntryOk(side, price, maker) && taker.remaining > 0
    ensures var t := Fill(taker, maker, price, nextId);
            && Made(events, side, t) && Takes(taker, t) && t.quantity > 0
            && forall o | o in AfterFill(maker, t.quantity) :: PlacedAs(events, o)
  {
    var i :| 0 <= i < |events|
          && events[i] == OrderPlaced(maker.id, maker.user, maker.price, maker.quantity, maker.side);
    assert Makes(events, i, side, Fill(taker, maker, price, nextId));
  }

  lemma {:induction false} SweepPlaced(events: seq<Event>, side: Side, queue: seq<Entry>, price: int, taker: Entry,
                                       nextId: nat)
    requires QueuePlaced(events, queue) && QueueOk(side, price, queue) && taker.remaining >= 0
    ensures var r := Sweep(queue, price, taker, nextId);
            && QueuePlaced(events, r.queue)
            && r.taker.remaining <= taker.remaining && r.taker == taker.(remaining := r.taker.remaining)
            && forall t | t in r.trades :: Made(events, side, t) && Takes(taker, t)
  {
    hide PlacedAs, Made;
    if queue != [] && taker.remaining > 0 {
      var maker, rest := queue[0], queue[1..];
      if maker.user == taker.user {
        SweepPlaced(events, side, rest, price, taker, nextId);
      } else {
        var t := Fill(taker, maker, price, nextId);
        FillPlaced(events, side, price, maker, taker, nextId);
        SweepPlaced(events, side, rest, price, Reduce(taker, t.quantity), nextId + 1);
      }
    }
  }

  lemma {:induction false} MatchPlaced(events: seq<Event>, side: Side, ladder: Ladder, taker: Entry, nextId: nat)
    requires LadderPlaced(events, ladder) && LadderOk(side, ladder) && taker.remaining >= 0
    ensures var r := Match(ladder, taker, nextId);
            && LadderPlaced(events, r.ladder)
            && r.taker.remaining <= taker.remaining && r.taker == taker.(remaining := r.taker.remaining)
            && forall t | t in r.trades :: Made(events, side, t) && Takes(taker, t)
  {
    hide QueuePlaced, Made, Sweep, Better;
    MatchUnfold(ladder, taker, nextId);
    hide Match;
    if ladder != [] && taker.remaining > 0 && Reaches(taker, ladder[0].price) {
      var s := Sweep(ladder[0].queue, ladder[0].price, taker, nextId);
      SweepPlaced(events, side, ladder[0].queue, ladder[0].price, taker, nextId);
      SweepFacts(side, ladder[0].queue, ladder[0].price, taker, nextId);
      if s.queue == [] {
        MatchPlaced(events, side, ladder[1..], s.taker, nextId + |s.trades|);
      }
    }
  }

  lemma {:induction false} AddPlaced(events: seq<Event>, ladder: Ladder, o: Entry)
    requires LadderPlaced(events, ladder) && PlacedAs(events, o)
    ensures LadderPlaced(events, Add(ladder, o))
  {
    hide PlacedAs;
    if !(ladder == [] || Better(o.side, o.price, ladder[0].price)) && ladder[0].price != o.price {
      AddPlaced(events, ladder[1..], o);
    }
  }

  lemma {:induction false} WithoutPlaced(events: seq<Event>, queue: seq<Entry>, id: Uuid)
    requires QueuePlaced(events, queue)
    ensures QueuePlaced(events, Without(queue, id))
  {
    hide PlacedAs;
    if queue != [] && queue[0].id != id {
      WithoutPlaced(events, queue[1..], id);
    }
  }

  lemma {:induction false} RemovePlaced(events: seq<Event>, ladder: Ladder, price: int, id: Uuid)
    requires LadderPlaced(events, ladder)
    ensures LadderPlaced(events, Remove(ladder, price, id))
  {
    hide QueuePlaced;
    if ladder != [] {
      if ladder[0].price == price {
        WithoutPlaced(events, ladder[0].queue, id);
      } else {
        RemovePlaced(events, ladder[1..], price, id);
      }
    }
  }

  lemma PlacedLater(events: seq<Event>, e: Event, ladder: Ladder)
    requires LadderPlaced(events, ladder)
    ensures LadderPlaced(events + [e], ladder)
  {
    forall i, j | 0 <= i < |ladder| && 0 <= j < |ladder[i].queue| ensures PlacedAs(events + [e], ladder[i].queue[j]) {
      var o := ladder[i].queue[j];
      assert QueuePlaced(events, ladder[i].queue) && PlacedAs(events, o);
      var k :| 0 <= k < |events| && events[k] == OrderPlaced(o.id, o.user, o.price, o.quantity, o.side);
      assert (events + [e])[k] == events[k];
    }
  }

  predicate BookPlaced(events: seq<Event>, book: BookValue) {
    LadderPlaced(events, book.bids) && LadderPlaced(events, book.asks)
  }

  lemma SidePlaced(events: seq<Event>, book: BookValue, side: Side)
    ensures BookPlaced(events, book)
       <==> LadderPlaced(events, book.Of(side)) && LadderPlaced(events, book.Of(side.Opposite()))
  {}

  lemma {:induction false} PlacePlaced(events: seq<Event>, book: BookValue, e: Event, nextId: nat)
    requires BookPlaced(events, book) && BookOk(book) && e.OrderPlaced? && e.quantity > 0
    ensures var r := PlaceOrder(book, Entry(e.id, e.user, e.price, e.quantity, e.quantity, e.side), nextId);
            BookPlaced(events + [e], r.book) && forall t | t in r.trades :: Describes(events, e, t)
  {
    var taker := Entry(e.id, e.user, e.price, e.quantity, e.quantity, e.side);
    var opposite := e.side.Opposite();
    var m := Match(book.Of(opposite), taker, nextId);
    hide Match, Add, LadderPlaced, LadderOk, BookPlaced, Made;
    BookOkSides(book, e.side);
    SidePlaced(events, book, e.side);
    MatchPlaced(events, opposite, book.Of(opposite), taker, nextId);
    MatchFacts(opposite, book.Of(opposite), taker, nextId);
    PlaceUnfold(book, taker, nextId);
    PlacedLater(events, e, m.ladder);
    PlacedLater(events, e, book.Of(e.side));
    if m.taker.remaining != 0 {
      assert (events + [e])[|events|] == e;
      AddPlaced(events + [e], book.Of(e.side), m.taker);
    }
    SidePlaced(events + [e], PlaceOrder(book, taker, nextId).book, e.side);
    forall t | t in m.trades ensures Describes(events, e, t) {
      var k :| 0 <= k < |m.trades| && m.trades[k] == t;
      assert TradeOk(taker, m.trades[k]);
    }
  }

  /** The taker's event and an earlier one placed the two orders of the trade. */
  predicate Describes(before: seq<Event>, e: Event, t: Trade) {
    && e.OrderPlaced? && t.takerOrder == e.id && t.takerUser == e.user && 0 < t.quantity <= e.quantity
    && (if e.side.Buy? then t.price <= e.price else t.price >= e.price) && t.takerUser != t.makerUser
    && Made(before, e.side.Opposite(), t)
  }

  lemma CancelPlaced(events: seq<Event>, book: BookValue, id: Uuid)
    requires BookPlaced(events, book) && BookOk(book) && CancelOrder(book, id).Some?
    ensures BookPlaced(events, CancelOrder(book, id).value.0) && BookOk(CancelOrder(book, id).value.0)
  {
    var e := book.FindOrder(id).value;
    CancelOk(book, id);
    hide LadderPlaced, Remove, BookValue.FindOrder, LadderOk;
    RemovePlaced(events, book.Of(e.side), e.price, id);
  }

  /** In every run each order on the book is as it was placed, with no more open than was placed. */
  lemma {:induction false} RunPlaced(events: seq<Event>)
    requires AllAdmissible(events)
    ensures BookOk(Run(INITIAL, events).book) && BookPlaced(events, Run(INITIAL, events).book)
  {
    if events != [] {
      var front, e := events[..|events| - 1], events[|events| - 1];
      assert front + [e] == events;
      RunPlaced(front);
      var s := Run(INITIAL, front);
      hide BookPlaced, BookOk, PlaceOrder, CancelOrder, SettleAll, QuoteAmount, Run, LockFunds, UnlockFunds;
      PlacedMore(front, e, s.book);
      match e
      case OrderPlaced(id, user, price, quantity, side) =>
        PlacePlaced(front, s.book, e, s.nextTrade);
        PlaceOk(s.book, Entry(id, user, price, quantity, quantity, side), s.nextTrade);
      case CancelRequested(id) =>
        if CancelOrder(s.book, id).Some? {
          CancelPlaced(events, s.book, id);
        }
      case DepositCreated(_, _, _) =>
    }
  }

  lemma PlacedMore(events: seq<Event>, e: Event, book: BookValue)
    requires BookPlaced(events, book)
    ensures BookPlaced(events + [e], book)
  {
    hide LadderPlaced;
    PlacedLater(events, e, book.bids);
    PlacedLater(events, e, book.asks);
  }

  /** The trades of one event: placed by it and by an earlier one. */
  lemma NewTradesPlaced(front: seq<Event>, e: Event)
    requires AllAdmissible(front) && Admissible(e)
    ensures forall t | t in Handle(Run(INITIAL, front), e).trades :: Describes(front, e, t)
  {
    hide BookPlaced, BookOk, PlaceOrder, CancelOrder, SettleAll, QuoteAmount, Run, Describes;
    RunPlaced(front);
    if e.OrderPlaced? {
      PlacePlaced(front, Run(INITIAL, front).book, e, Run(INITIAL, front).nextTrade);
    }
  }

  // ---------- Trades and their rows ----------

  /** The two logs go together: each row is the trade's, by the side of the event that took. */
  lemma {:induction false} LogsAsPlaced(events: seq<Event>, j: nat) returns (k: nat)
    requires AllAdmissible(events)
    ensures |RowLog(events)| == |TradeLog(events)|
    ensures j < |TradeLog(events)| ==>
              && k < |events| && Describes(events[..k], events[k], TradeLog(events)[j])
              && RowLog(events)[j] == RowOf(TradeLog(events)[j], events[k].side)
  {
    hide *;
    k := 0;
    if events == [] {
      NoLogs();
    } else {
      var front, e := events[..|events| - 1], events[|events| - 1];
      assert front + [e] == events;
      AdmissibleSplit(front, e);
      k := LogsAsPlaced(front, j);
      LogsGrow(front, e);
      NewTradesPlaced(front, e);
      var trades := Handle(Run(INITIAL, front), e).trades;
      if |TradeLog(front)| <= j < |TradeLog(events)| {
        k := |front|;
        assert TradeLog(events)[j] == trades[j - |TradeLog(front)|];
        assert RowLog(events)[j] == RowsOf(trades, e.side)[j - |TradeLog(front)|];
        RowsAt(trades, e.side, j - |TradeLog(front)|);
      } else if j < |TradeLog(front)| {
        assert events[..k] == front[..k];
      }
    }
  }

  lemma NoLogs()
    ensures TradeLog([]) == [] && RowLog([]) == []
  {}

  lemma RowsAt(trades: seq<Trade>, taker: Side, j: nat)
    requires j < |trades|
    ensures RowsOf(trades, taker)[j] == RowOf(trades[j], taker)
  {}

  lemma AdmissibleSplit(front: seq<Event>, e: Event)
    requires AllAdmissible(front + [e])
    ensures AllAdmissible(front) && Admissible(e)
  {
    hide Admissible;
    assert forall i | 0 <= i < |front| :: (front + [e])[i] == front[i];
    assert (front + [e])[|front|] == e;
  }

  lemma LogsGrow(front: seq<Event>, e: Event)
    ensures var trades := Handle(Run(INITIAL, front), e).trades;
            && TradeLog(front + [e]) == TradeLog(front) + trades
            && (if e.OrderPlaced? then RowLog(front + [e]) == RowLog(front) + RowsOf(trades, e.side)
                else trades == [] && RowLog(front + [e]) == RowLog(front))
  {
    hide Handle, Run, RowsOf;
    OnlyPlacementsTrade(Run(INITIAL, front), e);
    assert (front + [e])[..|front|] == front;
  }

  lemma OnlyPlacementsTrade(s: State, e: Event)
    ensures !e.OrderPlaced? ==> Handle(s, e).trades == []
  {
    hide CancelOrder, UnlockFunds, QuoteAmount, Deposit, HandlePlaced;
  }

  /** Two placements of the run, the later the taker, and the row that stands for their trade. */
  predicate RowOfPlaced(earlier: Event, later: Event, row: TradeRow) {
    && earlier.OrderPlaced? && later.OrderPlaced?
    && (if later.side.Buy?
        then earlier.side.Sell? && row.buyerOrder == later.id && row.sellerOrder == earlier.id
        else earlier.side.Buy? && row.buyerOrder == earlier.id && row.sellerOrder == later.id)
    && row.takerUser == later.user && row.makerUser == earlier.user && later.user != earlier.user
    && row.price == earlier.price && (if later.side.Buy? then row.price <= later.price else row.price >= later.price)
    && 0 < row.quantity <= earlier.quantity && row.quantity <= later.quantity
  }

  /**
   In every run, each row of the trade log names a buy and a sell that were placed: the later one's user
   is the taker, the earlier one's the maker, whose price the row has. Its id, price and quantity are the
   trade's.
   */
  lemma {:induction false} RowsAsPlaced(events: seq<Event>, j: nat)
    requires AllAdmissible(events)
    ensures |RowLog(events)| == |TradeLog(events)|
    ensures j < |RowLog(events)| ==>
              var row, t := RowLog(events)[j], TradeLog(events)[j];
              && row.id == t.id && row.price == t.price && row.quantity == t.quantity
              && exists i, k :: 0 <= i < k < |events| && RowOfPlaced(events[i], events[k], row)
  {
    hide RowLog, TradeLog;
    var k := LogsAsPlaced(events, j);
    if j < |TradeLog(events)| {
      var t, e := TradeLog(events)[j], events[k];
      assert Made(events[..k], e.side.Opposite(), t);
      var i :| 0 <= i < k && Makes(events[..k], i, e.side.Opposite(), t);
      assert events[i] == events[..k][i];
      assert RowOfPlaced(events[i], e, RowLog(events)[j]);
    }
  }

  // ---------- Events are what was asked for ----------

  /** The event of an API call: all that it asked for. */
  function Asked(a: Action): seq<Event> {
    match a
    case ApiDeposit(user, asset, amount) => [DepositCreated(user, asset, amount)]
    case ApiPlace(id, user, price, quantity, side) => [OrderPlaced(id, user, price, quantity, side)]
    case ApiCancel(id) => [CancelRequested(id)]
    case Deliver(_) => []
  }

  /** The events of the accepted calls, in order. */
  function AcceptedEvents(actions: seq<Action>): seq<Event> {
    if actions == [] then []
    else
      var front, a := actions[..|actions| - 1], actions[|actions| - 1];
      AcceptedEvents(front) + if Act(After(front), a).verdict == Accepted then Asked(a) else []
  }

  function InAll(w: World): multiset<Event> {
    multiset(w.delivered + w.pending)
  }

  lemma MovesOne(a: seq<Event>, b: seq<Event>, i: nat)
    requires i < |b|
    ensures multiset(a + [b[i]] + Dropped(b, i)) == multiset(a + b)
  {
    assert b == b[..i] + [b[i]] + b[i + 1..];
    assert multiset(b) == multiset(b[..i]) + multiset([b[i]]) + multiset(b[i + 1..]);
    assert multiset(Dropped(b, i)) == multiset(b[..i]) + multiset(b[i + 1..]);
  }

  /** Handing an event over moves it from the pending to the delivered ones, whatever the worker makes of it. */
  lemma HandedMoves(w: World, i: nat)
    requires i < |w.pending|
    ensures InAll(Handed(w, i).world) == InAll(w)
  {
    hide Handle, Persist, Dropped;
    MovesOne(w.delivered, w.pending, i);
  }

  lemma PendingGrows(w: World, e: Event, db: Tables)
    ensures InAll(World(w.delivered, w.pending + [e], db)) == InAll(w) + multiset([e])
  {
    assert w.delivered + (w.pending + [e]) == (w.delivered + w.pending) + [e];
  }

  lemma NothingMore(m: multiset<Event>)
    ensures m + multiset([]) == m
  {}

  /** An accepted call adds the event it asked for; nothing else does. */
  lemma ActMoves(w: World, a: Action)
    ensures var o := Act(w, a);
            InAll(o.world) == InAll(w) + multiset(if o.verdict == Accepted then Asked(a) else [])
  {
    hide UpsertRow, Handed, InAll;
    NothingMore(InAll(w));
    var db := Act(w, a).world.db;
    match a
    case ApiDeposit(user, asset, amount) => PendingGrows(w, DepositCreated(user, asset, amount), db);
    case ApiPlace(id, user, price, quantity, side) => PendingGrows(w, OrderPlaced(id, user, price, quantity, side), db);
    case ApiCancel(id) => PendingGrows(w, CancelRequested(id), db);
    case Deliver(i) =>
      if i < |w.pending| {
        HandedMoves(w, i);
      }
  }

  /**
   In every run, the events delivered and pending are, each as often, those of the accepted calls, with
   all that the calls asked for: none is lost, altered, doubled or made up.
   */
  lemma {:induction false} EventsAsAccepted(actions: seq<Action>)
    ensures InAll(After(actions)) == multiset(AcceptedEvents(actions))
  {
    hide Act, Asked;
    if actions != [] {
      var front, a := actions[..|actions| - 1], actions[|actions| - 1];
      hide InAll;
      EventsAsAccepted(front);
      ActMoves(After(front), a);
    }
  }

  lemma {:induction false} AcceptedEventFrom(actions: seq<Action>, e: Event)
    requires e in AcceptedEvents(actions)
    ensures exists k :: 0 <= k < |actions| && Asks(actions, k, e)
  {
    hide Act;
    var front, a := actions[..|actions| - 1], actions[|actions| - 1];
    if e in AcceptedEvents(front) {
      AcceptedEventFrom(front, e);
      var k :| 0 <= k < |front| && Asks(front, k, e);
      assert actions[..k] == front[..k];
      assert Asks(actions, k, e);
    } else {
      assert Asks(actions, |actions| - 1, e);
    }
  }

  /** Call `k` of the run was accepted, and asked for just what the event says. */
  predicate Asks(actions: seq<Action>, k: nat, e: Event)
    requires k < |actions|
  {
    && Act(After(actions[..k]), actions[k]).verdict == Accepted
    && match e
       case OrderPlaced(id, user, price, quantity, side) => actions[k] == ApiPlace(id, user, price, quantity, side)
       case CancelRequested(id) => actions[k] == ApiCancel(id)
       case DepositCreated(user, asset, amount) => actions[k] == ApiDeposit(user, asset, amount)
  }

  /** Each event on its way or handed over carries all that an accepted call of the run asked for. */
  lemma EventsAsAsked(actions: seq<Action>, e: Event)
    requires e in After(actions).delivered + After(actions).pending
    ensures exists k :: 0 <= k < |actions| && Asks(actions, k, e)
  {
    hide After, AcceptedEvents;
    var w := After(actions);
    EventsAsAccepted(actions);
    assert e in InAll(w);
    AcceptedEventFrom(actions, e);
  }

  /**
   In every run whose accepted deposits fit, each row of the trades table stands for two placements the
   API accepted: the buyer's order was asked for as a buy and the seller's as a sell, for at least the
   quantity, at the maker's price.
   */
  lemma {:induction false} TableRowsAsAsked(actions: seq<Action>, j: nat)
    requires forall i | 0 <= i < |actions| :: AdmissibleAction(actions[i])
    requires AcceptedFit(actions) && j < |After(actions).db.trades|
    ensures exists earlier, later, m, n ::
              && RowOfPlaced(earlier, later, After(actions).db.trades[j])
              && 0 <= m < |actions| && Asks(actions, m, earlier) && 0 <= n < |actions| && Asks(actions, n, later)
  {
    hide After, Asks, AcceptedFit, AdmissibleAction, RowOfPlaced;
    var w := After(actions);
    TablesFollowMemory(actions);
    AgreementRecords(w);
    RowsAsPlaced(w.delivered, j);
    var i, k :| 0 <= i < k < |w.delivered| && RowOfPlaced(w.delivered[i], w.delivered[k], w.db.trades[j]);
    EventsAsAsked(actions, w.delivered[i]);
    EventsAsAsked(actions, w.delivered[k]);
  }

  lemma AgreementRecords(w: World)
    requires Agreement(w)
    ensures AllAdmissible(w.delivered) && w.db.trades == RowLog(w.delivered)
  {
    hide Tracks, HasRows, OthersStorable, Healthy, RowLog, Admissible;
    forall i | 0 <= i < |w.delivered| ensures Admissible(w.delivered[i]) {
      assert (w.delivered + w.pending)[i] == w.delivered[i];
    }
  }
}
