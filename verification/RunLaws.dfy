/** Laws of whole runs: conservation, trade uniqueness, priority by arrival, an uncrossed book. */
module RunLaws {
  import opened Domain
  import opened Matching
  import opened Measures
  import opened MatchingLaws
  import opened BookLaws
  import opened Funds
  import opened Engine
  import opened Solvency
  import opened Safety

  // ---------- Conservation ----------

  lemma {:induction false} SettleAllConserves(b: Balances, taker: Side, trades: seq<Trade>, a: Asset)
    ensures Congruent(Total(SettleAll(b, taker, trades).balances, a), Total(b, a))
    decreases |trades|
  {
    hide Total, QuoteAmount, Settle, CanSettle;
    if trades != [] {
      var t := trades[0];
      var buyer, seller := Buyer(t, taker), Seller(t, taker);
      SettleConserves(b, buyer, seller, t.price, t.quantity, a);
      SettleAllConserves(Settle(b, buyer, seller, t.price, t.quantity), taker, trades[1..], a);
    }
  }

  /** Whatever an event's outcome, and whatever wraps, it changes an asset's total by what it deposits, modulo 2^64. */
  lemma {:induction false} StepConserves(s: State, e: Event, a: Asset)
    ensures Congruent(Total(Handle(s, e).state.balances, a), Total(s.balances, a) + Deposited(e, a))
  {
    hide Total, QuoteAmount, PlaceOrder, CancelOrder, Credit64, SettleAll, Settle;
    match e
    case OrderPlaced(id, user, price, quantity, side) =>
      var k, amount := LockAccount(user, side), LockAmount(price, quantity, side);
      Credit64Total(s.balances, k, -amount, amount, a);
      if LockFunds(s.balances, k, amount).Some? {
        var r := PlaceOrder(s.book, Entry(id, user, price, quantity, quantity, side), s.nextTrade);
        SettleAllConserves(LockFunds(s.balances, k, amount).value, side, r.trades, a);
      }
    case CancelRequested(id) =>
      match CancelOrder(s.book, id) {
        case None =>
        case Some((_, o)) =>
          var amount := LockAmount(o.price, o.remaining, o.side);
          Credit64Total(s.balances, LockAccount(o.user, o.side), amount, -amount, a);
      }
    case DepositCreated(user, asset, amount) =>
      Credit64Total(s.balances, Account(user, asset), amount, 0, a);
  }

  /** After any run of any events the users together hold what was deposited, modulo 2^64, asset by asset. */
  lemma {:induction false} RunConserves(events: seq<Event>, a: Asset)
    ensures Congruent(Total(Run(INITIAL, events).balances, a), AllDeposited(events, a))
  {
    hide Congruent, Handle, Total;
    if events == [] {
      NothingHeld(a);
    } else {
      var front, e := events[..|events| - 1], events[|events| - 1];
      RunConserves(front, a);
      StepConserves(Run(INITIAL, front), e, a);
      CongruentStep(Total(Run(INITIAL, events).balances, a), Total(Run(INITIAL, front).balances, a),
                    AllDeposited(front, a), Deposited(e, a));
    }
  }

  lemma NothingHeld(a: Asset)
    ensures Total(INITIAL.balances, a) == 0 && Congruent(0, 0)
  {}

  lemma CongruentStep(after: int, before: int, deposited: int, more: int)
    requires Congruent(after, before + more) && Congruent(before, deposited)
    ensures Congruent(after, deposited + more)
  {}

  // ---------- While the deposits fit, the run is the one on unbounded integers ----------

  /** No account of the asset is negative, and together they hold what was deposited of it. */
  ghost predicate Holds(b: Balances, a: Asset, deposited: int) {
    NonNegativeIn(b, a) && Total(b, a) == deposited
  }

  lemma {:induction false} TransferAllOthers(b: Balances, taker: Side, trades: seq<Trade>, k: Account)
    requires !IsTraded(k)
    ensures var c := TransferAll(b, taker, trades); (k in c <==> k in b) && Get(c, k) == Get(b, k)
    decreases |trades|
  {
    hide QuoteAmount, Transfer, Get;
    if trades != [] {
      var t := trades[0];
      TransferOthers(b, Buyer(t, taker), Seller(t, taker), t.price, t.quantity, k);
      TransferAllOthers(Transfer(b, Buyer(t, taker), Seller(t, taker), t.price, t.quantity), taker, trades[1..], k);
    }
  }

  lemma {:induction false} TransferOthers(b: Balances, buyer: Uuid, seller: Uuid, price: int, size: int, k: Account)
    requires !IsTraded(k)
    ensures var c := Transfer(b, buyer, seller, price, size); (k in c <==> k in b) && Get(c, k) == Get(b, k)
  {
    hide QuoteAmount;
  }

  /** An event keeps the accounts of an asset that is not traded exact, as long as its deposits fit. */
  lemma {:induction false} StepOther(s: State, e: Event, a: Asset, deposited: int)
    requires Solvent(s) && Admissible(e) && DepositFits(s, e) && a != BTC && a != USD
    requires Holds(s.balances, a, deposited) && deposited + Deposited(e, a) <= MAX_INT64
    ensures Holds(Handle(s, e).state.balances, a, deposited + Deposited(e, a))
  {
    hide Total, Solvent, PlaceOrder, CancelOrder, QuoteAmount, SettleAll, TransferAll, LockFunds, UnlockFunds, Surplus;
    hide Credit64;
    match e
    case OrderPlaced(id, user, price, quantity, side) =>
      PlaceStep(s, e);
      var k, amount := LockAccount(user, side), LockAmount(price, quantity, side);
      var c := Credit(s.balances, k, -amount, amount);
      TotalCredit(s.balances, k, -amount, amount, a);
      TransferAllConserves(c, side, Handle(s, e).trades, a);
      forall x: Account | x.asset == a
        ensures var t := TransferAll(c, side, Handle(s, e).trades);
                (x in t <==> x in s.balances) && Get(t, x) == Get(s.balances, x)
      {
        TransferAllOthers(c, side, Handle(s, e).trades, x);
      }
    case CancelRequested(id) =>
      CancelStep(s, id);
      if CancelOrder(s.book, id).Some? {
        var o := CancelOrder(s.book, id).value.1;
        var amount := LockAmount(o.price, o.remaining, o.side);
        TotalCredit(s.balances, LockAccount(o.user, o.side), amount, -amount, a);
      }
    case DepositCreated(user, asset, amount) =>
      DepositOther(s.balances, Account(user, asset), amount, a, deposited);
  }

  lemma {:induction false} DepositOther(b: Balances, k: Account, amount: int, a: Asset, deposited: int)
    requires Holds(b, a, deposited) && amount >= 0 && deposited + (if k.asset == a then amount else 0) <= MAX_INT64
    ensures Holds(Deposit(b, k, amount), a, deposited + if k.asset == a then amount else 0)
    ensures k.asset == a ==> Deposit(b, k, amount) == Credit(b, k, amount, 0)
  {
    hide Total, WrapInt64;
    if k.asset == a {
      TotalCredit(b, k, amount, 0, a);
      TotalNonNegative(b, a);
      if k in b {
        AccountBound(b, k);
      }
      CreditSame(b, k, amount, 0);
    } else {
      OtherTotal(b, k, amount, a);
    }
  }

  /**
   In a run whose deposits of BTC and of USD fit 64 bits: whatever else is deposited, the users hold
   of each asset whose deposits fit exactly what was deposited of it, and no account of it is negative.
   */
  lemma {:induction false} RunHolds(events: seq<Event>, a: Asset)
    requires AllAdmissible(events) && DepositsFit(events) && AllDeposited(events, a) <= MAX_INT64
    ensures Holds(Run(INITIAL, events).balances, a, AllDeposited(events, a))
  {
    hide Solvent, Handle, Total, DepositsFit, AllAdmissible, NonNegativeIn;
    RunSolvent(events);
    if a == BTC || a == USD {
      SolventHolds(Run(INITIAL, events));
    } else if events == [] {
      EmptyHolds(a);
    } else {
      var front, e := events[..|events| - 1], events[|events| - 1];
      assert front + [e] == events;
      BeforeEvent(front, e);
      DepositsGrow(e, a);
      RunHolds(front, a);
      StepOther(Run(INITIAL, front), e, a, AllDeposited(front, a));
    }
  }

  lemma SolventHolds(s: State)
    requires Solvent(s)
    ensures NonNegativeIn(s.balances, BTC) && NonNegativeIn(s.balances, USD)
  {}

  lemma EmptyHolds(a: Asset)
    ensures Holds(INITIAL.balances, a, 0)
  {}

  lemma DepositsGrow(e: Event, a: Asset)
    requires Admissible(e)
    ensures Deposited(e, a) >= 0
  {
    hide QuoteFits;
  }

  /** If the deposits of BTC, of USD and of an account's asset fit 64 bits, its balance never leaves the range. */
  lemma {:induction false} NoOverflow(events: seq<Event>, k: Account)
    requires AllAdmissible(events) && DepositsFit(events) && AllDeposited(events, k.asset) <= MAX_INT64
    ensures var b := Get(Run(INITIAL, events).balances, k);
            0 <= b.available <= MAX_INT64 && 0 <= b.locked <= MAX_INT64
  {
    hide Run, Total;
    var b := Run(INITIAL, events).balances;
    RunHolds(events, k.asset);
    if k in b {
      AccountBound(b, k);
    }
  }

  // ---------- Records ----------

  /** The book's orders were all placed, each once, and stand in each queue in order of arrival. */
  ghost predicate Recorded(book: BookValue, placed: seq<Uuid>) {
    && BookOk(book) && UniqueIds(book)
    && (forall id :: Count(book, id) > 0 ==> id in placed)
    && LadderInArrivalOrder(book.bids, placed) && LadderInArrivalOrder(book.asks, placed)
  }

  lemma {:induction false} LadderOrderGrows(ladder: Ladder, placed: seq<Uuid>, id: Uuid)
    requires LadderInArrivalOrder(ladder, placed)
    ensures LadderInArrivalOrder(ladder, placed + [id])
  {
    forall i | 0 <= i < |ladder| ensures InArrivalOrder(ladder[i].queue, placed + [id], -1) {
      OrderGrows(ladder[i].queue, placed, id, -1);
    }
  }

  lemma PlaceRecorded(book: BookValue, taker: Entry, nextId: nat, placed: seq<Uuid>)
    requires Recorded(book, placed) && taker.remaining > 0 && taker.id !in placed
    ensures Recorded(PlaceOrder(book, taker, nextId).book, placed + [taker.id])
  {
    var after := PlaceOrder(book, taker, nextId).book;
    var opposite := taker.side.Opposite();
    var m := Match(book.Of(opposite), taker, nextId);
    PlaceOk(book, taker, nextId);
    forall id ensures Count(after, id) <= 1 && (Count(after, id) > 0 ==> id in placed + [taker.id]) {
      PlaceCount(book, taker, nextId, id);
      FindOrderCount(book, id);
    }
    MatchKeepsOrder(book.Of(opposite), taker, nextId, placed);
    MatchFacts(opposite, book.Of(opposite), taker, nextId);
    hide Match, Add, LadderInArrivalOrder;
    LadderOrderGrows(m.ladder, placed, taker.id);
    LadderOrderGrows(book.Of(taker.side), placed, taker.id);
    AddKeepsOrder(book.Of(taker.side), m.taker, placed);
  }

  lemma CancelRecorded(book: BookValue, id: Uuid, placed: seq<Uuid>)
    requires Recorded(book, placed) && CancelOrder(book, id).Some?
    ensures Recorded(CancelOrder(book, id).value.0, placed)
  {
    var (after, e) := CancelOrder(book, id).value;
    CancelOk(book, id);
    forall x ensures Count(after, x) <= 1 && (Count(after, x) > 0 ==> x in placed) {
      CancelCount(book, id, x);
    }
    hide LadderInArrivalOrder, Remove;
    RemoveKeepsOrder(book.Of(e.side), e.price, id, placed);
  }

  lemma {:induction false} PlacedIdsMeans(events: seq<Event>, id: Uuid)
    ensures id in PlacedIds(events) <==> exists i :: 0 <= i < |events| && Places(events[i], id)
  {
    if events != [] {
      var front, e := events[..|events| - 1], events[|events| - 1];
      PlacedIdsMeans(front, id);
      assert events == front + [e];
      if i :| 0 <= i < |front| && Places(front[i], id) {
        assert Places(events[i], id);
      }
      if Places(e, id) {
        assert Places(events[|front|], id);
      }
    }
  }

  /** In every admissible run the book's orders are recorded. */
  lemma {:induction false} RunRecorded(events: seq<Event>)
    requires AdmissibleRun(events)
    ensures Recorded(Run(INITIAL, events).book, PlacedIds(events))
  {
    if events != [] {
      var front, e := events[..|events| - 1], events[|events| - 1];
      RunRecorded(front);
      var s, placed := Run(INITIAL, front), PlacedIds(front);
      hide Recorded, PlaceOrder, CancelOrder, SettleAll, QuoteAmount;
      match e
      case OrderPlaced(id, user, price, quantity, side) =>
        var taker := Entry(id, user, price, quantity, quantity, side);
        PlacedIdsMeans(front, id);
        PlaceRecorded(s.book, taker, s.nextTrade, placed);
        RecordedGrows(s.book, placed, id);
      case CancelRequested(id) =>
        if CancelOrder(s.book, id).Some? {
          CancelRecorded(s.book, id, placed);
        }
      case DepositCreated(_, _, _) =>
    } else {
      assert Recorded(EMPTY_BOOK, []);
    }
  }

  lemma RecordedGrows(book: BookValue, placed: seq<Uuid>, id: Uuid)
    requires Recorded(book, placed)
    ensures Recorded(book, placed + [id])
  {
    hide LadderInArrivalOrder, BookOk;
    LadderOrderGrows(book.bids, placed, id);
    LadderOrderGrows(book.asks, placed, id);
  }

  // ---------- Every pair of orders trades at most once ----------

  /** All the trades of a run, in order. */
  function TradeLog(events: seq<Event>): seq<Trade> {
    if events == [] then []
    else TradeLog(events[..|events| - 1]) + Handle(Run(INITIAL, events[..|events| - 1]), events[|events| - 1]).trades
  }

  /** The two orders of a trade, whichever is the buyer's. */
  function Pair(t: Trade): set<Uuid> {
    {t.takerOrder, t.makerOrder}
  }

  lemma {:induction false} HitsTwice(trades: seq<Trade>, i: nat, j: nat)
    requires i < j < |trades| && trades[i].makerOrder == trades[j].makerOrder
    ensures Hits(trades[j].makerOrder, trades) >= 2
  {
    if i > 0 {
      HitsTwice(trades[1..], i - 1, j - 1);
    } else {
      HitOnce(trades[1..], j - 1);
    }
  }

  lemma {:induction false} HitOnce(trades: seq<Trade>, j: nat)
    requires j < |trades|
    ensures Hits(trades[j].makerOrder, trades) >= 1
  {
    if j > 0 {
      HitOnce(trades[1..], j - 1);
    }
  }

  /** The trades of a new order: with recorded orders only, each of them at most once. */
  lemma NewTrades(book: BookValue, taker: Entry, nextId: nat, placed: seq<Uuid>)
    requires Recorded(book, placed) && taker.remaining > 0 && taker.id !in placed
    ensures var trades := PlaceOrder(book, taker, nextId).trades;
            && (forall k | 0 <= k < |trades| ::
                  trades[k].takerOrder == taker.id && trades[k].makerOrder in placed && trades[k].id == nextId + k)
            && (forall k, l | 0 <= k < l < |trades| :: trades[k].makerOrder != trades[l].makerOrder)
  {
    var opposite := taker.side.Opposite();
    var m := Match(book.Of(opposite), taker, nextId);
    MatchFacts(opposite, book.Of(opposite), taker, nextId);
    hide Match, LadderSum;
    forall id ensures Hits(id, m.trades) <= 1 && (Hits(id, m.trades) > 0 ==> id in placed) {
      MatchCounts(id, opposite, book.Of(opposite), taker, nextId);
      LadderCountNonNegative(CountOf(id), book.bids);
      LadderCountNonNegative(CountOf(id), book.asks);
      assert Count(book, id) <= 1;
    }
    forall k | 0 <= k < |m.trades|
      ensures m.trades[k].takerOrder == taker.id && m.trades[k].makerOrder in placed && m.trades[k].id == nextId + k
    {
      assert TradeOk(taker, m.trades[k]);
      HitOnce(m.trades, k);
    }
    forall k, l | 0 <= k < l < |m.trades| ensures m.trades[k].makerOrder != m.trades[l].makerOrder {
      if m.trades[k].makerOrder == m.trades[l].makerOrder {
        HitsTwice(m.trades, k, l);
      }
    }
  }

  /** Trades of orders placed before an id was placed, numbered below `next`. */
  predicate LogOk(log: seq<Trade>, placed: seq<Uuid>, next: nat) {
    && (forall i | 0 <= i < |log| :: log[i].takerOrder in placed && log[i].makerOrder in placed && log[i].id < next)
    && (forall i, j | 0 <= i < j < |log| :: Pair(log[i]) != Pair(log[j]) && log[i].id != log[j].id)
  }

  lemma LogExtends(log: seq<Trade>, placed: seq<Uuid>, next: nat, trades: seq<Trade>, id: Uuid)
    requires LogOk(log, placed, next) && id !in placed
    requires forall k | 0 <= k < |trades| ::
               trades[k].takerOrder == id && trades[k].makerOrder in placed && trades[k].id == next + k
    requires forall k, l | 0 <= k < l < |trades| :: trades[k].makerOrder != trades[l].makerOrder
    ensures LogOk(log + trades, placed + [id], next + |trades|)
  {
    var all := log + trades;
    forall i | 0 <= i < |all|
      ensures all[i].takerOrder in placed + [id] && all[i].makerOrder in placed + [id] && all[i].id < next + |trades|
    {
      assert i >= |log| ==> all[i] == trades[i - |log|];
      assert (placed + [id])[|placed|] == id;
    }
    forall i, j | 0 <= i < j < |all| ensures Pair(all[i]) != Pair(all[j]) && all[i].id != all[j].id {
      if j >= |log| {
        var t := trades[j - |log|];
        assert all[j] == t && id in Pair(t) && t.makerOrder in Pair(t);
        if i >= |log| {
          assert all[i] == trades[i - |log|];
          assert t.makerOrder !in Pair(all[i]);
        } else {
          assert id !in Pair(all[i]);
        }
      }
    }
  }

  /** No two trades of a run are between the same two orders, and no two have the same id. */
  lemma {:induction false} PairsTradeOnce(events: seq<Event>)
    requires AdmissibleRun(events)
    ensures LogOk(TradeLog(events), PlacedIds(events), Run(INITIAL, events).nextTrade)
  {
    if events != [] {
      var front, e := events[..|events| - 1], events[|events| - 1];
      var s, placed, log := Run(INITIAL, front), PlacedIds(front), TradeLog(front);
      PairsTradeOnce(front);
      RunRecorded(front);
      hide Recorded, PlaceOrder, CancelOrder, SettleAll, QuoteAmount, LogOk;
      if e.OrderPlaced? {
        PlacedIdsMeans(front, e.id);
        NewTrades(s.book, Entry(e.id, e.user, e.price, e.quantity, e.quantity, e.side), s.nextTrade, placed);
        LogExtends(log, placed, s.nextTrade, Handle(s, e).trades, e.id);
      } else {
        assert log + [] == log;
      }
    }
  }

  // ---------- Price-time priority by arrival ----------

  /** Order `a` has priority over order `b`: a better price, or the same price and an earlier arrival. */
  predicate HasPriority(side: Side, placed: seq<Uuid>, a: Entry, b: Entry) {
    Better(side, a.price, b.price) || (a.price == b.price && Arrival(placed, a.id) < Arrival(placed, b.id))
  }

  lemma PriorityIsPosition(side: Side, ladder: Ladder, placed: seq<Uuid>, i: nat, j: nat, i': nat, j': nat)
    requires LadderOk(side, ladder) && LadderInArrivalOrder(ladder, placed) && At(ladder, i, j) && At(ladder, i', j')
    ensures HasPriority(side, placed, ladder[i].queue[j], ladder[i'].queue[j']) <==> Precedes(i, j, i', j')
  {
    assert EntryOk(side, ladder[i].price, ladder[i].queue[j]) && EntryOk(side, ladder[i'].price, ladder[i'].queue[j']);
    if i == i' {
      InArrivalOrderMeans(ladder[i].queue, placed, -1, j, j');
    }
  }

  /**
   In any run, when a new order trades with a resting order, every resting order of another
   user that has priority over it is filled and gone; and no trade is beyond the new order's limit.
   */
  lemma {:induction false} RunPriority(events: seq<Event>, e: Event, i: nat, j: nat, i': nat, j': nat)
    requires AdmissibleRun(events + [e]) && e.OrderPlaced?
    requires var ladder := Run(INITIAL, events).book.Of(e.side.Opposite()); At(ladder, i, j) && At(ladder, i', j')
    ensures var s := Run(INITIAL, events);
            var a, b := s.book.Of(e.side.Opposite())[i].queue[j], s.book.Of(e.side.Opposite())[i'].queue[j'];
            var r := Handle(s, e);
            && (a.user != e.user && HasPriority(e.side.Opposite(), PlacedIds(events), a, b) && Hits(b.id, r.trades) > 0
                ==> Count(r.state.book, a.id) == 0)
            && (forall k | 0 <= k < |r.trades| ::
                  if e.side.Buy? then r.trades[k].price <= e.price else r.trades[k].price >= e.price)
  {
    FrontAdmissible(events, e);
    RunRecorded(events);
    PlacedIdsMeans(events, e.id);
    hide Recorded, PlaceOrder, SettleAll, QuoteAmount;
    var s := Run(INITIAL, events);
    var taker := Entry(e.id, e.user, e.price, e.quantity, e.quantity, e.side);
    PlacePriority(s.book, taker, s.nextTrade, PlacedIds(events), i, j, i', j');
    var a := s.book.Of(e.side.Opposite())[i].queue[j];
    NoHits(s.book.Of(e.side.Opposite())[i'].queue[j'].id);
  }

  lemma FrontAdmissible(events: seq<Event>, e: Event)
    requires AdmissibleRun(events + [e])
    ensures AdmissibleRun(events) && Admissible(e)
    ensures e.OrderPlaced? ==> !exists i :: 0 <= i < |events| && Places(events[i], e.id)
  {
    var all := events + [e];
    assert forall i | 0 <= i < |events| :: all[i] == events[i];
    assert all[|events|] == e;
  }

  lemma PlacePriority(book: BookValue, taker: Entry, nextId: nat, placed: seq<Uuid>, i: nat, j: nat, i': nat, j': nat)
    requires Recorded(book, placed) && taker.remaining > 0 && taker.id !in placed
    requires var ladder := book.Of(taker.side.Opposite()); At(ladder, i, j) && At(ladder, i', j')
    ensures var ladder := book.Of(taker.side.Opposite());
            var a, b := ladder[i].queue[j], ladder[i'].queue[j'];
            var r := PlaceOrder(book, taker, nextId);
            && (a.user != taker.user && HasPriority(taker.side.Opposite(), placed, a, b) && Hits(b.id, r.trades) > 0
                ==> Count(r.book, a.id) == 0)
            && (forall k | 0 <= k < |r.trades| :: Reaches(taker, r.trades[k].price))
  {
    hide Match, LadderSum, LadderOk, Add, Recorded, LadderInArrivalOrder, HasPriority, Precedes, Hits;
    var opposite := taker.side.Opposite();
    var ladder, own := book.Of(opposite), book.Of(taker.side);
    var a, b := ladder[i].queue[j], ladder[i'].queue[j'];
    var m := Match(ladder, taker, nextId);
    RecordedSide(book, placed, opposite, a.id);
    RecordedSide(book, placed, opposite, b.id);
    MatchFacts(opposite, ladder, taker, nextId);
    PriorityIsPosition(opposite, ladder, placed, i, j, i', j');
    if a.user != taker.user && Precedes(i, j, i', j') && Hits(b.id, m.trades) > 0 {
      PlaceEmpties(book, taker, nextId, placed, i, j, i', j');
    }
    assert forall k | 0 <= k < |m.trades| :: TradeOk(taker, m.trades[k]);
  }

  lemma RecordedSide(book: BookValue, placed: seq<Uuid>, side: Side, id: Uuid)
    requires Recorded(book, placed)
    ensures LadderOk(side, book.Of(side)) && LadderInArrivalOrder(book.Of(side), placed)
    ensures LadderSum(CountOf(id), book.Of(side)) <= 1
    ensures Count(book, id) > 0 ==> id in placed
    ensures Count(book, id) == LadderSum(CountOf(id), book.Of(side)) + LadderSum(CountOf(id), book.Of(side.Opposite()))
    ensures Count(book, id) <= 1 && LadderSum(CountOf(id), book.Of(side.Opposite())) >= 0
  {
    hide LadderOk, LadderInArrivalOrder;
    LadderCountNonNegative(CountOf(id), book.Of(side.Opposite()));
    assert Count(book, id) <= 1;
  }

  lemma PlaceEmpties(book: BookValue, taker: Entry, nextId: nat, placed: seq<Uuid>, i: nat, j: nat, i': nat, j': nat)
    requires Recorded(book, placed) && taker.remaining > 0 && taker.id !in placed
    requires var ladder := book.Of(taker.side.Opposite());
             && At(ladder, i, j) && At(ladder, i', j') && Precedes(i, j, i', j')
             && ladder[i].queue[j].user != taker.user
             && Hits(ladder[i'].queue[j'].id, Match(ladder, taker, nextId).trades) > 0
    ensures Count(PlaceOrder(book, taker, nextId).book, book.Of(taker.side.Opposite())[i].queue[j].id) == 0
  {
    hide Match, LadderSum, LadderOk, Add, Recorded, LadderInArrivalOrder, Precedes, Hits;
    var opposite := taker.side.Opposite();
    var ladder, own := book.Of(opposite), book.Of(taker.side);
    var a, b := ladder[i].queue[j], ladder[i'].queue[j'];
    var m := Match(ladder, taker, nextId);
    RecordedSide(book, placed, opposite, a.id);
    RecordedSide(book, placed, opposite, b.id);
    LadderCountAt(CountOf(a.id), ladder, i, j);
    MatchPriority(opposite, ladder, taker, nextId, i, j, i', j');
    AddSum(CountOf(a.id), own, m.taker);
    MatchTaker(opposite, ladder, taker, nextId);
  }

  lemma MatchTaker(side: Side, ladder: Ladder, taker: Entry, nextId: nat)
    requires LadderOk(side, ladder) && taker.remaining >= 0
    ensures var r := Match(ladder, taker, nextId);
            r.taker == taker.(remaining := r.taker.remaining) && r.taker.remaining >= 0
  {
    MatchFacts(side, ladder, taker, nextId);
  }

  // ---------- An uncrossed book ----------

  /** No order of the run arrives while its user has an order resting on the other side. */
  predicate NoSelfCrossing(events: seq<Event>) {
    forall i | 0 <= i < |events| && events[i].OrderPlaced? ::
      Avoids(Run(INITIAL, events[..i]).book.Of(events[i].side.Opposite()), events[i].user)
  }

  lemma CancelUncrossed(book: BookValue, id: Uuid)
    requires BookOk(book) && Uncrossed(book) && CancelOrder(book, id).Some?
    ensures Uncrossed(CancelOrder(book, id).value.0)
  {
    var (after, e) := CancelOrder(book, id).value;
    FindOrderOk(book, id);
    RemoveQueueAt(e.side, book.Of(e.side), e.price, id);
  }

  /**
   An order that crosses the book: its funds can be locked, its limit reaches a resting order of its
   own user, and the orders it may trade with do not fill it.
   */
  predicate Crosses(s: State, e: Event) {
    e.OrderPlaced?
    && LockFunds(s.balances, LockAccount(e.user, e.side), LockAmount(e.price, e.quantity, e.side)).Some?
    && var taker := Entry(e.id, e.user, e.price, e.quantity, e.quantity, e.side);
       var ladder := s.book.Of(e.side.Opposite());
       OwnReached(ladder, taker) && Outlasts(taker, ladder)
  }

  lemma StepUncrossed(s: State, e: Event)
    requires BookOk(s.book) && Uncrossed(s.book) && Admissible(e)
    ensures Uncrossed(Handle(s, e).state.book) <==> !Crosses(s, e)
  {
    hide PlaceOrder, CancelOrder, SettleAll, QuoteAmount, QuoteFits, Uncrossed, LockFunds, OwnReached, Outlasts, BookOk;
    match e
    case OrderPlaced(id, user, price, quantity, side) =>
      PlaceUncrossedIff(s.book, Entry(id, user, price, quantity, quantity, side), s.nextTrade);
    case CancelRequested(id) =>
      if CancelOrder(s.book, id).Some? {
        CancelUncrossed(s.book, id);
      }
    case DepositCreated(_, _, _) =>
  }

  /** The best bid is below the best ask throughout a run exactly when no order of the run crosses the book. */
  lemma {:induction false} RunUncrossedIff(events: seq<Event>)
    requires AdmissibleRun(events)
    ensures (forall k | 0 <= k <= |events| :: Uncrossed(Run(INITIAL, events[..k]).book))
       <==> (forall k | 0 <= k < |events| :: !Crosses(Run(INITIAL, events[..k]), events[k]))
  {
    hide Run, Uncrossed, Crosses, AdmissibleRun;
    if forall k | 0 <= k <= |events| :: Uncrossed(Run(INITIAL, events[..k]).book) {
      forall k | 0 <= k < |events| ensures !Crosses(Run(INITIAL, events[..k]), events[k]) {
        assert Uncrossed(Run(INITIAL, events[..k]).book) && Uncrossed(Run(INITIAL, events[..k + 1]).book);
        NextUncrossed(events, k);
      }
    }
    if forall k | 0 <= k < |events| :: !Crosses(Run(INITIAL, events[..k]), events[k]) {
      forall k | 0 <= k <= |events| ensures Uncrossed(Run(INITIAL, events[..k]).book) {
        UncrossedUpTo(events, k);
      }
    }
  }

  lemma NextUncrossed(events: seq<Event>, k: nat)
    requires AdmissibleRun(events) && k < |events| && Uncrossed(Run(INITIAL, events[..k]).book)
    ensures Uncrossed(Run(INITIAL, events[..k + 1]).book) <==> !Crosses(Run(INITIAL, events[..k]), events[k])
  {
    hide Run, Uncrossed, Crosses, Handle, Recorded;
    assert events[..k + 1] == events[..k] + [events[k]];
    RunSnoc(INITIAL, events[..k], events[k]);
    RunRecorded(events[..k]);
    RecordedOk(Run(INITIAL, events[..k]).book, PlacedIds(events[..k]));
    StepUncrossed(Run(INITIAL, events[..k]), events[k]);
  }

  lemma RecordedOk(book: BookValue, placed: seq<Uuid>)
    requires Recorded(book, placed)
    ensures BookOk(book)
  {}

  lemma {:induction false} UncrossedUpTo(events: seq<Event>, k: nat)
    requires AdmissibleRun(events) && k <= |events|
    requires forall j | 0 <= j < k :: !Crosses(Run(INITIAL, events[..j]), events[j])
    ensures Uncrossed(Run(INITIAL, events[..k]).book)
  {
    hide Run, Crosses;
    if k == 0 {
      assert events[..0] == [];
      RunEmpty(INITIAL);
    } else {
      UncrossedUpTo(events, k - 1);
      hide Uncrossed;
      NextUncrossed(events, k - 1);
    }
  }

  /** In particular if no order arrives while its user has an order resting on the other side. */
  lemma {:induction false} RunUncrossed(events: seq<Event>)
    requires AdmissibleRun(events) && NoSelfCrossing(events)
    ensures Uncrossed(Run(INITIAL, events).book)
  {
    hide Run, LockFunds, QuoteAmount, Outlasts, AdmissibleRun, Uncrossed;
    forall k | 0 <= k < |events| ensures !Crosses(Run(INITIAL, events[..k]), events[k]) {
      assert events[k].OrderPlaced? ==>
          Avoids(Run(INITIAL, events[..k]).book.Of(events[k].side.Opposite()), events[k].user);
    }
    UncrossedUpTo(events, |events|);
    assert events[..|events|] == events;
  }

  // ---------- Placing and cancelling ----------

  /**
   An order that rests without trading and is cancelled at once leaves no trace, exactly if what it
   locks, added to what its account has locked, fits 64 bits.
   */
  lemma {:induction false} PlaceThenCancelUndoes(s: State, e: Event)
    requires BookOk(s.book) && e.OrderPlaced? && Admissible(e) && Count(s.book, e.id) == 0
    requires var held := Get(s.balances, LockAccount(e.user, e.side));
             0 <= held.available <= MAX_INT64 && 0 <= held.locked <= MAX_INT64
    requires Handle(s, e).outcome == Done && Handle(s, e).trades == []
    ensures var r := Handle(Handle(s, e).state, CancelRequested(e.id));
            var k, amount := LockAccount(e.user, e.side), LockAmount(e.price, e.quantity, e.side);
            r.outcome == Done && r.state == s <==> Get(s.balances, k).locked + amount <= MAX_INT64
  {
    hide PlaceOrder, CancelOrder, QuoteAmount, Credit64;
    var taker := Entry(e.id, e.user, e.price, e.quantity, e.quantity, e.side);
    var k, amount := LockAccount(e.user, e.side), LockAmount(e.price, e.quantity, e.side);
    PlaceThenCancel(s.book, taker, s.nextTrade);
    LockFits(taker);
    AmountInRange(e.price, e.quantity);
    LockUnlock(s.balances, k, amount);
  }

  lemma AmountInRange(price: int, quantity: int)
    ensures QuoteAmount(price, quantity) <= MAX_INT64
  {}

  /** Unlocking what was locked gives the balances back, unless the locked field wrapped. */
  lemma {:induction false} LockUnlock(b: Balances, k: Account, amount: int)
    requires k in b && 0 <= b[k].available <= MAX_INT64 && 0 <= b[k].locked <= MAX_INT64
    requires 0 <= amount <= b[k].available
    ensures LockFunds(b, k, amount).Some?
    ensures var unlocked := UnlockFunds(LockFunds(b, k, amount).value, k, amount);
            if b[k].locked + amount <= MAX_INT64 then unlocked == Some(b) else unlocked == None
  {
    var c := Credit64(b, k, -amount, amount);
    assert c[k].available == b[k].available - amount;
    if b[k].locked + amount <= MAX_INT64 {
      assert c[k].locked == b[k].locked + amount;
      assert Credit64(c, k, amount, -amount) == b;
    }
  }
}
