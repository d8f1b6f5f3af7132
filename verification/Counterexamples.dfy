/** What goes wrong when an event is not admissible: why each condition of a run is there. */
module Counterexamples {
  import opened Domain
  import opened Matching
  import opened Measures
  import opened BookLaws
  import opened Funds
  import opened Engine

  /**
   A buy whose amount does not fit 64 bits, with price and quantity the interface accepts, and
   a sell that trades with it.
   */
  const UNFIT_BUY := OrderPlaced(10, 1, MAX_INT64, 200_000_000, Buy)
  const SMALL_SELL := OrderPlaced(11, 2, 1, 100_000_000, Sell)

  lemma UnfitAmounts()
    ensures !QuoteFits(MAX_INT64, 200_000_000) && QuoteAmount(MAX_INT64, 200_000_000) == -2
    ensures QuoteAmount(MAX_INT64, 100_000_000) == MAX_INT64
  {}

  const OPENING := DepositCreated(1, USD, 0)
  const FUNDING := DepositCreated(2, BTC, 100_000_000)

  const UNFIT := Entry(10, 1, MAX_INT64, 200_000_000, 200_000_000, Buy)

  /** The unfit buy rests with -2 locked for it. */
  const AFTER_BUY := State(BookValue([Level(MAX_INT64, [UNFIT])], []), map[Account(1, USD) := Balance(2, -2)], 0)

  lemma UnfitBuyLocksNothing()
    ensures Handle(Handle(INITIAL, OPENING).state, UNFIT_BUY).state == AFTER_BUY
  {
    hide QuoteAmount, WrapInt64, PlaceOrder;
    UnfitAmounts();
    var b := map[Account(1, USD) := Balance(0, 0)];
    CreditSame(map[], Account(1, USD), 0, 0);
    CreditSame(b, Account(1, USD), 2, -2);
    assert Handle(INITIAL, OPENING).state == State(EMPTY_BOOK, b, 0);
    assert Credit(b, Account(1, USD), 2, -2) == AFTER_BUY.balances;
    UnfitBuyRests();
    RestStep(State(EMPTY_BOOK, b, 0), UNFIT_BUY, AFTER_BUY.balances, AFTER_BUY.book);
  }

  lemma UnfitBuyRests()
    ensures PlaceOrder(EMPTY_BOOK, UNFIT, 0) == PlaceResult(AFTER_BUY.book, [], Placed)
  {}

  /** The seller's balances before and after the lock. */
  function Funded(locked: bool): Balances {
    AFTER_BUY.balances[Account(2, BTC) := if locked then Balance(0, 100_000_000) else Balance(100_000_000, 0)]
  }

  lemma {:induction false} FundsLock()
    ensures Handle(AFTER_BUY, FUNDING).state == AFTER_BUY.(balances := Funded(false))
    ensures LockFunds(Funded(false), Account(2, BTC), 100_000_000) == Some(Funded(true))
  {
    hide WrapInt64, HandlePlaced, HandleCancel;
    CreditSame(AFTER_BUY.balances, Account(2, BTC), 100_000_000, 0);
    CreditSame(Funded(false), Account(2, BTC), -100_000_000, 100_000_000);
    assert Credit(Funded(false), Account(2, BTC), -100_000_000, 100_000_000) == Funded(true);
  }

  const SMALL := Entry(11, 2, 1, 100_000_000, 100_000_000, Sell)
  const SMALL_TRADE := Trade(0, MAX_INT64, 100_000_000, 11, 10, 2, 1)

  lemma SellTrades()
    ensures PlaceOrder(AFTER_BUY.book, SMALL, 0).trades == [SMALL_TRADE]
  {
    var done := Reduce(SMALL, 100_000_000);
    assert [UNFIT][1..] == [] && Fill(SMALL, UNFIT, MAX_INT64, 0) == SMALL_TRADE;
    assert Sweep([], MAX_INT64, done, 1) == Swept([], [], done);
    var swept := Sweep([UNFIT], MAX_INT64, SMALL, 0);
    assert swept.trades == [SMALL_TRADE] && swept.queue != [];
  }

  lemma TradeCannotSettle()
    ensures Handle(Handle(AFTER_BUY, FUNDING).state, SMALL_SELL).outcome == SettlementPanic
  {
    hide QuoteAmount, PlaceOrder, LockFunds;
    UnfitAmounts();
    FundsLock();
    SellTrades();
    assert !CanSettle(Funded(true), 1, 2, MAX_INT64, 100_000_000);
    assert SettleAll(Funded(true), Sell, [SMALL_TRADE]) == Settlement(Funded(true), false);
  }

  /** The buy's amount wraps to -2, so it locks nothing; the trade then panics in settlement. */
  lemma UnfitBuyPanics()
    ensures UNFIT_BUY.price > 0 && 0 < UNFIT_BUY.quantity <= MAX_INT32 && !Admissible(UNFIT_BUY)
    ensures Admissible(OPENING) && Admissible(FUNDING) && Admissible(SMALL_SELL)
    ensures Handle(Run(INITIAL, [OPENING, UNFIT_BUY, FUNDING]), SMALL_SELL).outcome == SettlementPanic
  {
    hide Handle, QuoteAmount, QuoteFits, Run;
    UnfitAmounts();
    RunEmpty(INITIAL);
    RunSnoc(INITIAL, [], OPENING);
    RunSnoc(INITIAL, [OPENING], UNFIT_BUY);
    RunSnoc(INITIAL, [OPENING, UNFIT_BUY], FUNDING);
    assert [] + [OPENING] == [OPENING] && [OPENING] + [UNFIT_BUY] == [OPENING, UNFIT_BUY]
        && [OPENING, UNFIT_BUY] + [FUNDING] == [OPENING, UNFIT_BUY, FUNDING];
    UnfitBuyLocksNothing();
    TradeCannotSettle();
  }

  /** Placing an id that still rests leaves two orders under it: freshness of ids is needed. */
  lemma RepeatedIdRestsTwice()
    ensures var once := PlaceOrder(EMPTY_BOOK, Entry(1, 7, 5, 1, 1, Buy), 0).book;
            Count(PlaceOrder(once, Entry(1, 7, 6, 1, 1, Buy), 0).book, 1) == 2
  {
    var a, b := Entry(1, 7, 5, 1, 1, Buy), Entry(1, 7, 6, 1, 1, Buy);
    var once := PlaceOrder(EMPTY_BOOK, a, 0).book;
    assert once == BookValue([Level(5, [a])], []);
    var twice := PlaceOrder(once, b, 0).book;
    assert twice.bids == [Level(6, [b])] + once.bids && twice.asks == [];
    assert twice.bids[1..] == once.bids && once.bids[1..] == [];
    assert Sum(CountOf(1), [a]) == 1 && Sum(CountOf(1), [b]) == 1;
  }

  /** A negative deposit takes an account below zero. */
  lemma NegativeDepositOverdraws()
    ensures !NonNegative(Run(INITIAL, [DepositCreated(1, USD, -1)]).balances)
  {
    var events := [DepositCreated(1, USD, -1)];
    assert Run(INITIAL, events) == Handle(Run(INITIAL, []), events[0]).state by {
      assert events[..0] == [];
    }
    assert Account(1, USD) in Run(INITIAL, events).balances;
  }

  const BTC_DEPOSIT := DepositCreated(1, BTC, 1)
  const USD_DEPOSIT := DepositCreated(1, USD, 0)
  const OWN_SELL := OrderPlaced(1, 1, 5, 1, Sell)
  const OWN_BUY := OrderPlaced(2, 1, 6, 1, Buy)

  /** The balances of user 1 while one BTC is available, and once it is locked. */
  function OneBTC(locked: bool): Balances {
    map[Account(1, BTC) := if locked then Balance(0, 1) else Balance(1, 0), Account(1, USD) := Balance(0, 0)]
  }

  /** The sell rests, and then the buy too. */
  function OwnOrders(both: bool): BookValue {
    BookValue(if both then [Level(6, [Entry(2, 1, 6, 1, 1, Buy)])] else [], [Level(5, [Entry(1, 1, 5, 1, 1, Sell)])])
  }

  /** A user's own two orders cross the book: a sell at 5, then a buy at 6, which do not trade. */
  lemma OwnOrdersCross()
    ensures AdmissibleRun([BTC_DEPOSIT, USD_DEPOSIT, OWN_SELL, OWN_BUY])
    ensures Run(INITIAL, [BTC_DEPOSIT, USD_DEPOSIT, OWN_SELL, OWN_BUY]).book == OwnOrders(true)
    ensures OwnOrders(true).bids[0].price == 6 && OwnOrders(true).asks[0].price == 5 && !Uncrossed(OwnOrders(true))
  {
    hide Run, Handle, AdmissibleRun, OneBTC;
    CrossAdmissible();
    RunFour(BTC_DEPOSIT, USD_DEPOSIT, OWN_SELL, OWN_BUY);
    CrossOpens();
    CrossSells();
    CrossBuys();
  }

  lemma CrossAdmissible()
    ensures AdmissibleRun([BTC_DEPOSIT, USD_DEPOSIT, OWN_SELL, OWN_BUY])
  {}

  lemma CrossOpens()
    ensures Handle(Handle(INITIAL, BTC_DEPOSIT).state, USD_DEPOSIT).state == State(EMPTY_BOOK, OneBTC(false), 0)
  {
    hide HandlePlaced, HandleCancel;
  }

  lemma CrossSells()
    ensures Handle(State(EMPTY_BOOK, OneBTC(false), 0), OWN_SELL).state == State(OwnOrders(false), OneBTC(true), 0)
  {
    hide PlaceOrder;
    OwnOrdersRest();
    assert Credit(OneBTC(false), Account(1, BTC), -1, 1) == OneBTC(true);
  }

  /** The buy's amount rounds down to nothing. */
  lemma CrossBuys()
    ensures Handle(State(OwnOrders(false), OneBTC(true), 0), OWN_BUY).state == State(OwnOrders(true), OneBTC(true), 0)
  {
    hide PlaceOrder;
    OwnOrdersRest();
    assert QuoteAmount(6, 1) == 0;
    assert Credit(OneBTC(true), Account(1, USD), 0, 0) == OneBTC(true);
  }

  lemma RunFour(a: Event, b: Event, c: Event, d: Event)
    ensures Run(INITIAL, [a, b, c, d]) == Handle(Handle(Handle(Handle(INITIAL, a).state, b).state, c).state, d).state
  {
    hide Run, Handle;
    RunEmpty(INITIAL);
    RunSnoc(INITIAL, [], a);
    RunSnoc(INITIAL, [a], b);
    RunSnoc(INITIAL, [a, b], c);
    RunSnoc(INITIAL, [a, b, c], d);
    assert [] + [a] == [a] && [a] + [b] == [a, b] && [a, b] + [c] == [a, b, c] && [a, b, c] + [d] == [a, b, c, d];
  }

  lemma OwnOrdersRest()
    ensures PlaceOrder(EMPTY_BOOK, Entry(1, 1, 5, 1, 1, Sell), 0) == PlaceResult(OwnOrders(false), [], Placed)
    ensures PlaceOrder(OwnOrders(false), Entry(2, 1, 6, 1, 1, Buy), 0) == PlaceResult(OwnOrders(true), [], Placed)
  {
    var first, second := Entry(1, 1, 5, 1, 1, Sell), Entry(2, 1, 6, 1, 1, Buy);
    assert [first][1..] == [] && [Level(5, [first])][1..] == [];
    assert Sweep([], 5, second, 0) == Swept([], [], second);
    assert Sweep([first], 5, second, 0) == Swept([first], [], second);
    assert Match([Level(5, [first])], second, 0) == Matched([Level(5, [first])], [], second);
  }
}
