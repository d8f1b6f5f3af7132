/** How much may be deposited before memory becomes inconsistent: the exact bound, and runs beyond it. */
module Overflow {
  import opened Domain
  import opened Matching
  import opened BookLaws
  import opened Funds
  import opened Engine
  import opened Safety
  import opened RunLaws

  predicate IdsBelow(events: seq<Event>, n: nat) {
    forall i | 0 <= i < |events| && events[i].OrderPlaced? :: events[i].id < n
  }

  /** An admissible run, its deposits, and the state it ends in. */
  predicate EndsIn(events: seq<Event>, s: State, btc: int, usd: int, n: nat) {
    && AdmissibleRun(events) && IdsBelow(events, n) && Run(INITIAL, events) == s
    && AllDeposited(events, BTC) == btc && AllDeposited(events, USD) == usd
  }

  lemma EndsInInitial()
    ensures EndsIn([], INITIAL, 0, 0, 0)
  {}

  lemma {:induction false} EndsInNext(events: seq<Event>, s: State, btc: int, usd: int, n: nat, e: Event, next: State)
    requires EndsIn(events, s, btc, usd, n) && Admissible(e) && Handle(s, e).state == next
    requires e.OrderPlaced? ==> e.id == n
    ensures EndsIn(events + [e], next, btc + Deposited(e, BTC), usd + Deposited(e, USD),
                   n + if e.OrderPlaced? then 1 else 0)
  {
    hide Handle, Run, AllDeposited, Admissible;
    RunSnoc(INITIAL, events, e);
    DepositedSnoc(events, e, BTC);
    DepositedSnoc(events, e, USD);
  }

  // ---------- Limits on deposits ----------

  predicate Inconsistent(o: Outcome) {
    o == SettlementPanic || o == OutOfSync
  }

  predicate Within(events: seq<Event>, btc: int, usd: int) {
    AllDeposited(events, BTC) <= btc && AllDeposited(events, USD) <= usd
  }

  /** No admissible run that keeps to the limits ends in the panic or out of sync. */
  ghost predicate NeverInconsistentWithin(btc: int, usd: int) {
    forall events, e | AdmissibleRun(events + [e]) && Within(events + [e], btc, usd) ::
      !Inconsistent(Handle(Run(INITIAL, events), e).outcome)
  }

  /** No admissible run that keeps to the limits ends in the panic. */
  ghost predicate NeverPanicsWithin(btc: int, usd: int) {
    forall events, e | AdmissibleRun(events + [e]) && Within(events + [e], btc, usd) ::
      Handle(Run(INITIAL, events), e).outcome != SettlementPanic
  }

  lemma FitsConsistent(btc: int, usd: int)
    requires btc <= MAX_INT64 && usd <= MAX_INT64
    ensures NeverInconsistentWithin(btc, usd)
  {
    hide Handle, Run, AllDeposited, AdmissibleRun, AllAdmissible;
    forall events, e | AdmissibleRun(events + [e]) && Within(events + [e], btc, usd)
      ensures !Inconsistent(Handle(Run(INITIAL, events), e).outcome)
    {
      RunIsAdmissible(events + [e]);
      assert (events + [e])[..|events|] == events;
      NeverInconsistent(events + [e], |events|);
    }
  }

  /** A run with a last event, as the limits see it. */
  lemma {:induction false} RunEnds(events: seq<Event>, s: State, btc: int, usd: int, n: nat, e: Event)
    requires EndsIn(events, s, btc, usd, n) && Admissible(e) && (e.OrderPlaced? ==> e.id == n)
    ensures AdmissibleRun(events + [e]) && Run(INITIAL, events) == s
    ensures Within(events + [e], btc + Deposited(e, BTC), usd + Deposited(e, USD))
  {
    hide Handle, Run, AllDeposited, Admissible;
    EndsInNext(events, s, btc, usd, n, e, Handle(s, e).state);
  }

  /** What one unit more than the range wraps to. */
  const LOWEST := -MAX_INT64 - 1

  /** What one account holds, and no other account. */
  function Purse(k: Account, available: int, locked: int): Balances {
    map[k := Balance(available, locked)]
  }

  lemma {:induction false} PurseMoves(k: Account, available: int, locked: int, x: int, y: int)
    ensures Credit64(Purse(k, available, locked), k, x, y) == Purse(k, WrapInt64(available + x), WrapInt64(locked + y))
    ensures Credit64(map[], k, x, y) == Purse(k, WrapInt64(x), WrapInt64(y))
    ensures k in Purse(k, available, locked) && Purse(k, available, locked)[k] == Balance(available, locked)
  {
    hide WrapInt64;
  }

  lemma WrapsAround()
    ensures WrapInt64(MAX_INT64) == MAX_INT64 && WrapInt64(0) == 0 && WrapInt64(1) == 1
    ensures WrapInt64(MAX_INT64 + 1) == LOWEST
  {}

  // ---------- 2^63 USD: two buys whose locks add up beyond the range ----------

  const USD1 := Account(1, USD)

  /** The buy that locks all of the range. */
  const BIG_BUY := OrderPlaced(0, 1, MAX_INT64, DECIMALS, Buy)
  const UNIT_BUY := OrderPlaced(1, 1, DECIMALS, 1, Buy)
  const BIG := Entry(0, 1, MAX_INT64, DECIMALS, DECIMALS, Buy)
  const UNIT := Entry(1, 1, DECIMALS, 1, 1, Buy)

  function BigBook(): BookValue {
    BookValue([Level(MAX_INT64, [BIG])], [])
  }

  function BuyBook(): BookValue {
    BookValue([Level(MAX_INT64, [BIG]), Level(DECIMALS, [UNIT])], [])
  }

  lemma BuyAmounts()
    ensures QuoteAmount(MAX_INT64, DECIMALS) == MAX_INT64 && QuoteAmount(DECIMALS, 1) == 1
    ensures QuoteAmount(MAX_INT64, 1) == MAX_INT64 / DECIMALS
    ensures QuoteFits(MAX_INT64, DECIMALS) && QuoteFits(DECIMALS, 1)
  {}

  lemma BuysRest()
    ensures PlaceOrder(EMPTY_BOOK, BIG, 0) == PlaceResult(BigBook(), [], Placed)
    ensures PlaceOrder(BigBook(), UNIT, 0) == PlaceResult(BuyBook(), [], Placed)
  {
    var ladder := [Level(MAX_INT64, [BIG])];
    assert ladder[1..] == [] && Add([], UNIT) == [Level(DECIMALS, [UNIT])];
    assert Add(ladder, UNIT) == [ladder[0]] + [Level(DECIMALS, [UNIT])];
  }

  /** The locked field has wrapped around. */
  lemma {:induction false} BuysWrap() returns (events: seq<Event>)
    ensures EndsIn(events, State(BuyBook(), Purse(USD1, 0, LOWEST), 0), 0, MAX_INT64 + 1, 2)
  {
    hide QuoteAmount, WrapInt64, Credit64, Purse, PlaceOrder, EndsIn, BigBook, BuyBook, HandlePlaced, HandleCancel;
    BuyAmounts();
    BuysRest();
    WrapsAround();
    EndsInInitial();
    PurseMoves(USD1, 0, 0, MAX_INT64, 0);
    PurseMoves(USD1, MAX_INT64, 0, -MAX_INT64, MAX_INT64);
    PurseMoves(USD1, 0, MAX_INT64, 1, 0);
    PurseMoves(USD1, 1, MAX_INT64, -1, 1);
    var s := State(EMPTY_BOOK, Purse(USD1, MAX_INT64, 0), 0);
    var d := DepositCreated(1, USD, MAX_INT64);
    EndsInNext([], INITIAL, 0, 0, 0, d, s);
    events := [] + [d];
    var s' := State(BigBook(), Purse(USD1, 0, MAX_INT64), 0);
    RestStep(s, BIG_BUY, s'.balances, s'.book);
    EndsInNext(events, s, 0, MAX_INT64, 0, BIG_BUY, s');
    events := events + [BIG_BUY];
    s := State(BigBook(), Purse(USD1, 1, MAX_INT64), 0);
    d := DepositCreated(1, USD, 1);
    EndsInNext(events, s', 0, MAX_INT64, 1, d, s);
    events := events + [d];
    s' := State(BuyBook(), Purse(USD1, 0, LOWEST), 0);
    RestStep(s, UNIT_BUY, s'.balances, s'.book);
    EndsInNext(events, s, 0, MAX_INT64 + 1, 1, UNIT_BUY, s');
    events := events + [UNIT_BUY];
  }

  const DEALT := OrderPlaced(2, 2, MAX_INT64, 1, Sell)

  /** The best buy trades with the sell. */
  lemma BuysTrade()
    ensures PlaceOrder(BuyBook(), Entry(2, 2, MAX_INT64, 1, 1, Sell), 0).trades == [Trade(0, MAX_INT64, 1, 2, 0, 2, 1)]
  {
    var taker := Entry(2, 2, MAX_INT64, 1, 1, Sell);
    var done := Reduce(taker, 1);
    assert [BIG][1..] == [] && Fill(taker, BIG, MAX_INT64, 0) == Trade(0, MAX_INT64, 1, 2, 0, 2, 1);
    assert Sweep([], MAX_INT64, done, 1) == Swept([], [], done);
    var swept := Sweep([BIG], MAX_INT64, taker, 0);
    assert swept.trades == [Trade(0, MAX_INT64, 1, 2, 0, 2, 1)] && swept.queue != [];
    MatchUnfold(BuyBook().bids, taker, 0);
  }

  lemma {:induction false} BuysCannotSettle(s: State)
    requires s.book == BuyBook() && s.nextTrade == 0 && Get(s.balances, USD1).locked == LOWEST
    requires Get(s.balances, Account(2, BTC)).available == 1
    ensures Handle(s, DEALT).outcome == SettlementPanic
  {
    hide PlaceOrder, QuoteAmount, WrapInt64, BuyBook;
    BuyAmounts();
    BuysTrade();
    var t := Trade(0, MAX_INT64, 1, 2, 0, 2, 1);
    var locked := LockFunds(s.balances, Account(2, BTC), 1).value;
    assert !CanSettle(locked, 1, 2, MAX_INT64, 1);
    assert SettleAll(locked, Sell, [t]) == Settlement(locked, false);
  }

  lemma {:induction false} BuysCannotCancel(s: State)
    requires s.book == BuyBook() && Get(s.balances, USD1).locked == LOWEST
    ensures Handle(s, CancelRequested(0)).outcome == OutOfSync
  {
    hide QuoteAmount, WrapInt64, Remove, HandlePlaced;
    BuyAmounts();
    assert FindIn([BIG], 0) == Some(BIG);
    assert BuyBook().FindOrder(0) == Some(BIG);
  }

  /** With 2^63 USD deposited a cancel finds less locked than the order had locked. */
  lemma {:induction false} BuysEndOutOfSync() returns (events: seq<Event>)
    ensures AdmissibleRun(events + [CancelRequested(0)]) && Within(events + [CancelRequested(0)], 0, MAX_INT64 + 1)
    ensures Handle(Run(INITIAL, events), CancelRequested(0)).outcome == OutOfSync
  {
    hide Handle, Run, AllDeposited, AdmissibleRun, BuyBook;
    events := BuysWrap();
    var s := State(BuyBook(), Purse(USD1, 0, LOWEST), 0);
    RunEnds(events, s, 0, MAX_INT64 + 1, 2, CancelRequested(0));
    BuysCannotCancel(s);
  }

  /** With 2^63 USD and one unit of BTC deposited a trade cannot be settled. */
  lemma {:induction false} BuysEndInPanic() returns (events: seq<Event>)
    ensures AdmissibleRun(events + [DEALT]) && Within(events + [DEALT], 1, MAX_INT64 + 1)
    ensures Handle(Run(INITIAL, events), DEALT).outcome == SettlementPanic
  {
    hide Handle, Run, AllDeposited, AdmissibleRun, BuyBook, EndsIn, WrapInt64;
    events := BuysWrap();
    var s := State(BuyBook(), Purse(USD1, 0, LOWEST), 0);
    var funding := DepositCreated(2, BTC, 1);
    WrapsAround();
    var next := DepositStep(s, funding);
    EndsInNext(events, s, 0, MAX_INT64 + 1, 2, funding, next);
    events := events + [funding];
    RunEnds(events, next, 1, MAX_INT64 + 1, 2, DEALT);
    BuysCannotSettle(next);
  }

  lemma {:induction false} DepositStep(s: State, e: Event) returns (next: State)
    requires e.DepositCreated?
    ensures next == s.(balances := Deposit(s.balances, Account(e.user, e.asset), e.amount))
    ensures Handle(s, e).state == next
  {
    hide Deposit;
    next := s.(balances := Deposit(s.balances, Account(e.user, e.asset), e.amount));
  }

  // ---------- 2^63 BTC: sells whose locks add up beyond the range ----------

  /** As many sells of the greatest quantity as lock all but one unit of the range. */
  const MANY: nat := 2 * (MAX_INT32 + 2)
  const BTC2 := Account(2, BTC)

  function SellOf(id: nat, quantity: int): Event {
    OrderPlaced(id, 2, 1, quantity, Sell)
  }

  function Resting(id: nat, quantity: int): Entry {
    Entry(id, 2, 1, quantity, quantity, Sell)
  }

  function SellBook(queue: seq<Entry>): BookValue {
    BookValue([], if queue == [] then [] else [Level(1, queue)])
  }

  lemma SellsFill()
    ensures MANY * MAX_INT32 == MAX_INT64 - 1
  {}

  lemma SellRests(queue: seq<Entry>, id: nat, quantity: int)
    requires quantity > 0
    ensures PlaceOrder(SellBook(queue), Resting(id, quantity), 0)
         == PlaceResult(SellBook(queue + [Resting(id, quantity)]), [], Placed)
  {
    var e := Resting(id, quantity);
    if queue == [] {
      assert queue + [e] == [e] && Add([], e) == [Level(1, [e])];
    } else {
      assert Add([Level(1, queue)], e) == [Level(1, queue + [e])];
    }
  }

  /** One more sell locks its quantity and rests behind the others. */
  lemma {:induction false} SellLocks(events: seq<Event>, queue: seq<Entry>, available: int, locked: int, btc: int,
                                     n: nat, quantity: int)
    requires EndsIn(events, State(SellBook(queue), Purse(BTC2, available, locked), 0), btc, 0, n)
    requires 0 < quantity <= available && quantity <= MAX_INT32 && available <= MAX_INT64
    ensures EndsIn(events + [SellOf(n, quantity)],
                   State(SellBook(queue + [Resting(n, quantity)]),
                         Purse(BTC2, available - quantity, WrapInt64(locked + quantity)), 0), btc, 0, n + 1)
  {
    hide WrapInt64, Credit64, Purse, PlaceOrder, EndsIn, SellBook, HandlePlaced, HandleCancel;
    var s := State(SellBook(queue), Purse(BTC2, available, locked), 0);
    var e := SellOf(n, quantity);
    var locks := Purse(BTC2, available - quantity, WrapInt64(locked + quantity));
    PurseMoves(BTC2, available, locked, -quantity, quantity);
    WrapIffOut(available - quantity);
    SellRests(queue, n, quantity);
    RestStep(s, e, locks, SellBook(queue + [Resting(n, quantity)]));
    EndsInNext(events, s, btc, 0, n, e, State(SellBook(queue + [Resting(n, quantity)]), locks, 0));
  }

  /** The first sells of the greatest quantity, in the order they rest. */
  function Sells(n: nat): (queue: seq<Entry>)
    ensures |queue| == n
    ensures n > 0 ==> queue[0] == Resting(0, MAX_INT32)
  {
    if n == 0 then [] else Sells(n - 1) + [Resting(n - 1, MAX_INT32)]
  }

  lemma {:induction false} SellsRest(n: nat) returns (events: seq<Event>)
    requires n <= MANY
    ensures EndsIn(events, State(SellBook(Sells(n)), Purse(BTC2, MAX_INT64 - n * MAX_INT32, n * MAX_INT32), 0),
                   MAX_INT64, 0, n)
  {
    hide WrapInt64, Credit64, Purse, EndsIn, HandlePlaced, HandleCancel;
    if n == 0 {
      var d := DepositCreated(2, BTC, MAX_INT64);
      WrapsAround();
      PurseMoves(BTC2, 0, 0, MAX_INT64, 0);
      EndsInInitial();
      var next := DepositStep(INITIAL, d);
      EndsInNext([], INITIAL, 0, 0, 0, d, next);
      events := [] + [d];
    } else {
      events := SellsRest(n - 1);
      var held := (n - 1) * MAX_INT32;
      SellsFill();
      WrapIffOut(held + MAX_INT32);
      SellLocks(events, Sells(n - 1), MAX_INT64 - held, held, MAX_INT64, n - 1, MAX_INT32);
      events := events + [SellOf(n - 1, MAX_INT32)];
    }
  }

  /** The sells that lock all of the range, and one unit more. */
  function AllSells(): (queue: seq<Entry>)
    ensures queue != [] && queue[0] == Resting(0, MAX_INT32)
  {
    Sells(MANY) + [Resting(MANY, 1)] + [Resting(MANY + 1, 1)]
  }

  /** After 2^63 BTC are deposited and all locked, the locked field has wrapped around. */
  lemma {:induction false} SellsWrap() returns (events: seq<Event>)
    ensures EndsIn(events, State(SellBook(AllSells()), Purse(BTC2, 0, LOWEST), 0), MAX_INT64 + 1, 0, MANY + 2)
  {
    hide WrapInt64, Credit64, Purse, EndsIn, HandlePlaced, HandleCancel, SellBook, Sells;
    events := SellsRest(MANY);
    SellsFill();
    WrapsAround();
    SellLocks(events, Sells(MANY), 1, MAX_INT64 - 1, MAX_INT64, MANY, 1);
    events := events + [SellOf(MANY, 1)];
    var queue := Sells(MANY) + [Resting(MANY, 1)];
    var s := State(SellBook(queue), Purse(BTC2, 0, MAX_INT64), 0);
    var d := DepositCreated(2, BTC, 1);
    PurseMoves(BTC2, 0, MAX_INT64, 1, 0);
    var next := DepositStep(s, d);
    EndsInNext(events, s, MAX_INT64, 0, MANY + 1, d, next);
    events := events + [d];
    SellLocks(events, queue, 1, MAX_INT64, MAX_INT64 + 1, MANY + 1, 1);
    events := events + [SellOf(MANY + 1, 1)];
  }

  lemma {:induction false} SellsCannotCancel(s: State)
    requires s.book == SellBook(AllSells()) && Get(s.balances, BTC2).locked == LOWEST
    ensures Handle(s, CancelRequested(0)).outcome == OutOfSync
  {
    hide QuoteAmount, WrapInt64, Remove, HandlePlaced, AllSells;
    assert FindIn(AllSells(), 0) == Some(Resting(0, MAX_INT32));
    assert SellBook(AllSells()).FindOrder(0) == Some(Resting(0, MAX_INT32));
  }

  /** A buy whose amount rounds down to nothing. */
  const PENNY_BUY := OrderPlaced(MANY + 2, 1, 1, 1, Buy)
  const PENNY_TRADE := Trade(0, 1, 1, MANY + 2, 0, 1, 2)

  lemma SellsTrade()
    ensures PlaceOrder(SellBook(AllSells()), Entry(MANY + 2, 1, 1, 1, 1, Buy), 0).trades == [PENNY_TRADE]
  {
    hide AllSells;
    var taker, queue := Entry(MANY + 2, 1, 1, 1, 1, Buy), AllSells();
    var done := Reduce(taker, 1);
    assert Fill(taker, queue[0], 1, 0) == PENNY_TRADE;
    assert Sweep(queue[1..], 1, done, 1) == Swept(queue[1..], [], done);
    var swept := Sweep(queue, 1, taker, 0);
    assert swept.trades == [PENNY_TRADE] && swept.queue != [];
    MatchUnfold(SellBook(queue).asks, taker, 0);
  }

  lemma {:induction false} SellsCannotSettle(s: State)
    requires s.book == SellBook(AllSells()) && s.nextTrade == 0 && Get(s.balances, BTC2).locked == LOWEST
    requires Account(1, USD) in s.balances && s.balances[Account(1, USD)].available == 0
    ensures Handle(s, PENNY_BUY).outcome == SettlementPanic
  {
    hide PlaceOrder, WrapInt64, SellBook, AllSells;
    assert QuoteAmount(1, 1) == 0 by { WrapsAround(); }
    SellsTrade();
    var locked := LockFunds(s.balances, USD1, 0).value;
    assert !CanSettle(locked, 1, 2, 1, 1);
    assert SettleAll(locked, Buy, [PENNY_TRADE]) == Settlement(locked, false);
  }

  lemma {:induction false} SellsEndOutOfSync() returns (events: seq<Event>)
    ensures AdmissibleRun(events + [CancelRequested(0)]) && Within(events + [CancelRequested(0)], MAX_INT64 + 1, 0)
    ensures Handle(Run(INITIAL, events), CancelRequested(0)).outcome == OutOfSync
  {
    hide Handle, Run, AllDeposited, AdmissibleRun, SellBook, AllSells;
    events := SellsWrap();
    var s := State(SellBook(AllSells()), Purse(BTC2, 0, LOWEST), 0);
    RunEnds(events, s, MAX_INT64 + 1, 0, MANY + 2, CancelRequested(0));
    SellsCannotCancel(s);
  }

  lemma {:induction false} SellsEndInPanic() returns (events: seq<Event>)
    ensures AdmissibleRun(events + [PENNY_BUY]) && Within(events + [PENNY_BUY], MAX_INT64 + 1, 0)
    ensures Handle(Run(INITIAL, events), PENNY_BUY).outcome == SettlementPanic
  {
    hide Handle, Run, AllDeposited, AdmissibleRun, SellBook, AllSells, EndsIn, WrapInt64;
    events := SellsWrap();
    var s := State(SellBook(AllSells()), Purse(BTC2, 0, LOWEST), 0);
    var opening := DepositCreated(1, USD, 0);
    WrapsAround();
    var next := DepositStep(s, opening);
    EndsInNext(events, s, MAX_INT64 + 1, 0, MANY + 2, opening, next);
    events := events + [opening];
    RunEnds(events, next, MAX_INT64 + 1, 0, MANY + 2, PENNY_BUY);
    SellsCannotSettle(next);
  }

  // ---------- No BTC, no trades ----------

  /** Nobody has BTC to sell, and nobody sells. */
  predicate Buyers(s: State) {
    && BookOk(s.book) && s.book.asks == []
    && (forall k | k in s.balances && k.asset == BTC :: s.balances[k].available == 0)
  }

  lemma {:induction false} BuyersPlace(s: State, e: Event)
    requires Buyers(s) && e.OrderPlaced? && Admissible(e)
    ensures Buyers(Handle(s, e).state) && Handle(s, e).outcome != SettlementPanic
  {
    hide PlaceOrder, QuoteAmount, WrapInt64, BookOk, QuoteFits;
    if LockFunds(s.balances, LockAccount(e.user, e.side), LockAmount(e.price, e.quantity, e.side)).Some? {
      var taker := Entry(e.id, e.user, e.price, e.quantity, e.quantity, e.side);
      assert e.side == Buy;
      PlaceOk(s.book, taker, s.nextTrade);
      PlaceUnfold(s.book, taker, s.nextTrade);
      MatchUnfold([], taker, s.nextTrade);
    }
  }

  lemma {:induction false} BuyersCancel(s: State, id: Uuid)
    requires Buyers(s)
    ensures Buyers(HandleCancel(s, id).state) && HandleCancel(s, id).outcome != SettlementPanic
  {
    hide QuoteAmount, WrapInt64, BookOk, Remove, FindIn;
    CancelOk(s.book, id);
    if s.book.FindOrder(id).Some? {
      FindOrderOk(s.book, id);
    }
  }

  lemma {:induction false} BuyersStep(s: State, e: Event)
    requires Buyers(s) && Admissible(e) && Deposited(e, BTC) == 0
    ensures Buyers(Handle(s, e).state) && Handle(s, e).outcome != SettlementPanic
  {
    hide BookOk, HandlePlaced, HandleCancel, WrapInt64;
    WrapsAround();
    match e
    case OrderPlaced(_, _, _, _, _) => BuyersPlace(s, e);
    case CancelRequested(id) => BuyersCancel(s, id);
    case DepositCreated(_, _, _) =>
  }

  lemma {:induction false} BuyersRun(events: seq<Event>)
    requires AllAdmissible(events)
    ensures AllDeposited(events, BTC) >= 0
    ensures AllDeposited(events, BTC) == 0 ==> Buyers(Run(INITIAL, events))
  {
    hide Handle, Buyers, Admissible;
    if events == [] {
      BuyersStart();
    } else {
      var front, e := events[..|events| - 1], events[|events| - 1];
      BuyersRun(front);
      DepositsPositive(e);
      if AllDeposited(events, BTC) == 0 {
        BuyersStep(Run(INITIAL, front), e);
      }
    }
  }

  lemma BuyersStart()
    ensures Buyers(INITIAL)
  {}

  lemma DepositsPositive(e: Event)
    requires Admissible(e)
    ensures Deposited(e, BTC) >= 0
  {}

  lemma {:induction false} NothingToSell(usd: int)
    ensures NeverPanicsWithin(0, usd)
  {
    hide Handle, Run, AllDeposited, Buyers, Admissible, Deposited;
    forall events, e | AdmissibleRun(events + [e]) && Within(events + [e], 0, usd)
      ensures Handle(Run(INITIAL, events), e).outcome != SettlementPanic
    {
      var all := events + [e];
      assert all[..|events|] == events && all[|events|] == e;
      forall i | 0 <= i < |events| ensures Admissible(events[i]) {
        assert all[i] == events[i];
      }
      BuyersRun(events);
      DepositsPositive(e);
      DepositedSnoc(events, e, BTC);
      BuyersStep(Run(INITIAL, events), e);
    }
  }

  // ---------- The exact limits ----------

  /**
   Limits on the BTC and the USD deposited keep memory consistent, with no panic in settlement and no
   cancel out of sync, in every admissible run exactly when both fit a signed 64-bit integer.
   */
  lemma FitsIffConsistent(btc: int, usd: int)
    requires btc >= 0 && usd >= 0
    ensures btc <= MAX_INT64 && usd <= MAX_INT64 <==> NeverInconsistentWithin(btc, usd)
  {
    hide Handle, Run, AllDeposited, AdmissibleRun;
    if btc <= MAX_INT64 && usd <= MAX_INT64 {
      FitsConsistent(btc, usd);
    } else if usd > MAX_INT64 {
      var events := BuysEndOutOfSync();
      assert Within(events + [CancelRequested(0)], btc, usd);
    } else {
      var events := SellsEndOutOfSync();
      assert Within(events + [CancelRequested(0)], btc, usd);
    }
  }

  /** They rule out the panic in settlement exactly when both fit, or there is no BTC to trade. */
  lemma FitsIffNeverPanicsWithin(btc: int, usd: int)
    requires btc >= 0 && usd >= 0
    ensures btc == 0 || (btc <= MAX_INT64 && usd <= MAX_INT64) <==> NeverPanicsWithin(btc, usd)
  {
    hide Handle, Run, AllDeposited, AdmissibleRun;
    if btc == 0 {
      NothingToSell(usd);
    } else if btc <= MAX_INT64 && usd <= MAX_INT64 {
      FitsConsistent(btc, usd);
      assert NeverInconsistentWithin(btc, usd);
    } else if usd > MAX_INT64 {
      var events := BuysEndInPanic();
      assert Within(events + [DEALT], btc, usd);
    } else {
      var events := SellsEndInPanic();
      assert Within(events + [PENNY_BUY], btc, usd);
    }
  }
}
