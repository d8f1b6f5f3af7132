/** The worker's in-memory state machine: what each event does to the book and the balances. */
module Engine {
  import opened Domain
  import opened Matching
  import opened Funds

  datatype Event =
    | OrderPlaced(id: Uuid, user: Uuid, price: int, quantity: int, side: Side)
    | CancelRequested(id: Uuid)
    | DepositCreated(user: Uuid, asset: Asset, amount: int)

  /** The in-memory state; `nextTrade` is the id generator's next trade id. */
  datatype State = State(book: BookValue, balances: Balances, nextTrade: nat)

  /**
   How an event ended: handled; an order rejected for lack of funds; a cancel of an order not on
   the book; or one of the two outcomes that mean memory is inconsistent: the panic on a failed
   settlement and the out-of-sync return on a failed unlock.
   */
  datatype Outcome = Done | Rejected | Unknown | SettlementPanic | OutOfSync

  datatype Reply = Reply(state: State, outcome: Outcome, status: Status, trades: seq<Trade>)

  const INITIAL := State(EMPTY_BOOK, map[], 0)

  /** The account an order of this side locks funds in. */
  function LockAccount(user: Uuid, side: Side): Account {
    Account(user, if side.Buy? then USD else BTC)
  }

  /** The funds an open quantity keeps locked. */
  function LockAmount(price: int, quantity: int, side: Side): int {
    if side.Buy? then QuoteAmount(price, quantity) else quantity
  }

  function Buyer(t: Trade, taker: Side): Uuid {
    if taker.Buy? then t.takerUser else t.makerUser
  }

  function Seller(t: Trade, taker: Side): Uuid {
    if taker.Buy? then t.makerUser else t.takerUser
  }

  datatype Settlement = Settlement(balances: Balances, ok: bool)

  /** Settles trades one by one; stops at the first that cannot be settled. */
  function SettleAll(b: Balances, taker: Side, trades: seq<Trade>): Settlement
    decreases |trades|
  {
    if trades == [] then Settlement(b, true)
    else
      match SettleTrade(b, Buyer(trades[0], taker), Seller(trades[0], taker), trades[0].price, trades[0].quantity)
      case None => Settlement(b, false)
      case Some(after) => SettleAll(after, taker, trades[1..])
  }

  /** The balances after the transfers of all the trades, one trade at a time, on unbounded integers. */
  function TransferAll(b: Balances, taker: Side, trades: seq<Trade>): Balances
    decreases |trades|
  {
    if trades == [] then b
    else
      var t := trades[0];
      TransferAll(Transfer(b, Buyer(t, taker), Seller(t, taker), t.price, t.quantity), taker, trades[1..])
  }

  function HandlePlaced(s: State, id: Uuid, user: Uuid, price: int, quantity: int, side: Side): Reply {
    match LockFunds(s.balances, LockAccount(user, side), LockAmount(price, quantity, side))
    case None => Reply(s, Outcome.Rejected, Status.Rejected, [])
    case Some(locked) =>
      var r := PlaceOrder(s.book, Entry(id, user, price, quantity, quantity, side), s.nextTrade);
      var settled := SettleAll(locked, side, r.trades);
      Reply(State(r.book, settled.balances, s.nextTrade + |r.trades|),
            if settled.ok then Done else SettlementPanic, r.status, r.trades)
  }

  function HandleCancel(s: State, id: Uuid): Reply {
    match CancelOrder(s.book, id)
    case None => Reply(s, Unknown, New, [])
    case Some((book, e)) =>
      match UnlockFunds(s.balances, LockAccount(e.user, e.side), LockAmount(e.price, e.remaining, e.side))
      case None => Reply(s.(book := book), OutOfSync, New, [])
      case Some(unlocked) => Reply(s.(book := book, balances := unlocked), Done, Cancelled, [])
  }

  function Handle(s: State, e: Event): Reply {
    match e
    case OrderPlaced(id, user, price, quantity, side) => HandlePlaced(s, id, user, price, quantity, side)
    case CancelRequested(id) => HandleCancel(s, id)
    case DepositCreated(user, asset, amount) =>
      Reply(s.(balances := Deposit(s.balances, Account(user, asset), amount)), Done, New, [])
  }

  /** The state after a list of events. */
  function Run(s: State, events: seq<Event>): State {
    if events == [] then s
    else Handle(Run(s, events[..|events| - 1]), events[|events| - 1]).state
  }

  lemma RunEmpty(s: State)
    ensures Run(s, []) == s
  {}

  lemma RunSnoc(s: State, events: seq<Event>, e: Event)
    ensures Run(s, events + [e]) == Handle(Run(s, events), e).state
  {
    assert (events + [e])[..|events|] == events;
  }

  /** A placement whose funds lock and that trades with nobody. */
  lemma RestStep(s: State, e: Event, locked: Balances, book: BookValue)
    requires e.OrderPlaced?
    requires LockFunds(s.balances, LockAccount(e.user, e.side), LockAmount(e.price, e.quantity, e.side)) == Some(locked)
    requires PlaceOrder(s.book, Entry(e.id, e.user, e.price, e.quantity, e.quantity, e.side), s.nextTrade)
        == PlaceResult(book, [], Placed)
    ensures Handle(s, e).state == State(book, locked, s.nextTrade)
  {
    hide PlaceOrder, LockFunds, QuoteAmount;
  }

  // ---------- What the worker may be sent ----------

  /**
   What the interface admits: positive prices and capped positive quantities, buy amounts that
   fit 64 bits, deposits that are not negative.
   */
  predicate Admissible(e: Event) {
    match e
    case OrderPlaced(_, _, price, quantity, side) =>
      price > 0 && 0 < quantity <= MAX_INT32 && (side.Buy? ==> QuoteFits(price, quantity))
    case CancelRequested(_) => true
    case DepositCreated(_, _, amount) => amount >= 0
  }

  predicate AllAdmissible(events: seq<Event>) {
    forall i | 0 <= i < |events| :: Admissible(events[i])
  }

  /** What an event deposits of an asset. */
  function Deposited(e: Event, a: Asset): int {
    if e.DepositCreated? && e.asset == a then e.amount else 0
  }

  function AllDeposited(events: seq<Event>, a: Asset): int {
    if events == [] then 0 else AllDeposited(events[..|events| - 1], a) + Deposited(events[|events| - 1], a)
  }

  lemma DepositedSnoc(events: seq<Event>, e: Event, a: Asset)
    ensures AllDeposited(events + [e], a) == AllDeposited(events, a) + Deposited(e, a)
  {
    assert (events + [e])[..|events|] == events;
  }

  /** The deposits of each traded asset fit 64 bits. */
  predicate DepositsFit(events: seq<Event>) {
    AllDeposited(events, BTC) <= MAX_INT64 && AllDeposited(events, USD) <= MAX_INT64
  }

  predicate Places(e: Event, id: Uuid) {
    e.OrderPlaced? && e.id == id
  }

  /** Admissible events in which no order id is placed twice. */
  predicate AdmissibleRun(events: seq<Event>) {
    && AllAdmissible(events)
    && (forall i, j | 0 <= i < j < |events| && events[i].OrderPlaced? :: !Places(events[j], events[i].id))
  }

  lemma RunIsAdmissible(events: seq<Event>)
    requires AdmissibleRun(events)
    ensures AllAdmissible(events)
  {}

  /** The ids placed by a list of events, in order. */
  function PlacedIds(events: seq<Event>): seq<Uuid> {
    if events == [] then []
    else
      var front, e := PlacedIds(events[..|events| - 1]), events[|events| - 1];
      if e.OrderPlaced? then front + [e.id] else front
  }
}
