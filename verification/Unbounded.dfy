/**
 The worker's state machine on unbounded integers, and when it is the machine of the code, whose
 balances are 64-bit: in every run whose deposits fit, no addition to a balance overflows.
 */
module Unbounded {
  import opened Domain
  import opened Matching
  import opened Funds
  import opened Engine
  import opened Solvency
  import opened Safety
  import opened RunLaws

  function Lock(b: Balances, k: Account, amount: int): Option<Balances> {
    if k !in b || b[k].available < amount then None else Some(Credit(b, k, -amount, amount))
  }

  function Unlock(b: Balances, k: Account, amount: int): Option<Balances> {
    if k !in b || b[k].locked < amount then None else Some(Credit(b, k, amount, -amount))
  }

  function SettleInTurn(b: Balances, taker: Side, trades: seq<Trade>): Settlement
    decreases |trades|
  {
    if trades == [] then Settlement(b, true)
    else
      var t := trades[0];
      if CanSettle(b, Buyer(t, taker), Seller(t, taker), t.price, t.quantity)
      then SettleInTurn(Transfer(b, Buyer(t, taker), Seller(t, taker), t.price, t.quantity), taker, trades[1..])
      else Settlement(b, false)
  }

  /** What an event does on unbounded integers. */
  function Handled(s: State, e: Event): Reply {
    match e
    case OrderPlaced(id, user, price, quantity, side) =>
      (match Lock(s.balances, LockAccount(user, side), LockAmount(price, quantity, side))
       case None => Reply(s, Outcome.Rejected, Status.Rejected, [])
       case Some(locked) =>
         var r := PlaceOrder(s.book, Entry(id, user, price, quantity, quantity, side), s.nextTrade);
         var settled := SettleInTurn(locked, side, r.trades);
         Reply(State(r.book, settled.balances, s.nextTrade + |r.trades|),
               if settled.ok then Done else SettlementPanic, r.status, r.trades))
    case CancelRequested(id) =>
      (match CancelOrder(s.book, id)
       case None => Reply(s, Unknown, New, [])
       case Some((book, o)) =>
         match Unlock(s.balances, LockAccount(o.user, o.side), LockAmount(o.price, o.remaining, o.side))
         case None => Reply(s.(book := book), OutOfSync, New, [])
         case Some(unlocked) => Reply(s.(book := book, balances := unlocked), Done, Cancelled, []))
    case DepositCreated(user, asset, amount) =>
      Reply(s.(balances := Credit(s.balances, Account(user, asset), amount, 0)), Done, New, [])
  }

  function RunOf(events: seq<Event>): State {
    if events == [] then INITIAL else Handled(RunOf(events[..|events| - 1]), events[|events| - 1]).state
  }

  // ---------- No addition overflows ----------

  lemma {:induction false} SettleAllSame(b: Balances, taker: Side, trades: seq<Trade>)
    requires Sane(b) && Settleable(b, taker, trades)
    ensures SettleAll(b, taker, trades) == SettleInTurn(b, taker, trades)
    decreases |trades|
  {
    hide QuoteAmount, Settle, Transfer, NonNegative, TotalsFit;
    if trades != [] {
      var t := trades[0];
      var buyer, seller := Buyer(t, taker), Seller(t, taker);
      if CanSettle(b, buyer, seller, t.price, t.quantity) {
        var c := Transfer(b, buyer, seller, t.price, t.quantity);
        SettleSame(b, buyer, seller, t.price, t.quantity);
        KeepsAccounts(b, c, buyer, seller, t.price, t.quantity);
        SettleAllSame(c, taker, trades[1..]);
      }
    }
  }

  lemma {:induction false} KeepsAccounts(b: Balances, c: Balances, buyer: Uuid, seller: Uuid, price: int, size: int)
    requires c == Transfer(b, buyer, seller, price, size)
    ensures forall k | k in b :: k in c
  {
    TransferFields(b, buyer, seller, price, size);
  }

  lemma {:induction false} LockSame(b: Balances, k: Account, amount: int)
    requires Sane(b) && IsTraded(k) && amount >= 0
    ensures LockFunds(b, k, amount) == Lock(b, k, amount)
    ensures Lock(b, k, amount).Some? ==> Sane(Lock(b, k, amount).value) && forall x | x in b ::
        x in Lock(b, k, amount).value
  {
    hide Total;
    if LockFunds(b, k, amount).Some? {
      MoveExact(b, k, amount);
    }
  }

  lemma PlacedSame(s: State, e: Event)
    requires Solvent(s) && Admissible(e) && e.OrderPlaced?
    ensures Handle(s, e) == Handled(s, e)
  {
    hide PlaceOrder, QuoteAmount, QuoteFits, SettleAll, SettleInTurn, LockFunds, Lock, Sane, Solvent;
    var taker := Entry(e.id, e.user, e.price, e.quantity, e.quantity, e.side);
    var k, amount := LockAccount(e.user, e.side), LockAmount(e.price, e.quantity, e.side);
    SolventSane(s);
    LockFits(taker);
    LockSame(s.balances, k, amount);
    if Lock(s.balances, k, amount).Some? {
      LockedIn(s.balances, k, amount);
      PlaceSound(s, taker);
      SettleAllSame(Lock(s.balances, k, amount).value, e.side, PlaceOrder(s.book, taker, s.nextTrade).trades);
    }
  }

  lemma LockedIn(b: Balances, k: Account, amount: int)
    requires Lock(b, k, amount).Some?
    ensures k in b
  {}

  lemma CancelledSame(s: State, id: Uuid)
    requires Solvent(s)
    ensures Handle(s, CancelRequested(id)) == Handled(s, CancelRequested(id))
  {
    hide CancelOrder, QuoteAmount, Solvent, Credit, Credit64, Surplus;
    CancelStep(s, id);
  }

  /** An event of a solvent state does what it does on unbounded integers, if a deposit leaves its account in range. */
  lemma StepUnbounded(s: State, e: Event)
    requires Solvent(s) && Admissible(e)
    requires e.DepositCreated? ==>
               var held := Get(s.balances, Account(e.user, e.asset));
               InInt64(held.available + e.amount) && InInt64(held.locked)
    ensures Handle(s, e) == Handled(s, e)
  {
    hide Handle, Handled;
    match e
    case OrderPlaced(_, _, _, _, _) => PlacedSame(s, e);
    case CancelRequested(id) => CancelledSame(s, id);
    case DepositCreated(_, _, _) => DepositedSame(s, e);
  }

  lemma {:induction false} DepositedSame(s: State, e: Event)
    requires e.DepositCreated?
    requires var held := Get(s.balances, Account(e.user, e.asset));
             InInt64(held.available + e.amount) && InInt64(held.locked)
    ensures Handle(s, e) == Handled(s, e)
  {
    CreditSame(s.balances, Account(e.user, e.asset), e.amount, 0);
  }

  /**
   In a run of admissible events whose deposits of every asset fit 64 bits, no addition to a balance
   overflows, at whatever point of an event: each event, and so the run, does what it does on
   unbounded integers.
   */
  lemma {:induction false} RunUnbounded(events: seq<Event>)
    requires AllAdmissible(events) && forall a :: AllDeposited(events, a) <= MAX_INT64
    ensures Run(INITIAL, events) == RunOf(events)
    ensures events != [] ==>
              var s := Run(INITIAL, events[..|events| - 1]);
              Handle(s, events[|events| - 1]) == Handled(s, events[|events| - 1])
  {
    hide Handle, Handled, Solvent, AllAdmissible, DepositFits;
    if events != [] {
      var front, e := events[..|events| - 1], events[|events| - 1];
      assert front + [e] == events;
      BeforeEvent(front, e);
      forall a ensures AllDeposited(front, a) <= MAX_INT64 {
        DepositsGrow(e, a);
        assert AllDeposited(events, a) == AllDeposited(front, a) + Deposited(e, a);
      }
      RunUnbounded(front);
      if e.DepositCreated? {
        RunHolds(front, e.asset);
        assert AllDeposited(events, e.asset) == AllDeposited(front, e.asset) + e.amount;
        StaysInRange(Run(INITIAL, front).balances, e, AllDeposited(front, e.asset));
      }
      StepUnbounded(Run(INITIAL, front), e);
    }
  }

  lemma {:induction false} StaysInRange(b: Balances, e: Event, deposited: int)
    requires e.DepositCreated? && Admissible(e) && Holds(b, e.asset, deposited) && deposited + e.amount <= MAX_INT64
    ensures var held := Get(b, Account(e.user, e.asset));
            InInt64(held.available + e.amount) && InInt64(held.locked)
  {
    hide Total;
    TotalNonNegative(b, e.asset);
    if Account(e.user, e.asset) in b {
      AccountBound(b, Account(e.user, e.asset));
    }
  }
}
