/** The worker: hands each event to the book, the balance cache and the database, in that order. */
module Worker {
  import opened Domain
  import opened Matching
  import opened Funds
  import opened Engine
  import opened Book
  import opened BalanceCache
  import opened Rows
  import opened Database
  import opened Persistence
  import opened BookLaws
  import opened Safety
  import opened RunLaws
  import opened Exchange

  class OrderWorker {
    const book: OrderBook
    const cache: Cache
    const db: Queries
    var needsRefresh: bool

    ghost predicate Valid()
      reads this, book, book.allNodes, book.allLevels, cache, cache.boxes, db
    {
      book.Valid() && cache.Valid() && db.Valid()
    }

    /** The in-memory state as a value. */
    ghost function Memory(): State
      reads book, book.idGen, cache
    {
      State(book.Value(), cache.contents, book.idGen.next)
    }

    constructor (book: OrderBook, cache: Cache, db: Queries)
      requires book.Valid() && cache.Valid() && db.Valid()
      ensures Valid() && !needsRefresh && this.book == book && this.cache == cache && this.db == db
    {
      this.book, this.cache, this.db := book, cache, db;
      needsRefresh := false;
    }

    /** What memory is made of now either was part of it before or is newly allocated. */
    twostate predicate Grew()
      reads book, cache
    {
      && (forall o | o in book.allNodes :: o in old(book.allNodes) || fresh(o))
      && (forall l | l in book.allLevels :: l in old(book.allLevels) || fresh(l))
      && (forall x | x in cache.boxes :: x in old(cache.boxes) || fresh(x))
    }

    // ---------- Placing ----------

    /** Settles the trades one by one; stops at the first that cannot be settled. */
    method SettleTrades(trades: seq<Trade>, side: Side) returns (ok: bool)
      requires cache.Valid()
      modifies cache, cache.boxes
      ensures cache.Valid() && fresh(cache.boxes - old(cache.boxes))
      ensures Settlement(cache.contents, ok) == SettleAll(old(cache.contents), side, trades)
    {
      hide QuoteAmount, Transfer, Cache.Valid, CanSettle;
      assert trades[0..] == trades;
      for i := 0 to |trades|
        invariant cache.Valid() && fresh(cache.boxes - old(cache.boxes))
        invariant SettleAll(cache.contents, side, trades[i..]) == SettleAll(old(cache.contents), side, trades)
      {
        var t := trades[i];
        var buyer := if side == Buy then t.takerUser else t.makerUser;
        var seller := if side == Buy then t.makerUser else t.takerUser;
        assert trades[i..][0] == t && trades[i..][1..] == trades[i + 1..];
        var settled := cache.SettleTrade(buyer, seller, t.price, t.quantity);
        if !settled {
          return false;
        }
      }
      return true;
    }

    /** Matches an order whose funds are locked, and settles its trades. */
    method MatchAndSettle(id: Uuid, user: Uuid, price: int, quantity: int, side: Side)
      returns (ok: bool, status: Status, trades: seq<Trade>)
      requires book.Valid() && cache.Valid() && quantity >= 0
      modifies book, book.allNodes, book.allLevels, book.idGen, cache, cache.boxes
      ensures cache.Valid() && Grew() && (id !in old(book.orders) ==> book.Valid())
      ensures book.Valid() <==>
              !RestsTwice(old(book.Value()), Entry(id, user, price, quantity, quantity, side), old(book.idGen.next))
      ensures PlaceResult(book.Value(), trades, status)
           == Matching.PlaceOrder(old(book.Value()), Entry(id, user, price, quantity, quantity, side),
               old(book.idGen.next))
      ensures book.idGen.next == old(book.idGen.next) + |trades|
      ensures Settlement(cache.contents, ok) == SettleAll(old(cache.contents), side, trades)
    {
      hide SettleAll, Matching.PlaceOrder, OrderBook.Valid, OrderBook.Value, Cache.Valid, RestsTwice;
      trades, status := book.PlaceOrder(id, user, price, quantity, side);
      ok := SettleTrades(trades, side);
    }

    /** The transaction of a placement; a failed statement, or a failed commit, rolls it back. */
    method WritePlacement(user: Uuid, price: int, quantity: int, side: Side, trades: seq<Trade>, commits: bool)
      returns (committed: bool)
      requires db.Valid()
      modifies db
      ensures db.Valid()
      ensures var p := PersistPlaced(old(db.Value()), user, price, quantity, side, trades);
              committed == (commits && p.Some?) && db.Value() == if committed then p.value else old(db.Value())
    {
      hide QuoteAmount, InsertTrades, TransferAll, LockRow, AllStorable, RowsOf;
      var balances, rows := db.balances, db.trades;
      var ok := db.UpdateBalanceLock(user, if side == Buy then USD else BTC, LockAmount(price, quantity, side));
      if ok && |trades| > 0 {
        ok := CreateBatch(db, trades, side);
        if ok {
          ok := PersistTradeSettlements(db, trades, side);
        }
      }
      committed := ok && commits;
      if !committed {
        db.balances, db.trades := balances, rows;
      }
    }

    /**
     Locks the funds, matches, settles, then writes the transaction. Memory and the outcome are
     those of the worker's state machine, the database that of the transaction; a depth refresh is
     asked for only once the transaction has committed. This holds whatever the id; the book's
     invariant is kept unless the order comes to rest beside another of its own id.
     */
    method HandlePlaceOrder(id: Uuid, user: Uuid, price: int, quantity: int, side: Side, commits: bool)
      returns (outcome: Outcome, status: Status, trades: seq<Trade>, committed: bool)
      requires Valid() && quantity >= 0
      modifies this, book, book.allNodes, book.allLevels, book.idGen, cache, cache.boxes, db
      ensures cache.Valid() && db.Valid() && (id !in old(book.orders) ==> book.Valid())
      ensures book.Valid() <==> outcome == Outcome.Rejected || !RestsTwice(old(book.Value()),
                                Entry(id, user, price, quantity, quantity, side), old(book.idGen.next))
      ensures Reply(Memory(), outcome, status, trades)
          == Handle(old(Memory()), OrderPlaced(id, user, price, quantity, side))
      ensures var p := Persist(old(db.Value()), OrderPlaced(id, user, price, quantity, side), old(Memory()),
                               Reply(Memory(), outcome, status, trades));
              && committed == (outcome == Done && commits && p.Some?)
              && db.Value() == if committed then p.value else old(db.Value())
      ensures needsRefresh == (old(needsRefresh) || committed)
      ensures Grew()
    {
      hide QuoteAmount, LockFunds, SettleAll, Matching.PlaceOrder, PersistPlaced, PersistCancelled, CancelOrder;
      hide RestsTwice;
      hide OrderBook.Valid, OrderBook.Value, Cache.Valid;
      var locked := cache.LockFunds(user, if side == Buy then USD else BTC, LockAmount(price, quantity, side));
      if !locked {
        return Outcome.Rejected, Status.Rejected, [], false;
      }
      var settled;
      settled, status, trades := MatchAndSettle(id, user, price, quantity, side);
      if !settled {
        return SettlementPanic, status, trades, false;
      }
      outcome := Done;
      committed := WritePlacement(user, price, quantity, side, trades, commits);
      if committed {
        needsRefresh := true;
      }
    }

    // ---------- Cancelling ----------

    method WriteCancel(order: Order, commits: bool) returns (committed: bool)
      requires db.Valid()
      modifies db
      ensures db.Valid()
      ensures var p := PersistCancelled(old(db.Value()), order.Val());
              committed == (commits && p.Some?) && db.Value() == if committed then p.value else old(db.Value())
    {
      hide QuoteAmount, AllStorable;
      var balances := db.balances;
      var ok := db.UpdateBalanceUnlock(order.user, if order.side == Buy then USD else BTC,
                                       LockAmount(order.price, order.remaining, order.side));
      committed := ok && commits;
      if !committed {
        db.balances := balances;
      }
    }

    /**
     Takes an order off the book; null if it is not there. The node is read after it has gone
     back to the pool, which is safe because recycling it does not clear these fields.
     */
    method TakeOffBook(id: Uuid) returns (order: Order?)
      requires book.Valid()
      modifies book, book.allNodes, book.allLevels
      ensures book.Valid() && book.allNodes == old(book.allNodes) && book.allLevels == old(book.allLevels)
      ensures match Matching.CancelOrder(old(book.Value()), id)
              case None => order == null && book.Value() == old(book.Value())
              case Some((after, e)) => order != null && order.Val() == e && book.Value() == after
    {
      hide OrderBook.Valid, OrderBook.Value, BookValue.FindOrder;
      order := book.GetOrder(id);
      if order == null {
        return;
      }
      var cancelled := book.CancelOrder(id);
      if !cancelled {
        order := null;
      }
    }

    /** Unlocks what a cancelled order still claimed, in memory and then in the database. */
    method Release(order: Order, commits: bool) returns (outcome: Outcome, committed: bool)
      requires cache.Valid() && db.Valid()
      modifies this`needsRefresh, cache`contents, cache.boxes, db
      ensures cache.Valid() && db.Valid() && cache.boxes == old(cache.boxes)
      ensures match UnlockFunds(old(cache.contents), LockAccount(order.user, order.side),
          LockAmount(order.price, order.remaining, order.side))
              case None => outcome == OutOfSync && cache.contents == old(cache.contents)
              case Some(unlocked) => outcome == Done && cache.contents == unlocked
      ensures var p := PersistCancelled(old(db.Value()), order.Val());
              && committed == (outcome == Done && commits && p.Some?)
              && db.Value() == if committed then p.value else old(db.Value())
      ensures needsRefresh == (old(needsRefresh) || committed)
    {
      hide QuoteAmount, UnlockFunds, PersistCancelled, Cache.Valid;
      var unlocked := cache.UnlockFunds(order.user, if order.side == Buy then USD else BTC,
                                        LockAmount(order.price, order.remaining, order.side));
      if !unlocked {
        return OutOfSync, false;
      }
      outcome := Done;
      committed := WriteCancel(order, commits);
      if committed {
        needsRefresh := true;
      }
    }

    /** Cancels an order: takes it off the book, unlocks its funds, then writes the transaction. */
    method HandleCancelOrder(id: Uuid, commits: bool) returns (outcome: Outcome, committed: bool)
      requires Valid()
      modifies this, book, book.allNodes, book.allLevels, cache, cache.boxes, db
      ensures Valid() && Grew()
      ensures var r := Handle(old(Memory()), CancelRequested(id));
              && Memory() == r.state && outcome == r.outcome
              && var p := Persist(old(db.Value()), CancelRequested(id), old(Memory()), r);
                 && committed == (outcome == Done && commits && p.Some?)
                 && db.Value() == if committed then p.value else old(db.Value())
      ensures needsRefresh == (old(needsRefresh) || committed)
    {
      hide QuoteAmount, UnlockFunds, PersistPlaced, PersistCancelled, HandlePlaced, CancelOrder;
      hide OrderBook.Valid, OrderBook.Value, Cache.Valid;
      var order := TakeOffBook(id);
      if order == null {
        return Unknown, false;
      }
      outcome, committed := Release(order, commits);
    }

    // ---------- Depositing ----------

    method HandleDeposit(user: Uuid, asset: Asset, amount: int)
      requires Valid()
      modifies cache, cache.boxes
      ensures Valid() && Grew()
      ensures var r := Handle(old(Memory()), DepositCreated(user, asset, amount));
              Memory() == r.state && r.outcome == Done
    {
      hide OrderBook.Valid, OrderBook.Value, Cache.Valid;
      cache.Deposit(user, asset, amount);
    }

    /** Forgets the book and the balances. */
    method Reset()
      requires Valid()
      modifies book, cache
      ensures Valid() && Memory().book == EMPTY_BOOK && Memory().balances == map[]
    {
      hide OrderBook.Valid, OrderBook.Value, Cache.Valid;
      book.Reset();
      cache.Clear();
    }

    // ---------- Messages ----------

    /**
     Handles one message: memory moves as the state machine says, and the database by the message's
     transaction if it commits, and not at all otherwise. Only an order placed with an id that is
     still on the book can break the book's invariant.
     */
    method HandleMessage(e: Event, commits: bool) returns (outcome: Outcome, committed: bool)
      requires Valid() && (e.OrderPlaced? ==> e.quantity >= 0)
      modifies this, book, book.allNodes, book.allLevels, book.idGen, cache, cache.boxes, db
      ensures cache.Valid() && db.Valid() && Grew()
      ensures !e.OrderPlaced? || e.id !in old(book.orders) ==> Valid()
      ensures var r := Handle(old(Memory()), e);
              && Memory() == r.state && outcome == r.outcome
              && var p := Persist(old(db.Value()), e, old(Memory()), r);
                 && committed == (outcome == Done && commits && p.Some?)
                 && db.Value() == if committed then p.value else old(db.Value())
      ensures needsRefresh == (old(needsRefresh) || (committed && !e.DepositCreated?))
    {
      hide OrderBook.Valid, OrderBook.Value, Cache.Valid, Queries.Valid, Persist, Handle;
      match e
      case OrderPlaced(id, user, price, quantity, side) =>
        var status, trades;
        outcome, status, trades, committed := HandlePlaceOrder(id, user, price, quantity, side, commits);
      case CancelRequested(id) =>
        outcome, committed := HandleCancelOrder(id, commits);
      case DepositCreated(user, asset, amount) =>
        HandleDeposit(user, asset, amount);
        PersistIs(db.Value(), e, old(Memory()), Handle(old(Memory()), e));
        outcome, committed := Done, commits;
    }

    /** A message whose transaction commits is one delivery of the exchange. */
    method Deliver(ghost w: World, ghost i: nat, e: Event) returns (outcome: Outcome)
      requires Valid() && Agreement(w) && TotalsFit(w.db.balances) && i < |w.pending| && w.pending[i] == e
      requires Memory() == w.Memory() && db.Value() == w.db
      modifies this, book, book.allNodes, book.allLevels, book.idGen, cache, cache.boxes, db
      ensures Valid() && Grew()
      ensures var next := Handed(w, i).world; Memory() == next.Memory() && db.Value() == next.db && Agreement(next)
      ensures outcome == Handle(w.Memory(), e).outcome
    {
      hide OrderBook.Valid, OrderBook.Value, Cache.Valid, Queries.Valid, Persist, Handle, Handed, BookValue.FindOrder;
      DeliverFacts(w, i);
      if e.OrderPlaced? {
        NotOnBook(e.id);
      }
      var committed;
      outcome, committed := HandleMessage(e, true);
    }

    lemma NotOnBook(id: Uuid)
      requires book.Valid() && book.Value().FindOrder(id) == None
      ensures id !in book.orders
    {
      book.ValueFinds(id);
    }

    /**
     Consumes a run of messages: memory goes as the state machine's run, whichever transactions fail to
     commit. A panic in settlement leaves the worker's lock held, so the worker stops there; if the
     deposits of BTC and of USD fit 64 bits, it handles every message, and none finds memory inconsistent.
     */
    method Consume(events: seq<Event>, commits: seq<bool>) returns (outcomes: seq<Outcome>)
      requires Valid() && Memory() == INITIAL && AdmissibleRun(events) && |commits| == |events|
      modifies this, book, book.allNodes, book.allLevels, book.idGen, cache, cache.boxes, db
      ensures Valid() && |outcomes| <= |events| && Memory() == Run(INITIAL, events[..|outcomes|])
      ensures forall i | 0 <= i < |outcomes| :: outcomes[i] == Handle(Run(INITIAL, events[..i]), events[i]).outcome
      ensures |outcomes| < |events| ==> outcomes != [] && outcomes[|outcomes| - 1] == SettlementPanic
      ensures DepositsFit(events) ==>
                |outcomes| == |events| && SettlementPanic !in outcomes && OutOfSync !in outcomes
    {
      hide Run, Handle, AdmissibleRun, OrderBook.Valid, OrderBook.Value, Cache.Valid, Queries.Valid;
      hide BookValue.FindOrder, DepositsFit;
      outcomes := [];
      RunEmpty(INITIAL);
      RunIsAdmissible(events);
      assert events[..0] == [];
      for i := 0 to |events|
        invariant Valid() && Grew() && Memory() == Run(INITIAL, events[..i])
        invariant |outcomes| == i
        invariant forall j | 0 <= j < i :: outcomes[j] == Handle(Run(INITIAL, events[..j]), events[j]).outcome
        invariant DepositsFit(events) ==> SettlementPanic !in outcomes && OutOfSync !in outcomes
      {
        assert events[..i + 1] == events[..i] + [events[i]];
        RunSnoc(INITIAL, events[..i], events[i]);
        NextMessage(events, i);
        if events[i].OrderPlaced? {
          NotOnBook(events[i].id);
        }
        if DepositsFit(events) {
          NeverInconsistent(events, i);
        }
        var outcome, _ := HandleMessage(events[i], commits[i]);
        outcomes := outcomes + [outcome];
        if outcome == SettlementPanic {
          return;
        }
      }
      assert events[..|events|] == events;
    }
  }

  /** What a delivery does, and that nothing in it is rejected. */
  lemma DeliverFacts(w: World, i: nat)
    requires Agreement(w) && TotalsFit(w.db.balances) && i < |w.pending|
    ensures var s, e, next := w.Memory(), w.pending[i], Handed(w, i).world;
            && (e.OrderPlaced? ==> e.quantity > 0 && s.book.FindOrder(e.id) == None)
            && next.Memory() == Handle(s, e).state && Agreement(next)
            && var r := Handle(s, e);
               var p := Persist(w.db, e, s, r);
               p == Some(next.db) && (r.outcome != Done ==> next.db == w.db)
  {
    hide Handle, Persist, Run, Agreement, AdmissibleRun, BookValue.FindOrder;
    var e := w.pending[i];
    AgreementFacts(w);
    MoveAdmissible(w.delivered, w.pending, i, w.db.orders);
    RunSnoc(INITIAL, w.delivered, e);
    PersistIs(w.db, e, w.Memory(), Handle(w.Memory(), e));
    Delivered(w, i);
    assert (w.delivered + [e])[..|w.delivered|] == w.delivered;
    NextMessage(w.delivered + [e], |w.delivered|);
  }

  /** An admissible run's next message places an order that is not on the book, or none. */
  lemma NextMessage(events: seq<Event>, i: nat)
    requires AdmissibleRun(events) && i < |events|
    ensures var s, e := Run(INITIAL, events[..i]), events[i];
            e.OrderPlaced? ==> e.quantity > 0 && s.book.FindOrder(e.id) == None
  {
    var front, e := events[..i], events[i];
    RunIsAdmissible(events);
    FrontIs(events, i);
    FrontAdmissible(front, e);
    RunRecorded(front);
    if e.OrderPlaced? {
      PlacedIdsMeans(front, e.id);
      RecordedFinds(Run(INITIAL, front).book, PlacedIds(front), e.id);
    }
  }

  lemma FrontIs(events: seq<Event>, i: nat)
    requires AdmissibleRun(events) && i < |events|
    ensures AdmissibleRun(events[..i] + [events[i]])
  {
    hide Admissible;
    assert events[..i] + [events[i]] == events[..i + 1];
  }

  lemma RecordedFinds(book: BookValue, placed: seq<Uuid>, id: Uuid)
    requires Recorded(book, placed) && id !in placed
    ensures book.FindOrder(id) == None
  {
    FindOrderCount(book, id);
  }
}
