/** The order service: transactions that store an event and then notify the relay; rebuilding the book. */
module Service {
  import opened Domain
  import opened Matching
  import opened Measures
  import opened Funds
  import opened Engine
  import opened Book
  import opened Rows
  import opened Database
  import opened OutboxRelay
  import opened Exchange

  /** The events in the outbox, oldest first. */
  function Events(rows: seq<Row>): (events: seq<Event>)
    ensures |events| == |rows|
  {
    seq(|rows|, i requires 0 <= i < |rows| => rows[i].event)
  }

  lemma EventsAppend(rows: seq<Row>, row: Row)
    ensures Events(rows + [row]) == Events(rows) + [row.event]
  {}

  /** The exchange seen from the service: nothing delivered yet, all the events pending. */
  function Seen(rows: seq<Row>, db: Tables): World {
    World([], Events(rows), db)
  }

  const NIL: Uuid := 0

  class OrderService {
    const db: Queries
    const outbox: Outbox
    const relay: Relay
    const idGen: IdGen

    constructor (db: Queries, outbox: Outbox, relay: Relay, idGen: IdGen)
      ensures this.db == db && this.outbox == outbox && this.relay == relay && this.idGen == idGen
    {
      this.db, this.outbox, this.relay, this.idGen := db, outbox, relay, idGen;
    }

    /** Stores an event in the outbox, as part of a transaction. */
    method AddEvent(event: Event)
      modifies outbox, idGen
      ensures outbox.rows == old(outbox.rows) + [Row(old(idGen.next), event, false)]
      ensures idGen.next == old(idGen.next) + 1
    {
      var id := idGen.Next();
      outbox.rows := outbox.rows + [Row(id, event, false)];
    }

    /**
     Stores an order and its event in one transaction, and notifies the relay once it has
     committed. A call that fails stores nothing and notifies nobody.
     */
    method PlaceOrder(id: Uuid, user: Uuid, price: int, quantity: int, side: Side, commits: bool)
      returns (orderId: Uuid, ok: bool)
      modifies db`orders, outbox, relay`notify, idGen
      ensures orderId == if id == NIL then old(idGen.next) else id
      ensures var act := Act(Seen(old(outbox.rows), old(db.Value())), ApiPlace(orderId, user, price, quantity, side));
              if ok then act == Outcomes(Seen(outbox.rows, db.Value()), Accepted)
              else
                && Seen(outbox.rows, db.Value()) == Seen(old(outbox.rows), old(db.Value()))
                && (commits ==> act.verdict == Refused)
      ensures ok <==> commits && orderId !in old(db.orders)
      ensures db.orders == old(db.orders) + if ok then {orderId} else {}
      ensures var eventId := old(idGen.next) + if id == NIL then 1 else 0;
              outbox.rows == old(outbox.rows)
                  + if ok then [Row(eventId, OrderPlaced(orderId, user, price, quantity, side), false)] else []
      ensures relay.notify == (old(relay.notify) || ok)
    {
      orderId := id;
      if id == NIL {
        orderId := idGen.Next();
      }
      var orders, rows := db.orders, outbox.rows;
      ok := orderId !in db.orders;
      if ok {
        db.orders := db.orders + {orderId};
        EventsAppend(rows, Row(idGen.next, OrderPlaced(orderId, user, price, quantity, side), false));
        AddEvent(OrderPlaced(orderId, user, price, quantity, side));
      }
      ok := ok && commits;
      if ok {
        relay.Notify();
      } else {
        db.orders, outbox.rows := orders, rows;
      }
    }

    /** Adds to a balance row and stores the event in one transaction, then notifies the relay. */
    method Deposit(user: Uuid, asset: Asset, amount: int, commits: bool) returns (ok: bool)
      requires db.Valid()
      modifies db`balances, outbox, relay`notify, idGen
      ensures db.Valid()
      ensures var act := Act(Seen(old(outbox.rows), old(db.Value())), ApiDeposit(user, asset, amount));
              if ok then act == Outcomes(Seen(outbox.rows, db.Value()), Accepted)
              else
                && Seen(outbox.rows, db.Value()) == Seen(old(outbox.rows), old(db.Value()))
                && (commits ==> act.verdict == Refused)
      ensures var k := Account(user, asset);
              var held := Get(old(db.balances), k);
              && (ok <==> commits && 0 <= amount && held.available + amount <= MAX_INT64)
              && db.balances == if ok then old(db.balances)[k := Balance(held.available + amount, held.locked)]
                                else old(db.balances)
      ensures outbox.rows == old(outbox.rows)
                  + if ok then [Row(old(idGen.next), DepositCreated(user, asset, amount), false)] else []
      ensures relay.notify == (old(relay.notify) || ok)
    {
      hide AllStorable;
      RowUpdates(db.balances, Account(user, asset), amount);
      var balances, rows := db.balances, outbox.rows;
      ok := db.UpsertBalance(user, asset, amount);
      if ok {
        EventsAppend(rows, Row(idGen.next, DepositCreated(user, asset, amount), false));
        AddEvent(DepositCreated(user, asset, amount));
      }
      ok := ok && commits;
      if ok {
        relay.Notify();
      } else {
        db.balances, outbox.rows := balances, rows;
      }
    }

    /**
     Asks for a cancel of one's own open order. The relay is notified inside the transaction, so
     it may look before the event is visible, and is notified even when the commit fails.
     */
    method CancelOrder(user: Uuid, id: Uuid, owner: Option<Uuid>, status: Status, commits: bool) returns (ok: bool)
      modifies outbox, relay`notify, idGen
      ensures ok <==> commits && owner == Some(user) && status in {New, Placed, Partial}
      ensures outbox.rows == old(outbox.rows) + if ok then [Row(old(idGen.next), CancelRequested(id), false)] else []
      ensures relay.notify == (old(relay.notify) || (owner == Some(user) && status in {New, Placed, Partial}))
    {
      if owner != Some(user) {
        return false;
      }
      if status != Placed && status != Partial && status != New {
        return false;
      }
      var rows := outbox.rows;
      AddEvent(CancelRequested(id));
      relay.Notify();
      ok := commits;
      if !ok {
        outbox.rows := rows;
      }
    }
  }

  // ---------- Rebuilding the book ----------

  function Vals(orders: seq<Order>): (vals: seq<Entry>)
    reads orders
    ensures |vals| == |orders|
  {
    seq(|orders|, i requires 0 <= i < |orders| reads orders => orders[i].Val())
  }

  /** Loaded orders: distinct nodes with something open, not linked anywhere and not on the book. */
  predicate Loaded(orders: seq<Order>)
    reads orders
  {
    && (forall i | 0 <= i < |orders| :: orders[i].Unlinked() && orders[i].remaining > 0)
    && (forall i, j | 0 <= i < j < |orders| :: orders[i] != orders[j])
  }

  /** Restores the listed orders, in order. */
  method RestoreEach(book: OrderBook, orders: seq<Order>)
    requires book.Valid() && Loaded(orders) && forall i | 0 <= i < |orders| :: orders[i] !in book.allNodes
    modifies book, book.allNodes, book.allLevels, orders
    ensures book.Valid() && book.Value() == RestoreAll(old(book.Value()), old(Vals(orders)))
    ensures forall o | o in book.allNodes :: o in old(book.allNodes) || o in orders
    ensures forall l | l in book.allLevels :: l in old(book.allLevels) || fresh(l)
  {
    hide OrderBook.Valid, OrderBook.Value, Matching.RestoreOrder;
    ghost var vals := Vals(orders);
    assert vals[..0] == [];
    for i := 0 to |orders|
      invariant book.Valid() && book.Value() == RestoreAll(old(book.Value()), vals[..i])
      invariant forall j | i <= j < |orders| ::
          orders[j].Unlinked() && orders[j].Val() == vals[j] && orders[j] !in book.allNodes
      invariant forall o | o in book.allNodes :: o in old(book.allNodes) || o in orders
      invariant forall l | l in book.allLevels :: l in old(book.allLevels) || fresh(l)
    {
      book.RestoreOrder(orders[i]);
      assert vals[..i + 1] == vals[..i] + [vals[i]];
    }
    assert vals[..|orders|] == vals;
  }

  /** Rebuilds the book from the active buys, then the active sells, and takes its depth. */
  method RebuildOrderBook(book: OrderBook, buys: seq<Order>, sells: seq<Order>) returns (snap: Snapshot)
    requires book.Valid() && Loaded(buys) && Loaded(sells)
    requires forall o | o in buys || o in sells :: o !in book.allNodes
    requires forall o | o in buys :: o !in sells
    modifies book, book.allNodes, book.allLevels, buys, sells
    ensures book.Valid() && book.Value() == RestoreAll(RestoreAll(old(book.Value()), old(Vals(buys))), old(Vals(sells)))
    ensures snap == DepthOf(book.Value())
  {
    hide OrderBook.Valid, OrderBook.Value, RestoreAll;
    ghost var vals := Vals(sells);
    RestoreEach(book, buys);
    assert Vals(sells) == vals;
    RestoreEach(book, sells);
    snap := book.TakeSnapshot();
  }
}
