/**
 The whole exchange between API, outbox and worker: API calls commit rows and enqueue events, the
 worker is handed each event once, in any order, and commits its transaction. The tables follow
 memory, and no constraint or guard of the database ever rejects what the worker writes.
 */
module Exchange {
  import opened Domain
  import opened Matching
  import opened Funds
  import opened Engine
  import opened Rows
  import opened Solvency
  import opened Safety
  import opened RunLaws

  datatype Action =
    | ApiDeposit(user: Uuid, asset: Asset, amount: int)
    | ApiPlace(id: Uuid, user: Uuid, price: int, quantity: int, side: Side)
    | ApiCancel(id: Uuid)
    | Deliver(i: nat)

  /** Accepted; refused by a constraint and reported to the API's caller; or one of the worker's failures. */
  datatype Verdict = Accepted | Refused | NoMessage | MemoryInconsistent | WorkerRefused

  /** Events handed to the worker so far, committed events it has not been handed yet, and the tables. */
  datatype World = World(delivered: seq<Event>, pending: seq<Event>, db: Tables) {
    function Memory(): State {
      Run(INITIAL, delivered)
    }
  }

  const EMPTY_EXCHANGE := World([], [], Tables(map[], {}, []))

  datatype Outcomes = Outcomes(world: World, verdict: Verdict)

  /** The worker's transaction after handling an event, given how the handling went. */
  function Persist(db: Tables, e: Event, before: State, r: Reply): Option<Tables> {
    if r.outcome != Done then Some(db)
    else
      match e
      case OrderPlaced(_, user, price, quantity, side) => PersistPlaced(db, user, price, quantity, side, r.trades)
      case CancelRequested(id) =>
        (match CancelOrder(before.book, id)
         case None => Some(db)
         case Some((_, o)) => PersistCancelled(db, o))
      case DepositCreated(_, _, _) => Some(db)
  }

  function Dropped(events: seq<Event>, i: nat): seq<Event>
    requires i < |events|
  {
    events[..i] + events[i + 1..]
  }

  function Handed(w: World, i: nat): Outcomes
    requires i < |w.pending|
  {
    var e := w.pending[i];
    var r := Handle(w.Memory(), e);
    var next := World(w.delivered + [e], Dropped(w.pending, i), w.db);
    if r.outcome == SettlementPanic || r.outcome == OutOfSync then Outcomes(next, MemoryInconsistent)
    else
      match Persist(w.db, e, w.Memory(), r)
      case None => Outcomes(next, WorkerRefused)
      case Some(db) => Outcomes(next.(db := db), Accepted)
  }

  function Act(w: World, a: Action): Outcomes {
    match a
    case ApiDeposit(user, asset, amount) =>
      (match UpsertRow(w.db.balances, Account(user, asset), amount)
       case None => Outcomes(w, Refused)
       case Some(rows) =>
         var e := DepositCreated(user, asset, amount);
         Outcomes(w.(db := w.db.(balances := rows), pending := w.pending + [e]), Accepted))
    case ApiPlace(id, user, price, quantity, side) =>
      if id in w.db.orders then Outcomes(w, Refused)
      else
        var e := OrderPlaced(id, user, price, quantity, side);
        Outcomes(w.(db := w.db.(orders := w.db.orders + {id}), pending := w.pending + [e]), Accepted)
    case ApiCancel(id) => Outcomes(w.(pending := w.pending + [CancelRequested(id)]), Accepted)
    case Deliver(i) => if i < |w.pending| then Handed(w, i) else Outcomes(w, NoMessage)
  }

  function After(actions: seq<Action>): World {
    if actions == [] then EMPTY_EXCHANGE else Act(After(actions[..|actions| - 1]), actions[|actions| - 1]).world
  }

  /** What the request handler checks of an order, with amounts that fit 64 bits. Any deposit may be asked for. */
  predicate AdmissibleAction(a: Action) {
    a.ApiPlace? ==> Admissible(OrderPlaced(a.id, a.user, a.price, a.quantity, a.side))
  }

  /** The deposits the database accepted, asset by asset. */
  function AcceptedDeposits(actions: seq<Action>, asset: Asset): int {
    if actions == [] then 0
    else
      var front, a := actions[..|actions| - 1], actions[|actions| - 1];
      AcceptedDeposits(front, asset)
      + if a.ApiDeposit? && a.asset == asset && Act(After(front), a).verdict == Accepted then a.amount else 0
  }

  /** The accepted deposits of each traded asset fit 64 bits. */
  predicate AcceptedFit(actions: seq<Action>) {
    AcceptedDeposits(actions, BTC) <= MAX_INT64 && AcceptedDeposits(actions, USD) <= MAX_INT64
  }

  // ---------- The invariant ----------

  /** The deposits to an account that are committed but not yet in memory. */
  function Undelivered(pending: seq<Event>, k: Account): int {
    if pending == [] then 0
    else
      var e := pending[0];
      (if e.DepositCreated? && Account(e.user, e.asset) == k then e.amount else 0) + Undelivered(pending[1..], k)
  }

  /** Each row's locked balance is the cache's; its available one is the cache's plus the undelivered deposits. */
  ghost predicate Tracks(rows: Balances, memory: Balances, pending: seq<Event>) {
    && (forall k | k in memory :: k in rows)
    && (forall k :: Get(rows, k).locked == Get(memory, k).locked)
    && (forall k :: Get(rows, k).available == Get(memory, k).available + Undelivered(pending, k))
  }

  /** The trade rows of all the trades of a run, in order. */
  function RowLog(events: seq<Event>): seq<TradeRow> {
    if events == [] then []
    else
      var front, e := events[..|events| - 1], events[|events| - 1];
      RowLog(front) + if e.OrderPlaced? then RowsOf(Handle(Run(INITIAL, front), e).trades, e.side) else []
  }

  predicate PlacedAreOrders(events: seq<Event>, orders: set<Uuid>) {
    forall i | 0 <= i < |events| && events[i].OrderPlaced? :: events[i].id in orders
  }

  /** The account of every committed deposit has a row. */
  predicate HasRows(pending: seq<Event>, rows: Balances) {
    forall i | 0 <= i < |pending| && pending[i].DepositCreated? :: Account(pending[i].user, pending[i].asset) in rows
  }

  /**
   The agreement of the tables with memory: balances up to undelivered deposits, the trades of the
   whole run recorded, every placed order in the orders table, each under an id of its own.
   */
  ghost predicate Agreement(w: World) {
    && AdmissibleRun(w.delivered + w.pending)
    && PlacedAreOrders(w.delivered + w.pending, w.db.orders)
    && Tracks(w.db.balances, w.Memory().balances, w.pending) && HasRows(w.pending, w.db.balances)
    && OthersStorable(w.db.balances) && Healthy(w.Memory())
    && w.db.trades == RowLog(w.delivered)
  }

  /** The rows of assets that are not traded meet the constraints; nothing but deposits changes them. */
  predicate OthersStorable(rows: Balances) {
    forall k | k in rows && k.asset.Other? :: Storable(rows[k])
  }

  /** Memory is solvent, and no account of an asset that is not traded is negative. */
  ghost predicate Healthy(s: State) {
    Solvent(s) && forall k | k in s.balances && k.asset.Other? :: s.balances[k].available >= 0
  }

  // ---------- Undelivered deposits ----------

  lemma {:induction false} UndeliveredAppend(pending: seq<Event>, e: Event, k: Account)
    ensures Undelivered(pending + [e], k) == Undelivered(pending, k) + Undelivered([e], k)
  {
    if pending == [] {
      assert pending + [e] == [e];
    } else {
      assert (pending + [e])[1..] == pending[1..] + [e];
      UndeliveredAppend(pending[1..], e, k);
    }
  }

  lemma {:induction false} UndeliveredWithout(pending: seq<Event>, i: nat, k: Account)
    requires i < |pending|
    ensures Undelivered(Dropped(pending, i), k) == Undelivered(pending, k) - Undelivered([pending[i]], k)
  {
    if i == 0 {
      assert Dropped(pending, 0) == pending[1..];
    } else {
      assert Dropped(pending, i)[1..] == Dropped(pending[1..], i - 1);
      UndeliveredWithout(pending[1..], i - 1, k);
    }
  }

  lemma {:induction false} UndeliveredNonNegative(pending: seq<Event>, k: Account)
    requires AllAdmissible(pending)
    ensures Undelivered(pending, k) >= 0
  {
    hide QuoteFits;
    if pending != [] {
      assert Admissible(pending[0]);
      UndeliveredNonNegative(pending[1..], k);
    }
  }

  // ---------- Rows follow memory ----------

  lemma {:induction false} TracksCredit(rows: Balances, memory: Balances, pending: seq<Event>, k: Account,
                                        available: int, locked: int)
    requires Tracks(rows, memory, pending)
    ensures Tracks(Credit(rows, k, available, locked), Credit(memory, k, available, locked), pending)
  {
    hide Undelivered, Credit, Get;
    var r, m := Credit(rows, k, available, locked), Credit(memory, k, available, locked);
    forall x
      ensures x in m ==> x in r
      ensures Get(r, x).locked == Get(m, x).locked
      ensures Get(r, x).available == Get(m, x).available + Undelivered(pending, x)
    {
      CreditAt(rows, k, available, locked, x);
      CreditAt(memory, k, available, locked, x);
      assert Get(rows, x).locked == Get(memory, x).locked;
    }
  }

  lemma {:induction false} TracksTransfer(rows: Balances, memory: Balances, pending: seq<Event>, buyer: Uuid,
                                          seller: Uuid, price: int, size: int)
    requires Tracks(rows, memory, pending)
    ensures Tracks(Transfer(rows, buyer, seller, price, size), Transfer(memory, buyer, seller, price, size), pending)
  {
    hide Tracks, Credit, QuoteAmount;
    var amount := QuoteAmount(price, size);
    var r1, m1 := Credit(rows, Account(buyer, USD), 0, -amount), Credit(memory, Account(buyer, USD), 0, -amount);
    var r2, m2 := Credit(r1, Account(buyer, BTC), size, 0), Credit(m1, Account(buyer, BTC), size, 0);
    var r3, m3 := Credit(r2, Account(seller, BTC), 0, -size), Credit(m2, Account(seller, BTC), 0, -size);
    TracksCredit(rows, memory, pending, Account(buyer, USD), 0, -amount);
    TracksCredit(r1, m1, pending, Account(buyer, BTC), size, 0);
    TracksCredit(r2, m2, pending, Account(seller, BTC), 0, -size);
    TracksCredit(r3, m3, pending, Account(seller, USD), amount, 0);
  }

  lemma {:induction false} TracksTransferAll(rows: Balances, memory: Balances, pending: seq<Event>, taker: Side,
                                             trades: seq<Trade>)
    requires Tracks(rows, memory, pending)
    ensures Tracks(TransferAll(rows, taker, trades), TransferAll(memory, taker, trades), pending)
    decreases |trades|
  {
    hide Tracks, Transfer;
    if trades != [] {
      var t := trades[0];
      var buyer, seller := Buyer(t, taker), Seller(t, taker);
      TracksTransfer(rows, memory, pending, buyer, seller, t.price, t.quantity);
      TracksTransferAll(Transfer(rows, buyer, seller, t.price, t.quantity),
          Transfer(memory, buyer, seller, t.price, t.quantity),
                        pending, taker, trades[1..]);
    }
  }

  /** Rows that follow a non-negative memory, with totals that fit, meet every constraint. */
  lemma {:induction false} TrackedStorable(rows: Balances, memory: Balances, pending: seq<Event>)
    requires Tracks(rows, memory, pending) && NonNegative(memory) && TotalsFit(rows) && OthersStorable(rows)
    requires AllAdmissible(pending)
    ensures AllStorable(rows)
  {
    hide Total, Undelivered, Admissible;
    forall k | k in rows && IsTraded(k) ensures rows[k].available >= 0 && rows[k].locked >= 0 {
      UndeliveredNonNegative(pending, k);
      assert rows[k] == Get(rows, k) && Get(memory, k).available >= 0 && Get(memory, k).locked >= 0;
    }
    forall k | k in rows ensures Storable(rows[k]) {
      if !k.asset.Other? {
        AccountBound(rows, k);
      }
    }
  }

  lemma {:induction false} CreditOthers(rows: Balances, k: Account, available: int, locked: int)
    requires OthersStorable(rows) && !k.asset.Other?
    ensures OthersStorable(Credit(rows, k, available, locked))
  {}

  lemma {:induction false} TransferAllStorable(rows: Balances, taker: Side, trades: seq<Trade>)
    requires OthersStorable(rows)
    ensures OthersStorable(TransferAll(rows, taker, trades))
    decreases |trades|
  {
    hide OthersStorable, QuoteAmount, Credit;
    if trades != [] {
      var t := trades[0];
      var buyer, seller, amount := Buyer(t, taker), Seller(t, taker), QuoteAmount(t.price, t.quantity);
      var b1 := Credit(rows, Account(buyer, USD), 0, -amount);
      var b2 := Credit(b1, Account(buyer, BTC), t.quantity, 0);
      var b3 := Credit(b2, Account(seller, BTC), 0, -t.quantity);
      CreditOthers(rows, Account(buyer, USD), 0, -amount);
      CreditOthers(b1, Account(buyer, BTC), t.quantity, 0);
      CreditOthers(b2, Account(seller, BTC), 0, -t.quantity);
      CreditOthers(b3, Account(seller, USD), amount, 0);
      TransferAllStorable(Transfer(rows, buyer, seller, t.price, t.quantity), taker, trades[1..]);
    }
  }

  // ---------- Trade rows ----------

  /** Rows with ids and keys not stored yet, of known orders, are all inserted. */
  lemma {:induction false} InsertFresh(stored: seq<TradeRow>, orders: set<Uuid>, rows: seq<TradeRow>)
    requires forall i, j | 0 <= i < j < |stored + rows| ::
               (stored + rows)[i].id != (stored + rows)[j].id && !SameKey((stored + rows)[i], (stored + rows)[j])
    requires forall i | 0 <= i < |rows| :: rows[i].buyerOrder in orders && rows[i].sellerOrder in orders
    ensures InsertTrades(stored, orders, rows) == Some(stored + rows)
    decreases |rows|
  {
    hide SameKey;
    var all := stored + rows;
    if rows == [] {
      assert all == stored;
    } else {
      assert all[|stored|] == rows[0];
      assert forall i | 0 <= i < |stored| :: all[i] == stored[i];
      assert stored + [rows[0]] + rows[1..] == all;
      InsertFresh(stored + [rows[0]], orders, rows[1..]);
    }
  }

  /** Each row of the log carries its trade's id and names its two orders. */
  predicate RowsMatch(rows: seq<TradeRow>, trades: seq<Trade>) {
    && |rows| == |trades|
    && forall i | 0 <= i < |rows| ::
      rows[i].id == trades[i].id && {rows[i].buyerOrder, rows[i].sellerOrder} == Pair(trades[i])
  }

  lemma {:induction false} RowLogMatches(events: seq<Event>)
    ensures RowsMatch(RowLog(events), TradeLog(events))
  {
    if events != [] {
      var front, e := events[..|events| - 1], events[|events| - 1];
      RowLogMatches(front);
      hide PlaceOrder, CancelOrder, SettleAll, QuoteAmount, RowOf;
      var trades := Handle(Run(INITIAL, front), e).trades;
      RowsOfMatch(trades, e);
    }
  }

  lemma RowsOfMatch(trades: seq<Trade>, e: Event)
    ensures e.OrderPlaced? ==> RowsMatch(RowsOf(trades, e.side), trades)
  {}

  lemma {:induction false} RowLogSnoc(events: seq<Event>, e: Event)
    requires e.OrderPlaced?
    ensures RowLog(events + [e]) == RowLog(events) + RowsOf(Handle(Run(INITIAL, events), e).trades, e.side)
  {
    hide Handle;
    assert (events + [e])[..|events|] == events;
  }

  lemma PlacedKnown(events: seq<Event>, orders: set<Uuid>, id: Uuid)
    requires PlacedAreOrders(events, orders) && id in PlacedIds(events)
    ensures id in orders
  {
    PlacedIdsMeans(events, id);
    var i :| 0 <= i < |events| && Places(events[i], id);
  }

  /** The unique keys and foreign keys of the trades table admit all the trades of a new order. */
  lemma TradesInserted(events: seq<Event>, e: Event, orders: set<Uuid>)
    requires AdmissibleRun(events + [e]) && e.OrderPlaced? && PlacedAreOrders(events + [e], orders)
    ensures InsertTrades(RowLog(events), orders, RowsOf(Handle(Run(INITIAL, events), e).trades, e.side))
        == Some(RowLog(events + [e]))
  {
    var rows := RowsOf(Handle(Run(INITIAL, events), e).trades, e.side);
    var all, log, placed := RowLog(events + [e]), TradeLog(events + [e]), PlacedIds(events + [e]);
    PairsTradeOnce(events + [e]);
    RowLogMatches(events + [e]);
    RowLogSnoc(events, e);
    hide Handle, RowLog, TradeLog, PlacedIds, RowsOf, Run, AdmissibleRun, PlacedAreOrders;
    forall i | 0 <= i < |all|
      ensures all[i].buyerOrder in orders && all[i].sellerOrder in orders
    {
      assert all[i].buyerOrder in Pair(log[i]) && all[i].sellerOrder in Pair(log[i]);
      PlacedKnown(events + [e], orders, all[i].buyerOrder);
      PlacedKnown(events + [e], orders, all[i].sellerOrder);
    }
    forall i | 0 <= i < |rows| ensures rows[i].buyerOrder in orders && rows[i].sellerOrder in orders {
      assert rows[i] == all[|RowLog(events)| + i];
    }
    forall i, j | 0 <= i < j < |all| ensures all[i].id != all[j].id && !SameKey(all[i], all[j]) {
      assert Pair(log[i]) != Pair(log[j]) && log[i].id != log[j].id;
    }
    InsertFresh(RowLog(events), orders, rows);
  }

  // ---------- The worker's transactions commit ----------

  lemma LockTracks(rows: Balances, memory: Balances, pending: seq<Event>, k: Account, amount: int)
    requires Tracks(rows, memory, pending) && Sane(memory) && TotalsFit(rows) && OthersStorable(rows)
    requires amount >= 0 && !k.asset.Other?
    requires AllAdmissible(pending)
    requires LockFunds(memory, k, amount).Some?
    ensures LockRow(rows, k, amount).Some?
    ensures TotalsFit(LockRow(rows, k, amount).value) && OthersStorable(LockRow(rows, k, amount).value)
    ensures Tracks(LockRow(rows, k, amount).value, Credit(memory, k, -amount, amount), pending)
  {
    hide Total, Undelivered, Admissible, Credit64;
    var r, m := Credit(rows, k, -amount, amount), Credit(memory, k, -amount, amount);
    MoveExact(memory, k, amount);
    UndeliveredNonNegative(pending, k);
    assert Get(rows, k).available >= Get(memory, k).available;
    TracksCredit(rows, memory, pending, k, -amount, amount);
    TotalCredit(rows, k, -amount, amount, BTC);
    TotalCredit(rows, k, -amount, amount, USD);
    CreditOthers(rows, k, -amount, amount);
    TrackedStorable(r, m, pending);
  }

  lemma PlacedLocks(s: State, e: Event)
    requires e.OrderPlaced? && Handle(s, e).outcome == Done
    ensures LockFunds(s.balances, LockAccount(e.user, e.side), LockAmount(e.price, e.quantity, e.side)).Some?
  {
    hide PlaceOrder, QuoteAmount, LockFunds, SettleAll;
  }

  lemma PersistPlacedUnfold(db: Tables, e: Event, trades: seq<Trade>, rows: Balances, recorded: seq<TradeRow>)
    requires e.OrderPlaced?
    requires LockRow(db.balances, LockAccount(e.user, e.side), LockAmount(e.price, e.quantity, e.side)) == Some(rows)
    requires InsertTrades(db.trades, db.orders, RowsOf(trades, e.side)) == Some(recorded)
    requires AllStorable(TransferAll(rows, e.side, trades))
    ensures PersistPlaced(db, e.user, e.price, e.quantity, e.side, trades)
         == Some(Tables(TransferAll(rows, e.side, trades), db.orders, recorded))
  {
    hide QuoteAmount, LockRow, Transfer, RowOf;
    if trades == [] {
      assert RowsOf(trades, e.side) == [];
    }
  }

  /** What the worker writes for a placement that was handled is never rejected, and follows memory. */
  lemma PlacementPersists(db: Tables, s: State, pending: seq<Event>, e: Event, recorded: seq<TradeRow>)
    requires Solvent(s) && e.OrderPlaced? && Admissible(e) && Handle(s, e).outcome == Done
    requires Tracks(db.balances, s.balances, pending) && TotalsFit(db.balances) && OthersStorable(db.balances)
    requires AllAdmissible(pending)
    requires InsertTrades(db.trades, db.orders, RowsOf(Handle(s, e).trades, e.side)) == Some(recorded)
    ensures var r := Handle(s, e);
            var p := PersistPlaced(db, e.user, e.price, e.quantity, e.side, r.trades);
            && p.Some? && p.value.orders == db.orders && p.value.trades == recorded
            && Tracks(p.value.balances, r.state.balances, pending) && OthersStorable(p.value.balances)
            && (forall k | k in db.balances :: k in p.value.balances)
  {
    hide *;
    var r := Handle(s, e);
    var k, amount := LockAccount(e.user, e.side), LockAmount(e.price, e.quantity, e.side);
    TradedAccount(e.user, e.side);
    PlaceStep(s, e);
    PlacedLocks(s, e);
    SolventSane(s);
    SolventSane(r.state);
    SaneNonNegative(r.state.balances);
    PlacementAmount(e, amount);
    LockTracks(db.balances, s.balances, pending, k, amount);
    var memory, rows := Credit(s.balances, k, -amount, amount), LockRow(db.balances, k, amount).value;
    TracksTransferAll(rows, memory, pending, e.side, r.trades);
    var settled := TransferAll(rows, e.side, r.trades);
    TransferAllFits(rows, e.side, r.trades);
    TransferAllStorable(rows, e.side, r.trades);
    TrackedStorable(settled, r.state.balances, pending);
    PersistPlacedUnfold(db, e, r.trades, rows, recorded);
    LockKeeps(db.balances, k, amount);
    forall k | k in db.balances ensures k in settled {
      TransferAllAt(rows, e.side, r.trades, k);
    }
  }

  lemma {:induction false} TouchedTraded(trades: seq<Trade>, taker: Side, k: Account)
    requires k in Touched(trades, taker)
    ensures IsTraded(k)
  {
    if k !in TradeKeys(trades[0], taker) {
      TouchedTraded(trades[1..], taker, k);
    }
  }

  /** What a placement's trades add to a field of an account in all fits 64 bits while the deposits do. */
  lemma {:induction false} DeltasFit(events: seq<Event>, e: Event, k: Account)
    requires AllAdmissible(events + [e]) && DepositsFit(events + [e]) && e.OrderPlaced?
    ensures var delta := DeltaOf(Handle(Run(INITIAL, events), e).trades, e.side, k);
            InInt64(delta.available) && InInt64(delta.locked)
  {
    hide *;
    BeforeEvent(events, e);
    var s := Run(INITIAL, events);
    var r := Handle(s, e);
    PlaceStep(s, e);
    if k !in Touched(r.trades, e.side) {
      UntouchedDelta(r.trades, e.side, k);
      ZeroFits();
    } else {
      TouchedTraded(r.trades, e.side, k);
      NotRejected(r, e.side, k);
      var lock, amount := LockAccount(e.user, e.side), LockAmount(e.price, e.quantity, e.side);
      PlacedLocks(s, e);
      SolventSane(s);
      SolventSane(r.state);
      LockedInRange(s.balances, lock, amount, e, k);
      TransferAllAt(Credit(s.balances, lock, -amount, amount), e.side, r.trades, k);
      SaneInRange(r.state.balances, k);
      DifferenceFits(Get(Credit(s.balances, lock, -amount, amount), k), Get(r.state.balances, k),
                     DeltaOf(r.trades, e.side, k));
    }
  }

  lemma ZeroFits()
    ensures InInt64(0)
  {}

  lemma NotRejected(r: Reply, taker: Side, k: Account)
    requires k in Touched(r.trades, taker)
    ensures r.trades != []
  {}

  lemma SaneInRange(b: Balances, k: Account)
    requires Sane(b) && IsTraded(k)
    ensures Storable(Get(b, k))
  {
    FieldsInRange(b, k);
  }

  lemma LockedInRange(b: Balances, lock: Account, amount: int, e: Event, k: Account)
    requires Sane(b) && IsTraded(k) && e.OrderPlaced? && Admissible(e)
    requires lock == LockAccount(e.user, e.side) && amount == LockAmount(e.price, e.quantity, e.side)
    requires LockFunds(b, lock, amount).Some?
    ensures Storable(Get(Credit(b, lock, -amount, amount), k))
  {
    hide NonNegative, TotalsFit, Credit, Credit64, QuoteAmount;
    PlacementAmount(e, amount);
    FieldsInRange(b, lock);
    MoveExact(b, lock, amount);
    FieldsInRange(Credit(b, lock, -amount, amount), k);
  }

  lemma DifferenceFits(before: Balance, after: Balance, delta: Balance)
    requires Storable(before) && Storable(after) && after == Plus(before, delta)
    ensures InInt64(delta.available) && InInt64(delta.locked)
  {}

  lemma LockKeeps(rows: Balances, k: Account, amount: int)
    requires LockRow(rows, k, amount).Some?
    ensures forall x | x in rows :: x in LockRow(rows, k, amount).value
  {}

  lemma SaneNonNegative(b: Balances)
    requires Sane(b)
    ensures NonNegative(b)
  {}

  lemma TradedAccount(user: Uuid, side: Side)
    ensures !LockAccount(user, side).asset.Other?
  {}

  lemma TransferAllFits(rows: Balances, taker: Side, trades: seq<Trade>)
    requires TotalsFit(rows)
    ensures TotalsFit(TransferAll(rows, taker, trades))
  {
    hide Total, TransferAll;
    TransferAllConserves(rows, taker, trades, BTC);
    TransferAllConserves(rows, taker, trades, USD);
  }

  lemma PlacementAmount(e: Event, amount: int)
    requires e.OrderPlaced? && Admissible(e) && amount == LockAmount(e.price, e.quantity, e.side)
    ensures amount >= 0
  {
    if e.side.Buy? {
      QuoteExactIffFits(e.price, e.quantity);
    }
    hide QuoteAmount;
  }

  /** What the worker writes for a cancel is never rejected either. */
  lemma CancelPersists(db: Tables, s: State, pending: seq<Event>, id: Uuid)
    requires Solvent(s) && Tracks(db.balances, s.balances, pending)
    requires TotalsFit(db.balances) && OthersStorable(db.balances)
    requires AllAdmissible(pending)
    requires CancelOrder(s.book, id).Some?
    ensures var p := PersistCancelled(db, CancelOrder(s.book, id).value.1);
            && p.Some? && p.value.orders == db.orders && p.value.trades == db.trades
            && Tracks(p.value.balances, HandleCancel(s, id).state.balances, pending) && OthersStorable(p.value.balances)
            && (forall k | k in db.balances :: k in p.value.balances)
  {
    hide *;
    var (_, o) := CancelOrder(s.book, id).value;
    var k, amount := LockAccount(o.user, o.side), LockAmount(o.price, o.remaining, o.side);
    CancelStep(s, id);
    CancelHolds(s, id);
    SolventSane(HandleCancel(s, id).state);
    SaneNonNegative(HandleCancel(s, id).state.balances);
    TradedAccount(o.user, o.side);
    UnlockTracks(db.balances, s.balances, pending, k, amount);
    PersistCancelledUnfold(db, o);
  }

  lemma CancelHolds(s: State, id: Uuid)
    requires CancelOrder(s.book, id).Some? && HandleCancel(s, id).outcome != OutOfSync
    ensures var o := CancelOrder(s.book, id).value.1;
            var k := LockAccount(o.user, o.side);
            k in s.balances && s.balances[k].locked >= LockAmount(o.price, o.remaining, o.side)
  {
    hide CancelOrder, QuoteAmount, Credit64;
  }

  lemma UnlockTracks(rows: Balances, memory: Balances, pending: seq<Event>, k: Account, amount: int)
    requires Tracks(rows, memory, pending) && TotalsFit(rows) && OthersStorable(rows) && !k.asset.Other?
    requires AllAdmissible(pending)
    requires k in memory && memory[k].locked >= amount && NonNegative(Credit(memory, k, amount, -amount))
    ensures UnlockRow(rows, k, amount).Some?
    ensures OthersStorable(UnlockRow(rows, k, amount).value)
    ensures Tracks(UnlockRow(rows, k, amount).value, Credit(memory, k, amount, -amount), pending)
    ensures forall x | x in rows :: x in UnlockRow(rows, k, amount).value
  {
    hide Total, Undelivered, Admissible;
    var r, m := Credit(rows, k, amount, -amount), Credit(memory, k, amount, -amount);
    assert Get(rows, k).locked == Get(memory, k).locked;
    TracksCredit(rows, memory, pending, k, amount, -amount);
    TotalCredit(rows, k, amount, -amount, BTC);
    TotalCredit(rows, k, amount, -amount, USD);
    CreditOthers(rows, k, amount, -amount);
    TrackedStorable(r, m, pending);
  }

  lemma PersistCancelledUnfold(db: Tables, o: Entry)
    ensures var u := UnlockRow(db.balances, LockAccount(o.user, o.side), LockAmount(o.price, o.remaining, o.side));
            PersistCancelled(db, o) == if u.Some? then Some(db.(balances := u.value)) else None
  {
    hide UnlockRow, QuoteAmount;
  }

  /** A delivered deposit leaves the undelivered ones and enters memory. */
  lemma {:induction false} DepositTracks(rows: Balances, memory: Balances, pending: seq<Event>, i: nat)
    requires i < |pending| && pending[i].DepositCreated? && Tracks(rows, memory, pending)
    requires Account(pending[i].user, pending[i].asset) in rows
    ensures Tracks(rows, Credit(memory, Account(pending[i].user, pending[i].asset), pending[i].amount, 0),
                   Dropped(pending, i))
  {
    hide Undelivered, Credit, Get, Dropped;
    var e := pending[i];
    var m := Credit(memory, Account(e.user, e.asset), e.amount, 0);
    forall k
      ensures k in m ==> k in rows
      ensures Get(rows, k).locked == Get(m, k).locked
      ensures Get(rows, k).available == Get(m, k).available + Undelivered(Dropped(pending, i), k)
    {
      UndeliveredWithout(pending, i, k);
      UndeliveredOne(e, k);
      CreditAt(memory, Account(e.user, e.asset), e.amount, 0, k);
      assert Get(rows, k).locked == Get(memory, k).locked;
    }
  }

  /** Delivering any other event leaves the undelivered deposits as they were. */
  lemma {:induction false} OthersTrack(rows: Balances, memory: Balances, pending: seq<Event>, i: nat)
    requires i < |pending| && !pending[i].DepositCreated? && Tracks(rows, memory, pending)
    ensures Tracks(rows, memory, Dropped(pending, i))
  {
    hide Undelivered, Get, Dropped;
    forall k ensures Undelivered(Dropped(pending, i), k) == Undelivered(pending, k) {
      UndeliveredWithout(pending, i, k);
      UndeliveredOne(pending[i], k);
    }
  }

  lemma UndeliveredOne(e: Event, k: Account)
    ensures Undelivered([e], k) == if e.DepositCreated? && Account(e.user, e.asset) == k then e.amount else 0
  {}

  // ---------- Every action ----------

  /** Reordering or dropping events keeps a run admissible. */
  lemma Reindexed(was: seq<Event>, now: seq<Event>, from: seq<nat>, orders: set<Uuid>)
    requires AdmissibleRun(was) && PlacedAreOrders(was, orders) && |from| == |now|
    requires forall x | 0 <= x < |now| :: from[x] < |was| && now[x] == was[from[x]]
    requires forall x, y | 0 <= x < y < |now| :: from[x] != from[y]
    ensures AdmissibleRun(now) && PlacedAreOrders(now, orders)
  {
    hide Admissible;
  }

  lemma FrontOf(events: seq<Event>, n: nat, orders: set<Uuid>)
    requires n <= |events| && AdmissibleRun(events) && PlacedAreOrders(events, orders)
    ensures AdmissibleRun(events[..n]) && PlacedAreOrders(events[..n], orders)
  {
    hide Admissible;
  }

  /** Delivering an event moves it from the pending ones to the end of the delivered ones. */
  lemma MoveAdmissible(delivered: seq<Event>, pending: seq<Event>, i: nat, orders: set<Uuid>)
    requires i < |pending| && AdmissibleRun(delivered + pending) && PlacedAreOrders(delivered + pending, orders)
    ensures AdmissibleRun(delivered + [pending[i]] + Dropped(pending, i))
    ensures PlacedAreOrders(delivered + [pending[i]] + Dropped(pending, i), orders)
    ensures AdmissibleRun(delivered) && AdmissibleRun(delivered + [pending[i]])
    ensures PlacedAreOrders(delivered + [pending[i]], orders)
    ensures AllAdmissible(Dropped(pending, i))
  {
    var was, n := delivered + pending, |delivered|;
    var now := delivered + [pending[i]] + Dropped(pending, i);
    hide AdmissibleRun, PlacedAreOrders, Admissible;
    var from: seq<nat> := seq(|now|, x requires 0 <= x < |now| =>
      if x < n then x else if x == n then n + i else if x - n <= i then x - 1 else x);
    assert forall x | 0 <= x < |now| :: from[x] < |was| && now[x] == was[from[x]];
    Reindexed(was, now, from, orders);
    assert delivered == was[..n] && delivered + [pending[i]] == now[..n + 1];
    FrontOf(was, n, orders);
    FrontOf(now, n + 1, orders);
    RunIsAdmissible(now);
    forall j | 0 <= j < |Dropped(pending, i)| ensures Admissible(Dropped(pending, i)[j]) {
      assert Dropped(pending, i)[j] == now[n + 1 + j];
    }
  }

  lemma RowLogOther(events: seq<Event>, e: Event)
    requires !e.OrderPlaced? || Handle(Run(INITIAL, events), e).trades == []
    ensures RowLog(events + [e]) == RowLog(events)
  {
    hide Handle;
    assert (events + [e])[..|events|] == events;
  }

  lemma OpenedMore(pending: seq<Event>, i: nat, rows: Balances, more: Balances)
    requires i < |pending| && HasRows(pending, rows) && forall k | k in rows :: k in more
    ensures HasRows(Dropped(pending, i), more)
  {}

  lemma CancelDone(s: State, id: Uuid)
    requires HandleCancel(s, id).outcome == Done
    ensures CancelOrder(s.book, id).Some?
  {}

  /** The agreement, built for the world after an event is handed over. */
  lemma AgreementAfter(w: World, i: nat, db: Tables)
    requires Agreement(w) && i < |w.pending| && db.orders == w.db.orders
    requires var e := w.pending[i];
             && Tracks(db.balances, Handle(w.Memory(), e).state.balances, Dropped(w.pending, i))
             && (forall k | k in w.db.balances :: k in db.balances) && OthersStorable(db.balances)
             && Healthy(Handle(w.Memory(), e).state)
             && db.trades == RowLog(w.delivered + [e])
    ensures Agreement(World(w.delivered + [w.pending[i]], Dropped(w.pending, i), db))
  {
    hide *;
    var e := w.pending[i];
    AgreementFacts(w);
    MoveAdmissible(w.delivered, w.pending, i, w.db.orders);
    RunSnoc(INITIAL, w.delivered, e);
    OpenedMore(w.pending, i, w.db.balances, db.balances);
    AgreementIs(World(w.delivered + [e], Dropped(w.pending, i), db));
  }

  lemma AgreementIs(w: World)
    ensures Agreement(w) <==>
      && AdmissibleRun(w.delivered + w.pending)
      && PlacedAreOrders(w.delivered + w.pending, w.db.orders)
      && Tracks(w.db.balances, Run(INITIAL, w.delivered).balances, w.pending) && HasRows(w.pending, w.db.balances)
      && OthersStorable(w.db.balances) && Healthy(Run(INITIAL, w.delivered))
      && w.db.trades == RowLog(w.delivered)
  {
    hide AdmissibleRun, PlacedAreOrders, Tracks, HasRows, RowLog, Run, OthersStorable, Healthy;
  }

  lemma AgreementFacts(w: World)
    requires Agreement(w)
    ensures AdmissibleRun(w.delivered + w.pending) && PlacedAreOrders(w.delivered + w.pending, w.db.orders)
    ensures Tracks(w.db.balances, w.Memory().balances, w.pending) && HasRows(w.pending, w.db.balances)
    ensures OthersStorable(w.db.balances) && Healthy(w.Memory())
    ensures w.db.trades == RowLog(w.delivered) && w.Memory() == Run(INITIAL, w.delivered)
  {
    hide AdmissibleRun, PlacedAreOrders, Tracks, HasRows, RowLog, Run, OthersStorable, Healthy;
  }

  /** What is known when an event is handed to the worker. */
  lemma HandedFacts(w: World, i: nat)
    requires Agreement(w) && i < |w.pending|
    ensures Solvent(w.Memory()) && Admissible(w.pending[i]) && w.Memory() == Run(INITIAL, w.delivered)
    ensures AdmissibleRun(w.delivered + [w.pending[i]]) && PlacedAreOrders(w.delivered + [w.pending[i]], w.db.orders)
    ensures AllAdmissible(Dropped(w.pending, i))
    ensures !w.pending[i].DepositCreated? ==> Tracks(w.db.balances, w.Memory().balances, Dropped(w.pending, i))
  {
    hide *;
    AgreementFacts(w);
    MoveAdmissible(w.delivered, w.pending, i, w.db.orders);
    FrontAdmissible(w.delivered, w.pending[i]);
    HealthySolvent(w.Memory());
    if !w.pending[i].DepositCreated? {
      OthersTrack(w.db.balances, w.Memory().balances, w.pending, i);
    }
  }

  lemma HealthySolvent(s: State)
    requires Healthy(s)
    ensures Solvent(s)
  {}

  /** A placement or a cancel leaves the accounts of assets that are not traded alone. */
  lemma OthersHealthy(s: State, e: Event)
    requires Healthy(s) && Admissible(e) && !e.DepositCreated?
    ensures Healthy(Handle(s, e).state)
  {
    hide Solvent, PlaceOrder, CancelOrder, QuoteAmount, SettleAll, TransferAll, LockFunds, UnlockFunds, Surplus;
    hide Credit64;
    match e
    case OrderPlaced(_, user, price, quantity, side) =>
      PlaceStep(s, e);
      var k, amount := LockAccount(user, side), LockAmount(price, quantity, side);
      var t := TransferAll(Credit(s.balances, k, -amount, amount), side, Handle(s, e).trades);
      forall x | !IsTraded(x) ensures (x in t <==> x in s.balances) && Get(t, x) == Get(s.balances, x) {
        TransferAllOthers(Credit(s.balances, k, -amount, amount), side, Handle(s, e).trades, x);
      }
    case CancelRequested(id) => CancelStep(s, id);
  }

  lemma HandedIs(w: World, i: nat, db: Tables)
    requires i < |w.pending|
    requires var r := Handle(w.Memory(), w.pending[i]);
             && r.outcome != SettlementPanic && r.outcome != OutOfSync
             && Persist(w.db, w.pending[i], w.Memory(), r) == Some(db)
    ensures Handed(w, i) == Outcomes(World(w.delivered + [w.pending[i]], Dropped(w.pending, i), db), Accepted)
  {
    hide Handle, Persist, Run;
  }

  lemma PersistIs(db: Tables, e: Event, s: State, r: Reply)
    ensures r.outcome != Done || e.DepositCreated? ==> Persist(db, e, s, r) == Some(db)
    ensures r.outcome == Done && e.OrderPlaced? ==>
        Persist(db, e, s, r) == PersistPlaced(db, e.user, e.price, e.quantity, e.side, r.trades)
    ensures r.outcome == Done && e.CancelRequested? && CancelOrder(s.book, e.id).Some? ==>
      Persist(db, e, s, r) == PersistCancelled(db, CancelOrder(s.book, e.id).value.1)
  {
    hide PersistPlaced, PersistCancelled, CancelOrder;
  }

  lemma PlacedDelivered(w: World, i: nat)
    requires Agreement(w) && TotalsFit(w.db.balances) && i < |w.pending| && w.pending[i].OrderPlaced?
    ensures Handed(w, i).verdict == Accepted && Agreement(Handed(w, i).world)
  {
    hide *;
    var e, s, rest := w.pending[i], w.Memory(), Dropped(w.pending, i);
    var r := Handle(s, e);
    AgreementFacts(w);
    HandedFacts(w, i);
    PlaceStep(s, e);
    OthersHealthy(s, e);
    PersistIs(w.db, e, s, r);
    if r.outcome == Done {
      TradesInserted(w.delivered, e, w.db.orders);
      PlacementPersists(w.db, s, rest, e, RowLog(w.delivered + [e]));
      var db := PersistPlaced(w.db, e.user, e.price, e.quantity, e.side, r.trades).value;
      AgreementAfter(w, i, db);
      HandedIs(w, i, db);
    } else {
      RowLogOther(w.delivered, e);
      AgreementAfter(w, i, w.db);
      HandedIs(w, i, w.db);
    }
  }

  lemma CancelDelivered(w: World, i: nat)
    requires Agreement(w) && TotalsFit(w.db.balances) && i < |w.pending| && w.pending[i].CancelRequested?
    ensures Handed(w, i).verdict == Accepted && Agreement(Handed(w, i).world)
  {
    hide *;
    var e, s, rest := w.pending[i], w.Memory(), Dropped(w.pending, i);
    var r := Handle(s, e);
    AgreementFacts(w);
    HandedFacts(w, i);
    HandleIs(s, e);
    CancelStep(s, e.id);
    OthersHealthy(s, e);
    PersistIs(w.db, e, s, r);
    RowLogOther(w.delivered, e);
    if r.outcome == Done {
      CancelDone(s, e.id);
      CancelPersists(w.db, s, rest, e.id);
      var db := PersistCancelled(w.db, CancelOrder(s.book, e.id).value.1).value;
      AgreementAfter(w, i, db);
      HandedIs(w, i, db);
    } else {
      AgreementAfter(w, i, w.db);
      HandedIs(w, i, w.db);
    }
  }

  lemma HandleIs(s: State, e: Event)
    ensures e.CancelRequested? ==> Handle(s, e) == HandleCancel(s, e.id)
    ensures e.DepositCreated? ==>
      Handle(s, e) == Reply(s.(balances := Deposit(s.balances, Account(e.user, e.asset), e.amount)), Done, New, [])
  {
    hide HandlePlaced, HandleCancel, Credit;
  }

  /** Balances that are nowhere above others, and have no accounts they have not, hold no more in all. */
  lemma {:induction false} TotalBelow(b: Balances, c: Balances, a: Asset)
    requires forall k | k in b :: k in c
    requires forall k | k in c :: Held(b, k, a) <= Held(c, k, a)
    ensures Total(b, a) <= Total(c, a)
    decreases |c|
  {
    if c == map[] {
      assert b == map[];
    } else {
      var k :| k in c;
      TotalWithout(c, k, a);
      if k in b {
        TotalWithout(b, k, a);
      } else {
        assert b - {k} == b;
      }
      hide Total;
      forall x | x in c - {k} ensures Held(b - {k}, x, a) <= Held(c - {k}, x, a) {
        assert Held(b - {k}, x, a) == Held(b, x, a) && Held(c - {k}, x, a) == Held(c, x, a);
      }
      TotalBelow(b - {k}, c - {k}, a);
    }
  }

  /** Memory holds no more than the rows it is followed by. */
  lemma {:induction false} TrackedTotal(rows: Balances, memory: Balances, pending: seq<Event>, a: Asset)
    requires Tracks(rows, memory, pending)
    requires AllAdmissible(pending)
    ensures Total(memory, a) <= Total(rows, a)
  {
    hide Total, Undelivered, Admissible;
    forall k | k in rows ensures Held(memory, k, a) <= Held(rows, k, a) {
      UndeliveredNonNegative(pending, k);
      assert Get(rows, k).locked == Get(memory, k).locked;
    }
    TotalBelow(memory, rows, a);
  }

  /** A deposit to an account whose row has room for it does not overflow. */
  lemma {:induction false} DepositEnters(s: State, e: Event, rows: Balances, rest: seq<Event>)
    requires Healthy(s) && e.DepositCreated? && Admissible(e) && TotalsFit(rows) && OthersStorable(rows)
    requires Tracks(rows, Credit(s.balances, Account(e.user, e.asset), e.amount, 0), rest)
    requires AllAdmissible(rest)
    ensures Handle(s, e).state.balances == Credit(s.balances, Account(e.user, e.asset), e.amount, 0)
    ensures Healthy(Handle(s, e).state)
  {
    hide Total, Solvent, Undelivered, Credit64, Surplus, QuoteFits;
    var k, m := Account(e.user, e.asset), Credit(s.balances, Account(e.user, e.asset), e.amount, 0);
    if IsTraded(k) {
      TrackedTotal(rows, m, rest, e.asset);
      TotalCredit(s.balances, k, e.amount, 0, e.asset);
      DepositStep(s, e);
    } else {
      UndeliveredNonNegative(rest, k);
      assert k in m && k in rows;
      assert Get(rows, k).locked == Get(m, k).locked && Get(rows, k).available >= Get(m, k).available;
      assert Storable(rows[k]);
      CreditSame(s.balances, k, e.amount, 0);
      DepositStep(s, e);
    }
  }

  lemma DepositDelivered(w: World, i: nat)
    requires Agreement(w) && TotalsFit(w.db.balances) && i < |w.pending| && w.pending[i].DepositCreated?
    ensures Handed(w, i).verdict == Accepted && Agreement(Handed(w, i).world)
  {
    hide *;
    var e, s := w.pending[i], w.Memory();
    AgreementFacts(w);
    HandedFacts(w, i);
    HandleIs(s, e);
    PersistIs(w.db, e, s, Handle(s, e));
    RowLogOther(w.delivered, e);
    OpenedAt(w.pending, i, w.db.balances);
    DepositTracks(w.db.balances, s.balances, w.pending, i);
    DepositEnters(s, e, w.db.balances, Dropped(w.pending, i));
    AgreementAfter(w, i, w.db);
    HandedIs(w, i, w.db);
  }

  lemma OpenedAt(pending: seq<Event>, i: nat, rows: Balances)
    requires i < |pending| && pending[i].DepositCreated? && HasRows(pending, rows)
    ensures Account(pending[i].user, pending[i].asset) in rows
  {}

  /** Handing the worker any pending event keeps the agreement, and nothing is rejected. */
  lemma Delivered(w: World, i: nat)
    requires Agreement(w) && TotalsFit(w.db.balances) && i < |w.pending|
    ensures Handed(w, i).verdict == Accepted && Agreement(Handed(w, i).world)
  {
    hide *;
    match w.pending[i]
    case OrderPlaced(_, _, _, _, _) => PlacedDelivered(w, i);
    case CancelRequested(_) => CancelDelivered(w, i);
    case DepositCreated(_, _, _) => DepositDelivered(w, i);
  }

  // ---------- The API's transactions ----------

  lemma {:induction false} AppendAdmissible(events: seq<Event>, e: Event, orders: set<Uuid>, more: set<Uuid>)
    requires AdmissibleRun(events) && PlacedAreOrders(events, orders) && Admissible(e) && orders <= more
    requires e.OrderPlaced? ==> e.id !in orders && e.id in more
    ensures AdmissibleRun(events + [e]) && PlacedAreOrders(events + [e], more)
  {
    hide Admissible;
  }

  lemma {:induction false} TracksEnqueue(rows: Balances, memory: Balances, pending: seq<Event>, e: Event)
    requires Tracks(rows, memory, pending) && !e.DepositCreated?
    ensures Tracks(rows, memory, pending + [e])
  {
    hide Undelivered, Get;
    forall k ensures Undelivered(pending + [e], k) == Undelivered(pending, k) {
      UndeliveredAppend(pending, e, k);
      UndeliveredOne(e, k);
    }
  }

  lemma {:induction false} TracksDeposit(rows: Balances, memory: Balances, pending: seq<Event>, e: Event)
    requires Tracks(rows, memory, pending) && e.DepositCreated?
    ensures Tracks(Credit(rows, Account(e.user, e.asset), e.amount, 0), memory, pending + [e])
  {
    hide Undelivered, Get, Credit;
    var r := Credit(rows, Account(e.user, e.asset), e.amount, 0);
    forall k
      ensures k in memory ==> k in r
      ensures Get(r, k).locked == Get(memory, k).locked
      ensures Get(r, k).available == Get(memory, k).available + Undelivered(pending + [e], k)
    {
      UndeliveredAppend(pending, e, k);
      UndeliveredOne(e, k);
      CreditAt(rows, Account(e.user, e.asset), e.amount, 0, k);
      assert Get(rows, k).locked == Get(memory, k).locked;
    }
  }

  /** An event committed by the API keeps the agreement. */
  lemma Enqueued(w: World, e: Event, db: Tables)
    requires Agreement(w) && Admissible(e) && w.db.orders <= db.orders && db.trades == w.db.trades
    requires e.OrderPlaced? ==> e.id !in w.db.orders && e.id in db.orders
    requires db.balances == if e.DepositCreated? then Credit(w.db.balances, Account(e.user, e.asset), e.amount, 0)
        else w.db.balances
    requires OthersStorable(db.balances)
    ensures Agreement(World(w.delivered, w.pending + [e], db))
  {
    hide AdmissibleRun, PlacedAreOrders, Tracks, Admissible, RowLog, Run, Credit, Get, OthersStorable, Healthy;
    assert w.delivered + (w.pending + [e]) == w.delivered + w.pending + [e];
    AppendAdmissible(w.delivered + w.pending, e, w.db.orders, db.orders);
    if e.DepositCreated? {
      TracksDeposit(w.db.balances, w.Memory().balances, w.pending, e);
      CreditKeys(w.db.balances, Account(e.user, e.asset), e.amount);
    } else {
      TracksEnqueue(w.db.balances, w.Memory().balances, w.pending, e);
    }
  }

  lemma {:induction false} CreditKeys(b: Balances, k: Account, amount: int)
    ensures k in Credit(b, k, amount, 0) && forall x | x in b :: x in Credit(b, k, amount, 0)
  {}

  // ---------- Every run ----------

  predicate Failed(v: Verdict) {
    v == MemoryInconsistent || v == WorkerRefused
  }

  lemma AllIncludesOthers(rows: Balances)
    requires AllStorable(rows)
    ensures OthersStorable(rows)
  {}

  /** Every action keeps the agreement, and in the worker nothing fails. */
  lemma ActAgrees(w: World, a: Action)
    requires Agreement(w) && TotalsFit(w.db.balances) && AdmissibleAction(a)
    ensures Agreement(Act(w, a).world) && !Failed(Act(w, a).verdict)
  {
    hide Agreement, Handed, QuoteFits, AllStorable, OthersStorable;
    AgreementFacts(w);
    match a
    case ApiDeposit(user, asset, amount) =>
      var e := DepositCreated(user, asset, amount);
      match UpsertRow(w.db.balances, Account(user, asset), amount) {
        case None =>
        case Some(rows) =>
          AllIncludesOthers(rows);
          Enqueued(w, e, w.db.(balances := rows));
      }
    case ApiPlace(id, user, price, quantity, side) =>
      if id !in w.db.orders {
        Enqueued(w, OrderPlaced(id, user, price, quantity, side), w.db.(orders := w.db.orders + {id}));
      }
    case ApiCancel(id) => Enqueued(w, CancelRequested(id), w.db);
    case Deliver(i) =>
      if i < |w.pending| {
        Delivered(w, i);
      }
  }

  lemma {:induction false} PersistPlacedConserves(db: Tables, e: Event, trades: seq<Trade>, a: Asset)
    requires e.OrderPlaced?
    ensures var p := PersistPlaced(db, e.user, e.price, e.quantity, e.side, trades);
            p.Some? ==> Total(p.value.balances, a) == Total(db.balances, a)
  {
    hide Total, QuoteAmount, Transfer, Credit, AllStorable, InsertTrades;
    var k, amount := LockAccount(e.user, e.side), LockAmount(e.price, e.quantity, e.side);
    TotalCredit(db.balances, k, -amount, amount, a);
    if LockRow(db.balances, k, amount).Some? {
      TransferAllConserves(LockRow(db.balances, k, amount).value, e.side, trades, a);
    }
  }

  lemma {:induction false} PersistConserves(db: Tables, e: Event, s: State, r: Reply, a: Asset)
    ensures var p := Persist(db, e, s, r); p.Some? ==> Total(p.value.balances, a) == Total(db.balances, a)
  {
    hide Total, QuoteAmount, PersistPlaced, Credit, AllStorable, CancelOrder;
    match e
    case OrderPlaced(_, _, _, _, _) => PersistPlacedConserves(db, e, r.trades, a);
    case CancelRequested(id) =>
      if CancelOrder(s.book, id).Some? {
        var o := CancelOrder(s.book, id).value.1;
        var amount := LockAmount(o.price, o.remaining, o.side);
        TotalCredit(db.balances, LockAccount(o.user, o.side), amount, -amount, a);
      }
    case DepositCreated(_, _, _) =>
  }

  /** The tables hold, asset by asset, exactly the deposits the database accepted. */
  lemma {:induction false} RowsConserve(actions: seq<Action>, asset: Asset)
    ensures Total(After(actions).db.balances, asset) == AcceptedDeposits(actions, asset)
  {
    if actions != [] {
      var front, a := actions[..|actions| - 1], actions[|actions| - 1];
      RowsConserve(front, asset);
      ActConserves(After(front), a, asset);
    }
  }

  lemma {:induction false} ActConserves(w: World, a: Action, asset: Asset)
    ensures Total(Act(w, a).world.db.balances, asset) == Total(w.db.balances, asset)
              + if a.ApiDeposit? && a.asset == asset && Act(w, a).verdict == Accepted then a.amount else 0
  {
    hide Total, Handle, Run, Persist, Credit, AllStorable;
    match a
    case ApiDeposit(user, k, amount) => TotalCredit(w.db.balances, Account(user, k), amount, 0, asset);
    case ApiPlace(_, _, _, _, _) =>
    case ApiCancel(_) =>
    case Deliver(i) =>
      if i < |w.pending| {
        PersistConserves(w.db, w.pending[i], w.Memory(), Handle(w.Memory(), w.pending[i]), asset);
      }
  }

  lemma {:induction false} AcceptedGrows(front: seq<Action>, a: Action, asset: Asset)
    ensures AcceptedDeposits(front, asset) <= AcceptedDeposits(front + [a], asset)
  {
    hide Total, Handed, AllStorable, Credit;
    assert (front + [a])[..|front|] == front;
  }

  /**
   In every run the tables agree with memory: each row's locked balance is the cache's, its
   available one is the cache's plus the deposits still to be delivered, and every trade of the
   run is recorded.
   */
  lemma {:induction false} TablesFollowMemory(actions: seq<Action>)
    requires forall i | 0 <= i < |actions| :: AdmissibleAction(actions[i])
    requires AcceptedFit(actions)
    ensures Agreement(After(actions))
  {
    if actions == [] {
      assert Agreement(EMPTY_EXCHANGE);
    } else {
      var front, a := actions[..|actions| - 1], actions[|actions| - 1];
      hide Agreement, Total, Act, AdmissibleAction, AcceptedDeposits;
      assert front + [a] == actions;
      AcceptedGrows(front, a, BTC);
      AcceptedGrows(front, a, USD);
      RowsConserve(front, BTC);
      RowsConserve(front, USD);
      TablesFollowMemory(front);
      ActAgrees(After(front), a);
    }
  }

  /** In no run does a database guard or constraint reject the worker, nor is memory inconsistent. */
  lemma {:induction false} WorkerNeverRefused(actions: seq<Action>, a: Action)
    requires forall i | 0 <= i < |actions| :: AdmissibleAction(actions[i])
    requires AdmissibleAction(a) && AcceptedFit(actions)
    ensures !Failed(Act(After(actions), a).verdict)
  {
    hide Agreement, Total, Act, AdmissibleAction, AcceptedDeposits;
    TablesFollowMemory(actions);
    RowsConserve(actions, BTC);
    RowsConserve(actions, USD);
    ActAgrees(After(actions), a);
  }
}
