/** The database tables the engine writes, with their constraints, as values. */
module Rows {
  import opened Domain
  import opened Funds
  import opened Engine

  datatype TradeRow = TradeRow(id: Uuid, buyerOrder: Uuid, sellerOrder: Uuid,
                               takerUser: Uuid, makerUser: Uuid, price: int, quantity: int)

  /** The balances table, the ids in the orders table, and the trades table in insertion order. */
  datatype Tables = Tables(balances: Balances, orders: set<Uuid>, trades: seq<TradeRow>)

  // ---------- Balances ----------

  /** The table's CHECK constraint, and the range of its BIGINT columns. */
  predicate Storable(row: Balance) {
    0 <= row.available <= MAX_INT64 && 0 <= row.locked <= MAX_INT64
  }

  predicate AllStorable(rows: Balances) {
    forall k | k in rows :: Storable(rows[k])
  }

  /** Stores changed rows, or fails as the statement does when one of them breaks a constraint. */
  function Store(rows: Balances): Option<Balances> {
    if AllStorable(rows) then Some(rows) else None
  }

  /** UpdateBalanceLock: matches the account's row only while it has the amount available. */
  function LockRow(rows: Balances, k: Account, amount: int): Option<Balances> {
    if k in rows && rows[k].available >= amount then Store(Credit(rows, k, -amount, amount)) else None
  }

  /** UpdateBalanceUnlock: matches the account's row only while it has the amount locked. */
  function UnlockRow(rows: Balances, k: Account, amount: int): Option<Balances> {
    if k in rows && rows[k].locked >= amount then Store(Credit(rows, k, amount, -amount)) else None
  }

  /**
   UpsertBalance: adds to the account's row, or inserts it. The constraints are checked on the
   row proposed for insertion before a conflict turns the insert into an update.
   */
  function UpsertRow(rows: Balances, k: Account, amount: int): Option<Balances> {
    if Storable(Balance(amount, 0)) then Store(Credit(rows, k, amount, 0)) else None
  }

  /**
   The three single-row queries on a table that meets its constraints: exactly when each succeeds, and the
   one row it leaves changed.
   */
  lemma {:induction false} RowUpdates(rows: Balances, k: Account, amount: int)
    requires AllStorable(rows)
    ensures var held := Get(rows, k);
            var moved, back := Balance(held.available - amount, held.locked + amount),
                Balance(held.available + amount, held.locked - amount);
            && LockRow(rows, k, amount)
               == (if k in rows && held.available >= amount && moved.available <= MAX_INT64
                       && 0 <= moved.locked <= MAX_INT64
                   then Some(rows[k := moved]) else None)
            && UnlockRow(rows, k, amount)
               == (if k in rows && held.locked >= amount && 0 <= back.available <= MAX_INT64
                       && back.locked <= MAX_INT64
                   then Some(rows[k := back]) else None)
            && UpsertRow(rows, k, amount)
               == (if 0 <= amount && held.available + amount <= MAX_INT64
                   then Some(rows[k := Balance(held.available + amount, held.locked)]) else None)
  {
    StoreOne(rows, k, -amount, amount);
    StoreOne(rows, k, amount, -amount);
    StoreOne(rows, k, amount, 0);
    hide AllStorable;
  }

  lemma {:induction false} StoreOne(rows: Balances, k: Account, available: int, locked: int)
    requires AllStorable(rows)
    ensures var row := Balance(Get(rows, k).available + available, Get(rows, k).locked + locked);
            Store(Credit(rows, k, available, locked)) == if Storable(row) then Some(rows[k := row]) else None
    ensures Storable(Get(rows, k))
  {
    hide Storable;
    assert Storable(Balance(0, 0)) by {
      ZeroStorable();
    }
    var row := Balance(Get(rows, k).available + available, Get(rows, k).locked + locked);
    assert Credit(rows, k, available, locked)[k] == row;
  }

  lemma ZeroStorable()
    ensures Storable(Balance(0, 0))
  {}

  /** EnsureBalancesExist: inserts a zero row for each listed account without one. */
  function EnsureRows(rows: Balances, keys: seq<Account>): Balances {
    map k | k in rows.Keys + (set i | 0 <= i < |keys| :: keys[i]) :: Get(rows, k)
  }

  /** One line of a batch: the account of the row to update, and what to add to its two columns. */
  datatype Update = Update(key: Account, change: Balance)

  function Plus(x: Balance, y: Balance): Balance {
    Balance(x.available + y.available, x.locked + y.locked)
  }

  /**
   BatchUpdateBalances: what the rows may be afterwards. A row that several lines match is
   updated by one of them, and which one is left open.
   */
  predicate BatchOutcome(rows: Balances, updates: seq<Update>, after: Balances) {
    && after.Keys == rows.Keys
    && forall k | k in rows ::
         (exists i :: 0 <= i < |updates| && updates[i].key == k && after[k] == Plus(rows[k], updates[i].change))
         || ((forall i | 0 <= i < |updates| :: updates[i].key != k) && after[k] == rows[k])
  }

  predicate DistinctKeys(updates: seq<Update>) {
    forall i, j | 0 <= i < j < |updates| :: updates[i].key != updates[j].key
  }

  // ---------- Trades ----------

  /** The row of a trade: the taker is the buyer or the seller, by its side. */
  function RowOf(t: Trade, taker: Side): TradeRow {
    TradeRow(t.id, if taker.Buy? then t.takerOrder else t.makerOrder, if taker.Buy? then t.makerOrder else t.takerOrder,
             t.takerUser, t.makerUser, t.price, t.quantity)
  }

  function RowsOf(trades: seq<Trade>, taker: Side): (rows: seq<TradeRow>)
    ensures |rows| == |trades|
  {
    seq(|trades|, i requires 0 <= i < |trades| => RowOf(trades[i], taker))
  }

  predicate SameKey(a: TradeRow, b: TradeRow) {
    a.buyerOrder == b.buyerOrder && a.sellerOrder == b.sellerOrder && a.price == b.price && a.quantity == b.quantity
  }

  /**
   CreateTradesBatch: inserts the rows in order. A row whose id is present is skipped; one that
   repeats a unique key, or names an order that is not in the orders table, fails the statement.
   */
  function InsertTrades(trades: seq<TradeRow>, orders: set<Uuid>, rows: seq<TradeRow>): Option<seq<TradeRow>>
    decreases |rows|
  {
    if rows == [] then Some(trades)
    else if exists i :: 0 <= i < |trades| && trades[i].id == rows[0].id then InsertTrades(trades, orders, rows[1..])
    else if (exists i :: 0 <= i < |trades| && SameKey(trades[i], rows[0])) || rows[0].buyerOrder !in orders
      || rows[0].sellerOrder !in orders
    then None
    else InsertTrades(trades + [rows[0]], orders, rows[1..])
  }

  predicate HasTrade(trades: seq<TradeRow>, id: Uuid) {
    exists i :: 0 <= i < |trades| && trades[i].id == id
  }

  /** The constraints of the trades table: primary key, unique key, and the references to orders. */
  predicate TradesTableOk(trades: seq<TradeRow>, orders: set<Uuid>) {
    && (forall i, j | 0 <= i < j < |trades| :: trades[i].id != trades[j].id && !SameKey(trades[i], trades[j]))
    && (forall i | 0 <= i < |trades| :: trades[i].buyerOrder in orders && trades[i].sellerOrder in orders)
  }

  /** The rows whose id is new. */
  function NewRows(trades: seq<TradeRow>, rows: seq<TradeRow>): seq<TradeRow>
    decreases |rows|
  {
    if rows == [] then []
    else if HasTrade(trades, rows[0].id) then NewRows(trades, rows[1..])
    else [rows[0]] + NewRows(trades + [rows[0]], rows[1..])
  }

  lemma TableExtends(trades: seq<TradeRow>, orders: set<Uuid>, row: TradeRow, more: seq<TradeRow>)
    requires TradesTableOk(trades, orders) && !HasTrade(trades, row.id)
    ensures var clashes := exists i :: 0 <= i < |trades| && SameKey(trades[i], row);
            TradesTableOk(trades + [row], orders) <==> !clashes && row.buyerOrder in orders && row.sellerOrder in orders
    ensures !TradesTableOk(trades + [row], orders) ==> !TradesTableOk(trades + [row] + more, orders)
  {
    var now, all := trades + [row], trades + [row] + more;
    assert now[|trades|] == row && forall i | 0 <= i < |trades| :: now[i] == trades[i];
    assert forall i | 0 <= i < |now| :: all[i] == now[i];
    if i :| 0 <= i < |trades| && SameKey(trades[i], row) {
      assert SameKey(now[i], now[|trades|]);
    }
  }

  /** The statement adds the rows with new ids, or fails: exactly if with them the table would break a constraint. */
  lemma {:induction false} InsertIff(trades: seq<TradeRow>, orders: set<Uuid>, rows: seq<TradeRow>)
    requires TradesTableOk(trades, orders)
    ensures var all := trades + NewRows(trades, rows);
            InsertTrades(trades, orders, rows) == if TradesTableOk(all, orders) then Some(all) else None
    decreases |rows|
  {
    if rows == [] {
      assert trades + [] == trades;
    } else if HasTrade(trades, rows[0].id) {
      InsertIff(trades, orders, rows[1..]);
    } else {
      var row, more := rows[0], NewRows(trades + [rows[0]], rows[1..]);
      hide TradesTableOk, SameKey;
      TableExtends(trades, orders, row, more);
      assert trades + ([row] + more) == trades + [row] + more;
      if TradesTableOk(trades + [row], orders) {
        InsertIff(trades + [row], orders, rows[1..]);
      }
    }
  }

  // ---------- Settling in the tables ----------

  /** The transaction of a placement that locked funds in memory and made these trades. */
  function PersistPlaced(db: Tables, user: Uuid, price: int, quantity: int, side: Side, trades: seq<Trade>)
    : Option<Tables> {
    match LockRow(db.balances, LockAccount(user, side), LockAmount(price, quantity, side))
    case None => None
    case Some(locked) =>
      if trades == [] then Some(db.(balances := locked))
      else
        match InsertTrades(db.trades, db.orders, RowsOf(trades, side))
        case None => None
        case Some(recorded) =>
          match Store(TransferAll(locked, side, trades))
          case None => None
          case Some(settled) => Some(db.(balances := settled, trades := recorded))
  }

  /** The transaction of a cancel. */
  function PersistCancelled(db: Tables, e: Entry): Option<Tables> {
    match UnlockRow(db.balances, LockAccount(e.user, e.side), LockAmount(e.price, e.remaining, e.side))
    case None => None
    case Some(unlocked) => Some(db.(balances := unlocked))
  }

  // ---------- Laws ----------

  // ---------- What trades change, account by account ----------

  /** What one transfer leg adds to an account. */
  function Share(k: Account, owner: Account, available: int, locked: int): Balance {
    if k == owner then Balance(available, locked) else Balance(0, 0)
  }

  function TradeDelta(t: Trade, taker: Side, k: Account): Balance {
    var amount := QuoteAmount(t.price, t.quantity);
    var buyer, seller := Buyer(t, taker), Seller(t, taker);
    Plus(Plus(Share(k, Account(buyer, USD), 0, -amount), Share(k, Account(buyer, BTC), t.quantity, 0)),
         Plus(Share(k, Account(seller, BTC), 0, -t.quantity), Share(k, Account(seller, USD), amount, 0)))
  }

  function TradeKeys(t: Trade, taker: Side): set<Account> {
    {Account(Buyer(t, taker), USD), Account(Buyer(t, taker), BTC), Account(Seller(t, taker), BTC),
        Account(Seller(t, taker), USD)}
  }

  /** What all the trades add to an account. */
  function DeltaOf(trades: seq<Trade>, taker: Side, k: Account): Balance {
    if trades == [] then Balance(0, 0) else Plus(TradeDelta(trades[0], taker, k), DeltaOf(trades[1..], taker, k))
  }

  /** The accounts the trades touch. */
  function Touched(trades: seq<Trade>, taker: Side): set<Account> {
    if trades == [] then {} else TradeKeys(trades[0], taker) + Touched(trades[1..], taker)
  }

  lemma CreditAt(b: Balances, owner: Account, available: int, locked: int, k: Account)
    ensures var c := Credit(b, owner, available, locked);
            && (k in c <==> k in b || k == owner)
            && Get(c, k) == Plus(Get(b, k), Share(k, owner, available, locked))
  {}

  lemma {:induction false} TransferAt(b: Balances, t: Trade, taker: Side, k: Account)
    ensures var c := Transfer(b, Buyer(t, taker), Seller(t, taker), t.price, t.quantity);
            && (k in c <==> k in b || k in TradeKeys(t, taker))
            && Get(c, k) == Plus(Get(b, k), TradeDelta(t, taker, k))
  {
    hide QuoteAmount, Credit, Get, Share, Plus, Buyer, Seller;
    var amount, buyer, seller := QuoteAmount(t.price, t.quantity), Buyer(t, taker), Seller(t, taker);
    var b1 := Credit(b, Account(buyer, USD), 0, -amount);
    var b2 := Credit(b1, Account(buyer, BTC), t.quantity, 0);
    var b3 := Credit(b2, Account(seller, BTC), 0, -t.quantity);
    CreditAt(b, Account(buyer, USD), 0, -amount, k);
    CreditAt(b1, Account(buyer, BTC), t.quantity, 0, k);
    CreditAt(b2, Account(seller, BTC), 0, -t.quantity, k);
    CreditAt(b3, Account(seller, USD), amount, 0, k);
    PlusFour(Get(b, k), Share(k, Account(buyer, USD), 0, -amount), Share(k, Account(buyer, BTC), t.quantity, 0),
             Share(k, Account(seller, BTC), 0, -t.quantity), Share(k, Account(seller, USD), amount, 0));
  }

  lemma PlusFour(held: Balance, x1: Balance, x2: Balance, x3: Balance, x4: Balance)
    ensures Plus(Plus(Plus(Plus(held, x1), x2), x3), x4) == Plus(held, Plus(Plus(x1, x2), Plus(x3, x4)))
    ensures Plus(Plus(Plus(Plus(held, x3), x4), x1), x2) == Plus(held, Plus(Plus(x1, x2), Plus(x3, x4)))
  {}

  /** Settling trade by trade adds to each account the sum of what the trades add to it. */
  lemma {:induction false} TransferAllAt(b: Balances, taker: Side, trades: seq<Trade>, k: Account)
    ensures var c := TransferAll(b, taker, trades);
            && (k in c <==> k in b || k in Touched(trades, taker))
            && Get(c, k) == Plus(Get(b, k), DeltaOf(trades, taker, k))
    decreases |trades|
  {
    hide QuoteAmount, Transfer, TradeDelta, TradeKeys, Get;
    if trades != [] {
      var t := trades[0];
      TransferAt(b, t, taker, k);
      TransferAllAt(Transfer(b, Buyer(t, taker), Seller(t, taker), t.price, t.quantity), taker, trades[1..], k);
    }
  }

  /** Updates that carry, once per touched account, the sum of what the trades add to it. */
  ghost predicate Summarises(updates: seq<Update>, trades: seq<Trade>, taker: Side) {
    && DistinctKeys(updates)
    && (forall k :: k in Touched(trades, taker) <==> exists i :: 0 <= i < |updates| && updates[i].key == k)
    && (forall i | 0 <= i < |updates| :: updates[i].change == DeltaOf(trades, taker, updates[i].key))
  }

  function Keys(updates: seq<Update>): seq<Account> {
    seq(|updates|, i requires 0 <= i < |updates| => updates[i].key)
  }

  lemma {:induction false} EnsuredAt(rows: Balances, updates: seq<Update>, k: Account)
    ensures var ensured := EnsureRows(rows, Keys(updates));
            && (k in ensured <==> k in rows || exists i :: 0 <= i < |updates| && updates[i].key == k)
            && Get(ensured, k) == Get(rows, k)
  {
    var keys := Keys(updates);
    assert forall i | 0 <= i < |updates| :: keys[i] == updates[i].key;
    if k in (set i | 0 <= i < |keys| :: keys[i]) {
      var i :| 0 <= i < |keys| && keys[i] == k;
      assert updates[i].key == k;
    }
    if i :| 0 <= i < |updates| && updates[i].key == k {
      assert keys[i] == k;
    }
  }

  /** Ensuring the rows and applying such a batch once is settling the trades one at a time. */
  lemma {:induction false} BatchSettles(rows: Balances, updates: seq<Update>, trades: seq<Trade>, taker: Side,
                                        after: Balances)
    requires Summarises(updates, trades, taker)
    ensures BatchOutcome(EnsureRows(rows, Keys(updates)), updates, after) <==> after == TransferAll(rows, taker, trades)
  {
    var ensured, settled := EnsureRows(rows, Keys(updates)), TransferAll(rows, taker, trades);
    hide DeltaOf, Touched, TransferAll, EnsureRows;
    forall k
      ensures k in ensured <==> k in settled
      ensures k in settled ==> settled[k] == if k in Touched(trades, taker)
          then Plus(ensured[k], DeltaOf(trades, taker, k)) else ensured[k]
    {
      TransferAllAt(rows, taker, trades, k);
      EnsuredAt(rows, updates, k);
      if k !in Touched(trades, taker) {
        UntouchedDelta(trades, taker, k);
      }
    }
    assert ensured.Keys == settled.Keys;
    hide Plus;
    if BatchOutcome(ensured, updates, after) {
      forall k | k in ensured ensures after[k] == settled[k] {
        if k in Touched(trades, taker) {
          var i :| 0 <= i < |updates| && updates[i].key == k;
        }
      }
      assert after == settled;
    }
  }

  lemma UntouchedByTrade(t: Trade, taker: Side, k: Account)
    requires k !in TradeKeys(t, taker)
    ensures TradeDelta(t, taker, k) == Balance(0, 0)
  {
    hide QuoteAmount, Buyer, Seller;
    var buyer, seller := Buyer(t, taker), Seller(t, taker);
    assert k != Account(buyer, USD) && k != Account(buyer, BTC) && k != Account(seller, BTC)
        && k != Account(seller, USD);
  }

  lemma {:induction false} UntouchedDelta(trades: seq<Trade>, taker: Side, k: Account)
    requires k !in Touched(trades, taker)
    ensures DeltaOf(trades, taker, k) == Balance(0, 0)
  {
    hide TradeDelta, TradeKeys;
    if trades != [] {
      UntouchedByTrade(trades[0], taker, k);
      UntouchedDelta(trades[1..], taker, k);
    }
  }
}
