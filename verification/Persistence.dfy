/** Writing a placement's trades to the database: one batch of trade rows, one batch of balance deltas. */
module Persistence {
  import opened Domain
  import opened Funds
  import opened Engine
  import opened Rows
  import opened Database

  // ---------- Balance deltas ----------

  /** Per user and asset, what to add to the available and the locked balance. */
  type Deltas = map<Uuid, map<Asset, Balance>>

  predicate Has(d: Deltas, k: Account) {
    k.user in d && k.asset in d[k.user]
  }

  function DeltaFor(d: Deltas, k: Account): Balance {
    if Has(d, k) then d[k.user][k.asset] else Balance(0, 0)
  }

  function AddDelta(d: Deltas, user: Uuid, asset: Asset, available: int, locked: int): Deltas {
    var inner: map<Asset, Balance> := if user in d then d[user] else map[];
    d[user := inner[asset := Plus(DeltaFor(d, Account(user, asset)), Balance(available, locked))]]
  }

  lemma {:induction false} AddDeltaAt(d: Deltas, user: Uuid, asset: Asset, available: int, locked: int, k: Account)
    ensures var c := AddDelta(d, user, asset, available, locked);
            && (Has(c, k) <==> Has(d, k) || k == Account(user, asset))
            && DeltaFor(c, k) == Plus(DeltaFor(d, k), Share(k, Account(user, asset), available, locked))
  {
    hide Plus;
    var v := Plus(DeltaFor(d, Account(user, asset)), Balance(available, locked));
    if k == Account(user, asset) {
      assert DeltaFor(AddDelta(d, user, asset, available, locked), k) == v;
    } else {
      PlusZero(DeltaFor(d, k));
    }
  }

  lemma PlusZero(x: Balance)
    ensures Plus(x, Balance(0, 0)) == x
  {}

  /** The deltas of one more trade; the legs are added taker first. */
  function AddTrade(d: Deltas, t: Trade, taker: Side): Deltas {
    var amount := QuoteAmount(t.price, t.quantity);
    if taker.Buy? then
      var d1 := AddDelta(d, t.takerUser, USD, 0, -amount);
      var d2 := AddDelta(d1, t.takerUser, BTC, t.quantity, 0);
      var d3 := AddDelta(d2, t.makerUser, BTC, 0, -t.quantity);
      AddDelta(d3, t.makerUser, USD, amount, 0)
    else
      var d1 := AddDelta(d, t.takerUser, BTC, 0, -t.quantity);
      var d2 := AddDelta(d1, t.takerUser, USD, amount, 0);
      var d3 := AddDelta(d2, t.makerUser, USD, 0, -amount);
      AddDelta(d3, t.makerUser, BTC, t.quantity, 0)
  }

  lemma {:induction false} AddTradeAt(d: Deltas, t: Trade, taker: Side, k: Account)
    ensures var c := AddTrade(d, t, taker);
            && (Has(c, k) <==> Has(d, k) || k in TradeKeys(t, taker))
            && DeltaFor(c, k) == Plus(DeltaFor(d, k), TradeDelta(t, taker, k))
  {
    hide QuoteAmount, AddDelta, Has, DeltaFor, Share, Plus;
    var amount := QuoteAmount(t.price, t.quantity);
    var buyer, seller := Buyer(t, taker), Seller(t, taker);
    PlusFour(DeltaFor(d, k), Share(k, Account(buyer, USD), 0, -amount), Share(k, Account(buyer, BTC), t.quantity, 0),
             Share(k, Account(seller, BTC), 0, -t.quantity), Share(k, Account(seller, USD), amount, 0));
    if taker.Buy? {
      var d1 := AddDelta(d, t.takerUser, USD, 0, -amount);
      var d2 := AddDelta(d1, t.takerUser, BTC, t.quantity, 0);
      var d3 := AddDelta(d2, t.makerUser, BTC, 0, -t.quantity);
      AddDeltaAt(d, t.takerUser, USD, 0, -amount, k);
      AddDeltaAt(d1, t.takerUser, BTC, t.quantity, 0, k);
      AddDeltaAt(d2, t.makerUser, BTC, 0, -t.quantity, k);
      AddDeltaAt(d3, t.makerUser, USD, amount, 0, k);
    } else {
      var d1 := AddDelta(d, t.takerUser, BTC, 0, -t.quantity);
      var d2 := AddDelta(d1, t.takerUser, USD, amount, 0);
      var d3 := AddDelta(d2, t.makerUser, USD, 0, -amount);
      AddDeltaAt(d, t.takerUser, BTC, 0, -t.quantity, k);
      AddDeltaAt(d1, t.takerUser, USD, amount, 0, k);
      AddDeltaAt(d2, t.makerUser, USD, 0, -amount, k);
      AddDeltaAt(d3, t.makerUser, BTC, t.quantity, 0, k);
    }
  }

  /** The deltas collected, with those of the trades still to come, are those of all the trades. */
  predicate Collecting(d: Deltas, rest: seq<Trade>, trades: seq<Trade>, taker: Side, k: Account) {
    && (Has(d, k) || k in Touched(rest, taker) <==> k in Touched(trades, taker))
    && Plus(DeltaFor(d, k), DeltaOf(rest, taker, k)) == DeltaOf(trades, taker, k)
  }

  lemma {:induction false} CollectStarts(trades: seq<Trade>, taker: Side, k: Account)
    ensures Collecting(map[], trades, trades, taker, k)
  {
    hide DeltaOf;
  }

  lemma {:induction false} CollectStep(d: Deltas, rest: seq<Trade>, trades: seq<Trade>, taker: Side, k: Account)
    requires rest != [] && Collecting(d, rest, trades, taker, k)
    ensures Collecting(AddTrade(d, rest[0], taker), rest[1..], trades, taker, k)
  {
    hide AddTrade, TradeDelta, TradeKeys, Has, DeltaFor;
    AddTradeAt(d, rest[0], taker, k);
  }

  lemma {:induction false} CollectEnds(d: Deltas, trades: seq<Trade>, taker: Side, k: Account)
    requires Collecting(d, [], trades, taker, k)
    ensures Has(d, k) <==> k in Touched(trades, taker)
    ensures DeltaFor(d, k) == DeltaOf(trades, taker, k)
  {
    hide Has, DeltaFor;
    assert DeltaOf([], taker, k) == Balance(0, 0) && Touched([], taker) == {};
    PlusZero(DeltaFor(d, k));
  }

  /** One delta for each account the trades touch: the sum of what they add to it. */
  method CollectDeltas(trades: seq<Trade>, taker: Side) returns (deltas: Deltas)
    ensures forall k :: Has(deltas, k) <==> k in Touched(trades, taker)
    ensures forall k :: DeltaFor(deltas, k) == DeltaOf(trades, taker, k)
  {
    hide *;
    deltas := map[];
    forall k ensures Collecting(deltas, trades, trades, taker, k) {
      CollectStarts(trades, taker, k);
    }
    assert trades[0..] == trades;
    for i := 0 to |trades|
      invariant forall k :: Collecting(deltas, trades[i..], trades, taker, k)
    {
      assert trades[i..][0] == trades[i] && trades[i..][1..] == trades[i + 1..];
      ghost var before, rest := deltas, trades[i + 1..];
      deltas := AddTrade(deltas, trades[i], taker);
      forall k ensures Collecting(deltas, rest, trades, taker, k) {
        CollectStep(before, trades[i..], trades, taker, k);
      }
    }
    assert trades[|trades|..] == [];
    forall k
      ensures Has(deltas, k) <==> k in Touched(trades, taker)
      ensures DeltaFor(deltas, k) == DeltaOf(trades, taker, k)
    {
      CollectEnds(deltas, trades, taker, k);
    }
  }

  // ---------- The batch ----------

  /** The lists hold one line per account of the deltas whose user is not in `left`. */
  ghost predicate ListsDeltas(d: Deltas, updates: seq<Update>, left: set<Uuid>) {
    && DistinctKeys(updates)
    && (forall i | 0 <= i < |updates| ::
          updates[i].key.user !in left && Has(d, updates[i].key) && updates[i].change == DeltaFor(d, updates[i].key))
    && (forall k | Has(d, k) && k.user !in left :: exists i :: 0 <= i < |updates| && updates[i].key == k)
  }

  /** The same while the accounts of one user are being listed: its assets in `rest` are still to come. */
  ghost predicate Listing(d: Deltas, updates: seq<Update>, left: set<Uuid>, user: Uuid, rest: set<Asset>) {
    && DistinctKeys(updates)
    && (forall i | 0 <= i < |updates| ::
          var k := updates[i].key;
          k.user !in left && !(k.user == user && k.asset in rest) && Has(d, k) && updates[i].change == DeltaFor(d, k))
    && (forall k | Has(d, k) && k.user !in left && !(k.user == user && k.asset in rest) ::
          exists i :: 0 <= i < |updates| && updates[i].key == k)
  }

  lemma {:induction false} ListStep(d: Deltas, updates: seq<Update>, left: set<Uuid>, user: Uuid, rest: set<Asset>,
                                    asset: Asset, more: seq<Update>)
    requires Listing(d, updates, left, user, rest) && asset in rest && user !in left && Has(d, Account(user, asset))
    requires more == updates + [Update(Account(user, asset), DeltaFor(d, Account(user, asset)))]
    ensures Listing(d, more, left, user, rest - {asset})
  {
    hide Has, DeltaFor;
    forall k | Has(d, k) && k.user !in left && !(k.user == user && k.asset in rest - {asset})
      ensures exists i :: 0 <= i < |more| && more[i].key == k
    {
      if k == Account(user, asset) {
        assert more[|updates|].key == k;
      } else {
        var i :| 0 <= i < |updates| && updates[i].key == k;
        assert more[i].key == k;
      }
    }
  }

  /** Walks the nested maps, in any order, into four parallel lists. */
  method ListDeltas(deltas: Deltas)
    returns (users: seq<Uuid>, assets: seq<Asset>, availDeltas: seq<int>, lockDeltas: seq<int>)
    ensures |users| == |assets| == |availDeltas| == |lockDeltas|
    ensures ListsDeltas(deltas, Updates(users, assets, availDeltas, lockDeltas), {})
  {
    users, assets, availDeltas, lockDeltas := [], [], [], [];
    var left := deltas.Keys;
    while left != {}
      invariant left <= deltas.Keys
      invariant |users| == |assets| == |availDeltas| == |lockDeltas|
      invariant ListsDeltas(deltas, Updates(users, assets, availDeltas, lockDeltas), left)
      decreases |left|
    {
      var user :| user in left;
      left := left - {user};
      var rest := deltas[user].Keys;
      assert Listing(deltas, Updates(users, assets, availDeltas, lockDeltas), left, user, rest);
      while rest != {}
        invariant rest <= deltas[user].Keys
        invariant |users| == |assets| == |availDeltas| == |lockDeltas|
        invariant Listing(deltas, Updates(users, assets, availDeltas, lockDeltas), left, user, rest)
        decreases |rest|
      {
        hide Listing, ListsDeltas;
        var asset :| asset in rest;
        var delta := deltas[user][asset];
        ghost var before := Updates(users, assets, availDeltas, lockDeltas);
        users, assets := users + [user], assets + [asset];
        availDeltas, lockDeltas := availDeltas + [delta.available], lockDeltas + [delta.locked];
        ghost var more := Updates(users, assets, availDeltas, lockDeltas);
        assert more == before + [Update(Account(user, asset), delta)];
        ListStep(deltas, before, left, user, rest, asset, more);
        rest := rest - {asset};
      }
    }
  }

  /**
   Settles the trades in the balances table with one batch: the rows end as settling the trades
   one at a time leaves them, or the batch fails because one of those rows breaks a constraint.
   */
  method PersistTradeSettlements(db: Queries, trades: seq<Trade>, taker: Side) returns (ok: bool)
    requires db.Valid()
    modifies db`balances
    ensures db.Valid()
    ensures ok <==> Store(TransferAll(old(db.balances), taker, trades)).Some?
    ensures ok ==> db.balances == TransferAll(old(db.balances), taker, trades)
  {
    hide Has, DeltaFor, Touched, DeltaOf, TransferAll, EnsureRows, BatchOutcome;
    var deltas := CollectDeltas(trades, taker);
    var users, assets, availDeltas, lockDeltas := ListDeltas(deltas);
    ghost var updates := Updates(users, assets, availDeltas, lockDeltas);
    ghost var rows := db.balances;
    assert Summarises(updates, trades, taker);
    db.EnsureBalancesExist(users, assets);
    ok := db.BatchUpdateBalances(users, assets, availDeltas, lockDeltas);
    forall after ensures BatchOutcome(EnsureRows(rows, Keys(updates)), updates, after)
        <==> after == TransferAll(rows, taker, trades) {
      BatchSettles(rows, updates, trades, taker, after);
    }
  }

  // ---------- Trade rows ----------

  lemma InsertNone(trades: seq<TradeRow>, orders: set<Uuid>, rows: seq<TradeRow>)
    requires rows == []
    ensures InsertTrades(trades, orders, rows) == Some(trades)
  {}

  /** Fills seven parallel arrays, one position per trade; read across, they spell the trades' rows. */
  method FillColumns(trades: seq<Trade>, taker: Side)
    returns (ids: array<Uuid>, buyers: array<Uuid>, sellers: array<Uuid>, takers: array<Uuid>, makers: array<Uuid>,
             prices: array<int>, quantities: array<int>)
    ensures ids.Length == buyers.Length == sellers.Length == takers.Length == makers.Length == |trades|
    ensures prices.Length == quantities.Length == |trades|
    ensures Unnest(ids[..], buyers[..], sellers[..], takers[..], makers[..], prices[..], quantities[..])
        == RowsOf(trades, taker)
  {
    var n := |trades|;
    ids, buyers, sellers := new Uuid[n], new Uuid[n], new Uuid[n];
    takers, makers := new Uuid[n], new Uuid[n];
    prices, quantities := new int[n], new int[n];
    for i := 0 to n
      invariant forall j | 0 <= j < i ::
                  TradeRow(ids[j], buyers[j], sellers[j], takers[j], makers[j], prices[j], quantities[j])
                      == RowOf(trades[j], taker)
    {
      var t := trades[i];
      ids[i] := t.id;
      takers[i] := t.takerUser;
      makers[i] := t.makerUser;
      prices[i] := t.price;
      quantities[i] := t.quantity;
      if taker == Buy {
        buyers[i] := t.takerOrder;
        sellers[i] := t.makerOrder;
      } else {
        buyers[i] := t.makerOrder;
        sellers[i] := t.takerOrder;
      }
    }
    ghost var rows := Unnest(ids[..], buyers[..], sellers[..], takers[..], makers[..], prices[..], quantities[..]);
    assert forall j | 0 <= j < n :: rows[j] == RowOf(trades[j], taker);
  }

  /** Inserts one row per trade. */
  method CreateBatch(db: Queries, trades: seq<Trade>, taker: Side) returns (ok: bool)
    modifies db`trades
    ensures match InsertTrades(old(db.trades), db.orders, RowsOf(trades, taker))
            case None => !ok && db.trades == old(db.trades)
            case Some(after) => ok && db.trades == after
  {
    hide InsertTrades, RowsOf, Unnest;
    if |trades| == 0 {
      InsertNone(db.trades, db.orders, RowsOf(trades, taker));
      return true;
    }
    var ids, buyers, sellers, takers, makers, prices, quantities := FillColumns(trades, taker);
    ok := db.CreateTradesBatch(ids[..], buyers[..], sellers[..], takers[..], makers[..], prices[..], quantities[..]);
  }
}
