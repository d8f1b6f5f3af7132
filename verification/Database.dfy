/** The database: tables updated in place by the queries. A failed query leaves them as they were. */
module Database {
  import opened Domain
  import opened Funds
  import opened Rows

  class Queries {
    var balances: Balances
    var orders: set<Uuid>
    var trades: seq<TradeRow>

    /** Every stored row meets its constraints. */
    ghost predicate Valid()
      reads this
    {
      AllStorable(balances)
    }

    function Value(): Tables
      reads this
    {
      Tables(balances, orders, trades)
    }

    constructor ()
      ensures Valid() && Value() == Tables(map[], {}, [])
    {
      balances, orders, trades := map[], {}, [];
    }

    /** Puts one changed row, unless it breaks a constraint. */
    method Put(k: Account, available: int, locked: int) returns (ok: bool)
      requires Valid()
      modifies this`balances
      ensures Valid()
      ensures match Store(Credit(old(balances), k, available, locked))
              case None => !ok && balances == old(balances)
              case Some(after) => ok && balances == after
    {
      var next := Credit(balances, k, available, locked);
      ok := Storable(next[k]);
      assert ok ==> AllStorable(next);
      if ok {
        balances := next;
      }
    }

    method UpdateBalanceLock(user: Uuid, asset: Asset, amount: int) returns (ok: bool)
      requires Valid()
      modifies this`balances
      ensures Valid()
      ensures match LockRow(old(balances), Account(user, asset), amount)
              case None => !ok && balances == old(balances)
              case Some(after) => ok && balances == after
    {
      var k := Account(user, asset);
      if k !in balances || balances[k].available < amount {
        return false;
      }
      ok := Put(k, -amount, amount);
    }

    method UpdateBalanceUnlock(user: Uuid, asset: Asset, amount: int) returns (ok: bool)
      requires Valid()
      modifies this`balances
      ensures Valid()
      ensures match UnlockRow(old(balances), Account(user, asset), amount)
              case None => !ok && balances == old(balances)
              case Some(after) => ok && balances == after
    {
      var k := Account(user, asset);
      if k !in balances || balances[k].locked < amount {
        return false;
      }
      ok := Put(k, amount, -amount);
    }

    method UpsertBalance(user: Uuid, asset: Asset, amount: int) returns (ok: bool)
      requires Valid()
      modifies this`balances
      ensures Valid()
      ensures match UpsertRow(old(balances), Account(user, asset), amount)
              case None => !ok && balances == old(balances)
              case Some(after) => ok && balances == after
    {
      if !Storable(Balance(amount, 0)) {
        return false;
      }
      ok := Put(Account(user, asset), amount, 0);
    }

    method EnsureBalancesExist(users: seq<Uuid>, assets: seq<Asset>)
      requires Valid() && |users| == |assets|
      modifies this`balances
      ensures Valid() && balances == EnsureRows(old(balances), Accounts(users, assets))
    {
      var keys := Accounts(users, assets);
      for i := 0 to |keys|
        invariant forall k :: k in balances <==> k in old(balances) || k in keys[..i]
        invariant forall k | k in balances :: balances[k] == Get(old(balances), k)
      {
        if keys[i] !in balances {
          balances := balances[keys[i] := Balance(0, 0)];
        }
      }
      assert keys[..|keys|] == keys;
    }

    /** Fails exactly when an outcome of the batch breaks a constraint. */
    method BatchUpdateBalances(users: seq<Uuid>, assets: seq<Asset>, availDeltas: seq<int>, lockDeltas: seq<int>)
      returns (ok: bool)
      requires Valid() && |users| == |assets| == |availDeltas| == |lockDeltas|
      modifies this`balances
      ensures Valid()
      ensures exists after ::
                && BatchOutcome(old(balances), Updates(users, assets, availDeltas, lockDeltas), after)
                && ok == AllStorable(after) && balances == if ok then after else old(balances)
    {
      hide Plus, AllStorable;
      var updates := Updates(users, assets, availDeltas, lockDeltas);
      var next, done := balances, {};
      for i := 0 to |updates|
        invariant done == set j | 0 <= j < i :: updates[j].key
        invariant next.Keys == balances.Keys
        invariant forall k | k in balances && k !in done :: next[k] == balances[k]
        invariant forall k | k in balances && k in done ::
                    exists j :: 0 <= j < |updates| && updates[j].key == k
                        && next[k] == Plus(balances[k], updates[j].change)
      {
        var u := updates[i];
        if u.key in next && u.key !in done {
          next := next[u.key := Plus(next[u.key], u.change)];
        }
        done := done + {u.key};
      }
      assert BatchOutcome(balances, updates, next);
      ok := AllStorable(next);
      if ok {
        balances := next;
      }
    }

    /** The rows, each built from one element of each of the seven lists, in order. */
    method CreateTradesBatch(ids: seq<Uuid>, buyerOrders: seq<Uuid>, sellerOrders: seq<Uuid>,
                             takerUsers: seq<Uuid>, makerUsers: seq<Uuid>, prices: seq<int>, quantities: seq<int>)
      returns (ok: bool)
      requires |ids| == |buyerOrders| == |sellerOrders| == |takerUsers| == |makerUsers| == |prices| == |quantities|
      modifies this`trades
      ensures match InsertTrades(old(trades), orders,
          Unnest(ids, buyerOrders, sellerOrders, takerUsers, makerUsers, prices, quantities))
              case None => !ok && trades == old(trades)
              case Some(after) => ok && trades == after
    {
      var rows := Unnest(ids, buyerOrders, sellerOrders, takerUsers, makerUsers, prices, quantities);
      var next := trades;
      for i := 0 to |rows|
        invariant InsertTrades(old(trades), orders, rows) == InsertTrades(next, orders, rows[i..])
      {
        var row := rows[i];
        if exists j :: 0 <= j < |next| && next[j].id == row.id {
        } else if (exists j :: 0 <= j < |next| && SameKey(next[j], row))
                  || row.buyerOrder !in orders || row.sellerOrder !in orders {
          return false;
        } else {
          next := next + [row];
        }
      }
      trades := next;
      return true;
    }
  }


  function Accounts(users: seq<Uuid>, assets: seq<Asset>): (keys: seq<Account>)
    requires |users| == |assets|
    ensures |keys| == |users|
  {
    seq(|users|, i requires 0 <= i < |users| => Account(users[i], assets[i]))
  }

  function Updates(users: seq<Uuid>, assets: seq<Asset>, availDeltas: seq<int>, lockDeltas: seq<int>)
    : (updates: seq<Update>)
    requires |users| == |assets| == |availDeltas| == |lockDeltas|
    ensures |updates| == |users| && Keys(updates) == Accounts(users, assets)
  {
    seq(|users|, i requires 0 <= i < |users| =>
      Update(Account(users[i], assets[i]), Balance(availDeltas[i], lockDeltas[i])))
  }

  function Unnest(ids: seq<Uuid>, buyerOrders: seq<Uuid>, sellerOrders: seq<Uuid>,
                  takerUsers: seq<Uuid>, makerUsers: seq<Uuid>, prices: seq<int>, quantities: seq<int>)
    : (rows: seq<TradeRow>)
    requires |ids| == |buyerOrders| == |sellerOrders| == |takerUsers| == |makerUsers| == |prices| == |quantities|
    ensures |rows| == |ids|
  {
    seq(|ids|, i requires 0 <= i < |ids| =>
      TradeRow(ids[i], buyerOrders[i], sellerOrders[i], takerUsers[i], makerUsers[i], prices[i], quantities[i]))
  }
}
