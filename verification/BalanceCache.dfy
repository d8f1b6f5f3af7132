/** The in-memory balance cache: per user and asset a mutable balance, reached through nested maps. */
module BalanceCache {
  import opened Domain
  import opened Funds

  class BalanceBox {
    var available: int
    var locked: int

    constructor (available: int, locked: int)
      ensures this.available == available && this.locked == locked
    {
      this.available, this.locked := available, locked;
    }

    function Val(): Balance
      reads this
    {
      Balance(available, locked)
    }
  }

  class Cache {
    var balances: map<Uuid, map<Asset, BalanceBox>>
    ghost var contents: Balances
    ghost var boxes: set<BalanceBox>

    predicate Has(k: Account)
      reads this
    {
      k.user in balances && k.asset in balances[k.user]
    }

    function Box(k: Account): BalanceBox
      requires Has(k)
      reads this
    {
      balances[k.user][k.asset]
    }

    /** Every account has a box of its own, holding the account's balance. */
    ghost predicate Valid()
      reads this, boxes
    {
      && (forall k :: Has(k) <==> k in contents)
      && (forall k | k in contents :: Has(k) && Box(k) in boxes && Box(k).Val() == contents[k])
      && (forall k, k' | k in contents && k' in contents && Has(k) && Has(k') && Box(k) == Box(k') :: k == k')
    }

    constructor ()
      ensures Valid() && contents == map[] && boxes == {}
    {
      balances, contents, boxes := map[], map[], {};
    }

    method GetBalance(user: Uuid, asset: Asset) returns (box: BalanceBox?)
      requires Valid()
      ensures box == null <==> Account(user, asset) !in contents
      ensures box != null ==> box in boxes && box.Val() == contents[Account(user, asset)]
    {
      if user !in balances {
        return null;
      }
      assert Has(Account(user, asset)) <==> asset in balances[user];
      box := if asset in balances[user] then balances[user][asset] else null;
    }

    /** Only the box of `key` is new in the maps. */
    twostate predicate Opened(new key: Account, new box: BalanceBox)
      reads this
    {
      && (forall k :: Has(k) <==> old(Has(k)) || k == key)
      && Has(key) && Box(key) == box
      && (forall k | old(Has(k)) && k != key :: Has(k) && Box(k) == old(Box(k)))
    }

    method PutBox(user: Uuid, asset: Asset, box: BalanceBox)
      modifies this`balances
      ensures Opened(Account(user, asset), box)
    {
      var inner: map<Asset, BalanceBox> := if user in balances then balances[user] else map[];
      balances := balances[user := inner[asset := box]];
    }

    twostate lemma OpenedValid(new key: Account, new box: BalanceBox)
      requires old(Valid()) && Opened(key, box) && box !in old(boxes)
      requires boxes == old(boxes) + {box} && contents == old(contents)[key := box.Val()]
      requires forall x | x in old(boxes) :: unchanged(x)
      ensures Valid()
    {
      forall k | k in contents ensures Has(k) && Box(k) in boxes && Box(k).Val() == contents[k]
          && (k != key ==> Box(k) in old(boxes)) {
        assert k != key ==> k in old(contents) && old(Has(k) && Box(k) in boxes && Box(k).Val() == contents[k]);
      }
      forall k, k' | k in contents && k' in contents && Has(k) && Has(k') && Box(k) == Box(k') ensures k == k' {
        assert k != key && k' != key ==> Box(k) == old(Box(k)) && Box(k') == old(Box(k'));
      }
    }

    /** Opens or replaces an account with a new box. */
    method InitBalance(user: Uuid, asset: Asset, available: int, locked: int)
      requires Valid()
      modifies this
      ensures Valid() && fresh(boxes - old(boxes)) && old(boxes) <= boxes
      ensures contents == old(contents)[Account(user, asset) := Balance(available, locked)]
    {
      hide Valid;
      var box := new BalanceBox(available, locked);
      contents := contents[Account(user, asset) := Balance(available, locked)];
      boxes := boxes + {box};
      PutBox(user, asset, box);
      OpenedValid(Account(user, asset), box);
    }

    /** Moves an existing account's 64-bit fields by the given amounts, in place. */
    method Adjust(k: Account, available: int, locked: int)
      requires Valid() && k in contents
      modifies boxes, this`contents
      ensures Valid() && contents == Credit64(old(contents), k, available, locked)
    {
      assert Has(k);
      var box := Box(k);
      box.available := WrapInt64(box.available + available);
      box.locked := WrapInt64(box.locked + locked);
      contents := Credit64(contents, k, available, locked);
    }

    method LockFunds(user: Uuid, asset: Asset, amount: int) returns (ok: bool)
      requires Valid()
      modifies this`contents, boxes
      ensures Valid()
      ensures match Funds.LockFunds(old(contents), Account(user, asset), amount)
              case None => !ok && contents == old(contents)
              case Some(after) => ok && contents == after
    {
      hide Valid;
      var box := GetBalance(user, asset);
      if box == null || box.available < amount {
        return false;
      }
      Adjust(Account(user, asset), -amount, amount);
      return true;
    }

    method UnlockFunds(user: Uuid, asset: Asset, amount: int) returns (ok: bool)
      requires Valid()
      modifies this`contents, boxes
      ensures Valid()
      ensures match Funds.UnlockFunds(old(contents), Account(user, asset), amount)
              case None => !ok && contents == old(contents)
              case Some(after) => ok && contents == after
    {
      hide Valid;
      var box := GetBalance(user, asset);
      if box == null || box.locked < amount {
        return false;
      }
      Adjust(Account(user, asset), amount, -amount);
      return true;
    }

    method Deposit(user: Uuid, asset: Asset, amount: int)
      requires Valid()
      modifies this, boxes
      ensures Valid() && contents == Funds.Deposit(old(contents), Account(user, asset), amount)
      ensures fresh(boxes - old(boxes)) && old(boxes) <= boxes
    {
      hide Valid;
      var box := GetBalance(user, asset);
      if box == null {
        InitBalance(user, asset, 0, 0);
      }
      Adjust(Account(user, asset), amount, 0);
    }

    /** Settles a trade, or, when either side has too little locked, changes nothing and fails. */
    method SettleTrade(buyer: Uuid, seller: Uuid, price: int, size: int) returns (ok: bool)
      requires Valid()
      modifies this, boxes
      ensures Valid() && fresh(boxes - old(boxes)) && old(boxes) <= boxes
      ensures match Funds.SettleTrade(old(contents), buyer, seller, price, size)
              case None => !ok && contents == old(contents)
              case Some(after) => ok && contents == after
    {
      hide QuoteAmount, Valid;
      var amount := QuoteAmount(price, size);
      var pays := GetBalance(buyer, USD);
      if pays == null || pays.locked < amount {
        return false;
      }
      var sells := GetBalance(seller, BTC);
      if sells == null || sells.locked < size {
        return false;
      }
      Adjust(Account(buyer, USD), 0, -amount);
      Deposit(buyer, BTC, size);
      Adjust(Account(seller, BTC), 0, -size);
      Deposit(seller, USD, amount);
      return true;
    }

    method Clear()
      modifies this
      ensures Valid() && contents == map[]
    {
      balances, contents, boxes := map[], map[], {};
    }
  }
}
