/** No run of admissible events ever finds too little locked: settlement and unlocking cannot fail. */
module Solvency {
  import opened Domain
  import opened Matching
  import opened Measures
  import opened MatchingLaws
  import opened BookLaws
  import opened Funds
  import opened Engine
  import opened Claims

  function Locked(b: Balances, user: Uuid, asset: Asset): int {
    Get(b, Account(user, asset)).locked
  }

  // ---------- Settling covered trades ----------

  /** Every trade has a positive quantity and a non-negative amount, and both parties' accounts exist. */
  predicate Settleable(b: Balances, taker: Side, trades: seq<Trade>) {
    forall k | 0 <= k < |trades| ::
      && trades[k].quantity > 0 && QuoteAmount(trades[k].price, trades[k].quantity) >= 0
      && Account(Buyer(trades[k], taker), USD) in b && Account(Seller(trades[k], taker), BTC) in b
  }

  ghost predicate Covered(b: Balances, taker: Side, trades: seq<Trade>) {
    forall u :: Locked(b, u, USD) >= OwedUSD(u, taker, trades) && Locked(b, u, BTC) >= OwedBTC(u, taker, trades)
  }

  lemma {:induction false} OwedNonNegative(b: Balances, user: Uuid, taker: Side, trades: seq<Trade>)
    requires Settleable(b, taker, trades)
    ensures OwedUSD(user, taker, trades) >= 0 && OwedBTC(user, taker, trades) >= 0
  {
    hide QuoteAmount;
    if trades != [] {
      OwedNonNegative(b, user, taker, trades[1..]);
    }
  }

  lemma {:induction false} TransferLocked(b: Balances, buyer: Uuid, seller: Uuid, price: int, size: int, u: Uuid)
    ensures var c := Transfer(b, buyer, seller, price, size);
            && Locked(c, u, USD) == Locked(b, u, USD) - (if u == buyer then QuoteAmount(price, size) else 0)
            && Locked(c, u, BTC) == Locked(b, u, BTC) - (if u == seller then size else 0)
            && (forall k | k in b :: k in c)
  {
    hide QuoteAmount;
  }

  /** No traded account is negative, and what is held of the traded assets fits 64 bits. */
  ghost predicate Sane(b: Balances) {
    NonNegative(b) && TotalsFit(b)
  }

  /** The first of covered trades settles, with nothing overflowing, and leaves the others covered. */
  lemma {:induction false} FirstSettles(b: Balances, taker: Side, trades: seq<Trade>)
    requires Settleable(b, taker, trades) && Covered(b, taker, trades) && Sane(b) && trades != []
    ensures var t := trades[0];
            var c := Transfer(b, Buyer(t, taker), Seller(t, taker), t.price, t.quantity);
            && SettleTrade(b, Buyer(t, taker), Seller(t, taker), t.price, t.quantity) == Some(c)
            && Settleable(c, taker, trades[1..]) && Covered(c, taker, trades[1..]) && Sane(c)
            && (forall k | k in b :: k in c)
  {
    hide QuoteAmount, Transfer, Settle, NonNegative, TotalsFit;
    var t, rest := trades[0], trades[1..];
    var buyer, seller := Buyer(t, taker), Seller(t, taker);
    var c := Transfer(b, buyer, seller, t.price, t.quantity);
    assert CanSettle(b, buyer, seller, t.price, t.quantity) by {
      OwedNonNegative(b, buyer, taker, rest);
      OwedNonNegative(b, seller, taker, rest);
      assert Locked(b, buyer, USD) >= OwedUSD(buyer, taker, trades);
      assert Locked(b, seller, BTC) >= OwedBTC(seller, taker, trades);
    }
    SettleSame(b, buyer, seller, t.price, t.quantity);
    TransferLocked(b, buyer, seller, t.price, t.quantity, buyer);
    forall u ensures Locked(c, u, USD) >= OwedUSD(u, taker, rest) && Locked(c, u, BTC) >= OwedBTC(u, taker, rest) {
      TransferLocked(b, buyer, seller, t.price, t.quantity, u);
      assert Locked(b, u, USD) >= OwedUSD(u, taker, trades);
    }
  }

  /**
   Trades that are covered all settle, as on unbounded integers, and take exactly what they owe out of
   the locked funds.
   */
  lemma {:induction false} CoveredSettles(b: Balances, taker: Side, trades: seq<Trade>)
    requires Settleable(b, taker, trades) && Covered(b, taker, trades) && Sane(b)
    ensures var s := SettleAll(b, taker, trades);
            && s.ok && s.balances == TransferAll(b, taker, trades)
            && Sane(s.balances) && (forall k | k in b :: k in s.balances)
            && (forall u :: Locked(s.balances, u, USD) == Locked(b, u, USD) - OwedUSD(u, taker, trades))
            && (forall u :: Locked(s.balances, u, BTC) == Locked(b, u, BTC) - OwedBTC(u, taker, trades))
    decreases |trades|
  {
    hide QuoteAmount, Transfer, Settle, Settleable, Covered, Locked, Sane;
    if trades != [] {
      var t, rest := trades[0], trades[1..];
      var c := Transfer(b, Buyer(t, taker), Seller(t, taker), t.price, t.quantity);
      FirstSettles(b, taker, trades);
      CoveredSettles(c, taker, rest);
      forall u
        ensures Locked(c, u, USD)
            == Locked(b, u, USD) - (if u == Buyer(t, taker) then QuoteAmount(t.price, t.quantity) else 0)
        ensures Locked(c, u, BTC) == Locked(b, u, BTC) - (if u == Seller(t, taker) then t.quantity else 0)
      {
        TransferLocked(b, Buyer(t, taker), Seller(t, taker), t.price, t.quantity, u);
      }
    }
  }

  /** The transfers of trades conserve each asset, and leave the accounts of others alone. */
  lemma {:induction false} TransferAllConserves(b: Balances, taker: Side, trades: seq<Trade>, a: Asset)
    ensures Total(TransferAll(b, taker, trades), a) == Total(b, a)
    decreases |trades|
  {
    hide Total, QuoteAmount, Transfer;
    if trades != [] {
      var t := trades[0];
      var c := Transfer(b, Buyer(t, taker), Seller(t, taker), t.price, t.quantity);
      TransferConserves(b, Buyer(t, taker), Seller(t, taker), t.price, t.quantity, a);
      TransferAllConserves(c, taker, trades[1..], a);
    }
  }

  // ---------- Resting orders are sound ----------

  /** A resting order of one of `users`: its price is positive and a buy's amount fits 64 bits. */
  predicate Sound(e: Entry, users: set<Uuid>) {
    e.price > 0 && e.user in users && (e.side.Buy? ==> QuoteFits(e.price, e.remaining))
  }

  predicate QueueSound(queue: seq<Entry>, users: set<Uuid>) {
    forall j | 0 <= j < |queue| :: Sound(queue[j], users)
  }

  predicate LadderSound(ladder: Ladder, users: set<Uuid>) {
    forall i | 0 <= i < |ladder| :: QueueSound(ladder[i].queue, users)
  }

  /** Trades with sound makers: the amounts fit, the prices are positive, the makers are known. */
  predicate TradesSound(trades: seq<Trade>, users: set<Uuid>) {
    forall k | 0 <= k < |trades| ::
      trades[k].price > 0 && trades[k].quantity >= 0 && QuoteFits(trades[k].price, trades[k].quantity)
          && trades[k].makerUser in users
  }

  /** A buying taker's own amount fits, so the part it trades at a price within its limit does. */
  lemma FillSound(side: Side, taker: Entry, maker: Entry, price: int, id: nat, users: set<Uuid>)
    requires EntryOk(side, price, maker) && Sound(maker, users)
    requires taker.side == side.Opposite() && Reaches(taker, price)
    requires taker.remaining > 0 && (taker.side.Buy? ==> QuoteFits(taker.price, taker.remaining))
    ensures var t := Fill(taker, maker, price, id);
            && TradesSound([t], users)
            && (taker.side.Buy? ==> QuoteFits(taker.price, taker.remaining - t.quantity))
            && QueueSound(AfterFill(maker, t.quantity), users)
  {
    var q := Fill(taker, maker, price, id).quantity;
    hide QuoteFits;
    if taker.side.Buy? {
      QuoteMonotone(price, q, taker.price, taker.remaining);
      QuoteMonotone(taker.price, taker.remaining - q, taker.price, taker.remaining);
    } else {
      QuoteMonotone(price, q, price, maker.remaining);
      QuoteMonotone(price, maker.remaining - q, price, maker.remaining);
    }
  }

  lemma {:induction false} SweepSound(side: Side, queue: seq<Entry>, price: int, taker: Entry, nextId: nat,
                                      users: set<Uuid>)
    requires QueueOk(side, price, queue) && QueueSound(queue, users)
    requires taker.side == side.Opposite() && Reaches(taker, price)
    requires taker.side.Buy? && taker.remaining > 0 ==> QuoteFits(taker.price, taker.remaining)
    ensures var r := Sweep(queue, price, taker, nextId);
            QueueSound(r.queue, users) && TradesSound(r.trades, users)
            && (taker.side.Buy? && r.taker.remaining > 0 ==> QuoteFits(taker.price, r.taker.remaining))
  {
    hide QuoteFits;
    if queue == [] || taker.remaining <= 0 {
    } else if queue[0].user == taker.user {
      SweepSound(side, queue[1..], price, taker, nextId, users);
    } else {
      var t := Fill(taker, queue[0], price, nextId);
      FillSound(side, taker, queue[0], price, nextId, users);
      assert [t][0] == t;
      SweepSound(side, queue[1..], price, Reduce(taker, t.quantity), nextId + 1, users);
    }
  }

  lemma {:induction false} MatchSound(side: Side, ladder: Ladder, taker: Entry, nextId: nat, users: set<Uuid>)
    requires LadderOk(side, ladder) && LadderSound(ladder, users)
    requires taker.side == side.Opposite() && taker.remaining >= 0
    requires taker.side.Buy? && taker.remaining > 0 ==> QuoteFits(taker.price, taker.remaining)
    ensures var r := Match(ladder, taker, nextId); LadderSound(r.ladder, users) && TradesSound(r.trades, users)
    ensures var r := Match(ladder, taker, nextId);
            taker.side.Buy? && r.taker.remaining > 0 ==> QuoteFits(taker.price, r.taker.remaining)
  {
    MatchUnfold(ladder, taker, nextId);
    hide Match, Sweep, QuoteFits;
    if ladder == [] || taker.remaining <= 0 || !Reaches(taker, ladder[0].price) {
    } else {
      var s := Sweep(ladder[0].queue, ladder[0].price, taker, nextId);
      SweepSound(side, ladder[0].queue, ladder[0].price, taker, nextId, users);
      SweepTaker(side, ladder[0].queue, ladder[0].price, taker, nextId);
      if s.queue == [] {
        LadderTail(side, ladder);
        MatchSound(side, ladder[1..], s.taker, nextId + |s.trades|, users);
      }
    }
  }

  lemma {:induction false} AddSound(ladder: Ladder, e: Entry, users: set<Uuid>)
    requires LadderSound(ladder, users) && Sound(e, users)
    ensures LadderSound(Add(ladder, e), users)
  {
    hide QuoteFits;
    if ladder == [] || Better(e.side, e.price, ladder[0].price) || ladder[0].price == e.price {
    } else {
      AddSound(ladder[1..], e, users);
    }
  }

  lemma {:induction false} WithoutSound(queue: seq<Entry>, id: Uuid, users: set<Uuid>)
    requires QueueSound(queue, users)
    ensures QueueSound(Without(queue, id), users)
  {
    if queue != [] {
      WithoutSound(queue[1..], id, users);
    }
  }

  lemma {:induction false} RemoveSound(ladder: Ladder, price: int, id: Uuid, users: set<Uuid>)
    requires LadderSound(ladder, users)
    ensures LadderSound(Remove(ladder, price, id), users)
  {
    if ladder != [] {
      if ladder[0].price == price {
        WithoutSound(ladder[0].queue, id, users);
      } else {
        RemoveSound(ladder[1..], price, id, users);
      }
    }
  }

  lemma SoundMore(ladder: Ladder, users: set<Uuid>, more: set<Uuid>)
    requires LadderSound(ladder, users) && users <= more
    ensures LadderSound(ladder, more)
  {
    hide QuoteFits;
  }

  lemma SoundFits(ladder: Ladder, users: set<Uuid>)
    requires LadderOk(Buy, ladder) && LadderSound(ladder, users)
    ensures LadderFits(ladder)
  {
    hide QuoteFits;
    forall i, j | 0 <= i < |ladder| && 0 <= j < |ladder[i].queue|
      ensures QuoteFits(ladder[i].queue[j].price, ladder[i].queue[j].remaining)
    {
      assert EntryOk(Buy, ladder[i].price, ladder[i].queue[j]) && Sound(ladder[i].queue[j], users);
    }
  }
}
