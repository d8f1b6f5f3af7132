/** What resting orders claim of their owners' locked funds, and how a placement moves those claims. */
module Claims {
  import opened Domain
  import opened Matching
  import opened Measures
  import opened MatchingLaws
  import opened Engine

  /** The USD the resting buys of a user keep locked: the sum of floor(price * remaining / 1e8). */
  function ClaimUSD(book: BookValue, user: Uuid): int {
    LadderSum(QuoteOf(user), book.bids)
  }

  /** The BTC the resting sells of a user keep locked: the sum of their remainders. */
  function ClaimBTC(book: BookValue, user: Uuid): int {
    LadderSum(BaseOf(user), book.asks)
  }

  // ---------- What trades owe ----------

  /** The USD a user pays in trades still to be settled. */
  function OwedUSD(user: Uuid, taker: Side, trades: seq<Trade>): int {
    if trades == [] then 0
    else (if Buyer(trades[0], taker) == user then QuoteAmount(trades[0].price, trades[0].quantity) else 0)
         + OwedUSD(user, taker, trades[1..])
  }

  /** The BTC a user delivers in trades still to be settled. */
  function OwedBTC(user: Uuid, taker: Side, trades: seq<Trade>): int {
    if trades == [] then 0
    else (if Seller(trades[0], taker) == user then trades[0].quantity else 0) + OwedBTC(user, taker, trades[1..])
  }

  /** How many of the trades a user buys in. */
  function Bought(user: Uuid, taker: Side, trades: seq<Trade>): nat {
    if trades == [] then 0
    else (if Buyer(trades[0], taker) == user then 1 else 0) + Bought(user, taker, trades[1..])
  }

  /** What a buying taker of limit `limit` saves by trading at better prices. */
  function Improvement(user: Uuid, limit: int, taker: Side, trades: seq<Trade>): int {
    if trades == [] || taker.Sell? then 0
    else (if Buyer(trades[0], taker) == user
          then QuoteAmount(limit, trades[0].quantity) - QuoteAmount(trades[0].price, trades[0].quantity) else 0)
         + Improvement(user, limit, taker, trades[1..])
  }

  /** The quote amount of the trades at one price. */
  function CostAt(price: int, trades: seq<Trade>): int {
    if trades == [] then 0 else QuoteAmount(price, trades[0].quantity) + CostAt(price, trades[1..])
  }

  /** The trades of one placement, seen from a user: all the taker's, or what is taken of its orders. */
  lemma {:induction false} OwedOfTrades(taker: Entry, trades: seq<Trade>, nextId: nat, u: Uuid)
    requires TradesOk(taker, trades, nextId)
    ensures taker.side.Buy? ==>
        && OwedBTC(u, Buy, trades) == Taken(BaseOf(u), trades)
        && OwedUSD(u, Buy, trades) == (if u == taker.user then Cost(trades) else 0)
        && Bought(u, Buy, trades) == (if u == taker.user then |trades| else 0)
        && Improvement(u, taker.price, Buy, trades)
          == (if u == taker.user then CostAt(taker.price, trades) - Cost(trades) else 0)
    ensures taker.side.Sell? ==>
        && OwedUSD(u, Sell, trades) == Taken(QuoteOf(u), trades)
        && OwedBTC(u, Sell, trades) == (if u == taker.user then Traded(trades) else 0)
        && Bought(u, Sell, trades) == MakerTrades(u, trades)
        && Improvement(u, taker.price, Sell, trades) == 0
  {
    hide QuoteAmount, Reaches;
    if trades != [] {
      assert TradeOk(taker, trades[0]);
      OwedOfTrades(taker, trades[1..], nextId + 1, u);
    }
  }

  /** Splitting an amount over trades at one price loses at most one unit per trade. */
  lemma {:induction false} SplitOverTrades(taker: Entry, trades: seq<Trade>, nextId: nat, price: int, left: int)
    requires TradesOk(taker, trades, nextId) && left >= 0 && QuoteFits(price, left + Traded(trades))
    ensures Traded(trades) >= 0 && QuoteFits(price, left)
    ensures CostAt(price, trades) + QuoteAmount(price, left)
         <= QuoteAmount(price, left + Traded(trades))
         <= CostAt(price, trades) + QuoteAmount(price, left) + |trades|
  {
    hide QuoteAmount, Reaches, QuoteFits;
    TradedPositive(taker, trades, nextId);
    if trades != [] {
      var q, rest := trades[0].quantity, trades[1..];
      assert TradeOk(taker, trades[0]);
      TradedPositive(taker, rest, nextId + 1);
      assert left + Traded(trades) == left + Traded(rest) + q;
      QuoteSplit(price, left + Traded(rest), q);
      SplitOverTrades(taker, rest, nextId + 1, price, left);
    }
  }

  /**
   A placement moves claims exactly: in BTC, what a user's orders claimed before, with the new
   order's quantity, is what they claim after plus what the trades owe; in USD the difference is
   the price improvement plus at most one unit for each trade the user buys in.
   */
  lemma {:induction false} PlaceClaims(book: BookValue, taker: Entry, nextId: nat, u: Uuid)
    requires BookOk(book) && LadderFits(book.bids) && taker.remaining > 0
    requires taker.side.Buy? ==> QuoteFits(taker.price, taker.remaining)
    ensures var r := PlaceOrder(book, taker, nextId);
            && ClaimBTC(book, u) + (if taker.side.Sell? && u == taker.user then taker.remaining else 0)
               == ClaimBTC(r.book, u) + OwedBTC(u, taker.side, r.trades)
            && var loss := ClaimUSD(book, u)
              + (if taker.side.Buy? && u == taker.user then QuoteAmount(taker.price, taker.remaining) else 0)
                           - ClaimUSD(r.book, u) - OwedUSD(u, taker.side, r.trades);
               var gain := Improvement(u, taker.price, taker.side, r.trades);
               gain <= loss <= gain + Bought(u, taker.side, r.trades)
  {
    hide Match, QuoteAmount, LadderSum, LadderOk, Add;
    var opposite := taker.side.Opposite();
    var m := Match(book.Of(opposite), taker, nextId);
    var r := PlaceOrder(book, taker, nextId);
    MatchFacts(opposite, book.Of(opposite), taker, nextId);
    OwedOfTrades(taker, m.trades, nextId, u);
    if taker.side.Buy? {
      MatchSums(BaseOf(u), Sell, book.asks, taker, nextId);
      AddSum(QuoteOf(u), book.bids, m.taker);
      SplitOverTrades(taker, m.trades, nextId, taker.price, m.taker.remaining);
      ZeroQuote(taker.price);
    } else {
      MatchSums(QuoteOf(u), Buy, book.bids, taker, nextId);
      AddSum(BaseOf(u), book.asks, m.taker);
    }
  }

  lemma ZeroQuote(price: int)
    requires price >= 0
    ensures QuoteAmount(price, 0) == 0
  {}
}
