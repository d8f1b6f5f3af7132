/** The exact conditions on what the worker is sent: each holds just when the guarantee it buys does. */
module Exactness {
  import opened Domain
  import opened Matching
  import opened Measures
  import opened MatchingLaws
  import opened BookLaws
  import opened Funds
  import opened Engine
  import opened Safety

  // ---------- Buy amounts that fit ----------

  /** Half of an amount that wraps: a size whose own amount fits, and twice that exceeds what the whole locks. */
  predicate Exposes(price: int, quantity: int, q: int) {
    0 < q && 2 * q <= quantity && QuoteAmount(price, q) >= 0 && 2 * QuoteAmount(price, q) > QuoteAmount(price, quantity)
  }

  lemma CeilBounds(x: int, p: int) returns (q: int)
    requires x > 0 && p > 0
    ensures q > 0 && x <= p * q < x + p
  {
    q := (x + p - 1) / p;
    assert x + p - 1 == p * q + (x + p - 1) % p;
    assert q <= 0 ==> p * q <= 0;
  }

  lemma WrapsPositive(t: int)
    requires t > MAX_INT64 && WrapInt64(t) >= 0
    ensures t >= WrapInt64(t) + 2 * (MAX_INT64 + 1) && WrapInt64(t) <= MAX_INT64
  {
    var m := MAX_INT64 + 1;
    var j := (t + m) / (2 * m);
    assert t + m == 2 * m * j + (t + m) % (2 * m);
    assert j >= 1;
  }

  lemma FloorBounds(x: int, d: int)
    requires x >= 0 && d > 0
    ensures d * (x / d) <= x < d * (x / d) + d && x / d >= 0
  {}

  lemma Smaller(p: int, a: int, b: int)
    requires p > 0 && b >= 0 && p * a < p * b
    ensures a < b
  {
    if a >= b {
      MulMonotone(p, b, p, a);
    }
  }

  lemma UnfitExposed(price: int, quantity: int) returns (q: int)
    requires 0 < price <= MAX_INT64 && 0 < quantity <= MAX_INT32 && !QuoteFits(price, quantity)
    ensures Exposes(price, quantity, q)
  {
    hide WrapInt64;
    var t := price * quantity / DECIMALS;
    var l := QuoteAmount(price, quantity);
    assert price * quantity > 0;
    assert t > MAX_INT64 && l == WrapInt64(t);
    FloorBounds(price * quantity, DECIMALS);
    if l < 0 {
      q := 1;
      QuoteExactIffFits(price, 1);
      assert quantity == 1 ==> price * quantity == price;
    } else {
      WrapsPositive(t);
      var x := (l / 2 + 1) * DECIMALS;
      q := CeilBounds(x, price);
      FloorBounds(price * q, DECIMALS);
      QuoteExactIffFits(price, q);
      assert 2 * (price * q) == price * (2 * q);
      Smaller(price, 2 * q, quantity);
    }
  }

  /** The run that exposes a buy: the buyer can lock what the code asks for, and two sells of size `q` rest. */
  function Trap(price: int, quantity: int, q: int): seq<Event> {
    var l := QuoteAmount(price, quantity);
    [DepositCreated(2, BTC, 2 * q), DepositCreated(1, USD, if l < 0 then 0 else l),
     OrderPlaced(1, 2, price, q, Sell), OrderPlaced(2, 2, price, q, Sell)]
  }

  function TrapState(price: int, quantity: int, q: int): State {
    var l := QuoteAmount(price, quantity);
    State(BookValue([], [Level(price, [Entry(1, 2, price, q, q, Sell), Entry(2, 2, price, q, q, Sell)])]),
          map[Account(2, BTC) := Balance(0, 2 * q), Account(1, USD) := Balance(if l < 0 then 0 else l, 0)], 0)
  }

  /** Two sells of one user at one price come to rest in turn. */
  lemma TrapRests(price: int, q: int)
    requires q > 0
    ensures var first, second := Entry(1, 2, price, q, q, Sell), Entry(2, 2, price, q, q, Sell);
            && PlaceOrder(EMPTY_BOOK, first, 0) == PlaceResult(BookValue([], [Level(price, [first])]), [], Placed)
            && PlaceOrder(BookValue([], [Level(price, [first])]), second, 0)
               == PlaceResult(BookValue([], [Level(price, [first, second])]), [], Placed)
  {
    var first, second := Entry(1, 2, price, q, q, Sell), Entry(2, 2, price, q, q, Sell);
    assert [Level(price, [first])][1..] == [] && [first] + [second] == [first, second];
    assert Add([], first) == [Level(price, [first])];
    assert Add([Level(price, [first])], second) == [Level(price, [first, second])];
  }

  lemma {:induction false} TrapOpens(q: int, usd: int)
    requires 0 <= 2 * q <= MAX_INT64 && 0 <= usd <= MAX_INT64
    ensures Handle(Handle(INITIAL, DepositCreated(2, BTC, 2 * q)).state, DepositCreated(1, USD, usd)).state
         == State(EMPTY_BOOK, map[Account(2, BTC) := Balance(2 * q, 0), Account(1, USD) := Balance(usd, 0)], 0)
  {
    hide HandlePlaced, HandleCancel, WrapInt64;
    CreditSame(map[], Account(2, BTC), 2 * q, 0);
    CreditSame(map[Account(2, BTC) := Balance(2 * q, 0)], Account(1, USD), usd, 0);
  }

  lemma {:induction false} TrapLocks(q: int, had: int, usd: int)
    requires 0 < q <= had <= 2 * q <= MAX_INT64
    ensures var b := map[Account(2, BTC) := Balance(had, 2 * q - had), Account(1, USD) := Balance(usd, 0)];
            LockFunds(b, Account(2, BTC), q)
                == Some(map[Account(2, BTC) := Balance(had - q, 3 * q - had), Account(1, USD) := Balance(usd, 0)])
  {
    var b := map[Account(2, BTC) := Balance(had, 2 * q - had), Account(1, USD) := Balance(usd, 0)];
    hide WrapInt64;
    CreditSame(b, Account(2, BTC), -q, q);
    assert Credit(b, Account(2, BTC), -q, q)
        == map[Account(2, BTC) := Balance(had - q, 3 * q - had), Account(1, USD) := Balance(usd, 0)];
  }

  lemma {:induction false} TrapRuns(price: int, quantity: int, q: int)
    requires 0 < 2 * q <= MAX_INT64
    ensures Run(INITIAL, Trap(price, quantity, q)) == TrapState(price, quantity, q)
  {
    hide QuoteAmount, Run, PlaceOrder, Handle, LockFunds;
    var events := Trap(price, quantity, q);
    var l := QuoteAmount(price, quantity);
    var usd := if l < 0 then 0 else l;
    var first := Entry(1, 2, price, q, q, Sell);
    RunEmpty(INITIAL);
    RunSnoc(INITIAL, [], events[0]);
    RunSnoc(INITIAL, [events[0]], events[1]);
    RunSnoc(INITIAL, [events[0], events[1]], events[2]);
    RunSnoc(INITIAL, [events[0], events[1], events[2]], events[3]);
    assert [] + [events[0]] == [events[0]] && [events[0]] + [events[1]] == [events[0], events[1]]
        && [events[0], events[1]] + [events[2]] == [events[0], events[1], events[2]]
        && [events[0], events[1], events[2]] + [events[3]] == events;
    TrapRests(price, q);
    AmountInRange(price, quantity);
    TrapOpens(q, usd);
    var s2 := State(EMPTY_BOOK, map[Account(2, BTC) := Balance(2 * q, 0), Account(1, USD) := Balance(usd, 0)], 0);
    TrapLocks(q, 2 * q, usd);
    var s3 := State(BookValue([], [Level(price, [first])]),
                    map[Account(2, BTC) := Balance(q, q), Account(1, USD) := Balance(usd, 0)], 0);
    RestStep(s2, events[2], s3.balances, s3.book);
    TrapLocks(q, q, usd);
    RestStep(s3, events[3], TrapState(price, quantity, q).balances, TrapState(price, quantity, q).book);
  }

  lemma TrapTrades(price: int, quantity: int, q: int)
    requires 0 < q && 2 * q <= quantity
    ensures PlaceOrder(TrapState(price, quantity, q).book, Entry(3, 1, price, quantity, quantity, Buy), 0).trades
         == [Trade(0, price, q, 3, 1, 1, 2), Trade(1, price, q, 3, 2, 1, 2)]
  {
    hide QuoteAmount;
    var first, second := Entry(1, 2, price, q, q, Sell), Entry(2, 2, price, q, q, Sell);
    var taker := Entry(3, 1, price, quantity, quantity, Buy);
    var t, t' := Trade(0, price, q, 3, 1, 1, 2), Trade(1, price, q, 3, 2, 1, 2);
    var taker' := Reduce(taker, q);
    var taker'' := Reduce(taker', q);
    assert [first, second][1..] == [second] && [second][1..] == [];
    assert Sweep([], price, taker'', 2) == Swept([], [], taker'');
    assert Sweep([second], price, taker', 1) == Swept([], [t'], taker'');
    assert Sweep([first, second], price, taker, 0) == Swept([], [t, t'], taker'');
    var ladder := [Level(price, [first, second])];
    assert ladder[1..] == [];
    MatchUnfold(ladder, taker, 0);
    assert Match([], taker'', 2) == Matched([], [], taker'');
  }

  lemma {:induction false} TrapLocked(b: Balances, k: Account, l: int)
    requires k in b && b[k] == Balance(if l < 0 then 0 else l, 0) && InInt64(l)
    ensures LockFunds(b, k, l) == Some(Credit64(b, k, -l, l))
    ensures Get(Credit64(b, k, -l, l), k).locked == l
  {
    hide WrapInt64;
    WrapIffOut(l);
  }

  lemma {:induction false} TrapSettles(locked: Balances, l: int, price: int, q: int)
    requires Get(locked, Account(1, USD)).locked == l && InInt64(l)
    requires QuoteAmount(price, q) >= 0 && 2 * QuoteAmount(price, q) > l
    ensures !SettleAll(locked, Buy, [Trade(0, price, q, 3, 1, 1, 2), Trade(1, price, q, 3, 2, 1, 2)]).ok
  {
    hide QuoteAmount, WrapInt64, Settle;
    var t, t' := Trade(0, price, q, 3, 1, 1, 2), Trade(1, price, q, 3, 2, 1, 2);
    assert [t, t'][1..] == [t'];
    if CanSettle(locked, 1, 2, price, q) {
      var after := Settle(locked, 1, 2, price, q);
      SettleFields(locked, 1, 2, price, q);
      WrapIffOut(l - QuoteAmount(price, q));
      assert !CanSettle(after, 1, 2, price, q);
      assert SettleAll(after, Buy, [t']) == Settlement(after, false);
    }
  }

  lemma {:induction false} TrapPanics(price: int, quantity: int, q: int)
    requires Exposes(price, quantity, q)
    ensures Handle(TrapState(price, quantity, q), OrderPlaced(3, 1, price, quantity, Buy)).outcome == SettlementPanic
  {
    hide QuoteAmount, PlaceOrder, LockFunds, SettleAll, Credit64;
    var s, l := TrapState(price, quantity, q), QuoteAmount(price, quantity);
    TrapTrades(price, quantity, q);
    AmountInRange(price, quantity);
    TrapLocked(s.balances, Account(1, USD), l);
    TrapSettles(Credit64(s.balances, Account(1, USD), -l, l), l, price, q);
  }

  lemma AmountInRange(price: int, quantity: int)
    ensures InInt64(QuoteAmount(price, quantity))
  {}

  /** No run of admissible events whose deposits fit 64 bits can make this buy panic in settlement. */
  ghost predicate NeverPanics(price: int, quantity: int) {
    forall events, id, user | AllAdmissible(events) && DepositsFit(events) ::
      Handle(Run(INITIAL, events), OrderPlaced(id, user, price, quantity, Buy)).outcome != SettlementPanic
  }

  lemma TrapFits(price: int, quantity: int, q: int)
    requires price > 0 && 0 < 2 * q <= MAX_INT32
    ensures AllAdmissible(Trap(price, quantity, q)) && DepositsFit(Trap(price, quantity, q))
  {
    hide QuoteAmount, AllDeposited;
    AmountInRange(price, quantity);
    var events := Trap(price, quantity, q);
    DepositedFour(events[0], events[1], events[2], events[3], BTC);
    DepositedFour(events[0], events[1], events[2], events[3], USD);
    assert events == [events[0], events[1], events[2], events[3]];
  }

  lemma DepositedFour(a: Event, b: Event, c: Event, d: Event, asset: Asset)
    ensures AllDeposited([a, b, c, d], asset)
         == Deposited(a, asset) + Deposited(b, asset) + Deposited(c, asset) + Deposited(d, asset)
  {
    hide Deposited;
    assert AllDeposited([], asset) == 0;
    DepositedSnoc([], a, asset);
    DepositedSnoc([a], b, asset);
    DepositedSnoc([a, b], c, asset);
    DepositedSnoc([a, b, c], d, asset);
    assert [] + [a] == [a] && [a] + [b] == [a, b] && [a, b] + [c] == [a, b, c] && [a, b, c] + [d] == [a, b, c, d];
  }

  /**
   Among the prices and quantities the request handler accepts, a buy can be made to panic in
   settlement exactly when its amount does not fit 64 bits.
   */
  lemma FitsIffNeverPanics(price: int, quantity: int)
    requires 0 < price <= MAX_INT64 && 0 < quantity <= MAX_INT32
    ensures QuoteFits(price, quantity) <==> NeverPanics(price, quantity)
  {
    hide Handle, Run, QuoteAmount;
    if QuoteFits(price, quantity) {
      forall events, id, user | AllAdmissible(events) && DepositsFit(events)
        ensures Handle(Run(INITIAL, events), OrderPlaced(id, user, price, quantity, Buy)).outcome != SettlementPanic
      {
        var e := OrderPlaced(id, user, price, quantity, Buy);
        assert (events + [e])[..|events|] == events;
        assert DepositsFit(events + [e]);
        NeverInconsistent(events + [e], |events|);
      }
    } else {
      var q := UnfitExposed(price, quantity);
      TrapRuns(price, quantity, q);
      TrapPanics(price, quantity, q);
      TrapFits(price, quantity, q);
    }
  }

  // ---------- Fresh ids ----------

  /** Whatever admissible order is placed under an id, the ids on the book stay unique. */
  ghost predicate KeepsUnique(book: BookValue, id: Uuid, nextId: nat) {
    forall user, price, quantity, side | Admissible(OrderPlaced(id, user, price, quantity, side)) ::
      UniqueIds(PlaceOrder(book, Entry(id, user, price, quantity, quantity, side), nextId).book)
  }

  /** A sell of one unit priced above every bid: it rests without trading. */
  function HighSell(book: BookValue, id: Uuid): Entry {
    Entry(id, 0, if book.bids == [] || book.bids[0].price < 0 then 1 else book.bids[0].price + 1, 1, 1, Sell)
  }

  lemma HighSellRests(book: BookValue, id: Uuid, nextId: nat)
    ensures Count(PlaceOrder(book, HighSell(book, id), nextId).book, id) == Count(book, id) + 1
  {
    hide Match, LadderSum, Add;
    var taker := HighSell(book, id);
    MatchUnfold(book.bids, taker, nextId);
    AddSum(CountOf(id), book.asks, taker);
  }

  /**
   Placing does not check for a repeated id. The ids on a book stay unique under every admissible
   order placed with an id exactly when no order of that id is on the book.
   */
  lemma FreshIffKeepsUnique(book: BookValue, id: Uuid, nextId: nat)
    requires BookOk(book) && UniqueIds(book)
    ensures book.FindOrder(id) == None <==> KeepsUnique(book, id, nextId)
  {
    hide LadderSum, PlaceOrder, Match, BookValue.FindOrder, QuoteFits;
    FindOrderCount(book, id);
    if Count(book, id) == 0 {
      forall user, price, quantity, side | Admissible(OrderPlaced(id, user, price, quantity, side))
        ensures UniqueIds(PlaceOrder(book, Entry(id, user, price, quantity, quantity, side), nextId).book)
      {
        PlaceUnique(book, Entry(id, user, price, quantity, quantity, side), nextId);
      }
    } else {
      var e := HighSell(book, id);
      HighSellRests(book, id, nextId);
      assert Admissible(OrderPlaced(id, e.user, e.price, e.quantity, e.side));
      assert Count(PlaceOrder(book, Entry(id, e.user, e.price, e.quantity, e.quantity, e.side), nextId).book, id) >= 2;
    }
  }

  lemma PlaceUnique(book: BookValue, e: Entry, nextId: nat)
    requires BookOk(book) && UniqueIds(book) && Count(book, e.id) == 0 && e.remaining > 0
    ensures UniqueIds(PlaceOrder(book, e, nextId).book)
  {
    hide LadderSum, PlaceOrder;
    forall x ensures 0 <= Count(PlaceOrder(book, e, nextId).book, x) <= 1 {
      PlaceCount(book, e, nextId, x);
      FindOrderCount(book, x);
    }
  }

  // ---------- Deposits ----------

  /** A deposit to an account in range leaves it in range exactly if the sum fits, whatever its sign. */
  lemma {:induction false} DepositIff(b: Balances, k: Account, amount: int)
    requires 0 <= Get(b, k).available <= MAX_INT64 && 0 <= Get(b, k).locked <= MAX_INT64 && InInt64(amount)
    ensures var c := Get(Deposit(b, k, amount), k);
            c.available >= 0 && c.locked >= 0 <==> 0 <= Get(b, k).available + amount <= MAX_INT64
  {}
}
