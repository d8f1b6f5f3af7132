/** The funds invariant of the worker over whole runs: memory never becomes inconsistent. */
module Safety {
  import opened Domain
  import opened Matching
  import opened Measures
  import opened MatchingLaws
  import opened BookLaws
  import opened Funds
  import opened Engine
  import opened Claims
  import opened Solvency

  function UsersOf(b: Balances, asset: Asset): set<Uuid> {
    set k | k in b && k.asset == asset :: k.user
  }

  /** A user's locked funds cover the user's resting orders: exactly in BTC, at least in USD. */
  predicate Backed(s: State, user: Uuid) {
    && Locked(s.balances, user, BTC) == ClaimBTC(s.book, user)
    && Locked(s.balances, user, USD) >= ClaimUSD(s.book, user)
  }

  ghost predicate Solvent(s: State) {
    && BookOk(s.book) && Sane(s.balances)
    && LadderSound(s.book.bids, UsersOf(s.balances, USD)) && LadderSound(s.book.asks, UsersOf(s.balances, BTC))
    && forall u :: Backed(s, u)
  }

  /** The USD a user has locked beyond what the user's resting buys claim. */
  function Surplus(s: State, user: Uuid): int {
    Locked(s.balances, user, USD) - ClaimUSD(s.book, user)
  }

  // ---------- Claims are not negative ----------

  lemma {:induction false} QueueClaim(queue: seq<Entry>, users: set<Uuid>, side: Side, price: int, u: Uuid)
    requires QueueOk(side, price, queue) && QueueSound(queue, users)
    ensures Sum(BaseOf(u), queue) >= 0
    ensures side.Buy? ==> Sum(QuoteOf(u), queue) >= 0
  {
    hide QuoteAmount, QuoteFits;
    if queue != [] {
      QueueClaim(queue[1..], users, side, price, u);
      if side.Buy? {
        QuoteExactIffFits(queue[0].price, queue[0].remaining);
        assert EntryOk(side, price, queue[0]) && Sound(queue[0], users);
        QuoteMonotone(queue[0].price, queue[0].remaining, queue[0].price, queue[0].remaining);
      }
    }
  }

  lemma {:induction false} LadderClaim(ladder: Ladder, users: set<Uuid>, side: Side, u: Uuid)
    requires LadderOk(side, ladder) && LadderSound(ladder, users)
    ensures LadderSum(BaseOf(u), ladder) >= 0
    ensures side.Buy? ==> LadderSum(QuoteOf(u), ladder) >= 0
  {
    if ladder != [] {
      LadderTail(side, ladder);
      QueueClaim(ladder[0].queue, users, side, ladder[0].price, u);
      LadderClaim(ladder[1..], users, side, u);
    }
  }

  // ---------- Placing ----------

  /** The book part of a placement: its trades can be settled and its ladders stay sound. */
  lemma PlaceSound(s: State, taker: Entry)
    requires Solvent(s) && taker.remaining > 0 && taker.price > 0
    requires taker.side.Buy? ==> QuoteFits(taker.price, taker.remaining)
    requires LockAccount(taker.user, taker.side) in s.balances
    ensures var r := PlaceOrder(s.book, taker, s.nextTrade);
            && BookOk(r.book) && LadderFits(s.book.bids)
            && LadderSound(r.book.bids, UsersOf(s.balances, USD)) && LadderSound(r.book.asks, UsersOf(s.balances, BTC))
            && Settleable(s.balances, taker.side, r.trades)
  {
    hide Match, QuoteAmount, QuoteFits, LadderOk, LadderFits;
    var b, opposite := s.balances, taker.side.Opposite();
    var users := UsersOf(b, if opposite.Buy? then USD else BTC);
    var m := Match(s.book.Of(opposite), taker, s.nextTrade);
    MatchFacts(opposite, s.book.Of(opposite), taker, s.nextTrade);
    MatchSound(opposite, s.book.Of(opposite), taker, s.nextTrade, users);
    SoundFits(s.book.bids, UsersOf(b, USD));
    PlaceOk(s.book, taker, s.nextTrade);
    if m.taker.remaining > 0 {
      var own := UsersOf(b, if taker.side.Buy? then USD else BTC);
      assert taker.user in own by {
        assert LockAccount(taker.user, taker.side) in b;
      }
      AddSound(s.book.Of(taker.side), m.taker, own);
    }
    forall k | 0 <= k < |m.trades|
      ensures m.trades[k].quantity > 0 && QuoteAmount(m.trades[k].price, m.trades[k].quantity) >= 0
      ensures Account(Buyer(m.trades[k], taker.side), USD) in b && Account(Seller(m.trades[k], taker.side), BTC) in b
    {
      var t := m.trades[k];
      assert TradeOk(taker, t);
      QuoteMonotone(t.price, t.quantity, t.price, t.quantity);
      assert t.makerUser in users;
      var key :| key in b && key.asset == (if opposite.Buy? then USD else BTC) && key.user == t.makerUser;
      assert key == Account(t.makerUser, key.asset);
    }
  }

  /** Locking moves funds between the fields of one account, opens none, and overflows nowhere. */
  lemma {:induction false} LockLocked(b: Balances, k: Account, amount: int, u: Uuid, asset: Asset)
    requires Sane(b) && IsTraded(k) && amount >= 0
    requires LockFunds(b, k, amount).Some?
    ensures var c := LockFunds(b, k, amount).value;
            && c == Credit(b, k, -amount, amount) && Sane(c)
            && Locked(c, u, asset) == Locked(b, u, asset) + (if k == Account(u, asset) then amount else 0)
            && c.Keys == b.Keys && k in b
  {
    hide Total;
    MoveExact(b, k, amount);
  }

  /** What an event did to a user's surplus: it grew by price improvement, and at most one unit per trade bought in. */
  predicate SurplusGrows(s: State, after: State, e: Event, trades: seq<Trade>, u: Uuid) {
    if e.OrderPlaced? then
      var gain := Improvement(u, e.price, e.side, trades);
      0 <= gain <= Surplus(after, u) - Surplus(s, u) <= gain + Bought(u, e.side, trades)
    else Surplus(after, u) == Surplus(s, u)
  }

  /** The locked funds cover every trade of a placement, and what is left covers the book after it. */
  lemma {:induction false} PlaceBacked(s: State, taker: Entry, locked: Balances, u: Uuid)
    requires Solvent(s) && taker.remaining > 0 && taker.price > 0
    requires taker.side.Buy? ==> QuoteFits(taker.price, taker.remaining)
    requires LockFunds(s.balances, LockAccount(taker.user, taker.side),
        LockAmount(taker.price, taker.remaining, taker.side)) == Some(locked)
    ensures var r := PlaceOrder(s.book, taker, s.nextTrade);
            var gain := Improvement(u, taker.price, taker.side, r.trades);
            && Locked(locked, u, BTC) == ClaimBTC(r.book, u) + OwedBTC(u, taker.side, r.trades)
            && ClaimBTC(r.book, u) >= 0 && ClaimUSD(r.book, u) >= 0 && gain >= 0
            && gain <= Locked(locked, u, USD) - ClaimUSD(r.book, u) - OwedUSD(u, taker.side, r.trades) - Surplus(s, u)
                    <= gain + Bought(u, taker.side, r.trades)
  {
    var r := PlaceOrder(s.book, taker, s.nextTrade);
    var k := LockAccount(taker.user, taker.side);
    LockFits(taker);
    LockLocked(s.balances, k, LockAmount(taker.price, taker.remaining, taker.side), u, BTC);
    LockLocked(s.balances, k, LockAmount(taker.price, taker.remaining, taker.side), u, USD);
    PlaceSound(s, taker);
    PlaceClaims(s.book, taker, s.nextTrade, u);
    LadderClaim(r.book.bids, UsersOf(s.balances, USD), Buy, u);
    LadderClaim(r.book.asks, UsersOf(s.balances, BTC), Sell, u);
    GainNonNegative(s.book, taker, s.nextTrade, u);
    hide PlaceOrder, QuoteAmount, QuoteFits, LadderSum, LadderOk, LadderSound;
    assert Backed(s, u);
  }

  lemma {:induction false} ImprovementNonNegative(taker: Entry, trades: seq<Trade>, nextId: nat, users: set<Uuid>,
                                                  most: int, u: Uuid)
    requires TradesOk(taker, trades, nextId) && TradesSound(trades, users)
    requires taker.side.Buy? ==> Traded(trades) <= most && QuoteFits(taker.price, most)
    ensures Improvement(u, taker.price, taker.side, trades) >= 0
  {
    hide QuoteAmount, QuoteFits;
    if trades != [] && taker.side.Buy? {
      var t := trades[0];
      assert TradeOk(taker, t) && t.price > 0;
      TradedPositive(taker, trades[1..], nextId + 1);
      QuoteMonotone(taker.price, t.quantity, taker.price, most);
      QuoteMonotone(t.price, t.quantity, taker.price, t.quantity);
      ImprovementNonNegative(taker, trades[1..], nextId + 1, users, most, u);
    }
  }

  lemma GainNonNegative(book: BookValue, taker: Entry, nextId: nat, u: Uuid)
    requires BookOk(book) && taker.remaining > 0
    requires exists users :: LadderSound(book.Of(taker.side.Opposite()), users)
    requires taker.side.Buy? ==> QuoteFits(taker.price, taker.remaining)
    ensures Improvement(u, taker.price, taker.side, PlaceOrder(book, taker, nextId).trades) >= 0
  {
    var opposite := taker.side.Opposite();
    var users :| LadderSound(book.Of(opposite), users);
    var m := Match(book.Of(opposite), taker, nextId);
    MatchFacts(opposite, book.Of(opposite), taker, nextId);
    MatchSound(opposite, book.Of(opposite), taker, nextId, users);
    hide Match, QuoteFits, LadderOk, LadderSound;
    ImprovementNonNegative(taker, m.trades, nextId, users, taker.remaining, u);
  }

  lemma {:induction false} UsersGrow(b: Balances, c: Balances, asset: Asset)
    requires forall k | k in b :: k in c
    ensures UsersOf(b, asset) <= UsersOf(c, asset)
  {}

  /** With the funds locked, all trades of the placement settle and the state is solvent again. */
  lemma {:induction false} PlaceSettles(s: State, taker: Entry, locked: Balances)
    requires Solvent(s) && taker.remaining > 0 && taker.price > 0
    requires taker.side.Buy? ==> QuoteFits(taker.price, taker.remaining)
    requires LockFunds(s.balances, LockAccount(taker.user, taker.side),
        LockAmount(taker.price, taker.remaining, taker.side)) == Some(locked)
    ensures var r := PlaceOrder(s.book, taker, s.nextTrade);
            var settled := SettleAll(locked, taker.side, r.trades);
            var after := State(r.book, settled.balances, s.nextTrade + |r.trades|);
            && settled.ok && Solvent(after) && settled.balances == TransferAll(locked, taker.side, r.trades)
            && forall u :: var gain := Improvement(u, taker.price, taker.side, r.trades);
                  0 <= gain <= Surplus(after, u) - Surplus(s, u) <= gain + Bought(u, taker.side, r.trades)
  {
    hide PlaceOrder, QuoteAmount, QuoteFits, LadderSum, LadderOk, LadderSound, LockFunds, SettleAll, OwedUSD, OwedBTC;
    hide Improvement, Bought, Sane;
    var r := PlaceOrder(s.book, taker, s.nextTrade);
    var k, amount := LockAccount(taker.user, taker.side), LockAmount(taker.price, taker.remaining, taker.side);
    var settled := SettleAll(locked, taker.side, r.trades);
    var after := State(r.book, settled.balances, s.nextTrade + |r.trades|);
    LockFits(taker);
    LockLocked(s.balances, k, amount, taker.user, USD);
    PlaceSound(s, taker);
    assert Settleable(locked, taker.side, r.trades);
    forall u
      ensures Locked(locked, u, BTC) == ClaimBTC(r.book, u) + OwedBTC(u, taker.side, r.trades)
      ensures Locked(locked, u, USD) >= ClaimUSD(r.book, u) + OwedUSD(u, taker.side, r.trades)
      ensures ClaimBTC(r.book, u) >= 0 && ClaimUSD(r.book, u) >= 0
      ensures var gain := Improvement(u, taker.price, taker.side, r.trades);
              var left := Locked(locked, u, USD) - ClaimUSD(r.book, u) - OwedUSD(u, taker.side, r.trades);
              0 <= gain <= left - Surplus(s, u) <= gain + Bought(u, taker.side, r.trades)
    {
      PlaceBacked(s, taker, locked, u);
      assert Backed(s, u);
    }
    CoveredSettles(locked, taker.side, r.trades);
    UsersGrow(s.balances, settled.balances, USD);
    UsersGrow(s.balances, settled.balances, BTC);
    SoundMore(r.book.bids, UsersOf(s.balances, USD), UsersOf(settled.balances, USD));
    SoundMore(r.book.asks, UsersOf(s.balances, BTC), UsersOf(settled.balances, BTC));
    forall u ensures Backed(after, u) {
      assert Locked(settled.balances, u, USD) == Locked(locked, u, USD) - OwedUSD(u, taker.side, r.trades);
    }
  }

  /** What a placement locks is not negative. */
  lemma LockFits(taker: Entry)
    requires taker.remaining > 0 && (taker.side.Buy? ==> QuoteFits(taker.price, taker.remaining))
    ensures LockAmount(taker.price, taker.remaining, taker.side) >= 0 && IsTraded(LockAccount(taker.user, taker.side))
  {
    if taker.side.Buy? {
      QuoteMonotone(taker.price, taker.remaining, taker.price, taker.remaining);
    }
  }

  /** A placement is rejected, changing nothing, or all its trades settle, as on unbounded integers. */
  lemma PlaceStep(s: State, e: Event)
    requires Solvent(s) && e.OrderPlaced? && Admissible(e)
    ensures var r := Handle(s, e);
            && Solvent(r.state)
            && ((r.outcome == Outcome.Rejected && r.state == s && r.trades == []) || r.outcome == Done)
            && forall u :: SurplusGrows(s, r.state, e, r.trades, u)
    ensures var r := Handle(s, e);
            var k, amount := LockAccount(e.user, e.side), LockAmount(e.price, e.quantity, e.side);
            r.outcome == Done ==>
              r.state.balances == TransferAll(Credit(s.balances, k, -amount, amount), e.side, r.trades)
  {
    hide PlaceOrder, QuoteAmount, QuoteFits, LadderSum, SettleAll, Solvent, Surplus, LockFunds, Sane, TransferAll;
    var k, amount := LockAccount(e.user, e.side), LockAmount(e.price, e.quantity, e.side);
    var taker := Entry(e.id, e.user, e.price, e.quantity, e.quantity, e.side);
    match LockFunds(s.balances, k, amount)
    case None =>
    case Some(locked) =>
      PlaceSettles(s, taker, locked);
      LockFits(taker);
      SolventSane(s);
      LockLocked(s.balances, k, amount, e.user, USD);
  }

  /** What a placement is answered: rejected just when its funds do not lock, else how much of it traded. */
  lemma PlaceAnswer(s: State, e: Event)
    requires BookOk(s.book) && e.OrderPlaced? && e.quantity > 0
    ensures var r := Handle(s, e);
            var k, amount := LockAccount(e.user, e.side), LockAmount(e.price, e.quantity, e.side);
            var funded := k in s.balances && s.balances[k].available >= amount;
            && (r.status == Status.Rejected <==> !funded)
            && (r.status == Filled <==> funded && Traded(r.trades) == e.quantity)
            && (r.status == Partial <==> funded && 0 < Traded(r.trades) < e.quantity)
            && (r.status == Placed <==> funded && r.trades == [])
  {
    hide PlaceOrder, QuoteAmount, SettleAll, Credit64, BookOk, Traded;
    PlaceStatus(s.book, Entry(e.id, e.user, e.price, e.quantity, e.quantity, e.side), s.nextTrade);
  }

  lemma SolventSane(s: State)
    requires Solvent(s)
    ensures Sane(s.balances)
  {}

  // ---------- Cancelling and depositing ----------

  /** A cancel of a resting order always finds its claim locked, and unlocks exactly that. */
  lemma CancelStep(s: State, id: Uuid)
    requires Solvent(s)
    ensures var r := HandleCancel(s, id);
            && Solvent(r.state)
            && ((r.outcome == Unknown && r.state == s) || r.outcome == Done)
            && forall u :: Surplus(r.state, u) == Surplus(s, u)
    ensures match CancelOrder(s.book, id)
            case None => HandleCancel(s, id).outcome == Unknown
            case Some((_, e)) =>
              var k, amount := LockAccount(e.user, e.side), LockAmount(e.price, e.remaining, e.side);
              HandleCancel(s, id).state.balances == Credit(s.balances, k, amount, -amount)
  {
    hide QuoteAmount, LadderSum, LadderOk, LadderSound, CancelOrder, Sane, Credit64;
    match CancelOrder(s.book, id)
    case None =>
    case Some((book, e)) =>
      var b := s.balances;
      var k, amount := LockAccount(e.user, e.side), LockAmount(e.price, e.remaining, e.side);
      CancelClaims(s, id);
      assert Backed(s, e.user);
      assert k in b && 0 <= amount <= b[k].locked by {
        assert Backed(s, e.user);
      }
      var c := Credit(b, k, amount, -amount);
      UnlockSame(b, k, amount);
      assert UsersOf(c, USD) == UsersOf(b, USD) && UsersOf(c, BTC) == UsersOf(b, BTC) by {
        assert c.Keys == b.Keys;
      }
      forall u ensures Backed(State(book, c, s.nextTrade), u)
          && Surplus(State(book, c, s.nextTrade), u) == Surplus(s, u) {
        assert Backed(s, u);
        CancelClaimsOf(s, id, u);
      }
  }

  /** A cancel is answered Cancelled exactly if the order is on the book. */
  lemma CancelAnswer(s: State, id: Uuid)
    requires Solvent(s)
    ensures HandleCancel(s, id).status == Cancelled <==> s.book.FindOrder(id).Some?
    ensures HandleCancel(s, id).trades == []
  {
    CancelStep(s, id);
    hide Solvent, QuoteAmount, Credit64, Remove, BookValue.FindOrder, Surplus;
  }

  lemma {:induction false} UnlockSame(b: Balances, k: Account, amount: int)
    requires Sane(b) && IsTraded(k) && k in b && 0 <= amount <= b[k].locked
    ensures UnlockFunds(b, k, amount) == Some(Credit(b, k, amount, -amount)) && Sane(Credit(b, k, amount, -amount))
  {
    hide Total;
    MoveExact(b, k, -amount);
  }

  lemma {:induction false} CancelClaimsOf(s: State, id: Uuid, u: Uuid)
    requires Solvent(s) && CancelOrder(s.book, id).Some?
    ensures var (book, e) := CancelOrder(s.book, id).value;
            var amount := LockAmount(e.price, e.remaining, e.side);
            && ClaimBTC(book, u) == ClaimBTC(s.book, u) - (if e.side.Sell? && u == e.user then amount else 0)
            && ClaimUSD(book, u) == ClaimUSD(s.book, u) - (if e.side.Buy? && u == e.user then amount else 0)
            && ClaimBTC(book, u) >= 0 && ClaimUSD(book, u) >= 0
  {
    hide QuoteAmount, LadderSum, LadderOk, LadderSound, Remove, Find;
    var (book, e) := CancelOrder(s.book, id).value;
    FindOrderOk(s.book, id);
    RemoveSum(BaseOf(u), e.side, s.book.Of(e.side), id);
    RemoveSum(QuoteOf(u), e.side, s.book.Of(e.side), id);
    CancelOk(s.book, id);
    RemoveSound(s.book.Of(e.side), e.price, id, UsersOf(s.balances, if e.side.Buy? then USD else BTC));
    LadderClaim(book.bids, UsersOf(s.balances, USD), Buy, u);
    LadderClaim(book.asks, UsersOf(s.balances, BTC), Sell, u);
  }

  lemma {:induction false} CancelClaims(s: State, id: Uuid)
    requires Solvent(s) && CancelOrder(s.book, id).Some?
    ensures var (book, e) := CancelOrder(s.book, id).value;
            var k, amount := LockAccount(e.user, e.side), LockAmount(e.price, e.remaining, e.side);
            && BookOk(book) && LadderSound(book.bids, UsersOf(s.balances, USD))
            && LadderSound(book.asks, UsersOf(s.balances, BTC))
            && k in s.balances && 0 <= amount <= Locked(s.balances, e.user, k.asset)
  {
    var (book, e) := CancelOrder(s.book, id).value;
    var users := UsersOf(s.balances, if e.side.Buy? then USD else BTC);
    FindOrderOk(s.book, id);
    CancelOk(s.book, id);
    CancelClaimsOf(s, id, e.user);
    RemoveSound(s.book.Of(e.side), e.price, id, users);
    assert Sound(e, users) by {
      FindPrice(e.side, s.book.Of(e.side), id);
      hide QuoteFits;
    }
    hide QuoteAmount, LadderSum, LadderOk, LadderSound, Remove, Find, QuoteFits;
    if e.side.Buy? {
      QuoteMonotone(e.price, e.remaining, e.price, e.remaining);
    }
    assert Backed(s, e.user);
  }

  /** A deposit after which what is held of a traded asset still fits 64 bits. */
  ghost predicate DepositFits(s: State, e: Event) {
    e.DepositCreated? && IsTraded(Account(e.user, e.asset)) ==> Total(s.balances, e.asset) + e.amount <= MAX_INT64
  }

  lemma DepositStep(s: State, e: Event)
    requires Solvent(s) && e.DepositCreated? && Admissible(e) && DepositFits(s, e)
    ensures var r := Handle(s, e);
            Solvent(r.state) && r.outcome == Done && forall u :: Surplus(r.state, u) == Surplus(s, u)
    ensures var k := Account(e.user, e.asset);
            IsTraded(k) ==> Handle(s, e).state.balances == Credit(s.balances, k, e.amount, 0)
  {
    hide QuoteAmount, LadderSum, LadderOk, LadderSound, Sane, Credit64;
    var k := Account(e.user, e.asset);
    var c := Deposit(s.balances, k, e.amount);
    DepositSane(s.balances, k, e.amount);
    UsersGrow(s.balances, c, USD);
    UsersGrow(s.balances, c, BTC);
    SoundMore(s.book.bids, UsersOf(s.balances, USD), UsersOf(c, USD));
    SoundMore(s.book.asks, UsersOf(s.balances, BTC), UsersOf(c, BTC));
    forall u ensures Backed(State(s.book, c, s.nextTrade), u)
        && Surplus(State(s.book, c, s.nextTrade), u) == Surplus(s, u) {
      assert Backed(s, u);
    }
  }

  lemma {:induction false} DepositSane(b: Balances, k: Account, amount: int)
    requires Sane(b) && amount >= 0 && (IsTraded(k) ==> Total(b, k.asset) + amount <= MAX_INT64)
    ensures var c := Deposit(b, k, amount);
            && Sane(c) && (IsTraded(k) ==> c == Credit(b, k, amount, 0))
            && (forall u: Uuid, a: Asset | a == BTC || a == USD :: Locked(c, u, a) == Locked(b, u, a))
            && (forall x | x in b :: x in c)
  {
    hide Total, WrapInt64;
    if IsTraded(k) {
      DepositExact(b, k, amount);
    } else {
      var x, y := WrapInt64(Get(b, k).available + amount) - Get(b, k).available,
          WrapInt64(Get(b, k).locked) - Get(b, k).locked;
      assert Deposit(b, k, amount) == Credit(b, k, x, y);
      TotalCredit(b, k, x, y, BTC);
      TotalCredit(b, k, x, y, USD);
    }
  }

  // ---------- Every run ----------

  /** Any admissible event keeps the funds invariant and ends neither in the panic nor out of sync. */
  lemma Step(s: State, e: Event)
    requires Solvent(s) && Admissible(e) && DepositFits(s, e)
    ensures var r := Handle(s, e);
            && Solvent(r.state)
            && r.outcome != SettlementPanic && r.outcome != OutOfSync
            && forall u :: SurplusGrows(s, r.state, e, r.trades, u)
  {
    hide Solvent, Surplus, HandlePlaced, HandleCancel, Improvement, Bought;
    match e {
      case OrderPlaced(_, _, _, _, _) => PlaceStep(s, e);
      case CancelRequested(id) => CancelStep(s, id);
      case DepositCreated(_, _, _) => DepositStep(s, e);
    }
  }

  /** An event changes what is held of a traded asset by exactly what it deposits of it. */
  lemma {:induction false} StepTotal(s: State, e: Event, a: Asset)
    requires Solvent(s) && Admissible(e) && DepositFits(s, e) && (a == BTC || a == USD)
    ensures Total(Handle(s, e).state.balances, a) == Total(s.balances, a) + Deposited(e, a)
  {
    hide Total, Solvent, PlaceOrder, CancelOrder, QuoteAmount, Credit, Credit64, SettleAll, TransferAll, LockFunds;
    hide UnlockFunds, Surplus;
    match e
    case OrderPlaced(id, user, price, quantity, side) =>
      PlaceStep(s, e);
      var k, amount := LockAccount(user, side), LockAmount(price, quantity, side);
      TotalCredit(s.balances, k, -amount, amount, a);
      TransferAllConserves(Credit(s.balances, k, -amount, amount), side, Handle(s, e).trades, a);
    case CancelRequested(id) =>
      CancelStep(s, id);
      if CancelOrder(s.book, id).Some? {
        var o := CancelOrder(s.book, id).value.1;
        var amount := LockAmount(o.price, o.remaining, o.side);
        TotalCredit(s.balances, LockAccount(o.user, o.side), amount, -amount, a);
      }
    case DepositCreated(user, asset, amount) =>
      DepositStep(s, e);
      TotalCredit(s.balances, Account(user, asset), amount, 0, a);
      if asset != a {
        OtherTotal(s.balances, Account(user, asset), amount, a);
      }
  }

  lemma {:induction false} OtherTotal(b: Balances, k: Account, amount: int, a: Asset)
    requires k.asset != a
    ensures Total(Deposit(b, k, amount), a) == Total(b, a)
  {
    hide Total, WrapInt64;
    var x, y := WrapInt64(Get(b, k).available + amount) - Get(b, k).available,
        WrapInt64(Get(b, k).locked) - Get(b, k).locked;
    assert Deposit(b, k, amount) == Credit(b, k, x, y);
    TotalCredit(b, k, x, y, a);
  }

  lemma InitiallySolvent()
    ensures Solvent(INITIAL) && forall u :: Surplus(INITIAL, u) == 0
    ensures Total(INITIAL.balances, BTC) == 0 && Total(INITIAL.balances, USD) == 0
  {}

  lemma FrontFits(front: seq<Event>, e: Event)
    requires AllAdmissible(front + [e]) && DepositsFit(front + [e])
    ensures AllAdmissible(front) && Admissible(e) && DepositsFit(front)
    ensures AllDeposited(front + [e], BTC) == AllDeposited(front, BTC) + Deposited(e, BTC)
    ensures AllDeposited(front + [e], USD) == AllDeposited(front, USD) + Deposited(e, USD)
  {
    hide QuoteFits;
    var all := front + [e];
    assert all[..|front|] == front && all[|front|] == e;
    assert forall i | 0 <= i < |front| :: all[i] == front[i];
  }

  /**
   After every run of admissible events whose deposits of BTC and of USD fit 64 bits, the funds
   invariant holds, and the users together hold exactly what was deposited.
   */
  lemma {:induction false} RunSolvent(events: seq<Event>)
    requires AllAdmissible(events) && DepositsFit(events)
    ensures Solvent(Run(INITIAL, events))
    ensures Total(Run(INITIAL, events).balances, BTC) == AllDeposited(events, BTC)
    ensures Total(Run(INITIAL, events).balances, USD) == AllDeposited(events, USD)
  {
    hide Solvent, Handle, Total;
    InitiallySolvent();
    if events != [] {
      var front, e := events[..|events| - 1], events[|events| - 1];
      assert front + [e] == events;
      FrontFits(front, e);
      RunSolvent(front);
      NextFits(front, e);
      var s := Run(INITIAL, front);
      Step(s, e);
      StepTotal(s, e, BTC);
      StepTotal(s, e, USD);
    }
  }

  /** The next event of a run whose deposits fit is a deposit that fits, or none. */
  lemma {:induction false} NextFits(front: seq<Event>, e: Event)
    requires AllAdmissible(front + [e]) && DepositsFit(front + [e])
    requires Total(Run(INITIAL, front).balances, BTC) == AllDeposited(front, BTC)
    requires Total(Run(INITIAL, front).balances, USD) == AllDeposited(front, USD)
    ensures DepositFits(Run(INITIAL, front), e)
  {
    hide Total, Run;
    FrontFits(front, e);
  }

  /** The price improvement of a user over a run, and the number of trades the user bought in. */
  function RunImprovement(events: seq<Event>, u: Uuid): int {
    if events == [] then 0
    else
      var front, e := events[..|events| - 1], events[|events| - 1];
      RunImprovement(front, u)
      + if e.OrderPlaced? then Improvement(u, e.price, e.side, Handle(Run(INITIAL, front), e).trades) else 0
  }

  function RunBought(events: seq<Event>, u: Uuid): nat {
    if events == [] then 0
    else
      var front, e := events[..|events| - 1], events[|events| - 1];
      RunBought(front, u) + if e.OrderPlaced? then Bought(u, e.side, Handle(Run(INITIAL, front), e).trades) else 0
  }

  /** What is known before each event of a run whose deposits fit. */
  lemma {:induction false} BeforeEvent(events: seq<Event>, e: Event)
    requires AllAdmissible(events + [e]) && DepositsFit(events + [e])
    ensures AllAdmissible(events) && DepositsFit(events) && Admissible(e)
    ensures Solvent(Run(INITIAL, events)) && DepositFits(Run(INITIAL, events), e)
  {
    hide Solvent, Run, Total;
    FrontFits(events, e);
    RunSolvent(events);
    NextFits(events, e);
  }

  /**
   After any run a user's surplus is the price improvement of the run, which is never negative,
   plus at most one unit for each trade bought in.
   */
  lemma {:induction false} SurplusOfRun(events: seq<Event>, u: Uuid)
    requires AllAdmissible(events) && DepositsFit(events)
    ensures 0 <= RunImprovement(events, u) <= Surplus(Run(INITIAL, events), u)
                 <= RunImprovement(events, u) + RunBought(events, u)
  {
    hide Solvent, Handle, Surplus, Improvement, Bought, DepositsFit, AllAdmissible;
    InitiallySolvent();
    if events != [] {
      var front, e := events[..|events| - 1], events[|events| - 1];
      assert front + [e] == events;
      BeforeEvent(front, e);
      SurplusOfRun(front, u);
      Step(Run(INITIAL, front), e);
      assert SurplusGrows(Run(INITIAL, front), Run(INITIAL, events), e, Handle(Run(INITIAL, front), e).trades, u);
    }
  }

  /** No event of any run makes a user's surplus shrink. */
  lemma SurplusNeverShrinks(events: seq<Event>, e: Event, u: Uuid)
    requires AllAdmissible(events + [e]) && DepositsFit(events + [e])
    ensures Surplus(Run(INITIAL, events + [e]), u) >= Surplus(Run(INITIAL, events), u)
  {
    hide Solvent, Handle, Surplus, Improvement, Bought, Run, DepositsFit, AllAdmissible;
    BeforeEvent(events, e);
    RunSnoc(INITIAL, events, e);
    Step(Run(INITIAL, events), e);
    assert SurplusGrows(Run(INITIAL, events), Run(INITIAL, events + [e]), e, Handle(Run(INITIAL, events), e).trades, u);
  }

  /**
   In no run of admissible events whose deposits of BTC and of USD fit 64 bits does a settlement fail
   or a cancel find too little locked.
   */
  lemma {:induction false} NeverInconsistent(events: seq<Event>, i: nat)
    requires AllAdmissible(events) && DepositsFit(events) && i < |events|
    ensures var r := Handle(Run(INITIAL, events[..i]), events[i]);
            r.outcome != SettlementPanic && r.outcome != OutOfSync
  {
    hide Solvent, Handle, Run, DepositsFit, AllAdmissible;
    PrefixFits(events, i + 1);
    assert events[..i + 1] == events[..i] + [events[i]];
    BeforeEvent(events[..i], events[i]);
    Step(Run(INITIAL, events[..i]), events[i]);
  }

  lemma {:induction false} PrefixFits(events: seq<Event>, n: nat)
    requires AllAdmissible(events) && DepositsFit(events) && n <= |events|
    ensures AllAdmissible(events[..n]) && DepositsFit(events[..n])
    decreases |events| - n
  {
    hide DepositsFit, AllAdmissible;
    if n < |events| {
      PrefixFits(events, n + 1);
      assert events[..n + 1] == events[..n] + [events[n]];
      FrontFits(events[..n], events[n]);
    } else {
      assert events[..n] == events;
    }
  }
}
