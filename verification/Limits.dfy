/** How much may be deposited before a balance row overflows: the exact bound, and runs beyond it. */
module Limits {
  import opened Domain
  import opened Matching
  import opened Funds
  import opened Engine
  import opened Rows
  import opened Exchange

  lemma AfterSnoc(actions: seq<Action>, a: Action)
    ensures After(actions + [a]) == Act(After(actions), a).world
  {
    assert (actions + [a])[..|actions|] == actions;
  }

  lemma AfterEmpty()
    ensures After([]) == EMPTY_EXCHANGE
  {}

  /** What a delivery does, from what the handling and the transaction give. */
  lemma DeliverStep(w: World, i: nat, s: State, r: Reply, db: Option<Tables>)
    requires i < |w.pending| && w.Memory() == s && Handle(s, w.pending[i]) == r
    requires r.outcome == Done && Persist(w.db, w.pending[i], s, r) == db
    ensures db.Some? ==>
      Act(w, Deliver(i)) == Outcomes(World(w.delivered + [w.pending[i]], Dropped(w.pending, i), db.value), Accepted)
    ensures db.None? ==> Act(w, Deliver(i)).verdict == WorkerRefused
    ensures Act(w, Deliver(i)).world.delivered == w.delivered + [w.pending[i]]
    ensures Run(INITIAL, w.delivered + [w.pending[i]]) == r.state
  {
    hide Handle, Persist, Run;
    RunSnoc(INITIAL, w.delivered, w.pending[i]);
  }

  /** An accepted deposit. */
  lemma AcceptDeposit(w: World, user: Uuid, a: Asset, amount: int, rows: Balances)
    requires Credit(w.db.balances, Account(user, a), amount, 0) == rows && AllStorable(rows) && 0 <= amount <= MAX_INT64
    ensures Act(w, ApiDeposit(user, a, amount))
         == Outcomes(World(w.delivered, w.pending + [DepositCreated(user, a, amount)], w.db.(balances := rows)),
             Accepted)
  {
    hide Credit, AllStorable;
  }

  // ---------- One user, one asset: the largest deposit, an order, one unit more, a cancel ----------

  function Key(a: Asset): Account {
    Account(1, a)
  }

  function SideOf(a: Asset): Side {
    if a == USD then Buy else Sell
  }

  /** An order that locks one unit. */
  function Unit(a: Asset): Entry {
    Entry(1, 1, DECIMALS, 1, 1, SideOf(a))
  }

  function UnitBook(a: Asset): BookValue {
    EMPTY_BOOK.With(SideOf(a), [Level(DECIMALS, [Unit(a)])])
  }

  function Account1(a: Asset, available: int, locked: int): Balances {
    map[Key(a) := Balance(available, locked)]
  }

  function Deposits(a: Asset, amount: int): Event {
    DepositCreated(1, a, amount)
  }

  function UnitPlaced(a: Asset): Event {
    OrderPlaced(1, 1, DECIMALS, 1, SideOf(a))
  }

  function World1(a: Asset, delivered: seq<Event>, pending: seq<Event>, placed: bool, available: int, locked: int)
    : World {
    World(delivered, pending, Tables(Account1(a, available, locked), if placed then {1} else {}, []))
  }

  /** The actions that fill an account, lock one unit of it, deposit one more and ask for the cancel. */
  function Overfill(a: Asset): seq<Action> {
    [ApiDeposit(1, a, MAX_INT64)] + [Deliver(0)] + [ApiPlace(1, 1, DECIMALS, 1, SideOf(a))] + [Deliver(0)]
    + [ApiDeposit(1, a, 1)] + [ApiCancel(1)]
  }

  lemma {:induction false} Credited(a: Asset, available: int, locked: int, x: int, y: int)
    ensures Credit(Account1(a, available, locked), Key(a), x, y) == Account1(a, available + x, locked + y)
    ensures Credit(map[], Key(a), x, y) == Account1(a, x, y)
    ensures Key(a) in Account1(a, available, locked)
    ensures Account1(a, available, locked)[Key(a)] == Balance(available, locked)
    ensures AllStorable(Account1(a, available, locked)) <==> Storable(Balance(available, locked))
    ensures InInt64(available + x) && InInt64(locked + y) ==>
              Credit64(Account1(a, available, locked), Key(a), x, y) == Account1(a, available + x, locked + y)
  {
    hide WrapInt64;
    if InInt64(available + x) && InInt64(locked + y) {
      CreditSame(Account1(a, available, locked), Key(a), x, y);
    }
    assert Credit(Account1(a, available, locked), Key(a), x, y) == Account1(a, available + x, locked + y);
  }

  lemma UnitLocks(a: Asset)
    requires a == BTC || a == USD
    ensures LockAccount(1, SideOf(a)) == Key(a) && LockAmount(DECIMALS, 1, SideOf(a)) == 1
  {}

  lemma UnitRests(a: Asset)
    ensures PlaceOrder(EMPTY_BOOK, Unit(a), 0) == PlaceResult(UnitBook(a), [], Placed)
    ensures CancelOrder(UnitBook(a), 1) == Some((EMPTY_BOOK, Unit(a)))
  {
    var queue := [Unit(a)];
    assert queue[1..] == [] && [Level(DECIMALS, queue)][1..] == [];
    assert Without(queue, 1) == [];
  }

  lemma MemoryDeposits(a: Asset)
    ensures Handle(INITIAL, Deposits(a, MAX_INT64))
        == Reply(State(EMPTY_BOOK, Account1(a, MAX_INT64, 0), 0), Done, New, [])
  {
    hide Credit, HandlePlaced, HandleCancel;
    Credited(a, 0, 0, MAX_INT64, 0);
  }

  lemma {:induction false} MemoryPlaces(a: Asset)
    requires a == BTC || a == USD
    ensures Handle(State(EMPTY_BOOK, Account1(a, MAX_INT64, 0), 0), UnitPlaced(a))
         == Reply(State(UnitBook(a), Account1(a, MAX_INT64 - 1, 1), 0), Done, Placed, [])
  {
    hide Credit, Credit64, PlaceOrder, LockAccount, LockAmount, Account1, Key;
    UnitLocks(a);
    UnitRests(a);
    Credited(a, MAX_INT64, 0, -1, 1);
  }

  lemma {:induction false} MemoryCancels(a: Asset)
    requires a == BTC || a == USD
    ensures var r := Handle(State(UnitBook(a), Account1(a, MAX_INT64 - 1, 1), 0), CancelRequested(1));
            r.outcome == Done && r.trades == []
  {
    hide Credit, Credit64, CancelOrder, LockAccount, LockAmount, Account1, Key;
    UnitLocks(a);
    UnitRests(a);
    Credited(a, MAX_INT64 - 1, 1, 1, -1);
  }

  lemma {:induction false} TablesPlace(a: Asset, s: State, r: Reply)
    requires a == BTC || a == USD
    requires r.outcome == Done && r.trades == []
    ensures Persist(Tables(Account1(a, MAX_INT64, 0), {1}, []), UnitPlaced(a), s, r)
         == Some(Tables(Account1(a, MAX_INT64 - 1, 1), {1}, []))
  {
    hide Credit, LockAccount, LockAmount, Account1, Key, AllStorable;
    UnitLocks(a);
    Credited(a, MAX_INT64, 0, -1, 1);
    Credited(a, MAX_INT64 - 1, 1, 0, 0);
  }

  /** The row cannot take the unlocked unit back. */
  lemma {:induction false} TablesRefuseCancel(a: Asset, s: State, r: Reply)
    requires a == BTC || a == USD
    requires s.book == UnitBook(a) && r.outcome == Done
    ensures Persist(Tables(Account1(a, MAX_INT64, 1), {1}, []), CancelRequested(1), s, r) == None
  {
    hide Credit, CancelOrder, LockAccount, LockAmount, Account1, Key, AllStorable;
    UnitLocks(a);
    UnitRests(a);
    Credited(a, MAX_INT64, 1, 1, -1);
    Credited(a, MAX_INT64 + 1, 0, 0, 0);
  }

  lemma {:induction false} FirstHalf(a: Asset)
    requires a == BTC || a == USD
    ensures var events := [Deposits(a, MAX_INT64), UnitPlaced(a)];
            && After([ApiDeposit(1, a, MAX_INT64)] + [Deliver(0)] + [ApiPlace(1, 1, DECIMALS, 1, SideOf(a))]
              + [Deliver(0)])
               == World1(a, events, [], true, MAX_INT64 - 1, 1)
            && Run(INITIAL, events) == State(UnitBook(a), Account1(a, MAX_INT64 - 1, 1), 0)
  {
    hide After, Handle, Persist, Run, Credit, Account1, AllStorable;
    var a1, a2 := ApiDeposit(1, a, MAX_INT64), ApiPlace(1, 1, DECIMALS, 1, SideOf(a));
    var dep, place := Deposits(a, MAX_INT64), UnitPlaced(a);
    AfterEmpty();
    RunEmpty(INITIAL);
    AfterSnoc([], a1);
    assert [] + [a1] == [a1] && [] + [dep] == [dep] && [dep] + [place] == [dep, place];
    Credited(a, 0, 0, MAX_INT64, 0);
    Credited(a, MAX_INT64, 0, 0, 0);
    var w1 := World1(a, [], [dep], false, MAX_INT64, 0);
    AcceptDeposit(EMPTY_EXCHANGE, 1, a, MAX_INT64, w1.db.balances);
    AfterSnoc([a1], Deliver(0));
    MemoryDeposits(a);
    PersistIs(w1.db, dep, INITIAL, Handle(INITIAL, dep));
    DeliverStep(w1, 0, INITIAL, Handle(INITIAL, dep), Some(w1.db));
    var w2 := World1(a, [dep], [], false, MAX_INT64, 0);
    assert Dropped([dep], 0) == [] && Dropped([place], 0) == [];
    AfterSnoc([a1] + [Deliver(0)], a2);
    var w3 := World1(a, [dep], [place], true, MAX_INT64, 0);
    assert Act(w2, a2).world == w3;
    AfterSnoc([a1] + [Deliver(0)] + [a2], Deliver(0));
    var s := State(EMPTY_BOOK, Account1(a, MAX_INT64, 0), 0);
    MemoryPlaces(a);
    TablesPlace(a, s, Handle(s, place));
    DeliverStep(w3, 0, s, Handle(s, place), Some(Tables(Account1(a, MAX_INT64 - 1, 1), {1}, [])));
  }

  lemma {:induction false} OverfillRuns(a: Asset)
    requires a == BTC || a == USD
    ensures After(Overfill(a)).db.balances == Account1(a, MAX_INT64, 1)
    ensures Act(After(Overfill(a)), Deliver(1)).verdict == WorkerRefused
  {
    hide After, Handle, Persist, Run, Credit, Account1, AllStorable;
    var front := [ApiDeposit(1, a, MAX_INT64)] + [Deliver(0)] + [ApiPlace(1, 1, DECIMALS, 1, SideOf(a))] + [Deliver(0)];
    var events, one := [Deposits(a, MAX_INT64), UnitPlaced(a)], Deposits(a, 1);
    FirstHalf(a);
    Credited(a, MAX_INT64 - 1, 1, 1, 0);
    Credited(a, MAX_INT64, 1, 0, 0);
    var w4 := World1(a, events, [], true, MAX_INT64 - 1, 1);
    AfterSnoc(front, ApiDeposit(1, a, 1));
    AcceptDeposit(w4, 1, a, 1, Account1(a, MAX_INT64, 1));
    assert [] + [one] == [one] && [one] + [CancelRequested(1)] == [one, CancelRequested(1)];
    var w5 := World1(a, events, [one], true, MAX_INT64, 1);
    AfterSnoc(front + [ApiDeposit(1, a, 1)], ApiCancel(1));
    var w6 := World1(a, events, [one, CancelRequested(1)], true, MAX_INT64, 1);
    assert Act(w5, ApiCancel(1)).world == w6;
    var s := State(UnitBook(a), Account1(a, MAX_INT64 - 1, 1), 0);
    MemoryCancels(a);
    TablesRefuseCancel(a, s, Handle(s, CancelRequested(1)));
    DeliverStep(w6, 1, s, Handle(s, CancelRequested(1)), None);
  }

  lemma {:induction false} Account1Total(a: Asset, available: int, locked: int, asset: Asset)
    ensures Total(Account1(a, available, locked), asset) == if asset == a then available + locked else 0
  {
    TotalWithout(Account1(a, available, locked), Key(a), asset);
    assert Account1(a, available, locked) - {Key(a)} == map[];
  }

  /** No run whose accepted deposits keep to these limits has the worker refused or memory inconsistent. */
  ghost predicate NeverFails(btc: int, usd: int) {
    forall actions, a |
      (forall i | 0 <= i < |actions| :: AdmissibleAction(actions[i])) && AdmissibleAction(a)
      && AcceptedDeposits(actions, BTC) <= btc && AcceptedDeposits(actions, USD) <= usd ::
      !Failed(Act(After(actions), a).verdict)
  }

  lemma {:induction false} LimitBroken(btc: int, usd: int, a: Asset)
    requires btc >= 0 && usd >= 0
    requires (a == BTC && btc > MAX_INT64) || (a == USD && usd > MAX_INT64)
    ensures !NeverFails(btc, usd)
  {
    hide After, Act, AcceptedDeposits, Account1, Total;
    var actions := Overfill(a);
    OverfillRuns(a);
    RowsConserve(actions, BTC);
    RowsConserve(actions, USD);
    Account1Total(a, MAX_INT64, 1, BTC);
    Account1Total(a, MAX_INT64, 1, USD);
    OverfillAdmissible(a);
  }

  lemma OverfillAdmissible(a: Asset)
    ensures forall i | 0 <= i < |Overfill(a)| :: AdmissibleAction(Overfill(a)[i])
  {}

  /**
   How much may be deposited: the worker's transactions are never refused, in any run whose accepted
   deposits of BTC and of USD keep to given limits, exactly when both limits fit 64 bits.
   */
  lemma FitsIffNeverFails(btc: int, usd: int)
    requires btc >= 0 && usd >= 0
    ensures btc <= MAX_INT64 && usd <= MAX_INT64 <==> NeverFails(btc, usd)
  {
    hide After, Act, AcceptedDeposits, AdmissibleAction, Failed;
    if btc > MAX_INT64 {
      LimitBroken(btc, usd, BTC);
    } else if usd > MAX_INT64 {
      LimitBroken(btc, usd, USD);
    } else {
      forall actions, a |
        (forall i | 0 <= i < |actions| :: AdmissibleAction(actions[i])) && AdmissibleAction(a)
        && AcceptedDeposits(actions, BTC) <= btc && AcceptedDeposits(actions, USD) <= usd
        ensures !Failed(Act(After(actions), a).verdict)
      {
        WorkerNeverRefused(actions, a);
      }
    }
  }

  // ---------- Two users: a trade pays into a full row ----------

  /** User 1 has USD; user 2 has one BTC and as much USD as a row can take. */
  function Two(btc: Balance, usd: Balance): Balances {
    map[Account(2, BTC) := btc, Account(2, USD) := Balance(MAX_INT64, 0), Account(1, USD) := usd]
  }

  const SALE := OrderPlaced(1, 2, DECIMALS, 1, Sell)
  const PURCHASE := OrderPlaced(2, 1, DECIMALS, 1, Buy)

  const SOLD := Entry(1, 2, DECIMALS, 1, 1, Sell)
  const BOUGHT := Entry(2, 1, DECIMALS, 1, 1, Buy)
  const SALE_TRADE := Trade(0, DECIMALS, 1, 2, 1, 1, 2)

  function SaleBook(): BookValue {
    BookValue([], [Level(DECIMALS, [SOLD])])
  }

  /** The actions up to the sale resting, all events delivered, and the purchase placed. */
  const OVERPAY: seq<Action> :=
    [ApiDeposit(2, BTC, 1)] + [Deliver(0)] + [ApiDeposit(2, USD, MAX_INT64)] + [Deliver(0)] + [ApiDeposit(1, USD, 1)]
        + [Deliver(0)]
    + [ApiPlace(1, 2, DECIMALS, 1, Sell)] + [Deliver(0)] + [ApiPlace(2, 1, DECIMALS, 1, Buy)]

  lemma SaleTrades()
    ensures PlaceOrder(EMPTY_BOOK, SOLD, 0) == PlaceResult(SaleBook(), [], Placed)
    ensures PlaceOrder(SaleBook(), BOUGHT, 0) == PlaceResult(EMPTY_BOOK, [SALE_TRADE], Filled)
  {
    var done := Reduce(BOUGHT, 1);
    assert [SOLD][1..] == [] && [Level(DECIMALS, [SOLD])][1..] == [];
    assert Sweep([], DECIMALS, done, 1) == Swept([], [], done);
    assert Sweep([SOLD], DECIMALS, BOUGHT, 0) == Swept([], [SALE_TRADE], done);
    assert Match([], done, 1) == Matched([], [], done);
    assert [SALE_TRADE] + [] == [SALE_TRADE];
    assert Match([Level(DECIMALS, [SOLD])], BOUGHT, 0) == Matched([], [SALE_TRADE], done);
  }

  lemma UnitAmount()
    ensures QuoteAmount(DECIMALS, 1) == 1
  {}

  lemma {:induction false} TwoOpens()
    ensures Credit(map[], Account(2, BTC), 1, 0) == map[Account(2, BTC) := Balance(1, 0)]
    ensures var b := map[Account(2, BTC) := Balance(1, 0)];
            var c := Credit(b, Account(2, USD), MAX_INT64, 0);
            && AllStorable(b) && AllStorable(c)
            && Credit(c, Account(1, USD), 1, 0) == Two(Balance(1, 0), Balance(1, 0))
  {
    var b := map[Account(2, BTC) := Balance(1, 0)];
    var c := Credit(b, Account(2, USD), MAX_INT64, 0);
    assert Credit(map[], Account(2, BTC), 1, 0) == b;
    assert c == map[Account(2, BTC) := Balance(1, 0), Account(2, USD) := Balance(MAX_INT64, 0)];
    assert Credit(c, Account(1, USD), 1, 0) == Two(Balance(1, 0), Balance(1, 0));
  }

  lemma {:induction false} TwoLocks(btc: Balance, usd: Balance)
    ensures Credit(Two(btc, usd), Account(2, BTC), -1, 1) == Two(Balance(btc.available - 1, btc.locked + 1), usd)
    ensures Credit(Two(btc, usd), Account(1, USD), -1, 1) == Two(btc, Balance(usd.available - 1, usd.locked + 1))
    ensures AllStorable(Two(btc, usd)) <==> Storable(btc) && Storable(usd)
    ensures Account(2, BTC) in Two(btc, usd) && Two(btc, usd)[Account(2, BTC)] == btc
    ensures Account(1, USD) in Two(btc, usd) && Two(btc, usd)[Account(1, USD)] == usd
  {
    assert Credit(Two(btc, usd), Account(2, BTC), -1, 1) == Two(Balance(btc.available - 1, btc.locked + 1), usd);
    assert Credit(Two(btc, usd), Account(1, USD), -1, 1) == Two(btc, Balance(usd.available - 1, usd.locked + 1));
    assert Two(btc, usd)[Account(2, USD)] == Balance(MAX_INT64, 0);
  }

  /** Memory takes the sale and settles the purchase. */
  lemma {:induction false} MemorySells()
    ensures Handle(State(EMPTY_BOOK, Two(Balance(1, 0), Balance(1, 0)), 0), SALE)
         == Reply(State(SaleBook(), Two(Balance(0, 1), Balance(1, 0)), 0), Done, Placed, [])
  {
    hide Credit, Credit64, PlaceOrder, Two, SaleBook;
    SaleTrades();
    TwoLocks(Balance(1, 0), Balance(1, 0));
    CreditSame(Two(Balance(1, 0), Balance(1, 0)), Account(2, BTC), -1, 1);
  }

  lemma {:induction false} MemoryBuys()
    ensures var r := Handle(State(SaleBook(), Two(Balance(0, 1), Balance(1, 0)), 0), PURCHASE);
            && r.outcome == Done && r.trades == [SALE_TRADE]
            && Get(r.state.balances, Account(2, USD)).available == -MAX_INT64 - 1
  {
    hide Credit, Credit64, PlaceOrder, Two, SaleBook, QuoteAmount, Settle;
    UnitAmount();
    SaleTrades();
    TwoLocks(Balance(0, 1), Balance(1, 0));
    CreditSame(Two(Balance(0, 1), Balance(1, 0)), Account(1, USD), -1, 1);
    TwoLocks(Balance(0, 1), Balance(0, 1));
    assert [SALE_TRADE][1..] == [];
    SellerWraps();
  }

  /** The full balance wraps around. */
  lemma {:induction false} SellerWraps()
    ensures var c := Settle(Two(Balance(0, 1), Balance(0, 1)), 1, 2, DECIMALS, 1);
            Get(c, Account(2, USD)).available == -MAX_INT64 - 1
  {
    hide QuoteAmount, WrapInt64, Two, Settle, Get;
    UnitAmount();
    FullRow(Balance(0, 1), Balance(0, 1));
    SettleFields(Two(Balance(0, 1), Balance(0, 1)), 1, 2, DECIMALS, 1);
    WrapsOver();
  }

  lemma WrapsOver()
    ensures WrapInt64(MAX_INT64 + 1) == -MAX_INT64 - 1
  {}

  lemma {:induction false} TablesSell(s: State, r: Reply)
    requires r.outcome == Done && r.trades == []
    ensures Persist(Tables(Two(Balance(1, 0), Balance(1, 0)), {1}, []), SALE, s, r)
         == Some(Tables(Two(Balance(0, 1), Balance(1, 0)), {1}, []))
  {
    hide Credit, Two, AllStorable;
    TwoLocks(Balance(1, 0), Balance(1, 0));
    TwoLocks(Balance(0, 1), Balance(1, 0));
  }

  /** The seller's USD row is full, so the settlement is refused. */
  lemma {:induction false} TablesRefuseTrade(s: State, r: Reply)
    requires r.outcome == Done && r.trades == [SALE_TRADE]
    ensures Persist(Tables(Two(Balance(0, 1), Balance(1, 0)), {1, 2}, []), PURCHASE, s, r) == None
  {
    hide Credit, AllStorable, QuoteAmount, TransferAll, DeltaOf, InsertTrades, Two;
    UnitAmount();
    TwoLocks(Balance(0, 1), Balance(1, 0));
    TwoLocks(Balance(0, 1), Balance(0, 1));
    PaidOut();
  }

  lemma {:induction false} SaleDelta()
    ensures DeltaOf([SALE_TRADE], Buy, Account(2, USD)) == Balance(1, 0)
  {
    hide QuoteAmount;
    UnitAmount();
    assert [SALE_TRADE][1..] == [];
    assert DeltaOf([], Buy, Account(2, USD)) == Balance(0, 0);
    assert TradeDelta(SALE_TRADE, Buy, Account(2, USD)) == Balance(1, 0);
  }

  lemma {:induction false} FullRow(btc: Balance, usd: Balance)
    ensures Get(Two(btc, usd), Account(2, USD)) == Balance(MAX_INT64, 0)
  {}

  lemma {:induction false} PaidOut()
    ensures !AllStorable(TransferAll(Two(Balance(0, 1), Balance(0, 1)), Buy, [SALE_TRADE]))
  {
    hide QuoteAmount, TransferAll, Credit, DeltaOf, Two, Touched;
    var rows, k := Two(Balance(0, 1), Balance(0, 1)), Account(2, USD);
    TransferAllAt(rows, Buy, [SALE_TRADE], k);
    SaleDelta();
    FullRow(Balance(0, 1), Balance(0, 1));
    assert Get(TransferAll(rows, Buy, [SALE_TRADE]), k) == Balance(MAX_INT64 + 1, 0);
  }

  function OnlyBTC(): Balances {
    map[Account(2, BTC) := Balance(1, 0)]
  }

  function BeforeSale(): Balances {
    Credit(OnlyBTC(), Account(2, USD), MAX_INT64, 0)
  }

  /** Three deposits, each delivered at once. */
  lemma {:induction false} OverpayOpens()
    ensures After([ApiDeposit(2, BTC, 1)] + [Deliver(0)] + [ApiDeposit(2, USD, MAX_INT64)] + [Deliver(0)]
                  + [ApiDeposit(1, USD, 1)] + [Deliver(0)])
         == World([DepositCreated(2, BTC, 1), DepositCreated(2, USD, MAX_INT64), DepositCreated(1, USD, 1)], [],
                  Tables(Two(Balance(1, 0), Balance(1, 0)), {}, []))
    ensures Run(INITIAL, [DepositCreated(2, BTC, 1), DepositCreated(2, USD, MAX_INT64), DepositCreated(1, USD, 1)])
         == State(EMPTY_BOOK, Two(Balance(1, 0), Balance(1, 0)), 0)
  {
    hide After, Run, Credit, Two, OnlyBTC, BeforeSale, AllStorable;
    OpenRows();
    AfterEmpty();
    RunEmpty(INITIAL);
    var w0 := World([], [], Tables(map[], {}, []));
    DepositAndDeliver([], w0, State(EMPTY_BOOK, map[], 0), 2, BTC, 1, OnlyBTC());
    var w1 := World([DepositCreated(2, BTC, 1)], [], Tables(OnlyBTC(), {}, []));
    assert [] + [DepositCreated(2, BTC, 1)] == [DepositCreated(2, BTC, 1)]
        && [] + [ApiDeposit(2, BTC, 1)] == [ApiDeposit(2, BTC, 1)];
    DepositAndDeliver([ApiDeposit(2, BTC, 1)] + [Deliver(0)], w1, State(EMPTY_BOOK, OnlyBTC(), 0), 2, USD, MAX_INT64,
        BeforeSale());
    var w2 := World([DepositCreated(2, BTC, 1), DepositCreated(2, USD, MAX_INT64)], [], Tables(BeforeSale(), {}, []));
    DepositAndDeliver([ApiDeposit(2, BTC, 1)] + [Deliver(0)] + [ApiDeposit(2, USD, MAX_INT64)] + [Deliver(0)],
                      w2, State(EMPTY_BOOK, BeforeSale(), 0), 1, USD, 1, Two(Balance(1, 0), Balance(1, 0)));
  }

  lemma {:induction false} OpenRows()
    ensures Credit(map[], Account(2, BTC), 1, 0) == OnlyBTC() && AllStorable(OnlyBTC())
    ensures Credit(OnlyBTC(), Account(2, USD), MAX_INT64, 0) == BeforeSale() && AllStorable(BeforeSale())
    ensures Credit(BeforeSale(), Account(1, USD), 1, 0) == Two(Balance(1, 0), Balance(1, 0))
    ensures AllStorable(Two(Balance(1, 0), Balance(1, 0)))
  {
    TwoOpens();
    TwoLocks(Balance(1, 0), Balance(1, 0));
  }

  lemma {:induction false} DepositSame(b: Balances, k: Account, amount: int, rows: Balances)
    requires Credit(b, k, amount, 0) == rows && AllStorable(rows)
    ensures Deposit(b, k, amount) == rows
  {
    hide WrapInt64;
    assert Storable(rows[k]);
    CreditSame(b, k, amount, 0);
  }

  /** A deposit accepted and delivered, tables and memory holding the same before and after. */
  lemma {:induction false} DepositAndDeliver(front: seq<Action>, w: World, s: State, user: Uuid, a: Asset, amount: int,
                                             rows: Balances)
    requires After(front) == w && w.pending == [] && Run(INITIAL, w.delivered) == s && s.balances == w.db.balances
    requires Credit(s.balances, Account(user, a), amount, 0) == rows && AllStorable(rows) && 0 <= amount <= MAX_INT64
    ensures After(front + [ApiDeposit(user, a, amount)] + [Deliver(0)])
         == World(w.delivered + [DepositCreated(user, a, amount)], [], w.db.(balances := rows))
    ensures Run(INITIAL, w.delivered + [DepositCreated(user, a, amount)]) == s.(balances := rows)
  {
    hide After, Run, Credit, AllStorable, Handle, Persist;
    var e := DepositCreated(user, a, amount);
    AfterSnoc(front, ApiDeposit(user, a, amount));
    AcceptDeposit(w, user, a, amount, rows);
    assert [] + [e] == [e] && Dropped([e], 0) == [];
    AfterSnoc(front + [ApiDeposit(user, a, amount)], Deliver(0));
    var w1 := World(w.delivered, [e], w.db.(balances := rows));
    HandleIs(s, e);
    DepositSame(s.balances, Account(user, a), amount, rows);
    PersistIs(w1.db, e, s, Handle(s, e));
    DeliverStep(w1, 0, s, Handle(s, e), Some(w1.db));
  }

  /**
   Deposits of 2^63 USD in all, each accepted: one user's row is full, the other's one unit buys from
   the first. Memory settles the trade, the seller's available balance wrapping around to -2^63, and
   the tables refuse it.
   */
  lemma {:induction false} OverfullTradeRefused()
    ensures forall i | 0 <= i < |OVERPAY| :: AdmissibleAction(OVERPAY[i])
    ensures AcceptedDeposits(OVERPAY, USD) == MAX_INT64 + 1
    ensures Act(After(OVERPAY), Deliver(0)).verdict == WorkerRefused
    ensures Get(Act(After(OVERPAY), Deliver(0)).world.Memory().balances, Account(2, USD)).available == -MAX_INT64 - 1
  {
    hide After, Run, Two, Handle, Persist, Total, SaleBook, AcceptedDeposits;
    var open := [ApiDeposit(2, BTC, 1)] + [Deliver(0)] + [ApiDeposit(2, USD, MAX_INT64)] + [Deliver(0)]
                + [ApiDeposit(1, USD, 1)] + [Deliver(0)];
    var deposits := [DepositCreated(2, BTC, 1), DepositCreated(2, USD, MAX_INT64), DepositCreated(1, USD, 1)];
    var sell, buy := ApiPlace(1, 2, DECIMALS, 1, Sell), ApiPlace(2, 1, DECIMALS, 1, Buy);
    OverpayOpens();
    AfterSnoc(open, sell);
    assert [] + [SALE] == [SALE] && [] + [PURCHASE] == [PURCHASE] && Dropped([SALE], 0) == [];
    var w1 := World(deposits, [SALE], Tables(Two(Balance(1, 0), Balance(1, 0)), {1}, []));
    assert After(open + [sell]) == w1;
    var s := State(EMPTY_BOOK, Two(Balance(1, 0), Balance(1, 0)), 0);
    AfterSnoc(open + [sell], Deliver(0));
    MemorySells();
    TablesSell(s, Handle(s, SALE));
    DeliverStep(w1, 0, s, Handle(s, SALE), Some(Tables(Two(Balance(0, 1), Balance(1, 0)), {1}, [])));
    AfterSnoc(open + [sell] + [Deliver(0)], buy);
    var w2 := World(deposits + [SALE], [PURCHASE], Tables(Two(Balance(0, 1), Balance(1, 0)), {1, 2}, []));
    assert {1} + {2} == {1, 2};
    assert After(OVERPAY) == w2;
    var t := State(SaleBook(), Two(Balance(0, 1), Balance(1, 0)), 0);
    MemoryBuys();
    TablesRefuseTrade(t, Handle(t, PURCHASE));
    DeliverStep(w2, 0, t, Handle(t, PURCHASE), None);
    RowsConserve(OVERPAY, USD);
    TwoTotal(Balance(0, 1), Balance(1, 0));
  }

  lemma {:induction false} TwoTotal(btc: Balance, usd: Balance)
    ensures Total(Two(btc, usd), USD) == MAX_INT64 + usd.available + usd.locked
  {
    hide Total;
    var b := Two(btc, usd);
    var c := b - {Account(2, USD)};
    var d := c - {Account(1, USD)};
    TotalWithout(b, Account(2, USD), USD);
    TotalWithout(c, Account(1, USD), USD);
    TotalWithout(d, Account(2, BTC), USD);
    assert d - {Account(2, BTC)} == map[];
    TotalNone();
  }

  lemma TotalNone()
    ensures Total(map[], USD) == 0
  {}
}
