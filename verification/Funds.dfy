/** Users' balances as a value: locking, unlocking, depositing and settling, and conservation. */
module Funds {
  import opened Domain

  /** The two traded assets; deposits may name any other symbol. */
  datatype Asset = BTC | USD | Other(symbol: string)

  datatype Account = Account(user: Uuid, asset: Asset)

  datatype Balance = Balance(available: int, locked: int)

  type Balances = map<Account, Balance>

  /** An account's balance, zero if there is none. */
  function Get(b: Balances, k: Account): Balance {
    if k in b then b[k] else Balance(0, 0)
  }

  /** Adds to both fields of an account, opening it if needed. */
  function Credit(b: Balances, k: Account, available: int, locked: int): Balances {
    b[k := Balance(Get(b, k).available + available, Get(b, k).locked + locked)]
  }

  /** The same on the cache's fields, which are signed 64-bit integers and wrap around. */
  function Credit64(b: Balances, k: Account, available: int, locked: int): Balances {
    b[k := Balance(WrapInt64(Get(b, k).available + available), WrapInt64(Get(b, k).locked + locked))]
  }

  // ---------- The cache's operations ----------

  function LockFunds(b: Balances, k: Account, amount: int): Option<Balances> {
    if k !in b || b[k].available < amount then None
    else Some(Credit64(b, k, -amount, amount))
  }

  function UnlockFunds(b: Balances, k: Account, amount: int): Option<Balances> {
    if k !in b || b[k].locked < amount then None
    else Some(Credit64(b, k, amount, -amount))
  }

  function Deposit(b: Balances, k: Account, amount: int): Balances {
    Credit64(b, k, amount, 0)
  }

  /** What a trade does in the cache: the transfers below, on 64-bit fields. */
  function Settle(b: Balances, buyer: Uuid, seller: Uuid, price: int, size: int): Balances {
    var amount := QuoteAmount(price, size);
    var b1 := Credit64(b, Account(buyer, USD), 0, -amount);
    var b2 := Credit64(b1, Account(buyer, BTC), size, 0);
    var b3 := Credit64(b2, Account(seller, BTC), 0, -size);
    Credit64(b3, Account(seller, USD), amount, 0)
  }

  /** The transfers of a trade: the buyer pays locked USD for BTC, the seller locked BTC for USD. */
  function Transfer(b: Balances, buyer: Uuid, seller: Uuid, price: int, size: int): Balances {
    var amount := QuoteAmount(price, size);
    var b1 := Credit(b, Account(buyer, USD), 0, -amount);
    var b2 := Credit(b1, Account(buyer, BTC), size, 0);
    var b3 := Credit(b2, Account(seller, BTC), 0, -size);
    Credit(b3, Account(seller, USD), amount, 0)
  }

  predicate CanSettle(b: Balances, buyer: Uuid, seller: Uuid, price: int, size: int) {
    && Account(buyer, USD) in b && b[Account(buyer, USD)].locked >= QuoteAmount(price, size)
    && Account(seller, BTC) in b && b[Account(seller, BTC)].locked >= size
  }

  function SettleTrade(b: Balances, buyer: Uuid, seller: Uuid, price: int, size: int): Option<Balances> {
    if CanSettle(b, buyer, seller, price, size) then Some(Settle(b, buyer, seller, price, size)) else None
  }

  // ---------- Conservation ----------

  function Held(b: Balances, k: Account, a: Asset): int {
    if k.asset == a then Get(b, k).available + Get(b, k).locked else 0
  }

  /** All of an asset held by all users, available or locked. */
  ghost function Total(b: Balances, a: Asset): int {
    if b == map[] then 0
    else
      var k :| k in b;
      Held(b, k, a) + Total(b - {k}, a)
  }

  /** The total does not depend on the order in which accounts are counted. */
  lemma {:induction false} TotalWithout(b: Balances, k: Account, a: Asset)
    requires k in b
    ensures Total(b, a) == Held(b, k, a) + Total(b - {k}, a)
    decreases |b|
  {
    var first: Account :| first in b && Total(b, a) == Held(b, first, a) + Total(b - {first}, a);
    if first != k {
      TotalWithout(b - {first}, k, a);
      TotalWithout(b - {k}, first, a);
      assert b - {first} - {k} == b - {k} - {first};
      assert Held(b - {first}, k, a) == Held(b, k, a) && Held(b - {k}, first, a) == Held(b, first, a);
    }
  }

  /** A credit changes its asset's total by exactly what it adds, and no other asset's. */
  lemma {:induction false} TotalCredit(b: Balances, k: Account, available: int, locked: int, a: Asset)
    ensures Total(Credit(b, k, available, locked), a) == Total(b, a) + if k.asset == a then available + locked else 0
  {
    var c := Credit(b, k, available, locked);
    TotalWithout(c, k, a);
    assert c - {k} == b - {k};
    if k in b {
      TotalWithout(b, k, a);
    } else {
      assert b - {k} == b;
    }
  }

  lemma {:induction false} TransferConserves(b: Balances, buyer: Uuid, seller: Uuid, price: int, size: int, a: Asset)
    ensures Total(Transfer(b, buyer, seller, price, size), a) == Total(b, a)
  {
    hide Total, QuoteAmount, Credit;
    var amount := QuoteAmount(price, size);
    var b1 := Credit(b, Account(buyer, USD), 0, -amount);
    var b2 := Credit(b1, Account(buyer, BTC), size, 0);
    var b3 := Credit(b2, Account(seller, BTC), 0, -size);
    TotalCredit(b, Account(buyer, USD), 0, -amount, a);
    TotalCredit(b1, Account(buyer, BTC), size, 0, a);
    TotalCredit(b2, Account(seller, BTC), 0, -size, a);
    TotalCredit(b3, Account(seller, USD), amount, 0, a);
  }

  // ---------- Conservation modulo 2^64, whatever wraps ----------

  predicate Congruent(x: int, y: int) {
    (x - y) % (2 * (MAX_INT64 + 1)) == 0
  }

  lemma WrapCongruent(x: int)
    ensures Congruent(WrapInt64(x), x)
  {}

  lemma CongruentSums(x: int, y: int, x': int, y': int)
    requires Congruent(x, y) && Congruent(x', y')
    ensures Congruent(x + x', y + y') && Congruent(y, x)
  {}

  /** A credit of the cache changes its asset's total by what it adds, modulo 2^64. */
  lemma {:induction false} Credit64Total(b: Balances, k: Account, available: int, locked: int, a: Asset)
    ensures Congruent(Total(Credit64(b, k, available, locked), a),
                      Total(b, a) + if k.asset == a then available + locked else 0)
  {
    hide Total, WrapInt64, Congruent;
    var x := WrapInt64(Get(b, k).available + available) - Get(b, k).available;
    var y := WrapInt64(Get(b, k).locked + locked) - Get(b, k).locked;
    assert Credit64(b, k, available, locked) == Credit(b, k, x, y);
    TotalCredit(b, k, x, y, a);
    WrapCongruent(Get(b, k).available + available);
    WrapCongruent(Get(b, k).locked + locked);
    CongruentShift(Total(b, a), x, y, available, locked, Get(b, k).available, Get(b, k).locked);
  }

  lemma CongruentShift(total: int, x: int, y: int, available: int, locked: int, had: int, held: int)
    requires Congruent(had + x, had + available) && Congruent(held + y, held + locked)
    ensures Congruent(total + x + y, total + available + locked) && Congruent(total, total)
  {
    CongruentSums(had + x, had + available, held + y, held + locked);
  }

  /** Locking, unlocking and settling conserve every asset modulo 2^64; a deposit adds its amount to its own. */
  lemma {:induction false} OperationsConserve(b: Balances, k: Account, amount: int, buyer: Uuid, seller: Uuid,
                                              price: int, size: int, a: Asset)
    ensures LockFunds(b, k, amount).Some? ==> Congruent(Total(LockFunds(b, k, amount).value, a), Total(b, a))
    ensures UnlockFunds(b, k, amount).Some? ==> Congruent(Total(UnlockFunds(b, k, amount).value, a), Total(b, a))
    ensures Congruent(Total(Settle(b, buyer, seller, price, size), a), Total(b, a))
    ensures Congruent(Total(Deposit(b, k, amount), a), Total(b, a) + if k.asset == a then amount else 0)
  {
    hide Total, Credit64, Congruent;
    Credit64Total(b, k, -amount, amount, a);
    Credit64Total(b, k, amount, -amount, a);
    Credit64Total(b, k, amount, 0, a);
    SettleConserves(b, buyer, seller, price, size, a);
  }

  lemma {:induction false} SettleConserves(b: Balances, buyer: Uuid, seller: Uuid, price: int, size: int, a: Asset)
    ensures Congruent(Total(Settle(b, buyer, seller, price, size), a), Total(b, a))
  {
    hide Total, QuoteAmount, Credit64, Congruent;
    var amount := QuoteAmount(price, size);
    var b1 := Credit64(b, Account(buyer, USD), 0, -amount);
    var b2 := Credit64(b1, Account(buyer, BTC), size, 0);
    var b3 := Credit64(b2, Account(seller, BTC), 0, -size);
    Credit64Total(b, Account(buyer, USD), 0, -amount, a);
    Credit64Total(b1, Account(buyer, BTC), size, 0, a);
    Credit64Total(b2, Account(seller, BTC), 0, -size, a);
    Credit64Total(b3, Account(seller, USD), amount, 0, a);
    var usd, btc := if a == USD then amount else 0, if a == BTC then size else 0;
    FourLegs(Total(b, a), Total(b1, a), Total(b2, a), Total(b3, a), Total(Settle(b, buyer, seller, price, size), a),
        usd, btc);
  }

  lemma FourLegs(t0: int, t1: int, t2: int, t3: int, t4: int, usd: int, btc: int)
    requires Congruent(t1, t0 - usd) && Congruent(t2, t1 + btc) && Congruent(t3, t2 - btc) && Congruent(t4, t3 + usd)
    ensures Congruent(t4, t0)
  {}

  // ---------- While what is held fits 64 bits, nothing wraps ----------

  /** No account of an asset is negative. */
  predicate NonNegativeIn(b: Balances, a: Asset) {
    forall k | k in b && k.asset == a :: b[k].available >= 0 && b[k].locked >= 0
  }

  /** No account of a traded asset is negative. */
  predicate NonNegative(b: Balances) {
    NonNegativeIn(b, BTC) && NonNegativeIn(b, USD)
  }

  /** All that users hold of BTC, and all they hold of USD, fits 64 bits. */
  ghost predicate TotalsFit(b: Balances) {
    Total(b, BTC) <= MAX_INT64 && Total(b, USD) <= MAX_INT64
  }

  predicate IsTraded(k: Account) {
    k.asset == BTC || k.asset == USD
  }

  lemma {:induction false} TotalNonNegative(b: Balances, a: Asset)
    requires NonNegativeIn(b, a)
    ensures Total(b, a) >= 0
    decreases |b|
  {
    if b != map[] {
      var k :| k in b;
      TotalWithout(b, k, a);
      TotalNonNegative(b - {k}, a);
    }
  }

  /** No account holds more than its asset's total, so no field overflows while the total fits. */
  lemma {:induction false} AccountBound(b: Balances, k: Account)
    requires NonNegativeIn(b, k.asset) && k in b
    ensures 0 <= b[k].available <= Total(b, k.asset) && 0 <= b[k].locked <= Total(b, k.asset)
    ensures b[k].available + b[k].locked <= Total(b, k.asset)
  {
    TotalWithout(b, k, k.asset);
    TotalNonNegative(b - {k}, k.asset);
  }

  predicate InInt64(x: int) {
    -MAX_INT64 - 1 <= x <= MAX_INT64
  }

  /** Wrapping changes a number just when it is out of range. */
  lemma WrapIffOut(x: int)
    ensures WrapInt64(x) == x <==> InInt64(x)
  {}

  lemma {:induction false} CreditSame(b: Balances, k: Account, available: int, locked: int)
    requires InInt64(Get(b, k).available + available) && InInt64(Get(b, k).locked + locked)
    ensures Credit64(b, k, available, locked) == Credit(b, k, available, locked)
  {
    hide WrapInt64;
    WrapIffOut(Get(b, k).available + available);
    WrapIffOut(Get(b, k).locked + locked);
  }

  /** What a settlement leaves locked of the buyer's USD, and available of the seller's. */
  lemma {:induction false} SettleFields(b: Balances, buyer: Uuid, seller: Uuid, price: int, size: int)
    requires buyer != seller
    ensures var c := Settle(b, buyer, seller, price, size);
            var amount := QuoteAmount(price, size);
            && Get(c, Account(buyer, USD)).locked == WrapInt64(Get(b, Account(buyer, USD)).locked - amount)
            && Get(c, Account(seller, USD)).available == WrapInt64(Get(b, Account(seller, USD)).available + amount)
  {
    hide QuoteAmount, WrapInt64;
  }

  /** A lock or an unlock of a traded asset that finds the funds adds nothing that overflows. */
  lemma {:induction false} MoveSame(b: Balances, k: Account, amount: int)
    requires NonNegative(b) && TotalsFit(b) && IsTraded(k) && k in b
    requires -b[k].locked <= amount <= b[k].available
    ensures Credit64(b, k, -amount, amount) == Credit(b, k, -amount, amount)
  {
    hide Total;
    AccountBound(b, k);
    CreditSame(b, k, -amount, amount);
  }

  /** What a transfer moves, field by field. */
  lemma {:induction false} TransferFields(b: Balances, buyer: Uuid, seller: Uuid, price: int, size: int)
    ensures var c := Transfer(b, buyer, seller, price, size);
            var amount := QuoteAmount(price, size);
            && Get(c, Account(buyer, USD)).locked == Get(b, Account(buyer, USD)).locked - amount
            && Get(c, Account(buyer, BTC)).available == Get(b, Account(buyer, BTC)).available + size
            && Get(c, Account(seller, BTC)).locked == Get(b, Account(seller, BTC)).locked - size
            && Get(c, Account(seller, USD)).available == Get(b, Account(seller, USD)).available + amount
            && (forall k | k in b && !IsTraded(k) :: k in c && c[k] == b[k])
            && (forall k | k in b :: k in c)
  {
    hide QuoteAmount;
  }

  lemma {:induction false} TransferNonNegative(b: Balances, buyer: Uuid, seller: Uuid, price: int, size: int)
    requires NonNegative(b) && CanSettle(b, buyer, seller, price, size) && size >= 0 && QuoteAmount(price, size) >= 0
    ensures NonNegative(Transfer(b, buyer, seller, price, size))
  {
    hide QuoteAmount;
  }

  /** Nothing overflows in a settlement, and what is held still fits. */
  lemma {:induction false} SettleSame(b: Balances, buyer: Uuid, seller: Uuid, price: int, size: int)
    requires NonNegative(b) && TotalsFit(b) && CanSettle(b, buyer, seller, price, size)
    requires size >= 0 && QuoteAmount(price, size) >= 0
    ensures Settle(b, buyer, seller, price, size) == Transfer(b, buyer, seller, price, size)
    ensures var c := Transfer(b, buyer, seller, price, size); NonNegative(c) && TotalsFit(c)
  {
    hide QuoteAmount, Total, Credit, Credit64, Transfer, InInt64;
    var c := Transfer(b, buyer, seller, price, size);
    TransferNonNegative(b, buyer, seller, price, size);
    TransferConserves(b, buyer, seller, price, size, BTC);
    TransferConserves(b, buyer, seller, price, size, USD);
    TransferFields(b, buyer, seller, price, size);
    LegsSame(b, c, buyer, seller, price, size);
  }

  /** An account of a traded asset stays in range while what is held of the asset fits. */
  lemma {:induction false} FieldsInRange(b: Balances, k: Account)
    requires NonNegative(b) && TotalsFit(b) && IsTraded(k)
    ensures 0 <= Get(b, k).available <= MAX_INT64 && 0 <= Get(b, k).locked <= MAX_INT64
  {
    hide Total;
    if k in b {
      AccountBound(b, k);
    }
  }

  lemma {:induction false} CreditFields(b: Balances, k: Account, available: int, locked: int, x: Account)
    ensures Get(Credit(b, k, available, locked), x)
         == if x == k then Balance(Get(b, k).available + available, Get(b, k).locked + locked) else Get(b, x)
  {}

  lemma {:induction false} LegsSame(b: Balances, c: Balances, buyer: Uuid, seller: Uuid, price: int, size: int)
    requires NonNegative(b) && TotalsFit(b) && NonNegative(c) && TotalsFit(c)
    requires c == Transfer(b, buyer, seller, price, size) && CanSettle(b, buyer, seller, price, size)
    requires size >= 0 && QuoteAmount(price, size) >= 0
    ensures Settle(b, buyer, seller, price, size) == c
  {
    hide QuoteAmount, Total, Credit, Credit64, Get;
    var amount := QuoteAmount(price, size);
    var usd, btc := Account(buyer, USD), Account(buyer, BTC);
    var btc', usd' := Account(seller, BTC), Account(seller, USD);
    var b1 := Credit(b, usd, 0, -amount);
    var b2 := Credit(b1, btc, size, 0);
    var b3 := Credit(b2, btc', 0, -size);
    TransferFields(b, buyer, seller, price, size);
    HasFunds(b, buyer, seller, price, size);
    FieldsInRange(b, usd);
    FieldsInRange(b, btc);
    FieldsInRange(b, btc');
    FieldsInRange(b, usd');
    FieldsInRange(c, btc);
    FieldsInRange(c, usd');
    CreditFields(b, usd, 0, -amount, btc);
    CreditFields(b, usd, 0, -amount, btc');
    CreditFields(b, usd, 0, -amount, usd');
    CreditFields(b1, btc, size, 0, btc');
    CreditFields(b1, btc, size, 0, usd');
    CreditFields(b2, btc', 0, -size, usd');
    CreditSame(b, usd, 0, -amount);
    CreditSame(b1, btc, size, 0);
    CreditSame(b2, btc', 0, -size);
    CreditSame(b3, usd', amount, 0);
  }

  lemma {:induction false} HasFunds(b: Balances, buyer: Uuid, seller: Uuid, price: int, size: int)
    requires CanSettle(b, buyer, seller, price, size)
    ensures Get(b, Account(buyer, USD)).locked >= QuoteAmount(price, size)
    ensures Get(b, Account(seller, BTC)).locked >= size
  {
    hide QuoteAmount;
  }

  /**
   While no traded account is negative and what is held fits 64 bits, the operations of the cache are
   those on unbounded integers, and keep it so; a deposit does if what is held fits after it too.
   */
  lemma {:induction false} OperationsExact(b: Balances, k: Account, amount: int, buyer: Uuid, seller: Uuid,
                                           price: int, size: int)
    requires NonNegative(b) && TotalsFit(b) && IsTraded(k) && amount >= 0 && size >= 0 && QuoteAmount(price, size) >= 0
    ensures var r := LockFunds(b, k, amount);
            r.Some? ==> r.value == Credit(b, k, -amount, amount) && NonNegative(r.value) && TotalsFit(r.value)
    ensures var r := UnlockFunds(b, k, amount);
            r.Some? ==> r.value == Credit(b, k, amount, -amount) && NonNegative(r.value) && TotalsFit(r.value)
    ensures var r := SettleTrade(b, buyer, seller, price, size);
            r.Some? ==>
              r.value == Transfer(b, buyer, seller, price, size) && NonNegative(r.value) && TotalsFit(r.value)
    ensures Total(b, k.asset) + amount <= MAX_INT64 ==>
              var c := Deposit(b, k, amount); c == Credit(b, k, amount, 0) && NonNegative(c) && TotalsFit(c)
  {
    hide Total, QuoteAmount, Credit64, Settle, Transfer;
    if LockFunds(b, k, amount).Some? {
      MoveExact(b, k, amount);
    }
    if UnlockFunds(b, k, amount).Some? {
      MoveExact(b, k, -amount);
    }
    if SettleTrade(b, buyer, seller, price, size).Some? {
      SettleSame(b, buyer, seller, price, size);
    }
    if Total(b, k.asset) + amount <= MAX_INT64 {
      DepositExact(b, k, amount);
    }
  }

  lemma {:induction false} MoveExact(b: Balances, k: Account, amount: int)
    requires NonNegative(b) && TotalsFit(b) && IsTraded(k) && k in b
    requires -b[k].locked <= amount <= b[k].available
    ensures var c := Credit64(b, k, -amount, amount);
            c == Credit(b, k, -amount, amount) && NonNegative(c) && TotalsFit(c)
  {
    hide Total, Credit64;
    MoveSame(b, k, amount);
    TotalCredit(b, k, -amount, amount, BTC);
    TotalCredit(b, k, -amount, amount, USD);
  }

  lemma {:induction false} DepositExact(b: Balances, k: Account, amount: int)
    requires NonNegative(b) && TotalsFit(b) && IsTraded(k) && amount >= 0 && Total(b, k.asset) + amount <= MAX_INT64
    ensures var c := Deposit(b, k, amount); c == Credit(b, k, amount, 0) && NonNegative(c) && TotalsFit(c)
  {
    hide Total, Credit64;
    TotalCredit(b, k, amount, 0, BTC);
    TotalCredit(b, k, amount, 0, USD);
    TotalNonNegative(b, k.asset);
    FieldsInRange(b, k);
    FieldsInRange(Credit(b, k, amount, 0), k);
    CreditSame(b, k, amount, 0);
  }
}
