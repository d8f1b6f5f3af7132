/** Orders, trades and the fixed-point amount arithmetic of the exchange. */
module Domain {

  type Uuid = nat

  datatype Option<+T> = None | Some(value: T)

  datatype Side = Buy | Sell {
    function Opposite(): Side {
      if Buy? then Sell else Buy
    }
  }

  datatype Status = New | Placed | Partial | Filled | Cancelled | Rejected

  /** The value of one order; `remaining` is what is still open of `quantity`. */
  datatype Entry = Entry(id: Uuid, user: Uuid, price: int, quantity: int, remaining: int, side: Side)

  datatype Trade = Trade(id: Uuid, price: int, quantity: int,
                         takerOrder: Uuid, makerOrder: Uuid, takerUser: Uuid, makerUser: Uuid)

  function Min(a: int, b: int): int {
    if a <= b then a else b
  }

  // ---------- Fixed-point amounts ----------

  const DECIMALS: int := 100_000_000
  const MAX_INT32: int := 0x7FFF_FFFF
  const MAX_INT64: int := 0x7FFF_FFFF_FFFF_FFFF

  /** big.Int's Quo: division that truncates toward zero. */
  function Quo(a: int, d: int): int
    requires d > 0
  {
    if a >= 0 then a / d else -((-a) / d)
  }

  /** big.Int's Int64(): keeps the low 64 bits, read as a signed number. */
  function WrapInt64(x: int): int {
    (x + MAX_INT64 + 1) % (2 * (MAX_INT64 + 1)) - (MAX_INT64 + 1)
  }

  /** The quote (USD) amount of `quantity` units at `price`, as the code computes it. */
  function QuoteAmount(price: int, quantity: int): int {
    WrapInt64(Quo(price * quantity, DECIMALS))
  }

  /** What a caller can check before placing an order: its amount fits a signed 64-bit integer. */
  predicate QuoteFits(price: int, quantity: int) {
    price >= 0 && quantity >= 0 && price * quantity / DECIMALS <= MAX_INT64
  }

  /** The 64-bit amount is the exact floor precisely when that floor fits. */
  lemma QuoteExactIffFits(price: int, quantity: int)
    requires price >= 0 && quantity >= 0
    ensures QuoteFits(price, quantity) <==> QuoteAmount(price, quantity) == price * quantity / DECIMALS
    ensures QuoteFits(price, quantity) ==> QuoteAmount(price, quantity) >= 0
  {
    assert price * quantity >= 0;
  }

  lemma MulMonotone(a: int, b: int, c: int, d: int)
    requires 0 <= a <= c && 0 <= b <= d
    ensures a * b <= c * d
  {
    assert a * b <= c * b;
    assert c * b <= c * d;
  }

  /** A smaller price and quantity give an amount that fits and is no larger. */
  lemma QuoteMonotone(p: int, q: int, price: int, quantity: int)
    requires 0 <= p <= price && 0 <= q <= quantity && QuoteFits(price, quantity)
    ensures QuoteFits(p, q)
    ensures 0 <= QuoteAmount(p, q) <= QuoteAmount(price, quantity)
  {
    MulMonotone(p, q, price, quantity);
    QuoteExactIffFits(price, quantity);
    QuoteExactIffFits(p, q);
  }

  /** Floor division is superadditive: splitting a quantity loses at most one unit. */
  lemma QuoteSplit(price: int, a: int, b: int)
    requires 0 <= a && 0 <= b && QuoteFits(price, a + b)
    ensures QuoteFits(price, a) && QuoteFits(price, b)
    ensures QuoteAmount(price, a) + QuoteAmount(price, b)
         <= QuoteAmount(price, a + b)
         <= QuoteAmount(price, a) + QuoteAmount(price, b) + 1
  {
    assert price * (a + b) == price * a + price * b;
    QuoteMonotone(price, a, price, a + b);
    QuoteMonotone(price, b, price, a + b);
    QuoteExactIffFits(price, a);
    QuoteExactIffFits(price, b);
    QuoteExactIffFits(price, a + b);
  }
}
