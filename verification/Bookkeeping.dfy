/**
 * The bookkeeping of a swap, an add and a remove across a pool and a portfolio
 * (internal/bridge/onexswap.go, portfolio.go), on values.
 */
module Bookkeeping {
  import opened Numbers
  import opened Results
  import opened Sums
  import opened Sorting
  import opened Amounts
  import opened Amm

  type Balances = map<string, u64>

  /** Every pool of the store and every cached portfolio. */
  datatype Books = Books(pools: map<string, PoolState>, wallets: map<string, Balances>)

  datatype BookError =
    | BadAmount
    | NoPool
    | PoolRefused(e: AmmError)
    | SlippageExceeded
    | InsufficientBalance

  function Bal(m: Balances, k: string): u64 {
    if k in m then m[k] else 0
  }

  /** AddBalance: wraps silently. */
  function Plus(m: Balances, k: string, d: u64): Balances {
    m[k := Add64(Bal(m, k), d)]
  }

  function Minus(m: Balances, k: string, d: u64): Balances
    requires d <= Bal(m, k)
  {
    m[k := Bal(m, k) - d]
  }

  function LpKey(id: string): string {
    "lp:" + id
  }

  /** Go's uint64 arithmetic: a slippage above 10000 makes the factor a huge number. */
  function MinOut(expected: u64, slippageBps: int): u64 {
    if 0 < slippageBps then Low64(expected * Low64(10000 - slippageBps)) / 10000 else expected
  }

  // ----- the three operations on one wallet's balances -----

  datatype Swapped = Swapped(pool: PoolState, balances: Balances, amountIn: u64, out: u64)

  function SwapOn(pools: map<string, PoolState>, m: Balances, tokenIn: string, tokenOut: string,
                amount: string, slippageBps: int): Result<Swapped, BookError>
  {
    match ParsedAmount(amount)
    case None => Failure(BadAmount)
    case Some(a) =>
      var id := PoolID(tokenIn, tokenOut);
      if id !in pools then Failure(NoPool)
      else
        match QuoteSwap(pools[id], tokenIn, a)
        case Failure(e) => Failure(PoolRefused(e))
        case Success(out) =>
          if out < MinOut(out, slippageBps) then Failure(SlippageExceeded)
          else if Bal(m, tokenIn) < a then Failure(InsufficientBalance)
          else Success(Swapped(AfterSwap(pools[id], tokenIn, a, out),
                               Plus(Minus(m, tokenIn, a), tokenOut, out), a, out))
  }

  /** The pool an add works on, with its two amounts: a new pool is put in token order, a found one is not. */
  function AddTarget(pools: map<string, PoolState>, token0: string, token1: string, a0: u64, a1: u64)
    : (PoolState, string, string, u64, u64)
  {
    var id := PoolID(token0, token1);
    if id in pools then (pools[id], token0, token1, a0, a1)
    else if !Le(token0, token1)
      then (PoolState(id, token1, token0, 0, 0, 0, DEFAULT_FEE_BPS), token1, token0, a1, a0)
    else (PoolState(id, token0, token1, 0, 0, 0, DEFAULT_FEE_BPS), token0, token1, a0, a1)
  }

  datatype Added = Added(pool: PoolState, shares: u64)

  /**
   * The result, and the balances the portfolio is left with. The two deductions are made one after
   * the other on the cached portfolio, so when the second is refused the first stays.
   */
  function AddTo(pools: map<string, PoolState>, m: Balances, token0: string, token1: string,
               amount0: string, amount1: string): (Result<Added, BookError>, Balances)
  {
    match (ParsedAmount(amount0), ParsedAmount(amount1))
    case (Some(x0), Some(x1)) =>
      var (pool, t0, t1, a0, a1) := AddTarget(pools, token0, token1, x0, x1);
      (match QuoteAdd(pool, a0, a1)
       case Failure(e) => (Failure(PoolRefused(e)), m)
       case Success(shares) => Deposit(pool, m, t0, t1, a0, a1, shares))
    case _ => (Failure(BadAmount), m)
  }

  function Deposit(pool: PoolState, m: Balances, t0: string, t1: string, a0: u64, a1: u64, shares: u64)
    : (Result<Added, BookError>, Balances)
  {
    if Bal(m, t0) < a0 then (Failure(InsufficientBalance), m)
    else
      var paid0 := Minus(m, t0, a0);
      if Bal(paid0, t1) < a1 then (Failure(InsufficientBalance), paid0)
      else
        (Success(Added(AfterAdd(pool, a0, a1, shares), shares)),
         Plus(Minus(paid0, t1, a1), LpKey(pool.id), shares))
  }

  datatype Removed = Removed(pool: PoolState, balances: Balances, amount0: u64, amount1: u64)

  function RemoveFrom(pools: map<string, PoolState>, m: Balances, id: string, given: u64): Result<Removed, BookError> {
    if id !in pools then Failure(NoPool)
    else
      var p := pools[id];
      var burn := BurnOf(p, given);
      if burn <= 0 then Failure(PoolRefused(InvalidShares))
      else if Bal(m, LpKey(id)) < given then Failure(InsufficientBalance)
      else
        var (r0, r1) := Redeem(p, burn);
        var (a0, a1) := (Low64(r0), Low64(r1));
        Success(Removed(AfterRemove(p, burn),
                        Plus(Plus(Minus(m, LpKey(id), given), p.token0, a0), p.token1, a1), a0, a1))
  }

  // ----- what is held of a token, everywhere -----

  function ReserveOf(p: PoolState, k: string): nat {
    (if k == p.token0 then p.reserve0 else 0) + (if k == p.token1 then p.reserve1 else 0)
  }

  function WalletsOf(b: Books, k: string): map<string, nat> {
    map a | a in b.wallets :: Bal(b.wallets[a], k)
  }

  function ReservesOf(b: Books, k: string): map<string, nat> {
    map id | id in b.pools :: ReserveOf(b.pools[id], k)
  }

  /** All of token k in every portfolio and every pool. */
  ghost function Holdings(b: Books, k: string): nat {
    Total(WalletsOf(b, k)) + Total(ReservesOf(b, k))
  }

  function Wallet(b: Books, w: string): Balances {
    if w in b.wallets then b.wallets[w] else map[]
  }

  function Put(b: Books, w: string, m: Balances, p: PoolState): Books {
    Books(b.pools[p.id := p], b.wallets[w := m])
  }

  /** Writing one portfolio and one pool moves the holdings by what those two changed. */
  lemma HoldingsOfPut(b: Books, w: string, m: Balances, before: PoolState, p: PoolState, k: string)
    requires if p.id in b.pools then b.pools[p.id] == before else ReserveOf(before, k) == 0
    ensures Holdings(Put(b, w, m, p), k)
         == Holdings(b, k) - Bal(Wallet(b, w), k) + Bal(m, k) - ReserveOf(before, k) + ReserveOf(p, k)
  {
    var after := Put(b, w, m, p);
    assert WalletsOf(after, k) == WalletsOf(b, k)[w := Bal(m, k)];
    assert ReservesOf(after, k) == ReservesOf(b, k)[p.id := ReserveOf(p, k)];
    TotalUpdate(WalletsOf(b, k), w, Bal(m, k));
    TotalUpdate(ReservesOf(b, k), p.id, ReserveOf(p, k));
  }

  lemma HoldingsOfWallet(b: Books, w: string, m: Balances, k: string)
    ensures Holdings(b.(wallets := b.wallets[w := m]), k) == Holdings(b, k) - Bal(Wallet(b, w), k) + Bal(m, k)
  {
    var after := b.(wallets := b.wallets[w := m]);
    assert WalletsOf(after, k) == WalletsOf(b, k)[w := Bal(m, k)];
    assert ReservesOf(after, k) == ReservesOf(b, k);
    TotalUpdate(WalletsOf(b, k), w, Bal(m, k));
  }

  ghost predicate Conserves(b: Books, after: Books, k: string) {
    Holdings(after, k) == Holdings(b, k)
  }

  lemma EqualFoldReflexive(t: string)
    ensures EqualFold(t, t)
  {
  }

  /** A stored pool is filed under the id of its two tokens. */
  predicate Filed(id: string, p: PoolState) {
    p.id == id && id == PoolID(p.token0, p.token1)
  }

  /** The pool's token that a swap pays into, and the one it pays out of: case folding picks them. */
  function PaidToken(p: PoolState, tokenIn: string): string {
    if EqualFold(tokenIn, p.token0) then p.token0 else p.token1
  }

  function DrawnToken(p: PoolState, tokenIn: string): string {
    if EqualFold(tokenIn, p.token0) then p.token1 else p.token0
  }

  /** The tokens a swap names are the ones the pool moves; a swap that pays nothing draws none. */
  predicate SwapMatches(p: PoolState, tokenIn: string, tokenOut: string, out: u64) {
    tokenIn == PaidToken(p, tokenIn) && (out == 0 || tokenOut == DrawnToken(p, tokenIn))
  }

  /** What crediting x with a wrapping sum really adds. */
  function Gained(x: u64, y: u64): int {
    Add64(x, y) - x
  }

  lemma GainedIs(x: u64, y: u64)
    ensures Gained(x, y) == if x + y < TWO_64 then y else y - TWO_64
  {
  }

  function If(cond: bool, n: int): int {
    if cond then n else 0
  }

  /** The exact change of any token's holdings by a swap, whatever tokens it names. */
  lemma {:induction false} HoldingsOfSwap(b: Books, w: string, tokenIn: string, tokenOut: string, amount: string,
                                          slippageBps: int, k: string)
    requires SwapOn(b.pools, Wallet(b, w), tokenIn, tokenOut, amount, slippageBps).Success?
    requires Filed(PoolID(tokenIn, tokenOut), b.pools[PoolID(tokenIn, tokenOut)])
    ensures var s := SwapOn(b.pools, Wallet(b, w), tokenIn, tokenOut, amount, slippageBps).value;
            var p := b.pools[PoolID(tokenIn, tokenOut)];
            Holdings(Put(b, w, s.balances, s.pool), k)
            == Holdings(b, k) + If(k == PaidToken(p, tokenIn), s.amountIn) - If(k == tokenIn, s.amountIn)
               + If(k == tokenOut, Gained(Bal(Minus(Wallet(b, w), tokenIn, s.amountIn), tokenOut), s.out))
               - If(k == DrawnToken(p, tokenIn), s.out)
  {
    hide Holdings, QuoteSwap, ParsedAmount, PoolID, MinOut, Add64, EqualFold;
    var s := SwapOn(b.pools, Wallet(b, w), tokenIn, tokenOut, amount, slippageBps).value;
    HoldingsOfPut(b, w, s.balances, b.pools[PoolID(tokenIn, tokenOut)], s.pool, k);
  }

  /** The swap's credit does not wrap. */
  predicate CreditFits(m: Balances, tokenIn: string, tokenOut: string, s: Swapped) {
    s.amountIn <= Bal(m, tokenIn) ==> Bal(Minus(m, tokenIn, s.amountIn), tokenOut) + s.out < TWO_64
  }

  /**
   * A swap conserves every token exactly when the tokens it names are the ones the pool moves and its
   * credit does not wrap. The pool is found by its exact id, but its side is picked by case folding.
   */
  lemma {:induction false} SwapConserves(b: Books, w: string, tokenIn: string, tokenOut: string, amount: string,
                                         slippageBps: int)
    requires SwapOn(b.pools, Wallet(b, w), tokenIn, tokenOut, amount, slippageBps).Success?
    requires Filed(PoolID(tokenIn, tokenOut), b.pools[PoolID(tokenIn, tokenOut)])
    ensures var s := SwapOn(b.pools, Wallet(b, w), tokenIn, tokenOut, amount, slippageBps).value;
            var p := b.pools[PoolID(tokenIn, tokenOut)];
            var after := Put(b, w, s.balances, s.pool);
            && (SwapMatches(p, tokenIn, tokenOut, s.out) ==> forall k :: Holdings(after, k) <= Holdings(b, k))
            && ((forall k :: Conserves(b, after, k)) <==>
                  SwapMatches(p, tokenIn, tokenOut, s.out) && CreditFits(Wallet(b, w), tokenIn, tokenOut, s))
  {
    hide Holdings, QuoteSwap, ParsedAmount, MinOut, Gained, EqualFold, PoolID;
    var p := b.pools[PoolID(tokenIn, tokenOut)];
    var s := SwapOn(b.pools, Wallet(b, w), tokenIn, tokenOut, amount, slippageBps).value;
    var after := Put(b, w, s.balances, s.pool);
    var x := Bal(Minus(Wallet(b, w), tokenIn, s.amountIn), tokenOut);
    GainedIs(x, s.out);
    SwapIsPositive(b, w, tokenIn, tokenOut, amount, slippageBps);
    forall k
      ensures Holdings(after, k) == Holdings(b, k)
              + If(k == PaidToken(p, tokenIn), s.amountIn) - If(k == tokenIn, s.amountIn)
              + If(k == tokenOut, Gained(x, s.out)) - If(k == DrawnToken(p, tokenIn), s.out)
    {
      HoldingsOfSwap(b, w, tokenIn, tokenOut, amount, slippageBps, k);
    }
    TwinSidesAreOne(p, tokenIn, tokenOut);
    if forall k :: Conserves(b, after, k) {
      assert Conserves(b, after, tokenIn) && Conserves(b, after, PaidToken(p, tokenIn));
      assert Conserves(b, after, tokenOut);
    }
  }

  lemma {:induction false} SwapIsPositive(b: Books, w: string, tokenIn: string, tokenOut: string, amount: string,
                                          slippageBps: int)
    requires SwapOn(b.pools, Wallet(b, w), tokenIn, tokenOut, amount, slippageBps).Success?
    ensures 0 < SwapOn(b.pools, Wallet(b, w), tokenIn, tokenOut, amount, slippageBps).value.amountIn
  {
    hide ParsedAmount, MinOut, PoolID, Add64, AmountOut;
  }

  /** A pool of a token with itself is found only by that token. */
  lemma {:induction false} TwinSidesAreOne(p: PoolState, tokenIn: string, tokenOut: string)
    requires PoolID(tokenIn, tokenOut) == PoolID(p.token0, p.token1)
    ensures p.token0 == p.token1 && tokenIn == tokenOut ==> tokenIn == p.token0
  {
    if p.token0 == p.token1 && tokenIn == tokenOut {
      assert |tokenIn| == |p.token0|;
      assert (tokenIn + "|" + tokenIn)[..|tokenIn|] == tokenIn;
      assert (p.token0 + "|" + p.token0)[..|p.token0|] == p.token0;
    }
  }

  /**
   * A pool of two tokens that differ in case only: swapping the second in is booked on the first, so the
   * holdings of the first rise by the amount in and the amount out, and those of the second fall by them.
   */
  lemma {:induction false} CaseTwinSwap(b: Books, w: string, tokenIn: string, tokenOut: string, amount: string,
                                        slippageBps: int)
    requires SwapOn(b.pools, Wallet(b, w), tokenIn, tokenOut, amount, slippageBps).Success?
    requires Filed(PoolID(tokenIn, tokenOut), b.pools[PoolID(tokenIn, tokenOut)])
    requires var p := b.pools[PoolID(tokenIn, tokenOut)];
             p.token0 == tokenOut && p.token1 == tokenIn && tokenIn != tokenOut && EqualFold(tokenIn, tokenOut)
    ensures var s := SwapOn(b.pools, Wallet(b, w), tokenIn, tokenOut, amount, slippageBps).value;
            var after := Put(b, w, s.balances, s.pool);
            && 0 < s.amountIn
            && Holdings(after, tokenIn) == Holdings(b, tokenIn) - s.amountIn - s.out
            && (Bal(Wallet(b, w), tokenOut) + s.out < TWO_64 ==>
                  Holdings(after, tokenOut) == Holdings(b, tokenOut) + s.amountIn + s.out)
  {
    hide Holdings, QuoteSwap, ParsedAmount, PoolID, MinOut, Gained, EqualFold;
    var s := SwapOn(b.pools, Wallet(b, w), tokenIn, tokenOut, amount, slippageBps).value;
    SwapIsPositive(b, w, tokenIn, tokenOut, amount, slippageBps);
    HoldingsOfSwap(b, w, tokenIn, tokenOut, amount, slippageBps, tokenIn);
    HoldingsOfSwap(b, w, tokenIn, tokenOut, amount, slippageBps, tokenOut);
    GainedIs(Bal(Minus(Wallet(b, w), tokenIn, s.amountIn), tokenOut), s.out);
  }

  lemma Low64AtMost(n: nat)
    ensures Low64(n) <= n
  {
  }

  lemma TenThousandthAtMost(n: nat, out: nat)
    requires n <= out * 10000
    ensures n / 10000 <= out
  {
  }

  /** With a slippage setting up to 10000 the guard never fires: both quotes are of the same pool copy. */
  lemma SlippageNeverFires(out: u64, slippageBps: int)
    requires slippageBps <= 10000
    ensures MinOut(out, slippageBps) <= out
  {
    hide Low64;
    if 0 < slippageBps {
      var f := 10000 - slippageBps;
      Low64Fixes(f);
      MulLe(f, 10000, out);
      Low64AtMost(out * f);
      TenThousandthAtMost(Low64(out * f), out);
    }
  }

  /** LP keys are longer than the tokens their pool id is made of. */
  lemma LpKeyIsNoToken(t0: string, t1: string)
    ensures LpKey(PoolID(t0, t1)) != t0 && LpKey(PoolID(t0, t1)) != t1
  {
  }

  /** The amounts an add deducts are the ones the pool's reserves gain. */
  predicate AddMatches(pool: PoolState, t0: string, t1: string, a0: u64, a1: u64) {
    || ((a0 == 0 || t0 == pool.token0) && (a1 == 0 || t1 == pool.token1))
    || (a0 == a1 && t0 == pool.token1 && t1 == pool.token0)
  }

  /** The exact change of any token's holdings by a successful add, whatever tokens it names. */
  lemma {:induction false} HoldingsOfAdd(b: Books, w: string, pool: PoolState, t0: string, t1: string,
                                         a0: u64, a1: u64, shares: u64, k: string)
    requires pool.id == PoolID(t0, t1) == PoolID(pool.token0, pool.token1)
    requires if pool.id in b.pools then b.pools[pool.id] == pool else pool.reserve0 == 0 && pool.reserve1 == 0
    requires Deposit(pool, Wallet(b, w), t0, t1, a0, a1, shares).0.Success?
    ensures var d := Deposit(pool, Wallet(b, w), t0, t1, a0, a1, shares);
            var lp := LpKey(pool.id);
            Holdings(Put(b, w, d.1, d.0.value.pool), k)
            == Holdings(b, k) + If(k == pool.token0, a0) + If(k == pool.token1, a1) - If(k == t0, a0) - If(k == t1, a1)
               + If(k == lp, Gained(Bal(Wallet(b, w), lp), shares))
    ensures LpKey(pool.id) !in {pool.token0, pool.token1, t0, t1}
  {
    hide Holdings, Add64, PoolID;
    var d := Deposit(pool, Wallet(b, w), t0, t1, a0, a1, shares);
    LpKeyIsNoToken(t0, t1);
    LpKeyIsNoToken(pool.token0, pool.token1);
    HoldingsOfPut(b, w, d.1, pool, d.0.value.pool, k);
  }

  /**
   * An add conserves every token but the LP token exactly when the amounts it deducts are the ones the
   * pool gains: amounts for a pool that already exists are not reordered.
   */
  lemma {:induction false} AddConserves(b: Books, w: string, pool: PoolState, t0: string, t1: string,
                                        a0: u64, a1: u64, shares: u64)
    requires pool.id == PoolID(t0, t1) == PoolID(pool.token0, pool.token1)
    requires if pool.id in b.pools then b.pools[pool.id] == pool else pool.reserve0 == 0 && pool.reserve1 == 0
    requires Deposit(pool, Wallet(b, w), t0, t1, a0, a1, shares).0.Success?
    ensures var d := Deposit(pool, Wallet(b, w), t0, t1, a0, a1, shares);
            var after := Put(b, w, d.1, d.0.value.pool);
            var lp := LpKey(pool.id);
            && ((forall k :: k != lp ==> Conserves(b, after, k)) <==> AddMatches(pool, t0, t1, a0, a1))
            && Holdings(after, lp) <= Holdings(b, lp) + shares
            && (Holdings(after, lp) == Holdings(b, lp) + shares <==> Bal(Wallet(b, w), lp) + shares < TWO_64)
  {
    hide Holdings, PoolID, Gained, Deposit, LpKey;
    var d := Deposit(pool, Wallet(b, w), t0, t1, a0, a1, shares);
    var after := Put(b, w, d.1, d.0.value.pool);
    var lp := LpKey(pool.id);
    GainedIs(Bal(Wallet(b, w), lp), shares);
    forall k
      ensures Holdings(after, k) == Holdings(b, k) + If(k == pool.token0, a0) + If(k == pool.token1, a1)
                                    - If(k == t0, a0) - If(k == t1, a1)
                                    + If(k == lp, Gained(Bal(Wallet(b, w), lp), shares))
    {
      HoldingsOfAdd(b, w, pool, t0, t1, a0, a1, shares, k);
    }
    HoldingsOfAdd(b, w, pool, t0, t1, a0, a1, shares, lp);
    if forall k :: k != lp ==> Conserves(b, after, k) {
      assert Conserves(b, after, pool.token0) && Conserves(b, after, pool.token1);
    }
  }

  /** With a bar in a token's name, different pairs share one pool id. */
  lemma BarsCollide()
    ensures PoolID("a", "b|c") == PoolID("a|b", "c")
  {
    assert "a" + "|" + "b|c" == "a|b" + "|" + "c";
  }

  /** An add by a pair that shares a pool's id deducts its own tokens, and puts the pool's in from nowhere. */
  lemma {:induction false} BarTwinAdd(b: Books, w: string, pool: PoolState, t0: string, t1: string,
                                      a0: u64, a1: u64, shares: u64)
    requires pool.id == PoolID(t0, t1) == PoolID(pool.token0, pool.token1)
    requires pool.id in b.pools && b.pools[pool.id] == pool
    requires t0 != t1 && pool.token0 != pool.token1 && {t0, t1} !! {pool.token0, pool.token1}
    requires Deposit(pool, Wallet(b, w), t0, t1, a0, a1, shares).0.Success?
    ensures var d := Deposit(pool, Wallet(b, w), t0, t1, a0, a1, shares);
            var after := Put(b, w, d.1, d.0.value.pool);
            && Holdings(after, t0) == Holdings(b, t0) - a0 && Holdings(after, t1) == Holdings(b, t1) - a1
            && Holdings(after, pool.token0) == Holdings(b, pool.token0) + a0
            && Holdings(after, pool.token1) == Holdings(b, pool.token1) + a1
  {
    hide Holdings, PoolID, Gained, Deposit, LpKey;
    assert t0 in {t0, t1} && t1 in {t0, t1};
    HoldingsOfAdd(b, w, pool, t0, t1, a0, a1, shares, t0);
    HoldingsOfAdd(b, w, pool, t0, t1, a0, a1, shares, t1);
    HoldingsOfAdd(b, w, pool, t0, t1, a0, a1, shares, pool.token0);
    HoldingsOfAdd(b, w, pool, t0, t1, a0, a1, shares, pool.token1);
  }

  /** A refused add leaves the portfolio as it was exactly when it had not yet deducted anything. */
  lemma RefusedAddKeepsBalances(pools: map<string, PoolState>, m: Balances, token0: string, token1: string,
                                amount0: string, amount1: string)
    requires AddTo(pools, m, token0, token1, amount0, amount1).0.Failure?
    ensures var (r, after) := AddTo(pools, m, token0, token1, amount0, amount1);
            (forall k :: Bal(after, k) == Bal(m, k)) <==>
              match (ParsedAmount(amount0), ParsedAmount(amount1))
              case (Some(x0), Some(x1)) =>
                var (pool, t0, t1, a0, a1) := AddTarget(pools, token0, token1, x0, x1);
                QuoteAdd(pool, a0, a1).Failure? || Bal(m, t0) < a0 || a0 == 0
              case _ => true
  {
    hide ParsedAmount, QuoteAdd, AddTarget;
    var after := AddTo(pools, m, token0, token1, amount0, amount1).1;
    if ParsedAmount(amount0).Some? && ParsedAmount(amount1).Some? {
      var (pool, t0, t1, a0, a1) :=
        AddTarget(pools, token0, token1, ParsedAmount(amount0).value, ParsedAmount(amount1).value);
      if QuoteAdd(pool, a0, a1).Success? && a0 <= Bal(m, t0) {
        assert Bal(after, t0) == Bal(m, t0) - a0;
      }
    }
  }

  /**
   * A remove conserves every token but the LP token exactly when neither amount is cut to 64 bits and
   * neither credit wraps; it never creates any, and takes the shares given for the shares burnt.
   */
  lemma RemoveConserves(b: Books, w: string, id: string, given: u64)
    requires RemoveFrom(b.pools, Wallet(b, w), id, given).Success?
    requires Filed(id, b.pools[id])
    ensures var p := b.pools[id];
            var r := RemoveFrom(b.pools, Wallet(b, w), id, given).value;
            var after := Put(b, w, r.balances, r.pool);
            var (r0, r1) := Redeem(p, BurnOf(p, given));
            var lp := LpKey(id);
            var m1 := Plus(Wallet(b, w), p.token0, r.amount0);
            && (forall k :: Holdings(after, k) <= Holdings(b, k))
            && ((forall k :: k != lp ==> Conserves(b, after, k)) <==>
                  (r0 < TWO_64 && r1 < TWO_64
                   && Bal(Wallet(b, w), p.token0) + r0 < TWO_64 && Bal(m1, p.token1) + r1 < TWO_64))
            && Holdings(after, lp) == Holdings(b, lp) - given
            && r.pool.shares == p.shares - BurnOf(p, given)
  {
    hide Holdings, Redeem, PoolID, Lost, AfterRemove;
    var p := b.pools[id];
    var r := RemoveFrom(b.pools, Wallet(b, w), id, given).value;
    var after := Put(b, w, r.balances, r.pool);
    var (r0, r1) := Redeem(p, BurnOf(p, given));
    var lp := LpKey(id);
    LpKeyIsNoToken(p.token0, p.token1);
    var x0, x1 := Bal(Wallet(b, w), p.token0), Bal(Plus(Wallet(b, w), p.token0, r.amount0), p.token1);
    LostIsZero(x0, r0);
    LostIsZero(x1, r1);
    forall k
      ensures k != lp ==> Holdings(after, k) == Holdings(b, k) - (if k == p.token0 then Lost(x0, r0) else 0)
                                                               - (if k == p.token1 then Lost(x1, r1) else 0)
      ensures k == lp ==> Holdings(after, k) == Holdings(b, k) - given
    {
      HoldingsOfRemove(b, w, id, given, k);
    }
    RemoveShares(b, w, id, given);
    assert Conserves(b, after, p.token0) ==> Lost(x0, r0) == 0;
    assert Conserves(b, after, p.token1) ==> Lost(x1, r1) == 0;
  }

  lemma {:induction false} RemoveShares(b: Books, w: string, id: string, given: u64)
    requires RemoveFrom(b.pools, Wallet(b, w), id, given).Success?
    ensures RemoveFrom(b.pools, Wallet(b, w), id, given).value.pool.shares
         == b.pools[id].shares - BurnOf(b.pools[id], given)
  {
    hide Redeem;
  }

  /** What cutting a payment to 64 bits and crediting it with wrap-around loses. */
  function Lost(x: u64, r: nat): int {
    x + r - Add64(x, Low64(r))
  }

  lemma {:induction false} LostIsZero(x: u64, r: nat)
    ensures 0 <= Lost(x, r)
    ensures Lost(x, r) == 0 <==> r < TWO_64 && x + r < TWO_64
  {
  }

  lemma {:induction false} HoldingsOfRemove(b: Books, w: string, id: string, given: u64, k: string)
    requires RemoveFrom(b.pools, Wallet(b, w), id, given).Success?
    requires b.pools[id].id == id && LpKey(id) != b.pools[id].token0 && LpKey(id) != b.pools[id].token1
    ensures var p := b.pools[id];
            var r := RemoveFrom(b.pools, Wallet(b, w), id, given).value;
            var after := Put(b, w, r.balances, r.pool);
            var (r0, r1) := Redeem(p, BurnOf(p, given));
            var x0, x1 := Bal(Wallet(b, w), p.token0), Bal(Plus(Wallet(b, w), p.token0, r.amount0), p.token1);
            Holdings(after, k) == Holdings(b, k) - (if k == LpKey(id) then given else 0)
                                                 - (if k == p.token0 then Lost(x0, r0) else 0)
                                                 - (if k == p.token1 then Lost(x1, r1) else 0)
  {
    hide Holdings, Redeem, BurnOf, Add64, Low64;
    var r := RemoveFrom(b.pools, Wallet(b, w), id, given).value;
    HoldingsOfPut(b, w, r.balances, b.pools[id], r.pool, k);
  }
}
