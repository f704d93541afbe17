/**
 * Exact conservation over whole runs: while less than 2^64 of each token exists, the portfolios and
 * the pools together hold the same of every token after any run, unless an add lost its first deposit.
 */
module Conservation {
  import opened Numbers
  import opened Sums
  import opened Amounts
  import opened Amm
  import opened AmmRuns
  import opened Bookkeeping
  import opened BookRuns

  /** Less than 2^64 of each token exists. */
  ghost predicate Bounded(b: Books) {
    forall k :: Coin(k) ==> Holdings(b, k) < TWO_64
  }

  ghost predicate AllConserved(b: Books, after: Books) {
    forall k :: Coin(k) ==> Conserves(b, after, k)
  }

  /** An add that deducts a first amount of a coin and is then refused the second. */
  ghost predicate LosesDeposit(b: Books, op: Op) {
    op.DoAdd? &&
    match (ParsedAmount(op.amount0), ParsedAmount(op.amount1))
    case (Some(x0), Some(x1)) =>
      var (pool, t0, t1, a0, a1) := AddTarget(b.pools, op.token0, op.token1, x0, x1);
      var m := Wallet(b, op.w);
      QuoteAdd(pool, a0, a1).Success? && 0 < a0 <= Bal(m, t0) && Bal(Minus(m, t0, a0), t1) < a1 && Coin(t0)
    case _ => false
  }

  ghost predicate NoDepositLost(b: Books, ops: seq<Op>)
    decreases |ops|
  {
    ops == [] || (!LosesDeposit(b, ops[0]) && NoDepositLost(Perform(b, ops[0]), ops[1..]))
  }

  /** One portfolio and one pool hold no more of a token than all of them. */
  lemma {:induction false} PartOfHoldings(b: Books, w: string, id: string, k: string)
    requires id in b.pools
    ensures Bal(Wallet(b, w), k) + ReserveOf(b.pools[id], k) <= Holdings(b, k)
  {
    AtMostTotal(WalletsOf(b, k), w);
    AtMostTotal(ReservesOf(b, k), id);
  }

  lemma {:induction false} SwapConservesAll(b: Books, op: Op)
    requires op.DoSwap? && PoolsOk(b) && Matched(b, op) && Bounded(b)
    requires SwapOn(b.pools, Wallet(b, op.w), op.tokenIn, op.tokenOut, op.amount, op.slippageBps).Success?
    ensures AllConserved(b, Perform(b, op))
  {
    hide Holdings, ParsedAmount, PoolID, MinOut, Gained, Funded, AmountOut, EqualFold, QuoteSwap;
    var id := PoolID(op.tokenIn, op.tokenOut);
    var s := SwapOn(b.pools, Wallet(b, op.w), op.tokenIn, op.tokenOut, op.amount, op.slippageBps).value;
    assert PoolOk(id, b.pools[id]);
    GainedIs(Bal(Minus(Wallet(b, op.w), op.tokenIn, s.amountIn), op.tokenOut), s.out);
    OutWithinReserve(b.pools[id], op.tokenIn, s.amountIn);
    PartOfHoldings(b, op.w, id, op.tokenOut);
    forall k | Coin(k)
      ensures Conserves(b, Perform(b, op), k)
    {
      HoldingsOfSwap(b, op.w, op.tokenIn, op.tokenOut, op.amount, op.slippageBps, k);
    }
  }

  lemma {:induction false} OutWithinReserve(p: PoolState, tokenIn: string, a: u64)
    requires QuoteSwap(p, tokenIn, a).Success?
    ensures QuoteSwap(p, tokenIn, a).value <= ReserveOf(p, DrawnToken(p, tokenIn))
  {
    hide EqualFold, AmountOut;
  }

  lemma {:induction false} RemoveConservesAll(b: Books, op: Op)
    requires op.DoRemove? && PoolsOk(b) && Bounded(b)
    requires RemoveFrom(b.pools, Wallet(b, op.w), op.id, op.given).Success?
    ensures AllConserved(b, Perform(b, op))
  {
    hide Holdings, PoolID, Redeem, Add64, Funded, Lost, Low64;
    var p := b.pools[op.id];
    assert PoolOk(op.id, p);
    LpKeyIsNoToken(p.token0, p.token1);
    forall k | Coin(k)
      ensures Conserves(b, Perform(b, op), k)
    {
      assert k != LpKey(op.id);
      HoldingsOfRemove(b, op.w, op.id, op.given, k);
      NothingLost(b, op, k);
    }
  }

  /** A coin of which less than 2^64 exists is neither cut nor wrapped when it is paid out. */
  lemma {:induction false} NothingLost(b: Books, op: Op, k: string)
    requires op.DoRemove? && PoolsOk(b) && Bounded(b) && Coin(k)
    requires RemoveFrom(b.pools, Wallet(b, op.w), op.id, op.given).Success?
    ensures var p := b.pools[op.id];
            var m := Wallet(b, op.w);
            var (r0, r1) := Redeem(p, BurnOf(p, op.given));
            && (k == p.token0 ==> Lost(Bal(m, p.token0), r0) == 0)
            && (k == p.token1 ==> Lost(Bal(Plus(m, p.token0, Low64(r0)), p.token1), r1) == 0)
  {
    hide Holdings, PoolID, Redeem, Low64, Funded, Lost, Add64;
    var p, m := b.pools[op.id], Wallet(b, op.w);
    var (r0, r1) := Redeem(p, BurnOf(p, op.given));
    RedeemWithinReserves(p, BurnOf(p, op.given));
    PartOfHoldings(b, op.w, op.id, k);
    var x1 := Bal(Plus(m, p.token0, Low64(r0)), p.token1);
    LostIsZero(Bal(m, p.token0), r0);
    LostIsZero(x1, r1);
    if k == p.token0 {
      CreditedInFull(Bal(m, p.token0), r0);
    }
  }

  lemma CreditedInFull(x: u64, r: nat)
    requires x + r < TWO_64
    ensures Add64(x, Low64(r)) == x + r
  {
  }

  /** An add of the pool's own tokens deducts what the pool gains. */
  lemma {:induction false} AddConservesAll(b: Books, op: Op)
    requires op.DoAdd? && PoolsOk(b) && Matched(b, op)
    requires AddTo(b.pools, Wallet(b, op.w), op.token0, op.token1, op.amount0, op.amount1).0.Success?
    ensures AllConserved(b, Perform(b, op)) && !LosesDeposit(b, op)
  {
    hide Holdings, QuoteAdd, ParsedAmount, PoolID, AddTarget, Add64, AddMatches, Matched, Perform, PoolsOk;
    AddKeepsTokens(b, op);
    forall k | Coin(k)
      ensures Conserves(b, Perform(b, op), k)
    {
      assert k != LpKey(PoolID(op.token0, op.token1));
    }
  }

  /** A refused add conserves every token exactly when it had deducted none. */
  lemma {:induction false} RefusedAddConserves(b: Books, op: Op)
    requires op.DoAdd?
    requires AddTo(b.pools, Wallet(b, op.w), op.token0, op.token1, op.amount0, op.amount1).0.Failure?
    ensures AllConserved(b, Perform(b, op)) <==> !LosesDeposit(b, op)
  {
    hide Holdings, QuoteAdd, ParsedAmount, PoolID, AddTarget, Coin;
    var m := Wallet(b, op.w);
    var left := AddTo(b.pools, m, op.token0, op.token1, op.amount0, op.amount1).1;
    forall k
      ensures Conserves(b, Perform(b, op), k) <==> Bal(left, k) == Bal(m, k)
    {
      HoldingsOfWallet(b, op.w, left, k);
    }
    if ParsedAmount(op.amount0).Some? && ParsedAmount(op.amount1).Some? {
      var t0 := AddTarget(b.pools, op.token0, op.token1, ParsedAmount(op.amount0).value,
                          ParsedAmount(op.amount1).value).1;
      assert Conserves(b, Perform(b, op), t0) <==> Bal(left, t0) == Bal(m, t0);
      assert forall k :: k != t0 ==> Bal(left, k) == Bal(m, k);
    }
  }

  /** A matched request conserves every token exactly when it is not an add that loses its first deposit. */
  lemma {:induction false} OpConserves(b: Books, op: Op)
    requires PoolsOk(b) && Bounded(b) && Matched(b, op)
    ensures AllConserved(b, Perform(b, op)) <==> !LosesDeposit(b, op)
  {
    hide Holdings, SwapOn, AddTo, RemoveFrom, PoolID, PoolOk, Bounded, Matched, Coin;
    if op.DoSwap? && Perform(b, op) != b {
      SwapConservesAll(b, op);
    } else if op.DoRemove? && Perform(b, op) != b {
      RemoveConservesAll(b, op);
    } else if op.DoAdd? {
      if AddTo(b.pools, Wallet(b, op.w), op.token0, op.token1, op.amount0, op.amount1).0.Success? {
        AddConservesAll(b, op);
      } else {
        RefusedAddConserves(b, op);
      }
    }
  }

  /**
   * Over any run of matched requests by any portfolios, refused ones included, the holdings of every token
   * end as they began exactly when no add along the way lost its first deposit.
   */
  lemma {:induction false} RunConserves(b: Books, ops: seq<Op>)
    requires PoolsOk(b) && Bounded(b) && AllMatched(b, ops)
    ensures AllConserved(b, PerformAll(b, ops)) <==> NoDepositLost(b, ops)
    decreases |ops|
  {
    hide Holdings, PoolsOk, PoolsKept, Perform, LosesDeposit, Matched, Coin;
    if ops != [] {
      var next, end := Perform(b, ops[0]), PerformAll(b, ops);
      OpKeepsPools(b, ops[0]);
      OpCreatesNone(b, ops[0]);
      OpConserves(b, ops[0]);
      RunCreatesNone(next, ops[1..]);
      RunConserves(next, ops[1..]);
    }
  }
}
