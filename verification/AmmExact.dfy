/** What a pool's three operations give, exactly, as inequalities between amounts and reserves. */
module AmmExact {
  import opened Numbers
  import opened Results
  import opened Amm
  import opened AmmRuns

  // ----- quotes -----

  /**
   * Paying `out` for `a` keeps the product of the reserves, when only the input net of the fee is counted:
   * in units of 1/10000, rin * rout <= (rin + a - fee) * (rout - out).
   */
  predicate MayPay(rin: nat, rout: nat, a: nat, feeBps: Bps, out: nat) {
    out <= rout && rin * 10000 * rout <= (rout - out) * (rin * 10000 + a * (10000 - feeBps))
  }

  /**
   * A quote succeeds exactly when its token folds to one of the pool's, both reserves and the input are not
   * zero, and paying 2^64 is too much. It is then the greatest payment that keeps the product, from the
   * reserve the token is not in.
   */
  lemma QuoteIsExact(p: PoolState, tokenIn: string, a: u64)
    ensures var (rin, rout) :=
              if EqualFold(tokenIn, p.token0) then (p.reserve0, p.reserve1) else (p.reserve1, p.reserve0);
            var quote := QuoteSwap(p, tokenIn, a);
            && (quote.Success? <==>
                  && (EqualFold(tokenIn, p.token0) || EqualFold(tokenIn, p.token1))
                  && p.reserve0 != 0 && p.reserve1 != 0 && a != 0
                  && !MayPay(rin, rout, a, p.feeBps, TWO_64))
            && (quote.Success? ==>
                  && MayPay(rin, rout, a, p.feeBps, quote.value)
                  && forall out: nat :: MayPay(rin, rout, a, p.feeBps, out) ==> out <= quote.value)
  {
    hide AmountOut, EqualFold;
    var (rin, rout) := Sides(p, tokenIn);
    if rin != 0 && rout != 0 {
      AmountOutBelowReserve(rin, rout, a, p.feeBps);
      forall out: nat
        ensures MayPay(rin, rout, a, p.feeBps, out) <==> out <= AmountOut(rin, rout, a, p.feeBps)
      {
        if out <= rout {
          OutIsGreatest(rin, rout, a, p.feeBps, out);
        }
      }
    }
  }

  /** A swap moves the whole input into one reserve and the payment out of the other, and nothing else. */
  lemma SwapIsExact(p: PoolState, tokenIn: string, a: u64)
    requires QuoteSwap(p, tokenIn, a).Success?
    ensures var out := QuoteSwap(p, tokenIn, a).value;
            var q := AfterSwap(p, tokenIn, a, out);
            && (EqualFold(tokenIn, p.token0) ==> q.reserve0 == p.reserve0 + a && q.reserve1 == p.reserve1 - out)
            && (!EqualFold(tokenIn, p.token0) ==> q.reserve1 == p.reserve1 + a && q.reserve0 == p.reserve0 - out)
            && (q.id, q.token0, q.token1, q.shares, q.feeBps) == (p.id, p.token0, p.token1, p.shares, p.feeBps)
  {
    hide AmountOut, EqualFold;
  }

  // ----- adds -----

  /** The amounts back so many new shares at the pool's present rate, on both sides. */
  predicate Backs(p: PoolState, a0: nat, a1: nat, mint: nat) {
    mint * p.reserve0 <= a0 * p.shares && mint * p.reserve1 <= a1 * p.shares
  }

  /**
   * An empty pool takes any two amounts that are not zero, and mints the rounded root of their product; a
   * funded pool mints the most shares both amounts back, unless 2^64 are backed; a pool with shares and an
   * empty side panics.
   */
  lemma {:induction false} AddIsExact(p: PoolState, a0: u64, a1: u64)
    ensures var r := QuoteAdd(p, a0, a1);
            && (p.shares == 0 ==>
                  && (r.Success? <==> a0 != 0 && a1 != 0)
                  && (r.Success? ==> r.value * r.value <= a0 * a1 < (r.value + 1) * (r.value + 1))
                  && (r.Failure? ==> r.error == InsufficientAmounts))
            && (Funded(p) ==>
                  && (r.Success? <==> !Backs(p, a0, a1, TWO_64))
                  && (r.Success? ==> Backs(p, a0, a1, r.value)
                                     && forall mint: nat :: Backs(p, a0, a1, mint) ==> mint <= r.value)
                  && (r.Failure? ==> r.error == SharesOverflow))
            && (p.shares != 0 && (p.reserve0 == 0 || p.reserve1 == 0) ==> r == Failure(DivideByZeroPanic))
  {
    hide Sqrt, MulDiv;
    FirstMintFits(a0, a1);
    if p.shares == 0 {
      ZeroProduct(a0, a1);
    }
    if Funded(p) {
      forall mint: nat
        ensures Backs(p, a0, a1, mint) <==> mint <= MintFor(p, a0, a1)
      {
        MulDivIsGreatest(a0, p.shares, p.reserve0, mint);
        MulDivIsGreatest(a1, p.shares, p.reserve1, mint);
      }
    }
  }

  lemma {:induction false} ZeroProduct(a0: nat, a1: nat)
    ensures a0 == 0 || a1 == 0 ==> Sqrt(a0 * a1) == 0
  {
    if a0 == 0 || a1 == 0 {
      assert a0 * a1 == 0;
      SqrtIsUnique(Sqrt(0), 0, 0);
    }
  }

  // ----- removes -----

  /** The greatest amount that leaves a side its amount per share when `burnt` of `shares` go. */
  predicate IsShareOf(reserve: nat, shares: nat, burnt: nat, amount: nat) {
    amount * shares <= burnt * reserve < (amount + 1) * shares
  }

  /**
   * Removing fewer shares than there are burns exactly those; removing all or more leaves one share; and
   * nothing else burns anything. Each side pays its part for the shares burnt.
   */
  lemma RemoveIsExact(p: PoolState, given: u64)
    ensures 0 < BurnOf(p, given) <==> 0 < given && 1 < p.shares
    ensures 0 < given && 1 < p.shares ==>
              var burnt := if given < p.shares then given else p.shares - 1;
              var q := AfterRemove(p, BurnOf(p, given));
              && q.shares == p.shares - burnt
              && IsShareOf(p.reserve0, p.shares, burnt, p.reserve0 - q.reserve0)
              && IsShareOf(p.reserve1, p.shares, burnt, p.reserve1 - q.reserve1)
              && (q.id, q.token0, q.token1, q.feeBps) == (p.id, p.token0, p.token1, p.feeBps)
  {
    hide MulDiv;
    if 0 < given && 1 < p.shares {
      MulDivFloor(BurnOf(p, given), p.reserve0, p.shares);
      MulDivFloor(BurnOf(p, given), p.reserve1, p.shares);
    }
  }
}
