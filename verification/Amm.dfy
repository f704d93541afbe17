/**
 * The constant-product pool of internal/bridge/amm/pool.go.
 *
 * Amounts are uint64; reserves and total shares are unbounded integers, as in the source, where they
 * are big.Int values stored as decimal strings.
 */
module Amm {
  import opened Numbers
  import opened Results
  import opened Sorting

  const DEFAULT_FEE_BPS: Bps := 30
  const BPS: nat := 10000

  type Bps = n: nat | n <= 10000

  datatype PoolState = PoolState(id: string, token0: string, token1: string,
                                 reserve0: nat, reserve1: nat, shares: nat, feeBps: Bps)

  datatype AmmError =
    | TokenNotInPool
    | InsufficientLiquidity
    | AmountTooLarge
    | PoolDrained
    | InsufficientAmounts
    | SharesOverflow
    | InvalidShares
    | DivideByZeroPanic  // the Go runtime panics before anything is written

  function PoolID(a: string, b: string): string {
    if !Le(a, b) then b + "|" + a else a + "|" + b
  }

  function LowerChar(c: char): char {
    if 'A' <= c <= 'Z' then (c as int + 32) as char else c
  }

  /** strings.EqualFold on ASCII text. */
  predicate EqualFold(a: string, b: string) {
    |a| == |b| && forall i :: 0 <= i < |a| ==> LowerChar(a[i]) == LowerChar(b[i])
  }

  /** The exact-in output: the fee is taken from the input, the quotient is floored. */
  function AmountOut(rin: nat, rout: nat, amountIn: nat, feeBps: Bps): nat
    requires 0 < rin
  {
    MulDiv(amountIn * (BPS - feeBps), rout, rin * BPS + amountIn * (BPS - feeBps))
  }

  /** The exact-in output never empties the other side. */
  lemma AmountOutBelowReserve(rin: nat, rout: nat, amountIn: nat, feeBps: Bps)
    requires 0 < rin && 0 < rout
    ensures AmountOut(rin, rout, amountIn, feeBps) < rout
  {
    var g := amountIn * (BPS - feeBps);
    var d := rin * BPS + g;
    MulDivFloor(g, rout, d);
    assert rout * d == rout * (rin * BPS) + g * rout;
    assert 0 < rout * (rin * BPS);
    MulLtCancel(MulDiv(g, rout, d), rout, d);
  }

  /** The greatest s with s * s <= n. */
  ghost predicate IsSqrt(s: nat, n: nat) {
    s * s <= n < (s + 1) * (s + 1)
  }

  function Sqrt(n: nat): (s: nat)
    ensures IsSqrt(s, n)
  {
    if n == 0 then 0
    else
      var s := Sqrt(n - 1);
      if (s + 1) * (s + 1) <= n then s + 1 else s
  }

  /** The pool's two reserves, the one tokenIn is paid into first. */
  function Sides(p: PoolState, tokenIn: string): (nat, nat) {
    if EqualFold(tokenIn, p.token0) then (p.reserve0, p.reserve1) else (p.reserve1, p.reserve0)
  }

  /** QuoteSwap without its display-only price impact. A quote never asks for a whole reserve. */
  function QuoteSwap(p: PoolState, tokenIn: string, amountIn: u64): (r: Result<u64, AmmError>)
    ensures r.Success? ==> 0 < amountIn && 0 < Sides(p, tokenIn).0 && r.value < Sides(p, tokenIn).1
    ensures r.Failure? ==> r.error != PoolDrained
  {
    if !EqualFold(tokenIn, p.token0) && !EqualFold(tokenIn, p.token1) then Failure(TokenNotInPool)
    else
      var (rin, rout) := Sides(p, tokenIn);
      if rin == 0 || rout == 0 then Failure(InsufficientLiquidity)
      else
        AmountOutBelowReserve(rin, rout, amountIn, p.feeBps);
        var out := AmountOut(rin, rout, amountIn, p.feeBps);
        if TWO_64 <= out then Failure(AmountTooLarge)
        else if amountIn == 0 then Failure(DivideByZeroPanic)
        else Success(out)
  }

  /** The pool after a successful swap that pays `out`. */
  function AfterSwap(p: PoolState, tokenIn: string, amountIn: u64, out: nat): PoolState
    requires out <= Sides(p, tokenIn).1
  {
    if EqualFold(tokenIn, p.token0)
    then p.(reserve0 := p.reserve0 + amountIn, reserve1 := p.reserve1 - out)
    else p.(reserve1 := p.reserve1 + amountIn, reserve0 := p.reserve0 - out)
  }

  /** The shares an add would mint, before the uint64 check. */
  function MintFor(p: PoolState, amount0: u64, amount1: u64): nat
    requires p.shares != 0 ==> p.reserve0 != 0 && p.reserve1 != 0
  {
    if p.shares == 0 then Sqrt(amount0 * amount1)
    else Min(MulDiv(amount0, p.shares, p.reserve0), MulDiv(amount1, p.shares, p.reserve1))
  }

  function QuoteAdd(p: PoolState, amount0: u64, amount1: u64): Result<u64, AmmError> {
    if p.shares != 0 && (p.reserve0 == 0 || p.reserve1 == 0) then Failure(DivideByZeroPanic)
    else
      var mint := MintFor(p, amount0, amount1);
      if p.shares == 0 && mint == 0 then Failure(InsufficientAmounts)
      else if TWO_64 <= mint then Failure(SharesOverflow)
      else Success(mint)
  }

  function AfterAdd(p: PoolState, amount0: u64, amount1: u64, mint: nat): PoolState {
    p.(reserve0 := p.reserve0 + amount0, reserve1 := p.reserve1 + amount1, shares := p.shares + mint)
  }

  /** The shares a remove really burns: it always leaves one behind. */
  function BurnOf(p: PoolState, sharesBurn: u64): int {
    if p.shares <= sharesBurn then p.shares - 1 else sharesBurn
  }

  /** The exact pay-out of burning `burn` shares. */
  function Redeem(p: PoolState, burn: nat): (nat, nat)
    requires 0 < p.shares
  {
    (MulDiv(burn, p.reserve0, p.shares), MulDiv(burn, p.reserve1, p.shares))
  }

  lemma RedeemWithinReserves(p: PoolState, burn: nat)
    requires burn <= p.shares && 0 < p.shares
    ensures Redeem(p, burn).0 <= p.reserve0 && Redeem(p, burn).1 <= p.reserve1
  {
    MulDivLe(burn, p.reserve0, p.shares);
    MulDivLe(burn, p.reserve1, p.shares);
  }

  function AfterRemove(p: PoolState, burn: nat): PoolState
    requires 0 < burn < p.shares
  {
    RedeemWithinReserves(p, burn);
    var (a0, a1) := Redeem(p, burn);
    p.(reserve0 := p.reserve0 - a0, reserve1 := p.reserve1 - a1, shares := p.shares - burn)
  }

  class Pool {
    var id: string
    var token0: string
    var token1: string
    var reserve0: nat
    var reserve1: nat
    var totalShares: nat
    var feeBps: Bps

    constructor (p: PoolState)
      ensures Value() == p
    {
      id, token0, token1 := p.id, p.token0, p.token1;
      reserve0, reserve1, totalShares, feeBps := p.reserve0, p.reserve1, p.shares, p.feeBps;
    }

    function Value(): PoolState
      reads this
    {
      PoolState(id, token0, token1, reserve0, reserve1, totalShares, feeBps)
    }

    /** A quote is met in full, both sides stay funded, and the drained error cannot occur. */
    method Swap(tokenIn: string, amountIn: u64) returns (r: Result<u64, AmmError>)
      modifies this
      ensures id == old(id) && token0 == old(token0) && token1 == old(token1)
      ensures r == QuoteSwap(old(Value()), tokenIn, amountIn)
      ensures r.Failure? ==> Value() == old(Value()) && r.error != PoolDrained
      ensures r.Success? ==>
                && Value() == AfterSwap(old(Value()), tokenIn, amountIn, r.value)
                && 0 < reserve0 && 0 < reserve1
    {
      var quote := QuoteSwap(Value(), tokenIn, amountIn);
      if quote.Failure? {
        return quote;
      }
      var out := quote.value;
      if EqualFold(tokenIn, token0) {
        reserve0 := reserve0 + amountIn;
        reserve1 := reserve1 - out;
      } else {
        reserve1 := reserve1 + amountIn;
        reserve0 := reserve0 - out;
      }
      var drained := reserve0 <= 0 || reserve1 <= 0;
      r := if drained then Failure(PoolDrained) else Success(out);
    }

    method AddLiquidity(amount0: u64, amount1: u64) returns (r: Result<u64, AmmError>)
      modifies this
      ensures id == old(id) && token0 == old(token0) && token1 == old(token1)
      ensures r == QuoteAdd(old(Value()), amount0, amount1)
      ensures r.Failure? ==> Value() == old(Value())
      ensures r.Success? ==> Value() == AfterAdd(old(Value()), amount0, amount1, r.value)
    {
      hide Sqrt, MulDiv;
      var ts, r0, r1 := totalShares, reserve0, reserve1;
      var mint: nat;
      if ts == 0 {
        mint := Sqrt(amount0 * amount1);
        if mint == 0 {
          return Failure(InsufficientAmounts);
        }
      } else {
        if r0 == 0 || r1 == 0 {
          return Failure(DivideByZeroPanic);
        }
        var s0 := MulDiv(amount0, ts, r0);
        var s1 := MulDiv(amount1, ts, r1);
        if s0 < s1 {
          mint := s0;
        } else {
          mint := s1;
        }
      }
      if TWO_64 <= mint {
        return Failure(SharesOverflow);
      }
      reserve0 := r0 + amount0;
      reserve1 := r1 + amount1;
      totalShares := ts + mint;
      r := Success(mint);
    }

    /** Pays the low 64 bits of what the burnt shares redeem; the reserves drop by the full amounts. */
    method RemoveLiquidity(sharesBurn: u64) returns (r: Result<(u64, u64), AmmError>)
      modifies this
      ensures id == old(id) && token0 == old(token0) && token1 == old(token1)
      ensures r.Success? <==> 0 < sharesBurn && 1 < old(totalShares)
      ensures r.Success? ==>
                totalShares == if sharesBurn < old(totalShares) then old(totalShares) - sharesBurn else 1
      ensures r.Failure? ==> r.error == InvalidShares && Value() == old(Value())
      ensures r.Success? ==>
                var burn := BurnOf(old(Value()), sharesBurn);
                && Value() == AfterRemove(old(Value()), burn)
                && r.value == (Low64(Redeem(old(Value()), burn).0), Low64(Redeem(old(Value()), burn).1))
    {
      var burn: int := sharesBurn;
      var ts := totalShares;
      if ts <= burn {
        burn := ts - 1;
      }
      if burn <= 0 {
        return Failure(InvalidShares);
      }
      RedeemWithinReserves(Value(), burn);
      var r0, r1 := reserve0, reserve1;
      var a0 := MulDiv(burn, r0, ts);
      var a1 := MulDiv(burn, r1, ts);
      reserve0 := r0 - a0;
      reserve1 := r1 - a1;
      totalShares := ts - burn;
      r := Success((Low64(a0), Low64(a1)));
    }
  }
}
