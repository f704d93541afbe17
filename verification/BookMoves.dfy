/** What each operation does to the wallet's balances and to the pool, balance by balance and reserve by reserve. */
module BookMoves {
  import opened Numbers
  import opened Results
  import Sorting
  import opened Amounts
  import opened Amm
  import opened AmmExact
  import opened Bookkeeping

  /** Nothing but these keys changed. */
  ghost predicate OthersKept(m: Balances, after: Balances, keys: set<string>) {
    forall k :: k !in keys ==> Bal(after, k) == Bal(m, k)
  }

  /**
   * A swap succeeds exactly when its amount is one, its pool is there and quotes it, the guard lets the
   * payment through and the balance covers the amount. It takes the amount from tokenIn, credits the
   * payment to tokenOut, wrapping, and moves the pool's reserves by the same two numbers.
   */
  lemma {:induction false} SwapMoves(pools: map<string, PoolState>, m: Balances, tokenIn: string, tokenOut: string,
                                     amount: string, slippageBps: int)
    ensures var r := SwapOn(pools, m, tokenIn, tokenOut, amount, slippageBps);
            var id := PoolID(tokenIn, tokenOut);
            && (r.Success? <==>
                  && ParsedAmount(amount).Some? && id in pools
                  && QuoteSwap(pools[id], tokenIn, ParsedAmount(amount).value).Success?
                  && (var out := QuoteSwap(pools[id], tokenIn, ParsedAmount(amount).value).value;
                      MinOut(out, slippageBps) <= out)
                  && ParsedAmount(amount).value <= Bal(m, tokenIn))
            && (r.Success? ==>
                  var a := ParsedAmount(amount).value;
                  var out := QuoteSwap(pools[id], tokenIn, a).value;
                  var p, q, after := pools[id], r.value.pool, r.value.balances;
                  && OthersKept(m, after, {tokenIn, tokenOut})
                  && (tokenIn != tokenOut ==> Bal(after, tokenIn) == Bal(m, tokenIn) - a
                                              && Bal(after, tokenOut) == (Bal(m, tokenOut) + out) % TWO_64)
                  && (tokenIn == tokenOut ==> Bal(after, tokenIn) == (Bal(m, tokenIn) - a + out) % TWO_64)
                  && (if EqualFold(tokenIn, p.token0)
                      then q.reserve0 == p.reserve0 + a && q.reserve1 == p.reserve1 - out
                      else q.reserve1 == p.reserve1 + a && q.reserve0 == p.reserve0 - out)
                  && (q.id, q.token0, q.token1, q.shares, q.feeBps) == (p.id, p.token0, p.token1, p.shares, p.feeBps))
  {
    hide QuoteSwap, ParsedAmount, PoolID, MinOut, EqualFold;
  }

  /** The least payment the guard lets through: the greatest whole number within the slippage allowed. */
  lemma MinOutIs(expected: u64, slippageBps: int)
    ensures slippageBps <= 0 ==> MinOut(expected, slippageBps) == expected
    ensures 0 < slippageBps <= 10000 && expected * (10000 - slippageBps) < TWO_64 ==>
              var least := MinOut(expected, slippageBps);
              least * 10000 <= expected * (10000 - slippageBps) < (least + 1) * 10000
  {
    hide Low64;
    if 0 < slippageBps <= 10000 {
      Low64Fixes(10000 - slippageBps);
      MulLe(0, expected, 10000 - slippageBps);
      Low64Fixes(expected * (10000 - slippageBps));
    }
  }

  /** Above 10000 the factor is a huge number, and the guard does refuse. */
  lemma SlippageAboveFires()
    ensures MinOut(1, 10001) == 1844674407370955
  {
  }

  // ----- adds -----

  /** What two deductions take of a token. */
  function Taken(k: string, t0: string, a0: nat, t1: string, a1: nat): nat {
    (if k == t0 then a0 else 0) + if k == t1 then a1 else 0
  }

  ghost predicate Affords(m: Balances, t0: string, a0: nat, t1: string, a1: nat) {
    forall k :: Taken(k, t0, a0, t1, a1) <= Bal(m, k)
  }

  lemma {:induction false} DepositMoves(pool: PoolState, m: Balances, t0: string, t1: string, a0: u64, a1: u64,
                                        shares: u64)
    requires LpKey(pool.id) != t0 && LpKey(pool.id) != t1
    ensures var (r, after) := Deposit(pool, m, t0, t1, a0, a1, shares);
            && (r.Success? <==> Affords(m, t0, a0, t1, a1))
            && (r.Success? ==>
                  && r.value.shares == shares
                  && (forall k :: k != LpKey(pool.id) ==> Bal(after, k) == Bal(m, k) - Taken(k, t0, a0, t1, a1))
                  && Bal(after, LpKey(pool.id)) == (Bal(m, LpKey(pool.id)) + shares) % TWO_64)
  {
    hide LpKey, AfterAdd;
    assert Taken(t0, t0, a0, t1, a1) <= Bal(m, t0) && Taken(t1, t0, a0, t1, a1) <= Bal(m, t1) ==>
        Affords(m, t0, a0, t1, a1);
    if Affords(m, t0, a0, t1, a1) {
      assert Taken(t0, t0, a0, t1, a1) <= Bal(m, t0) && Taken(t1, t0, a0, t1, a1) <= Bal(m, t1);
    }
  }

  /**
   * An add succeeds exactly when its two amounts are, its pool mints for them, and the balances cover them.
   * It takes the first amount from the first token and the second from the second, in either order and
   * for a new pool or a stored one, and credits the shares as LP tokens, wrapping.
   */
  lemma {:induction false} AddMoves(pools: map<string, PoolState>, m: Balances, token0: string, token1: string,
                                    amount0: string, amount1: string)
    requires PoolID(token0, token1) in pools ==> Filed(PoolID(token0, token1), pools[PoolID(token0, token1)])
    ensures var (r, after) := AddTo(pools, m, token0, token1, amount0, amount1);
            var id := PoolID(token0, token1);
            var lp := LpKey(id);
            && (r.Success? <==>
                  && ParsedAmount(amount0).Some? && ParsedAmount(amount1).Some?
                  && (var x0, x1 := ParsedAmount(amount0).value, ParsedAmount(amount1).value;
                      && (if id in pools then QuoteAdd(pools[id], x0, x1).Success? else x0 != 0 && x1 != 0)
                      && Affords(m, token0, x0, token1, x1)))
            && (r.Success? ==>
                  var x0, x1 := ParsedAmount(amount0).value, ParsedAmount(amount1).value;
                  && (forall k :: k != lp ==> Bal(after, k) == Bal(m, k) - Taken(k, token0, x0, token1, x1))
                  && Bal(after, lp) == (Bal(m, lp) + r.value.shares) % TWO_64)
  {
    hide QuoteAdd, ParsedAmount, PoolID, LpKey, Deposit;
    LpKeyIsNoToken(token0, token1);
    if ParsedAmount(amount0).Some? && ParsedAmount(amount1).Some? {
      var x0, x1 := ParsedAmount(amount0).value, ParsedAmount(amount1).value;
      TargetNames(pools, token0, token1, x0, x1);
      var (pool, t0, t1, a0, a1) := AddTarget(pools, token0, token1, x0, x1);
      AddIsExact(pool, a0, a1);
      if QuoteAdd(pool, a0, a1).Success? {
        DepositMoves(pool, m, t0, t1, a0, a1, QuoteAdd(pool, a0, a1).value);
        SameTaken(m, token0, x0, token1, x1);
      }
    }
  }

  lemma SameTaken(m: Balances, t0: string, a0: nat, t1: string, a1: nat)
    ensures forall k :: Taken(k, t0, a0, t1, a1) == Taken(k, t1, a1, t0, a0)
    ensures Affords(m, t0, a0, t1, a1) <==> Affords(m, t1, a1, t0, a0)
  {
  }

  /** The amounts stay with their tokens, whichever order these are put in. */
  lemma {:induction false} TargetNames(pools: map<string, PoolState>, token0: string, token1: string, x0: u64, x1: u64)
    ensures var (pool, t0, t1, a0, a1) := AddTarget(pools, token0, token1, x0, x1);
            || (t0 == token0 && t1 == token1 && a0 == x0 && a1 == x1)
            || (t0 == token1 && t1 == token0 && a0 == x1 && a1 == x0)
    ensures PoolID(token0, token1) in pools ==>
              AddTarget(pools, token0, token1, x0, x1) == (pools[PoolID(token0, token1)], token0, token1, x0, x1)
    ensures PoolID(token0, token1) !in pools ==>
              AddTarget(pools, token0, token1, x0, x1) ==
              if Sorting.Le(token0, token1)
              then (PoolState(PoolID(token0, token1), token0, token1, 0, 0, 0, 30), token0, token1, x0, x1)
              else (PoolState(PoolID(token0, token1), token1, token0, 0, 0, 0, 30), token1, token0, x1, x0)
  {
  }

  /** The pool a successful add leaves is the one it worked on, grown by the amounts and the shares. */
  lemma {:induction false} AddedIs(pools: map<string, PoolState>, m: Balances, token0: string, token1: string,
                                   amount0: string, amount1: string)
    requires AddTo(pools, m, token0, token1, amount0, amount1).0.Success?
    ensures ParsedAmount(amount0).Some? && ParsedAmount(amount1).Some?
    ensures var (pool, t0, t1, a0, a1) :=
              AddTarget(pools, token0, token1, ParsedAmount(amount0).value, ParsedAmount(amount1).value);
            var added := AddTo(pools, m, token0, token1, amount0, amount1).0.value;
            && QuoteAdd(pool, a0, a1) == Success(added.shares)
            && added.pool == AfterAdd(pool, a0, a1, added.shares)
  {
    hide ParsedAmount, PoolID, QuoteAdd, AddTarget, AfterAdd;
  }

  /**
   * A new pool has the two tokens in order, of each token the amount given for that token, the rounded
   * root of their product as shares, and a fee of 30 basis points; a stored pool's reserves grow by the
   * amounts in the order given.
   */
  lemma {:induction false} AddedPool(pools: map<string, PoolState>, m: Balances, token0: string, token1: string,
                                     amount0: string, amount1: string)
    requires AddTo(pools, m, token0, token1, amount0, amount1).0.Success?
    ensures ParsedAmount(amount0).Some? && ParsedAmount(amount1).Some?
    ensures var id := PoolID(token0, token1);
            var Added(q, shares) := AddTo(pools, m, token0, token1, amount0, amount1).0.value;
            var x0, x1 := ParsedAmount(amount0).value, ParsedAmount(amount1).value;
            && (id !in pools ==>
                  && 0 < shares && shares * shares <= x0 * x1 < (shares + 1) * (shares + 1)
                  && q == if Sorting.Le(token0, token1)
                          then PoolState(id, token0, token1, x0, x1, shares, 30)
                          else PoolState(id, token1, token0, x1, x0, shares, 30))
            && (id in pools ==>
                  && QuoteAdd(pools[id], x0, x1) == Success(shares)
                  && q == pools[id].(reserve0 := pools[id].reserve0 + x0, reserve1 := pools[id].reserve1 + x1,
                                     shares := pools[id].shares + shares))
  {
    hide ParsedAmount, PoolID, QuoteAdd, AddTarget, AddTo;
    AddedIs(pools, m, token0, token1, amount0, amount1);
    var x0, x1 := ParsedAmount(amount0).value, ParsedAmount(amount1).value;
    TargetNames(pools, token0, token1, x0, x1);
    var (pool, t0, t1, a0, a1) := AddTarget(pools, token0, token1, x0, x1);
    AddIsExact(pool, a0, a1);
    Swapped64(x0, x1);
  }

  lemma Swapped64(x: nat, y: nat)
    ensures x * y == y * x
  {
  }

  /**
   * A remove succeeds exactly when its pool is there and has more than one share, shares are given, and the
   * LP tokens given are held. It takes all the LP tokens given, burns as many shares but one, and credits
   * the low 64 bits of what each side pays for them, wrapping.
   */
  lemma {:induction false} RemoveMoves(pools: map<string, PoolState>, m: Balances, id: string, given: u64)
    requires id in pools ==> Filed(id, pools[id])
    ensures var r := RemoveFrom(pools, m, id, given);
            && (r.Success? <==> id in pools && 0 < given && 1 < pools[id].shares && given <= Bal(m, LpKey(id)))
            && (r.Success? ==>
                  var p, q, after := pools[id], r.value.pool, r.value.balances;
                  var burnt := if given < p.shares then given else p.shares - 1;
                  && q.shares == p.shares - burnt
                  && IsShareOf(p.reserve0, p.shares, burnt, p.reserve0 - q.reserve0)
                  && IsShareOf(p.reserve1, p.shares, burnt, p.reserve1 - q.reserve1)
                  && r.value.amount0 == (p.reserve0 - q.reserve0) % TWO_64
                  && r.value.amount1 == (p.reserve1 - q.reserve1) % TWO_64
                  && Bal(after, LpKey(id)) == Bal(m, LpKey(id)) - given
                  && (p.token0 != p.token1 ==>
                        && Bal(after, p.token0) == (Bal(m, p.token0) + r.value.amount0) % TWO_64
                        && Bal(after, p.token1) == (Bal(m, p.token1) + r.value.amount1) % TWO_64)
                  && (p.token0 == p.token1 ==>
                        Bal(after, p.token0) == (Bal(m, p.token0) + r.value.amount0 + r.value.amount1) % TWO_64)
                  && OthersKept(m, after, {LpKey(id), p.token0, p.token1}))
  {
    hide Redeem, LpKey, IsShareOf, PoolID, AfterRemove, BurnOf, Plus, Minus;
    if id in pools {
      LpKeyIsNoToken(pools[id].token0, pools[id].token1);
      RemoveIsExact(pools[id], given);
      if 0 < given && 1 < pools[id].shares && given <= Bal(m, LpKey(id)) {
        RedeemedIs(pools[id], given);
        CreditedTwice(m, LpKey(id), given, pools[id].token0, RemoveFrom(pools, m, id, given).value.amount0,
                      pools[id].token1, RemoveFrom(pools, m, id, given).value.amount1);
      }
    }
  }

  lemma RedeemedIs(p: PoolState, given: u64)
    requires 0 < BurnOf(p, given)
    ensures var q := AfterRemove(p, BurnOf(p, given));
            Redeem(p, BurnOf(p, given)) == (p.reserve0 - q.reserve0, p.reserve1 - q.reserve1)
  {
    hide Redeem;
  }

  lemma CreditedTwice(m: Balances, lp: string, given: u64, t0: string, x: u64, t1: string, y: u64)
    requires given <= Bal(m, lp) && lp != t0 && lp != t1
    ensures var after := Plus(Plus(Minus(m, lp, given), t0, x), t1, y);
            && Bal(after, lp) == Bal(m, lp) - given
            && (t0 != t1 ==> Bal(after, t0) == (Bal(m, t0) + x) % TWO_64 && Bal(after, t1) == (Bal(m, t1) + y) % TWO_64)
            && (t0 == t1 ==> Bal(after, t0) == (Bal(m, t0) + x + y) % TWO_64)
            && OthersKept(m, after, {lp, t0, t1})
  {
    hide Plus, Minus, Bal;
    var taken := Minus(m, lp, given);
    forall k
      ensures Bal(taken, k) == if k == lp then Bal(m, lp) - given else Bal(m, k)
    {
      BalOfMinus(m, lp, given, k);
    }
    forall k
      ensures Bal(Plus(taken, t0, x), k) == if k == t0 then (Bal(m, t0) + x) % TWO_64 else Bal(taken, k)
    {
      BalOfPlus(taken, t0, x, k);
    }
    forall k
      ensures Bal(Plus(Plus(taken, t0, x), t1, y), k)
           == if k == t1 then (Bal(Plus(taken, t0, x), t1) + y) % TWO_64 else Bal(Plus(taken, t0, x), k)
    {
      BalOfPlus(Plus(taken, t0, x), t1, y, k);
    }
    Low64Absorbs(Bal(m, t0) + x, y);
  }

  lemma BalOfMinus(m: Balances, key: string, d: u64, k: string)
    requires d <= Bal(m, key)
    ensures Bal(Minus(m, key, d), k) == if k == key then Bal(m, key) - d else Bal(m, k)
  {
  }

  lemma BalOfPlus(m: Balances, key: string, d: u64, k: string)
    ensures Bal(Plus(m, key, d), k) == if k == key then (Bal(m, key) + d) % TWO_64 else Bal(m, k)
  {
  }
}
