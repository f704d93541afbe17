/**
 * The bridge object: its pool store, its cached portfolios, and the three swap-page operations
 * (internal/bridge/onexswap.go, portfolio.go, amm/store.go). They are proved to follow BookRuns.Perform.
 */
module Bridge {
  import opened Numbers
  import opened Results
  import Sorting
  import opened Amounts
  import opened Amm
  import opened Bookkeeping
  import opened BookRuns

  class Portfolio {
    const address: string
    var balances: Balances

    constructor (address: string, balances: Balances)
      ensures this.address == address && this.balances == balances
    {
      this.address, this.balances := address, balances;
    }

    method GetBalance(key: string) returns (n: u64)
      ensures n == Bal(balances, key)
    {
      n := if key in balances then balances[key] else 0;
    }

    method SetBalance(key: string, amount: u64)
      modifies this
      ensures balances == old(balances)[key := amount]
    {
      balances := balances[key := amount];
    }

    /** The uint64 sum wraps silently. */
    method AddBalance(key: string, delta: u64)
      modifies this
      ensures balances == Plus(old(balances), key, delta)
    {
      var current := GetBalance(key);
      SetBalance(key, Add64(current, delta));
    }

    method SubBalance(key: string, delta: u64) returns (ok: bool)
      modifies this
      ensures ok <==> delta <= Bal(old(balances), key)
      ensures balances == if delta <= Bal(old(balances), key) then Minus(old(balances), key, delta) else old(balances)
    {
      var current := GetBalance(key);
      if current < delta {
        return false;
      }
      SetBalance(key, current - delta);
      return true;
    }
  }

  /** The portfolio's side of a swap. */
  method Exchange(p: Portfolio, tokenIn: string, amountIn: u64, tokenOut: string, out: u64) returns (ok: bool)
    modifies p
    ensures ok <==> amountIn <= Bal(old(p.balances), tokenIn)
    ensures !ok ==> p.balances == old(p.balances)
    ensures ok ==> p.balances == Plus(Minus(old(p.balances), tokenIn, amountIn), tokenOut, out)
  {
    ok := p.SubBalance(tokenIn, amountIn);
    if !ok {
      return;
    }
    p.AddBalance(tokenOut, out);
  }

  /** The portfolio's side of an add: a refused second deduction does not undo the first. */
  method PayIn(p: Portfolio, pool: Pool, t0: string, a0: u64, t1: string, a1: u64, shares: u64) returns (ok: bool)
    modifies p
    ensures var d := Deposit(pool.Value(), old(p.balances), t0, t1, a0, a1, shares);
            (ok <==> d.0.Success?) && p.balances == d.1
  {
    hide Add64, AfterAdd;
    ok := p.SubBalance(t0, a0);
    if !ok {
      return;
    }
    ok := p.SubBalance(t1, a1);
    if !ok {
      return;
    }
    var lpKey := LpKey(pool.id);
    var held := p.GetBalance(lpKey);
    p.SetBalance(lpKey, Add64(held, shares));
  }

  /** amm.Store: Get hands out a copy, Update files the given pool under its id. */
  class PoolStore {
    var pools: map<string, PoolState>

    ghost predicate Valid()
      reads this
    {
      forall id :: id in pools ==> pools[id].id == id
    }

    constructor ()
      ensures Valid() && pools == map[]
    {
      pools := map[];
    }

    method Get(id: string) returns (p: Pool?)
      ensures p == null <==> id !in pools
      ensures p != null ==> fresh(p) && p.Value() == pools[id]
    {
      if id !in pools {
        return null;
      }
      p := new Pool(pools[id]);
    }

    method FindPool(a: string, b: string) returns (p: Pool?)
      ensures p == null <==> PoolID(a, b) !in pools
      ensures p != null ==> fresh(p) && p.Value() == pools[PoolID(a, b)]
    {
      p := Get(PoolID(a, b));
    }

    method Update(p: Pool)
      modifies this
      ensures pools == old(pools)[p.id := p.Value()]
      ensures old(Valid()) ==> Valid()
    {
      pools := pools[p.id := p.Value()];
    }
  }

  /** What is paid in depends on the pool only through its id. */
  lemma {:induction false} PaidInIs(pool: PoolState, grown: PoolState, m: Balances, t0: string, t1: string,
                                    a0: u64, a1: u64, shares: u64)
    requires grown.id == pool.id
    ensures Deposit(grown, m, t0, t1, a0, a1, shares).1 == Deposit(pool, m, t0, t1, a0, a1, shares).1
    ensures Deposit(grown, m, t0, t1, a0, a1, shares).0.Success?
       <==> Deposit(pool, m, t0, t1, a0, a1, shares).0.Success?
    ensures Deposit(pool, m, t0, t1, a0, a1, shares).0.Failure? ==>
              Deposit(pool, m, t0, t1, a0, a1, shares).0 == Failure(InsufficientBalance)
  {
  }

  /** The operations write one portfolio; the others keep their balances. */
  twostate lemma {:induction false} OnlyWalletChanged(b: Bridge)
    requires old(b.Valid()) && b.data == old(b.data)
    requires forall a :: a in b.data && a != b.wallet ==> b.data[a].balances == old(b.data[a].balances)
    ensures b.Value().wallets == old(b.Value()).wallets[b.wallet := b.data[b.wallet].balances]
  {
  }

  class Bridge {
    const wallet: string
    const store: PoolStore
    var data: map<string, Portfolio>

    /** A wallet's portfolio is in the cache, and each portfolio is cached under its own address only. */
    ghost predicate Valid()
      reads this, store
    {
      store.Valid() && wallet in data && forall a :: a in data ==> data[a].address == a
    }

    constructor (wallet: string, store: PoolStore, portfolio: Portfolio)
      requires store.Valid() && portfolio.address == wallet
      ensures Valid() && this.wallet == wallet && this.store == store && data == map[wallet := portfolio]
    {
      this.wallet, this.store, data := wallet, store, map[wallet := portfolio];
    }

    /** Every pool and every portfolio, as a value. */
    ghost function Value(): Books
      reads this, store, data.Values
    {
      Books(store.pools, map a | a in data :: data[a].balances)
    }

    /** The pool's id, the parsed amount and the output it would give. */
    method Quote(tokenIn: string, tokenOut: string, amount: string) returns (r: Result<(string, u64, u64), BookError>)
      requires Valid()
      ensures r == match ParsedAmount(amount)
                   case None => Failure(BadAmount)
                   case Some(a) =>
                     var id := PoolID(tokenIn, tokenOut);
                     if id !in store.pools then Failure(NoPool)
                     else
                       match QuoteSwap(store.pools[id], tokenIn, a)
                       case Failure(e) => Failure(PoolRefused(e))
                       case Success(out) => Success((id, a, out))
    {
      hide PoolID, QuoteSwap, ParsedAmount;
      var parsed := ParseAmount(amount);
      if parsed.None? {
        return Failure(BadAmount);
      }
      var pool := store.FindPool(tokenIn, tokenOut);
      if pool == null {
        return Failure(NoPool);
      }
      var out := QuoteSwap(pool.Value(), tokenIn, parsed.value);
      r := match out case Failure(e) => Failure(PoolRefused(e)) case Success(n) => Success((pool.id, parsed.value, n));
    }

    method Swap(tokenIn: string, tokenOut: string, amount: string, slippageBps: int)
      returns (r: Result<(u64, u64), BookError>)
      requires Valid()
      modifies store, data[wallet]
      ensures Valid() && data == old(data)
      ensures Value() == Perform(old(Value()), DoSwap(wallet, tokenIn, tokenOut, amount, slippageBps))
      ensures r == match SwapOn(old(store.pools), old(data[wallet].balances), tokenIn, tokenOut, amount, slippageBps)
                   case Failure(e) => Failure(e)
                   case Success(s) => Success((s.amountIn, s.out))
    {
      hide PoolID, QuoteSwap, MinOut, ParsedAmount, AfterSwap, Add64, Plus, Minus, AddTo, RemoveFrom;
      ghost var before := Value();
      assert Wallet(before, wallet) == data[wallet].balances;
      var quoted := Quote(tokenIn, tokenOut, amount);
      if quoted.Failure? {
        return Failure(quoted.error);
      }
      var amountIn := quoted.value.1;
      var pool := store.Get(quoted.value.0);
      var expected := QuoteSwap(pool.Value(), tokenIn, amountIn);
      var swapped := pool.Swap(tokenIn, amountIn);
      var out := swapped.value;
      var minOut := MinOut(expected.value, slippageBps);
      if out < minOut {
        return Failure(SlippageExceeded);
      }
      var p := data[wallet];
      var ok := Exchange(p, tokenIn, amountIn, tokenOut, out);
      if !ok {
        return Failure(InsufficientBalance);
      }
      store.Update(pool);
      OnlyWalletChanged(this);
      r := Success((amountIn, out));
    }

    method AddLiquidity(token0: string, token1: string, amount0: string, amount1: string)
      returns (r: Result<u64, BookError>)
      requires Valid()
      modifies store, data[wallet]
      ensures Valid() && data == old(data)
      ensures Value() == Perform(old(Value()), DoAdd(wallet, token0, token1, amount0, amount1))
      ensures r == match AddTo(old(store.pools), old(data[wallet].balances), token0, token1, amount0, amount1).0
                   case Failure(e) => Failure(e)
                   case Success(a) => Success(a.shares)
    {
      hide PoolID, QuoteAdd, ParsedAmount, AfterAdd, Add64, AddTarget, SwapOn, RemoveFrom, Plus, Minus;
      ghost var before := Value();
      assert Wallet(before, wallet) == data[wallet].balances;
      var parsed0 := ParseAmount(amount0);
      if parsed0.None? {
        return Failure(BadAmount);
      }
      var parsed1 := ParseAmount(amount1);
      if parsed1.None? {
        return Failure(BadAmount);
      }
      var pool, t0, t1, a0, a1 := PoolFor(token0, token1, parsed0.value, parsed1.value);
      ghost var target := pool.Value();
      var minted := pool.AddLiquidity(a0, a1);
      if minted.Failure? {
        return Failure(PoolRefused(minted.error));
      }
      var p := data[wallet];
      var ok := PayIn(p, pool, t0, a0, t1, a1, minted.value);
      PaidInIs(target, pool.Value(), before.wallets[wallet], t0, t1, a0, a1, minted.value);
      if ok {
        store.Update(pool);
      }
      OnlyWalletChanged(this);
      r := if ok then Success(minted.value) else Failure(InsufficientBalance);
    }

    /** The stored pool of the two tokens, or a new empty one with its tokens put in order. */
    method PoolFor(token0: string, token1: string, amount0: u64, amount1: u64)
      returns (pool: Pool, t0: string, t1: string, a0: u64, a1: u64)
      ensures fresh(pool) && (pool.Value(), t0, t1, a0, a1) == AddTarget(store.pools, token0, token1, amount0, amount1)
    {
      t0, t1, a0, a1 := token0, token1, amount0, amount1;
      var found := store.FindPool(t0, t1);
      if found != null {
        pool := found;
      } else {
        var id := PoolID(t0, t1);
        if !Sorting.Le(t0, t1) {
          t0, t1 := t1, t0;
          a0, a1 := a1, a0;
        }
        pool := new Pool(PoolState(id, t0, t1, 0, 0, 0, DEFAULT_FEE_BPS));
      }
    }

    method RemoveLiquidity(id: string, shares: u64) returns (r: Result<(u64, u64), BookError>)
      requires Valid()
      modifies store, data[wallet]
      ensures Valid() && data == old(data)
      ensures Value() == Perform(old(Value()), DoRemove(wallet, id, shares))
      ensures r == match RemoveFrom(old(store.pools), old(data[wallet].balances), id, shares)
                   case Failure(e) => Failure(e)
                   case Success(x) => Success((x.amount0, x.amount1))
    {
      hide AfterRemove, Redeem, Add64, Low64, Plus, Minus, SwapOn, AddTo;
      ghost var before := Value();
      assert Wallet(before, wallet) == data[wallet].balances;
      var pool := store.Get(id);
      if pool == null {
        return Failure(NoPool);
      }
      var redeemed := pool.RemoveLiquidity(shares);
      if redeemed.Failure? {
        return Failure(PoolRefused(redeemed.error));
      }
      var (a0, a1) := redeemed.value;
      var p := data[wallet];
      var ok := p.SubBalance(LpKey(id), shares);
      if !ok {
        return Failure(InsufficientBalance);
      }
      p.AddBalance(pool.token0, a0);
      p.AddBalance(pool.token1, a1);
      store.Update(pool);
      OnlyWalletChanged(this);
      r := Success((a0, a1));
    }
  }
}
