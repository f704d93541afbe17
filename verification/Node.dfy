/**
 * A solo mining node (internal/node/node.go): transactions validated into the pool, and the mining loop.
 */
module Node {
  import opened Numbers
  import opened Results
  import opened Types
  import opened Crypto
  import opened LedgerState
  import opened Coins
  import opened Batches
  import opened Consensus
  import opened Storage
  import opened Chain
  import opened Mempool

  const MAX_PENDING := 100

  /** Every pooled transaction would be accepted by the live state right now. */
  ghost predicate PoolValid(c: Scheme, st: State, txs: map<string, Tx>) {
    forall k :: k in txs ==> ValidAlone(c, st, txs[k])
  }

  /** The pool holds at most one transaction per sender. */
  predicate OnePerSender(txs: map<string, Tx>) {
    forall j, k :: j in txs && k in txs && j != k ==> txs[j].sender != txs[k].sender
  }

  /** Valid together with the key discipline leaves room for one transaction per sender only. */
  lemma {:induction false} ValidMeansOnePerSender(c: Scheme, st: State, txs: map<string, Tx>)
    requires PoolValid(c, st, txs) && Keyed(txs)
    ensures OnePerSender(txs)
  {
  }

  /** So the pool, in whatever order it is listed, is a batch that succeeds. */
  lemma {:induction false} PoolIsBatch(c: Scheme, st: State, keys: seq<string>, txs: map<string, Tx>)
    requires Supply(st) < TWO_64 && PoolValid(c, st, txs) && Keyed(txs) && Lists(keys, txs)
    ensures forall i :: 0 <= i < |keys| ==> keys[i] in txs
    ensures Batch(c, st, Select(keys, txs))
  {
    hide Supply, ValidAlone, Lists, TxKey;
    ListsMembers(keys, txs);
    ValidMeansOnePerSender(c, st, txs);
  }

  /** Running the first part of a batch leaves the rest a batch. */
  lemma {:induction false} BatchSplits(c: Scheme, st: State, txs: seq<Tx>, rest: seq<Tx>, miner: string)
    requires Batch(c, st, txs + rest)
    ensures Run(c, st, Applies(txs, miner)).Success?
    ensures Batch(c, Run(c, st, Applies(txs, miner)).value, rest)
    ensures Supply(Run(c, st, Applies(txs, miner)).value) <= Supply(st)
    decreases |txs|
  {
    hide Supply, ValidAlone, Transferred, DistinctSenders;
    if txs == [] {
      assert txs + rest == rest;
    } else {
      assert (txs + rest)[1..] == txs[1..] + rest && (txs + rest)[0] == txs[0];
      HeadSupply(c, st, txs + rest, miner);
      BatchTail(c, st, txs + rest, miner);
      var next := Transferred(st, txs[0], miner);
      assert Applies(txs, miner)[1..] == Applies(txs[1..], miner);
      BatchSplits(c, next, txs[1..], rest, miner);
    }
  }

  lemma {:induction false} HeadSupply(c: Scheme, st: State, txs: seq<Tx>, miner: string)
    requires Batch(c, st, txs) && txs != []
    ensures Cost(txs[0]) <= Get(st, txs[0].sender).balance
    ensures Supply(Transferred(st, txs[0], miner)) <= Supply(st)
  {
    hide Supply, Transferred;
    assert ValidAlone(c, st, txs[0]);
    SupplyOfTransfer(st, txs[0], miner);
    TransferWithinBound(st, txs[0], miner);
  }

  /** A reward within the supply bound keeps a batch a batch. */
  lemma {:induction false} RewardKeepsBatch(c: Scheme, st: State, txs: seq<Tx>, miner: string, reward: u64)
    requires Batch(c, st, txs) && Supply(st) + reward < TWO_64
    ensures Batch(c, Rewarded(st, miner, reward), txs)
    ensures Supply(Rewarded(st, miner, reward)) <= Supply(st) + reward
  {
    hide Supply, ValidAlone, DistinctSenders;
    BalanceAtMostSupply(st, miner);
    SupplyOfCredit(st, miner, reward);
    forall i | 0 <= i < |txs|
      ensures ValidAlone(c, Rewarded(st, miner, reward), txs[i])
    {
      CreditKeepsValid(c, st, txs[i], miner, reward);
    }
  }

  /** What is left in the pool after a block is exactly the transactions it did not take. */
  lemma {:induction false} RemainderIsTail(keys: seq<string>, txs: map<string, Tx>, m: nat)
    requires Lists(keys, txs) && Keyed(txs) && m <= |keys|
    ensures forall i :: 0 <= i < |keys| ==> keys[i] in txs
    ensures var left := txs - KeysOf(Select(keys[..m], txs));
            forall k :: k in left ==> k in txs && left[k] == txs[k] && k in keys[m..]
  {
    hide Lists, TxKey;
    ListsMembers(keys, txs);
    var taken := Select(keys[..m], txs);
    forall i | 0 <= i < m
      ensures keys[i] in KeysOf(taken)
    {
      assert TxKey(taken[i]) == keys[i];
    }
    forall k | k in txs - KeysOf(taken)
      ensures k in keys[m..]
    {
      var i :| 0 <= i < |keys| && keys[i] == k;
      assert keys[m..][i - m] == k;
    }
  }

  /**
   * A block made of the pool's first transactions succeeds, and leaves the rest of the pool valid.
   */
  lemma {:induction false} BlockOfPool(c: Scheme, st: State, keys: seq<string>, txs: map<string, Tx>, m: nat,
                    miner: string, reward: u64)
    requires Supply(st) + reward < TWO_64 && PoolValid(c, st, txs) && Keyed(txs) && Lists(keys, txs) && m <= |keys|
    ensures forall i :: 0 <= i < |keys| ==> keys[i] in txs
    ensures var taken := Select(keys[..m], txs);
            var r := Simulated(c, reward, st, taken, miner);
            && r.Success? && Supply(r.value) <= Supply(st) + reward
            && PoolValid(c, r.value, txs - KeysOf(taken))
  {
    hide Supply, ValidAlone, Run, Lists, Rewarded, DistinctSenders;
    PoolIsBatch(c, st, keys, txs);
    var taken, rest := Select(keys[..m], txs), Select(keys[m..], txs);
    assert Select(keys, txs) == taken + rest;
    BatchSplits(c, st, taken, rest, miner);
    var middle := Run(c, st, Applies(taken, miner)).value;
    RewardKeepsBatch(c, middle, rest, miner, reward);
    var after := Rewarded(middle, miner, reward);
    RemainderIsTail(keys, txs, m);
    forall k | k in txs - KeysOf(taken)
      ensures ValidAlone(c, after, (txs - KeysOf(taken))[k])
    {
      var i :| 0 <= i < |keys[m..]| && keys[m..][i] == k;
      assert rest[i] == txs[k];
    }
  }

  /** Mining always ends: every header of this difficulty has a winning nonce. */
  ghost predicate AlwaysMinable(c: Scheme, difficulty: u64) {
    forall h: Header :: h.difficulty == difficulty ==> Minable(c, h)
  }

  class MiningNode {
    const bc: Blockchain
    const pool: Pool
    const miner: string

    constructor (bc: Blockchain, pool: Pool, miner: string)
      ensures this.bc == bc && this.pool == pool && this.miner == miner
    {
      this.bc, this.pool, this.miner := bc, pool, miner;
    }

    /** What the objects always keep: a pool in shape, and a chain that ends at its height. */
    ghost predicate Ready()
      reads this, bc, bc.store, bc.state, pool
    {
      && Sound(bc.scheme)
      && pool.Valid()
      && match Tip(bc.store.Value())
         case Some(tip) => tip.header.index == bc.store.height
         case None => false
    }

    /** The node's invariant: the pool is valid in the live state, which is within the supply bound. */
    ghost predicate Valid()
      reads this, bc, bc.store, bc.state, pool
    {
      && Ready()
      && Supply(bc.state.accounts) < TWO_64
      && PoolValid(bc.scheme, bc.state.accounts, pool.txs)
    }

    /** The transactions a tick would mine are refused. */
    ghost predicate Stuck()
      reads this, bc, bc.store, bc.state, pool
    {
      && Ready()
      && Simulated(bc.scheme, bc.reward, bc.state.accounts, FirstOf(pool.keys, pool.txs, MAX_PENDING), miner).Failure?
    }

    /**
     * The transaction callback pools exactly what the live state accepts, mints and wrapping charges
     * included. The node's invariant is kept by transfers whose charge does not wrap; and nothing that is
     * submitted frees a stuck node.
     */
    method OnTransaction(tx: Tx)
      requires pool.Valid()
      modifies pool
      ensures pool.Valid()
      ensures pool.txs == old(pool.txs) || pool.txs == old(pool.txs)[TxKey(tx) := tx]
      ensures TxKey(tx) in pool.txs
         <==> TxKey(tx) in old(pool.txs) || ApplyTx(bc.scheme, bc.state.accounts, tx, "").Success?
      ensures old(Ready()) ==> Ready()
      ensures old(Valid()) && !IsCoinbase(tx) && Fits(tx) ==> Valid() && OnePerSender(pool.txs)
      ensures old(Stuck()) ==> Stuck()
    {
      hide Supply, TxKey, Sound, Fits, Refusal, Keyed, Lists, Simulated, FirstOf;
      ghost var keys, txs := pool.keys, pool.txs;
      var error := bc.ValidateTx(tx);
      if error.None? {
        pool.Add(tx);
      }
      FirstGrows(keys, txs, pool.keys, pool.txs, MAX_PENDING);
      StaysRefused(bc.scheme, bc.reward, bc.state.accounts, FirstOf(keys, txs, MAX_PENDING),
                   FirstOf(pool.keys, pool.txs, MAX_PENDING), miner);
      if old(Valid()) && !IsCoinbase(tx) && Fits(tx) {
        assert PoolValid(bc.scheme, bc.state.accounts, pool.txs);
        ValidMeansOnePerSender(bc.scheme, bc.state.accounts, pool.txs);
      }
    }

    /**
     * One tick of the mining loop: it mines the first pooled transactions, or, exactly when these are
     * refused, changes nothing. Under the supply bound it always mines, whatever order the pool is listed
     * in, and what stays in the pool stays valid.
     */
    method Tick() returns (r: Result<Block, ChainError>)
      requires Ready()
      requires AlwaysMinable(bc.scheme, bc.difficulty) && bc.store.height < TWO_64 - 1
      modifies pool, bc.state, bc.store
      ensures Ready()
      ensures r.Failure? <==> old(Stuck())
      ensures r.Failure? ==> Stuck() && bc.Value() == old(bc.Value())
                             && pool.txs == old(pool.txs) && pool.keys == old(pool.keys)
      ensures r.Success? ==>
                && r.value.txs == old(FirstOf(pool.keys, pool.txs, 100))
                && pool.txs == old(pool.txs) - KeysOf(r.value.txs)
                && r.value.header.index == old(bc.store.height) + 1 == bc.store.height
                && bc.store.Value() == Put(old(bc.store.Value()), r.value)
      ensures old(Valid() && Supply(bc.state.accounts) + bc.reward < TWO_64) ==>
                && r.Success? && Valid() && OnePerSender(pool.txs)
                && Supply(bc.state.accounts) <= old(Supply(bc.state.accounts)) + bc.reward
    {
      hide Supply, TxKey, Minable, Simulated, Sound, PoolValid, Lists, Keyed, KeysOf;
      var txs := pool.Pending(MAX_PENDING);
      ghost var c, st := bc.scheme, bc.state.accounts;
      ghost var before, keys, pooled := bc.Value(), pool.keys, pool.txs;
      assert txs == FirstOf(keys, pooled, MAX_PENDING);
      MineableHere(c, bc.reward, before, txs, miner, bc.difficulty);
      ProducedTxs(c, bc.reward, before, txs, miner, bc.difficulty);
      if Simulated(c, bc.reward, st, txs, miner).Success? {
        ProducedIsAccepted(c, bc.reward, before, txs, miner, bc.difficulty);
      }
      r := bc.FinalizeAndMineBlock(txs, miner);
      if r.Success? {
        pool.RemoveIncluded(txs);
      }
      if Supply(st) + bc.reward < TWO_64 && PoolValid(c, st, pooled) {
        BlockOfPool(c, st, keys, pooled, |txs|, miner, bc.reward);
        ValidMeansOnePerSender(c, bc.state.accounts, pool.txs);
      }
    }

    /**
     * The mining loop: between ticks the callback submits transactions. The stored chain grows by exactly
     * the blocks mined. With submitted transfers whose charges fit, under the supply bound, every tick
     * mines a block; after a tick that failed, none ever does, whatever is submitted.
     */
    method MineLoop(submitted: seq<seq<Tx>>) returns (mined: seq<Block>)
      requires Ready()
      requires AlwaysMinable(bc.scheme, bc.difficulty) && bc.store.height + |submitted| < TWO_64
      modifies pool, bc.state, bc.store
      ensures Ready()
      ensures |mined| <= |submitted| && bc.store.height == old(bc.store.height) + |mined|
      ensures forall i :: 0 <= i < |mined| ==> mined[i].header.index == old(bc.store.height) + 1 + i
      ensures bc.store.Value() == PutAll(old(bc.store.Value()), mined)
      ensures old(Valid() && Supply(bc.state.accounts) + |submitted| * bc.reward < TWO_64) && AllFit(submitted) ==>
                Valid() && OnePerSender(pool.txs) && |mined| == |submitted|
      ensures old(Stuck()) ==> Stuck() && mined == [] && bc.Value() == old(bc.Value())
    {
      hide Supply, Sound, AlwaysMinable, PoolValid, IsCoinbase, Fits, KeysOf, TxKey, PutAll, Put, Lists, Keyed,
           Simulated, FirstOf, OnePerSender;
      mined := [];
      PutNone(bc.store.Value());
      var i := 0;
      ghost var supply := Supply(bc.state.accounts);
      ghost var healthy := Valid() && supply + |submitted| * bc.reward < TWO_64 && AllFit(submitted);
      ghost var stuck := Stuck();
      ValidIfListed(bc.scheme, bc.state.accounts, pool.txs);
      while i < |submitted|
        invariant 0 <= i <= |submitted| && |mined| <= i && Ready()
        invariant forall j :: 0 <= j < |mined| ==> mined[j].header.index == old(bc.store.height) + 1 + j
        invariant bc.store.Value() == PutAll(old(bc.store.Value()), mined)
        invariant bc.store.height == old(bc.store.height) + |mined|
        invariant healthy ==> Valid() && OnePerSender(pool.txs) && |mined| == i
        invariant healthy ==> Supply(bc.state.accounts) <= supply + i * bc.reward
        invariant stuck ==> Stuck() && mined == [] && bc.Value() == old(bc.Value())
      {
        Receive(submitted[i]);
        RewardsSoFar(i, |submitted|, bc.reward);
        var r := Tick();
        if r.Success? {
          PutOneMore(old(bc.store.Value()), mined, r.value);
          mined := mined + [r.value];
        }
        i := i + 1;
      }
    }

    /** Transactions that arrive between two ticks. */
    method Receive(txs: seq<Tx>)
      requires Ready()
      modifies pool
      ensures Ready()
      ensures old(Valid()) && (forall j :: 0 <= j < |txs| ==> !IsCoinbase(txs[j]) && Fits(txs[j])) ==> Valid()
      ensures old(Stuck()) ==> Stuck()
    {
      hide Supply, Sound, PoolValid, IsCoinbase, Fits, TxKey, Lists, Keyed, Simulated, FirstOf, OnePerSender;
      ghost var fits := forall j :: 0 <= j < |txs| ==> !IsCoinbase(txs[j]) && Fits(txs[j]);
      var j := 0;
      while j < |txs|
        invariant 0 <= j <= |txs| && Ready()
        invariant old(Valid()) && fits ==> Valid()
        invariant old(Stuck()) ==> Stuck()
      {
        OnTransaction(txs[j]);
        j := j + 1;
      }
    }
  }

  /** Every submitted transaction is a transfer whose charge does not wrap. */
  predicate AllFit(submitted: seq<seq<Tx>>) {
    forall i, j :: 0 <= i < |submitted| && 0 <= j < |submitted[i]| ==>
      !IsCoinbase(submitted[i][j]) && Fits(submitted[i][j])
  }

  /** A list of transactions that is refused stays refused when more are listed after it. */
  lemma {:induction false} StaysRefused(c: Scheme, reward: u64, st: State, txs: seq<Tx>, more: seq<Tx>, miner: string)
    requires txs <= more
    ensures Simulated(c, reward, st, txs, miner).Failure? ==> Simulated(c, reward, st, more, miner).Failure?
  {
    var rest := more[|txs|..];
    assert Applies(more, miner) == Applies(txs, miner) + Applies(rest, miner);
    RunConcat(c, st, Applies(txs, miner), Applies(rest, miner));
  }

  lemma {:induction false} ValidIfListed(c: Scheme, st: State, txs: map<string, Tx>)
    ensures PoolValid(c, st, txs) && Keyed(txs) ==> OnePerSender(txs)
  {
    if PoolValid(c, st, txs) && Keyed(txs) {
      ValidMeansOnePerSender(c, st, txs);
    }
  }

  lemma RewardsSoFar(i: nat, n: nat, reward: u64)
    requires i < n
    ensures (i + 1) * reward == i * reward + reward <= n * reward
  {
    MulLe(i + 1, n, reward);
  }

  lemma {:induction false} PutNone(s: StoreVal)
    ensures PutAll(s, []) == s
  {
  }

  lemma {:induction false} PutOneMore(s: StoreVal, bs: seq<Block>, b: Block)
    ensures PutAll(s, bs + [b]) == Put(PutAll(s, bs), b)
  {
    assert (bs + [b])[..|bs|] == bs;
  }

  lemma {:induction false} MineableHere(c: Scheme, reward: u64, cv: ChainVal, txs: seq<Tx>, miner: string,
                                        difficulty: u64)
    requires AlwaysMinable(c, difficulty)
    requires Tip(cv.store).Some? ==> Tip(cv.store).value.header.index < TWO_64 - 1
    ensures CanMine(c, reward, cv, txs, miner, difficulty)
  {
    hide Minable, Simulated, Root;
  }

  lemma {:induction false} ProducedTxs(c: Scheme, reward: u64, cv: ChainVal, txs: seq<Tx>, miner: string,
                                       difficulty: u64)
    requires CanMine(c, reward, cv, txs, miner, difficulty)
    ensures Produced(c, reward, cv, txs, miner, difficulty).Success? ==>
              Produced(c, reward, cv, txs, miner, difficulty).value.txs == txs
  {
    hide Simulated, Root, Minable;
  }
}
