/**
 * The blockchain object (internal/chain/chain.go): validate on a copy, then commit.
 *
 * The specification is a verdict on a chain value; the methods are proved to follow it.
 */
module Chain {
  import opened Numbers
  import opened Results
  import opened Types
  import opened Crypto
  import opened LedgerState
  import opened Consensus
  import opened Storage

  datatype ChainError =
    | NoBlock
    | NotNext
    | InvalidPreviousHash
    | InvalidProof
    | TxRefused(e: TxError)
    | RootMismatch

  /** What a node keeps: its stored blocks and its live state. */
  datatype ChainVal = ChainVal(store: StoreVal, state: State)

  /** What applyBlockInternal finds: an error, nothing to do, or the state to commit. */
  datatype Verdict = Reject(e: ChainError) | AlreadyTip | Accept(state: State)

  /** The index guard at the top of applyBlockInternal: None lets the block through. */
  function IndexGuard(tip: Block, b: Block): Option<Verdict> {
    if b.header.index != Add64(tip.header.index, 1)
       && !(b.header.index == 0 && tip.header.index == 0 && b.hash != tip.hash)
       && b.header.index <= tip.header.index
    then Some(if b.hash == tip.hash then AlreadyTip else Reject(NotNext))
    else None
  }

  /** The checks a block that is not a genesis block must pass against the tip. */
  function LinkError(c: Scheme, tip: Block, b: Block): Option<ChainError> {
    if b.header.index == 0 then None
    else if b.header.previousHash != tip.hash then Some(InvalidPreviousHash)
    else if !ValidProof(b) || !HashMatchesHeader(c, b) then Some(InvalidProof)
    else None
  }

  ghost function StateCheck(c: Scheme, reward: u64, st: State, b: Block): Verdict {
    match Run(c, st, BlockEvents(b, reward))
    case Failure(e) => Reject(TxRefused(e))
    case Success(st') => if b.header.stateRoot == Root(c, st') then Accept(st') else Reject(RootMismatch)
  }

  ghost function Judge(c: Scheme, reward: u64, cv: ChainVal, b: Block): Verdict {
    match Tip(cv.store)
    case None => Reject(NoBlock)
    case Some(tip) =>
      match IndexGuard(tip, b)
      case Some(v) => v
      case None =>
        match LinkError(c, tip, b)
        case Some(e) => Reject(e)
        case None => StateCheck(c, reward, cv.state, b)
  }

  /** The chain after a block is offered to it; a rejected block changes nothing. */
  ghost function Offered(c: Scheme, reward: u64, cv: ChainVal, b: Block): ChainVal {
    match Judge(c, reward, cv, b)
    case Accept(st) => ChainVal(Put(cv.store, b), st)
    case _ => cv
  }

  // ----- producing blocks -----

  /** The header FinalizeAndMineBlock starts mining from. */
  ghost function Draft(c: Scheme, tip: Block, st: State, miner: string, difficulty: u64): Header {
    Header(Add64(tip.header.index, 1), NextI64(tip.header.timestamp), tip.hash, Root(c, st), difficulty, miner, 0)
  }

  /** The state a block of these transactions leads to. */
  function Simulated(c: Scheme, reward: u64, st: State, txs: seq<Tx>, miner: string): Result<State, TxError> {
    match Run(c, st, Applies(txs, miner))
    case Failure(e) => Failure(e)
    case Success(st') => Success(Rewarded(st', miner, reward))
  }

  /** The mining step can be taken: the chain has room for the block, and some nonce wins. */
  ghost predicate CanMine(c: Scheme, reward: u64, cv: ChainVal, txs: seq<Tx>, miner: string, difficulty: u64) {
    match Tip(cv.store)
    case None => true
    case Some(tip) =>
      && tip.header.index < TWO_64 - 1
      && match Simulated(c, reward, cv.state, txs, miner)
         case Failure(_) => true
         case Success(st) => Minable(c, Draft(c, tip, st, miner, difficulty))
  }

  ghost function Produced(c: Scheme, reward: u64, cv: ChainVal, txs: seq<Tx>, miner: string, difficulty: u64)
    : Result<Block, ChainError>
    requires CanMine(c, reward, cv, txs, miner, difficulty)
  {
    match Tip(cv.store)
    case None => Failure(NoBlock)
    case Some(tip) =>
      match Simulated(c, reward, cv.state, txs, miner)
      case Failure(e) => Failure(TxRefused(e))
      case Success(st) =>
        var h := Mined(c, Draft(c, tip, st, miner, difficulty));
        Success(Block(h, txs, HashOf(c, h)))
  }

  lemma {:induction false} SimulatedIsRun(c: Scheme, reward: u64, st: State, b: Block)
    requires b.header.index != 0
    ensures Run(c, st, BlockEvents(b, reward)) == Simulated(c, reward, st, b.txs, b.header.miner)
  {
    var r := Reward(b.header.miner, reward);
    RunConcat(c, st, Applies(b.txs, b.header.miner), [r]);
    match Run(c, st, Applies(b.txs, b.header.miner))
    case Failure(_) =>
    case Success(st') => RunOne(c, st', r);
  }

  /** What a producer mines, the same chain accepts: mining never fails in its own final check. */
  lemma ProducedIsAccepted(c: Scheme, reward: u64, cv: ChainVal, txs: seq<Tx>, miner: string, difficulty: u64)
    requires Sound(c) && CanMine(c, reward, cv, txs, miner, difficulty)
    requires Produced(c, reward, cv, txs, miner, difficulty).Success?
    ensures Judge(c, reward, cv, Produced(c, reward, cv, txs, miner, difficulty).value)
         == Accept(Simulated(c, reward, cv.state, txs, miner).value)
    ensures Produced(c, reward, cv, txs, miner, difficulty).value.header.index
         == Tip(cv.store).value.header.index + 1
  {
    hide Root, HashOf, Simulated, Run, LinkError, Minable;
    var tip := Tip(cv.store).value;
    var draft := Draft(c, tip, Simulated(c, reward, cv.state, txs, miner).value, miner, difficulty);
    var b := Produced(c, reward, cv, txs, miner, difficulty).value;
    MinedLinks(c, tip, draft, b);
    SimulatedIsRun(c, reward, cv.state, b);
  }

  /** Mining changes only the nonce, so the mined header still links to the tip and carries the root. */
  lemma MinedLinks(c: Scheme, tip: Block, draft: Header, b: Block)
    requires Sound(c) && Minable(c, draft) && draft.previousHash == tip.hash
    requires b.header == Mined(c, draft) && b.hash == HashOf(c, b.header)
    ensures b.header == draft.(nonce := b.header.nonce)
    ensures LinkError(c, tip, b) == None && HashMatchesHeader(c, b) && ValidProof(b)
  {
    hide HeaderPayload;
    var k :| IsFirstWin(c, draft, k) && Mined(c, draft) == Attempt(draft, k);
    assert Wins(c, b.header);
  }

  function AsChainError(e: Option<TxError>): Option<ChainError> {
    match e
    case Some(t) => Some(TxRefused(t))
    case None => None
  }

  function AsResult(e: Option<ChainError>, b: Block): Result<Block, ChainError> {
    match e
    case Some(err) => Failure(err)
    case None => Success(b)
  }

  // ----- the object -----

  class Blockchain {
    const scheme: Scheme
    const reward: u64
    const difficulty: u64
    const store: Store
    var state: ChainState

    constructor (scheme: Scheme, reward: u64, difficulty: u64, store: Store)
      ensures this.scheme == scheme && this.reward == reward && this.difficulty == difficulty
      ensures this.store == store && fresh(state) && state.accounts == map[]
    {
      this.scheme, this.reward, this.difficulty, this.store := scheme, reward, difficulty, store;
      state := new ChainState();
    }

    function Value(): ChainVal
      reads this, store, state
    {
      ChainVal(store.Value(), state.accounts)
    }

    /** Runs a block's transactions on a state, stopping at the first that is refused. */
    method ApplyAll(target: ChainState, txs: seq<Tx>, miner: string) returns (error: Option<TxError>)
      modifies target
      ensures match Run(scheme, old(target.accounts), Applies(txs, miner))
              case Failure(e) => error == Some(e)
              case Success(st) => error == None && target.accounts == st
    {
      hide Occur;
      error := None;
      var i := 0;
      ghost var es := Applies(txs, miner);
      while i < |txs|
        invariant 0 <= i <= |txs| && error == None
        invariant Run(scheme, old(target.accounts), es) == Run(scheme, target.accounts, es[i..])
      {
        ghost var st := target.accounts;
        ApplyIsOccur(scheme, st, txs[i], miner);
        assert es[i..][1..] == es[i + 1..];
        error := target.ApplyTransaction(scheme, txs[i], miner);
        if error.Some? {
          return;
        }
        i := i + 1;
      }
    }

    /**
     * All or nothing: a block that is not accepted leaves the state and the store as they were, and
     * the second pass over an accepted block cannot fail and reaches the checked state.
     */
    method ApplyBlockInternal(b: Block, persist: bool) returns (error: Option<ChainError>)
      modifies state, store
      ensures match Judge(scheme, reward, old(Value()), b)
              case Reject(e) => error == Some(e) && Value() == old(Value())
              case AlreadyTip => error == None && Value() == old(Value())
              case Accept(st) =>
                && error == None && state.accounts == st
                && store.Value() == if persist then Put(old(store.Value()), b) else old(store.Value())
    {
      hide Run, Root, Occur, Add64, ValidProof, HashMatchesHeader;
      var found := store.GetTip();
      if found.None? {
        return Some(NoBlock);
      }
      var tip := found.value;
      if b.header.index != Add64(tip.header.index, 1)
         && !(b.header.index == 0 && tip.header.index == 0 && b.hash != tip.hash) {
        if b.header.index <= tip.header.index {
          if b.hash == tip.hash {
            return None;
          }
          return Some(NotNext);
        }
      }
      if 0 < b.header.index {
        if b.header.previousHash != tip.hash {
          return Some(InvalidPreviousHash);
        }
        if !ValidProof(b) || !HashMatchesHeader(scheme, b) {
          return Some(InvalidProof);
        }
      }
      var sim := state.Clone();
      var refused := ExecuteOn(sim, b);
      if refused.Some? {
        return Some(TxRefused(refused.value));
      }
      var root := ComputeStateRoot(scheme, sim.accounts);
      if b.header.stateRoot != root {
        return Some(RootMismatch);
      }
      refused := ExecuteOn(state, b);
      if persist {
        store.PutBlock(b);
      }
      error := AsChainError(refused);
    }

    /** One pass: the transactions, then the reward unless this is the genesis block. */
    method ExecuteOn(target: ChainState, b: Block) returns (error: Option<TxError>)
      modifies target
      ensures match Run(scheme, old(target.accounts), BlockEvents(b, reward))
              case Failure(e) => error == Some(e)
              case Success(st) => error == None && target.accounts == st
    {
      hide Run, Occur;
      ghost var before := target.accounts;
      error := ApplyAll(target, b.txs, b.header.miner);
      if b.header.index == 0 {
        assert BlockEvents(b, reward) == Applies(b.txs, b.header.miner);
      } else {
        SimulatedIsRun(scheme, reward, before, b);
      }
      if error.None? && 0 < b.header.index {
        target.ApplyBlockReward(b.header.miner, reward);
      }
    }

    /** A block from a peer. */
    method ApplyBlock(b: Block) returns (error: Option<ChainError>)
      modifies state, store
      ensures Value() == Offered(scheme, reward, old(Value()), b)
      ensures error == match Judge(scheme, reward, old(Value()), b) case Reject(e) => Some(e) case _ => None
    {
      error := ApplyBlockInternal(b, true);
    }

    /** Either a transaction is refused and nothing changes, or the mined block is committed. */
    method FinalizeAndMineBlock(txs: seq<Tx>, miner: string) returns (r: Result<Block, ChainError>)
      requires Sound(scheme) && CanMine(scheme, reward, Value(), txs, miner, difficulty)
      modifies state, store
      ensures r == Produced(scheme, reward, old(Value()), txs, miner, difficulty)
      ensures r.Failure? ==> Value() == old(Value())
      ensures r.Success? ==> Value() == Offered(scheme, reward, old(Value()), r.value)
      ensures r.Success? ==> Judge(scheme, reward, old(Value()), r.value).Accept?
    {
      hide Run, Root, Occur, Judge, Minable, HashOf, HeaderPayload;
      var found := store.GetTip();
      if found.None? {
        return Failure(NoBlock);
      }
      var tip := found.value;
      var sim := state.Clone();
      var refused := ApplyAll(sim, txs, miner);
      if refused.Some? {
        return Failure(TxRefused(refused.value));
      }
      sim.ApplyBlockReward(miner, reward);
      var root := ComputeStateRoot(scheme, sim.accounts);
      var draft := Header(Add64(tip.header.index, 1), NextI64(tip.header.timestamp), tip.hash, root,
                          difficulty, miner, 0);
      var b := new MutableBlock(draft, txs, scheme.hash(HeaderPayload(draft)));
      b.MineBlock(scheme);
      ghost var before := Value();
      ProducedIsAccepted(scheme, reward, before, txs, miner, difficulty);
      var error := ApplyBlockInternal(b.Value(), true);
      r := AsResult(error, b.Value());
    }

    /** A transaction is valid alone when a copy of the live state accepts it. */
    method ValidateTx(tx: Tx) returns (error: Option<TxError>)
      ensures error == match ApplyTx(scheme, state.accounts, tx, "") case Failure(e) => Some(e) case Success(_) => None
    {
      var sim := state.Clone();
      error := sim.ApplyTransaction(scheme, tx, "");
    }

    /** Rebuilding replays the stored blocks, each judged against the tip that is already stored. */
    method RebuildState() returns (error: Option<ChainError>)
      modifies this`state, store
      ensures store.Value() == old(store.Value())
      ensures fresh(state)
      ensures match Rebuilt(scheme, reward, ChainVal(store.Value(), map[]), 0)
              case Failure(e) => error == Some(e)
              case Success(st) => error == None && state.accounts == st
    {
      hide Judge, Run;
      state := new ChainState();
      error := None;
      ghost var goal := Rebuilt(scheme, reward, ChainVal(store.Value(), map[]), 0);
      var i := 0;
      while i <= store.height
        invariant store.Value() == old(store.Value()) && fresh(state) && error == None
        invariant goal == Rebuilt(scheme, reward, Value(), i)
        decreases TWO_64 - i
      {
        var b := store.GetBlock(i);
        if b.None? {
          return Some(NoBlock);
        }
        error := ApplyBlockInternal(b.value, false);
        if error.Some? {
          return;
        }
        i := i + 1;
      }
    }
  }

  /** rebuildState as written: the replay of the stored blocks from index i on. */
  ghost function Rebuilt(c: Scheme, reward: u64, cv: ChainVal, i: nat): Result<State, ChainError>
    decreases TWO_64 - i
  {
    if cv.store.height < i then Success(cv.state)
    else if i !in cv.store.blocks then Failure(NoBlock)
    else
      match Judge(c, reward, cv, cv.store.blocks[i])
      case Reject(e) => Failure(e)
      case AlreadyTip => Rebuilt(c, reward, cv, i + 1)
      case Accept(st) => Rebuilt(c, reward, cv.(state := st), i + 1)
  }
}
