/** What a stored block is worth, whoever sent it: which blocks are accepted, exactly, and what mining makes. */
module ProofOfWork {
  import opened Numbers
  import opened Results
  import Text
  import History
  import opened Types
  import opened Crypto
  import opened LedgerState
  import opened Consensus
  import opened Storage
  import opened Chain
  import opened Network
  import opened Protocol

  /** A hash that begins with so many zeros. */
  predicate HasZeros(hash: string, difficulty: nat) {
    difficulty <= |hash| && forall i :: 0 <= i < difficulty ==> hash[i] == '0'
  }

  lemma {:induction false} ZeroPrefix(hash: string, difficulty: nat)
    ensures Text.Repeat('0', difficulty) <= hash <==> HasZeros(hash, difficulty)
  {
    var zeros := Text.Repeat('0', difficulty);
    if HasZeros(hash, difficulty) {
      assert hash[..difficulty] == zeros;
    }
    if zeros <= hash {
      assert forall i :: 0 <= i < difficulty ==> hash[i] == zeros[i];
    }
  }

  // ----- mining -----

  /** The header with another nonce, modulo 2^64 ahead. */
  function Ahead(h: Header, k: nat): Header {
    h.(nonce := (h.nonce + k) % TWO_64)
  }

  /** The hash of a header's payload begins with as many zeros as its difficulty asks for. */
  predicate Solves(c: Scheme, h: Header) {
    HasZeros(c.hash(HeaderPayload(h)), h.difficulty)
  }

  /** h is the header k nonces ahead of start, and the first ahead of it that solves. */
  predicate FirstSolution(c: Scheme, start: Header, h: Header, k: nat) {
    && 0 < k && h == Ahead(start, k) && Solves(c, h)
    && forall j: nat :: 0 < j < k ==> !Solves(c, Ahead(start, j))
  }

  lemma AttemptSolves(c: Scheme, h: Header, j: nat)
    ensures Attempt(h, j) == Ahead(h, j)
    ensures Wins(c, Attempt(h, j)) <==> Solves(c, Ahead(h, j))
  {
    hide HeaderPayload;
    ZeroPrefix(c.hash(HeaderPayload(Ahead(h, j))), h.difficulty);
  }

  /** Mining gives the header with the first nonce after its own that solves it, and every other field as it was. */
  lemma {:induction false} MinedIsFirst(c: Scheme, h: Header)
    requires Minable(c, h)
    ensures exists k: nat :: FirstSolution(c, h, Mined(c, h), k)
  {
    hide Wins, Solves, Attempt, Ahead;
    var m := Mined(c, h);
    var k :| IsFirstWin(c, h, k) && m == Attempt(h, k);
    AttemptSolves(c, h, k);
    forall j: nat | 0 < j < k
      ensures !Solves(c, Ahead(h, j))
    {
      AttemptSolves(c, h, j);
      assert !Wins(c, Attempt(h, j));
    }
    assert FirstSolution(c, h, m, k);
  }

  // ----- the state a block leads to -----

  /** The account of a rewarded miner. */
  function Paid(acc: Account, reward: u64): Account {
    Account((acc.balance + reward) % TWO_64, acc.nonce)
  }

  function PaidTo(st: State, miner: string, reward: u64): State {
    if miner == "" || reward == 0 then st else st[miner := Paid(Get(st, miner), reward)]
  }

  lemma RewardedIsPaid(st: State, miner: string, reward: u64)
    ensures Rewarded(st, miner, reward) == PaidTo(st, miner, reward)
  {
  }

  /** The state after a block's transactions, with the miner's reward unless it is a genesis block. */
  function WithReward(st: State, b: Block, reward: u64): State {
    if b.header.index == 0 then st else PaidTo(st, b.header.miner, reward)
  }

  lemma {:induction false} BlockRun(c: Scheme, reward: u64, st: State, b: Block)
    ensures Run(c, st, BlockEvents(b, reward)) ==
            match Run(c, st, Applies(b.txs, b.header.miner))
            case Failure(e) => Failure(e)
            case Success(st') => Success(WithReward(st', b, reward))
  {
    hide Run;
    if b.header.index == 0 {
      assert BlockEvents(b, reward) == Applies(b.txs, b.header.miner);
    } else {
      SimulatedIsRun(c, reward, st, b);
    }
  }

  // ----- producing -----

  /** The header a producer starts from: the next index, one second later, on the tip, with nonce 0. */
  ghost function StartHeader(c: Scheme, tip: Block, st: State, difficulty: u64, miner: string): Header {
    var last := 0x7FFF_FFFF_FFFF_FFFF;
    Header((tip.header.index + 1) % TWO_64,
           if tip.header.timestamp == last then -0x8000_0000_0000_0000 else tip.header.timestamp + 1,
           tip.hash, c.hash(RootText(st)), difficulty, miner, 0)
  }

  /**
   * A producer gives the error of the first transaction its state refuses, or the block of exactly those
   * transactions whose header is the start header, of the state they and the reward lead to, with the
   * first nonce that solves it, and whose hash is that header's.
   */
  lemma {:induction false} ProducedIs(c: Scheme, reward: u64, cv: ChainVal, txs: seq<Tx>, miner: string,
                                      difficulty: u64)
    requires CanMine(c, reward, cv, txs, miner, difficulty) && cv.store.height in cv.store.blocks
    ensures var tip := cv.store.blocks[cv.store.height];
            var run := Run(c, cv.state, Applies(txs, miner));
            match Produced(c, reward, cv, txs, miner, difficulty)
            case Failure(e) => run.Failure? && e == TxRefused(run.error)
            case Success(b) =>
              && run.Success? && b.txs == txs && b.hash == c.hash(HeaderPayload(b.header))
              && var start := StartHeader(c, tip, PaidTo(run.value, miner, reward), difficulty, miner);
                exists k: nat :: FirstSolution(c, start, b.header, k)
  {
    hide Run, RootText, HeaderPayload, FirstSolution, Minable, PaidTo;
    var tip := cv.store.blocks[cv.store.height];
    var r := Simulated(c, reward, cv.state, txs, miner);
    if r.Success? {
      var st := Run(c, cv.state, Applies(txs, miner)).value;
      RewardedIsPaid(st, miner, reward);
      var start := StartHeader(c, tip, PaidTo(st, miner, reward), difficulty, miner);
      assert Draft(c, tip, r.value, miner, difficulty) == start;
      MinedIsFirst(c, start);
    }
  }

  // ----- acceptance -----

  /** The block's place: the next index, a later one, or a second genesis block on a first. */
  predicate InPlace(tip: Block, b: Block) {
    || b.header.index == (tip.header.index + 1) % TWO_64
    || tip.header.index < b.header.index
    || (b.header.index == 0 && tip.header.index == 0 && b.hash != tip.hash)
  }

  /** A block that is no genesis block names the tip's hash, and its own hash is its header's and has the zeros. */
  predicate LinkedAndProven(c: Scheme, tip: Block, b: Block) {
    b.header.index == 0 ||
    (b.header.previousHash == tip.hash && Proven(c, b))
  }

  predicate Proven(c: Scheme, b: Block) {
    b.header.index == 0 ||
    (b.hash == c.hash(HeaderPayload(b.header)) && b.hash != "" && HasZeros(b.hash, b.header.difficulty))
  }

  /** The transactions succeed one after the other, and the header states the root of the state they lead to. */
  ghost predicate StatesItsRoot(c: Scheme, reward: u64, st: State, b: Block) {
    match Run(c, st, Applies(b.txs, b.header.miner))
    case Failure(_) => false
    case Success(st') => b.header.stateRoot == c.hash(RootText(WithReward(st', b, reward)))
  }

  /**
   * Any block at all, from anyone: it is accepted exactly when it is in place, names the tip's hash, is
   * proven, and states its root. It is then stored under its index, and the state becomes the one its
   * transactions and reward lead to; otherwise the store and the state stay as they were.
   */
  lemma {:induction false} AcceptedExactlyWhen(c: Scheme, reward: u64, cv: ChainVal, b: Block)
    ensures Judge(c, reward, cv, b).Accept? <==>
              && cv.store.height in cv.store.blocks
              && (var tip := cv.store.blocks[cv.store.height];
                  InPlace(tip, b) && LinkedAndProven(c, tip, b))
              && StatesItsRoot(c, reward, cv.state, b)
    ensures var after := Offered(c, reward, cv, b);
            if Judge(c, reward, cv, b).Accept? then
              && after.store.blocks == cv.store.blocks[b.header.index := b]
              && after.store.height == (if cv.store.height < b.header.index then b.header.index else cv.store.height)
              && Run(c, cv.state, Applies(b.txs, b.header.miner)).Success?
              && after.state == WithReward(Run(c, cv.state, Applies(b.txs, b.header.miner)).value, b, reward)
            else after == cv
  {
    hide Run, RootText, HeaderPayload, WithReward;
    ZeroPrefix(b.hash, b.header.difficulty);
    BlockRun(c, reward, cv.state, b);
  }

  /** Which error a refused block gives: for its place, then its link, its proof, its transactions, and its root. */
  lemma {:induction false} RefusedBecause(c: Scheme, reward: u64, cv: ChainVal, b: Block)
    requires cv.store.height in cv.store.blocks
    ensures var tip := cv.store.blocks[cv.store.height];
            var verdict := Judge(c, reward, cv, b);
            && (verdict == AlreadyTip <==> !InPlace(tip, b) && b.hash == tip.hash)
            && (verdict == Reject(NotNext) <==> !InPlace(tip, b) && b.hash != tip.hash)
            && (verdict == Reject(InvalidPreviousHash) <==>
                  InPlace(tip, b) && b.header.index != 0 && b.header.previousHash != tip.hash)
            && (verdict == Reject(InvalidProof) <==>
                  InPlace(tip, b) && b.header.index != 0 && b.header.previousHash == tip.hash && !Proven(c, b))
            && (verdict == Reject(RootMismatch) <==>
                  && InPlace(tip, b) && LinkedAndProven(c, tip, b)
                  && Run(c, cv.state, Applies(b.txs, b.header.miner)).Success?
                  && !StatesItsRoot(c, reward, cv.state, b))
  {
    hide Run, RootText, HeaderPayload, WithReward;
    ZeroPrefix(b.hash, b.header.difficulty);
    BlockRun(c, reward, cv.state, b);
  }

  // ----- every stored block -----

  /** Every stored block is filed under its index and is proven. */
  predicate AllProven(c: Scheme, s: StoreVal) {
    forall i :: i in s.blocks ==> s.blocks[i].header.index == i && Proven(c, s.blocks[i])
  }

  lemma {:induction false} OfferedIsProven(c: Scheme, reward: u64, cv: ChainVal, b: Block)
    requires AllProven(c, cv.store)
    ensures AllProven(c, Offered(c, reward, cv, b).store)
  {
    hide Judge, Offered, HeaderPayload, HasZeros, StatesItsRoot, Run;
    AcceptedExactlyWhen(c, reward, cv, b);
  }

  // ----- links -----

  /** Every stored block above index 0 names the hash of the stored block below it, and none is above the height. */
  ghost predicate Linked(s: StoreVal) {
    && s.height in s.blocks
    && forall i :: i in s.blocks ==> i <= s.height && (0 < i ==> exists j :: NamesBelow(s, j, i))
  }

  ghost predicate NamesBelow(s: StoreVal, j: u64, i: u64) {
    && j < i && j in s.blocks && i in s.blocks && s.blocks[i].header.previousHash == s.blocks[j].hash
    && forall k :: k in s.blocks ==> k <= j || i <= k
  }

  lemma {:induction false} PutIsLinked(s: StoreVal, b: Block)
    requires Linked(s) && s.height < b.header.index && b.header.previousHash == s.blocks[s.height].hash
    ensures Linked(Put(s, b))
  {
    var after := Put(s, b);
    assert NamesBelow(after, s.height, b.header.index);
    forall i | i in after.blocks && 0 < i
      ensures exists j :: NamesBelow(after, j, i)
    {
      if i != b.header.index {
        var j :| NamesBelow(s, j, i);
        assert NamesBelow(after, j, i);
      }
    }
  }

  /** Accepted blocks link on: below the last index of all, where the next one wraps to the genesis index. */
  lemma {:induction false} OfferedIsLinked(c: Scheme, reward: u64, cv: ChainVal, b: Block)
    requires AllProven(c, cv.store) && Linked(cv.store) && cv.store.height < TWO_64 - 1
    ensures Linked(Offered(c, reward, cv, b).store)
  {
    hide Judge, HeaderPayload, HasZeros, StatesItsRoot, Run, Proven, Linked, NamesBelow;
    AcceptedExactlyWhen(c, reward, cv, b);
    if Judge(c, reward, cv, b).Accept? {
      LinkedHasTip(cv.store);
      assert cv.store.blocks[cv.store.height].header.index == cv.store.height;
      if b.header.index == 0 {
        PutGenesis(cv.store, b);
      } else {
        PutIsLinked(cv.store, b);
      }
    }
  }

  lemma LinkedHasTip(s: StoreVal)
    requires Linked(s)
    ensures s.height in s.blocks
  {
  }

  lemma PutGenesis(s: StoreVal, b: Block)
    requires Linked(s) && s.height == 0 && b.header.index == 0
    ensures Linked(Put(s, b))
  {
  }

  // ----- runs -----

  ghost predicate StoreOk(c: Scheme, s: StoreVal) {
    AllProven(c, s) && (s.height < TWO_64 - 1 ==> Linked(s))
  }

  lemma {:induction false} OfferedIsOk(c: Scheme, reward: u64, cv: ChainVal, b: Block)
    requires StoreOk(c, cv.store)
    ensures StoreOk(c, Offered(c, reward, cv, b).store)
  {
    hide Judge, AllProven, Linked;
    OfferedIsProven(c, reward, cv, b);
    if cv.store.height < TWO_64 - 1 {
      OfferedIsLinked(c, reward, cv, b);
    }
  }

  lemma {:induction false} AppliedIsOk(c: Scheme, reward: u64, cv: ChainVal, blocks: seq<Option<Block>>)
    requires StoreOk(c, cv.store)
    ensures StoreOk(c, AppliedInOrder(c, reward, cv, blocks).store)
    decreases |blocks|
  {
    hide StoreOk, Judge, Offered;
    if blocks != [] {
      if blocks[0].None? {
        AppliedIsOk(c, reward, cv, blocks[1..]);
      } else {
        var b := blocks[0].value;
        OfferedIsOk(c, reward, cv, b);
        if !Judge(c, reward, cv, b).Reject? {
          AppliedIsOk(c, reward, Offered(c, reward, cv, b), blocks[1..]);
        }
      }
    }
  }

  lemma {:induction false} StepIsOk(cfg: History.Config, net: Net, a: Action)
    requires forall i :: 0 <= i < |net.nodes| ==> StoreOk(cfg.scheme, net.nodes[i].store)
    ensures forall i :: 0 <= i < |net.nodes| ==> StoreOk(cfg.scheme, Step(cfg, net, a).nodes[i].store)
  {
    hide StoreOk, AppliedInOrder, Offered, MayMine, MinedBlock, BlocksFrom;
    if a.n < |net.nodes| {
      var cv := net.nodes[a.n];
      match a
      case Mine(n, txs, miner) =>
        if MayMine(cfg, cv, txs, miner) {
          OfferedIsOk(cfg.scheme, cfg.reward, cv, MinedBlock(cfg, cv, txs, miner));
        }
      case Ask(_, _) =>
      case Serve(_, _) =>
      case Deliver(_, m) =>
        var blocks := match m case NewBlock(b) => [b] case Blocks(bs) => bs case GetBlocks(_) => [];
        AppliedIsOk(cfg.scheme, cfg.reward, cv, Wrapped(blocks));
    }
  }

  /**
   * Over every run, from any start and with any messages in the network, forged ones included: every
   * stored block above index 0 carries its header's hash, with the zeros its difficulty asks for, and,
   * below the last index of all, names the hash of the stored block below it.
   */
  lemma {:induction false} StoredBlocksAreProven(cfg: History.Config, net: Net, actions: seq<Action>)
    requires forall i :: 0 <= i < |net.nodes| ==> StoreOk(cfg.scheme, net.nodes[i].store)
    ensures forall i :: 0 <= i < |net.nodes| ==> StoreOk(cfg.scheme, RunNet(cfg, net, actions).nodes[i].store)
    decreases |actions|
  {
    hide StoreOk, Step;
    if actions != [] {
      StepIsOk(cfg, net, actions[0]);
      StoredBlocksAreProven(cfg, Step(cfg, net, actions[0]), actions[1..]);
    }
  }

  /** A lone genesis block is such a start. */
  lemma {:induction false} GenesisIsOk(c: Scheme, g: Block)
    requires g.header.index == 0
    ensures StoreOk(c, StoreVal(map[0 := g], 0))
  {
    hide HeaderPayload;
  }
}
