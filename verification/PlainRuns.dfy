/** Networks that write plain addresses only: there equal tips always mean equal states. */
module PlainRuns {
  import opened Numbers
  import opened Results
  import opened Types
  import opened Crypto
  import opened LedgerState
  import opened StateRoot
  import opened Consensus
  import opened Storage
  import opened Chain
  import opened History
  import opened Network
  import opened Protocol

  /** A check on the request: the transactions and the miner of a block to be mined. */
  predicate PlainAction(a: Action) {
    a.Mine? ==> PlainAddress(a.miner) && forall i :: 0 <= i < |a.txs| ==> PlainTx(a.txs[i])
  }

  predicate PlainStore(s: StoreVal) {
    forall i :: i in s.blocks ==> PlainBlock(s.blocks[i])
  }

  predicate PlainMessage(m: Message) {
    match m
    case NewBlock(b) => PlainBlock(b)
    case Blocks(bs) => PlainChain(bs)
    case GetBlocks(_) => true
  }

  predicate PlainNet(net: Net) {
    && (forall i :: 0 <= i < |net.nodes| ==> PlainStore(net.nodes[i].store))
    && (forall m :: m in net.sent ==> PlainMessage(m))
  }

  lemma OfferedKeepsPlain(c: Scheme, reward: u64, cv: ChainVal, b: Block)
    requires PlainStore(cv.store) && PlainBlock(b)
    ensures PlainStore(Offered(c, reward, cv, b).store)
  {
    hide Judge, PlainBlock;
  }

  lemma {:induction false} AppliedKeepsPlain(c: Scheme, reward: u64, cv: ChainVal, blocks: seq<Block>)
    requires PlainStore(cv.store) && PlainChain(blocks)
    ensures PlainStore(AppliedInOrder(c, reward, cv, Wrapped(blocks)).store)
    decreases |blocks|
  {
    hide Judge, Offered, PlainBlock, PlainStore;
    if blocks != [] {
      OfferedKeepsPlain(c, reward, cv, blocks[0]);
      assert Wrapped(blocks)[1..] == Wrapped(blocks[1..]);
      if !Judge(c, reward, cv, blocks[0]).Reject? {
        AppliedKeepsPlain(c, reward, Offered(c, reward, cv, blocks[0]), blocks[1..]);
      }
    }
  }

  lemma {:induction false} ServedIsPlain(s: StoreVal, from: nat)
    requires PlainStore(s)
    ensures PlainChain(BlocksFrom(s, from))
    decreases TWO_64 - from
  {
    hide PlainBlock;
    if from <= s.height && from in s.blocks {
      ServedIsPlain(s, from + 1);
    }
  }

  lemma {:induction false} MinedIsPlain(cfg: Config, cv: ChainVal, txs: seq<Tx>, miner: string)
    requires MayMine(cfg, cv, txs, miner)
    requires PlainAddress(miner) && forall i :: 0 <= i < |txs| ==> PlainTx(txs[i])
    ensures PlainBlock(MinedBlock(cfg, cv, txs, miner))
  {
    hide Simulated, Root, Minable, PlainTx, PlainAddress, Wins;
  }

  lemma {:induction false} StepKeepsPlain(cfg: Config, net: Net, a: Action)
    requires PlainNet(net) && PlainAction(a)
    ensures PlainNet(Step(cfg, net, a))
  {
    hide PlainStore, PlainBlock, PlainChain, PlainTx, PlainAddress, AppliedInOrder, Offered, MinedBlock, MayMine,
         BlocksFrom, Wrapped;
    if a.n < |net.nodes| {
      var cv := net.nodes[a.n];
      match a
      case Mine(n, txs, miner) =>
        if MayMine(cfg, cv, txs, miner) {
          MinedIsPlain(cfg, cv, txs, miner);
          OfferedKeepsPlain(cfg.scheme, cfg.reward, cv, MinedBlock(cfg, cv, txs, miner));
        }
      case Ask(_, _) =>
      case Serve(_, request) =>
        if request.GetBlocks? {
          ServedIsPlain(cv.store, request.from);
        }
      case Deliver(_, m) =>
        if m in net.sent {
          DeliveredArePlain(m);
          var blocks := match m case NewBlock(b) => [b] case Blocks(bs) => bs case GetBlocks(_) => [];
          AppliedKeepsPlain(cfg.scheme, cfg.reward, cv, blocks);
        }
    }
  }

  lemma DeliveredArePlain(m: Message)
    requires PlainMessage(m)
    ensures PlainChain(match m case NewBlock(b) => [b] case Blocks(bs) => bs case GetBlocks(_) => [])
  {
    hide PlainBlock;
  }

  lemma {:induction false} RunKeepsNetPlain(cfg: Config, net: Net, actions: seq<Action>)
    requires PlainNet(net) && forall i :: 0 <= i < |actions| ==> PlainAction(actions[i])
    ensures PlainNet(RunNet(cfg, net, actions))
    decreases |actions|
  {
    hide PlainNet, PlainAction, Step;
    if actions != [] {
      StepKeepsPlain(cfg, net, actions[0]);
      RunKeepsNetPlain(cfg, Step(cfg, net, actions[0]), actions[1..]);
    }
  }

  lemma {:induction false} PlainNodeHasPlainState(cfg: Config, cv: ChainVal)
    requires PlainStore(cv.store) && Contiguous(cv.store)
    requires Replay(cfg, Stored(cv.store)) == Success(cv.state)
    ensures PlainState(cv.state)
  {
    hide PlainBlock, PlainState, Replay;
    ReplayIsPlain(cfg, Stored(cv.store));
  }

  /**
   * With a plain genesis block, and only plain addresses mined, nodes with equal tip hashes always have
   * the same headers and the same state, whatever is lost, repeated or reordered.
   */
  lemma {:induction false} PlainRunsAgree(cfg: Config, net: Net, actions: seq<Action>, i: nat, j: nat)
    requires Founded(cfg) && Init(cfg, net) && i < |net.nodes| && j < |net.nodes|
    requires PlainBlock(cfg.genesis) && forall k :: 0 <= k < |actions| ==> PlainAction(actions[k])
    ensures var p, q := RunNet(cfg, net, actions).nodes[i], RunNet(cfg, net, actions).nodes[j];
            && Contiguous(p.store) && Contiguous(q.store)
            && PlainState(p.state) && PlainState(q.state)
            && (Last(Stored(p.store)).hash == Last(Stored(q.store)).hash ==>
                  Headers(Stored(p.store)) == Headers(Stored(q.store)) && p.state == q.state)
  {
    hide Founded, RunNet, PlainBlock, PlainState, Replay, Overlaps, Headers, PlainAction, PlainStore;
    InitIsPlain(cfg, net);
    RunKeepsNetPlain(cfg, net, actions);
    LiveStateIsReplay(cfg, net, actions, i);
    LiveStateIsReplay(cfg, net, actions, j);
    PlainNodeHasPlainState(cfg, RunNet(cfg, net, actions).nodes[i]);
    PlainNodeHasPlainState(cfg, RunNet(cfg, net, actions).nodes[j]);
    EqualTipsAgree(cfg, net, actions, i, j);
  }

  lemma {:induction false} InitIsPlain(cfg: Config, net: Net)
    requires Init(cfg, net) && PlainBlock(cfg.genesis)
    ensures PlainNet(net)
  {
    hide PlainBlock, Replay;
  }
}
