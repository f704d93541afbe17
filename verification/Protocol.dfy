/**
 * Whole runs of a network: any number of nodes, and messages that may be lost, repeated and reordered.
 *
 * A message once sent stays available, so a run may deliver it any number of times, at any node,
 * in any order, or never.
 */
module Protocol {
  import opened Numbers
  import opened Results
  import opened Types
  import opened Crypto
  import opened LedgerState
  import opened StateRoot
  import opened Consensus
  import opened Storage
  import opened Chain
  import opened History
  import opened Network

  datatype Message =
    | GetBlocks(from: u64)
    | Blocks(blocks: seq<Block>)
    | NewBlock(block: Block)

  datatype Net = Net(nodes: seq<ChainVal>, sent: set<Message>)

  /** One step of the network; a step whose guard fails changes nothing. */
  datatype Action =
    | Mine(n: nat, txs: seq<Tx>, miner: string)
    | Ask(n: nat, from: u64)
    | Serve(n: nat, request: Message)
    | Deliver(n: nat, message: Message)

  function Wrapped(blocks: seq<Block>): seq<Option<Block>> {
    if blocks == [] then [] else [Some(blocks[0])] + Wrapped(blocks[1..])
  }

  /** Mining ends and refuses no transaction; the index stays short of the last uint64. */
  ghost predicate MayMine(cfg: Config, cv: ChainVal, txs: seq<Tx>, miner: string) {
    && cv.store.height < TWO_64 - 2
    && CanMine(cfg.scheme, cfg.reward, cv, txs, miner, cfg.difficulty)
    && Produced(cfg.scheme, cfg.reward, cv, txs, miner, cfg.difficulty).Success?
  }

  ghost function MinedBlock(cfg: Config, cv: ChainVal, txs: seq<Tx>, miner: string): Block
    requires MayMine(cfg, cv, txs, miner)
  {
    Produced(cfg.scheme, cfg.reward, cv, txs, miner, cfg.difficulty).value
  }

  ghost function Step(cfg: Config, net: Net, a: Action): (next: Net)
    ensures |next.nodes| == |net.nodes|
  {
    if |net.nodes| <= a.n then net
    else
      var cv := net.nodes[a.n];
      match a
      case Mine(n, txs, miner) =>
        if !MayMine(cfg, cv, txs, miner) then net
        else
          var b := MinedBlock(cfg, cv, txs, miner);
          Net(net.nodes[n := Offered(cfg.scheme, cfg.reward, cv, b)], net.sent + {NewBlock(b)})
      case Ask(n, from) => net.(sent := net.sent + {GetBlocks(from)})
      case Serve(n, request) =>
        if request !in net.sent || !request.GetBlocks? then net
        else net.(sent := net.sent + {Blocks(BlocksFrom(cv.store, request.from))})
      case Deliver(n, m) =>
        if m !in net.sent then net
        else
          var blocks := match m case NewBlock(b) => [b] case Blocks(bs) => bs case GetBlocks(_) => [];
          net.(nodes := net.nodes[n := AppliedInOrder(cfg.scheme, cfg.reward, cv, Wrapped(blocks))])
  }

  ghost function RunNet(cfg: Config, net: Net, actions: seq<Action>): (end: Net)
    ensures |end.nodes| == |net.nodes|
    decreases |actions|
  {
    if actions == [] then net else RunNet(cfg, Step(cfg, net, actions[0]), actions[1..])
  }

  function StateOr(r: Result<State, TxError>, default: State): State {
    match r
    case Success(st) => st
    case Failure(_) => default
  }

  ghost function GenesisNode(cfg: Config): ChainVal {
    ChainVal(StoreVal(map[0 := cfg.genesis], 0), StateOr(Replay(cfg, [cfg.genesis]), map[]))
  }

  ghost predicate Init(cfg: Config, net: Net) {
    && (forall i :: 0 <= i < |net.nodes| ==> net.nodes[i] == GenesisNode(cfg))
    && net.sent == {}
  }

  // ----- the invariant -----

  predicate Contiguous(s: StoreVal) {
    forall i: u64 :: i <= s.height ==> i in s.blocks
  }

  /** The blocks of a store without gaps, in order. */
  function Stored(s: StoreVal): (ch: seq<Block>)
    requires Contiguous(s)
    ensures |ch| == s.height + 1
  {
    seq(s.height + 1, i requires 0 <= i <= s.height => s.blocks[i])
  }

  ghost predicate NodeOk(cfg: Config, cv: ChainVal) {
    Contiguous(cv.store) && Holds(cfg, cv, Stored(cv.store))
  }

  ghost predicate AllKnown(cfg: Config, blocks: seq<Block>) {
    forall i :: 0 <= i < |blocks| ==> Known(cfg, blocks[i])
  }

  ghost predicate MessageOk(cfg: Config, m: Message) {
    match m
    case NewBlock(b) => Known(cfg, b)
    case Blocks(bs) => AllKnown(cfg, bs)
    case GetBlocks(_) => true
  }

  ghost predicate NetOk(cfg: Config, net: Net) {
    && (forall i :: 0 <= i < |net.nodes| ==> NodeOk(cfg, net.nodes[i]))
    && (forall m :: m in net.sent ==> MessageOk(cfg, m))
  }

  lemma HoldsIsStored(cfg: Config, cv: ChainVal, ch: seq<Block>)
    requires Holds(cfg, cv, ch)
    ensures NodeOk(cfg, cv) && Stored(cv.store) == ch
  {
    hide Valid, Replay;
    assert Stored(cv.store) == ch;
  }

  lemma {:induction false} PrefixIsValid(cfg: Config, ch: seq<Block>, k: nat)
    requires Valid(cfg, ch) && 0 < k <= |ch|
    ensures Valid(cfg, ch[..k])
    decreases |ch|
  {
    hide Sealed;
    if k < |ch| {
      PrefixIsValid(cfg, ch[..|ch| - 1], k);
      assert ch[..|ch| - 1][..k] == ch[..k];
    } else {
      assert ch[..k] == ch;
    }
  }

  lemma {:induction false} StoredIsKnown(cfg: Config, ch: seq<Block>, k: nat)
    requires Valid(cfg, ch) && k < |ch|
    ensures Known(cfg, ch[k])
  {
    hide Valid;
    PrefixIsValid(cfg, ch, k + 1);
    assert Last(ch[..k + 1]) == ch[k];
  }

  lemma {:induction false} BlocksFromIs(cfg: Config, cv: ChainVal, ch: seq<Block>, from: nat)
    requires Holds(cfg, cv, ch)
    ensures BlocksFrom(cv.store, from) == if from < |ch| then ch[from..] else []
    decreases TWO_64 - from
  {
    hide Valid, Replay;
    if from < |ch| {
      BlocksFromIs(cfg, cv, ch, from + 1);
      assert from in cv.store.blocks && cv.store.blocks[from] == ch[from];
      assert ch[from..] == [ch[from]] + ch[from + 1..];
      assert from + 1 == |ch| ==> ch[from + 1..] == [];
    }
  }

  /** Known blocks only ever lengthen a node's chain. */
  lemma {:induction false} ApplyingKnown(cfg: Config, cv: ChainVal, ch: seq<Block>, blocks: seq<Block>)
    requires Founded(cfg) && Holds(cfg, cv, ch) && AllKnown(cfg, blocks)
    ensures var after := AppliedInOrder(cfg.scheme, cfg.reward, cv, Wrapped(blocks));
            NodeOk(cfg, after) && ch <= Stored(after.store)
    decreases |blocks|
  {
    hide Holds, Known, Founded, Judge, NodeOk, Stored, Contiguous;
    HoldsIsStored(cfg, cv, ch);
    if blocks != [] {
      var b := blocks[0];
      KnownBlockOffered(cfg, cv, ch, b);
      var next := Offered(cfg.scheme, cfg.reward, cv, b);
      assert Wrapped(blocks)[1..] == Wrapped(blocks[1..]);
      if Judge(cfg.scheme, cfg.reward, cv, b).Accept? {
        ApplyingKnown(cfg, next, ch + [b], blocks[1..]);
      } else {
        ApplyingKnown(cfg, cv, ch, blocks[1..]);
      }
    }
  }

  /** A mined block extends the miner's chain and is known to everyone who gets it. */
  lemma MiningExtends(cfg: Config, cv: ChainVal, ch: seq<Block>, txs: seq<Tx>, miner: string)
    requires Founded(cfg) && Holds(cfg, cv, ch) && MayMine(cfg, cv, txs, miner)
    ensures var b := MinedBlock(cfg, cv, txs, miner);
            && Holds(cfg, Offered(cfg.scheme, cfg.reward, cv, b), ch + [b])
            && Known(cfg, b)
  {
    hide Valid, Run, Root, HashOf, Simulated, Sealed, Minable;
    var b := Produced(cfg.scheme, cfg.reward, cv, txs, miner, cfg.difficulty).value;
    TipOfHolder(cfg, cv, ch);
    ProducedIsAccepted(cfg.scheme, cfg.reward, cv, txs, miner, cfg.difficulty);
    MinedBlockIsValid(cfg, cv, ch, txs, miner, b);
    AppendHolds(cfg, cv, ch, b);
    assert Last(ch + [b]) == b;
  }

  lemma {:induction false} MinedBlockIsValid(cfg: Config, cv: ChainVal, ch: seq<Block>, txs: seq<Tx>, miner: string,
                                             b: Block)
    requires Founded(cfg) && Holds(cfg, cv, ch) && MayMine(cfg, cv, txs, miner)
    requires b == Produced(cfg.scheme, cfg.reward, cv, txs, miner, cfg.difficulty).value
    ensures Valid(cfg, ch + [b])
    ensures Replay(cfg, ch + [b]) == Simulated(cfg.scheme, cfg.reward, cv.state, txs, miner)
  {
    hide Run, Root, HashOf, Simulated, Minable, ValidProof, HashMatchesHeader, BlockEvents;
    TipOfHolder(cfg, cv, ch);
    var tip := Last(ch);
    var st := Simulated(cfg.scheme, cfg.reward, cv.state, txs, miner).value;
    MinedLinks(cfg.scheme, tip, Draft(cfg.scheme, tip, st, miner, cfg.difficulty), b);
    SimulatedIsRun(cfg.scheme, cfg.reward, cv.state, b);
    ReplayExtends(cfg, ch, b);
    assert (ch + [b])[..|ch|] == ch;
    assert Sealed(cfg, ch + [b]);
  }

  // ----- every run -----

  /** Every step keeps every node valid and every chain append-only. */
  lemma StepOk(cfg: Config, net: Net, a: Action)
    requires Founded(cfg) && NetOk(cfg, net)
    ensures var next := Step(cfg, net, a);
            && NetOk(cfg, next)
            && forall i :: 0 <= i < |net.nodes| ==> Stored(net.nodes[i].store) <= Stored(next.nodes[i].store)
  {
    hide Founded, Holds, Known, AppliedInOrder, Offered, MinedBlock, MayMine, Stored, Contiguous;
    if a.n < |net.nodes| {
      var cv := net.nodes[a.n];
      var ch := Stored(cv.store);
      match a
      case Mine(n, txs, miner) =>
        if MayMine(cfg, cv, txs, miner) {
          MiningExtends(cfg, cv, ch, txs, miner);
          var b := MinedBlock(cfg, cv, txs, miner);
          HoldsIsStored(cfg, Offered(cfg.scheme, cfg.reward, cv, b), ch + [b]);
        }
      case Ask(_, _) =>
      case Serve(_, request) =>
        if request.GetBlocks? {
          ServedIsKnown(cfg, cv, ch, request.from);
        }
      case Deliver(_, m) =>
        if m in net.sent {
          var blocks := match m case NewBlock(b) => [b] case Blocks(bs) => bs case GetBlocks(_) => [];
          assert MessageOk(cfg, m);
          ApplyingKnown(cfg, cv, ch, blocks);
        }
    }
  }

  lemma ServedIsKnown(cfg: Config, cv: ChainVal, ch: seq<Block>, from: u64)
    requires Holds(cfg, cv, ch)
    ensures AllKnown(cfg, BlocksFrom(cv.store, from))
  {
    hide Valid, Replay;
    BlocksFromIs(cfg, cv, ch, from);
    forall i | 0 <= i < |BlocksFrom(cv.store, from)|
      ensures Known(cfg, BlocksFrom(cv.store, from)[i])
    {
      StoredIsKnown(cfg, ch, from + i);
    }
  }

  /** Over any run, chains are append-only and every node's live state is the fold of its stored blocks. */
  lemma {:induction false} RunOk(cfg: Config, net: Net, actions: seq<Action>)
    requires Founded(cfg) && NetOk(cfg, net)
    ensures var end := RunNet(cfg, net, actions);
            && NetOk(cfg, end)
            && forall i :: 0 <= i < |net.nodes| ==> Stored(net.nodes[i].store) <= Stored(end.nodes[i].store)
    decreases |actions|
  {
    hide Founded, NodeOk, MessageOk, Step, Stored;
    if actions != [] {
      StepOk(cfg, net, actions[0]);
      RunOk(cfg, Step(cfg, net, actions[0]), actions[1..]);
    }
  }

  lemma InitOk(cfg: Config, net: Net)
    requires Founded(cfg) && Init(cfg, net)
    ensures NetOk(cfg, net)
  {
    hide Valid, Replay, Sound;
    var g := [cfg.genesis];
    GenesisReplays(cfg);
    assert Holds(cfg, GenesisNode(cfg), g);
    HoldsIsStored(cfg, GenesisNode(cfg), g);
  }

  lemma {:induction false} GenesisReplays(cfg: Config)
    requires Founded(cfg)
    ensures Replay(cfg, [cfg.genesis]).Success?
  {
    hide Replay, Root, HashMatchesHeader;
  }

  /** In every reachable network, live state is the fold of the stored blocks from an empty state. */
  lemma {:induction false} LiveStateIsReplay(cfg: Config, net: Net, actions: seq<Action>, i: nat)
    requires Founded(cfg) && Init(cfg, net) && i < |net.nodes|
    ensures var node := RunNet(cfg, net, actions).nodes[i];
            && Contiguous(node.store)
            && Replay(cfg, Stored(node.store)) == Success(node.state)
  {
    hide Founded, RunNet, Init, Replay;
    InitOk(cfg, net);
    RunOk(cfg, net, actions);
    var node := RunNet(cfg, net, actions).nodes[i];
    assert NodeOk(cfg, node);
  }

  lemma {:induction false} RunNetConcat(cfg: Config, net: Net, xs: seq<Action>, ys: seq<Action>)
    ensures RunNet(cfg, net, xs + ys) == RunNet(cfg, RunNet(cfg, net, xs), ys)
    decreases |xs|
  {
    hide Step;
    if xs == [] {
      assert xs + ys == ys;
    } else {
      assert (xs + ys)[1..] == xs[1..] + ys;
      RunNetConcat(cfg, Step(cfg, net, xs[0]), xs[1..], ys);
    }
  }

  /** Append-only: what a node has stored at any moment of a run stays the beginning of its chain. */
  lemma {:induction false} AppendOnly(cfg: Config, net: Net, xs: seq<Action>, ys: seq<Action>, i: nat)
    requires Founded(cfg) && Init(cfg, net) && i < |net.nodes|
    ensures var early, late := RunNet(cfg, net, xs).nodes[i], RunNet(cfg, net, xs + ys).nodes[i];
            && Contiguous(early.store) && Contiguous(late.store)
            && Stored(early.store) <= Stored(late.store)
  {
    hide Founded, RunNet, Init, Holds, Stored, Contiguous;
    InitOk(cfg, net);
    RunOk(cfg, net, xs);
    RunOk(cfg, RunNet(cfg, net, xs), ys);
    RunNetConcat(cfg, net, xs, ys);
  }

  /**
   * Agreement: two nodes with the same tip hash have the same headers throughout. They have the same state
   * exactly when no address of the one state continues past an entry that only the other has; plain
   * addresses never do.
   */
  lemma {:induction false} EqualTipsAgree(cfg: Config, net: Net, actions: seq<Action>, i: nat, j: nat)
    requires Founded(cfg) && Init(cfg, net) && i < |net.nodes| && j < |net.nodes|
    ensures var p, q := RunNet(cfg, net, actions).nodes[i], RunNet(cfg, net, actions).nodes[j];
            && Contiguous(p.store) && Contiguous(q.store)
            && (Last(Stored(p.store)).hash == Last(Stored(q.store)).hash ==>
                  && Headers(Stored(p.store)) == Headers(Stored(q.store))
                  && (p.state == q.state <==> !Overlaps(p.state, q.state) && !Overlaps(q.state, p.state))
                  && (PlainState(p.state) && PlainState(q.state) ==> p.state == q.state))
  {
    hide Founded, RunNet, Init, Valid, Replay, Headers, Overlaps, PlainState;
    InitOk(cfg, net);
    RunOk(cfg, net, actions);
    var p, q := RunNet(cfg, net, actions).nodes[i], RunNet(cfg, net, actions).nodes[j];
    assert NodeOk(cfg, p) && NodeOk(cfg, q);
    if Last(Stored(p.store)).hash == Last(Stored(q.store)).hash {
      Agreement(cfg, Stored(p.store), Stored(q.store));
    }
  }

  // ----- catching up -----

  /** The state a chain led to when it had k blocks. */
  function StateAt(cfg: Config, ch: seq<Block>, k: nat): State
    requires k <= |ch|
  {
    StateOr(Replay(cfg, ch[..k]), map[])
  }

  /** My headers begin the peer's, and my state is what the peer's was then; plain addresses make it so. */
  ghost predicate Behind(cfg: Config, mine: ChainVal, xs: seq<Block>, ys: seq<Block>) {
    && Headers(xs) <= Headers(ys)
    && (|| mine.state == StateAt(cfg, ys, |xs|)
        || (PlainState(mine.state) && PlainState(StateAt(cfg, ys, |xs|))))
  }

  /**
   * A node behind its peer, which applies the peer's answer to its own getblocks request, ends with
   * exactly the peer's headers and state.
   */
  lemma {:induction false} CatchUp(cfg: Config, mine: ChainVal, xs: seq<Block>, theirs: ChainVal, ys: seq<Block>)
    requires Founded(cfg) && Holds(cfg, mine, xs) && Holds(cfg, theirs, ys)
    requires Behind(cfg, mine, xs, ys)
    ensures var reply := BlocksFrom(theirs.store, mine.store.height + 1);
            var after := AppliedInOrder(cfg.scheme, cfg.reward, mine, Wrapped(reply));
            && NodeOk(cfg, after)
            && Headers(Stored(after.store)) == Headers(ys)
            && after.state == theirs.state
  {
    hide Founded, Valid, Replay, Headers, AppliedInOrder, Wrapped, BlocksFrom, PlainState, StateAt;
    BlocksFromIs(cfg, theirs, ys, |xs|);
    assert ys[|ys|..] == [];
    SameStateThen(cfg, mine, xs, ys);
    Absorbs(cfg, mine, xs, ys);
    WholeChain(cfg, theirs, ys);
  }

  lemma {:induction false} WholeChain(cfg: Config, cv: ChainVal, ch: seq<Block>)
    requires Holds(cfg, cv, ch)
    ensures StateAt(cfg, ch, |ch|) == cv.state
  {
    hide Root;
    assert ch[..|ch|] == ch;
  }

  lemma {:induction false} SameStateThen(cfg: Config, mine: ChainVal, xs: seq<Block>, ys: seq<Block>)
    requires Founded(cfg) && Holds(cfg, mine, xs) && Valid(cfg, ys) && Behind(cfg, mine, xs, ys)
    ensures mine.state == StateAt(cfg, ys, |xs|)
  {
    hide Founded, Valid, Replay, Headers, PlainState;
    PrefixIsValid(cfg, ys, |xs|);
    HolderIsValid(cfg, mine, xs);
    EqualHeadersEqualHashes(cfg, xs, ys);
    assert Last(ys[..|xs|]) == ys[|xs| - 1];
    SameHashSameTip(cfg, xs, ys[..|xs|]);
  }

  /** Applying the blocks a chain has beyond mine, one by one. */
  lemma {:induction false} Absorbs(cfg: Config, cv: ChainVal, xs: seq<Block>, ys: seq<Block>)
    requires Founded(cfg) && Holds(cfg, cv, xs) && Valid(cfg, ys)
    requires Headers(xs) <= Headers(ys) && cv.state == StateAt(cfg, ys, |xs|)
    ensures var after := AppliedInOrder(cfg.scheme, cfg.reward, cv, Wrapped(ys[|xs|..]));
            && NodeOk(cfg, after)
            && Headers(Stored(after.store)) == Headers(ys)
            && after.state == StateAt(cfg, ys, |ys|)
    decreases |ys| - |xs|
  {
    hide Founded, Valid, Replay, Judge, Offered, Headers, Holds, NodeOk, Stored, Contiguous, AppliedInOrder, Wrapped,
         StateAt;
    HoldsIsStored(cfg, cv, xs);
    if |xs| == |ys| {
      assert ys[|xs|..] == [];
      AppliedNone(cfg, cv);
      SameHeaders(xs, ys);
    } else {
      var b := ys[|xs|];
      NextIsAccepted(cfg, cv, xs, ys);
      HeadersOfNext(xs, ys);
      Absorbs(cfg, Offered(cfg.scheme, cfg.reward, cv, b), xs + [b], ys);
      WrappedHead(ys, |xs|);
      AppliedHead(cfg.scheme, cfg.reward, cv, b, Wrapped(ys[|xs| + 1..]));
    }
  }

  lemma SameHeaders(xs: seq<Block>, ys: seq<Block>)
    requires Headers(xs) <= Headers(ys) && |xs| == |ys|
    ensures Headers(xs) == Headers(ys)
  {
  }

  /** The block a chain has next is accepted by a node in the state the chain then had. */
  lemma {:induction false} NextIsAccepted(cfg: Config, cv: ChainVal, xs: seq<Block>, ys: seq<Block>)
    requires Founded(cfg) && Holds(cfg, cv, xs) && Valid(cfg, ys) && |xs| < |ys|
    requires Headers(xs) <= Headers(ys) && cv.state == StateAt(cfg, ys, |xs|)
    ensures var b := ys[|xs|];
            && Judge(cfg.scheme, cfg.reward, cv, b).Accept?
            && Holds(cfg, Offered(cfg.scheme, cfg.reward, cv, b), xs + [b])
            && Offered(cfg.scheme, cfg.reward, cv, b).state == StateAt(cfg, ys, |xs| + 1)
  {
    hide Founded, Valid, Replay, Judge, Offered, Headers, Holds;
    var b, zs := ys[|xs|], ys[..|xs| + 1];
    HolderIsValid(cfg, cv, xs);
    PrefixIsValid(cfg, ys, |xs| + 1);
    assert zs[..|zs| - 1] == ys[..|xs|] && zs[..|zs|] == zs && Last(zs) == b;
    EqualHeadersEqualHashes(cfg, xs, ys);
    LinkAt(cfg, ys, |xs|);
    FollowerIsAccepted(cfg, cv, xs, zs);
    StoredIsKnown(cfg, ys, |xs|);
    KnownBlockOffered(cfg, cv, xs, b);
    OfferedState(cfg, cv, xs, zs);
  }

  lemma {:induction false} OfferedState(cfg: Config, cv: ChainVal, xs: seq<Block>, zs: seq<Block>)
    requires Holds(cfg, cv, xs) && Valid(cfg, zs) && 1 < |zs| && cv.state == StateAt(cfg, zs, |zs| - 1)
    requires Judge(cfg.scheme, cfg.reward, cv, Last(zs)).Accept?
    ensures Offered(cfg.scheme, cfg.reward, cv, Last(zs)).state == StateAt(cfg, zs, |zs|)
  {
    hide Root, LinkError, Run, HashMatchesHeader;
    var before := zs[..|zs| - 1];
    TipOfHolder(cfg, cv, xs);
    assert zs == before + [Last(zs)] && zs[..|zs|] == zs;
    ReplayExtends(cfg, before, Last(zs));
  }

  /** The three steps of catching up: ask, let the peer serve, and deliver the answer. */
  ghost function CatchUpSteps(net: Net, i: nat, j: nat): seq<Action>
    requires i < |net.nodes| && j < |net.nodes| && net.nodes[i].store.height < TWO_64 - 1
  {
    var from := net.nodes[i].store.height + 1;
    [Ask(i, from), Serve(j, GetBlocks(from)), Deliver(i, Blocks(BlocksFrom(net.nodes[j].store, from)))]
  }

  /** In every reachable network, a node behind a peer ends these steps with the peer's headers and state. */
  lemma {:induction false} CatchUpInRun(cfg: Config, start: Net, actions: seq<Action>, i: nat, j: nat)
    requires Founded(cfg) && Init(cfg, start) && i < |start.nodes| && j < |start.nodes|
    ensures var net := RunNet(cfg, start, actions);
            var p, q := net.nodes[i], net.nodes[j];
            && Contiguous(p.store) && Contiguous(q.store) && p.store.height < TWO_64 - 1
            && (Behind(cfg, p, Stored(p.store), Stored(q.store)) ==>
                  var after := RunNet(cfg, net, CatchUpSteps(net, i, j)).nodes[i];
                  && Contiguous(after.store)
                  && Headers(Stored(after.store)) == Headers(Stored(q.store))
                  && after.state == q.state)
  {
    hide Founded, RunNet, Init, Valid, Replay, Behind, AppliedInOrder, BlocksFrom, Headers;
    InitOk(cfg, start);
    RunOk(cfg, start, actions);
    var net := RunNet(cfg, start, actions);
    var p, q := net.nodes[i], net.nodes[j];
    assert NodeOk(cfg, p) && NodeOk(cfg, q);
    HeightInBounds(cfg, p, Stored(p.store));
    if Behind(cfg, p, Stored(p.store), Stored(q.store)) {
      CatchUp(cfg, p, Stored(p.store), q, Stored(q.store));
      ThreeSteps(cfg, net, i, j);
    }
  }

  lemma {:induction false} HeightInBounds(cfg: Config, cv: ChainVal, ch: seq<Block>)
    requires Holds(cfg, cv, ch)
    ensures cv.store.height < TWO_64 - 1
  {
    hide Replay, Root, HashMatchesHeader;
  }

  lemma {:induction false} ThreeSteps(cfg: Config, net: Net, i: nat, j: nat)
    requires i < |net.nodes| && j < |net.nodes| && net.nodes[i].store.height < TWO_64 - 1
    ensures RunNet(cfg, net, CatchUpSteps(net, i, j)).nodes[i]
         == AppliedInOrder(cfg.scheme, cfg.reward, net.nodes[i],
                           Wrapped(BlocksFrom(net.nodes[j].store, net.nodes[i].store.height + 1)))
  {
    hide AppliedInOrder, BlocksFrom, MayMine, Wrapped;
    var steps := CatchUpSteps(net, i, j);
    var first := Step(cfg, net, steps[0]);
    var second := Step(cfg, first, steps[1]);
    assert steps[1..][0] == steps[1] && steps[1..][1..] == [steps[2]] && [steps[2]][1..] == [];
    assert RunNet(cfg, net, steps) == RunNet(cfg, first, steps[1..]);
    assert RunNet(cfg, first, steps[1..]) == RunNet(cfg, second, [steps[2]]);
    assert RunNet(cfg, second, [steps[2]]) == RunNet(cfg, Step(cfg, second, steps[2]), []);
  }

  lemma {:induction false} HolderIsValid(cfg: Config, cv: ChainVal, ch: seq<Block>)
    requires Holds(cfg, cv, ch)
    ensures Valid(cfg, ch) && ch != []
  {
    hide Replay;
  }

  lemma {:induction false} WrappedHead(ys: seq<Block>, k: nat)
    requires k < |ys|
    ensures Wrapped(ys[k..]) == [Some(ys[k])] + Wrapped(ys[k + 1..])
  {
    assert ys[k..][1..] == ys[k + 1..];
  }

  lemma {:induction false} AppliedNone(cfg: Config, cv: ChainVal)
    ensures AppliedInOrder(cfg.scheme, cfg.reward, cv, Wrapped([])) == cv
  {
  }

  lemma {:induction false} AppliedHead(c: Scheme, reward: u64, cv: ChainVal, b: Block, rest: seq<Option<Block>>)
    requires !Judge(c, reward, cv, b).Reject?
    ensures AppliedInOrder(c, reward, cv, [Some(b)] + rest)
         == AppliedInOrder(c, reward, Offered(c, reward, cv, b), rest)
  {
    hide Judge, Offered;
    assert ([Some(b)] + rest)[1..] == rest;
  }

  lemma HeadersOfNext(xs: seq<Block>, ys: seq<Block>)
    requires |xs| < |ys| && Headers(xs) <= Headers(ys)
    ensures Headers(xs + [ys[|xs|]]) <= Headers(ys)
  {
    var zs := xs + [ys[|xs|]];
    forall i | 0 <= i < |zs|
      ensures Headers(zs)[i] == Headers(ys)[i]
    {
      if i < |xs| {
        assert Headers(xs)[i] == Headers(ys)[i];
      }
    }
  }

  /** Every block but the genesis block names its predecessor's hash. */
  lemma {:induction false} LinkAt(cfg: Config, ch: seq<Block>, k: nat)
    requires Valid(cfg, ch) && 0 < k < |ch|
    ensures ch[k].header.index == k && ch[k].header.previousHash == ch[k - 1].hash
  {
    hide Replay, Root, HashMatchesHeader;
    PrefixIsValid(cfg, ch, k + 1);
    var p := ch[..k + 1];
    assert p[|p| - 1] == ch[k] && p[|p| - 2] == ch[k - 1];
  }

  lemma {:induction false} EqualHeadersEqualHashes(cfg: Config, xs: seq<Block>, ys: seq<Block>)
    requires Valid(cfg, xs) && Valid(cfg, ys) && Headers(xs) <= Headers(ys)
    ensures Last(xs).hash == ys[|xs| - 1].hash
  {
    hide Replay, Root;
    PrefixIsValid(cfg, ys, |xs|);
    assert Headers(xs)[|xs| - 1] == Headers(ys)[|xs| - 1];
    assert Last(ys[..|xs|]) == ys[|xs| - 1];
    assert HashMatchesHeader(cfg.scheme, Last(xs)) && HashMatchesHeader(cfg.scheme, Last(ys[..|xs|]));
  }
}
