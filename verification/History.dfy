/**
 * Chains that honest producers build, and what an equal tip hash says about two of them.
 */
module History {
  import opened Numbers
  import opened Results
  import opened Types
  import opened Crypto
  import opened LedgerState
  import opened StateRoot
  import opened Consensus
  import opened Storage
  import opened Chain

  /** What all nodes of one network share. */
  datatype Config = Config(scheme: Scheme, reward: u64, difficulty: u64, genesis: Block)

  function Events(ch: seq<Block>, reward: u64): seq<Event> {
    if ch == [] then [] else Events(ch[..|ch| - 1], reward) + BlockEvents(ch[|ch| - 1], reward)
  }

  /** The fold of the blocks from an empty state: what rebuildState sets out to compute. */
  function Replay(cfg: Config, ch: seq<Block>): Result<State, TxError> {
    Run(cfg.scheme, map[], Events(ch, cfg.reward))
  }

  /**
   * The last block is where its index says, its header is hashed, and it states the replayed root.
   * (The bound leaves out the chain whose next index would wrap to the genesis index.)
   */
  ghost predicate Sealed(cfg: Config, ch: seq<Block>)
    requires ch != []
  {
    var b := ch[|ch| - 1];
    && b.header.index == |ch| - 1 < TWO_64 - 1
    && HashMatchesHeader(cfg.scheme, b)
    && Replay(cfg, ch).Success?
    && b.header.stateRoot == Root(cfg.scheme, Replay(cfg, ch).value)
  }

  ghost predicate Valid(cfg: Config, ch: seq<Block>) {
    && ch != [] && Sealed(cfg, ch)
    && if |ch| == 1 then ch[0] == cfg.genesis
       else
         && Valid(cfg, ch[..|ch| - 1])
         && ch[|ch| - 1].header.previousHash == ch[|ch| - 2].hash
         && ValidProof(ch[|ch| - 1])
  }

  /** A sound hash, and a genesis block as NewGenesisBlock and New make it. */
  ghost predicate Founded(cfg: Config) {
    && Sound(cfg.scheme)
    && Valid(cfg, [cfg.genesis])
    && cfg.genesis.header.previousHash == "0"
  }

  function Last(ch: seq<Block>): Block
    requires ch != []
  {
    ch[|ch| - 1]
  }

  function Headers(ch: seq<Block>): (hs: seq<Header>)
    ensures |hs| == |ch|
  {
    seq(|ch|, i requires 0 <= i < |ch| => ch[i].header)
  }

  lemma ReplayExtends(cfg: Config, ch: seq<Block>, b: Block)
    requires Replay(cfg, ch).Success?
    ensures Replay(cfg, ch + [b]) == Run(cfg.scheme, Replay(cfg, ch).value, BlockEvents(b, cfg.reward))
  {
    assert (ch + [b])[..|ch|] == ch;
    RunConcat(cfg.scheme, map[], Events(ch, cfg.reward), BlockEvents(b, cfg.reward));
  }

  // ----- plain addresses -----

  predicate PlainTx(tx: Tx) {
    PlainAddress(tx.sender) && PlainAddress(tx.recipient)
  }

  /** The addresses a block writes cannot be misread in a state listing; hexadecimal ones cannot. */
  predicate PlainBlock(b: Block) {
    PlainAddress(b.header.miner) && forall i :: 0 <= i < |b.txs| ==> PlainTx(b.txs[i])
  }

  predicate PlainChain(ch: seq<Block>) {
    forall i :: 0 <= i < |ch| ==> PlainBlock(ch[i])
  }

  predicate PlainEvent(e: Event) {
    match e
    case Apply(tx, miner) => PlainTx(tx) && PlainAddress(miner)
    case Reward(miner, _) => PlainAddress(miner)
  }

  lemma OccurKeepsPlain(c: Scheme, st: State, e: Event)
    requires PlainState(st) && PlainEvent(e) && Occur(c, st, e).Success?
    ensures PlainState(Occur(c, st, e).value)
  {
    hide PlainAddress;
  }

  lemma {:induction false} RunKeepsPlain(c: Scheme, st: State, es: seq<Event>)
    requires PlainState(st) && (forall i :: 0 <= i < |es| ==> PlainEvent(es[i]))
    requires Run(c, st, es).Success?
    ensures PlainState(Run(c, st, es).value)
    decreases |es|
  {
    hide PlainState, PlainEvent, Occur;
    if es != [] {
      OccurKeepsPlain(c, st, es[0]);
      RunKeepsPlain(c, Occur(c, st, es[0]).value, es[1..]);
    }
  }

  lemma {:induction false} EventsArePlain(ch: seq<Block>, reward: u64)
    requires PlainChain(ch)
    ensures forall i :: 0 <= i < |Events(ch, reward)| ==> PlainEvent(Events(ch, reward)[i])
  {
    hide PlainAddress;
    if ch != [] {
      EventsArePlain(ch[..|ch| - 1], reward);
      assert PlainBlock(ch[|ch| - 1]);
    }
  }

  /** A chain that writes plain addresses only leads to a plain state. */
  lemma {:induction false} ReplayIsPlain(cfg: Config, ch: seq<Block>)
    requires PlainChain(ch) && Replay(cfg, ch).Success?
    ensures PlainState(Replay(cfg, ch).value)
  {
    hide PlainChain, PlainEvent, Run;
    EventsArePlain(ch, cfg.reward);
    RunKeepsPlain(cfg.scheme, map[], Events(ch, cfg.reward));
  }

  // ----- agreement -----

  /** The text fields of a valid chain's last header hold no colon. */
  lemma {:induction false} LastHeaderClean(cfg: Config, ch: seq<Block>)
    requires Founded(cfg) && Valid(cfg, ch)
    ensures CleanHeader(Last(ch).header)
  {
    hide Run, RootText, HeaderPayload;
    if |ch| != 1 {
      var before := ch[..|ch| - 1];
      assert Last(before) == ch[|ch| - 2];
      assert HashMatchesHeader(cfg.scheme, Last(before));
    }
  }

  /** The states two valid chains lead to, when their tips state the same root. */
  ghost predicate StatesAgreeIfTold(s: State, t: State) {
    && (s == t <==> !Overlaps(s, t) && !Overlaps(t, s))
    && (PlainState(s) && PlainState(t) ==> s == t)
  }

  lemma {:induction false} SameHashSameTip(cfg: Config, xs: seq<Block>, ys: seq<Block>)
    requires Founded(cfg) && Valid(cfg, xs) && Valid(cfg, ys)
    requires Last(xs).hash == Last(ys).hash
    ensures Last(xs).header == Last(ys).header && |xs| == |ys|
    ensures Replay(cfg, xs).Success? && Replay(cfg, ys).Success?
    ensures StatesAgreeIfTold(Replay(cfg, xs).value, Replay(cfg, ys).value)
  {
    hide Run, Root, HeaderPayload, CleanHeader, Overlaps, PlainState;
    LastHeaderClean(cfg, xs);
    LastHeaderClean(cfg, ys);
    assert cfg.scheme.hash(HeaderPayload(Last(xs).header)) == cfg.scheme.hash(HeaderPayload(Last(ys).header));
    HeaderPayloadIsInjective(Last(xs).header, Last(ys).header);
    RootDecides(cfg.scheme, Replay(cfg, xs).value, Replay(cfg, ys).value);
  }

  /**
   * Two valid chains with equal tip hashes have the same headers throughout. They lead to the same state
   * exactly when no address of the one state continues past an entry that only the other has.
   */
  lemma {:induction false} Agreement(cfg: Config, xs: seq<Block>, ys: seq<Block>)
    requires Founded(cfg) && Valid(cfg, xs) && Valid(cfg, ys)
    requires Last(xs).hash == Last(ys).hash
    ensures Headers(xs) == Headers(ys)
    ensures Replay(cfg, xs).Success? && Replay(cfg, ys).Success?
    ensures StatesAgreeIfTold(Replay(cfg, xs).value, Replay(cfg, ys).value)
    decreases |xs|
  {
    hide Replay, Sealed, Founded, StatesAgreeIfTold;
    SameHashSameTip(cfg, xs, ys);
    if |xs| != 1 {
      var xs', ys' := xs[..|xs| - 1], ys[..|ys| - 1];
      Agreement(cfg, xs', ys');
      assert Headers(xs) == Headers(xs') + [Last(xs).header];
      assert Headers(ys) == Headers(ys') + [Last(ys).header];
    }
  }

  // ----- a node holding a valid chain -----

  /** The node stores exactly these blocks, and its live state is their fold. */
  ghost predicate Holds(cfg: Config, cv: ChainVal, ch: seq<Block>) {
    && Valid(cfg, ch)
    && |ch| < TWO_64 && cv.store.height == |ch| - 1
    && (forall i: u64 :: i in cv.store.blocks <==> i < |ch|)
    && (forall i: u64 :: i < |ch| ==> i in cv.store.blocks && cv.store.blocks[i] == ch[i])
    && cv.state == Replay(cfg, ch).value
  }

  lemma TipOfHolder(cfg: Config, cv: ChainVal, ch: seq<Block>)
    requires Holds(cfg, cv, ch)
    ensures Tip(cv.store) == Some(Last(ch)) && Last(ch).header.index == |ch| - 1
  {
    hide Replay, Root, HashMatchesHeader;
  }

  /** A block some valid chain ends with: what an honest producer can have sent. */
  ghost predicate Known(cfg: Config, b: Block) {
    exists ch :: Valid(cfg, ch) && Last(ch) == b
  }

  /** The blocks a node that holds ch takes: those that follow its tip. */
  predicate Follows(b: Block, ch: seq<Block>)
    requires ch != []
  {
    b.header.index != 0 && b.header.previousHash == Last(ch).hash
  }

  /** A known block that follows my tip has the next index. */
  lemma {:induction false} FollowerIsNext(cfg: Config, ch: seq<Block>, b: Block)
    requires Founded(cfg) && Valid(cfg, ch) && Known(cfg, b) && Follows(b, ch)
    ensures b.header.index == |ch| < TWO_64 - 1 && LinkError(cfg.scheme, Last(ch), b) == None
  {
    hide Run, Root, HashMatchesHeader, Founded, StatesAgreeIfTold;
    var ys :| Valid(cfg, ys) && Last(ys) == b;
    assert |ys| != 1;
    var before := ys[..|ys| - 1];
    assert ys == before + [b] && Last(before) == ys[|ys| - 2];
    SameHashSameTip(cfg, ch, before);
  }

  /** When it also passes the state check, it extends my chain to a valid chain. */
  lemma {:induction false} FollowerExtends(cfg: Config, ch: seq<Block>, b: Block)
    requires Founded(cfg) && Valid(cfg, ch) && Known(cfg, b) && Follows(b, ch)
    requires StateCheck(cfg.scheme, cfg.reward, Replay(cfg, ch).value, b).Accept?
    ensures Valid(cfg, ch + [b]) && Replay(cfg, ch + [b]).Success?
    ensures StateCheck(cfg.scheme, cfg.reward, Replay(cfg, ch).value, b) == Accept(Replay(cfg, ch + [b]).value)
  {
    hide Run, Root, HashMatchesHeader, Founded;
    FollowerIsNext(cfg, ch, b);
    ReplayExtends(cfg, ch, b);
    assert (ch + [b])[..|ch|] == ch;
    assert Sealed(cfg, ch + [b]);
  }

  /** It does pass when my state is the one its producer built on. */
  lemma {:induction false} SameStatePasses(cfg: Config, ch: seq<Block>, ys: seq<Block>)
    requires Valid(cfg, ch) && Valid(cfg, ys) && 1 < |ys|
    requires Replay(cfg, ch) == Replay(cfg, ys[..|ys| - 1])
    ensures StateCheck(cfg.scheme, cfg.reward, Replay(cfg, ch).value, Last(ys)).Accept?
  {
    hide Run, Root, HashMatchesHeader;
    var before, b := ys[..|ys| - 1], Last(ys);
    assert ys == before + [b];
    ReplayExtends(cfg, before, b);
  }

  lemma {:induction false} AppendHolds(cfg: Config, cv: ChainVal, ch: seq<Block>, b: Block)
    requires Holds(cfg, cv, ch) && Valid(cfg, ch + [b])
    ensures Holds(cfg, ChainVal(Put(cv.store, b), Replay(cfg, ch + [b]).value), ch + [b])
  {
    hide Replay, Root, HashMatchesHeader;
    TipOfHolder(cfg, cv, ch);
    TipOfNew(cfg, ch, b);
  }

  lemma {:induction false} TipOfNew(cfg: Config, ch: seq<Block>, b: Block)
    requires Valid(cfg, ch + [b])
    ensures b.header.index == |ch| && |ch + [b]| < TWO_64
  {
    hide Replay, Root, HashMatchesHeader;
  }

  /**
   * What a node that holds ch does with any known block: extend by it, or ignore it. It takes no block
   * that does not follow its tip.
   */
  lemma {:induction false} KnownBlockOffered(cfg: Config, cv: ChainVal, ch: seq<Block>, b: Block)
    requires Founded(cfg) && Holds(cfg, cv, ch) && Known(cfg, b)
    ensures Judge(cfg.scheme, cfg.reward, cv, b).Accept?
       <==> Follows(b, ch) && StateCheck(cfg.scheme, cfg.reward, cv.state, b).Accept?
    ensures Judge(cfg.scheme, cfg.reward, cv, b).Accept? ==>
              Holds(cfg, Offered(cfg.scheme, cfg.reward, cv, b), ch + [b])
    ensures !Judge(cfg.scheme, cfg.reward, cv, b).Accept? ==> Offered(cfg.scheme, cfg.reward, cv, b) == cv
  {
    hide Valid, Replay, Founded, Sealed, StateCheck, LinkError;
    TipOfHolder(cfg, cv, ch);
    if Follows(b, ch) {
      FollowerIsNext(cfg, ch, b);
      if StateCheck(cfg.scheme, cfg.reward, cv.state, b).Accept? {
        FollowerExtends(cfg, ch, b);
        AppendHolds(cfg, cv, ch, b);
        assert Judge(cfg.scheme, cfg.reward, cv, b) == Accept(Replay(cfg, ch + [b]).value);
      }
    } else {
      NonFollowerIgnored(cfg, cv, ch, b);
    }
  }

  /**
   * The last block of any valid chain is accepted exactly when it follows the tip, by every node whose
   * state is the one it was built on; and plain addresses make it so.
   */
  lemma {:induction false} FollowerIsAccepted(cfg: Config, cv: ChainVal, ch: seq<Block>, ys: seq<Block>)
    requires Founded(cfg) && Holds(cfg, cv, ch) && Valid(cfg, ys) && 1 < |ys|
    ensures Replay(cfg, ys[..|ys| - 1]).Success?
    ensures var built := Replay(cfg, ys[..|ys| - 1]).value;
            cv.state == built || (PlainState(cv.state) && PlainState(built)) ==>
              (Judge(cfg.scheme, cfg.reward, cv, Last(ys)).Accept? <==> Follows(Last(ys), ch))
  {
    hide Replay, Founded, StateCheck, LinkError, Judge, PlainState, Root;
    var before, b := ys[..|ys| - 1], Last(ys);
    assert ys == before + [b] && Last(before) == ys[|ys| - 2] && Valid(cfg, before);
    assert Known(cfg, b);
    KnownBlockOffered(cfg, cv, ch, b);
    if Follows(b, ch) {
      SameHashSameTip(cfg, ch, before);
      if cv.state == Replay(cfg, before).value || (PlainState(cv.state) && PlainState(Replay(cfg, before).value)) {
        SameStatePasses(cfg, ch, ys);
      }
    }
  }

  lemma NonFollowerIgnored(cfg: Config, cv: ChainVal, ch: seq<Block>, b: Block)
    requires Founded(cfg) && Holds(cfg, cv, ch) && Known(cfg, b) && !Follows(b, ch)
    ensures !Judge(cfg.scheme, cfg.reward, cv, b).Accept?
  {
    hide Replay, Root, HashMatchesHeader, Founded, StateCheck;
    TipOfHolder(cfg, cv, ch);
    var ys :| Valid(cfg, ys) && Last(ys) == b;
    if b.header.index == 0 {
      assert |ys| == 1 && b == cfg.genesis;
      if |ch| == 1 {
        assert Last(ch) == b;
      }
    }
  }
}
