/**
 * Equal tips, different states: the run in which two nodes mine blocks with one header, because an
 * address of the one continues past an entry of the other. Recipients are never checked.
 */
module Forks {
  import opened Numbers
  import opened Results
  import opened Types
  import opened Crypto
  import opened LedgerState
  import opened StateRoot
  import opened Sorting
  import opened Consensus
  import opened Storage
  import opened Chain
  import opened Network
  import opened History
  import opened Protocol

  function Mint(a: string, amount: u64): Tx {
    Tx("", a, amount, 0, 0, "")
  }

  /** One node mints to a and to y. */
  function Apart(a: string, b: u64, y: string, d: u64): seq<Tx> {
    [Mint(a, b), Mint(y, d)]
  }

  /** The other mints to the one address that reads as a's entry followed by y. */
  function Together(a: string, b: u64, y: string, d: u64): seq<Tx> {
    [Mint(Joined(a, Account(b, 0), y), d)]
  }

  /** y comes after a, and every address of the state, and the miner if there is one, after y and the joined address. */
  predicate InPlace(st: State, a: string, b: u64, y: string, miner: string) {
    && a != y && Le(a, y) && miner != a && miner != y && miner != Joined(a, Account(b, 0), y)
    && Joined(a, Account(b, 0), y) != a && Joined(a, Account(b, 0), y) != y
    && (miner != "" ==> After(miner, a, b, y)) && forall k :: k in st ==> After(k, a, b, y)
  }

  predicate After(k: string, a: string, b: u64, y: string) {
    var x := Joined(a, Account(b, 0), y);
    k != a && k != y && k != x && Le(y, k) && Le(x, k)
  }

  function Before(st: State, a: string, b: u64, y: string, d: u64): State {
    st[a := Account(b, 0)][y := Account(d, 0)]
  }

  lemma {:induction false} RunOfApart(c: Scheme, st: State, a: string, b: u64, y: string, d: u64, miner: string)
    requires a != y && a !in st && y !in st
    ensures Run(c, st, Applies(Apart(a, b, y, d), miner)) == Success(Before(st, a, b, y, d))
  {
    var es := Applies(Apart(a, b, y, d), miner);
    var first: State := Credit(st, a, b);
    assert first == st[a := Account(b, 0)];
    assert es[1..] == [Apply(Mint(y, d), miner)];
    RunOne(c, first, es[1]);
    assert Credit(first, y, d) == Before(st, a, b, y, d);
  }

  lemma {:induction false} RunOfTogether(c: Scheme, st: State, a: string, b: u64, y: string, d: u64, miner: string)
    requires Joined(a, Account(b, 0), y) !in st
    ensures Run(c, st, Applies(Together(a, b, y, d), miner))
         == Success(st[Joined(a, Account(b, 0), y) := Account(d, 0)])
  {
    hide Joined;
    var x := Joined(a, Account(b, 0), y);
    var es := Applies(Together(a, b, y, d), miner);
    assert es == [Apply(Mint(x, d), miner)];
    RunOne(c, st, es[0]);
    assert Credit(st, x, d) == st[x := Account(d, 0)];
  }

  /** The two lists of transactions lead to different states with one root. */
  lemma {:induction false} OneRootTwoStates(c: Scheme, reward: u64, st: State, a: string, b: u64, y: string, d: u64,
                                            miner: string)
    requires InPlace(st, a, b, y, miner)
    ensures var s, t := Simulated(c, reward, st, Apart(a, b, y, d), miner),
                        Simulated(c, reward, st, Together(a, b, y, d), miner);
            s.Success? && t.Success? && s.value != t.value && Root(c, s.value) == Root(c, t.value)
  {
    hide Run, RootText, Joined, Le, Fused;
    RunOfApart(c, st, a, b, y, d, miner);
    RunOfTogether(c, st, a, b, y, d, miner);
    var x := Joined(a, Account(b, 0), y);
    var s := Rewarded(Before(st, a, b, y, d), miner, reward);
    assert s.Keys <= st.Keys + {a, y, miner} && s[a] == Account(b, 0) && s[y] == Account(d, 0);
    RewardedFused(st, a, b, y, d, miner, reward);
    forall k | k in s && k != a && k != y
      ensures Le(y, k) && Le(x, k)
    {
      assert After(k, a, b, y);
    }
    FusedCollides(s, a, y);
  }

  lemma {:induction false} RewardedFused(st: State, a: string, b: u64, y: string, d: u64, miner: string, reward: u64)
    requires InPlace(st, a, b, y, miner)
    ensures var x := Joined(a, Account(b, 0), y);
            var s := Rewarded(Before(st, a, b, y, d), miner, reward);
            && a in s && y in s && x !in s
            && Fused(s, a, y) == Rewarded(st[x := Account(d, 0)], miner, reward)
  {
    hide Joined, Le;
    var x := Joined(a, Account(b, 0), y);
    var s := Rewarded(Before(st, a, b, y, d), miner, reward);
    var t := Rewarded(st[x := Account(d, 0)], miner, reward);
    assert s[a] == Account(b, 0) && s[y] == Account(d, 0);
    assert forall k :: k in st ==> After(k, a, b, y);
    assert a !in st && y !in st && x !in st;
    assert (s - {a, y})[x := s[y]].Keys == t.Keys;
  }

  /** Both blocks are mined from one header. */
  lemma {:induction false} OneHeader(cfg: Config, cv: ChainVal, txs: seq<Tx>, us: seq<Tx>, miner: string)
    requires MayMine(cfg, cv, txs, miner)
    requires var s, t := Simulated(cfg.scheme, cfg.reward, cv.state, txs, miner),
                         Simulated(cfg.scheme, cfg.reward, cv.state, us, miner);
             s.Success? && t.Success? && Root(cfg.scheme, s.value) == Root(cfg.scheme, t.value)
    ensures MayMine(cfg, cv, us, miner)
    ensures MinedBlock(cfg, cv, us, miner) == MinedBlock(cfg, cv, txs, miner).(txs := us)
  {
    hide Simulated, Root, Minable, HashOf;
  }

  /** What a miner's node stores and knows after its first block. */
  lemma {:induction false} AfterMining(cfg: Config, txs: seq<Tx>, miner: string)
    requires Founded(cfg) && MayMine(cfg, GenesisNode(cfg), txs, miner)
    ensures var b := MinedBlock(cfg, GenesisNode(cfg), txs, miner);
            var after := Offered(cfg.scheme, cfg.reward, GenesisNode(cfg), b);
            && Tip(after.store) == Some(b)
            && Simulated(cfg.scheme, cfg.reward, GenesisNode(cfg).state, txs, miner) == Success(after.state)
  {
    hide Simulated, Root, Minable, HashOf, Valid, Judge, Replay;
    ProducedIsAccepted(cfg.scheme, cfg.reward, GenesisNode(cfg), txs, miner, cfg.difficulty);
    GenesisIsFirst(cfg);
  }

  lemma {:induction false} GenesisIsFirst(cfg: Config)
    requires Founded(cfg)
    ensures cfg.genesis.header.index == 0
  {
    hide Replay, Root, HashMatchesHeader;
  }

  /**
   * In any network of two or more nodes, two mining steps leave two nodes with the same tip header and tip
   * hash, but with different states.
   */
  lemma {:induction false} EqualTipsUnequalStates(cfg: Config, net: Net, a: string, b: u64, y: string, d: u64,
                                                  miner: string)
    requires Founded(cfg) && Init(cfg, net) && 2 <= |net.nodes|
    requires InPlace(GenesisNode(cfg).state, a, b, y, miner)
    requires MayMine(cfg, GenesisNode(cfg), Apart(a, b, y, d), miner)
    ensures var end := RunNet(cfg, net, [Mine(0, Apart(a, b, y, d), miner), Mine(1, Together(a, b, y, d), miner)]);
            var p, q := end.nodes[0], end.nodes[1];
            && Tip(p.store).Some? && Tip(q.store).Some?
            && Tip(p.store).value.hash == Tip(q.store).value.hash
            && Tip(p.store).value.header == Tip(q.store).value.header
            && p.state != q.state
  {
    hide Founded, Replay, Root, MayMine, MinedBlock, Simulated, Offered, InPlace, Joined;
    var cv := GenesisNode(cfg);
    var xs, ys := Apart(a, b, y, d), Together(a, b, y, d);
    OneRootTwoStates(cfg.scheme, cfg.reward, cv.state, a, b, y, d, miner);
    OneHeader(cfg, cv, xs, ys, miner);
    AfterMining(cfg, xs, miner);
    AfterMining(cfg, ys, miner);
    var first := Step(cfg, net, Mine(0, xs, miner));
    var second := Step(cfg, first, Mine(1, ys, miner));
    assert [Mine(0, xs, miner), Mine(1, ys, miner)][1..] == [Mine(1, ys, miner)];
    assert RunNet(cfg, first, [Mine(1, ys, miner)]) == RunNet(cfg, second, [Mine(1, ys, miner)][1..]);
  }

  /** As hexadecimal addresses do. */
  predicate StartsLate(k: string) {
    k != "" && '0' <= k[0]
  }

  /** These recipients are in place for every state of hexadecimal addresses, and every such miner or none. */
  lemma {:induction false} AddressesInPlace(st: State, miner: string)
    requires forall k :: k in st ==> StartsLate(k)
    requires miner != "" ==> StartsLate(miner)
    ensures Joined("!", Account(1, 0), "#") == "!:1:0;#" && InPlace(st, "!", 1, "#", miner)
  {
    assert Entry("!", Account(1, 0)) == "!:1:0;";
    assert Joined("!", Account(1, 0), "#") == "!:1:0;#";
    hide Joined, Entry;
    forall k | StartsLate(k)
      ensures After(k, "!", 1, "#")
    {
    }
  }

  // ----- what becomes of such nodes -----

  /**
   * Two nodes with the same headers have nothing to send each other: the answer to a request from the
   * next height on is empty, so asking and delivering leaves unequal states unequal.
   */
  lemma {:induction false} NothingToCatchUpOn(cfg: Config, mine: ChainVal, xs: seq<Block>, theirs: ChainVal,
                                              ys: seq<Block>)
    requires Holds(cfg, mine, xs) && Holds(cfg, theirs, ys) && Headers(xs) == Headers(ys)
    ensures BlocksFrom(theirs.store, mine.store.height + 1) == []
    ensures AppliedInOrder(cfg.scheme, cfg.reward, mine,
                           Wrapped(BlocksFrom(theirs.store, mine.store.height + 1))) == mine
  {
    hide Valid, Replay;
    assert |xs| == |Headers(xs)| == |Headers(ys)| == |ys|;
    BlocksFromIs(cfg, theirs, ys, |xs|);
  }

  /**
   * A fork never heals: once two nodes store different headers at one index, their tip hashes differ at
   * every later moment, whatever is mined, asked for and delivered.
   */
  lemma {:induction false} ForkNeverHeals(cfg: Config, net: Net, xs: seq<Action>, ys: seq<Action>, i: nat, j: nat,
                                          k: nat)
    requires Founded(cfg) && Init(cfg, net) && i < |net.nodes| && j < |net.nodes|
    ensures var p, q := RunNet(cfg, net, xs).nodes[i], RunNet(cfg, net, xs).nodes[j];
            var p', q' := RunNet(cfg, net, xs + ys).nodes[i], RunNet(cfg, net, xs + ys).nodes[j];
            && Contiguous(p.store) && Contiguous(q.store) && Contiguous(p'.store) && Contiguous(q'.store)
            && (k <= p.store.height && k <= q.store.height
                && Stored(p.store)[k].header != Stored(q.store)[k].header ==>
                  Last(Stored(p'.store)).hash != Last(Stored(q'.store)).hash)
  {
    hide Founded, RunNet, Init, Contiguous, Stored, Headers;
    AppendOnly(cfg, net, xs, ys, i);
    AppendOnly(cfg, net, xs, ys, j);
    EqualTipsAgree(cfg, net, xs + ys, i, j);
    var p, q := RunNet(cfg, net, xs).nodes[i], RunNet(cfg, net, xs).nodes[j];
    var p', q' := RunNet(cfg, net, xs + ys).nodes[i], RunNet(cfg, net, xs + ys).nodes[j];
    if k <= p.store.height && k <= q.store.height
       && Last(Stored(p'.store)).hash == Last(Stored(q'.store)).hash {
      HeaderAt(Stored(p'.store), k);
      HeaderAt(Stored(q'.store), k);
      assert Stored(p.store)[k] == Stored(p'.store)[k] && Stored(q.store)[k] == Stored(q'.store)[k];
    }
  }

  lemma HeaderAt(ch: seq<Block>, k: nat)
    requires k < |ch|
    ensures Headers(ch)[k] == ch[k].header
  {
  }
}
