/** Creating a node's chain, and what happens when it is opened again (internal/chain/chain.go, New). */
module Startup {
  import opened Numbers
  import opened Results
  import opened Types
  import opened Crypto
  import opened LedgerState
  import opened Consensus
  import opened Storage
  import opened Chain
  import opened History
  import opened Protocol

  function Allocation(a: string, amount: u64): Tx {
    Tx("", a, amount, 0, 0, "")
  }

  /** One mint per allocated address, in some order. */
  predicate GenesisTxs(txs: seq<Tx>, alloc: map<string, u64>) {
    && (forall i :: 0 <= i < |txs| ==> txs[i].recipient in alloc
                                       && txs[i] == Allocation(txs[i].recipient, alloc[txs[i].recipient]))
    && (forall i, j :: 0 <= i < j < |txs| ==> txs[i].recipient != txs[j].recipient)
    && (forall a :: a in alloc ==> exists i :: 0 <= i < |txs| && txs[i].recipient == a)
  }

  function GenesisState(alloc: map<string, u64>): State {
    map a | a in alloc :: Account(alloc[a], 0)
  }

  ghost function GenesisDraft(c: Scheme, alloc: map<string, u64>, difficulty: u64, now: int): Header {
    Header(0, now, "0", Root(c, GenesisState(alloc)), difficulty, "", 0)
  }

  /** Go ranges over the allocation in no fixed order. */
  method NewGenesisBlock(alloc: map<string, u64>, difficulty: u64, now: int) returns (b: Block)
    ensures b.header == Header(0, now, "0", "", difficulty, "", 0) && b.hash == ""
    ensures GenesisTxs(b.txs, alloc)
  {
    var txs: seq<Tx> := [];
    var left := alloc.Keys;
    while left != {}
      invariant left <= alloc.Keys
      invariant GenesisTxs(txs, alloc - left)
      decreases left
    {
      var a :| a in left;
      ghost var before := txs;
      txs := txs + [Allocation(a, alloc[a])];
      OneMoreAllocation(before, alloc - left, a, alloc[a]);
      assert (alloc - left)[a := alloc[a]] == alloc - (left - {a});
      left := left - {a};
    }
    assert alloc - left == alloc;
    b := Block(Header(0, now, "0", "", difficulty, "", 0), txs, "");
  }

  lemma OneMoreAllocation(txs: seq<Tx>, alloc: map<string, u64>, a: string, amount: u64)
    requires GenesisTxs(txs, alloc) && a !in alloc
    ensures GenesisTxs(txs + [Allocation(a, amount)], alloc[a := amount])
  {
    var more := txs + [Allocation(a, amount)];
    assert more[|txs|].recipient == a;
    forall k | k in alloc
      ensures exists i :: 0 <= i < |more| && more[i].recipient == k
    {
      var i :| 0 <= i < |txs| && txs[i].recipient == k;
      assert more[i].recipient == k;
    }
  }

  /** The allocations still to come, as entries. */
  function Minted(txs: seq<Tx>): State {
    if txs == [] then map[] else Minted(txs[1..])[txs[0].recipient := Account(txs[0].amount, 0)]
  }

  lemma {:induction false} MintsAddUp(c: Scheme, st: State, txs: seq<Tx>)
    requires forall i :: 0 <= i < |txs| ==> IsCoinbase(txs[i]) && txs[i].recipient !in st
    requires forall i, j :: 0 <= i < j < |txs| ==> txs[i].recipient != txs[j].recipient
    ensures Run(c, st, Applies(txs, "")) == Success(st + Minted(txs))
    ensures forall a :: a in Minted(txs) <==> exists i :: 0 <= i < |txs| && txs[i].recipient == a
    ensures forall i :: 0 <= i < |txs| ==> Minted(txs)[txs[i].recipient] == Account(txs[i].amount, 0)
    decreases |txs|
  {
    if txs == [] {
      assert st + map[] == st;
    } else {
      hide Run, Occur;
      var next := Credit(st, txs[0].recipient, txs[0].amount);
      MintsAddUp(c, next, txs[1..]);
      FirstMint(c, st, txs);
      MintedMembers(txs);
    }
  }

  lemma {:induction false} FirstMint(c: Scheme, st: State, txs: seq<Tx>)
    requires txs != [] && IsCoinbase(txs[0]) && txs[0].recipient !in st
    requires txs[0].recipient !in Minted(txs[1..])
    ensures var next := Credit(st, txs[0].recipient, txs[0].amount);
            && Run(c, st, Applies(txs, "")) == Run(c, next, Applies(txs[1..], ""))
            && next + Minted(txs[1..]) == st + Minted(txs)
            && next == st[txs[0].recipient := Account(txs[0].amount, 0)]
  {
    var t := txs[0];
    var next := Credit(st, t.recipient, t.amount);
    assert next == st[t.recipient := Account(t.amount, 0)];
    assert Applies(txs, "")[1..] == Applies(txs[1..], "");
    assert next + Minted(txs[1..]) == st + Minted(txs);
  }

  lemma {:induction false} MintedMembers(txs: seq<Tx>)
    requires txs != []
    requires forall a :: a in Minted(txs[1..]) <==> exists i :: 0 <= i < |txs[1..]| && txs[1..][i].recipient == a
    ensures forall a :: a in Minted(txs) <==> exists i :: 0 <= i < |txs| && txs[i].recipient == a
  {
    forall a
      ensures a in Minted(txs) <==> exists i :: 0 <= i < |txs| && txs[i].recipient == a
    {
      if a in Minted(txs[1..]) {
        var i :| 0 <= i < |txs[1..]| && txs[1..][i].recipient == a;
        assert txs[i + 1].recipient == a;
      }
      if i :| 0 <= i < |txs| && txs[i].recipient == a && i != 0 {
        assert txs[1..][i - 1].recipient == a;
      }
    }
  }

  /** Whatever order the allocations come in, they mint exactly the allocated balances. */
  lemma {:induction false} GenesisRun(c: Scheme, txs: seq<Tx>, alloc: map<string, u64>)
    requires GenesisTxs(txs, alloc)
    ensures Run(c, map[], Applies(txs, "")) == Success(GenesisState(alloc))
  {
    hide Run;
    MintsAddUp(c, map[], txs);
    var m := Minted(txs);
    assert map[] + m == m;
    forall a
      ensures a in m <==> a in alloc
      ensures a in m ==> m[a] == Account(alloc[a], 0)
    {
      if a in m {
        var i :| 0 <= i < |txs| && txs[i].recipient == a;
      }
    }
    assert m == GenesisState(alloc);
  }

  /** A genesis block made from an allocation at a moment. */
  ghost predicate MadeGenesis(c: Scheme, alloc: map<string, u64>, difficulty: u64, now: int, g: Block) {
    && Minable(c, GenesisDraft(c, alloc, difficulty, now))
    && GenesisTxs(g.txs, alloc)
    && g.header == Mined(c, GenesisDraft(c, alloc, difficulty, now))
    && HashMatchesHeader(c, g)
  }

  /** Any allocation founds a network: see History.Founded. */
  lemma {:induction false} GenesisFounds(cfg: Config, alloc: map<string, u64>, now: int)
    requires Sound(cfg.scheme) && MadeGenesis(cfg.scheme, alloc, cfg.difficulty, now, cfg.genesis)
    ensures Founded(cfg) && Replay(cfg, [cfg.genesis]) == Success(GenesisState(alloc))
  {
    hide Run, Root, HashMatchesHeader, Minable;
    var g := cfg.genesis;
    var draft := GenesisDraft(cfg.scheme, alloc, cfg.difficulty, now);
    var k :| IsFirstWin(cfg.scheme, draft, k) && g.header == Attempt(draft, k);
    GenesisRun(cfg.scheme, g.txs, alloc);
    assert Events([g], cfg.reward) == BlockEvents(g, cfg.reward) == Applies(g.txs, "");
    assert Sealed(cfg, [g]);
  }

  /** What opening a store may give: at height 0 a new genesis block; above it, the replay's outcome. */
  ghost predicate Opens(c: Scheme, reward: u64, difficulty: u64, alloc: map<string, u64>, now: int,
                        s: StoreVal, r: Result<ChainVal, ChainError>)
  {
    if s.height == 0 then
      && r.Success?
      && 0 in r.value.store.blocks
      && MadeGenesis(c, alloc, difficulty, now, r.value.store.blocks[0])
      && r.value == ChainVal(Put(s, r.value.store.blocks[0]), GenesisState(alloc))
    else
      r == match Rebuilt(c, reward, ChainVal(s, map[]), 0)
           case Failure(e) => Failure(e)
           case Success(st) => Success(ChainVal(s, st))
  }

  method New(scheme: Scheme, reward: u64, difficulty: u64, alloc: map<string, u64>, store: Store, now: int)
    returns (r: Result<Blockchain, ChainError>)
    requires store.height == 0 ==> Minable(scheme, GenesisDraft(scheme, alloc, difficulty, now))
    modifies store
    ensures r.Success? ==>
              && r.value.store == store
              && Opens(scheme, reward, difficulty, alloc, now, old(store.Value()), Success(r.value.Value()))
    ensures r.Failure? ==>
              && store.Value() == old(store.Value())
              && Opens(scheme, reward, difficulty, alloc, now, old(store.Value()), Failure(r.error))
  {
    hide Run, Root, Judge, Minable;
    var bc := new Blockchain(scheme, reward, difficulty, store);
    if store.height != 0 {
      var error := bc.RebuildState();
      return match error case Some(e) => Failure(e) case None => Success(bc);
    }
    var g := NewGenesisBlock(alloc, difficulty, now);
    GenesisRun(scheme, g.txs, alloc);
    var refused := bc.ApplyAll(bc.state, g.txs, "");
    var root := ComputeStateRoot(scheme, bc.state.accounts);
    var draft := g.header.(stateRoot := root);
    var b := new MutableBlock(draft, g.txs, scheme.hash(HeaderPayload(draft)));
    b.MineBlock(scheme);
    MinedFields(scheme, draft);
    store.PutBlock(b.Value());
    r := Success(bc);
  }

  lemma {:induction false} MinedFields(c: Scheme, draft: Header)
    requires Minable(c, draft)
    ensures Mined(c, draft).index == draft.index && Mined(c, draft).timestamp == draft.timestamp
  {
    hide HeaderPayload;
  }

  /** Opening gave a chain with the same stored headers. (Lists of allocations come in no fixed order.) */
  ghost predicate SameStoredHeaders(s: StoreVal, t: StoreVal) {
    && s.height == t.height
    && forall i :: 0 <= i <= s.height ==>
         && i in s.blocks && i in t.blocks
         && s.blocks[i].header == t.blocks[i].header && s.blocks[i].hash == t.blocks[i].hash
  }

  /**
   * Opening a stored chain again, with the allocation it was made from, gives back its live state exactly
   * when it holds nothing but its genesis block, and gives back its stored headers exactly when also the
   * clock shows that block's time. On a longer chain the genesis block is judged against the stored tip
   * and refused, and the node does not start.
   */
  lemma {:induction false} RestartRestores(cfg: Config, alloc: map<string, u64>, made: int, cv: ChainVal,
                                           ch: seq<Block>, now: int, r: Result<ChainVal, ChainError>)
    requires Founded(cfg) && Holds(cfg, cv, ch)
    requires MadeGenesis(cfg.scheme, alloc, cfg.difficulty, made, cfg.genesis)
    requires Opens(cfg.scheme, cfg.reward, cfg.difficulty, alloc, now, cv.store, r)
    ensures 1 < |ch| ==> r == Failure(NotNext)
    ensures r.Success? && r.value.state == cv.state <==> |ch| == 1
    ensures r.Success? && SameStoredHeaders(r.value.store, cv.store) <==> |ch| == 1 && now == made
  {
    hide Founded, Run, Root, StateCheck, LinkError, Holds, Minable, HashMatchesHeader, Valid;
    TipOfHolder(cfg, cv, ch);
    GenesisIsStored(cfg, cv, ch);
    if |ch| != 1 {
      RebuildFails(cfg, cv, ch);
    } else {
      GenesisStateIs(cfg, alloc, made, cv, ch);
      MinedFields(cfg.scheme, GenesisDraft(cfg.scheme, alloc, cfg.difficulty, made));
      MinedFields(cfg.scheme, GenesisDraft(cfg.scheme, alloc, cfg.difficulty, now));
      HeadersOfGenesis(cfg.scheme, alloc, cfg.difficulty, made, now, cfg.genesis, r.value.store.blocks[0]);
    }
  }

  lemma {:induction false} RebuildFails(cfg: Config, cv: ChainVal, ch: seq<Block>)
    requires Founded(cfg) && Holds(cfg, cv, ch) && |ch| != 1
    ensures Rebuilt(cfg.scheme, cfg.reward, cv.(state := map[]), 0) == Failure(NotNext)
  {
    hide Founded, Run, Root, StateCheck, LinkError, Holds;
    TipOfHolder(cfg, cv, ch);
    GenesisIsStored(cfg, cv, ch);
    assert Judge(cfg.scheme, cfg.reward, cv.(state := map[]), cfg.genesis) == Reject(NotNext);
  }

  lemma {:induction false} GenesisStateIs(cfg: Config, alloc: map<string, u64>, made: int, cv: ChainVal, ch: seq<Block>)
    requires Founded(cfg) && Holds(cfg, cv, ch) && |ch| == 1
    requires MadeGenesis(cfg.scheme, alloc, cfg.difficulty, made, cfg.genesis)
    ensures cv.state == GenesisState(alloc)
  {
    hide Run, Root, HashMatchesHeader;
    assert ch == [cfg.genesis];
    GenesisFounds(cfg, alloc, made);
  }

  lemma {:induction false} HeadersOfGenesis(c: Scheme, alloc: map<string, u64>, difficulty: u64, made: int, now: int,
                                            g: Block, h: Block)
    requires MadeGenesis(c, alloc, difficulty, made, g) && MadeGenesis(c, alloc, difficulty, now, h)
    ensures g.header == h.header && g.hash == h.hash <==> made == now
  {
    hide Root, HeaderPayload, Minable;
    MinedFields(c, GenesisDraft(c, alloc, difficulty, made));
    MinedFields(c, GenesisDraft(c, alloc, difficulty, now));
  }

  lemma {:induction false} GenesisIsStored(cfg: Config, cv: ChainVal, ch: seq<Block>)
    requires Founded(cfg) && Holds(cfg, cv, ch)
    ensures 0 in cv.store.blocks && cv.store.blocks[0] == cfg.genesis && cfg.genesis.header.index == 0
    ensures cv.store.height == |ch| - 1 < TWO_64 - 1
    ensures |ch| == 1 ==> Last(ch) == cfg.genesis
    ensures |ch| != 1 ==> Last(ch).hash != cfg.genesis.hash
  {
    hide Run, Root, HeaderPayload;
    PrefixIsValid(cfg, ch, 1);
    assert ch[..1] == [ch[0]];
    if |ch| != 1 && Last(ch).hash == cfg.genesis.hash {
      SameHashSameTip(cfg, ch, [cfg.genesis]);
    }
  }

  // ----- blocks no producer of this network made -----

  /** The block went in directly after the chain stored before. */
  predicate Appends(before: StoreVal, after: StoreVal, b: Block)
    requires Contiguous(before)
  {
    Contiguous(after) && Stored(after) == Stored(before) + [b]
  }

  /**
   * Of arbitrary blocks that applyBlockInternal accepts, exactly those with the next index are
   * appended: the index guard alone lets through blocks that skip indices, and at height 0 a second
   * genesis block.
   */
  lemma {:induction false} AcceptedBlockAppends(cfg: Config, cv: ChainVal, ch: seq<Block>, b: Block)
    requires Founded(cfg) && Holds(cfg, cv, ch)
    requires Judge(cfg.scheme, cfg.reward, cv, b).Accept?
    ensures Contiguous(cv.store)
    ensures Appends(cv.store, Offered(cfg.scheme, cfg.reward, cv, b).store, b) <==> b.header.index == |ch|
  {
    hide Founded, Valid, Replay, Sealed, StateCheck, LinkError;
    HoldsIsStored(cfg, cv, ch);
    TipOfHolder(cfg, cv, ch);
    var after := Offered(cfg.scheme, cfg.reward, cv, b).store;
    assert after == Put(cv.store, b);
    if b.header.index == |ch| {
      assert Stored(after) == Stored(cv.store) + [b];
    } else {
      assert after.height != |ch|;
    }
  }

  /** Such a block exists: the one a producer would make, with its index moved ahead. */
  lemma {:induction false} SkippedIndexIsAccepted(cfg: Config, cv: ChainVal, ch: seq<Block>, index: u64, b: Block)
    requires Founded(cfg) && Holds(cfg, cv, ch) && |ch| < index
    requires b.txs == [] && b.header.index == index && b.header.previousHash == Last(ch).hash
    requires b.header.miner == "" && b.header.stateRoot == Root(cfg.scheme, cv.state)
    requires ValidProof(b) && HashMatchesHeader(cfg.scheme, b)
    ensures Judge(cfg.scheme, cfg.reward, cv, b) == Accept(cv.state)
  {
    hide Founded, Valid, Replay, Sealed, Root, ValidProof, HashMatchesHeader;
    TipOfHolder(cfg, cv, ch);
    SimulatedIsRun(cfg.scheme, cfg.reward, cv.state, b);
    assert Applies(b.txs, "") == [];
  }
}
