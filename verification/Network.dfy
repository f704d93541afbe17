/** Block sync between peers (internal/network/network.go). */
module Network {
  import opened Numbers
  import opened Results
  import opened Types
  import opened Crypto
  import opened Storage
  import opened Chain

  datatype Peer = Peer(id: string, height: u64)

  /** What a getblocks request is answered with: the stored blocks from an index up to the height. */
  function BlocksFrom(s: StoreVal, from: nat): seq<Block>
    decreases TWO_64 - from
  {
    if s.height < from || from !in s.blocks then []
    else [s.blocks[from]] + BlocksFrom(s, from + 1)
  }

  /** The chain after a list of blocks is applied in order, up to the first that is rejected. */
  ghost function AppliedInOrder(c: Scheme, reward: u64, cv: ChainVal, blocks: seq<Option<Block>>): ChainVal
    decreases |blocks|
  {
    if blocks == [] then cv
    else
      match blocks[0]
      case None => AppliedInOrder(c, reward, cv, blocks[1..])
      case Some(b) =>
        if Judge(c, reward, cv, b).Reject? then cv
        else AppliedInOrder(c, reward, Offered(c, reward, cv, b), blocks[1..])
  }

  class Server {
    const chain: Blockchain
    var peers: map<string, Peer>

    constructor (chain: Blockchain)
      ensures this.chain == chain && peers == map[]
    {
      this.chain, peers := chain, map[];
    }

    /** A hello message records or replaces what is known of a peer. */
    method Hello(id: string, height: u64)
      modifies this
      ensures peers == old(peers)[id := Peer(id, height)]
    {
      peers := peers[id := Peer(id, height)];
    }

    /** Asks exactly the peers that said they are higher, for the blocks after the own height. */
    method SyncFromPeers() returns (requests: map<string, u64>)
      ensures forall id :: id in requests <==> id in peers && chain.store.height < peers[id].height
      ensures forall id :: id in requests ==> requests[id] == chain.store.height + 1
    {
      var height := chain.store.height;
      requests := map[];
      var left := peers.Keys;
      while left != {}
        invariant left <= peers.Keys
        invariant forall id :: id in requests <==> id in peers && id !in left && height < peers[id].height
        invariant forall id :: id in requests ==> requests[id] == height + 1
        decreases left
      {
        var id :| id in left;
        if height < peers[id].height {
          requests := requests[id := height + 1];
        }
        left := left - {id};
      }
    }

    method ServeBlocks(from: u64) returns (blocks: seq<Block>)
      ensures blocks == BlocksFrom(chain.store.Value(), from)
    {
      blocks := [];
      var i: nat := from;
      while i <= chain.store.height
        invariant blocks + BlocksFrom(chain.store.Value(), i) == BlocksFrom(chain.store.Value(), from)
        decreases TWO_64 - i
      {
        var b := chain.store.GetBlock(i);
        if b.None? {
          return;
        }
        blocks := blocks + [b.value];
        i := i + 1;
      }
    }

    method ApplyBlocksSequential(blocks: seq<Option<Block>>)
      modifies chain.state, chain.store
      ensures chain.Value() == AppliedInOrder(chain.scheme, chain.reward, old(chain.Value()), blocks)
    {
      hide Judge, Offered;
      ghost var goal := AppliedInOrder(chain.scheme, chain.reward, chain.Value(), blocks);
      var i := 0;
      while i < |blocks|
        invariant 0 <= i <= |blocks|
        invariant goal == AppliedInOrder(chain.scheme, chain.reward, chain.Value(), blocks[i..])
      {
        assert blocks[i..][1..] == blocks[i + 1..];
        if blocks[i].Some? {
          ghost var before := chain.Value();
          var error := chain.ApplyBlock(blocks[i].value);
          if error.Some? {
            RejectedChangesNothing(chain.scheme, chain.reward, before, blocks[i].value);
            return;
          }
        }
        i := i + 1;
      }
    }
  }

  /** Blocks after one that is rejected are not looked at; absent ones are skipped. */
  lemma {:induction false} RejectionStops(c: Scheme, reward: u64, cv: ChainVal, before: seq<Option<Block>>, b: Block,
                                          after: seq<Option<Block>>)
    requires Judge(c, reward, AppliedInOrder(c, reward, cv, before), b).Reject?
    ensures AppliedInOrder(c, reward, cv, before + [Some(b)] + after) == AppliedInOrder(c, reward, cv, before)
    decreases |before|
  {
    hide Judge, Offered;
    var all := before + [Some(b)] + after;
    if before != [] {
      assert all[0] == before[0] && all[1..] == before[1..] + [Some(b)] + after;
      if before[0].None? {
        RejectionStops(c, reward, cv, before[1..], b, after);
      } else if !Judge(c, reward, cv, before[0].value).Reject? {
        RejectionStops(c, reward, Offered(c, reward, cv, before[0].value), before[1..], b, after);
      }
    }
  }

  /** A list of which none is rejected is applied to the end. */
  lemma {:induction false} AppliedOneMore(c: Scheme, reward: u64, cv: ChainVal, before: seq<Option<Block>>, b: Block)
    requires NoneRejected(c, reward, cv, before)
    ensures AppliedInOrder(c, reward, cv, before + [Some(b)])
         == Offered(c, reward, AppliedInOrder(c, reward, cv, before), b)
    decreases |before|
  {
    hide Judge, Offered;
    var all := before + [Some(b)];
    if before == [] {
      assert all[0] == Some(b) && all[1..] == [];
      RejectedIsUnchanged(c, reward, cv, b);
    } else {
      assert all[0] == before[0] && all[1..] == before[1..] + [Some(b)];
      if before[0].None? {
        AppliedOneMore(c, reward, cv, before[1..], b);
      } else {
        AppliedOneMore(c, reward, Offered(c, reward, cv, before[0].value), before[1..], b);
      }
    }
  }

  ghost predicate NoneRejected(c: Scheme, reward: u64, cv: ChainVal, blocks: seq<Option<Block>>)
    decreases |blocks|
  {
    blocks == [] ||
    match blocks[0]
    case None => NoneRejected(c, reward, cv, blocks[1..])
    case Some(b) => !Judge(c, reward, cv, b).Reject? && NoneRejected(c, reward, Offered(c, reward, cv, b), blocks[1..])
  }

  lemma RejectedIsUnchanged(c: Scheme, reward: u64, cv: ChainVal, b: Block)
    ensures Judge(c, reward, cv, b).Reject? ==> Offered(c, reward, cv, b) == cv
  {
    hide Judge;
  }

  lemma RejectedChangesNothing(c: Scheme, reward: u64, cv: ChainVal, b: Block)
    requires Judge(c, reward, cv, b).Reject?
    ensures Offered(c, reward, cv, b) == cv
  {
    hide Judge;
  }
}
