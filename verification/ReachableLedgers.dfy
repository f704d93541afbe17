/** What the ledgers of reachable networks satisfy: conservation and replay protection over whole chains. */
module ReachableLedgers {
  import opened Numbers
  import opened Types
  import opened LedgerState
  import opened Coins
  import opened Nonces
  import opened Signatures
  import opened Chain
  import opened History
  import opened Protocol

  /** Everything that happened on a node's chain, from the genesis block on. */
  ghost function Past(cfg: Config, cv: ChainVal): seq<Event>
    requires Contiguous(cv.store)
  {
    Events(Stored(cv.store), cfg.reward)
  }

  /**
   * In every reachable network, a node's balances add up to what its chain minted and rewarded less
   * the fees it burned: always modulo 2^64, and exactly while fewer than 2^64 coins were issued and no
   * charge wraps.
   */
  lemma {:induction false} BalancesAddUp(cfg: Config, net: Net, actions: seq<Action>, i: nat)
    requires Founded(cfg) && Init(cfg, net) && i < |net.nodes|
    ensures var node := RunNet(cfg, net, actions).nodes[i];
            && Contiguous(node.store)
            && var past := Past(cfg, node);
              && SameModulo64(Supply(node.state), IssuedAll(past) - BurnedAll(past))
              && (IssuedAll(past) < TWO_64 && (forall e :: e in past ==> EventFits(e)) ==>
                    Supply(node.state) == IssuedAll(past) - BurnedAll(past))
  {
    hide Founded, Init, RunNet, Run, Supply, Contiguous, Stored, Events;
    LiveStateIsReplay(cfg, net, actions, i);
    var node := RunNet(cfg, net, actions).nodes[i];
    var past := Past(cfg, node);
    SupplyOfEmpty();
    SupplyModulo64(cfg.scheme, map[], past);
    if IssuedAll(past) < TWO_64 && forall e :: e in past ==> EventFits(e) {
      SupplyExact(cfg.scheme, map[], past);
    }
  }

  /**
   * In every reachable network, an account's nonce counts its included transfers, and within 2^64
   * events no two transfers of one sender carry the same nonce.
   */
  lemma {:induction false} NoncesCount(cfg: Config, net: Net, actions: seq<Action>, i: nat, a: string)
    requires Founded(cfg) && Init(cfg, net) && i < |net.nodes|
    ensures var node := RunNet(cfg, net, actions).nodes[i];
            && Contiguous(node.store)
            && var past := Past(cfg, node);
              && Get(node.state, a).nonce == Low64(Count(a, past))
              && (|past| <= TWO_64 ==>
                    forall j, k :: 0 <= j < k < |past| && IsTransferOf(past[j], a) && IsTransferOf(past[k], a) ==>
                      past[j].tx.nonce == Count(a, past[..j]) < past[k].tx.nonce)
  {
    hide Founded, Init, RunNet, Run, Contiguous, Stored, Events, Low64;
    LiveStateIsReplay(cfg, net, actions, i);
    var past := Past(cfg, RunNet(cfg, net, actions).nodes[i]);
    NonceIsCount(cfg.scheme, map[], past, a);
    if |past| <= TWO_64 {
      forall j, k | 0 <= j < k < |past| && IsTransferOf(past[j], a) && IsTransferOf(past[k], a)
        ensures past[j].tx.nonce == Count(a, past[..j]) < past[k].tx.nonce
      {
        NoReplay(cfg.scheme, past, j, k);
      }
    }
  }

  /**
   * In every reachable network every transfer on a node's chain is signed by its sender, and an account
   * that signed none of them has the nonce 0 and exactly what it was credited, modulo 2^64.
   */
  lemma {:induction false} OnlySignersPay(cfg: Config, net: Net, actions: seq<Action>, i: nat, a: string)
    requires Founded(cfg) && Init(cfg, net) && i < |net.nodes|
    ensures var node := RunNet(cfg, net, actions).nodes[i];
            && Contiguous(node.store)
            && var past := Past(cfg, node);
              && (forall j :: 0 <= j < |past| && past[j].Apply? && !IsCoinbase(past[j].tx) ==>
                    SignedBy(cfg.scheme, past[j].tx.sender, past[j]))
              && Get(node.state, a) == Account(Low64(ReceivedAll(a, past) - ChargedAll(a, past)), Low64(Count(a, past)))
              && ((forall j :: 0 <= j < |past| ==> !SignedBy(cfg.scheme, a, past[j])) ==>
                    Get(node.state, a) == Account(Low64(ReceivedAll(a, past)), 0))
  {
    hide Founded, Init, RunNet, Run, Contiguous, Stored, Events, Low64, SignedBy;
    LiveStateIsReplay(cfg, net, actions, i);
    var past := Past(cfg, RunNet(cfg, net, actions).nodes[i]);
    AccountAfterRun(cfg.scheme, map[], past, a);
    forall j | 0 <= j < |past| && past[j].Apply? && !IsCoinbase(past[j].tx)
      ensures SignedBy(cfg.scheme, past[j].tx.sender, past[j])
    {
      TransfersAreSigned(cfg.scheme, map[], past, j);
    }
    if forall j :: 0 <= j < |past| ==> !SignedBy(cfg.scheme, a, past[j]) {
      UnsignedIsUncharged(cfg.scheme, map[], past, a);
    }
  }
}
