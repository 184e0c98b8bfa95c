/** A master's vote (clusterSendFailoverAuthIfNeeded). */
module Votes {
  import opened Bitmap
  import opened ClusterNodes
  import opened Clusters
  import opened Packets

  /** What a slave asks with. */
  datatype Request = Request(current: nat, config: nat, slots: seq<bv8>, force: bool)

  /** No claimed slot has an owner of greater configEpoch than the request. */
  predicate ClaimUpToDate(c: Cluster, r: Request, upTo: nat)
    reads c.slots, set k | 0 <= k < c.slots.Length && c.slots[k] != null :: c.slots[k]
    requires |r.slots| == c.slotBytes && c.slots.Length == 8 * c.slotBytes && upTo <= c.slots.Length
  {
    forall k :: 0 <= k < upTo && BitAt(r.slots, k) ==> c.slots[k] == null || c.slots[k].configEpoch <= r.config
  }

  /** The request is in order: a slave of a failing master (or a forced request) we have not voted
      about lately, with an up-to-date claim. */
  predicate InOrder(c: Cluster, node: ClusterNode, r: Request, now: int, nodeTimeout: nat)
    reads c, node, if node.slaveof != null then {node.slaveof} else {}
    reads c.slots, set k | 0 <= k < c.slots.Length && c.slots[k] != null :: c.slots[k]
    requires |r.slots| == c.slotBytes && c.slots.Length == 8 * c.slotBytes
  {
    && !node.master && node.slaveof != null && (node.slaveof.fail || r.force)
    && now - node.slaveof.votedTime >= nodeTimeout * 2
    && ClaimUpToDate(c, r, c.slots.Length)
  }

  /** Masters with slots may vote. */
  predicate MayVote(c: Cluster)
    reads c, c.myself
  {
    !c.myself.slave && c.myself.numslots > 0
  }

  ghost function MasterOf(node: ClusterNode): set<ClusterNode>
    reads node`slaveof
  {
    if node.slaveof != null then {node.slaveof} else {}
  }

  /** A slot claimed is a member of the bitmap that came with the request. */
  lemma ClaimInPlainTerms(c: Cluster, r: Request)
    requires c.Shape() && |r.slots| == c.slotBytes
    ensures ClaimUpToDate(c, r, c.slots.Length) <==>
              forall k | k in Members(r.slots) :: c.slots[k] == null || c.slots[k].configEpoch <= r.config
  {
    assert forall k :: k in Members(r.slots) ==> BitAt(r.slots, k);
  }

  /** A request in order, in plain terms. */
  lemma OrderInPlainTerms(c: Cluster, node: ClusterNode, r: Request, now: int, nodeTimeout: nat)
    requires c.Shape() && |r.slots| == c.slotBytes
    ensures InOrder(c, node, r, now, nodeTimeout) <==>
              && !node.master && node.slaveof != null && (node.slaveof.fail || r.force)
              && now - node.slaveof.votedTime >= 2 * nodeTimeout
              && forall k | k in Members(r.slots) :: c.slots[k] == null || c.slots[k].configEpoch <= r.config
  {
    ClaimInPlainTerms(c, r);
  }

  /** Whoever gets a vote claims no slot under an epoch older than its owner's: a packet with the same
      claim would bring it no news. */
  lemma VotedForIsUpToDate(c: Cluster, node: ClusterNode, r: Request, slot: nat)
    requires c.Shape() && |r.slots| == c.slotBytes && slot < c.slots.Length
    requires forall k | k in Members(r.slots) :: c.slots[k] == null || c.slots[k].configEpoch <= r.config
    ensures !Outdated(c, node, Claim(r.config, r.slots), slot)
  {
    assert BitAt(r.slots, slot) ==> slot in Members(r.slots);
  }

  /** The tests in order. A vote leaves `lastVoteEpoch` at the current epoch. */
  method Grant(c: Cluster, node: ClusterNode, r: Request, now: int, nodeTimeout: nat) returns (granted: bool)
    requires c.Shape() && |r.slots| == c.slotBytes
    modifies c`lastVoteEpoch, MasterOf(node)`votedTime
    ensures granted <==> old(MayVote(c) && r.current >= c.currentEpoch && c.lastVoteEpoch != c.currentEpoch
                             && InOrder(c, node, r, now, nodeTimeout))
    ensures c.lastVoteEpoch == if granted then c.currentEpoch else old(c.lastVoteEpoch)
    ensures node.slaveof != null ==> node.slaveof.votedTime == if granted then now else old(node.slaveof.votedTime)
  {
    var master := node.slaveof;
    if c.myself.slave || c.myself.numslots == 0 {
      return false;
    }
    if r.current < c.currentEpoch {
      return false;
    }
    if c.lastVoteEpoch == c.currentEpoch {
      return false;
    }
    if node.master || master == null || (!master.fail && !r.force) {
      return false;
    }
    if now - node.slaveof.votedTime < nodeTimeout * 2 {
      return false;
    }
    var j := 0;
    while j < c.slots.Length
      invariant 0 <= j <= c.slots.Length && ClaimUpToDate(c, r, j)
    {
      if BitAt(r.slots, j) && c.slots[j] != null && c.slots[j].configEpoch > r.config {
        return false;
      }
      j := j + 1;
    }
    c.lastVoteEpoch := c.currentEpoch;
    node.slaveof.votedTime := now;
    return true;
  }

  /** A vote is given exactly if we are a master with slots that has not voted in the current epoch, which
      the request's is not below; the asker is a slave whose master is failing, or insists; our last vote
      about that master is two time-outs old; and each slot it claims is free or held under an epoch not
      above its own. At most one vote per epoch, and the slave voted for is behind on no slot. */
  method SendFailoverAuthIfNeeded(c: Cluster, node: ClusterNode, r: Request, now: int, nodeTimeout: nat)
      returns (granted: bool)
    requires c.Shape() && |r.slots| == c.slotBytes && c.lastVoteEpoch <= c.currentEpoch
    modifies c`lastVoteEpoch, MasterOf(node)`votedTime
    ensures granted <==>
              && !c.myself.slave && c.myself.numslots > 0
              && r.current >= c.currentEpoch && old(c.lastVoteEpoch) != c.currentEpoch
              && !node.master && node.slaveof != null && (node.slaveof.fail || r.force)
              && old(now - node.slaveof.votedTime >= 2 * nodeTimeout)
              && forall k | k in Members(r.slots) :: c.slots[k] == null || c.slots[k].configEpoch <= r.config
    ensures c.lastVoteEpoch == if granted then c.currentEpoch else old(c.lastVoteEpoch)
    ensures granted ==> old(c.lastVoteEpoch) < c.lastVoteEpoch
    ensures node.slaveof != null ==> node.slaveof.votedTime == if granted then now else old(node.slaveof.votedTime)
    ensures granted ==> forall k :: 0 <= k < c.slots.Length ==> !Outdated(c, node, Claim(r.config, r.slots), k)
  {
    OrderInPlainTerms(c, node, r, now, nodeTimeout);
    granted := Grant(c, node, r, now, nodeTimeout);
    if granted {
      forall k | 0 <= k < c.slots.Length ensures !Outdated(c, node, Claim(r.config, r.slots), k) {
        VotedForIsUpToDate(c, node, r, k);
      }
    }
  }
}
