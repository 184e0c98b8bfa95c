/** The epochs one node keeps, and what it may do to its own (cluster.c, "CLUSTER config epoch handling"). */
module Epochs {
  import opened ClusterNodes
  import opened Clusters
  import opened EpochRules

  /** Nothing on record is above the current epoch. */
  ghost predicate EpochsOk(c: Cluster)
    reads c`nodes, c`currentEpoch, c.nodes`configEpoch
  {
    forall n | n in c.nodes :: n.configEpoch <= c.currentEpoch
  }

  /** `m` is the greatest epoch in sight. */
  ghost predicate IsMaxEpoch(c: Cluster, m: nat)
    reads c`nodes, c`currentEpoch, c.nodes`configEpoch
  {
    && c.currentEpoch <= m && (forall n | n in c.nodes :: n.configEpoch <= m)
    && (m == c.currentEpoch || exists n | n in c.nodes :: n.configEpoch == m)
  }

  method GetMaxEpoch(c: Cluster) returns (max: nat)
    ensures IsMaxEpoch(c, max)
  {
    max := 0;
    var rest := c.nodes;
    while rest != {}
      invariant rest <= c.nodes
      invariant forall n | n in c.nodes - rest :: n.configEpoch <= max
      invariant max == 0 || exists n | n in c.nodes :: n.configEpoch == max
      decreases rest
    {
      var n :| n in rest;
      if n.configEpoch > max {
        max := n.configEpoch;
      }
      rest := rest - {n};
    }
    if max < c.currentEpoch {
      max := c.currentEpoch;
    }
  }

  /** Among consistent epochs the greatest is the current one, so loading repairs nothing. */
  lemma MaxIsCurrent(c: Cluster, max: nat)
    requires EpochsOk(c)
    ensures IsMaxEpoch(c, max) <==> max == c.currentEpoch
  {
  }

  /** clusterBumpConfigEpochWithoutConsensus. */
  method BumpConfigEpoch(c: Cluster) returns (ok: bool)
    requires c.myself in c.nodes && EpochsOk(c)
    modifies c`currentEpoch, c.myself`configEpoch
    ensures EpochsOk(c)
    ensures ok <==> old(c.myself.configEpoch) == 0 || old(c.myself.configEpoch) < old(c.currentEpoch)
    ensures if ok then c.myself.configEpoch == c.currentEpoch == old(c.currentEpoch) + 1
            else c.myself.configEpoch == c.currentEpoch == old(c.currentEpoch)
    ensures ok ==> forall n | n in c.nodes && n != c.myself :: n.configEpoch < c.myself.configEpoch
  {
    var maxEpoch := GetMaxEpoch(c);
    MaxIsCurrent(c, maxEpoch);
    if c.myself.configEpoch == 0 || c.myself.configEpoch != maxEpoch {
      c.currentEpoch := c.currentEpoch + 1;
      c.myself.configEpoch := c.currentEpoch;
      return true;
    }
    return false;
  }

  /** clusterHandleConfigEpochCollision. */
  method HandleConfigEpochCollision(c: Cluster, sender: ClusterNode)
    requires c.Shape() && sender in c.nodes
    modifies c`currentEpoch, c.myself`configEpoch
    ensures old(EpochsOk(c)) ==> EpochsOk(c)
    ensures var moved := sender.master && c.myself.master && old(sender.configEpoch == c.myself.configEpoch) && sender.name > c.myself.name;
            c.currentEpoch == old(c.currentEpoch) + (if moved then 1 else 0)
            && c.myself.configEpoch == if moved then c.currentEpoch else old(c.myself.configEpoch)
  {
    if sender.configEpoch != c.myself.configEpoch || !sender.master || !c.myself.master {
      return;
    }
    if sender.name <= c.myself.name {
      return;
    }
    c.currentEpoch := c.currentEpoch + 1;
    c.myself.configEpoch := c.currentEpoch;
  }

  /** The epochs of a packet header. Only a header that announces a configEpoch above all current epochs
      makes ours inconsistent. */
  method AbsorbEpochs(c: Cluster, sender: ClusterNode, current: nat, config: nat)
    requires sender in c.nodes
    modifies c`currentEpoch, sender`configEpoch
    ensures old(EpochsOk(c)) ==> (EpochsOk(c) <==> config <= c.currentEpoch)
    ensures c.currentEpoch == Max(old(c.currentEpoch), current)
    ensures sender.configEpoch == Max(old(sender.configEpoch), config)
  {
    if current > c.currentEpoch {
      c.currentEpoch := current;
    }
    if config > sender.configEpoch {
      sender.configEpoch := config;
    }
  }
}
