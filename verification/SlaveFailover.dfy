/** A slave's election on the server's own fields (clusterHandleSlaveFailover), up to the takeover. */
module SlaveFailover {
  import opened ClusterNodes
  import opened Clusters
  import opened EpochRules
  import opened Failover

  /** What a call depends on beside the cluster: clock, configuration, state of the replication link, rank. */
  datatype Inputs = Inputs(now: int, nodeTimeout: nat, manual: bool, canStart: bool, dataAge: int,
                           validityFactor: nat, pingPeriod: nat, jitter: nat, rank: nat)

  function ViewOf(c: Cluster, i: Inputs): View
    reads c`size, c`myself, c.myself`master, c.myself`slaveof, MasterOf(c)`fail, MasterOf(c)`numslots
  {
    var m := c.myself.slaveof;
    View(i.now, i.nodeTimeout, c.myself.master, m != null, m != null && m.fail, m != null && m.numslots > 0,
         i.manual, i.canStart, i.dataAge, i.validityFactor, i.pingPeriod, i.jitter, i.rank, c.size)
  }

  ghost function MasterOf(c: Cluster): set<ClusterNode>
    reads c`myself, c.myself`slaveof
  {
    if c.myself.slaveof != null then {c.myself.slaveof} else {}
  }

  ghost function AuthOf(c: Cluster): Auth
    reads c`authTime, c`authRank, c`authCount, c`authSent, c`authEpoch
  {
    Auth(c.authTime, c.authRank, c.authCount, c.authSent, c.authEpoch)
  }

  /** Schedule a new attempt. */
  method Reschedule(c: Cluster, i: Inputs)
    modifies c`authTime, c`authRank, c`authCount, c`authSent
    ensures AuthOf(c) == Schedule(old(AuthOf(c)), ViewOf(c, i))
  {
    c.authTime, c.authCount, c.authSent, c.authRank := i.now + 500 + i.jitter, 0, false, i.rank;
    c.authTime := c.authTime + c.authRank * 1000;
    if i.manual {
      c.authTime, c.authRank := i.now, 0;
    }
  }

  /** Is our data too old to take over with? Not for a manual failover. */
  method DataIsTooOld(c: Cluster, i: Inputs) returns (b: bool)
    ensures b <==> TooOld(ViewOf(c, i))
  {
    var dataAge := i.dataAge;
    if dataAge > i.nodeTimeout {
      dataAge := dataAge - i.nodeTimeout;
    }
    if i.validityFactor != 0 && dataAge > i.pingPeriod * 1000 + i.nodeTimeout * i.validityFactor {
      return !(i.manual && i.canStart);
    }
    return false;
  }

  /** The delay grows with our rank. */
  method UpdateRank(c: Cluster, i: Inputs)
    modifies c`authTime, c`authRank
    ensures AuthOf(c) == Rerank(old(AuthOf(c)), ViewOf(c, i))
  {
    if !c.authSent && !i.manual {
      var newrank := i.rank;
      if newrank > c.authRank {
        c.authTime, c.authRank := c.authTime + (newrank - c.authRank) * 1000, newrank;
      }
    }
  }

  /** The handler's tests, one after the other. Nothing but the election fields changes, and currentEpoch. */
  method Advance(c: Cluster, i: Inputs) returns (action: Action)
    modifies c`authTime, c`authRank, c`authCount, c`authSent, c`authEpoch, c`currentEpoch
    ensures Outcome(AuthOf(c), c.currentEpoch, action) == HandleFailover(old(AuthOf(c)), old(c.currentEpoch), ViewOf(c, i))
  {
    var authAge := i.now - c.authTime;
    var neededQuorum := c.size / 2 + 1;
    var authTimeout := i.nodeTimeout * 2;
    if authTimeout < 2000 {
      authTimeout := 2000;
    }
    var authRetryTime := authTimeout * 2;

    var master := c.myself.slaveof;
    if c.myself.master || master == null || (!master.fail && !(i.manual && i.canStart)) || master.numslots == 0 {
      return NotNeeded;
    }
    var tooOld := DataIsTooOld(c, i);
    if tooOld {
      return DataTooOld;
    }
    if authAge > authRetryTime {
      Reschedule(c, i);
      return Scheduled;
    }
    UpdateRank(c, i);
    if i.now < c.authTime {
      return Waiting;
    }
    if authAge > authTimeout {
      return Expired;
    }
    if !c.authSent {
      c.currentEpoch := c.currentEpoch + 1;
      c.authEpoch, c.authSent := c.currentEpoch, true;
      return Requested;
    }
    if c.authCount >= neededQuorum {
      return Won;
    }
    return Collecting;
  }

  /** The election is ours: its epoch, and the old master's slots. */
  method WinElection(c: Cluster)
    requires c.Valid() && !c.myself.master && c.myself.slaveof != null
    modifies c.myself`configEpoch
    modifies c.slots, c.nodes`numslots, c.Bitmaps(), c.nodes`slaves, c.myself`slaveof, c.myself`master, c.myself`slave
    ensures c.Valid() && c.myself.master && !c.myself.slave && c.myself.slaveof == null
    ensures c.myself.configEpoch == Max(old(c.myself.configEpoch), c.authEpoch)
    ensures forall k :: 0 <= k < c.slots.Length ==>
              c.slots[k] == if old(c.slots[k]) == old(c.myself.slaveof) then c.myself else old(c.slots[k])
  {
    if c.myself.configEpoch < c.authEpoch {
      c.myself.configEpoch := c.authEpoch;
    }
    var done := c.FailoverReplaceYourMaster();
  }

  /** The handler against the rule. */
  method Handle(c: Cluster, i: Inputs) returns (action: Action)
    requires c.Valid()
    modifies c`authTime, c`authRank, c`authCount, c`authSent, c`authEpoch, c`currentEpoch, c.myself`configEpoch
    modifies c.slots, c.nodes`numslots, c.Bitmaps(), c.nodes`slaves, c.myself`slaveof, c.myself`master, c.myself`slave
    ensures c.Valid()
    ensures Outcome(AuthOf(c), c.currentEpoch, action) == HandleFailover(old(AuthOf(c)), old(c.currentEpoch), old(ViewOf(c, i)))
    ensures if action == Won then c.myself.master && !c.myself.slave && c.myself.slaveof == null
            else c.myself.master == old(c.myself.master) && c.myself.slave == old(c.myself.slave) && c.myself.slaveof == old(c.myself.slaveof)
    ensures c.myself.configEpoch == if action == Won then Max(old(c.myself.configEpoch), c.authEpoch) else old(c.myself.configEpoch)
    ensures forall k :: 0 <= k < c.slots.Length ==>
              c.slots[k] == if action == Won && old(c.slots[k]) == old(c.myself.slaveof) then c.myself else old(c.slots[k])
  {
    action := Advance(c, i);
    if action == Won {
      WinElection(c);
    }
  }

  /** clusterHandleSlaveFailover. */
  method HandleSlaveFailover(c: Cluster, i: Inputs) returns (action: Action)
    requires c.Valid()
    modifies c`authTime, c`authRank, c`authCount, c`authSent, c`authEpoch, c`currentEpoch, c.myself`configEpoch
    modifies c.slots, c.nodes`numslots, c.Bitmaps(), c.nodes`slaves, c.myself`slaveof, c.myself`master, c.myself`slave
    ensures c.Valid()
    ensures Outcome(AuthOf(c), c.currentEpoch, action) == HandleFailover(old(AuthOf(c)), old(c.currentEpoch), old(ViewOf(c, i)))
    ensures if action == Won then c.myself.master && !c.myself.slave && c.myself.slaveof == null
            else c.myself.master == old(c.myself.master) && c.myself.slave == old(c.myself.slave) && c.myself.slaveof == old(c.myself.slaveof)
    ensures c.myself.configEpoch == if action == Won then Max(old(c.myself.configEpoch), c.authEpoch) else old(c.myself.configEpoch)
    ensures forall k :: 0 <= k < c.slots.Length ==>
              c.slots[k] == if action == Won && old(c.slots[k]) == old(c.myself.slaveof) then c.myself else old(c.slots[k])
    // when it is of any concern, and when our data is too old
    ensures action != NotNeeded <==>
              old(!c.myself.master && c.myself.slaveof != null && c.myself.slaveof.numslots > 0
                  && (c.myself.slaveof.fail || (i.manual && i.canStart)))
    ensures action == DataTooOld <==>
              && old(!c.myself.master && c.myself.slaveof != null && c.myself.slaveof.numslots > 0 && c.myself.slaveof.fail)
              && !(i.manual && i.canStart) && i.validityFactor != 0
              && (if i.dataAge > i.nodeTimeout then i.dataAge - i.nodeTimeout else i.dataAge)
                 > i.pingPeriod * 1000 + i.nodeTimeout * i.validityFactor
    // what comes of it
    ensures action == Scheduled ==>
              && i.now - old(c.authTime) > 2 * (if i.nodeTimeout < 1000 then 2000 else 2 * i.nodeTimeout)
              && c.authTime == (if i.manual then i.now else i.now + 500 + i.jitter + 1000 * i.rank)
              && c.authRank == (if i.manual then 0 else i.rank) && c.authCount == 0 && !c.authSent
    ensures action in {Requested, Won} ==>
              old(c.authTime) <= i.now <= old(c.authTime) + if i.nodeTimeout < 1000 then 2000 else 2 * i.nodeTimeout
    ensures action == Requested ==>
              !old(c.authSent) && c.authSent && c.authEpoch == c.currentEpoch == old(c.currentEpoch) + 1
    ensures action == Won ==> old(c.authSent) && 2 * c.authCount > c.size
    ensures action != Requested ==> c.currentEpoch == old(c.currentEpoch) && c.authEpoch == old(c.authEpoch)
  {
    HandlerAnswers(AuthOf(c), c.currentEpoch, ViewOf(c, i));
    action := Handle(c, i);
  }

  /** A vote arrives: it counts if its sender is a master with slots, and it answers the election under
      way or a later epoch. */
  method ReceiveAck(c: Cluster, sender: ClusterNode, ackEpoch: nat)
    modifies c`authCount
    ensures AuthOf(c) == if sender.master && sender.numslots > 0 then CountVote(old(AuthOf(c)), ackEpoch) else old(AuthOf(c))
    ensures c.authCount == old(c.authCount) + if sender.master && sender.numslots > 0 && ackEpoch >= c.authEpoch then 1 else 0
  {
    if sender.master && sender.numslots > 0 && ackEpoch >= c.authEpoch {
      c.authCount := c.authCount + 1;
    }
  }
}
