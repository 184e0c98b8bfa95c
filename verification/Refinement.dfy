/** One node's state, as the heap holds it, does what a node of the network model does: the class
    layer refines the step relation packet by packet. */
module Refinement {
  import opened Bitmap
  import opened ClusterNodes
  import opened Clusters
  import opened Epochs
  import opened EpochRules
  import P = Packets
  import V = Votes
  import F = SlaveFailover
  import N = Network
  import Failover
  import Options

  ghost function Names(nodes: set<ClusterNode>): set<nat> {
    set n | n in nodes :: n.name
  }

  /** The configEpochs on record, by name. */
  ghost function Config(c: Cluster): (r: map<nat, nat>)
    requires c.Shape()
    reads c`nodes, c`myself, c.nodes`configEpoch
    ensures r.Keys == Names(c.nodes) && forall n {:trigger n.configEpoch} | n in c.nodes :: r[n.name] == n.configEpoch
  {
    map n | n in c.nodes :: n.name := n.configEpoch
  }

  /** What the network model sees of a node. */
  ghost function AsNode(c: Cluster): N.Node
    requires c.Shape()
    reads c, c.nodes, c.myself
  {
    N.Node(c.myself.master, if c.myself.slaveof == null then Options.None else Options.Some(c.myself.slaveof.name),
           c.currentEpoch, Config(c), c.lastVoteEpoch, F.AuthOf(c))
  }

  /** When only the epochs of two nodes change, so do their two records. */
  lemma ConfigChanged(c: Cluster, before: map<nat, nat>, a: ClusterNode, b: ClusterNode)
    requires c.Shape() && a in c.nodes && b in c.nodes && before.Keys == Names(c.nodes)
    requires forall n | n in c.nodes && n != a && n != b :: n.configEpoch == before[n.name]
    ensures Config(c) == before[a.name := a.configEpoch][b.name := b.configEpoch]
  {
    var after := Config(c);
    forall k | k in after ensures after[k] == before[a.name := a.configEpoch][b.name := b.configEpoch][k] {
      var n :| n in c.nodes && n.name == k;
      assert after[n.name] == n.configEpoch;
    }
  }

  lemma OneRecordChanged(c: Cluster, before: map<nat, nat>, a: ClusterNode)
    requires c.Shape() && a in c.nodes && before.Keys == Names(c.nodes)
    requires forall n | n in c.nodes && n != a :: n.configEpoch == before[n.name]
    ensures Config(c) == before[a.name := a.configEpoch]
  {
    forall k | k in Config(c) ensures Config(c)[k] == before[a.name := a.configEpoch][k] {
      var n :| n in c.nodes && n.name == k;
      assert Config(c)[n.name] == n.configEpoch;
    }
  }

  /** A ping in the network model. */
  function PingOf(sender: ClusterNode, to: nat, h: P.Header): N.Msg {
    N.Msg(sender.name, to, h.current, h.claim.epoch, h.isMaster, N.Ping)
  }

  /** The model's reaction to a ping, spelled out. */
  predicate AfterPing(id: nat, n: N.Node, m: N.Msg, demoted: bool, r: N.Node)
    requires id in n.config && m.from in n.config
  {
    var moved := !demoted && n.isMaster && m.fromMaster
                 && Collides(n.config[id], m.config, Max(n.config[m.from], m.config), id, m.from);
    && r.current == Max(n.current, m.current) + (if moved then 1 else 0)
    && r.config == n.config[m.from := Max(n.config[m.from], m.config)][id := if moved then r.current else n.config[id]]
    && r.isMaster == (n.isMaster && !demoted) && r.master == (if demoted then Options.Some(m.from) else n.master)
    && r.lastVote == n.lastVote && r.auth == n.auth
  }

  lemma AfterPingIsReceive(voters: set<nat>, id: nat, n: N.Node, m: N.Msg, demoted: bool, r: N.Node)
    requires m.body.Ping? && id in n.config && m.from in n.config && m.from != id && AfterPing(id, n, m, demoted, r)
    ensures r == N.Receive(voters, id, n, m, false, demoted)
  {
    assert n.config[m.from := Max(n.config[m.from], m.config)][id := n.config[id]] == n.config[m.from := Max(n.config[m.from], m.config)];
  }

  /** Names, our last vote and our own election are as they were. */
  twostate predicate RestKept(c: Cluster)
    reads c`myself, c`lastVoteEpoch, c`authTime, c`authRank, c`authCount, c`authSent, c`authEpoch
  {
    c.myself == old(c.myself) && c.lastVoteEpoch == old(c.lastVoteEpoch) && F.AuthOf(c) == old(F.AuthOf(c))
  }

  /** A ping leaves our vote and our election alone. */
  method PingRest(c: Cluster, sender: ClusterNode, h: P.Header, keys: set<nat>) returns (demoted: bool, purged: seq<nat>)
    requires P.Ready(c) && sender in c.nodes && sender != c.myself && (sender.master || sender.slave)
    requires (h.master != null ==> h.master in c.nodes) && |h.claim.slots| == c.slotBytes
    modifies c`currentEpoch, c.myself`configEpoch, sender`configEpoch
    modifies c.slots, c.nodes`numslots, c.Bitmaps(), c.nodes`slaves, sender`slaveof, sender`master, sender`slave
    modifies c.myself`slaveof, c.myself`master, c.myself`slave, c.importing, c.migrating
    ensures P.Ready(c) && P.EpochsAfterPing(c, old(P.MarksOf(c, sender)), sender, h)
    ensures old(EpochsOk(c)) && h.claim.epoch <= Max(old(c.currentEpoch), h.current) ==> EpochsOk(c)
    ensures P.HeaderApplied(c, old(P.Now(c, sender, h.claim)), old(sender.slaveof), sender, h, keys, demoted, purged)
    ensures RestKept(c) && P.OthersKeep(c.nodes, sender, c.myself)
  {
    ghost var mine, vote, auth := c.myself, c.lastVoteEpoch, F.AuthOf(c);
    var newer;
    demoted, purged, newer := P.TakePing(c, sender, h, keys);
    assert c.myself == mine && c.lastVoteEpoch == vote && F.AuthOf(c) == auth;
  }

  /** The facts about a ping that the model's view of the node depends on. */
  method PingFacts(c: Cluster, sender: ClusterNode, h: P.Header, keys: set<nat>) returns (demoted: bool)
    requires P.Ready(c) && sender in c.nodes && sender != c.myself && (sender.master || sender.slave)
    requires (h.master != null ==> h.master in c.nodes) && |h.claim.slots| == c.slotBytes
    modifies c`currentEpoch, c.myself`configEpoch, sender`configEpoch
    modifies c.slots, c.nodes`numslots, c.Bitmaps(), c.nodes`slaves, sender`slaveof, sender`master, sender`slave
    modifies c.myself`slaveof, c.myself`master, c.myself`slave, c.importing, c.migrating
    ensures P.Ready(c) && P.EpochsAfterPing(c, old(P.MarksOf(c, sender)), sender, h)
    ensures old(EpochsOk(c)) && h.claim.epoch <= Max(old(c.currentEpoch), h.current) ==> EpochsOk(c)
    ensures demoted <==> h.isMaster && Cluster.Emptied(old(c.slots[..]), c.slots[..], old(c.CurMaster()))
    ensures if demoted then !c.myself.master && c.myself.slaveof == sender
            else c.myself.master == old(c.myself.master) && c.myself.slaveof == old(c.myself.slaveof)
    ensures RestKept(c) && P.OthersKeep(c.nodes, sender, c.myself)
  {
    var purged;
    demoted, purged := PingRest(c, sender, h, keys);
  }

  method Ping(c: Cluster, sender: ClusterNode, h: P.Header, keys: set<nat>) returns (demoted: bool)
    requires P.Ready(c) && sender in c.nodes && sender != c.myself && (sender.master || sender.slave)
    requires (h.master != null ==> h.master in c.nodes) && |h.claim.slots| == c.slotBytes
    modifies c`currentEpoch, c.myself`configEpoch, sender`configEpoch
    modifies c.slots, c.nodes`numslots, c.Bitmaps(), c.nodes`slaves, sender`slaveof, sender`master, sender`slave
    modifies c.myself`slaveof, c.myself`master, c.myself`slave, c.importing, c.migrating
    ensures P.Ready(c) && P.EpochsAfterPing(c, old(P.MarksOf(c, sender)), sender, h) && RestKept(c)
    ensures old(EpochsOk(c)) && h.claim.epoch <= Max(old(c.currentEpoch), h.current) ==> EpochsOk(c)
    ensures demoted <==> h.isMaster && Cluster.Emptied(old(c.slots[..]), c.slots[..], old(c.CurMaster()))
    ensures if demoted then !c.myself.master && c.myself.slaveof == sender
            else c.myself.master == old(c.myself.master) && c.myself.slaveof == old(c.myself.slaveof)
    ensures Config(c) == old(Config(c))[sender.name := sender.configEpoch][c.myself.name := c.myself.configEpoch]
  {
    ghost var before := Config(c);
    demoted := PingFacts(c, sender, h, keys);
    ConfigChanged(c, before, sender, c.myself);
  }

  lemma MarksMatch(c: Cluster, sender: ClusterNode)
    requires c.Shape() && sender in c.nodes
    ensures var m := P.MarksOf(c, sender);
            && c.myself.name in Config(c) && sender.name in Config(c)
            && c.currentEpoch == m.current && Config(c)[c.myself.name] == m.mine && Config(c)[sender.name] == m.theirs
  {
  }

  /** The marks of a node after a ping, in terms of the model. */
  lemma PingIsModel(voters: set<nat>, id: nat, n: N.Node, r: N.Node, sender: ClusterNode, h: P.Header, demoted: bool,
                    was: P.Marks, now: P.Marks)
    requires id in n.config && sender.name in n.config && sender.name != id
    requires was == P.Marks(n.current, n.config[id], n.config[sender.name])
    requires now == P.Resolved(P.Absorbed(was, h), P.MovesUs(P.Absorbed(was, h), h, r.isMaster, id, sender.name))
    requires r.current == now.current && r.config == n.config[sender.name := now.theirs][id := now.mine]
    requires if demoted then !r.isMaster && r.master == Options.Some(sender.name) else r.isMaster == n.isMaster && r.master == n.master
    requires r.lastVote == n.lastVote && r.auth == n.auth
    ensures r == N.Receive(voters, id, n, PingOf(sender, id, h), false, demoted)
  {
    assert AfterPing(id, n, PingOf(sender, id, h), demoted, r);
    AfterPingIsReceive(voters, id, n, PingOf(sender, id, h), demoted, r);
  }

  /** A ping does to the node what the network model says a ping does; being demoted is the one
      thing the model leaves open, and it is exactly losing the last slot of our shard. */
  method ReceivePing(c: Cluster, sender: ClusterNode, h: P.Header, keys: set<nat>, ghost voters: set<nat>)
    returns (demoted: bool)
    requires P.Ready(c) && sender in c.nodes && sender != c.myself && (sender.master || sender.slave)
    requires (h.master != null ==> h.master in c.nodes) && |h.claim.slots| == c.slotBytes
    modifies c`currentEpoch, c.myself`configEpoch, sender`configEpoch
    modifies c.slots, c.nodes`numslots, c.Bitmaps(), c.nodes`slaves, sender`slaveof, sender`master, sender`slave
    modifies c.myself`slaveof, c.myself`master, c.myself`slave, c.importing, c.migrating
    ensures P.Ready(c) && (old(EpochsOk(c)) && h.claim.epoch <= Max(old(c.currentEpoch), h.current) ==> EpochsOk(c))
    ensures AsNode(c) == N.Receive(voters, c.myself.name, old(AsNode(c)), PingOf(sender, c.myself.name, h), false, demoted)
    ensures demoted <==> h.isMaster && Cluster.Emptied(old(c.slots[..]), c.slots[..], old(c.CurMaster()))
  {
    ghost var n, was := AsNode(c), P.MarksOf(c, sender);
    MarksMatch(c, sender);
    demoted := Ping(c, sender, h, keys);
    PingIsModel(voters, c.myself.name, n, AsNode(c), sender, h, demoted, was, P.MarksOf(c, sender));
  }

  function RequestOf(sender: ClusterNode, to: nat, r: V.Request): N.Msg {
    N.Msg(sender.name, to, r.current, r.config, false, N.AuthRequest)
  }

  /** The model's reaction to a vote request, spelled out. */
  predicate AfterRequest(id: nat, n: N.Node, m: N.Msg, granted: bool, r: N.Node)
    requires m.from in n.config
  {
    && r.current == Max(n.current, m.current) && r.config == n.config[m.from := Max(n.config[m.from], m.config)]
    && r.isMaster == n.isMaster && r.master == n.master && r.auth == n.auth
    && r.lastVote == if granted then r.current else n.lastVote
  }

  lemma AfterRequestIsReceive(voters: set<nat>, id: nat, n: N.Node, m: N.Msg, eligible: bool, granted: bool, r: N.Node)
    requires m.body.AuthRequest? && id in n.config && m.from in n.config && AfterRequest(id, n, m, granted, r)
    requires granted <==> id in voters && m.current >= r.current && n.lastVote != r.current && eligible
    ensures r == N.Receive(voters, id, n, m, eligible, false) && granted == N.Votes(voters, id, n, m, eligible)
  {
  }

  /** The epochs of a header, on record and in the model. */
  method Absorb(c: Cluster, sender: ClusterNode, current: nat, config: nat)
    requires c.Shape() && sender in c.nodes
    modifies c`currentEpoch, sender`configEpoch
    ensures c.currentEpoch == Max(old(c.currentEpoch), current)
    ensures Config(c) == old(Config(c))[sender.name := Max(old(sender.configEpoch), config)]
    ensures old(EpochsOk(c)) ==> (EpochsOk(c) <==> config <= c.currentEpoch)
  {
    ghost var before := Config(c);
    AbsorbEpochs(c, sender, current, config);
    OneRecordChanged(c, before, sender);
  }

  /** What a request has to be like whatever the epochs; `last` is when we last voted about its master. */
  ghost predicate Deserving(c: Cluster, sender: ClusterNode, r: V.Request, since: int, nodeTimeout: nat)
    requires c.Shape() && |r.slots| == c.slotBytes
    reads c`nodes, c`myself, c.slots, sender`master, sender`slaveof, V.MasterOf(sender)`fail
    reads (set k | 0 <= k < c.slots.Length && c.slots[k] != null :: c.slots[k])`configEpoch
  {
    && !sender.master && sender.slaveof != null && (sender.slaveof.fail || r.force) && since >= 2 * nodeTimeout
    && forall k | k in Members(r.slots) :: c.slots[k] == null || c.slots[k].configEpoch <= r.config
  }

  method Vote(c: Cluster, sender: ClusterNode, r: V.Request, now: int, nodeTimeout: nat, ghost last: int)
      returns (granted: bool, ghost eligible: bool)
    requires c.Shape() && sender in c.nodes && |r.slots| == c.slotBytes && c.lastVoteEpoch <= c.currentEpoch
    requires sender.slaveof != null ==> sender.slaveof.votedTime == last
    modifies c`lastVoteEpoch, V.MasterOf(sender)`votedTime
    ensures EpochsOk(c) == old(EpochsOk(c)) && Config(c) == old(Config(c))
    ensures granted <==> V.MayVote(c) && r.current >= c.currentEpoch && old(c.lastVoteEpoch) != c.currentEpoch && eligible
    ensures c.lastVoteEpoch == if granted then c.currentEpoch else old(c.lastVoteEpoch)
    ensures eligible <==> Deserving(c, sender, r, now - last, nodeTimeout)
  {
    eligible := Deserving(c, sender, r, now - last, nodeTimeout);
    granted := V.SendFailoverAuthIfNeeded(c, sender, r, now, nodeTimeout);
  }

  method Request(c: Cluster, sender: ClusterNode, r: V.Request, now: int, nodeTimeout: nat, ghost last: int)
      returns (granted: bool, ghost eligible: bool)
    requires c.Shape() && sender in c.nodes && |r.slots| == c.slotBytes && c.lastVoteEpoch <= c.currentEpoch
    requires sender.slaveof != null ==> sender.slaveof.votedTime == last
    modifies c`currentEpoch, sender`configEpoch, c`lastVoteEpoch, V.MasterOf(sender)`votedTime
    ensures c.currentEpoch == Max(old(c.currentEpoch), r.current)
    ensures Config(c) == old(Config(c))[sender.name := Max(old(sender.configEpoch), r.config)]
    ensures old(EpochsOk(c)) ==> (EpochsOk(c) <==> r.config <= c.currentEpoch)
    ensures granted <==> V.MayVote(c) && r.current >= c.currentEpoch && old(c.lastVoteEpoch) != c.currentEpoch && eligible
    ensures c.lastVoteEpoch == if granted then c.currentEpoch else old(c.lastVoteEpoch)
    ensures eligible <==> Deserving(c, sender, r, now - last, nodeTimeout)
  {
    Absorb(c, sender, r.current, r.config);
    granted, eligible := Vote(c, sender, r, now, nodeTimeout, last);
  }

  method RequestNode(c: Cluster, sender: ClusterNode, r: V.Request, now: int, nodeTimeout: nat, ghost last: int,
                     ghost voters: set<nat>) returns (granted: bool, ghost eligible: bool)
    requires c.Shape() && sender in c.nodes && |r.slots| == c.slotBytes && c.lastVoteEpoch <= c.currentEpoch
    requires c.myself.name in voters <==> V.MayVote(c)
    requires sender.slaveof != null ==> sender.slaveof.votedTime == last
    modifies c`currentEpoch, sender`configEpoch, c`lastVoteEpoch, V.MasterOf(sender)`votedTime
    ensures c.Shape() && (old(EpochsOk(c)) ==> (EpochsOk(c) <==> r.config <= c.currentEpoch))
    ensures AsNode(c) == N.Receive(voters, c.myself.name, old(AsNode(c)), RequestOf(sender, c.myself.name, r), eligible, false)
    ensures granted == N.Votes(voters, c.myself.name, old(AsNode(c)), RequestOf(sender, c.myself.name, r), eligible)
    ensures eligible <==> Deserving(c, sender, r, now - last, nodeTimeout)
  {
    ghost var n, m := AsNode(c), RequestOf(sender, c.myself.name, r);
    granted, eligible := Request(c, sender, r, now, nodeTimeout, last);
    AfterRequestIsReceive(voters, c.myself.name, n, m, eligible, granted, AsNode(c));
  }

  /** A vote request does too: the vote is given under the model's epoch rule exactly when the asker is
      a slave of a failing master, or insists, we have not voted about that master lately, and its
      claim is up to date. */
  method ReceiveRequest(c: Cluster, sender: ClusterNode, r: V.Request, now: int, nodeTimeout: nat,
                        ghost voters: set<nat>) returns (granted: bool, ghost eligible: bool)
    requires c.Shape() && sender in c.nodes && |r.slots| == c.slotBytes && c.lastVoteEpoch <= c.currentEpoch
    requires c.myself.name in voters <==> V.MayVote(c)
    modifies c`currentEpoch, sender`configEpoch, c`lastVoteEpoch, V.MasterOf(sender)`votedTime
    ensures c.Shape() && (old(EpochsOk(c)) ==> (EpochsOk(c) <==> r.config <= c.currentEpoch))
    ensures AsNode(c) == N.Receive(voters, c.myself.name, old(AsNode(c)), RequestOf(sender, c.myself.name, r), eligible, false)
    ensures granted == N.Votes(voters, c.myself.name, old(AsNode(c)), RequestOf(sender, c.myself.name, r), eligible)
    ensures eligible <==>
              && !sender.master && sender.slaveof != null && (sender.slaveof.fail || r.force)
              && old(now - sender.slaveof.votedTime >= 2 * nodeTimeout)
              && forall k | k in Members(r.slots) :: c.slots[k] == null || c.slots[k].configEpoch <= r.config
  {
    ghost var last := if sender.slaveof != null then sender.slaveof.votedTime else 0;
    granted, eligible := RequestNode(c, sender, r, now, nodeTimeout, last, voters);
  }

  lemma AckIsModel(voters: set<nat>, id: nat, n: N.Node, r: N.Node, m: N.Msg, counts: bool)
    requires id in n.config && m.from in n.config && m.body.AuthAck? && (m.from in voters <==> counts)
    requires r == N.Absorb(n, m).(auth := if counts then Failover.CountVote(n.auth, m.current) else n.auth)
    ensures r == N.Receive(voters, id, n, m, false, false)
  {
  }

  method Ack(c: Cluster, sender: ClusterNode, current: nat, config: nat)
    requires c.Shape() && sender in c.nodes
    modifies c`currentEpoch, sender`configEpoch, c`authCount
    ensures old(EpochsOk(c)) ==> (EpochsOk(c) <==> config <= c.currentEpoch)
    ensures c.currentEpoch == Max(old(c.currentEpoch), current)
    ensures Config(c) == old(Config(c))[sender.name := Max(old(sender.configEpoch), config)]
    ensures F.AuthOf(c) == if sender.master && sender.numslots > 0 then Failover.CountVote(old(F.AuthOf(c)), current) else old(F.AuthOf(c))
  {
    Absorb(c, sender, current, config);
    F.ReceiveAck(c, sender, current);
  }

  /** A vote. */
  method ReceiveAck(c: Cluster, sender: ClusterNode, current: nat, config: nat, ghost voters: set<nat>)
    requires c.Shape() && sender in c.nodes
    requires sender.name in voters <==> sender.master && sender.numslots > 0
    modifies c`currentEpoch, sender`configEpoch, c`authCount
    ensures c.Shape() && (old(EpochsOk(c)) ==> (EpochsOk(c) <==> config <= c.currentEpoch))
    ensures var m := N.Msg(sender.name, c.myself.name, current, config, sender.slaveof == null, N.AuthAck);
            AsNode(c) == N.Receive(voters, c.myself.name, old(AsNode(c)), m, false, false)
  {
    ghost var n := AsNode(c);
    ghost var m := N.Msg(sender.name, c.myself.name, current, config, sender.slaveof == null, N.AuthAck);
    Ack(c, sender, current, config);
    AckIsModel(voters, c.myself.name, n, AsNode(c), m, sender.master && sender.numslots > 0);
  }

  lemma TickIsModel(id: nat, n: N.Node, r: N.Node, v: Failover.View, mine: nat)
    requires id in n.config
    requires var o := Failover.HandleFailover(n.auth, n.current, v);
             && r.auth == o.auth && r.current == o.currentEpoch && r.lastVote == n.lastVote
             && r.config == n.config[id := mine]
             && mine == (if o.action == Failover.Won then Max(n.config[id], o.auth.epoch) else n.config[id])
             && if o.action == Failover.Won then r.isMaster && r.master == Options.None else r.isMaster == n.isMaster && r.master == n.master
    ensures r == N.TickNode(id, n, v)
  {
    assert n.config[id := n.config[id]] == n.config;
  }

  /** The facts about a call of the failover handler that the model's view of the node depends on. */
  method HandleFacts(c: Cluster, i: F.Inputs) returns (action: Failover.Action)
    requires c.Valid()
    modifies c`authTime, c`authRank, c`authCount, c`authSent, c`authEpoch, c`currentEpoch, c.myself`configEpoch
    modifies c.slots, c.nodes`numslots, c.Bitmaps(), c.nodes`slaves, c.myself`slaveof, c.myself`master, c.myself`slave
    ensures c.Valid() && c.myself == old(c.myself) && c.lastVoteEpoch == old(c.lastVoteEpoch)
    ensures Failover.Outcome(F.AuthOf(c), c.currentEpoch, action) ==
            Failover.HandleFailover(old(F.AuthOf(c)), old(c.currentEpoch), old(F.ViewOf(c, i)))
    ensures if action == Failover.Won then c.myself.master && c.myself.slaveof == null
            else c.myself.master == old(c.myself.master) && c.myself.slaveof == old(c.myself.slaveof)
    ensures c.myself.configEpoch ==
            if action == Failover.Won then Max(old(c.myself.configEpoch), c.authEpoch) else old(c.myself.configEpoch)
    ensures P.OthersKeep(c.nodes, c.myself, c.myself)
    ensures forall k :: 0 <= k < c.slots.Length ==>
              c.slots[k] == if action == Failover.Won && old(c.slots[k]) == old(c.myself.slaveof) then c.myself else old(c.slots[k])
  {
    action := F.Handle(c, i);
  }

  method Handle(c: Cluster, i: F.Inputs) returns (action: Failover.Action)
    requires c.Valid()
    modifies c`authTime, c`authRank, c`authCount, c`authSent, c`authEpoch, c`currentEpoch, c.myself`configEpoch
    modifies c.slots, c.nodes`numslots, c.Bitmaps(), c.nodes`slaves, c.myself`slaveof, c.myself`master, c.myself`slave
    ensures c.Valid() && c.myself == old(c.myself) && c.lastVoteEpoch == old(c.lastVoteEpoch)
    ensures Failover.Outcome(F.AuthOf(c), c.currentEpoch, action) ==
            Failover.HandleFailover(old(F.AuthOf(c)), old(c.currentEpoch), old(F.ViewOf(c, i)))
    ensures if action == Failover.Won then c.myself.master && c.myself.slaveof == null
            else c.myself.master == old(c.myself.master) && c.myself.slaveof == old(c.myself.slaveof)
    ensures c.myself.configEpoch ==
            if action == Failover.Won then Max(old(c.myself.configEpoch), c.authEpoch) else old(c.myself.configEpoch)
    ensures Config(c) == old(Config(c))[c.myself.name := c.myself.configEpoch]
    ensures forall k :: 0 <= k < c.slots.Length ==>
              c.slots[k] == if action == Failover.Won && old(c.slots[k]) == old(c.myself.slaveof) then c.myself else old(c.slots[k])
  {
    ghost var before := Config(c);
    action := HandleFacts(c, i);
    OneRecordChanged(c, before, c.myself);
  }

  /** One call of the failover handler, the win and the takeover included. */
  method Tick(c: Cluster, i: F.Inputs) returns (action: Failover.Action)
    requires c.Valid()
    modifies c`authTime, c`authRank, c`authCount, c`authSent, c`authEpoch, c`currentEpoch, c.myself`configEpoch
    modifies c.slots, c.nodes`numslots, c.Bitmaps(), c.nodes`slaves, c.myself`slaveof, c.myself`master, c.myself`slave
    ensures c.Valid()
    ensures action == Failover.HandleFailover(old(F.AuthOf(c)), old(c.currentEpoch), old(F.ViewOf(c, i))).action
    ensures AsNode(c) == N.TickNode(c.myself.name, old(AsNode(c)), old(F.ViewOf(c, i)))
    ensures forall k :: 0 <= k < c.slots.Length ==>
              c.slots[k] == if action == Failover.Won && old(c.slots[k]) == old(c.myself.slaveof) then c.myself else old(c.slots[k])
  {
    ghost var n, v := AsNode(c), F.ViewOf(c, i);
    action := Handle(c, i);
    TickIsModel(c.myself.name, n, AsNode(c), v, c.myself.configEpoch);
  }

  /** What an update can cost us: the owner table, and our place in it. */
  datatype Shard = Shard(slots: seq<ClusterNode?>, me: ClusterNode, master: bool, slaveof: ClusterNode?)

  function ShardOf(c: Cluster): Shard
    reads c.slots, c`myself, c.myself`master, c.myself`slaveof
  {
    Shard(c.slots[..], c.myself, c.myself.master, c.myself.slaveof)
  }

  /** An update has been acted on if it was newer than `known`; we have become a slave of the node it is
      about exactly if that took our shard's last slot. */
  ghost predicate Updated(c: Cluster, was: Shard, about: ClusterNode, reported: nat, known: nat, done: bool, demoted: bool)
    reads c.slots, c`myself, c.myself`master, c.myself`slaveof, about`configEpoch
  {
    && (done <==> known < reported) && about.configEpoch == (if done then reported else known) && c.myself == was.me
    && (if demoted then !c.myself.master && c.myself.slaveof == about
        else if done && about == was.me then c.myself.master && c.myself.slaveof == null
        else c.myself.master == was.master && c.myself.slaveof == was.slaveof)
    && (demoted <==> done && about != was.me && Cluster.Emptied(was.slots, c.slots[..], if was.master then was.me else was.slaveof))
  }

  /** The facts about the body of an update that the model's view of the node depends on. */
  method UpdateFacts(c: Cluster, about: ClusterNode, claim: P.Claim, keys: set<nat>) returns (done: bool, demoted: bool)
    requires P.Ready(c) && about in c.nodes && (about.master || about.slave) && |claim.slots| == c.slotBytes
    modifies about`configEpoch, c.slots, c.nodes`numslots, c.Bitmaps(), c.nodes`slaves, about`slaveof, about`master, about`slave
    modifies c.myself`slaveof, c.myself`master, c.myself`slave, c.importing, c.migrating
    ensures P.Ready(c) && RestKept(c) && P.OthersKeep(c.nodes, about, about)
    ensures old(EpochsOk(c)) && claim.epoch <= c.currentEpoch ==> EpochsOk(c)
    ensures Updated(c, old(ShardOf(c)), about, claim.epoch, old(about.configEpoch), done, demoted)
  {
    var purged;
    done, demoted, purged := P.TakeUpdate(c, about, claim, keys);
  }

  /** The configEpoch on record for the node an update is about, when it comes to be compared: the header
      has been dealt with, and may have been that node's own. */
  function Known(own: bool, recorded: nat, announced: nat): nat {
    if own then Max(recorded, announced) else recorded
  }

  /** The facts about an update, its header included. */
  method HeaderAndUpdate(c: Cluster, sender: ClusterNode, current: nat, config: nat, about: ClusterNode, claim: P.Claim,
                         keys: set<nat>) returns (done: bool, demoted: bool)
    requires P.Ready(c) && sender in c.nodes && about in c.nodes && (about.master || about.slave)
    requires |claim.slots| == c.slotBytes
    modifies c`currentEpoch, sender`configEpoch
    modifies about`configEpoch, c.slots, c.nodes`numslots, c.Bitmaps(), c.nodes`slaves, about`slaveof, about`master, about`slave
    modifies c.myself`slaveof, c.myself`master, c.myself`slave, c.importing, c.migrating
    ensures P.Ready(c) && RestKept(c) && P.OthersKeep(c.nodes, sender, about)
    ensures c.currentEpoch == Max(old(c.currentEpoch), current)
    ensures sender != about ==> sender.configEpoch == Max(old(sender.configEpoch), config)
    ensures old(EpochsOk(c)) && config <= c.currentEpoch && claim.epoch <= c.currentEpoch ==> EpochsOk(c)
    ensures Updated(c, old(ShardOf(c)), about, claim.epoch, Known(about == sender, old(about.configEpoch), config), done, demoted)
  {
    P.TakeEpochs(c, sender, current, config);
    done, demoted := UpdateFacts(c, about, claim, keys);
  }

  /** What the model does with an update. */
  lemma UpdateIsModel(voters: set<nat>, id: nat, n: N.Node, r: N.Node, m: N.Msg, done: bool, demoted: bool, theirs: nat, its: nat)
    requires m.body.Update? && id in n.config && m.from in n.config && m.body.about in n.config
    requires var known := Known(m.body.about == m.from, n.config[m.body.about], m.config);
             (done <==> known < m.body.reported) && its == if done then m.body.reported else known
    requires theirs == if m.body.about == m.from then its else Max(n.config[m.from], m.config)
    requires (demoted ==> done && m.body.about != id) && r.current == Max(n.current, m.current)
    requires r.config == n.config[m.from := theirs][m.body.about := its] && r.lastVote == n.lastVote && r.auth == n.auth
    requires if demoted then !r.isMaster && r.master == Options.Some(m.body.about)
             else if done && m.body.about == id then r.isMaster && r.master == Options.None
             else r.isMaster == n.isMaster && r.master == n.master
    ensures r == N.Receive(voters, id, n, m, false, demoted)
  {
    var n1 := N.Absorb(n, m);
    assert n1.config[m.body.about := its] == r.config;
    assert !done ==> n1.config[m.body.about := its] == n1.config;
  }

  /** The same, and what is on record. */
  method UpdateNode(c: Cluster, sender: ClusterNode, current: nat, config: nat, about: ClusterNode, claim: P.Claim,
                    keys: set<nat>) returns (done: bool, demoted: bool)
    requires P.Ready(c) && sender in c.nodes && about in c.nodes && (about.master || about.slave)
    requires |claim.slots| == c.slotBytes
    modifies c`currentEpoch, sender`configEpoch
    modifies about`configEpoch, c.slots, c.nodes`numslots, c.Bitmaps(), c.nodes`slaves, about`slaveof, about`master, about`slave
    modifies c.myself`slaveof, c.myself`master, c.myself`slave, c.importing, c.migrating
    ensures P.Ready(c) && RestKept(c) && c.currentEpoch == Max(old(c.currentEpoch), current)
    ensures Config(c) == old(Config(c))[sender.name := sender.configEpoch][about.name := about.configEpoch]
    ensures sender != about ==> sender.configEpoch == Max(old(sender.configEpoch), config)
    ensures old(EpochsOk(c)) && config <= c.currentEpoch && claim.epoch <= c.currentEpoch ==> EpochsOk(c)
    ensures Updated(c, old(ShardOf(c)), about, claim.epoch, Known(about == sender, old(about.configEpoch), config), done, demoted)
  {
    ghost var before := Config(c);
    done, demoted := HeaderAndUpdate(c, sender, current, config, about, claim, keys);
    ConfigChanged(c, before, sender, about);
  }

  /** An update about some node we know, from a node we know. */
  method ReceiveUpdate(c: Cluster, sender: ClusterNode, current: nat, config: nat, about: ClusterNode, claim: P.Claim,
                       keys: set<nat>, ghost voters: set<nat>) returns (done: bool, demoted: bool)
    requires P.Ready(c) && sender in c.nodes && about in c.nodes && (about.master || about.slave)
    requires |claim.slots| == c.slotBytes
    modifies c`currentEpoch, sender`configEpoch
    modifies about`configEpoch, c.slots, c.nodes`numslots, c.Bitmaps(), c.nodes`slaves, about`slaveof, about`master, about`slave
    modifies c.myself`slaveof, c.myself`master, c.myself`slave, c.importing, c.migrating
    ensures P.Ready(c)
    ensures old(EpochsOk(c)) && config <= c.currentEpoch && claim.epoch <= c.currentEpoch ==> EpochsOk(c)
    ensures var m := N.Msg(sender.name, c.myself.name, current, config, old(sender.slaveof) == null, N.Update(about.name, claim.epoch));
            AsNode(c) == N.Receive(voters, c.myself.name, old(AsNode(c)), m, false, demoted)
    ensures Updated(c, old(ShardOf(c)), about, claim.epoch, Known(about == sender, old(about.configEpoch), config), done, demoted)
  {
    ghost var n := AsNode(c);
    ghost var m := N.Msg(sender.name, c.myself.name, current, config, sender.slaveof == null, N.Update(about.name, claim.epoch));
    ghost var theirs, its := sender.configEpoch, about.configEpoch;
    assert n.config[sender.name] == theirs && n.config[about.name] == its;
    done, demoted := UpdateNode(c, sender, current, config, about, claim, keys);
    UpdateIsModel(voters, c.myself.name, n, AsNode(c), m, done, demoted, sender.configEpoch, about.configEpoch);
  }

  lemma BumpIsModel(id: nat, n: N.Node, r: N.Node)
    requires id in n.config && forall k :: k in n.config ==> n.config[k] <= n.current
    requires r == if n.config[id] == 0 || n.config[id] < n.current then n.(current := n.current + 1, config := n.config[id := n.current + 1]) else n
    ensures r == N.BumpNode(id, n)
  {
    assert MaxEpoch(n.config, n.current) == n.current;
  }

  lemma EpochsByName(c: Cluster)
    requires c.Shape() && EpochsOk(c)
    ensures forall k :: k in Config(c) ==> Config(c)[k] <= c.currentEpoch
  {
    forall k | k in Config(c) ensures Config(c)[k] <= c.currentEpoch {
      var n :| n in c.nodes && n.name == k;
    }
  }

  method BumpRecord(c: Cluster) returns (ok: bool)
    requires c.Shape() && EpochsOk(c)
    modifies c`currentEpoch, c.myself`configEpoch
    ensures EpochsOk(c) && Config(c) == old(Config(c))[c.myself.name := c.myself.configEpoch]
    ensures ok <==> old(c.myself.configEpoch) == 0 || old(c.myself.configEpoch) < old(c.currentEpoch)
    ensures if ok then c.myself.configEpoch == c.currentEpoch == old(c.currentEpoch) + 1
            else c.myself.configEpoch == old(c.myself.configEpoch) && c.currentEpoch == old(c.currentEpoch)
  {
    ghost var before := Config(c);
    ok := BumpConfigEpoch(c);
    OneRecordChanged(c, before, c.myself);
  }

  /** And so does a bump of our own configEpoch. */
  method Bump(c: Cluster) returns (ok: bool)
    requires c.Shape() && EpochsOk(c)
    modifies c`currentEpoch, c.myself`configEpoch
    ensures c.Shape() && EpochsOk(c) && AsNode(c) == N.BumpNode(c.myself.name, old(AsNode(c)))
  {
    ghost var n := AsNode(c);
    EpochsByName(c);
    ok := BumpRecord(c);
    assert n.config[c.myself.name := n.config[c.myself.name]] == n.config;
    BumpIsModel(c.myself.name, n, AsNode(c));
  }

  /** What we put in a ping is what the network model says a node puts there. */
  method SendPing(c: Cluster, to: nat) returns (h: P.Header)
    requires c.Shape() && c.Views() && c.Graph()
    ensures PingOf(c.myself, to, h) == N.Header(c.myself.name, AsNode(c), to, N.Ping)
  {
    h := P.BuildHeader(c);
    assert c.myself.name in Config(c) && Config(c)[c.myself.name] == c.myself.configEpoch;
    assert c.myself.slaveof != null ==> Config(c)[c.myself.slaveof.name] == c.myself.slaveof.configEpoch;
  }
}
