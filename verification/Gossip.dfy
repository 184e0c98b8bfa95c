/** Failure reports received by gossip, and the weak agreement that marks a node as failing. */
module Gossip {
  import opened ClusterNodes
  import opened Clusters
  import Failover

  /** The size of the cluster, as clusterUpdateState counts it: the masters that serve slots, and how
      many of them look reachable. */
  method CountMasters(c: Cluster) returns (size: nat, reachable: nat)
    ensures size == |VotingMasters(c)|
    ensures reachable == |set n | n in VotingMasters(c) && !n.fail && !n.pfail|
  {
    size, reachable := 0, 0;
    var rest := c.nodes;
    ghost var masters, alive: set<ClusterNode> := {}, {};
    while rest != {}
      invariant rest <= c.nodes && size == |masters| && reachable == |alive|
      invariant masters <= c.nodes && forall n | n in c.nodes :: n in masters <==> n !in rest && n.master && n.numslots > 0
      invariant alive <= masters && forall n | n in masters :: n in alive <==> !n.fail && !n.pfail
      decreases rest
    {
      var n :| n in rest;
      rest := rest - {n};
      if n.master && n.numslots > 0 {
        size, masters := size + 1, masters + {n};
        if !n.fail && !n.pfail {
          reachable, alive := reachable + 1, alive + {n};
        }
      }
    }
    assert masters == VotingMasters(c);
    assert alive == set n | n in VotingMasters(c) && !n.fail && !n.pfail;
  }

  ghost function VotingMasters(c: Cluster): set<ClusterNode>
    reads c, c.nodes
  {
    set n | n in c.nodes && n.master && n.numslots > 0
  }

  /** How many hold a node to be failing: those with a live report, and ourselves if we are a master. */
  ghost function Accusers(reported: map<ClusterNode, int>, now: int, maxtime: int, iAmMaster: bool): nat {
    |Unexpired(reported, now, maxtime)| + if iAmMaster then 1 else 0
  }

  /** The count in plain terms. */
  lemma AccusersAreCounted(reported: map<ClusterNode, int>, now: int, maxtime: int, iAmMaster: bool)
    ensures Accusers(reported, now, maxtime, iAmMaster) ==
            |set n | n in reported && now - reported[n] <= maxtime| + if iAmMaster then 1 else 0
  {
    assert Unexpired(reported, now, maxtime).Keys == set n | n in reported && now - reported[n] <= maxtime;
    assert |Unexpired(reported, now, maxtime)| == |Unexpired(reported, now, maxtime).Keys|;
  }

  /** It is the number of nodes accusing, as we never report to ourselves. */
  lemma NobodyCountsTwice(live: set<ClusterNode>, me: ClusterNode, iAmMaster: bool)
    requires me !in live
    ensures |live + (if iAmMaster then {me} else {})| == |live| + if iAmMaster then 1 else 0
  {
  }

  /** markNodeAsFailingIfNeeded, its flags and the list it leaves. */
  method Mark(c: Cluster, node: ClusterNode, now: int, maxtime: int)
    requires node.ReportsOk()
    modifies node`failReports, node`pfail, node`fail
    ensures node.ReportsOk()
    ensures var asked := old(node.pfail && !node.fail);
            var marks := asked && Accusers(old(Reported(node.failReports)), now, maxtime, c.myself.master) >= Failover.Quorum(c.size);
            && node.fail == (old(node.fail) || marks) && node.pfail == (old(node.pfail) && !marks)
            && Reported(node.failReports) == if asked then Unexpired(old(Reported(node.failReports)), now, maxtime) else old(Reported(node.failReports))
  {
    var neededQuorum := c.size / 2 + 1;
    if !node.pfail || node.fail {
      return;
    }
    var failures := node.FailureReportsCount(now, maxtime);
    if c.myself.master {
      failures := failures + 1;
    }
    if failures < neededQuorum {
      return;
    }
    node.pfail, node.fail := false, true;
  }

  /** A node is newly marked exactly if it was PFAIL, and not FAIL, and those that hold it to be failing,
      the senders of live reports and ourselves if we are a master, are more than half the cluster. */
  method MarkNodeAsFailingIfNeeded(c: Cluster, node: ClusterNode, now: int, maxtime: int)
    requires node.ReportsOk()
    modifies node`failReports, node`pfail, node`fail
    ensures node.ReportsOk()
    ensures var was := old(Reported(node.failReports));
            var live := set n | n in was && now - was[n] <= maxtime;
            var marked := old(node.pfail && !node.fail) && 2 * (|live| + if c.myself.master then 1 else 0) > c.size;
            && node.fail == (old(node.fail) || marked) && node.pfail == (old(node.pfail) && !marked)
            && (c.myself !in was ==> |live| + (if c.myself.master then 1 else 0) == |live + (if c.myself.master then {c.myself} else {})|)
    ensures Reported(node.failReports) ==
            if old(node.pfail && !node.fail) then Unexpired(old(Reported(node.failReports)), now, maxtime) else old(Reported(node.failReports))
  {
    ghost var was := Reported(node.failReports);
    AccusersAreCounted(was, now, maxtime, c.myself.master);
    if c.myself !in was {
      NobodyCountsTwice((set n | n in was && now - was[n] <= maxtime), c.myself, c.myself.master);
    }
    Mark(c, node, now, maxtime);
  }

  /** A master says the node is failing. */
  method HearAccusation(c: Cluster, sender: ClusterNode, node: ClusterNode, now: int, maxtime: int)
    requires node.ReportsOk() && maxtime >= 0
    modifies node`failReports, node`pfail, node`fail
    ensures node.ReportsOk()
    ensures var marks := old(node.pfail && !node.fail)
                         && Accusers(old(Reported(node.failReports))[sender := now], now, maxtime, c.myself.master) >= Failover.Quorum(c.size);
            node.fail == (old(node.fail) || marks) && node.pfail == (old(node.pfail) && !marks)
    ensures Unexpired(Reported(node.failReports), now, maxtime) == Unexpired(old(Reported(node.failReports)), now, maxtime)[sender := now]
    ensures Reported(node.failReports).Keys <= old(Reported(node.failReports)).Keys + {sender}
  {
    UnexpiredAfterReport(Reported(node.failReports), sender, now, maxtime);
    var isNew := node.AddFailureReport(sender, now);
    Mark(c, node, now, maxtime);
  }

  lemma UnexpiredAfterReport(m: map<ClusterNode, int>, sender: ClusterNode, now: int, maxtime: int)
    requires maxtime >= 0
    ensures Unexpired(m[sender := now], now, maxtime) == Unexpired(m, now, maxtime)[sender := now]
    ensures Unexpired(Unexpired(m[sender := now], now, maxtime), now, maxtime) == Unexpired(m[sender := now], now, maxtime)
  {
  }

  /** One entry of the gossip section about a node we know: flags and list. */
  method HearGossip(c: Cluster, sender: ClusterNode, node: ClusterNode, failing: bool, now: int, maxtime: int)
    requires node.ReportsOk() && maxtime >= 0
    modifies node`failReports, node`pfail, node`fail
    ensures node.ReportsOk()
    ensures var marks := old(node.pfail && !node.fail) && sender.master && node != c.myself && failing
                         && Accusers(old(Reported(node.failReports))[sender := now], now, maxtime, c.myself.master) >= Failover.Quorum(c.size);
            node.fail == (old(node.fail) || marks) && node.pfail == (old(node.pfail) && !marks)
    ensures Unexpired(Reported(node.failReports), now, maxtime) ==
            if !sender.master || node == c.myself then Unexpired(old(Reported(node.failReports)), now, maxtime)
            else if failing then Unexpired(old(Reported(node.failReports)), now, maxtime)[sender := now]
            else Unexpired(old(Reported(node.failReports)), now, maxtime) - {sender}
    ensures Reported(node.failReports).Keys <= old(Reported(node.failReports)).Keys + {sender}
  {
    if sender.master && node != c.myself {
      if failing {
        HearAccusation(c, sender, node, now, maxtime);
      } else {
        var found := node.DelFailureReport(sender, now, maxtime);
      }
    }
  }

  lemma AccusersAfterReport(m: map<ClusterNode, int>, sender: ClusterNode, now: int, maxtime: int, iAmMaster: bool)
    requires maxtime >= 0
    ensures Accusers(m[sender := now], now, maxtime, iAmMaster) ==
            |(set n | n in m && now - m[n] <= maxtime) + {sender}| + if iAmMaster then 1 else 0
  {
    AccusersAreCounted(m[sender := now], now, maxtime, iAmMaster);
    var m1, live := m[sender := now], set n | n in m && now - m[n] <= maxtime;
    assert (set n | n in m1 && now - m1[n] <= maxtime) == live + {sender};
  }

  /** A node becomes FAIL exactly when a master says it is failing, it is PFAIL and not ourselves, and those
      that hold it to be failing, that sender and ourselves if we are a master among them, are more than
      half the cluster. */
  method GossipEntry(c: Cluster, sender: ClusterNode, node: ClusterNode, failing: bool, now: int, maxtime: int)
    requires node.ReportsOk() && maxtime >= 0
    modifies node`failReports, node`pfail, node`fail
    ensures node.ReportsOk()
    ensures var was := old(Reported(node.failReports));
            var accusers := (set n | n in was && now - was[n] <= maxtime) + {sender};
            var marked := sender.master && node != c.myself && failing && old(node.pfail && !node.fail)
                          && 2 * (|accusers| + if c.myself.master then 1 else 0) > c.size;
            && node.fail == (old(node.fail) || marked) && node.pfail == (old(node.pfail) && !marked)
            && (c.myself !in was && sender != c.myself ==>
                  && |accusers| + (if c.myself.master then 1 else 0) == |accusers + (if c.myself.master then {c.myself} else {})|
                  && c.myself !in Reported(node.failReports))
    ensures Unexpired(Reported(node.failReports), now, maxtime) ==
            if !sender.master || node == c.myself then Unexpired(old(Reported(node.failReports)), now, maxtime)
            else if failing then Unexpired(old(Reported(node.failReports)), now, maxtime)[sender := now]
            else Unexpired(old(Reported(node.failReports)), now, maxtime) - {sender}
  {
    ghost var was := Reported(node.failReports);
    AccusersAfterReport(was, sender, now, maxtime, c.myself.master);
    if c.myself !in was && sender != c.myself {
      NobodyCountsTwice((set n | n in was && now - was[n] <= maxtime) + {sender}, c.myself, c.myself.master);
    }
    HearGossip(c, sender, node, failing, now, maxtime);
  }

  lemma LiveAreReporters(m: map<ClusterNode, int>, sender: ClusterNode, now: int, maxtime: int)
    ensures var live := set n | n in m && now - m[n] <= maxtime; live <= m.Keys && |live + {sender}| >= 1
  {
    assert sender in (set n | n in m && now - m[n] <= maxtime) + {sender};
  }

  /** The word of one master. */
  method OneWord(c: Cluster, sender: ClusterNode, node: ClusterNode)
    requires node.failReports == [] && node != c.myself && sender != c.myself && c.myself.master && sender.master
    requires node.pfail && !node.fail && c.size == 3
    modifies node`failReports, node`pfail, node`fail
    ensures node.fail && !node.pfail
  {
    LiveAreReporters(Reported(node.failReports), sender, 0, 0);
    assert Reported(node.failReports).Keys == {};
    GossipEntry(c, sender, node, true, 0, 0);
  }

  /** Three masters, one of them PFAIL: the word of the second and our own are a quorum. */
  method TwoOfThree() returns (c: Cluster, node: ClusterNode)
    ensures c.myself.master && c.size == 3 && node.fail && !node.pfail
  {
    c := new Cluster(0, 1, false);
    node := new ClusterNode(1, 1);
    var other := new ClusterNode(2, 1);
    node.master, node.pfail, other.master, c.size := true, true, true, 3;
    OneWord(c, other, node);
  }

  // ------------------------------------------------------- the list over a whole history

  /** What can happen to the reports about one node. */
  datatype ReportEvent =
    | Accuse(sender: ClusterNode, at: int)     // a failure report arrives
    | Absolve(sender: ClusterNode, at: int)    // the sender says the node is up again
    | Count(at: int)                           // somebody counts them

  /** What one of them makes of the reports on record. */
  ghost function AfterReport(m: map<ClusterNode, int>, e: ReportEvent, maxtime: int): map<ClusterNode, int> {
    match e
    case Accuse(sender, at) => m[sender := at]
    case Absolve(sender, at) => if sender in m then Unexpired(m - {sender}, at, maxtime) else m
    case Count(at) => Unexpired(m, at, maxtime)
  }

  /** One after another, from none. */
  ghost function AfterReports(es: seq<ReportEvent>, maxtime: int): map<ClusterNode, int> {
    if es == [] then map[] else AfterReport(AfterReports(es[..|es| - 1], maxtime), es[|es| - 1], maxtime)
  }

  /** The operations on the list itself. */
  method React(node: ClusterNode, e: ReportEvent, maxtime: int)
    requires node.ReportsOk()
    modifies node`failReports
    ensures node.ReportsOk() && Reported(node.failReports) == AfterReport(old(Reported(node.failReports)), e, maxtime)
  {
    match e
    case Accuse(sender, at) =>
      var isNew := node.AddFailureReport(sender, at);
    case Absolve(sender, at) =>
      var found := node.DelFailureReport(sender, at, maxtime);
    case Count(at) =>
      var count := node.FailureReportsCount(at, maxtime);
  }

  /** Whatever happens to the list of a node, it means what the events say. */
  method Replay(node: ClusterNode, es: seq<ReportEvent>, maxtime: int)
    requires node.failReports == []
    modifies node`failReports
    ensures node.ReportsOk() && Reported(node.failReports) == AfterReports(es, maxtime)
  {
    var i := 0;
    while i < |es|
      invariant 0 <= i <= |es| && node.ReportsOk() && Reported(node.failReports) == AfterReports(es[..i], maxtime)
    {
      React(node, es[i], maxtime);
      assert es[..i + 1][..i] == es[..i];
      i := i + 1;
    }
    assert es[..i] == es;
  }

  /** After any history the count is that of the senders whose last word is an accusation that has not
      expired. */
  method CountAfter(node: ClusterNode, es: seq<ReportEvent>, maxtime: int, now: int) returns (count: nat)
    requires node.failReports == [] && InOrder(es) && forall i :: 0 <= i < |es| ==> es[i].at <= now
    modifies node`failReports
    ensures node.ReportsOk() && count == |Reported(node.failReports)|
    ensures forall who :: who in Reported(node.failReports) <==>
              LastWord(es, who).Failing? && now - LastWord(es, who).at <= maxtime
  {
    Replay(node, es, maxtime);
    count := node.FailureReportsCount(now, maxtime);
    forall who: ClusterNode
      ensures who in Reported(node.failReports) <==> LastWord(es, who).Failing? && now - LastWord(es, who).at <= maxtime
    {
      ReportsMeanLastWords(es, maxtime, now, who);
    }
  }

  /** The clock does not go back. */
  ghost predicate InOrder(es: seq<ReportEvent>) {
    forall i, j :: 0 <= i < j < |es| ==> es[i].at <= es[j].at
  }

  datatype Word = Nothing | Failing(at: int)

  /** What a sender said last: the reference meaning, with no list and no clean-up. */
  ghost function LastWord(es: seq<ReportEvent>, who: ClusterNode): Word {
    if es == [] then Nothing
    else
      match es[|es| - 1]
      case Accuse(sender, at) => if sender == who then Failing(at) else LastWord(es[..|es| - 1], who)
      case Absolve(sender, _) => if sender == who then Nothing else LastWord(es[..|es| - 1], who)
      case Count(_) => LastWord(es[..|es| - 1], who)
  }

  /** However clean-ups interleave, at any later time exactly those senders count whose last word
      is an accusation that has not expired. */
  lemma {:induction false} ReportsMeanLastWords(es: seq<ReportEvent>, maxtime: int, now: int, who: ClusterNode)
    requires InOrder(es) && forall i :: 0 <= i < |es| ==> es[i].at <= now
    ensures who in Unexpired(AfterReports(es, maxtime), now, maxtime) <==>
            LastWord(es, who).Failing? && now - LastWord(es, who).at <= maxtime
    ensures who in AfterReports(es, maxtime) ==> LastWord(es, who) == Failing(AfterReports(es, maxtime)[who])
  {
    if es != [] {
      ReportsMeanLastWords(es[..|es| - 1], maxtime, now, who);
    }
  }
}
