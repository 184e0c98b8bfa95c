/** Many nodes, exchanging packets that may be delayed, reordered or lost but are delivered at
    most once. A step is one node doing one thing the source does. */
module Network {
  import opened Options
  import opened EpochRules
  import opened Failover

  type Id = nat

  /** One node: its role, its epochs, the configEpoch it has on record for every node it knows
      (itself included), its last vote, and its election state. */
  datatype Node = Node(isMaster: bool, master: Option<Id>, current: nat, config: map<Id, nat>, lastVote: nat, auth: Auth)

  datatype Body = Ping | Other | AuthRequest | AuthAck | Update(about: Id, reported: nat)

  /** A packet: header epochs, whether the header names no master, and the payload. */
  datatype Msg = Msg(from: Id, to: Id, current: nat, config: nat, fromMaster: bool, body: Body)

  /** The whole system, with three history variables no node can see: who got each vote, the votes
      counted in each slave's attempt under way, and the elections won. */
  datatype Net = Net(nodes: map<Id, Node>, wire: multiset<Msg>, votes: map<(Id, nat), Id>,
                     tally: map<Id, set<Id>>, wins: set<(Id, nat)>)

  datatype Event =
    | Send(id: Id, to: Id, body: Body)                      // any packet but a vote request or a vote
    | Tick(id: Id, view: View, audience: set<Id>)           // clusterHandleSlaveFailover
    | Deliver(msg: Msg, eligible: bool, linked: bool, demotes: bool)
    | Lose(msg: Msg)
    | Bump(id: Id)                                          // without consensus
    | SetConfigEpoch(id: Id, epoch: nat)                    // CLUSTER SET-CONFIG-EPOCH
    | TakeOver(id: Id)                                      // CLUSTER FAILOVER TAKEOVER
    | Replicate(id: Id, master: Id)                         // turned into a slave
    | Meet(id: Id, other: Id)
    | Forget(id: Id, other: Id)

  /** clusterBuildMessageHdr: a slave announces its master's configEpoch. */
  function Header(id: Id, n: Node, to: Id, body: Body): Msg
    requires id in n.config
  {
    var whose := if !n.isMaster && n.master.Some? && n.master.value in n.config then n.master.value else id;
    Msg(id, to, n.current, n.config[whose], n.master.None?, body)
  }

  /** The epoch part of the header, for a sender this node knows. */
  function Absorb(n: Node, m: Msg): Node
    requires m.from in n.config
  {
    n.(current := Max(n.current, m.current), config := n.config[m.from := Max(n.config[m.from], m.config)])
  }

  /** clusterHandleConfigEpochCollision, with the check made before the call. */
  function Collide(id: Id, n: Node, m: Msg): Node
    requires id in n.config && m.from in n.config
  {
    if n.isMaster && m.fromMaster && Collides(n.config[id], m.config, n.config[m.from], id, m.from)
    then n.(current := n.current + 1, config := n.config[id := n.current + 1])
    else n
  }

  /** The epoch tests of clusterSendFailoverAuthIfNeeded; `eligible` stands for its other ones. */
  predicate GrantsVote(n: Node, m: Msg) {
    m.current >= n.current && n.lastVote != n.current
  }

  ghost function BumpNode(id: Id, n: Node): Node
    requires id in n.config
  {
    if MayBump(n.config[id], MaxEpoch(n.config, n.current))
    then n.(current := n.current + 1, config := n.config[id := n.current + 1])
    else n
  }

  /** clusterLoadConfig's last repair. */
  ghost function Reload(n: Node): Node {
    n.(current := MaxEpoch(n.config, n.current))
  }

  /** The packets that carry a claim to slots, and so may cost a shard its last one: a master's ping, and
      an update about some other node. */
  predicate MayDemote(m: Msg) {
    (m.body.Ping? && m.fromMaster) || (m.body.Update? && m.body.about != m.to)
  }

  ghost predicate Enabled(voters: set<Id>, s: Net, e: Event) {
    match e
    case Send(id, to, body) =>
      && id in s.nodes && to != id && id in s.nodes[id].config && !body.AuthRequest? && !body.AuthAck?
      && (body.Update? ==> body.about in s.nodes[id].config && body.reported == s.nodes[id].config[body.about])
    case Tick(id, view, audience) =>
      id in s.nodes && id !in audience && view.isMaster == s.nodes[id].isMaster && view.size == |voters|
      && id in s.nodes[id].config
    case Deliver(m, _, _, demotes) =>
      m in s.wire && m.to in s.nodes && m.to != m.from && m.to in s.nodes[m.to].config
      && (demotes ==> m.to !in voters && MayDemote(m))
    case Lose(m) => m in s.wire
    case Bump(id) => id in s.nodes && id in s.nodes[id].config
    case SetConfigEpoch(id, epoch) =>
      id in s.nodes && s.nodes[id].config.Keys == {id} && s.nodes[id].config[id] == 0
    case TakeOver(id) => id in s.nodes && id in s.nodes[id].config && !s.nodes[id].isMaster
    case Replicate(id, master) => id in s.nodes && id !in voters && id != master
    case Meet(id, other) => id in s.nodes && other !in s.nodes[id].config
    case Forget(id, other) => id in s.nodes && id != other
  }

  ghost function Request(id: Id, n: Node, audience: set<Id>): (r: multiset<Msg>)
    requires id in n.config
  {
    multiset(set to | to in audience :: Header(id, n, to, AuthRequest))
  }

  /** What a tick does to the node itself. */
  function TickNode(id: Id, n: Node, view: View): Node
    requires id in n.config
  {
    var o := HandleFailover(n.auth, n.current, view);
    var n1 := n.(auth := o.auth, current := o.currentEpoch);
    if o.action == Won
    then n1.(isMaster := true, master := None, config := n1.config[id := Max(n1.config[id], o.auth.epoch)])
    else n1
  }

  ghost function AfterTick(s: Net, id: Id, view: View, audience: set<Id>): Net
    requires id in s.nodes && id in s.nodes[id].config
  {
    var n := s.nodes[id];
    var o := HandleFailover(n.auth, n.current, view);
    var t := s.(nodes := s.nodes[id := TickNode(id, n, view)]);
    match o.action
    case Scheduled => t.(tally := s.tally[id := {}])
    case Requested => t.(wire := s.wire + Request(id, TickNode(id, n, view), audience))
    case Won => t.(wins := s.wins + {(id, o.auth.epoch)})
    case _ => t
  }

  /** Does this packet get this node's vote? */
  predicate Votes(voters: set<Id>, id: Id, n: Node, m: Msg, eligible: bool) {
    m.from in n.config && m.body.AuthRequest? && id in voters && GrantsVote(Absorb(n, m), m) && eligible
  }

  /** Is this packet a vote this node counts? */
  predicate Counts(voters: set<Id>, n: Node, m: Msg) {
    m.from in n.config && m.body.AuthAck? && m.from in voters && m.current >= n.auth.epoch
  }

  /** clusterProcessPacket, as far as roles, epochs and elections go. */
  function Receive(voters: set<Id>, id: Id, n: Node, m: Msg, eligible: bool, demotes: bool): Node
    requires id in n.config
  {
    if m.from !in n.config then n
    else
      var n1 := Absorb(n, m);
      match m.body
      case Other => n1
      case Ping => Collide(id, if demotes then n1.(isMaster := false, master := Some(m.from)) else n1, m)
      case AuthRequest => if Votes(voters, id, n, m, eligible) then n1.(lastVote := n1.current) else n1
      case AuthAck => if Counts(voters, n, m) then n1.(auth := CountVote(n1.auth, m.current)) else n1
      case Update(about, reported) =>
        if about in n1.config && n1.config[about] < reported then
          var n2 := n1.(config := n1.config[about := reported]);
          if about == id then n2.(isMaster := true, master := None)
          else if demotes then n2.(isMaster := false, master := Some(about))
          else n2
        else n1
  }

  ghost function AfterDeliver(voters: set<Id>, s: Net, m: Msg, eligible: bool, linked: bool, demotes: bool): Net
    requires m.to in s.nodes && m.to in s.nodes[m.to].config
  {
    var id, n := m.to, s.nodes[m.to];
    var n1 := Receive(voters, id, n, m, eligible, demotes);
    var t := s.(nodes := s.nodes[id := n1], wire := s.wire - multiset{m});
    if Votes(voters, id, n, m, eligible) then
      t.(votes := s.votes[(id, n1.current) := m.from],
         wire := t.wire + if linked then multiset{Header(id, n1, m.from, AuthAck)} else multiset{})
    else if Counts(voters, n, m) then
      t.(tally := s.tally[id := Tally(s, id) + {m.from}])
    else t
  }

  ghost function Tally(s: Net, id: Id): set<Id> {
    if id in s.tally then s.tally[id] else {}
  }

  ghost function Apply(voters: set<Id>, s: Net, e: Event): Net
    requires Enabled(voters, s, e)
  {
    match e
    case Send(id, to, body) => s.(wire := s.wire + multiset{Header(id, s.nodes[id], to, body)})
    case Tick(id, view, audience) => AfterTick(s, id, view, audience)
    case Deliver(m, eligible, linked, demotes) => AfterDeliver(voters, s, m, eligible, linked, demotes)
    case Lose(m) => s.(wire := s.wire - multiset{m})
    case Bump(id) => s.(nodes := s.nodes[id := BumpNode(id, s.nodes[id])])
    case SetConfigEpoch(id, epoch) =>
      var n := s.nodes[id];
      s.(nodes := s.nodes[id := n.(current := Max(n.current, epoch), config := n.config[id := epoch])])
    case TakeOver(id) =>
      s.(nodes := s.nodes[id := BumpNode(id, s.nodes[id]).(isMaster := true, master := None)])
    case Replicate(id, master) => s.(nodes := s.nodes[id := s.nodes[id].(isMaster := false, master := Some(master))])
    case Meet(id, other) => s.(nodes := s.nodes[id := s.nodes[id].(config := s.nodes[id].config[other := 0])])
    case Forget(id, other) => s.(nodes := s.nodes[id := s.nodes[id].(config := s.nodes[id].config - {other})])
  }

  /** A cluster at rest: nothing in flight, no election begun; epochs may be any a node can load. */
  ghost predicate Init(voters: set<Id>, s: Net) {
    && s.wire == multiset{} && s.votes == map[] && s.tally == map[] && s.wins == {}
    && voters <= s.nodes.Keys
    && forall id :: id in s.nodes ==>
         var n := s.nodes[id];
         && id in n.config && n.lastVote <= n.current
         && (forall k :: k in n.config ==> n.config[k] <= n.current)
         && n.auth == Auth(0, 0, 0, n.auth.sent, 0)
         && (id in voters ==> n.isMaster)
  }

  /** A run: its states, one more than its events. */
  ghost predicate IsRun(voters: set<Id>, states: seq<Net>, events: seq<Event>) {
    && |states| == |events| + 1
    && Init(voters, states[0])
    && forall i :: 0 <= i < |events| ==>
        Enabled(voters, states[i], events[i]) && states[i + 1] == Apply(voters, states[i], events[i])
  }

  // ------------------------------------------------------------------ the epoch invariant

  ghost predicate NodeEpochs(id: Id, n: Node) {
    && id in n.config && n.lastVote <= n.current && n.auth.epoch <= n.current
    && forall k :: k in n.config ==> n.config[k] <= n.current
  }

  predicate MsgEpochs(m: Msg) {
    m.config <= m.current && (m.body.Update? ==> m.body.reported <= m.current)
  }

  /** No node records, and no packet carries, an epoch above the current epoch beside it. */
  ghost predicate EpochInv(s: Net) {
    && (forall id :: id in s.nodes ==> NodeEpochs(id, s.nodes[id]))
    && (forall m :: m in s.wire ==> MsgEpochs(m))
  }

  lemma HeaderEpochs(id: Id, n: Node, to: Id, body: Body)
    requires NodeEpochs(id, n) && (body.Update? ==> body.reported <= n.current)
    ensures MsgEpochs(Header(id, n, to, body))
  {
  }

  lemma TickKeepsNode(id: Id, n: Node, view: View)
    requires NodeEpochs(id, n)
    ensures NodeEpochs(id, TickNode(id, n, view))
  {
  }

  lemma HeardKeepsNode(id: Id, n: Node, m: Msg)
    requires NodeEpochs(id, n) && MsgEpochs(m) && m.from in n.config
    ensures NodeEpochs(id, Absorb(n, m)) && m.current <= Absorb(n, m).current && m.from in Absorb(n, m).config
  {
  }

  lemma CollideKeepsNode(id: Id, n: Node, m: Msg)
    requires NodeEpochs(id, n) && m.from in n.config
    ensures NodeEpochs(id, Collide(id, n, m))
  {
  }

  lemma ReceiveKeepsNode(voters: set<Id>, id: Id, n: Node, m: Msg, eligible: bool, demotes: bool)
    requires NodeEpochs(id, n) && MsgEpochs(m)
    ensures NodeEpochs(id, Receive(voters, id, n, m, eligible, demotes))
  {
    if m.from in n.config {
      HeardKeepsNode(id, n, m);
      var n1 := Absorb(n, m);
      if m.body.Ping? {
        CollideKeepsNode(id, if demotes then n1.(isMaster := false, master := Some(m.from)) else n1, m);
      }
    }
  }

  /** One node changes and some packets join or leave the wire. */
  lemma PutKeepsEpochs(s: Net, t: Net, id: Id, n: Node)
    requires EpochInv(s) && t.nodes == s.nodes[id := n] && NodeEpochs(id, n)
    requires forall m :: m in t.wire ==> m in s.wire || MsgEpochs(m)
    ensures EpochInv(t)
  {
  }

  lemma AfterTickKeepsEpochs(s: Net, id: Id, view: View, audience: set<Id>)
    requires EpochInv(s) && id in s.nodes
    ensures EpochInv(AfterTick(s, id, view, audience))
  {
    var t, n := AfterTick(s, id, view, audience), TickNode(id, s.nodes[id], view);
    TickKeepsNode(id, s.nodes[id], view);
    forall m | m in Request(id, n, audience) ensures MsgEpochs(m) {
      var to :| to in audience && m == Header(id, n, to, AuthRequest);
      HeaderEpochs(id, n, to, AuthRequest);
    }
    PutKeepsEpochs(s, t, id, n);
  }

  lemma AfterDeliverKeepsEpochs(voters: set<Id>, s: Net, m: Msg, eligible: bool, linked: bool, demotes: bool)
    requires EpochInv(s) && m in s.wire && m.to in s.nodes
    ensures EpochInv(AfterDeliver(voters, s, m, eligible, linked, demotes))
  {
    var n := Receive(voters, m.to, s.nodes[m.to], m, eligible, demotes);
    ReceiveKeepsNode(voters, m.to, s.nodes[m.to], m, eligible, demotes);
    HeaderEpochs(m.to, n, m.from, AuthAck);
    PutKeepsEpochs(s, AfterDeliver(voters, s, m, eligible, linked, demotes), m.to, n);
  }

  /** Every event that is neither a tick nor a delivery. */
  lemma OtherKeepsEpochs(voters: set<Id>, s: Net, e: Event)
    requires EpochInv(s) && Enabled(voters, s, e) && !e.Tick? && !e.Deliver?
    ensures EpochInv(Apply(voters, s, e))
  {
    if e.Send? {
      HeaderEpochs(e.id, s.nodes[e.id], e.to, e.body);
    } else if !e.Lose? {
      var t := Apply(voters, s, e);
      PutKeepsEpochs(s, t, e.id, t.nodes[e.id]);
    }
  }

  lemma StepKeepsEpochs(voters: set<Id>, s: Net, e: Event)
    requires EpochInv(s) && Enabled(voters, s, e)
    ensures EpochInv(Apply(voters, s, e))
  {
    if e.Tick? {
      AfterTickKeepsEpochs(s, e.id, e.view, e.audience);
    } else if e.Deliver? {
      AfterDeliverKeepsEpochs(voters, s, e.msg, e.eligible, e.linked, e.demotes);
    } else {
      OtherKeepsEpochs(voters, s, e);
    }
  }

  /** In every state of every run. */
  lemma {:induction false} EpochsInEveryRun(voters: set<Id>, states: seq<Net>, events: seq<Event>, i: nat)
    requires IsRun(voters, states, events) && i < |states|
    ensures EpochInv(states[i])
  {
    if i > 0 {
      EpochsInEveryRun(voters, states, events, i - 1);
      StepKeepsEpochs(voters, states[i - 1], events[i - 1]);
    }
  }

  // ------------------------------------------------------------------ what it buys

  /** The repair made when a node loads its configuration has nothing to repair, ever. */
  lemma ReloadRepairsNothing(voters: set<Id>, states: seq<Net>, events: seq<Event>, i: nat, id: Id)
    requires IsRun(voters, states, events) && i < |states| && id in states[i].nodes
    ensures Reload(states[i].nodes[id]) == states[i].nodes[id]
  {
    EpochsInEveryRun(voters, states, events, i);
    assert NodeEpochs(id, states[i].nodes[id]);
  }

  /** A node that gives itself a new configEpoch without asking ends above everything it has on
      record; it declines only when its own epoch already is the greatest it knows. */
  lemma BumpLandsOnTop(voters: set<Id>, states: seq<Net>, events: seq<Event>, i: nat, id: Id)
    requires IsRun(voters, states, events) && i < |states| && id in states[i].nodes
    ensures id in states[i].nodes[id].config
    ensures var n, b := states[i].nodes[id], BumpNode(id, states[i].nodes[id]);
            if b == n
            then n.config[id] == n.current > 0 && forall k :: k in n.config ==> n.config[k] <= n.config[id]
            else b.config[id] == b.current == n.current + 1 && forall k :: k in n.config ==> n.config[k] < b.config[id]
  {
    EpochsInEveryRun(voters, states, events, i);
    assert NodeEpochs(id, states[i].nodes[id]);
  }

  /** So does the loser of a configEpoch collision. */
  lemma CollisionLandsOnTop(voters: set<Id>, states: seq<Net>, events: seq<Event>, i: nat, id: Id, m: Msg)
    requires IsRun(voters, states, events) && i < |states| && id in states[i].nodes
    requires m.from in states[i].nodes[id].config && id in states[i].nodes[id].config
    ensures var n, b := states[i].nodes[id], Collide(id, states[i].nodes[id], m);
            b != n ==> b.config[id] == b.current == n.current + 1 && forall k :: k in n.config ==> n.config[k] < b.config[id]
  {
    EpochsInEveryRun(voters, states, events, i);
    assert NodeEpochs(id, states[i].nodes[id]);
  }

  ghost predicate Older(a: Node, b: Node) {
    a.current <= b.current && a.lastVote <= b.lastVote
  }

  ghost predicate NodesOlder(s: Net, t: Net) {
    forall id :: id in s.nodes ==> id in t.nodes && Older(s.nodes[id], t.nodes[id])
  }

  lemma ReceiveGrows(voters: set<Id>, id: Id, n: Node, m: Msg, eligible: bool, demotes: bool)
    requires NodeEpochs(id, n)
    ensures Older(n, Receive(voters, id, n, m, eligible, demotes))
  {
  }

  lemma DeliverTouches(voters: set<Id>, s: Net, m: Msg, eligible: bool, linked: bool, demotes: bool)
    requires m.to in s.nodes && m.to in s.nodes[m.to].config
    ensures AfterDeliver(voters, s, m, eligible, linked, demotes).nodes ==
            s.nodes[m.to := Receive(voters, m.to, s.nodes[m.to], m, eligible, demotes)]
  {
  }

  lemma PutGrows(s: Net, t: Net, id: Id, n: Node)
    requires id in s.nodes && t.nodes == s.nodes[id := n] && Older(s.nodes[id], n)
    ensures NodesOlder(s, t)
  {
  }

  lemma TickGrows(s: Net, id: Id, view: View, audience: set<Id>)
    requires id in s.nodes && id in s.nodes[id].config
    ensures NodesOlder(s, AfterTick(s, id, view, audience))
  {
  }

  lemma StepGrows(voters: set<Id>, s: Net, e: Event)
    requires EpochInv(s) && Enabled(voters, s, e)
    ensures NodesOlder(s, Apply(voters, s, e))
  {
    if e.Deliver? {
      var m := e.msg;
      DeliverTouches(voters, s, m, e.eligible, e.linked, e.demotes);
      ReceiveGrows(voters, m.to, s.nodes[m.to], m, e.eligible, e.demotes);
      PutGrows(s, Apply(voters, s, e), m.to, Receive(voters, m.to, s.nodes[m.to], m, e.eligible, e.demotes));
    } else if e.Tick? {
      TickGrows(s, e.id, e.view, e.audience);
    } else if !e.Send? && !e.Lose? {
      assert Older(s.nodes[e.id], Apply(voters, s, e).nodes[e.id]);
    }
  }

  /** Along a run no node's currentEpoch or last voted epoch ever goes back. */
  lemma {:induction false} EpochsNeverGoBack(voters: set<Id>, states: seq<Net>, events: seq<Event>, i: nat, j: nat, id: Id)
    requires IsRun(voters, states, events) && i <= j < |states| && id in states[i].nodes
    ensures id in states[j].nodes && Older(states[i].nodes[id], states[j].nodes[id])
  {
    if i < j {
      EpochsNeverGoBack(voters, states, events, i, j - 1, id);
      EpochsInEveryRun(voters, states, events, j - 1);
      StepGrows(voters, states[j - 1], events[j - 1]);
    }
  }

  /** What makes an election any of a slave's business: its master has slots, and is failing or being
      failed over by hand. */
  predicate HasReason(e: Event) {
    && e.Tick? && !e.view.isMaster && e.view.hasMaster && e.view.masterHasSlots
    && (e.view.masterFailed || (e.view.manual && e.view.canStart))
  }

  lemma RequestsAreTheNodes(id: Id, n: Node, audience: set<Id>, m: Msg)
    requires id in n.config && m in Request(id, n, audience)
    ensures m.from == id
  {
    var to :| to in audience && m == Header(id, n, to, AuthRequest);
  }

  lemma TickHasReason(s: Net, id: Id, view: View, audience: set<Id>, m: Msg)
    requires id in s.nodes && id in s.nodes[id].config && m.body.AuthRequest?
    requires AfterTick(s, id, view, audience).wins != s.wins || AfterTick(s, id, view, audience).wire[m] > s.wire[m]
    ensures HasReason(Tick(id, view, audience))
    ensures AfterTick(s, id, view, audience).wire[m] > s.wire[m] ==> m.from == id
  {
    HandlerAnswers(s.nodes[id].auth, s.nodes[id].current, view);
    if AfterTick(s, id, view, audience).wire[m] > s.wire[m] {
      RequestsAreTheNodes(id, TickNode(id, s.nodes[id], view), audience, m);
    }
  }

  /** In no run does a slave ask for votes, or win, but at a call that finds a reason. */
  lemma NoElectionWithoutReason(voters: set<Id>, states: seq<Net>, events: seq<Event>, k: nat, m: Msg)
    requires IsRun(voters, states, events) && k < |events| && m.body.AuthRequest?
    ensures states[k + 1].wins != states[k].wins ==> HasReason(events[k])
    ensures states[k + 1].wire[m] > states[k].wire[m] ==> HasReason(events[k]) && events[k].id == m.from
  {
    var e := events[k];
    assert Enabled(voters, states[k], e);
    if e.Tick? && (states[k + 1].wins != states[k].wins || states[k + 1].wire[m] > states[k].wire[m]) {
      TickHasReason(states[k], e.id, e.view, e.audience, m);
    } else if e.Deliver? {
      NoRequestOnDelivery(voters, states[k], e.msg, e.eligible, e.linked, e.demotes, m);
    }
  }

  lemma NoRequestOnDelivery(voters: set<Id>, s: Net, d: Msg, eligible: bool, linked: bool, demotes: bool, m: Msg)
    requires d.to in s.nodes && d.to in s.nodes[d.to].config && m.body.AuthRequest?
    ensures var t := AfterDeliver(voters, s, d, eligible, linked, demotes); t.wins == s.wins && t.wire[m] <= s.wire[m]
  {
  }
}
