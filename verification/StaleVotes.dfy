/** The one way the election can go wrong, and what rules it out. clusterHandleSlaveFailover
    resets the vote counter when it schedules an attempt but keeps the old election epoch until
    votes are asked for, so a vote for the previous attempt that arrives in between is counted. */
module StaleVotes {
  import opened Options
  import opened EpochRules
  import opened Failover
  import opened Network
  import opened Election

  // ----------------------------------------------------- waiting long enough is sufficient

  /** An attempt is rescheduled while a request or a vote of the previous one is still in flight. */
  ghost predicate HastyReschedule(s: Net, e: Event) {
    && e.Tick? && e.id in s.nodes
    && HandleFailover(s.nodes[e.id].auth, s.nodes[e.id].current, e.view).action == Scheduled
    && exists m :: m in s.wire && BallotOf(m, e.id)
  }

  predicate BallotOf(m: Msg, id: Id) {
    (m.body.AuthRequest? && m.from == id) || (m.body.AuthAck? && m.to == id)
  }

  /** Ballots are in flight only for slaves whose attempt has asked for votes. */
  ghost predicate BallotsTimely(s: Net) {
    forall m, id :: m in s.wire && BallotOf(m, id) ==> id in s.nodes && s.nodes[id].auth.sent
  }

  lemma TickKeepsTimely(voters: set<Id>, s: Net, e: Event)
    requires BallotsTimely(s) && Enabled(voters, s, e) && e.Tick? && !HastyReschedule(s, e)
    ensures BallotsTimely(Apply(voters, s, e))
  {
    var t := Apply(voters, s, e);
    forall m, id | m in t.wire && BallotOf(m, id) ensures id in t.nodes && t.nodes[id].auth.sent {
      assert m in s.wire ==> id in s.nodes && s.nodes[id].auth.sent;
    }
  }

  /** A delivery puts at most a vote on the wire, for whoever asked for it. */
  lemma DeliverWire(voters: set<Id>, s: Net, m: Msg, eligible: bool, linked: bool, demotes: bool, b: Msg)
    requires m.to in s.nodes && m.to in s.nodes[m.to].config
    requires b in AfterDeliver(voters, s, m, eligible, linked, demotes).wire
    ensures b in s.wire || (m.body.AuthRequest? && b.body.AuthAck? && b.to == m.from)
  {
  }

  lemma SentStays(voters: set<Id>, id: Id, n: Node, m: Msg, eligible: bool, demotes: bool)
    requires id in n.config
    ensures Receive(voters, id, n, m, eligible, demotes).auth.sent == n.auth.sent
  {
  }

  lemma DeliverKeepsTimely(voters: set<Id>, s: Net, e: Event)
    requires BallotsTimely(s) && Enabled(voters, s, e) && e.Deliver?
    ensures BallotsTimely(Apply(voters, s, e)) && !EarlyAck(voters, s, e)
  {
    var t, m := Apply(voters, s, e), e.msg;
    assert m.body.AuthAck? ==> BallotOf(m, m.to);
    assert m.body.AuthRequest? ==> BallotOf(m, m.from);
    DeliverTouches(voters, s, m, e.eligible, e.linked, e.demotes);
    SentStays(voters, m.to, s.nodes[m.to], m, e.eligible, e.demotes);
    forall b, id | b in t.wire && BallotOf(b, id) ensures id in t.nodes && t.nodes[id].auth.sent {
      DeliverWire(voters, s, m, e.eligible, e.linked, e.demotes, b);
    }
  }

  lemma StepKeepsTimely(voters: set<Id>, s: Net, e: Event)
    requires BallotsTimely(s) && Enabled(voters, s, e) && !HastyReschedule(s, e)
    ensures BallotsTimely(Apply(voters, s, e)) && !EarlyAck(voters, s, e)
  {
    if e.Tick? {
      TickKeepsTimely(voters, s, e);
    } else if e.Deliver? {
      DeliverKeepsTimely(voters, s, e);
    } else {
      var t := Apply(voters, s, e);
      forall m, id | m in t.wire && BallotOf(m, id) ensures id in t.nodes && t.nodes[id].auth.sent {
        assert m in s.wire ==> id in s.nodes && s.nodes[id].auth.sent;
      }
    }
  }

  lemma {:induction false} TimelyInEveryRun(voters: set<Id>, states: seq<Net>, events: seq<Event>, i: nat)
    requires IsRun(voters, states, events) && i < |states|
    requires forall k :: 0 <= k < |events| ==> !HastyReschedule(states[k], events[k])
    ensures BallotsTimely(states[i])
  {
    if i > 0 {
      TimelyInEveryRun(voters, states, events, i - 1);
      StepKeepsTimely(voters, states[i - 1], events[i - 1]);
    }
  }

  /** Election safety under the assumption the retry wait stands for: no ballot of the previous
      attempt is in flight any more when a new one is scheduled. */
  lemma SafeIfPatient(voters: set<Id>, states: seq<Net>, events: seq<Event>, i: nat, a: Id, b: Id, epoch: nat)
    requires IsRun(voters, states, events) && i < |states|
    requires forall k :: 0 <= k < |events| ==> !HastyReschedule(states[k], events[k])
    requires (a, epoch) in states[i].wins && (b, epoch) in states[i].wins
    ensures a == b
  {
    forall k | 0 <= k < |events| ensures !EarlyAck(voters, states[k], events[k]) {
      TimelyInEveryRun(voters, states, events, k);
      StepKeepsTimely(voters, states[k], events[k]);
    }
    SafeWithoutEarlyAcks(voters, states, events, i, a, b, epoch);
  }

  // ------------------------------------------------------ and without it, two winners

  /** Three voting masters, the third one failing, with two slaves. */
  const VOTERS: set<Id> := {1, 2, 3}

  const CONFIG: map<Id, nat> := map[1 := 0, 2 := 0, 3 := 0, 4 := 0, 5 := 0]

  function Voter(current: nat, lastVote: nat): Node {
    Node(true, None, current, CONFIG, lastVote, Auth(0, 0, 0, true, 0))
  }

  function Candidate(current: nat, auth: Auth): Node {
    Node(false, Some(3), current, CONFIG, 0, auth)
  }

  function At(now: int): View {
    View(now, 1000, false, true, true, true, false, false, 0, 0, 0, 0, 0, 3)
  }

  function Ballot(from: Id, to: Id, epoch: nat, body: Body): Msg {
    Msg(from, to, epoch, 0, body == AuthAck, body)
  }

  /** The part of a state the run depends on: the last epochs masters 1 and 2 voted in, the
      slaves 4 and 5, and the wire. */
  ghost predicate Looks(s: Net, one: nat, two: nat, four: Node, five: Node, wire: multiset<Msg>) {
    && s.nodes.Keys == {1, 2, 3, 4, 5} && s.wire == wire
    && s.nodes[1] == Voter(one, one) && s.nodes[2] == Voter(two, two) && s.nodes[4] == four && s.nodes[5] == five
  }

  ghost predicate Moves(s: Net, e: Event, t: Net) {
    Enabled(VOTERS, s, e) && t == Apply(VOTERS, s, e)
  }

  ghost predicate Path(states: seq<Net>, events: seq<Event>) {
    |states| == |events| + 1 && forall i :: 0 <= i < |events| ==> Moves(states[i], events[i], states[i + 1])
  }

  lemma JoinPaths(a: seq<Net>, x: seq<Event>, b: seq<Net>, y: seq<Event>)
    requires Path(a, x) && Path(b, y) && a[|x|] == b[0]
    ensures Path(a + b[1..], x + y)
  {
    var c, z := a + b[1..], x + y;
    forall i | 0 <= i < |z| ensures Moves(c[i], z[i], c[i + 1]) {
      if i < |x| {
        assert Moves(a[i], x[i], a[i + 1]);
      } else {
        assert Moves(b[i - |x|], y[i - |x|], b[i - |x| + 1]);
      }
    }
  }

  lemma Schedules(s: Net, one: nat, two: nat, four: Node, five: Node, wire: multiset<Msg>, id: Id, current: nat,
      a: Auth, now: int)
    returns (t: Net, e: Event)
    requires Looks(s, one, two, four, five, wire) && id in {4, 5} && Candidate(current, a) == (if id == 4 then four else five)
    requires now - a.time > 4000
    ensures Moves(s, e, t) && t.wins == s.wins
    ensures var n := Candidate(current, Auth(now + 500, 0, 0, false, a.epoch));
            Looks(t, one, two, if id == 4 then n else four, if id == 5 then n else five, wire)
  {
    e := Tick(id, At(now), {});
    t := Apply(VOTERS, s, e);
  }

  lemma RequestPair(id: Id, n: Node)
    requires id in {4, 5} && n == Candidate(n.current, n.auth)
    ensures Request(id, n, {1, 2}) == multiset{Ballot(id, 1, n.current, AuthRequest), Ballot(id, 2, n.current, AuthRequest)}
  {
    var pair := set to | to in {1, 2} :: Header(id, n, to, AuthRequest);
    assert pair == {Header(id, n, 1, AuthRequest), Header(id, n, 2, AuthRequest)};
  }

  lemma AskingNode(id: Id, current: nat, a: Auth)
    requires id in {4, 5} && !a.sent && a.rank == 0
    ensures var b := a.(sent := true, epoch := current + 1);
            && HandleFailover(a, current, At(a.time)) == Outcome(b, current + 1, Requested)
            && TickNode(id, Candidate(current, a), At(a.time)) == Candidate(current + 1, b)
  {
  }

  lemma Asks(s: Net, one: nat, two: nat, four: Node, five: Node, id: Id, current: nat, a: Auth) returns (t: Net, e: Event)
    requires Looks(s, one, two, four, five, multiset{}) && id in {4, 5} && Candidate(current, a) == (if id == 4 then four else five)
    requires !a.sent && a.rank == 0
    ensures Moves(s, e, t) && t.wins == s.wins
    ensures var n := Candidate(current + 1, a.(sent := true, epoch := current + 1));
            Looks(t, one, two, if id == 4 then n else four, if id == 5 then n else five,
                  multiset{Ballot(id, 2, current + 1, AuthRequest)} + multiset{Ballot(id, 1, current + 1, AuthRequest)})
  {
    e := Tick(id, At(a.time), {1, 2});
    AskingNode(id, current, a);
    RequestPair(id, Candidate(current + 1, a.(sent := true, epoch := current + 1)));
    t := AfterTick(s, id, At(a.time), {1, 2});
  }

  lemma Grants(s: Net, one: nat, two: nat, four: Node, five: Node, rest: multiset<Msg>, v: Id, id: Id, epoch: nat)
    returns (t: Net, e: Event)
    requires v in {1, 2} && id in {4, 5} && (if v == 1 then one else two) < epoch
    requires Looks(s, one, two, four, five, rest + multiset{Ballot(id, v, epoch, AuthRequest)})
    ensures Moves(s, e, t) && t.wins == s.wins
    ensures Looks(t, if v == 1 then epoch else one, if v == 2 then epoch else two, four, five, rest + multiset{Ballot(v, id, epoch, AuthAck)})
  {
    e := Deliver(Ballot(id, v, epoch, AuthRequest), true, true, false);
    t := Apply(VOTERS, s, e);
    assert CONFIG[id := 0] == CONFIG;
  }

  lemma Counted(s: Net, one: nat, two: nat, four: Node, five: Node, rest: multiset<Msg>, v: Id, id: Id,
      current: nat, a: Auth, epoch: nat)
    returns (t: Net, e: Event)
    requires v in {1, 2} && id in {4, 5} && Candidate(current, a) == (if id == 4 then four else five) && a.epoch <= epoch <= current
    requires Looks(s, one, two, four, five, rest + multiset{Ballot(v, id, epoch, AuthAck)})
    ensures Moves(s, e, t) && t.wins == s.wins
    ensures var n := Candidate(current, a.(count := a.count + 1));
            Looks(t, one, two, if id == 4 then n else four, if id == 5 then n else five, rest)
  {
    e := Deliver(Ballot(v, id, epoch, AuthAck), false, false, false);
    t := Apply(VOTERS, s, e);
    assert CONFIG[v := 0] == CONFIG;
  }

  lemma Wins(s: Net, one: nat, two: nat, four: Node, five: Node, id: Id, current: nat, a: Auth)
      returns (t: Net, e: Event, n: Node)
    requires Looks(s, one, two, four, five, multiset{}) && id in {4, 5} && Candidate(current, a) == (if id == 4 then four else five)
    requires a.sent && a.rank == 0 && a.count == 2
    ensures Moves(s, e, t) && t.wins == s.wins + {(id, a.epoch)}
    ensures Looks(t, one, two, if id == 4 then n else four, if id == 5 then n else five, multiset{})
  {
    e := Tick(id, At(a.time), {});
    t := Apply(VOTERS, s, e);
    n := t.nodes[id];
  }

  /** An attempt that is scheduled, asks for votes, and gets both. */
  lemma Voting(s: Net, last: nat, four: Node, five: Node, id: Id, current: nat, a: Auth, now: int)
    returns (states: seq<Net>, events: seq<Event>)
    requires Looks(s, last, last, four, five, multiset{}) && id in {4, 5} && Candidate(current, a) == (if id == 4 then four else five)
    requires now - a.time > 4000 && last < current + 1
    ensures Path(states, events) && states[0] == s && states[|events|].wins == s.wins
    ensures var n := current + 1;
            var c := Candidate(n, Auth(now + 500, 0, 0, true, n));
            Looks(states[|events|], n, n, if id == 4 then c else four, if id == 5 then c else five,
                  multiset{Ballot(1, id, n, AuthAck)} + multiset{Ballot(2, id, n, AuthAck)})
  {
    var n := current + 1;
    var c0 := Candidate(current, Auth(now + 500, 0, 0, false, a.epoch));
    var c1 := Candidate(n, Auth(now + 500, 0, 0, true, n));
    var f0, g0 := if id == 4 then c0 else four, if id == 5 then c0 else five;
    var f1, g1 := if id == 4 then c1 else four, if id == 5 then c1 else five;
    var s1, e1 := Schedules(s, last, last, four, five, multiset{}, id, current, a, now);
    var s2, e2 := Asks(s1, last, last, f0, g0, id, current, c0.auth);
    var s3, e3 := Grants(s2, last, last, f1, g1, multiset{Ballot(id, 2, n, AuthRequest)}, 1, id, n);
    assert s3.wire == multiset{Ballot(1, id, n, AuthAck)} + multiset{Ballot(id, 2, n, AuthRequest)};
    var s4, e4 := Grants(s3, n, last, f1, g1, multiset{Ballot(1, id, n, AuthAck)}, 2, id, n);
    states, events := [s, s1, s2, s3, s4], [e1, e2, e3, e4];
  }

  /** Counting both votes. */
  lemma Counting(s: Net, last: nat, four: Node, five: Node, id: Id, current: nat, a: Auth, epoch: nat)
    returns (states: seq<Net>, events: seq<Event>)
    requires id in {4, 5} && Candidate(current, a) == (if id == 4 then four else five) && a.epoch <= epoch <= current && a.count == 0
    requires Looks(s, last, last, four, five, multiset{Ballot(1, id, epoch, AuthAck)} + multiset{Ballot(2, id, epoch, AuthAck)})
    ensures Path(states, events) && states[0] == s && states[|events|].wins == s.wins
    ensures var c := Candidate(current, a.(count := 2));
            Looks(states[|events|], last, last, if id == 4 then c else four, if id == 5 then c else five, multiset{})
  {
    var c := Candidate(current, a.(count := 1));
    var s1, e1 := Counted(s, last, last, four, five, multiset{Ballot(1, id, epoch, AuthAck)}, 2, id, current, a, epoch);
    assert s1.wire == multiset{} + multiset{Ballot(1, id, epoch, AuthAck)};
    var s2, e2 := Counted(s1, last, last, if id == 4 then c else four, if id == 5 then c else five, multiset{}, 1, id, current, c.auth, epoch);
    states, events := [s, s1, s2], [e1, e2];
  }

  ghost function Start(): Net {
    Net(map[1 := Voter(0, 0), 2 := Voter(0, 0), 3 := Voter(0, 0),
            4 := Candidate(0, Auth(0, 0, 0, true, 0)), 5 := Candidate(1, Auth(0, 0, 0, true, 0))],
        multiset{}, map[], map[], {})
  }

  /** Slave 4 is voted for in epoch 1, reschedules while both votes are on their way, counts them,
      and so enters epoch 2 with a quorum it was never given there. */
  lemma StaleQuorum() returns (states: seq<Net>, events: seq<Event>, four: Node)
    ensures Path(states, events) && states[0] == Start() && (4, 2) in states[|events|].wins
    ensures Looks(states[|events|], 1, 1, four, Candidate(1, Auth(0, 0, 0, true, 0)), multiset{})
  {
    var s, five := Start(), Candidate(1, Auth(0, 0, 0, true, 0));
    var xs, es := Voting(s, 0, Candidate(0, Auth(0, 0, 0, true, 0)), five, 4, 0, Auth(0, 0, 0, true, 0), 5000);
    var votes := multiset{Ballot(1, 4, 1, AuthAck)} + multiset{Ballot(2, 4, 1, AuthAck)};
    var s1, e1 := Schedules(xs[|es|], 1, 1, Candidate(1, Auth(5500, 0, 0, true, 1)), five, votes, 4, 1, Auth(5500, 0, 0, true, 1), 9501);
    var ys, fs := Counting(s1, 1, Candidate(1, Auth(10001, 0, 0, false, 1)), five, 4, 1, Auth(10001, 0, 0, false, 1), 1);
    JoinPaths(xs, es, [xs[|es|], s1], [e1]);
    JoinPaths(xs + [s1], es + [e1], ys, fs);
    states, events := xs + [s1] + ys[1..], es + [e1] + fs;
    var t := states[|events|];
    var t1, e2 := AsksLate(t, five);
    var t2, e3, n := Wins(t1, 1, 1, Candidate(2, Auth(10001, 0, 2, true, 2)), five, 4, 2, Auth(10001, 0, 2, true, 2));
    JoinPaths(states, events, [t, t1, t2], [e2, e3]);
    states, events, four := states + [t1, t2], events + [e2, e3], n;
  }

  /** Slave 4 asks for votes in epoch 2; nobody receives the request. */
  lemma AsksLate(s: Net, five: Node) returns (t: Net, e: Event)
    requires Looks(s, 1, 1, Candidate(1, Auth(10001, 0, 2, false, 1)), five, multiset{})
    ensures Moves(s, e, t) && t.wins == s.wins
    ensures Looks(t, 1, 1, Candidate(2, Auth(10001, 0, 2, true, 2)), five, multiset{})
  {
    e := Tick(4, At(10001), {});
    AskingNode(4, 1, Auth(10001, 0, 2, false, 1));
    t := AfterTick(s, 4, At(10001), {});
  }

  /** Slave 5 then goes for epoch 2 as well, and the same two masters vote for it. */
  lemma FreshQuorum(s: Net, four: Node) returns (states: seq<Net>, events: seq<Event>)
    requires Looks(s, 1, 1, four, Candidate(1, Auth(0, 0, 0, true, 0)), multiset{})
    ensures Path(states, events) && states[0] == s && states[|events|].wins == s.wins + {(5, 2)}
  {
    var a := Auth(0, 0, 0, true, 0);
    var xs, es := Voting(s, 1, four, Candidate(1, a), 5, 1, a, 5000);
    var ys, fs := Counting(xs[|es|], 2, four, Candidate(2, Auth(5500, 0, 0, true, 2)), 5, 2, Auth(5500, 0, 0, true, 2), 2);
    var t, e, n := Wins(ys[|fs|], 2, 2, four, Candidate(2, Auth(5500, 0, 2, true, 2)), 5, 2, Auth(5500, 0, 2, true, 2));
    JoinPaths(ys, fs, [ys[|fs|], t], [e]);
    JoinPaths(xs, es, ys + [t], fs + [e]);
    states, events := xs + (ys + [t])[1..], es + (fs + [e]);
  }

  /** Without that assumption two slaves can win the same election epoch: slave 4 by the stale
      votes, slave 5 by the votes the same two masters go on to give it. */
  lemma TwoWinners() returns (states: seq<Net>, events: seq<Event>)
    ensures IsRun(VOTERS, states, events) && {(4, 2), (5, 2)} <= states[|events|].wins
  {
    var four;
    states, events, four := StaleQuorum();
    var xs, es := FreshQuorum(states[|events|], four);
    JoinPaths(states, events, xs, es);
    states, events := states + xs[1..], events + es;
    assert Init(VOTERS, Start());
    PathIsRun(states, events);
  }

  lemma PathIsRun(states: seq<Net>, events: seq<Event>)
    requires Path(states, events) && Init(VOTERS, states[0])
    ensures IsRun(VOTERS, states, events)
  {
    forall i | 0 <= i < |events| ensures Enabled(VOTERS, states[i], events[i]) && states[i + 1] == Apply(VOTERS, states[i], events[i]) {
      assert Moves(states[i], events[i], states[i + 1]);
    }
  }
}
