/** configEpoch collisions between masters resolve themselves (clusterHandleConfigEpochCollision):
    however stale the packets, only so many collisions can happen, and it takes no luck to end them. */
module Collision {
  import opened Options
  import opened EpochRules
  import opened Network
  import opened Sequences

  /** The configEpoch a node holds. */
  function Own(s: Net, id: Id): nat {
    if id in s.nodes && id in s.nodes[id].config then s.nodes[id].config[id] else 0
  }

  ghost function Holdings(s: Net): (r: set<(Id, nat)>)
    ensures forall p :: p in r <==> p.0 in s.nodes && p.1 == Own(s, p.0)
  {
    set id | id in s.nodes :: (id, Own(s, id))
  }

  /** Pings travel and get lost; no other epoch changes. */
  predicate PingEvent(e: Event) {
    || (e.Send? && e.body.Ping?)
    || (e.Deliver? && e.msg.body.Ping? && !e.demotes)
    || e.Lose?
  }

  ghost predicate AllMasters(s: Net) {
    forall id :: id in s.nodes ==> s.nodes[id].isMaster && s.nodes[id].master.None?
  }

  /** Nobody has on record a greater epoch for a node than that node holds. */
  ghost predicate RecordsHonest(s: Net) {
    forall i, j :: i in s.nodes && j in s.nodes && j in s.nodes[i].config ==> s.nodes[i].config[j] <= Own(s, j)
  }

  /** Pings may be under way at the start, however stale: they announce epochs their senders have got to. */
  ghost predicate Start(s: Net) {
    && EpochInv(s) && AllMasters(s) && RecordsHonest(s)
    && forall m :: m in s.wire && m.body.Ping? ==> m.from in s.nodes && m.config <= Own(s, m.from)
  }

  /** What pings under way announce. */
  ghost function Announced(s: Net): (r: set<(Id, nat)>)
    ensures forall p :: p in r <==> exists m :: m in s.wire && m.body.Ping? && p == (m.from, m.config)
  {
    set m | m in s.wire && m.body.Ping? :: (m.from, m.config)
  }

  /** And their senders do not hold any more. */
  ghost function Late(s: Net): set<(Id, nat)> {
    Announced(s) - Holdings(s)
  }

  ghost predicate PingStep(voters: set<Id>, s: Net, e: Event, t: Net) {
    PingEvent(e) && Enabled(voters, s, e) && t == Apply(voters, s, e)
  }

  ghost predicate PingRun(voters: set<Id>, states: seq<Net>, events: seq<Event>) {
    && |states| == |events| + 1
    && Start(states[0])
    && forall i :: 0 <= i < |events| ==> PingStep(voters, states[i], events[i], states[i + 1])
  }

  /** Every (node, epoch) pair seen so far, those announced late in the first state included. */
  ghost function Held(states: seq<Net>): set<(Id, nat)>
    requires states != []
  {
    (if |states| == 1 then Late(states[0]) else Held(states[..|states| - 1])) + Holdings(states[|states| - 1])
  }

  /** The steps that changed somebody's epoch. */
  ghost function Collisions(states: seq<Net>): nat {
    var n := |states|;
    if n < 2 then 0
    else Collisions(states[..n - 1]) + if Holdings(states[n - 1]) == Holdings(states[n - 2]) then 0 else 1
  }

  /** The same for one node. */
  ghost function Moves(states: seq<Net>, id: Id): nat {
    var n := |states|;
    if n < 2 then 0
    else Moves(states[..n - 1], id) + if Own(states[n - 1], id) == Own(states[n - 2], id) then 0 else 1
  }

  // ------------------------------------------------------------- what every step keeps

  /** An epoch a node gave up was held, before, by a node with a greater name. */
  ghost predicate GivenUpFor(held: set<(Id, nat)>, p: (Id, nat)) {
    exists j :: j > p.0 && (j, p.1) in held
  }

  /** Packets announce epochs their senders have held; a node's epochs only go up. */
  ghost predicate Recorded(s: Net, held: set<(Id, nat)>, late: set<(Id, nat)>) {
    && (forall m :: m in s.wire && m.body.Ping? ==> m.from in s.nodes && (m.from, m.config) in held)
    && Holdings(s) <= held
    && (forall p :: p in held ==> p.0 in s.nodes && p.1 <= Own(s, p.0))
    && (forall p :: p in held && p !in Holdings(s) && p !in late ==> GivenUpFor(held, p))
  }

  ghost predicate Consistent(s: Net, held: set<(Id, nat)>, late: set<(Id, nat)>) {
    EpochInv(s) && AllMasters(s) && RecordsHonest(s) && Recorded(s, held, late)
  }

  /** `id` leaves its epoch for a greater one, because of a node with a greater name. */
  ghost predicate Moved(s: Net, t: Net, held: set<(Id, nat)>, id: Id) {
    && t.nodes.Keys == s.nodes.Keys && id in s.nodes && Own(t, id) > Own(s, id)
    && (forall k :: k in s.nodes && k != id ==> Own(t, k) == Own(s, k))
    && GivenUpFor(held, (id, Own(s, id)))
  }

  ghost predicate Stays(s: Net, t: Net) {
    t.nodes.Keys == s.nodes.Keys && forall k :: k in s.nodes ==> Own(t, k) == Own(s, k)
  }

  lemma SendIsQuiet(s: Net, held: set<(Id, nat)>, late: set<(Id, nat)>, id: Id, to: Id)
    requires Consistent(s, held, late) && id in s.nodes && id in s.nodes[id].config
    ensures var t := s.(wire := s.wire + multiset{Header(id, s.nodes[id], to, Ping)});
            Stays(s, t) && Consistent(t, held + Holdings(t), late)
  {
    var t := s.(wire := s.wire + multiset{Header(id, s.nodes[id], to, Ping)});
    HeaderEpochs(id, s.nodes[id], to, Ping);
    assert Holdings(t) == Holdings(s) && held + Holdings(t) == held;
    assert (id, Own(s, id)) in Holdings(s);
  }

  /** Is this ping a collision this node has to resolve? */
  predicate MustMove(id: Id, n: Node, m: Msg) {
    && id in n.config && m.from in n.config && m.fromMaster && id < m.from
    && m.config == n.config[id] && n.config[m.from] <= m.config
  }

  /** What a ping does to a master: it updates one record, and moves the node's own epoch up,
      out of the way of a greater name that announces the same. */
  lemma PingReceived(voters: set<Id>, id: Id, n: Node, m: Msg, eligible: bool)
    requires NodeEpochs(id, n) && n.isMaster && n.master.None? && m.from != id && m.body.Ping?
    ensures var r := Receive(voters, id, n, m, eligible, false);
            && r.isMaster && r.master.None? && r.config.Keys == n.config.Keys
            && (forall j :: j in n.config && j != id ==> r.config[j] == if j == m.from then Max(n.config[j], m.config) else n.config[j])
            && (if MustMove(id, n, m) then r.config[id] > n.current >= n.config[id] else r.config[id] == n.config[id])
  {
  }

  /** One node takes a ping off the wire: its own epoch changes if it must ... */
  ghost predicate PingTaken(s: Net, t: Net, m: Msg, r: Node) {
    && m in s.wire && m.to in s.nodes && m.to != m.from && m.to in s.nodes[m.to].config && m.to in r.config
    && t.nodes == s.nodes[m.to := r] && t.wire == s.wire - multiset{m}
    && (if MustMove(m.to, s.nodes[m.to], m) then r.config[m.to] > Own(s, m.to) else r.config[m.to] == Own(s, m.to))
  }

  /** ... and its record of the sender never drops. */
  ghost predicate RecordTaken(n: Node, m: Msg, r: Node) {
    && r.config.Keys == n.config.Keys
    && forall j :: j in r.config && j != m.to ==>
        r.config[j] == if j == m.from then Max(n.config[j], m.config) else n.config[j]
  }

  lemma TakenMoves(s: Net, t: Net, held: set<(Id, nat)>, m: Msg, r: Node)
    requires (m.from, m.config) in held && PingTaken(s, t, m, r)
    ensures Stays(s, t) || Moved(s, t, held, m.to)
  {
    assert forall k :: k in s.nodes && k != m.to ==> Own(t, k) == Own(s, k);
    if MustMove(m.to, s.nodes[m.to], m) {
      assert (m.from, Own(s, m.to)) in held;
    }
  }

  lemma TakenKeepsRecords(s: Net, t: Net, held: set<(Id, nat)>, late: set<(Id, nat)>, m: Msg, r: Node)
    requires Recorded(s, held, late) && RecordsHonest(s) && m.body.Ping? && PingTaken(s, t, m, r)
    requires RecordTaken(s.nodes[m.to], m, r) && (Stays(s, t) || Moved(s, t, held, m.to))
    ensures RecordsHonest(t)
  {
    assert (m.from, m.config) in held;
    forall i, j | i in t.nodes && j in t.nodes && j in t.nodes[i].config ensures t.nodes[i].config[j] <= Own(t, j) {
      assert j in s.nodes[i].config ==> s.nodes[i].config[j] <= Own(s, j) <= Own(t, j);
    }
  }

  /** The history stays consistent when epochs stay or one moves as it should. */
  lemma TakenKeepsHistory(s: Net, t: Net, held: set<(Id, nat)>, late: set<(Id, nat)>, id: Id)
    requires Recorded(s, held, late) && t.wire <= s.wire && (Stays(s, t) || Moved(s, t, held, id))
    ensures Recorded(t, held + Holdings(t), late)
  {
    var now := held + Holdings(t);
    forall p | p in now && p !in Holdings(t) && p !in late ensures GivenUpFor(now, p) {
      LeftForGood(s, t, held, late, id, p);
    }
    forall p | p in now ensures p.0 in t.nodes && p.1 <= Own(t, p.0) {
      assert p in held ==> p.1 <= Own(s, p.0);
    }
  }

  lemma LeftForGood(s: Net, t: Net, held: set<(Id, nat)>, late: set<(Id, nat)>, id: Id, p: (Id, nat))
    requires Recorded(s, held, late) && (Stays(s, t) || Moved(s, t, held, id)) && p in held && p !in Holdings(t) && p !in late
    ensures GivenUpFor(held + Holdings(t), p)
  {
    assert p in Holdings(s) ==> p == (id, Own(s, id));
    assert GivenUpFor(held, p);
    var j :| j > p.0 && (j, p.1) in held;
    assert (j, p.1) in held + Holdings(t);
  }

  lemma PingIsTaken(voters: set<Id>, s: Net, m: Msg, eligible: bool, linked: bool) returns (r: Node)
    requires EpochInv(s) && AllMasters(s) && m in s.wire && m.to in s.nodes && m.to != m.from && m.body.Ping?
    ensures var t := AfterDeliver(voters, s, m, eligible, linked, false);
            PingTaken(s, t, m, r) && RecordTaken(s.nodes[m.to], m, r) && AllMasters(t)
  {
    assert NodeEpochs(m.to, s.nodes[m.to]);
    PingReceived(voters, m.to, s.nodes[m.to], m, eligible);
    r := Receive(voters, m.to, s.nodes[m.to], m, eligible, false);
  }

  lemma DeliverIsConsistent(voters: set<Id>, s: Net, held: set<(Id, nat)>, late: set<(Id, nat)>, m: Msg, eligible: bool, linked: bool)
    requires Consistent(s, held, late) && m in s.wire && m.to in s.nodes && m.to != m.from && m.body.Ping?
    ensures m.to in s.nodes[m.to].config
    ensures var t := AfterDeliver(voters, s, m, eligible, linked, false);
            && (Stays(s, t) || Moved(s, t, held, m.to))
            && Consistent(t, held + Holdings(t), late)
  {
    assert NodeEpochs(m.to, s.nodes[m.to]);
    AfterDeliverKeepsEpochs(voters, s, m, eligible, linked, false);
    var r := PingIsTaken(voters, s, m, eligible, linked);
    var t := AfterDeliver(voters, s, m, eligible, linked, false);
    TakenMoves(s, t, held, m, r);
    TakenKeepsRecords(s, t, held, late, m, r);
    TakenKeepsHistory(s, t, held, late, m.to);
  }

  lemma StepIsConsistent(voters: set<Id>, s: Net, held: set<(Id, nat)>, late: set<(Id, nat)>, e: Event, t: Net)
    requires Consistent(s, held, late) && PingStep(voters, s, e, t)
    ensures Stays(s, t) || (e.Deliver? && Moved(s, t, held, e.msg.to))
    ensures Consistent(t, held + Holdings(t), late)
  {
    if e.Send? {
      SendIsQuiet(s, held, late, e.id, e.to);
    } else if e.Deliver? {
      DeliverIsConsistent(voters, s, held, late, e.msg, e.eligible, e.linked);
    } else {
      assert Holdings(t) == Holdings(s) && held + Holdings(t) == held;
    }
  }

  lemma StartIsConsistent(s: Net)
    requires Start(s)
    ensures Consistent(s, Held([s]), Late(s))
  {
    forall m | m in s.wire && m.body.Ping? ensures (m.from, m.config) in Held([s]) {
      assert (m.from, m.config) in Announced(s);
    }
  }

  lemma {:induction false} RunIsConsistent(voters: set<Id>, states: seq<Net>, events: seq<Event>)
    requires PingRun(voters, states, events)
    ensures Consistent(states[|events|], Held(states), Late(states[0])) && states[|events|].nodes.Keys == states[0].nodes.Keys
  {
    var n := |events|;
    if n > 0 {
      var front := states[..n];
      RunIsConsistent(voters, front, events[..n - 1]);
      StepIsConsistent(voters, states[n - 1], Held(front), Late(states[0]), events[n - 1], states[n]);
    } else {
      StartIsConsistent(states[0]);
      assert states == [states[0]];
    }
  }

  // ----------------------------------------------------------------------- counting

  /** The part of a history about some of the nodes. */
  ghost function About(held: set<(Id, nat)>, ids: set<Id>): (r: set<(Id, nat)>)
    ensures forall p :: p in r <==> p in held && p.0 in ids
  {
    set p | p in held && p.0 in ids
  }

  function Pow2(n: nat): nat {
    if n == 0 then 1 else 2 * Pow2(n - 1)
  }

  lemma {:induction false} ImageIsNoBigger(a: set<(Id, nat)>)
    ensures |set p | p in a :: p.1| <= |a|
  {
    if a != {} {
      var x :| x in a;
      ImageIsNoBigger(a - {x});
      assert (set p | p in a :: p.1) == (set p | p in a - {x} :: p.1) + {x.1};
    }
  }

  lemma {:induction false} Least(ids: set<Id>) returns (x: Id)
    requires ids != {}
    ensures x in ids && forall y :: y in ids ==> x <= y
  {
    var z :| z in ids;
    x := z;
    if ids != {z} {
      var y := Least(ids - {z});
      x := if z < y then z else y;
      assert forall w :: w in ids ==> w == z || w in ids - {z};
    }
  }

  /** One node's history: each epoch but the present one was given up for a greater name, or announced
      late in the beginning. */
  lemma OwnHistory(s: Net, held: set<(Id, nat)>, late: set<(Id, nat)>, id: Id, above: set<Id>)
    requires Recorded(s, held, late) && id in s.nodes && forall j :: j in s.nodes && j > id ==> j in above
    ensures |About(held, {id})| <= 1 + |About(late, {id})| + |About(held, above)|
  {
    var mine, theirs := About(held, {id}), About(held, above);
    var now := {(id, Own(s, id))} + About(late, {id});
    var left := mine - now;
    var past, seen := set p | p in left :: p.1, set p | p in theirs :: p.1;
    assert past <= seen by {
      forall p | p in left ensures p.1 in seen {
        assert GivenUpFor(held, p);
        var j :| j > p.0 && (j, p.1) in held;
        assert (j, p.1) in theirs;
      }
    }
    ImageIsNoBigger(theirs);
    Injective(left, id);
    SubsetSize(past, seen);
    SubsetSize(mine, now + left);
  }

  lemma {:induction false} Injective(a: set<(Id, nat)>, id: Id)
    requires forall p :: p in a ==> p.0 == id
    ensures |set p | p in a :: p.1| == |a|
  {
    if a != {} {
      var x :| x in a;
      Injective(a - {x}, id);
      assert (set p | p in a :: p.1) == (set p | p in a - {x} :: p.1) + {x.1};
    }
  }

  /** All the nodes from some name up. */
  ghost predicate UpClosed(s: Net, ids: set<Id>) {
    ids <= s.nodes.Keys && forall i, j :: i in ids && j in s.nodes && j > i ==> j in ids
  }

  lemma HistoryOfBoth(held: set<(Id, nat)>, a: set<Id>, b: set<Id>)
    requires a !! b
    ensures |About(held, a + b)| == |About(held, a)| + |About(held, b)|
  {
    assert About(held, a + b) == About(held, a) + About(held, b);
  }

  lemma WithoutLeast(s: Net, ids: set<Id>) returns (x: Id)
    requires UpClosed(s, ids) && ids != {}
    ensures x in ids && UpClosed(s, ids - {x}) && forall j :: j in s.nodes && j > x ==> j in ids - {x}
  {
    x := Least(ids);
  }

  /** The most holdings that n nodes can have had, starting from so many late announcements. */
  function Most(n: nat, late: nat): nat {
    if n == 0 then 0 else 2 * Most(n - 1, late) + 1 + late
  }

  lemma {:induction false} MostIs(n: nat, late: nat)
    ensures Most(n, late) == (Pow2(n) - 1) * (1 + late)
  {
    if n > 0 {
      MostIs(n - 1, late);
      var p, l := Pow2(n - 1), 1 + late;
      assert (2 * p - 1) * l == 2 * ((p - 1) * l) + l;
    }
  }

  lemma {:induction false} MostFromRest(n: nat)
    ensures Most(n, 0) == Pow2(n) - 1
  {
    if n > 0 {
      MostFromRest(n - 1);
    }
  }

  lemma {:induction false} FewHoldings(s: Net, held: set<(Id, nat)>, late: set<(Id, nat)>, ids: set<Id>)
    requires Recorded(s, held, late) && UpClosed(s, ids)
    ensures |About(held, ids)| <= Most(|ids|, |late|)
  {
    if ids == {} {
      assert About(held, ids) == {};
    } else {
      var x := WithoutLeast(s, ids);
      FewHoldings(s, held, late, ids - {x});
      OwnHistory(s, held, late, x, ids - {x});
      SubsetSize(About(late, {x}), late);
      HistoryOfBoth(held, ids - {x}, {x});
      assert ids == ids - {x} + {x};
    }
  }

  /** The history grows by one pair if the step was a collision, else not at all. */
  ghost predicate Grows(s: Net, t: Net, held: set<(Id, nat)>, now: set<(Id, nat)>) {
    && |now| == |held| + (if Holdings(t) == Holdings(s) then 0 else 1)
    && forall k :: k in s.nodes ==> |About(now, {k})| == |About(held, {k})| + if Own(t, k) == Own(s, k) then 0 else 1
  }

  lemma AboutOneMore(held: set<(Id, nat)>, p: (Id, nat), k: Id)
    requires p !in held
    ensures |About(held + {p}, {k})| == |About(held, {k})| + if k == p.0 then 1 else 0
  {
    assert About(held + {p}, {k}) == About(held, {k}) + if k == p.0 then {p} else {};
  }

  lemma StayingGrows(s: Net, t: Net, held: set<(Id, nat)>)
    requires Holdings(s) <= held && Stays(s, t)
    ensures Grows(s, t, held, held + Holdings(t))
  {
    assert Holdings(t) == Holdings(s) && held + Holdings(t) == held;
  }

  lemma MovingAddsOne(s: Net, t: Net, held: set<(Id, nat)>, late: set<(Id, nat)>, id: Id)
    requires Recorded(s, held, late) && Moved(s, t, held, id)
    ensures var p := (id, Own(t, id)); p !in held && held + Holdings(t) == held + {p} && Holdings(t) != Holdings(s)
  {
    assert (id, Own(t, id)) in Holdings(t);
  }

  lemma MovingGrows(s: Net, t: Net, held: set<(Id, nat)>, id: Id, p: (Id, nat))
    requires Moved(s, t, held, id) && Holdings(t) != Holdings(s) && p !in held && p.0 == id
    ensures Grows(s, t, held, held + {p})
  {
    forall k | k in s.nodes ensures |About(held + {p}, {k})| == |About(held, {k})| + if k == id then 1 else 0 {
      AboutOneMore(held, p, k);
    }
  }

  /** The history is what there was at the start and one pair a collision. */
  ghost predicate Tallied(states: seq<Net>, ids: set<Id>, late: set<(Id, nat)>)
    requires states != []
  {
    && |Held(states)| == |ids| + |late| + Collisions(states)
    && forall k :: k in ids ==> |About(Held(states), {k})| == 1 + |About(late, {k})| + Moves(states, k)
  }

  lemma TallyOneMore(states: seq<Net>, ids: set<Id>, late: set<(Id, nat)>)
    requires |states| >= 2
    requires var n := |states| - 1;
             && Tallied(states[..n], ids, late) && states[n - 1].nodes.Keys == ids
             && Grows(states[n - 1], states[n], Held(states[..n]), Held(states))
    ensures Tallied(states, ids, late)
  {
  }

  lemma StepAddsHistory(voters: set<Id>, s: Net, held: set<(Id, nat)>, late: set<(Id, nat)>, e: Event, t: Net)
    requires Consistent(s, held, late) && PingStep(voters, s, e, t)
    ensures Grows(s, t, held, held + Holdings(t))
  {
    StepIsConsistent(voters, s, held, late, e, t);
    if Stays(s, t) {
      StayingGrows(s, t, held);
    } else {
      MovingAddsOne(s, t, held, late, e.msg.to);
      MovingGrows(s, t, held, e.msg.to, (e.msg.to, Own(t, e.msg.to)));
    }
  }

  lemma LastStepAddsHistory(voters: set<Id>, states: seq<Net>, events: seq<Event>)
    requires PingRun(voters, states, events) && |events| > 0
    ensures var n := |events|;
            && PingRun(voters, states[..n], events[..n - 1])
            && states[n - 1].nodes.Keys == states[0].nodes.Keys
            && Grows(states[n - 1], states[n], Held(states[..n]), Held(states))
  {
    var n := |events|;
    var front := states[..n];
    assert PingRun(voters, front, events[..n - 1]);
    RunIsConsistent(voters, front, events[..n - 1]);
    StepAddsHistory(voters, states[n - 1], Held(front), Late(states[0]), events[n - 1], states[n]);
  }

  lemma {:induction false} HistoryCounts(voters: set<Id>, states: seq<Net>, events: seq<Event>)
    requires PingRun(voters, states, events)
    ensures Tallied(states, states[0].nodes.Keys, Late(states[0]))
  {
    if |events| == 0 {
      OneState(states[0]);
      assert states == [states[0]];
    } else {
      LastStepAddsHistory(voters, states, events);
      HistoryCounts(voters, states[..|events|], events[..|events| - 1]);
      TallyOneMore(states, states[0].nodes.Keys, Late(states[0]));
    }
  }

  lemma OneState(s: Net)
    ensures Tallied([s], s.nodes.Keys, Late(s))
  {
    HoldingsSize(s, s.nodes.Keys);
    DisjointSizes(Late(s), Holdings(s));
    forall k | k in s.nodes ensures |About(Held([s]), {k})| == 1 + |About(Late(s), {k})| {
      OneStateOneNode(s, k);
    }
  }

  lemma DisjointSizes(a: set<(Id, nat)>, b: set<(Id, nat)>)
    requires a !! b
    ensures |a + b| == |a| + |b|
  {
  }

  lemma OneStateOneNode(s: Net, k: Id)
    requires k in s.nodes
    ensures |About(Late(s) + Holdings(s), {k})| == 1 + |About(Late(s), {k})|
  {
    assert About(Late(s) + Holdings(s), {k}) == About(Late(s), {k}) + {(k, Own(s, k))};
  }

  lemma {:induction false} HoldingsSize(s: Net, ids: set<Id>)
    ensures |set id | id in ids :: (id, Own(s, id))| == |ids|
  {
    if ids != {} {
      var x :| x in ids;
      HoldingsSize(s, ids - {x});
      assert (set id | id in ids :: (id, Own(s, id))) == (set id | id in ids - {x} :: (id, Own(s, id))) + {(x, Own(s, x))};
    }
  }

  // ------------------------------------------------------------------- the main results

  /** The nodes with a greater name. */
  ghost function Above(s: Net, id: Id): set<Id> {
    set j | j in s.nodes && j > id
  }

  lemma FewMoves(s: Net, held: set<(Id, nat)>, late: set<(Id, nat)>, id: Id)
    requires Recorded(s, held, late) && id in s.nodes
    ensures |About(held, {id})| <= 1 + |About(late, {id})| + Most(|Above(s, id)|, |late|)
  {
    FewHoldings(s, held, late, Above(s, id));
    OwnHistory(s, held, late, id, Above(s, id));
  }

  lemma HistoriesAreFew(s: Net, held: set<(Id, nat)>, late: set<(Id, nat)>)
    requires Recorded(s, held, late)
    ensures |held| <= Most(|s.nodes.Keys|, |late|)
    ensures forall id :: id in s.nodes ==> |About(held, {id})| <= 1 + |About(late, {id})| + Most(|Above(s, id)|, |late|)
  {
    FewHoldings(s, held, late, s.nodes.Keys);
    assert About(held, s.nodes.Keys) == held;
    forall id | id in s.nodes ensures |About(held, {id})| <= 1 + |About(late, {id})| + Most(|Above(s, id)|, |late|) {
      FewMoves(s, held, late, id);
    }
  }

  /** In every run, whatever pings are delayed, reordered or lost, and however stale those under way at
      the start: with r greater names above it a node moves at most 2^r - 1 times (the greatest never),
      and n nodes collide at most 2^n - 1 - n times in all. Each epoch that was announced but not held
      any more when the run began may add as much again; `MostIs` spells `Most` out. */
  lemma CollisionsAreFew(voters: set<Id>, states: seq<Net>, events: seq<Event>)
    requires PingRun(voters, states, events)
    ensures var n, late := |states[0].nodes.Keys|, |Late(states[0])|; n + late + Collisions(states) <= Most(n, late)
    ensures forall id :: id in states[0].nodes ==>
        Moves(states, id) <= Most(|Above(states[0], id)|, |Late(states[0])|)
  {
    var s, held, late := states[|events|], Held(states), Late(states[0]);
    RunIsConsistent(voters, states, events);
    HistoryCounts(voters, states, events);
    HistoriesAreFew(s, held, late);
    forall id | id in states[0].nodes ensures Moves(states, id) <= Most(|Above(states[0], id)|, |late|) {
      assert Above(s, id) == Above(states[0], id);
    }
  }

  /** Nothing late: the bounds as they are known. */
  lemma CollisionsFromRest(voters: set<Id>, states: seq<Net>, events: seq<Event>)
    requires PingRun(voters, states, events) && |Late(states[0])| == 0
    ensures Collisions(states) <= Pow2(|states[0].nodes.Keys|) - 1 - |states[0].nodes.Keys|
    ensures forall id :: id in states[0].nodes ==> Moves(states, id) <= Pow2(|Above(states[0], id)|) - 1
  {
    CollisionsAreFew(voters, states, events);
    var s := states[0];
    MostFromRest(|s.nodes.Keys|);
    forall id | id in s.nodes ensures Moves(states, id) <= Pow2(|Above(s, id)|) - 1 {
      MostFromRest(|Above(s, id)|);
    }
  }

  /** All configEpochs differ. */
  ghost predicate Distinct(s: Net) {
    forall i, j :: i in s.nodes && j in s.nodes && i != j ==> Own(s, i) != Own(s, j)
  }

  ghost predicate FullyMeshed(s: Net) {
    forall i, j :: i in s.nodes && j in s.nodes ==> j in s.nodes[i].config
  }

  /** A fresh ping: `j` sends it, `i` receives it at once. */
  ghost function Exchange(voters: set<Id>, s: Net, i: Id, j: Id): (r: (Net, seq<Event>))
    requires FullyMeshed(s) && i in s.nodes && j in s.nodes && i != j
  {
    var m := Header(j, s.nodes[j], i, Ping);
    var t := s.(wire := s.wire + multiset{m});
    (AfterDeliver(voters, t, m, false, false, false), [Send(j, i, Ping), Deliver(m, false, false, false)])
  }

  /** A fresh ping is a collision exactly when the two epochs are equal and the sender's name is greater. */
  lemma FreshPing(voters: set<Id>, s: Net, i: Id, j: Id)
    requires EpochInv(s) && AllMasters(s) && RecordsHonest(s) && FullyMeshed(s) && i in s.nodes && j in s.nodes && i != j
    ensures Own(Exchange(voters, s, i, j).0, i) != Own(s, i) <==> Own(s, i) == Own(s, j) && i < j
  {
    var m := Header(j, s.nodes[j], i, Ping);
    PingReceived(voters, i, s.nodes[i], m, false);
    assert m.config == Own(s, j) && s.nodes[i].config[j] <= Own(s, j);
  }

  /** Nobody moves any more exactly when all masters' epochs are distinct. */
  lemma SettledIffDistinct(voters: set<Id>, s: Net)
    requires EpochInv(s) && AllMasters(s) && RecordsHonest(s) && FullyMeshed(s)
    ensures Distinct(s) <==>
            forall i, j :: i in s.nodes && j in s.nodes && i != j ==> Own(Exchange(voters, s, i, j).0, i) == Own(s, i)
  {
    forall i, j | i in s.nodes && j in s.nodes && i != j
      ensures Own(Exchange(voters, s, i, j).0, i) != Own(s, i) <==> Own(s, i) == Own(s, j) && i < j
    {
      FreshPing(voters, s, i, j);
    }
    if i, j :| i in s.nodes && j in s.nodes && i != j && Own(s, i) == Own(s, j) {
      assert Own(Exchange(voters, s, i, j).0, i) != Own(s, i) || Own(Exchange(voters, s, j, i).0, j) != Own(s, j);
    }
  }

  /** A run goes on by one step. */
  lemma Extend(voters: set<Id>, states: seq<Net>, events: seq<Event>, e: Event, t: Net) returns (xs: seq<Net>, es: seq<Event>)
    requires PingRun(voters, states, events) && PingStep(voters, states[|events|], e, t)
    ensures PingRun(voters, xs, es) && states <= xs && events <= es && xs[|es|] == t
    ensures Collisions(xs) == Collisions(states) + if Holdings(t) == Holdings(states[|events|]) then 0 else 1
  {
    xs, es := states + [t], events + [e];
    assert xs[..|states|] == states;
    forall i | 0 <= i < |es| ensures PingStep(voters, xs[i], es[i], xs[i + 1]) {
      assert i < |events| ==> PingStep(voters, states[i], events[i], states[i + 1]);
    }
  }

  lemma MeshKept(voters: set<Id>, s: Net, m: Msg)
    requires EpochInv(s) && AllMasters(s) && FullyMeshed(s) && m.to in s.nodes && m.from != m.to && m.body.Ping?
    ensures FullyMeshed(AfterDeliver(voters, s, m, false, false, false))
  {
    assert NodeEpochs(m.to, s.nodes[m.to]);
    PingReceived(voters, m.to, s.nodes[m.to], m, false);
  }

  lemma ExchangeIsPings(voters: set<Id>, s: Net, i: Id, j: Id) returns (mid: Net, e1: Event, e2: Event)
    requires EpochInv(s) && FullyMeshed(s) && i in s.nodes && j in s.nodes && i != j
    ensures PingStep(voters, s, e1, mid) && PingStep(voters, mid, e2, Exchange(voters, s, i, j).0)
    ensures mid == s.(wire := s.wire + multiset{Header(j, s.nodes[j], i, Ping)})
  {
    var m := Header(j, s.nodes[j], i, Ping);
    e1, e2 := Send(j, i, Ping), Deliver(m, false, false, false);
    mid := s.(wire := s.wire + multiset{m});
  }

  /** Two masters with one epoch: a ping from the greater name makes the other one move. */
  lemma ExchangeMoves(voters: set<Id>, s: Net, i: Id, j: Id)
    requires EpochInv(s) && AllMasters(s) && RecordsHonest(s) && FullyMeshed(s)
    requires i in s.nodes && j in s.nodes && i < j && Own(s, i) == Own(s, j)
    ensures Holdings(Exchange(voters, s, i, j).0) != Holdings(s) && FullyMeshed(Exchange(voters, s, i, j).0)
  {
    FreshPing(voters, s, i, j);
    var m := Header(j, s.nodes[j], i, Ping);
    var mid, t := s.(wire := s.wire + multiset{m}), Exchange(voters, s, i, j).0;
    HeaderEpochs(j, s.nodes[j], i, Ping);
    MeshKept(voters, mid, m);
    assert (i, Own(t, i)) in Holdings(t) && (i, Own(t, i)) !in Holdings(s);
  }

  lemma RunIsSane(voters: set<Id>, states: seq<Net>, events: seq<Event>)
    requires PingRun(voters, states, events)
    ensures EpochInv(states[|events|]) && AllMasters(states[|events|]) && RecordsHonest(states[|events|])
  {
    RunIsConsistent(voters, states, events);
  }

  lemma Resolve(voters: set<Id>, states: seq<Net>, events: seq<Event>) returns (xs: seq<Net>, es: seq<Event>)
    requires PingRun(voters, states, events) && FullyMeshed(states[|events|]) && !Distinct(states[|events|])
    ensures PingRun(voters, xs, es) && states <= xs && events <= es && FullyMeshed(xs[|es|])
    ensures Collisions(states) < Collisions(xs)
  {
    var s := states[|events|];
    RunIsSane(voters, states, events);
    var i, j :| i in s.nodes && j in s.nodes && i < j && Own(s, i) == Own(s, j);
    ExchangeMoves(voters, s, i, j);
    var mid, e1, e2 := ExchangeIsPings(voters, s, i, j);
    assert Holdings(mid) == Holdings(s);
    xs, es := Extend(voters, states, events, e1, mid);
    xs, es := Extend(voters, xs, es, e2, Exchange(voters, s, i, j).0);
  }

  /** From any state of any run the masters can go on to distinct epochs, with pings alone. */
  lemma {:induction false} CanSettle(voters: set<Id>, states: seq<Net>, events: seq<Event>)
      returns (xs: seq<Net>, es: seq<Event>)
    requires PingRun(voters, states, events) && FullyMeshed(states[|events|])
    ensures PingRun(voters, xs, es) && states <= xs && events <= es && Distinct(xs[|es|])
    decreases Most(|states[0].nodes.Keys|, |Late(states[0])|) - Collisions(states)
  {
    if Distinct(states[|events|]) {
      xs, es := states, events;
    } else {
      var ys, fs := Resolve(voters, states, events);
      CollisionsAreFew(voters, ys, fs);
      xs, es := CanSettle(voters, ys, fs);
    }
  }
}
