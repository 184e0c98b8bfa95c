/** No two slaves win the same election. */
module Election {
  import opened EpochRules
  import opened Failover
  import opened Network
  import opened Sequences

  /** The voters on record as having given this slave their vote in this epoch. */
  ghost function Supporters(voters: set<Id>, votes: map<(Id, nat), Id>, id: Id, epoch: nat): (r: set<Id>)
    ensures forall v :: v in r <==> v in voters && (v, epoch) in votes && votes[(v, epoch)] == id
  {
    set v | v in voters && (v, epoch) in votes && votes[(v, epoch)] == id
  }

  ghost predicate RequestOk(s: Net, m: Msg) {
    m.from in s.nodes && m.current <= s.nodes[m.from].auth.epoch
  }

  /** A vote in flight is on record, once, carries the epoch it was given in, and has not been counted. */
  ghost predicate AckOk(voters: set<Id>, s: Net, m: Msg) {
    && m.from in voters && m.to in s.nodes && s.wire[m] == 1
    && (m.from, m.current) in s.votes && s.votes[(m.from, m.current)] == m.to
    && m.current <= s.nodes[m.to].auth.epoch
    && (m.current == s.nodes[m.to].auth.epoch ==> m.from !in Tally(s, m.to))
  }

  /** A slave's counter is the number of distinct voters that chose it in the epoch it asked for. */
  ghost predicate TallyOk(voters: set<Id>, s: Net, id: Id)
    requires id in s.nodes
  {
    var n, t := s.nodes[id], Tally(s, id);
    n.auth.count == |t| && t <= Supporters(voters, s.votes, id, n.auth.epoch)
  }

  /** Votes on record are at most as recent as the voter's last one and the election their slave is in. */
  ghost predicate VotesOk(s: Net) {
    forall k :: k in s.votes ==> k.0 in s.nodes && k.1 <= s.nodes[k.0].lastVote
                                 && s.votes[k] in s.nodes && k.1 <= s.nodes[s.votes[k]].auth.epoch
  }

  /** Two packets carrying the vote of one voter in one epoch. */
  predicate SameVote(m: Msg, m': Msg) {
    m.body.AuthAck? && m'.body.AuthAck? && m.from == m'.from && m.current == m'.current
  }

  ghost predicate WireOk(voters: set<Id>, s: Net) {
    && (forall m :: m in s.wire && m.body.AuthRequest? ==> RequestOk(s, m))
    && (forall m :: m in s.wire && m.body.AuthAck? ==> AckOk(voters, s, m))
    && (forall m, m' :: m in s.wire && m' in s.wire && SameVote(m, m') ==> m == m')
  }

  ghost predicate WinsOk(voters: set<Id>, s: Net) {
    forall w :: w in s.wins ==> |Supporters(voters, s.votes, w.0, w.1)| >= Quorum(|voters|)
  }

  ghost predicate ElectionInv(voters: set<Id>, s: Net) {
    && VotesOk(s) && WireOk(voters, s) && WinsOk(voters, s)
    && forall id :: id in s.nodes ==> TallyOk(voters, s, id)
  }

  /** Votes are asked for, under a new epoch, by a slave whose counter is not zero. */
  ghost predicate CarriesVotes(s: Net, e: Event) {
    && e.Tick? && e.id in s.nodes && s.nodes[e.id].auth.count > 0
    && HandleFailover(s.nodes[e.id].auth, s.nodes[e.id].current, e.view).action == Requested
  }

  /** A vote is counted by a slave whose attempt under way has not asked for any yet. */
  ghost predicate EarlyAck(voters: set<Id>, s: Net, e: Event) {
    e.Deliver? && e.msg.to in s.nodes && Counts(voters, s.nodes[e.msg.to], e.msg) && !s.nodes[e.msg.to].auth.sent
  }

  // ------------------------------------------------------------------- preservation

  /** Nodes stay, and their epochs do not go back. */
  ghost predicate Advances(s: Net, t: Net) {
    && t.nodes.Keys == s.nodes.Keys
    && forall k :: k in s.nodes ==>
        s.nodes[k].auth.epoch <= t.nodes[k].auth.epoch && s.nodes[k].lastVote <= t.nodes[k].lastVote
  }

  /** Votes may go on record, none is struck off. */
  ghost predicate RecordGrows(s: Net, t: Net) {
    forall k :: k in s.votes ==> k in t.votes && t.votes[k] == s.votes[k]
  }

  /** A slave's count is left alone, or starts again from nothing. */
  ghost predicate SameCount(s: Net, t: Net, id: Id)
    requires id in s.nodes && id in t.nodes
  {
    var a, b := s.nodes[id].auth, t.nodes[id].auth;
    (b.count == a.count && b.epoch == a.epoch && Tally(t, id) == Tally(s, id)) || (b.count == 0 && Tally(t, id) == {})
  }

  /** Packets leave the wire, or join it without being requests or votes. */
  ghost predicate NoNewBallots(s: Net, t: Net) {
    forall m :: m in t.wire && (m.body.AuthRequest? || m.body.AuthAck?) ==> m in s.wire && t.wire[m] <= s.wire[m]
  }

  lemma AckSurvives(voters: set<Id>, s: Net, t: Net, m: Msg)
    requires AckOk(voters, s, m) && Advances(s, t) && RecordGrows(s, t) && t.wire[m] == 1
    requires m.current == s.nodes[m.to].auth.epoch == t.nodes[m.to].auth.epoch && m.from in Tally(t, m.to) ==>
               m.from in Tally(s, m.to)
    ensures AckOk(voters, t, m)
  {
  }

  lemma TallySurvives(voters: set<Id>, s: Net, t: Net, id: Id)
    requires id in s.nodes && id in t.nodes && TallyOk(voters, s, id) && SameCount(s, t, id) && RecordGrows(s, t)
    ensures TallyOk(voters, t, id)
  {
  }

  lemma WinsSurvive(voters: set<Id>, s: Net, t: Net)
    requires WinsOk(voters, s) && RecordGrows(s, t) && t.wins == s.wins
    ensures WinsOk(voters, t)
  {
    forall w | w in t.wins ensures |Supporters(voters, t.votes, w.0, w.1)| >= Quorum(|voters|) {
      SubsetSize(Supporters(voters, s.votes, w.0, w.1), Supporters(voters, t.votes, w.0, w.1));
    }
  }

  lemma WireSurvives(voters: set<Id>, s: Net, t: Net)
    requires WireOk(voters, s) && Advances(s, t) && RecordGrows(s, t) && NoNewBallots(s, t)
    requires forall k :: k in s.nodes ==> SameCount(s, t, k)
    ensures WireOk(voters, t)
  {
    forall m | m in t.wire && m.body.AuthAck? ensures AckOk(voters, t, m) {
      assert AckOk(voters, s, m);
      AckSurvives(voters, s, t, m);
    }
    forall m | m in t.wire && m.body.AuthRequest? ensures RequestOk(t, m) {
      assert RequestOk(s, m);
    }
  }

  /** Steps that neither give nor count a vote. */
  lemma QuietStep(voters: set<Id>, s: Net, t: Net)
    requires ElectionInv(voters, s) && Advances(s, t) && t.votes == s.votes && WireOk(voters, t) && WinsOk(voters, t)
    requires forall k :: k in s.nodes ==> SameCount(s, t, k)
    ensures ElectionInv(voters, t)
  {
    forall k | k in t.nodes ensures TallyOk(voters, t, k) {
      TallySurvives(voters, s, t, k);
    }
  }

  /** And change the fields of one node at most. */
  lemma OneNodeStep(voters: set<Id>, s: Net, t: Net, id: Id)
    requires ElectionInv(voters, s) && id in s.nodes && id in t.nodes && t.nodes == s.nodes[id := t.nodes[id]]
    requires s.nodes[id].auth.epoch <= t.nodes[id].auth.epoch && s.nodes[id].lastVote == t.nodes[id].lastVote
    requires SameCount(s, t, id) && forall k :: k in s.nodes && k != id ==> Tally(t, k) == Tally(s, k)
    requires t.votes == s.votes && (t.wins == s.wins || WinsOk(voters, t)) && NoNewBallots(s, t)
    ensures ElectionInv(voters, t)
  {
    WireSurvives(voters, s, t);
    QuietStep(voters, s, t);
  }

  /** A new attempt starts from nothing. */
  lemma ScheduleStep(voters: set<Id>, s: Net, id: Id, view: View, audience: set<Id>)
    requires ElectionInv(voters, s) && id in s.nodes && id in s.nodes[id].config
    requires HandleFailover(s.nodes[id].auth, s.nodes[id].current, view).action == Scheduled
    ensures ElectionInv(voters, AfterTick(s, id, view, audience))
  {
    OneNodeStep(voters, s, AfterTick(s, id, view, audience), id);
  }

  /** Nothing to do yet, or any more. */
  lemma IdleStep(voters: set<Id>, s: Net, id: Id, view: View, audience: set<Id>)
    requires ElectionInv(voters, s) && id in s.nodes && id in s.nodes[id].config
    requires HandleFailover(s.nodes[id].auth, s.nodes[id].current, view).action !in {Scheduled, Requested, Won}
    ensures ElectionInv(voters, AfterTick(s, id, view, audience))
  {
    OneNodeStep(voters, s, AfterTick(s, id, view, audience), id);
  }

  /** Requests join the wire. */
  lemma AskedWire(voters: set<Id>, s: Net, t: Net, id: Id, requests: multiset<Msg>)
    requires WireOk(voters, s) && Advances(s, t) && t.votes == s.votes && t.wire == s.wire + requests && id in t.nodes
    requires forall m :: m in requests ==> m.body.AuthRequest? && m.from == id && m.current == t.nodes[id].auth.epoch
    requires forall k :: k in s.nodes ==> SameCount(s, t, k)
    ensures WireOk(voters, t)
  {
    forall m | m in t.wire && m.body.AuthAck? ensures m in s.wire && AckOk(voters, t, m) {
      assert m !in requests;
      AckSurvives(voters, s, t, m);
    }
    forall m | m in t.wire && m.body.AuthRequest? ensures RequestOk(t, m) {
      assert m in s.wire ==> RequestOk(s, m);
    }
  }

  /** The state after votes are asked for. */
  ghost predicate VotesAsked(s: Net, t: Net, id: Id, requests: multiset<Msg>) {
    && id in s.nodes && id in t.nodes && t.nodes == s.nodes[id := t.nodes[id]]
    && t.nodes[id].auth.count == s.nodes[id].auth.count == 0
    && t.nodes[id].auth.epoch > s.nodes[id].auth.epoch && t.nodes[id].lastVote == s.nodes[id].lastVote
    && t.votes == s.votes && t.tally == s.tally && t.wins == s.wins && t.wire == s.wire + requests
    && forall m :: m in requests ==> m.body.AuthRequest? && m.from == id && m.current == t.nodes[id].auth.epoch
  }

  /** Asking from a count of zero. */
  lemma AskedKeepsElection(voters: set<Id>, s: Net, t: Net, id: Id, requests: multiset<Msg>)
    requires ElectionInv(voters, s) && VotesAsked(s, t, id, requests)
    ensures ElectionInv(voters, t)
  {
    assert TallyOk(voters, s, id);
    assert Tally(t, id) == Tally(s, id) == {};
    AskedWire(voters, s, t, id, requests);
    QuietStep(voters, s, t);
  }

  lemma RequestAsks(s: Net, id: Id, view: View, audience: set<Id>)
    requires id in s.nodes && NodeEpochs(id, s.nodes[id]) && s.nodes[id].auth.count == 0
    requires HandleFailover(s.nodes[id].auth, s.nodes[id].current, view).action == Requested
    ensures VotesAsked(s, AfterTick(s, id, view, audience), id, Request(id, TickNode(id, s.nodes[id], view), audience))
  {
  }

  /** Votes are asked for under an epoch newer than any this slave used before. */
  lemma RequestStep(voters: set<Id>, s: Net, id: Id, view: View, audience: set<Id>)
    requires EpochInv(s) && ElectionInv(voters, s) && id in s.nodes && s.nodes[id].auth.count == 0
    requires HandleFailover(s.nodes[id].auth, s.nodes[id].current, view).action == Requested
    ensures ElectionInv(voters, AfterTick(s, id, view, audience))
  {
    assert NodeEpochs(id, s.nodes[id]);
    RequestAsks(s, id, view, audience);
    AskedKeepsElection(voters, s, AfterTick(s, id, view, audience), id, Request(id, TickNode(id, s.nodes[id], view), audience));
  }

  /** A win is backed by a quorum of recorded votes. */
  lemma WinIsBacked(voters: set<Id>, s: Net, id: Id, view: View)
    requires ElectionInv(voters, s) && id in s.nodes && view.size == |voters|
    requires HandleFailover(s.nodes[id].auth, s.nodes[id].current, view).action == Won
    ensures |Supporters(voters, s.votes, id, s.nodes[id].auth.epoch)| >= Quorum(|voters|)
  {
    assert TallyOk(voters, s, id);
    SubsetSize(Tally(s, id), Supporters(voters, s.votes, id, s.nodes[id].auth.epoch));
  }

  /** The state after a win. */
  ghost predicate ElectionWon(s: Net, t: Net, id: Id) {
    && id in s.nodes && id in t.nodes && t.nodes == s.nodes[id := t.nodes[id]]
    && t.nodes[id].auth == s.nodes[id].auth && t.nodes[id].lastVote == s.nodes[id].lastVote
    && t.votes == s.votes && t.tally == s.tally && t.wire == s.wire
    && t.wins == s.wins + {(id, s.nodes[id].auth.epoch)}
  }

  lemma WonKeepsElection(voters: set<Id>, s: Net, t: Net, id: Id)
    requires ElectionInv(voters, s) && ElectionWon(s, t, id)
    requires |Supporters(voters, s.votes, id, s.nodes[id].auth.epoch)| >= Quorum(|voters|)
    ensures ElectionInv(voters, t)
  {
    assert WinsOk(voters, t);
    OneNodeStep(voters, s, t, id);
  }

  lemma WinWins(s: Net, id: Id, view: View, audience: set<Id>)
    requires id in s.nodes && id in s.nodes[id].config
    requires HandleFailover(s.nodes[id].auth, s.nodes[id].current, view).action == Won
    ensures ElectionWon(s, AfterTick(s, id, view, audience), id)
  {
  }

  lemma WinStep(voters: set<Id>, s: Net, id: Id, view: View, audience: set<Id>)
    requires ElectionInv(voters, s) && id in s.nodes && id in s.nodes[id].config && view.size == |voters|
    requires HandleFailover(s.nodes[id].auth, s.nodes[id].current, view).action == Won
    ensures ElectionInv(voters, AfterTick(s, id, view, audience))
  {
    WinIsBacked(voters, s, id, view);
    WinWins(s, id, view, audience);
    WonKeepsElection(voters, s, AfterTick(s, id, view, audience), id);
  }

  /** A vote is the voter's first in its epoch, and it is given in exactly the epoch asked for. */
  lemma VoteIsFresh(voters: set<Id>, s: Net, m: Msg, eligible: bool)
    requires EpochInv(s) && ElectionInv(voters, s) && m in s.wire && m.to in s.nodes
    requires Votes(voters, m.to, s.nodes[m.to], m, eligible)
    ensures Receive(voters, m.to, s.nodes[m.to], m, eligible, false).current == m.current
    ensures s.nodes[m.to].lastVote < m.current && (m.to, m.current) !in s.votes
    ensures m.from in s.nodes && m.current <= s.nodes[m.from].auth.epoch
  {
    assert NodeEpochs(m.to, s.nodes[m.to]) && RequestOk(s, m);
  }

  /** The state after a vote: one more entry on record, perhaps one more packet. */
  ghost predicate VoteCast(s: Net, t: Net, m: Msg, ack: Msg) {
    && m.to in s.nodes && m.to in t.nodes && t.nodes == s.nodes[m.to := t.nodes[m.to]]
    && t.nodes[m.to].auth == s.nodes[m.to].auth && t.nodes[m.to].lastVote == m.current >= s.nodes[m.to].lastVote
    && (m.to, m.current) !in s.votes && t.votes == s.votes[(m.to, m.current) := m.from]
    && t.tally == s.tally && t.wins == s.wins
    && ack.body.AuthAck? && ack.from == m.to && ack.to == m.from && ack.current == m.current
    && (t.wire == s.wire - multiset{m} || t.wire == s.wire - multiset{m} + multiset{ack})
  }

  /** The vote itself goes out, and is the only one of its voter and epoch. */
  lemma NewAck(voters: set<Id>, s: Net, t: Net, m: Msg, ack: Msg)
    requires ElectionInv(voters, s) && VoteCast(s, t, m, ack) && m.to in voters && RequestOk(s, m)
    ensures ack !in s.wire && (ack in t.wire ==> AckOk(voters, t, ack))
    ensures forall a :: a in s.wire && a.body.AuthAck? ==> !SameVote(a, ack)
  {
    forall a | a in s.wire && a.body.AuthAck? ensures !SameVote(a, ack) {
      assert AckOk(voters, s, a);
    }
    assert TallyOk(voters, s, m.from);
  }

  lemma VoteWire(voters: set<Id>, s: Net, t: Net, m: Msg, ack: Msg)
    requires WireOk(voters, s) && VoteCast(s, t, m, ack) && m.body.AuthRequest?
    requires ack !in s.wire && (ack in t.wire ==> AckOk(voters, t, ack))
    requires forall a :: a in s.wire && a.body.AuthAck? ==> !SameVote(a, ack)
    ensures WireOk(voters, t)
  {
    forall a | a in t.wire && a.body.AuthAck? ensures AckOk(voters, t, a) && (a == ack || a in s.wire) {
      if a != ack {
        AckSurvives(voters, s, t, a);
      }
    }
    forall r | r in t.wire && r.body.AuthRequest? ensures RequestOk(t, r) {
      assert RequestOk(s, r);
    }
  }

  lemma VoteRecord(voters: set<Id>, s: Net, t: Net, m: Msg, ack: Msg)
    requires ElectionInv(voters, s) && VoteCast(s, t, m, ack) && RequestOk(s, m)
    ensures VotesOk(t) && WinsOk(voters, t) && forall id :: id in t.nodes ==> TallyOk(voters, t, id)
  {
    forall k | k in t.nodes ensures TallyOk(voters, t, k) {
      TallySurvives(voters, s, t, k);
    }
    WinsSurvive(voters, s, t);
  }

  lemma VoteStep(voters: set<Id>, s: Net, m: Msg, eligible: bool, linked: bool, demotes: bool)
    requires EpochInv(s) && ElectionInv(voters, s) && m in s.wire && m.to in s.nodes && m.to != m.from
    requires Votes(voters, m.to, s.nodes[m.to], m, eligible)
    ensures ElectionInv(voters, AfterDeliver(voters, s, m, eligible, linked, demotes))
  {
    var t := AfterDeliver(voters, s, m, eligible, linked, demotes);
    VoteIsFresh(voters, s, m, eligible);
    var ack := Header(m.to, t.nodes[m.to], m.from, AuthAck);
    assert RequestOk(s, m);
    NewAck(voters, s, t, m, ack);
    VoteWire(voters, s, t, m, ack);
    VoteRecord(voters, s, t, m, ack);
  }

  /** The state after a vote is counted. */
  ghost predicate VoteCounted(s: Net, t: Net, m: Msg) {
    && m.to in s.nodes && m.to in t.nodes && t.nodes == s.nodes[m.to := t.nodes[m.to]]
    && t.nodes[m.to].auth == s.nodes[m.to].auth.(count := s.nodes[m.to].auth.count + 1)
    && t.nodes[m.to].lastVote == s.nodes[m.to].lastVote && m.current >= s.nodes[m.to].auth.epoch
    && t.votes == s.votes && t.wins == s.wins && t.wire == s.wire - multiset{m}
    && t.tally == s.tally[m.to := Tally(s, m.to) + {m.from}]
  }

  lemma CountLeavesOthers(voters: set<Id>, s: Net, t: Net, m: Msg, a: Msg)
    requires WireOk(voters, s) && VoteCounted(s, t, m) && m in s.wire && m.body.AuthAck? && a in t.wire && a.body.AuthAck?
    ensures a in s.wire && t.wire[a] == 1 && AckOk(voters, s, a)
    ensures a.current == s.nodes[a.to].auth.epoch && a.from in Tally(t, a.to) ==> a.from in Tally(s, a.to)
  {
    assert AckOk(voters, s, m) && AckOk(voters, s, a) && a != m;
    assert !SameVote(m, a);
  }

  lemma CountWire(voters: set<Id>, s: Net, t: Net, m: Msg)
    requires WireOk(voters, s) && VoteCounted(s, t, m) && m in s.wire && m.body.AuthAck?
    ensures WireOk(voters, t)
  {
    assert AckOk(voters, s, m);
    forall a | a in t.wire && a.body.AuthAck? ensures AckOk(voters, t, a) {
      CountLeavesOthers(voters, s, t, m, a);
      AckSurvives(voters, s, t, a);
    }
    forall r | r in t.wire && r.body.AuthRequest? ensures RequestOk(t, r) {
      assert RequestOk(s, r);
    }
  }

  /** The vote counted is a new one, given in the slave's own epoch: it is on record for it, and so
      the counter stays the number of those who chose it, early or not. */
  lemma CountTally(voters: set<Id>, s: Net, t: Net, m: Msg)
    requires VoteCounted(s, t, m) && AckOk(voters, s, m) && TallyOk(voters, s, m.to)
    ensures TallyOk(voters, t, m.to)
  {
    assert m.from !in Tally(s, m.to) && m.current == s.nodes[m.to].auth.epoch;
    assert Tally(t, m.to) == Tally(s, m.to) + {m.from};
  }

  lemma CountedKeepsElection(voters: set<Id>, s: Net, t: Net, m: Msg)
    requires ElectionInv(voters, s) && VoteCounted(s, t, m) && m in s.wire && m.body.AuthAck?
    ensures ElectionInv(voters, t)
  {
    CountWire(voters, s, t, m);
    assert AckOk(voters, s, m);
    forall k | k in t.nodes ensures TallyOk(voters, t, k) {
      if k == m.to {
        CountTally(voters, s, t, m);
      } else {
        TallySurvives(voters, s, t, k);
      }
    }
  }

  lemma CountCounts(voters: set<Id>, s: Net, m: Msg, eligible: bool, linked: bool, demotes: bool)
    requires m.to in s.nodes && m.to in s.nodes[m.to].config && Counts(voters, s.nodes[m.to], m)
    ensures VoteCounted(s, AfterDeliver(voters, s, m, eligible, linked, demotes), m)
  {
  }

  lemma CountStep(voters: set<Id>, s: Net, m: Msg, eligible: bool, linked: bool, demotes: bool)
    requires EpochInv(s) && ElectionInv(voters, s) && m in s.wire && m.to in s.nodes && m.to != m.from
    requires Counts(voters, s.nodes[m.to], m)
    ensures ElectionInv(voters, AfterDeliver(voters, s, m, eligible, linked, demotes))
  {
    assert NodeEpochs(m.to, s.nodes[m.to]);
    CountCounts(voters, s, m, eligible, linked, demotes);
    CountedKeepsElection(voters, s, AfterDeliver(voters, s, m, eligible, linked, demotes), m);
  }

  /** Any other packet leaves the election fields alone. */
  lemma OtherReceived(voters: set<Id>, id: Id, n: Node, m: Msg, eligible: bool, demotes: bool)
    requires id in n.config && !Votes(voters, id, n, m, eligible) && !Counts(voters, n, m)
    ensures var r := Receive(voters, id, n, m, eligible, demotes); r.auth == n.auth && r.lastVote == n.lastVote
  {
  }

  lemma OtherDelivery(voters: set<Id>, s: Net, m: Msg, eligible: bool, linked: bool, demotes: bool)
    requires ElectionInv(voters, s) && m in s.wire && m.to in s.nodes && m.to in s.nodes[m.to].config
    requires !Votes(voters, m.to, s.nodes[m.to], m, eligible) && !Counts(voters, s.nodes[m.to], m)
    ensures ElectionInv(voters, AfterDeliver(voters, s, m, eligible, linked, demotes))
  {
    OtherReceived(voters, m.to, s.nodes[m.to], m, eligible, demotes);
    OneNodeStep(voters, s, AfterDeliver(voters, s, m, eligible, linked, demotes), m.to);
  }

  // ------------------------------------------------------------------ the main results

  lemma TickStep(voters: set<Id>, s: Net, e: Event)
    requires EpochInv(s) && ElectionInv(voters, s) && Enabled(voters, s, e) && e.Tick? && !CarriesVotes(s, e)
    ensures ElectionInv(voters, Apply(voters, s, e))
  {
    var n := s.nodes[e.id];
    match HandleFailover(n.auth, n.current, e.view).action
    case Scheduled => ScheduleStep(voters, s, e.id, e.view, e.audience);
    case Requested => RequestStep(voters, s, e.id, e.view, e.audience);
    case Won => WinStep(voters, s, e.id, e.view, e.audience);
    case _ => IdleStep(voters, s, e.id, e.view, e.audience);
  }

  lemma DeliverStep(voters: set<Id>, s: Net, e: Event)
    requires EpochInv(s) && ElectionInv(voters, s) && Enabled(voters, s, e) && e.Deliver?
    ensures ElectionInv(voters, Apply(voters, s, e))
  {
    var m, n := e.msg, s.nodes[e.msg.to];
    if Votes(voters, m.to, n, m, e.eligible) {
      VoteStep(voters, s, m, e.eligible, e.linked, e.demotes);
    } else if Counts(voters, n, m) {
      CountStep(voters, s, m, e.eligible, e.linked, e.demotes);
    } else {
      OtherDelivery(voters, s, m, e.eligible, e.linked, e.demotes);
    }
  }

  /** What the other events do to the election fields: nothing. */
  lemma OtherTouches(voters: set<Id>, s: Net, e: Event)
    requires Enabled(voters, s, e) && !e.Tick? && !e.Deliver? && !e.Lose?
    ensures var t := Apply(voters, s, e);
            && t.votes == s.votes && t.tally == s.tally && t.wins == s.wins && NoNewBallots(s, t)
            && e.id in s.nodes && e.id in t.nodes && t.nodes == s.nodes[e.id := t.nodes[e.id]]
            && t.nodes[e.id].auth == s.nodes[e.id].auth && t.nodes[e.id].lastVote == s.nodes[e.id].lastVote
  {
  }

  /** The other events leave elections alone. */
  lemma OtherStep(voters: set<Id>, s: Net, e: Event)
    requires ElectionInv(voters, s) && Enabled(voters, s, e) && !e.Tick? && !e.Deliver?
    ensures ElectionInv(voters, Apply(voters, s, e))
  {
    var t := Apply(voters, s, e);
    if e.Lose? {
      WireSurvives(voters, s, t);
      QuietStep(voters, s, t);
    } else {
      OtherTouches(voters, s, e);
      OneNodeStep(voters, s, t, e.id);
    }
  }

  lemma StepKeepsElection(voters: set<Id>, s: Net, e: Event)
    requires EpochInv(s) && ElectionInv(voters, s) && Enabled(voters, s, e) && !CarriesVotes(s, e)
    ensures ElectionInv(voters, Apply(voters, s, e))
  {
    if e.Tick? {
      TickStep(voters, s, e);
    } else if e.Deliver? {
      DeliverStep(voters, s, e);
    } else {
      OtherStep(voters, s, e);
    }
  }

  /** Asking for votes leaves the count, and what it counts, alone; the epoch is a new one. */
  lemma AskingRenewsEpoch(s: Net, id: Id, view: View, audience: set<Id>)
    requires id in s.nodes && NodeEpochs(id, s.nodes[id])
    requires HandleFailover(s.nodes[id].auth, s.nodes[id].current, view).action == Requested
    ensures var t := AfterTick(s, id, view, audience);
            && id in t.nodes && t.nodes[id].auth.epoch > s.nodes[id].auth.epoch
            && Tally(t, id) == Tally(s, id) && t.votes == s.votes
  {
  }

  lemma NobodyVotedYet(voters: set<Id>, s: Net, id: Id, epoch: nat)
    requires VotesOk(s) && id in s.nodes && epoch > s.nodes[id].auth.epoch
    ensures Supporters(voters, s.votes, id, epoch) == {}
  {
  }

  /** Votes carried into a new election are votes nobody gave in it: they were given before the slave
      had that epoch, and a slave's epochs are never used twice. */
  lemma CarriedVotesBreak(voters: set<Id>, s: Net, e: Event)
    requires EpochInv(s) && ElectionInv(voters, s) && Enabled(voters, s, e) && CarriesVotes(s, e)
    ensures !TallyOk(voters, Apply(voters, s, e), e.id)
  {
    var t := Apply(voters, s, e);
    assert TallyOk(voters, s, e.id) && NodeEpochs(e.id, s.nodes[e.id]);
    AskingRenewsEpoch(s, e.id, e.view, e.audience);
    NobodyVotedYet(voters, s, e.id, t.nodes[e.id].auth.epoch);
    assert |Tally(t, e.id)| > 0;
  }

  lemma CarriedInRunBreaks(voters: set<Id>, states: seq<Net>, events: seq<Event>, k: nat)
    requires IsRun(voters, states, events) && k < |events| && CarriesVotes(states[k], events[k])
    ensures !ElectionInv(voters, states[k]) || !ElectionInv(voters, states[k + 1])
  {
    if ElectionInv(voters, states[k]) {
      EpochsInEveryRun(voters, states, events, k);
      CarriedVotesBreak(voters, states[k], events[k]);
      assert events[k].id in states[k + 1].nodes;
    }
  }

  /** Exactly then: counters stay backed by votes all along a run iff votes are never asked for with
      a counter that is not zero. */
  lemma BackedIffNoneCarried(voters: set<Id>, states: seq<Net>, events: seq<Event>)
    requires IsRun(voters, states, events)
    ensures (forall i :: 0 <= i < |states| ==> ElectionInv(voters, states[i])) <==>
            (forall k :: 0 <= k < |events| ==> !CarriesVotes(states[k], events[k]))
  {
    if k :| 0 <= k < |events| && CarriesVotes(states[k], events[k]) {
      CarriedInRunBreaks(voters, states, events, k);
    } else {
      forall i | 0 <= i < |states| ensures ElectionInv(voters, states[i]) {
        ElectionInEveryRun(voters, states, events, i);
      }
    }
  }

  lemma {:induction false} ElectionInEveryRun(voters: set<Id>, states: seq<Net>, events: seq<Event>, i: nat)
    requires IsRun(voters, states, events) && i < |states|
    requires forall k :: 0 <= k < |events| ==> !CarriesVotes(states[k], events[k])
    ensures ElectionInv(voters, states[i])
  {
    if i == 0 {
      assert Init(voters, states[0]);
    } else {
      ElectionInEveryRun(voters, states, events, i - 1);
      EpochsInEveryRun(voters, states, events, i - 1);
      StepKeepsElection(voters, states[i - 1], events[i - 1]);
    }
  }

  /** Two quorums of one set of voters share a voter, who votes once per epoch. */
  lemma QuorumsIntersect(voters: set<Id>, votes: map<(Id, nat), Id>, a: Id, b: Id, epoch: nat)
    requires |Supporters(voters, votes, a, epoch)| >= Quorum(|voters|)
    requires |Supporters(voters, votes, b, epoch)| >= Quorum(|voters|)
    ensures a == b
  {
    var x, y := Supporters(voters, votes, a, epoch), Supporters(voters, votes, b, epoch);
    SubsetSize(x + y, voters);
    assert a != b ==> x !! y;
    assert x !! y ==> |x + y| == |x| + |y|;
  }

  /** Election safety: over any run, however packets are delayed, lost or reordered, no election
      epoch is won by two different slaves, provided no slave asks for votes while its counter is
      not zero. */
  lemma ElectionSafety(voters: set<Id>, states: seq<Net>, events: seq<Event>, i: nat, a: Id, b: Id, epoch: nat)
    requires IsRun(voters, states, events) && i < |states|
    requires forall k :: 0 <= k < |events| ==> !CarriesVotes(states[k], events[k])
    requires (a, epoch) in states[i].wins && (b, epoch) in states[i].wins
    ensures a == b
  {
    ElectionInEveryRun(voters, states, events, i);
    QuorumsIntersect(voters, states[i].votes, a, b, epoch);
  }

  /** Nothing is counted before votes are asked for. */
  ghost predicate NothingEarly(s: Net) {
    forall id :: id in s.nodes && !s.nodes[id].auth.sent ==> s.nodes[id].auth.count == 0
  }

  lemma TickKeepsNothingEarly(s: Net, id: Id, view: View, audience: set<Id>)
    requires NothingEarly(s) && id in s.nodes && id in s.nodes[id].config
    ensures NothingEarly(AfterTick(s, id, view, audience))
    ensures HandleFailover(s.nodes[id].auth, s.nodes[id].current, view).action == Requested ==> s.nodes[id].auth.count == 0
  {
  }

  lemma DeliverKeepsNothingEarly(voters: set<Id>, s: Net, m: Msg, eligible: bool, linked: bool, demotes: bool)
    requires NothingEarly(s) && m.to in s.nodes && m.to in s.nodes[m.to].config
    requires Counts(voters, s.nodes[m.to], m) ==> s.nodes[m.to].auth.sent
    ensures NothingEarly(AfterDeliver(voters, s, m, eligible, linked, demotes))
  {
    DeliverTouches(voters, s, m, eligible, linked, demotes);
    if !Counts(voters, s.nodes[m.to], m) {
      NotCounted(voters, m.to, s.nodes[m.to], m, eligible, demotes);
    }
  }

  lemma NotCounted(voters: set<Id>, id: Id, n: Node, m: Msg, eligible: bool, demotes: bool)
    requires id in n.config && !Counts(voters, n, m)
    ensures Receive(voters, id, n, m, eligible, demotes).auth == n.auth
  {
  }

  lemma StepKeepsNothingEarly(voters: set<Id>, s: Net, e: Event)
    requires NothingEarly(s) && Enabled(voters, s, e) && !EarlyAck(voters, s, e)
    ensures NothingEarly(Apply(voters, s, e)) && !CarriesVotes(s, e)
  {
    if e.Tick? {
      TickKeepsNothingEarly(s, e.id, e.view, e.audience);
    } else if e.Deliver? {
      DeliverKeepsNothingEarly(voters, s, e.msg, e.eligible, e.linked, e.demotes);
    }
  }

  /** A run in which no vote is counted before its attempt has asked for any carries none over; the
      converse fails, since one more rescheduling wipes an early vote out. */
  lemma {:induction false} NoEarlyAckCarriesNone(voters: set<Id>, states: seq<Net>, events: seq<Event>, i: nat)
    requires IsRun(voters, states, events) && i < |states|
    requires forall k :: 0 <= k < |events| ==> !EarlyAck(voters, states[k], events[k])
    ensures NothingEarly(states[i]) && (i < |events| ==> !CarriesVotes(states[i], events[i]))
  {
    if i > 0 {
      NoEarlyAckCarriesNone(voters, states, events, i - 1);
      StepKeepsNothingEarly(voters, states[i - 1], events[i - 1]);
    }
    if i < |events| {
      StepKeepsNothingEarly(voters, states[i], events[i]);
    }
  }

  /** So it is safe as well. */
  lemma SafeWithoutEarlyAcks(voters: set<Id>, states: seq<Net>, events: seq<Event>, i: nat, a: Id, b: Id, epoch: nat)
    requires IsRun(voters, states, events) && i < |states|
    requires forall k :: 0 <= k < |events| ==> !EarlyAck(voters, states[k], events[k])
    requires (a, epoch) in states[i].wins && (b, epoch) in states[i].wins
    ensures a == b
  {
    forall k | 0 <= k < |events| ensures !CarriesVotes(states[k], events[k]) {
      NoEarlyAckCarriesNone(voters, states, events, k);
    }
    ElectionSafety(voters, states, events, i, a, b, epoch);
  }
}
