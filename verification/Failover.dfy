/** The slave's side of an election as rules: when it is scheduled, when votes are asked for, when it
    is won (clusterHandleSlaveFailover). */
module Failover {

  /** The failover_auth_* fields. */
  datatype Auth = Auth(time: int, rank: nat, count: nat, sent: bool, epoch: nat)

  /** What one call sees: the clock, the configuration, the cluster as known locally. */
  datatype View = View(now: int, nodeTimeout: nat, isMaster: bool, hasMaster: bool, masterFailed: bool,
                       masterHasSlots: bool, manual: bool, canStart: bool, dataAge: int,
                       validityFactor: nat, pingPeriod: nat, jitter: nat, rank: nat, size: nat)

  datatype Action = NotNeeded | DataTooOld | Scheduled | Waiting | Expired | Requested | Won | Collecting

  datatype Outcome = Outcome(auth: Auth, currentEpoch: nat, action: Action)

  function AuthTimeout(v: View): nat {
    if v.nodeTimeout * 2 < 2000 then 2000 else v.nodeTimeout * 2
  }

  function RetryTime(v: View): nat {
    AuthTimeout(v) * 2
  }

  function Quorum(size: nat): nat {
    size / 2 + 1
  }

  /** Neither a failing master with slots nor a manual failover: nothing to do. */
  predicate NoReason(v: View) {
    v.isMaster || !v.hasMaster || (!v.masterFailed && !(v.manual && v.canStart)) || !v.masterHasSlots
  }

  predicate TooOld(v: View) {
    && v.validityFactor != 0
    && (if v.dataAge > v.nodeTimeout then v.dataAge - v.nodeTimeout else v.dataAge)
       > v.pingPeriod * 1000 + v.nodeTimeout * v.validityFactor
    && !(v.manual && v.canStart)
  }

  /** The moment an attempt is scheduled from, before the penalty for the rank. */
  function BaseTime(v: View): int {
    if v.manual then v.now else v.now + 500 + v.jitter
  }

  function Schedule(a: Auth, v: View): Auth {
    if v.manual then a.(time := BaseTime(v), count := 0, sent := false, rank := 0)
    else a.(time := BaseTime(v) + v.rank * 1000, count := 0, sent := false, rank := v.rank)
  }

  /** A slave that turns out to be further behind waits longer; it never waits less. */
  function Rerank(a: Auth, v: View): Auth {
    if !a.sent && !v.manual && v.rank > a.rank
    then a.(time := a.time + (v.rank - a.rank) * 1000, rank := v.rank)
    else a
  }

  /** One call of clusterHandleSlaveFailover. */
  function HandleFailover(a: Auth, current: nat, v: View): Outcome {
    var age := v.now - a.time;
    if NoReason(v) then Outcome(a, current, NotNeeded)
    else if TooOld(v) then Outcome(a, current, DataTooOld)
    else if age > RetryTime(v) then Outcome(Schedule(a, v), current, Scheduled)
    else
      var b := Rerank(a, v);
      if v.now < b.time then Outcome(b, current, Waiting)
      else if age > AuthTimeout(v) then Outcome(b, current, Expired)
      else if !b.sent then Outcome(b.(sent := true, epoch := current + 1), current + 1, Requested)
      else Outcome(b, current, if b.count >= Quorum(v.size) then Won else Collecting)
  }

  /** A vote is counted iff it answers the election under way or a later epoch. */
  function CountVote(a: Auth, ackEpoch: nat): Auth {
    if ackEpoch >= a.epoch then a.(count := a.count + 1) else a
  }

  // --------------------------------------------------------------- timing over a run

  /** What can happen to a slave between two looks at the clock. */
  datatype SlaveEvent =
    | Call(view: View)       // clusterHandleSlaveFailover
    | Ack(epoch: nat)        // a vote arrives
    | NewEpoch(epoch: nat)   // any other packet or command raises currentEpoch

  /** A slave together with the history of its attempts: the base time of the one under way,
      how many were scheduled, and the epochs asked for, oldest first. */
  datatype Slave = Slave(auth: Auth, current: nat, base: int, attempts: nat, asked: seq<nat>, askedNow: nat)

  function After(s: Slave, e: SlaveEvent): Slave {
    match e
    case Ack(epoch) => s.(auth := CountVote(s.auth, epoch))
    case NewEpoch(epoch) => s.(current := if epoch > s.current then epoch else s.current)
    case Call(v) =>
      var o := HandleFailover(s.auth, s.current, v);
      var t := s.(auth := o.auth, current := o.currentEpoch);
      match o.action
      case Scheduled => t.(base := BaseTime(v), attempts := s.attempts + 1, askedNow := 0)
      case Requested => t.(asked := s.asked + [o.auth.epoch], askedNow := s.askedNow + 1)
      case _ => t
  }

  function AfterAll(s: Slave, es: seq<SlaveEvent>): Slave {
    if es == [] then s else After(AfterAll(s, es[..|es| - 1]), es[|es| - 1])
  }

  /** A freshly started server. */
  predicate Fresh(s: Slave) {
    s.auth == Auth(0, 0, 0, s.auth.sent, 0) && s.base == 0 && s.attempts == 0 && s.asked == [] && s.askedNow == 0
  }

  predicate StrictlyIncreasing(s: seq<nat>) {
    forall i, j :: 0 <= i < j < |s| ==> s[i] < s[j]
  }

  predicate TimingInv(s: Slave) {
    && (!s.auth.sent ==> s.auth.time == s.base + 1000 * s.auth.rank && s.askedNow == 0)
    && s.askedNow <= 1
    && |s.asked| <= s.attempts + 1
    && (s.askedNow == 0 ==> |s.asked| <= s.attempts)
    && s.auth.epoch <= s.current
    && StrictlyIncreasing(s.asked)
    && (forall i :: 0 <= i < |s.asked| ==> s.asked[i] <= s.auth.epoch)
  }

  lemma StepKeepsTiming(s: Slave, e: SlaveEvent)
    requires TimingInv(s)
    ensures TimingInv(After(s, e))
  {
  }

  /** Over every run: an unsent attempt is due exactly at its base time plus a second per rank,
      an attempt asks for votes at most once, and the epochs asked for only go up. */
  lemma {:induction false} ElectionTiming(s: Slave, es: seq<SlaveEvent>)
    requires Fresh(s)
    ensures TimingInv(AfterAll(s, es))
  {
    if es != [] {
      ElectionTiming(s, es[..|es| - 1]);
      StepKeepsTiming(AfterAll(s, es[..|es| - 1]), es[|es| - 1]);
    }
  }

  /** When the handler does what, for every state and every view, in plain terms. Nothing is done for
      anyone but a slave whose master has slots and is failing, or being failed over by hand; nothing
      but wait if its data is too old and nobody insists; a new attempt once the last one is past the
      retry time; votes asked for once, and the win taken, between the time due and the time-out. */
  lemma HandlerAnswers(a: Auth, current: nat, v: View)
    ensures var o := HandleFailover(a, current, v);
            var byHand := v.manual && v.canStart;
            var needed := !v.isMaster && v.hasMaster && v.masterHasSlots && (v.masterFailed || byHand);
            var age := if v.dataAge > v.nodeTimeout then v.dataAge - v.nodeTimeout else v.dataAge;
            var stale := v.validityFactor != 0 && age > v.pingPeriod * 1000 + v.nodeTimeout * v.validityFactor && !byHand;
            var timeout := if v.nodeTimeout < 1000 then 2000 else 2 * v.nodeTimeout;
            var elapsed := v.now - a.time;
            var behind := if !a.sent && !v.manual && v.rank > a.rank then v.rank - a.rank else 0;
            var going := needed && !stale && elapsed <= 2 * timeout;
            && (o.action == NotNeeded <==> !needed)
            && (o.action == DataTooOld <==> needed && stale)
            && (o.action == Scheduled <==> needed && !stale && elapsed > 2 * timeout)
            && (o.action == Waiting <==> going && elapsed < 1000 * behind)
            && (o.action == Expired <==> going && elapsed >= 1000 * behind && elapsed > timeout)
            && (o.action == Requested <==> going && 1000 * behind <= elapsed <= timeout && !a.sent)
            && (o.action == Won <==> going && 0 <= elapsed <= timeout && a.sent && 2 * a.count > v.size)
            && (o.action == Collecting <==> going && 0 <= elapsed <= timeout && a.sent && 2 * a.count <= v.size)
            && (o.action in {NotNeeded, DataTooOld} ==> o.auth == a)
            && (o.action == Scheduled ==>
                  o.auth == Auth(if v.manual then v.now else v.now + 500 + v.jitter + 1000 * v.rank,
                                 if v.manual then 0 else v.rank, 0, false, a.epoch))
            && (going ==> o.auth.time == a.time + 1000 * behind && o.auth.rank == a.rank + behind && o.auth.count == a.count)
            && (going ==> o.auth.sent == (a.sent || o.action == Requested))
            && o.auth.epoch == (if o.action == Requested then current + 1 else a.epoch)
            && o.currentEpoch == (if o.action == Requested then current + 1 else current)
  {
  }

  /** The scheduled time never moves back, whatever happens; a new attempt moves it forward by
      more than the retry time; votes are asked for inside the attempt's own window. */
  lemma ScheduleOnlyMovesForward(a: Auth, current: nat, v: View)
    ensures var o := HandleFailover(a, current, v);
            && a.time <= o.auth.time
            && (o.action == Scheduled ==> a.time + RetryTime(v) < o.auth.time)
            && (o.action == Requested ==> o.auth.time <= v.now <= a.time + AuthTimeout(v) && o.auth.epoch == current + 1)
            && (o.action == Won ==> a.sent && a.count >= Quorum(v.size) && o.auth == a)
  {
  }

  /** A slave's epochs asked for grow only at a call that finds its master with slots, and failing or
      being failed over by hand. */
  lemma AsksOnlyForGoodReason(s: Slave, e: SlaveEvent)
    ensures After(s, e).asked != s.asked ==>
              && e.Call? && !e.view.isMaster && e.view.hasMaster && e.view.masterHasSlots
              && (e.view.masterFailed || (e.view.manual && e.view.canStart))
  {
    if e.Call? {
      HandlerAnswers(s.auth, s.current, e.view);
    }
  }

  /** The same between any two moments of a run. */
  lemma {:induction false} TimeNeverMovesBack(s: Slave, es: seq<SlaveEvent>, k: nat)
    requires k <= |es|
    ensures AfterAll(s, es[..k]).auth.time <= AfterAll(s, es).auth.time
    ensures AfterAll(s, es[..k]).asked <= AfterAll(s, es).asked
  {
    if k < |es| {
      var rest := es[..|es| - 1];
      TimeNeverMovesBack(s, rest, k);
      assert rest[..k] == es[..k];
      if es[|es| - 1].Call? {
        ScheduleOnlyMovesForward(AfterAll(s, rest).auth, AfterAll(s, rest).current, es[|es| - 1].view);
      }
    } else {
      assert es[..k] == es;
    }
  }
}
