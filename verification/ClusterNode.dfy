/** The record a node keeps about each member of the cluster (struct clusterNode). */
module ClusterNodes {
  import opened Bitmap
  import opened Sequences

  datatype FailReport = FailReport(node: ClusterNode, time: int)

  class ClusterNode {
    const name: nat            // node ID; the order of IDs is the order of names
    const bitmap: array<bv8>   // slots served, one bit each
    var configEpoch: nat
    var numslots: nat
    var master: bool           // CLUSTER_NODE_MASTER
    var slave: bool            // CLUSTER_NODE_SLAVE
    var pfail: bool            // CLUSTER_NODE_PFAIL
    var fail: bool             // CLUSTER_NODE_FAIL
    var slaveof: ClusterNode?
    var slaves: seq<ClusterNode>
    var failReports: seq<FailReport>
    var votedTime: int         // when we last voted for one of its slaves

    /** createClusterNode: everything zero, no slots, no reports. */
    constructor (name: nat, slotBytes: nat)
      ensures this.name == name && fresh(bitmap) && bitmap.Length == slotBytes && Bits() == {}
      ensures configEpoch == 0 && numslots == 0 && slaves == [] && failReports == [] && slaveof == null
      ensures !master && !slave && !pfail && !fail
    {
      this.name := name;
      bitmap := new bv8[slotBytes](_ => 0);
      configEpoch, numslots, slaveof, slaves, failReports, votedTime := 0, 0, null, [], [], 0;
      master, slave, pfail, fail := false, false, false, false;
    }

    ghost function Bits(): set<nat>
      reads bitmap
    {
      Members(bitmap[..])
    }

    // ------------------------------------------------------------ slot bits

    method SetSlotBit(slot: nat) returns (was: bool)
      requires slot < 8 * bitmap.Length
      modifies `numslots, bitmap
      ensures was <==> slot in old(Bits())
      ensures Bits() == old(Bits()) + {slot}
      ensures numslots == old(numslots) + if was then 0 else 1
    {
      was := TestBit(bitmap, slot);
      SetBit(bitmap, slot);
      if !was {
        numslots := numslots + 1;
      }
    }

    method ClearSlotBit(slot: nat) returns (was: bool)
      requires slot < 8 * bitmap.Length && (slot in Bits() ==> numslots > 0)
      modifies `numslots, bitmap
      ensures was <==> slot in old(Bits())
      ensures Bits() == old(Bits()) - {slot}
      ensures numslots == old(numslots) - if was then 1 else 0
    {
      was := TestBit(bitmap, slot);
      ClearBit(bitmap, slot);
      if was {
        numslots := numslots - 1;
      }
    }

    // ---------------------------------------------------------------- slaves

    method RemoveSlave(s: ClusterNode) returns (ok: bool)
      modifies `slaves
      ensures ok <==> s in old(slaves)
      ensures slaves == Without(old(slaves), s)
    {
      var j := 0;
      while j < |slaves|
        invariant 0 <= j <= |slaves| && slaves == old(slaves) && s !in slaves[..j]
      {
        if slaves[j] == s {
          assert IndexOf(slaves, s) == j;
          slaves := slaves[..j] + slaves[j + 1..];
          return true;
        }
        j := j + 1;
      }
      return false;
    }

    method AddSlave(s: ClusterNode) returns (ok: bool)
      modifies `slaves
      ensures ok <==> s !in old(slaves)
      ensures slaves == if ok then old(slaves) + [s] else old(slaves)
    {
      var j := 0;
      while j < |slaves|
        invariant 0 <= j <= |slaves| && slaves == old(slaves) && s !in slaves[..j]
      {
        if slaves[j] == s {
          return false;
        }
        j := j + 1;
      }
      slaves := slaves + [s];
      return true;
    }

    // ------------------------------------------------------- failure reports

    /** The list keeps at most one report per sender. */
    ghost predicate ReportsOk()
      reads this
    {
      OnePerSender(failReports)
    }

    method AddFailureReport(sender: ClusterNode, now: int) returns (isNew: bool)
      requires ReportsOk()
      modifies `failReports
      ensures ReportsOk()
      ensures isNew <==> sender !in old(Reported(failReports))
      ensures Reported(failReports) == old(Reported(failReports))[sender := now]
    {
      var i := 0;
      ghost var reports := failReports;
      while i < |failReports|
        invariant 0 <= i <= |failReports| && failReports == reports
        invariant sender !in Reported(reports[..i])
      {
        if failReports[i].node == sender {
          RefreshReport(reports, i, now);
          failReports := failReports[i := FailReport(sender, now)];
          return false;
        }
        SplitAt(reports, i);
        i := i + 1;
      }
      assert reports[..i] == reports;
      AppendReport(reports, sender, now);
      failReports := failReports + [FailReport(sender, now)];
      return true;
    }

    method CleanupFailureReports(now: int, maxtime: int)
      requires ReportsOk()
      modifies `failReports
      ensures ReportsOk()
      ensures Reported(failReports) == Unexpired(old(Reported(failReports)), now, maxtime)
    {
      var i := 0;
      ghost var reports := failReports;
      while i < |failReports|
        invariant 0 <= i <= |failReports|
        invariant failReports[..i] + Kept(failReports[i..], now, maxtime) == Kept(reports, now, maxtime)
        decreases |failReports| - i
      {
        assert failReports[i..][1..] == failReports[i + 1..];
        if now - failReports[i].time > maxtime {
          ghost var rest := failReports[i + 1..];
          failReports := failReports[..i] + failReports[i + 1..];
          assert failReports[i..] == rest;
        } else {
          i := i + 1;
        }
      }
      assert failReports[..i] == failReports == Kept(reports, now, maxtime);
      KeptIsUnexpired(reports, now, maxtime);
    }

    method DelFailureReport(sender: ClusterNode, now: int, maxtime: int) returns (found: bool)
      requires ReportsOk()
      modifies `failReports
      ensures ReportsOk()
      ensures found <==> sender in old(Reported(failReports))
      ensures found ==> Reported(failReports) == Unexpired(old(Reported(failReports)) - {sender}, now, maxtime)
      ensures !found ==> failReports == old(failReports)
    {
      var i := 0;
      ghost var reports := failReports;
      while i < |failReports| && failReports[i].node != sender
        invariant 0 <= i <= |failReports| && failReports == reports
        invariant sender !in Reported(reports[..i])
      {
        SplitAt(reports, i);
        i := i + 1;
      }
      if i == |failReports| {
        assert reports[..i] == reports;
        return false;
      }
      DropReport(reports, i);
      failReports := failReports[..i] + failReports[i + 1..];
      CleanupFailureReports(now, maxtime);
      return true;
    }

    /** How many nodes other than this one hold it to be failing, right now. */
    method FailureReportsCount(now: int, maxtime: int) returns (count: nat)
      requires ReportsOk()
      modifies `failReports
      ensures ReportsOk()
      ensures Reported(failReports) == Unexpired(old(Reported(failReports)), now, maxtime)
      ensures count == |Unexpired(old(Reported(failReports)), now, maxtime)|
    {
      CleanupFailureReports(now, maxtime);
      ReportedSize(failReports);
      count := |failReports|;
    }
  }

  // ------------------------------------- what a report list means: a finite map

  /** The time each sender last reported. */
  ghost function Reported(reports: seq<FailReport>): map<ClusterNode, int> {
    if reports == [] then map[] else Reported(reports[1..])[reports[0].node := reports[0].time]
  }

  ghost predicate OnePerSender(reports: seq<FailReport>) {
    reports != [] ==> reports[0].node !in Reported(reports[1..]) && OnePerSender(reports[1..])
  }

  /** What is left of a map of report times once the expired ones are dropped. */
  ghost function Unexpired(reported: map<ClusterNode, int>, now: int, maxtime: int): map<ClusterNode, int> {
    map n | n in reported && now - reported[n] <= maxtime :: reported[n]
  }

  function Kept(reports: seq<FailReport>, now: int, maxtime: int): seq<FailReport> {
    if reports == [] then []
    else if now - reports[0].time > maxtime then Kept(reports[1..], now, maxtime)
    else [reports[0]] + Kept(reports[1..], now, maxtime)
  }

  /** The meaning of a list in two parts. */
  lemma {:induction false} Join(a: seq<FailReport>, b: seq<FailReport>)
    ensures Reported(a + b) == Reported(b) + Reported(a)
    ensures OnePerSender(a + b) <==> OnePerSender(a) && OnePerSender(b) && Reported(a).Keys !! Reported(b).Keys
  {
    if a == [] {
      assert a + b == b;
    } else {
      assert (a + b)[1..] == a[1..] + b;
      Join(a[1..], b);
    }
  }

  lemma SplitAt(reports: seq<FailReport>, i: nat)
    requires i < |reports|
    ensures var a, r, b := reports[..i], reports[i], reports[i + 1..];
            && Reported(reports[..i + 1]) == Reported(a)[r.node := r.time] + Reported(a)
            && Reported(reports) == Reported(b)[r.node := r.time] + Reported(a)
            && (OnePerSender(reports) <==>
                OnePerSender(a) && OnePerSender(b) && Reported(a).Keys !! Reported(b).Keys
                && r.node !in Reported(a) && r.node !in Reported(b))
  {
    var a, r, b := reports[..i], reports[i], reports[i + 1..];
    Join([r], b);
    Join(a, [r] + b);
    Join(a, [r]);
    assert reports == a + ([r] + b) && reports[..i + 1] == a + [r];
    assert ([r] + b)[1..] == b;
    assert Reported([r]).Keys == {r.node};
  }

  lemma RefreshReport(reports: seq<FailReport>, i: nat, now: int)
    requires OnePerSender(reports) && i < |reports|
    ensures var t := reports[i := FailReport(reports[i].node, now)];
            OnePerSender(t) && Reported(t) == Reported(reports)[reports[i].node := now]
    ensures reports[i].node in Reported(reports)
  {
    var t := reports[i := FailReport(reports[i].node, now)];
    assert t[..i] == reports[..i] && t[i + 1..] == reports[i + 1..];
    SplitAt(reports, i);
    SplitAt(t, i);
  }

  lemma AppendReport(reports: seq<FailReport>, sender: ClusterNode, now: int)
    requires OnePerSender(reports) && sender !in Reported(reports)
    ensures var t := reports + [FailReport(sender, now)];
            OnePerSender(t) && Reported(t) == Reported(reports)[sender := now]
  {
    Join(reports, [FailReport(sender, now)]);
  }

  lemma DropReport(reports: seq<FailReport>, i: nat)
    requires OnePerSender(reports) && i < |reports|
    ensures var t := reports[..i] + reports[i + 1..];
            OnePerSender(t) && Reported(t) == Reported(reports) - {reports[i].node}
    ensures reports[i].node in Reported(reports)
  {
    SplitAt(reports, i);
    Join(reports[..i], reports[i + 1..]);
  }

  lemma {:induction false} KeptIsUnexpired(reports: seq<FailReport>, now: int, maxtime: int)
    requires OnePerSender(reports)
    ensures OnePerSender(Kept(reports, now, maxtime))
    ensures Reported(Kept(reports, now, maxtime)) == Unexpired(Reported(reports), now, maxtime)
  {
    if reports != [] {
      KeptIsUnexpired(reports[1..], now, maxtime);
    }
  }

  /** One report per sender: the list is as long as the map is big. */
  lemma {:induction false} ReportedSize(reports: seq<FailReport>)
    requires OnePerSender(reports)
    ensures |Reported(reports)| == |reports|
  {
    if reports != [] {
      ReportedSize(reports[1..]);
    }
  }
}
