/** Forgetting a node (clusterDelNode, freeClusterNode): nothing that is left refers to it. */
module Membership {
  import opened Bitmap
  import opened ClusterNodes
  import opened Sequences
  import opened SlotTable
  import opened Clusters

  /** clusterAddNode, for a node just created: it owns nothing, and nothing else changes. */
  method AddNode(c: Cluster, n: ClusterNode)
    requires c.Valid() && n.bitmap.Length == c.slotBytes && n.Bits() == {} && n.numslots == 0
    requires forall m | m in c.nodes :: m != n && m.bitmap != n.bitmap && m.name != n.name
    requires n.slaves == [] && n.slaveof == null && !(n.master && n.slave)
    modifies c`nodes
    ensures c.Valid() && c.nodes == old(c.nodes) + {n}
  {
    c.nodes := c.nodes + {n};
    assert Owned(c.slots[..], n) == {};
  }

  function Blanked(o: ClusterNode?, gone: ClusterNode): ClusterNode? {
    if o == gone then null else o
  }

  method ForgetOpen(c: Cluster, gone: ClusterNode, slot: nat)
    requires c.Shape() && c.Views() && slot < c.slots.Length
    modifies c.importing, c.migrating
    ensures c.Views()
    ensures c.importing[..] == old(c.importing[..])[slot := Blanked(old(c.importing[slot]), gone)]
    ensures c.migrating[..] == old(c.migrating[..])[slot := Blanked(old(c.migrating[slot]), gone)]
  {
    if c.importing[slot] == gone {
      c.importing[slot] := null;
    }
    if c.migrating[slot] == gone {
      c.migrating[slot] := null;
    }
  }

  method ForgetSlot(c: Cluster, gone: ClusterNode, slot: nat)
    requires c.Shape() && c.Views() && slot < c.slots.Length
    modifies c.slots, c.importing, c.migrating, c.nodes`numslots, c.Bitmaps()
    ensures c.Views()
    ensures c.slots[..] == old(c.slots[..])[slot := Blanked(old(c.slots[slot]), gone)]
    ensures c.importing[..] == old(c.importing[..])[slot := Blanked(old(c.importing[slot]), gone)]
    ensures c.migrating[..] == old(c.migrating[..])[slot := Blanked(old(c.migrating[slot]), gone)]
  {
    ForgetOpen(c, gone, slot);
    if c.slots[slot] == gone {
      var ok := c.DelSlot(slot);
    }
  }

  /** The three slot tables. */
  datatype Tables = Tables(slots: seq<ClusterNode?>, importing: seq<ClusterNode?>, migrating: seq<ClusterNode?>)

  function TablesOf(c: Cluster): Tables
    reads c.slots, c.importing, c.migrating
  {
    Tables(c.slots[..], c.importing[..], c.migrating[..])
  }

  /** `after` is `before` with a node blanked out of the first `upTo` entries. */
  ghost predicate BlankedUpTo(before: seq<ClusterNode?>, after: seq<ClusterNode?>, gone: ClusterNode, upTo: nat) {
    |after| == |before| && forall k :: 0 <= k < |before| ==> after[k] == if k < upTo then Blanked(before[k], gone) else before[k]
  }

  ghost predicate Cleared(before: Tables, after: Tables, gone: ClusterNode, upTo: nat) {
    && BlankedUpTo(before.slots, after.slots, gone, upTo) && BlankedUpTo(before.importing, after.importing, gone, upTo)
    && BlankedUpTo(before.migrating, after.migrating, gone, upTo)
  }

  lemma BlankedOneMore(before: seq<ClusterNode?>, at: seq<ClusterNode?>, gone: ClusterNode, slot: nat)
    requires BlankedUpTo(before, at, gone, slot) && slot < |before|
    ensures BlankedUpTo(before, at[slot := Blanked(at[slot], gone)], gone, slot + 1)
  {
  }

  /** One turn of the loop over the slots. */
  method ForgetNext(c: Cluster, gone: ClusterNode, slot: nat, ghost was: Tables)
    requires c.Shape() && c.Views() && slot < c.slots.Length && Cleared(was, TablesOf(c), gone, slot)
    modifies c.slots, c.importing, c.migrating, c.nodes`numslots, c.Bitmaps()
    ensures c.Views() && Cleared(was, TablesOf(c), gone, slot + 1)
  {
    BlankedOneMore(was.slots, c.slots[..], gone, slot);
    BlankedOneMore(was.importing, c.importing[..], gone, slot);
    BlankedOneMore(was.migrating, c.migrating[..], gone, slot);
    ForgetSlot(c, gone, slot);
  }

  /** Step 1: the three slot tables. */
  method ForgetSlots(c: Cluster, gone: ClusterNode)
    requires c.Shape() && c.Views()
    modifies c.slots, c.importing, c.migrating, c.nodes`numslots, c.Bitmaps()
    ensures c.Views() && Cleared(old(TablesOf(c)), TablesOf(c), gone, c.slots.Length)
  {
    ghost var was := TablesOf(c);
    var j := 0;
    while j < c.slots.Length
      invariant 0 <= j <= c.slots.Length && c.Views() && Cleared(was, TablesOf(c), gone, j)
    {
      ForgetNext(c, gone, j, was);
      j := j + 1;
    }
  }

  /** A report list, as a map, once a sender is forgotten: its report goes, and expired ones with it. */
  ghost function Purged(reported: map<ClusterNode, int>, gone: ClusterNode, now: int, maxtime: int): (left: map<ClusterNode, int>)
    ensures gone !in left
  {
    if gone in reported then Unexpired(reported - {gone}, now, maxtime) else reported
  }

  /** Who reported whom, by node. */
  ghost function ReportsOf(nodes: set<ClusterNode>): map<ClusterNode, map<ClusterNode, int>>
    reads nodes`failReports
  {
    map n | n in nodes :: Reported(n.failReports)
  }

  /** The lists are in order and say what is on record. */
  ghost predicate ReportsAre(nodes: set<ClusterNode>, was: map<ClusterNode, map<ClusterNode, int>>)
    reads nodes, nodes`failReports
  {
    forall n | n in nodes :: n.ReportsOk() && n in was && Reported(n.failReports) == was[n]
  }

  /** The lists are in order, and a node's reports are out of those of others. */
  ghost predicate ReportsPurged(nodes: set<ClusterNode>, was: map<ClusterNode, map<ClusterNode, int>>, gone: ClusterNode,
                                now: int, maxtime: int)
    reads nodes, nodes`failReports
  {
    forall n | n in nodes ::
      n.ReportsOk() && n in was && Reported(n.failReports) == if n == gone then was[n] else Purged(was[n], gone, now, maxtime)
  }

  /** Step 2: the reports it sent, in everybody else's list. */
  method ForgetReports(nodes: set<ClusterNode>, gone: ClusterNode, now: int, maxtime: int,
                       ghost was: map<ClusterNode, map<ClusterNode, int>>)
    requires ReportsAre(nodes, was)
    modifies nodes`failReports
    ensures ReportsPurged(nodes, was, gone, now, maxtime)
  {
    var rest := nodes;
    while rest != {}
      invariant rest <= nodes && ReportsAre(rest, was) && ReportsPurged(nodes - rest, was, gone, now, maxtime)
      decreases rest
    {
      var n :| n in rest;
      if n != gone {
        var found := n.DelFailureReport(gone, now, maxtime);
      }
      rest := rest - {n};
    }
    assert nodes - rest == nodes;
  }

  /** Its slaves are left without a master. */
  method OrphanSlaves(gone: ClusterNode)
    requires NoDuplicates(gone.slaves)
    modifies gone.slaves`slaveof
    ensures forall s | s in gone.slaves :: s.slaveof == null
  {
    var j := 0;
    while j < |gone.slaves|
      invariant 0 <= j <= |gone.slaves|
      invariant forall k :: 0 <= k < j ==> gone.slaves[k].slaveof == null
    {
      gone.slaves[j].slaveof := null;
      j := j + 1;
    }
  }

  /** Step 3: freeClusterNode. */
  method FreeNode(c: Cluster, gone: ClusterNode)
    requires c.Graph() && gone in c.nodes
    modifies c`nodes, c.nodes`slaves, c.nodes`slaveof
    ensures c.nodes == old(c.nodes) - {gone} && c.Graph()
    ensures forall n | n in c.nodes :: n.slaveof == if old(n.slaveof) == gone then null else old(n.slaveof)
  {
    OrphanSlaves(gone);
    assert gone.slaveof != null ==> gone.slaveof in c.nodes;
    if gone.slave && gone.slaveof != null {
      WithoutRemoves(gone.slaveof.slaves, gone);
      var ok := gone.slaveof.RemoveSlave(gone);
    }
    c.nodes := c.nodes - {gone};
  }

  /** Who follows whom. */
  function LinksOf(nodes: set<ClusterNode>): map<ClusterNode, ClusterNode?>
    reads nodes`slaveof
  {
    map n | n in nodes :: n.slaveof
  }

  ghost predicate LinksAre(nodes: set<ClusterNode>, links: map<ClusterNode, ClusterNode?>)
    reads nodes`slaveof
  {
    forall n | n in nodes :: n in links && n.slaveof == links[n]
  }

  /** Step 1 leaves links, roles and reports alone. */
  method ClearTables(c: Cluster, gone: ClusterNode)
    requires c.Shape() && c.Views() && c.Graph()
    modifies c.slots, c.importing, c.migrating, c.nodes`numslots, c.Bitmaps()
    ensures c.Views() && c.Graph() && Cleared(old(TablesOf(c)), TablesOf(c), gone, c.slots.Length)
    ensures forall n | n in c.nodes :: n.failReports == old(n.failReports) && n.slaveof == old(n.slaveof)
  {
    ForgetSlots(c, gone);
  }

  /** So what was known of them still holds. */
  method ClearOnlyTables(c: Cluster, gone: ClusterNode, ghost reports: map<ClusterNode, map<ClusterNode, int>>,
                         ghost links: map<ClusterNode, ClusterNode?>)
    requires c.Shape() && c.Views() && c.Graph() && ReportsAre(c.nodes, reports) && LinksAre(c.nodes, links)
    modifies c.slots, c.importing, c.migrating, c.nodes`numslots, c.Bitmaps()
    ensures c.Views() && c.Graph() && Cleared(old(TablesOf(c)), TablesOf(c), gone, c.slots.Length)
    ensures ReportsAre(c.nodes, reports) && LinksAre(c.nodes, links)
  {
    ClearTables(c, gone);
  }

  /** Step 2 touches nothing but reports. */
  method PurgeReports(c: Cluster, gone: ClusterNode, now: int, maxtime: int, ghost was: Tables,
                      ghost reports: map<ClusterNode, map<ClusterNode, int>>, ghost links: map<ClusterNode, ClusterNode?>)
    requires c.Shape() && c.Views() && c.Graph() && ReportsAre(c.nodes, reports) && LinksAre(c.nodes, links)
    requires Cleared(was, TablesOf(c), gone, c.slots.Length)
    modifies c.nodes`failReports
    ensures c.Views() && c.Graph() && ReportsPurged(c.nodes, reports, gone, now, maxtime) && LinksAre(c.nodes, links)
    ensures Cleared(was, TablesOf(c), gone, c.slots.Length)
  {
    ForgetReports(c.nodes, gone, now, maxtime, reports);
  }

  /** Steps 1 and 2. */
  method CleanUp(c: Cluster, gone: ClusterNode, now: int, maxtime: int, ghost reports: map<ClusterNode, map<ClusterNode, int>>,
                 ghost links: map<ClusterNode, ClusterNode?>)
    requires c.Shape() && c.Views() && c.Graph() && ReportsAre(c.nodes, reports) && LinksAre(c.nodes, links)
    modifies c.slots, c.importing, c.migrating, c.nodes`numslots, c.Bitmaps(), c.nodes`failReports
    ensures c.Views() && c.Graph() && Cleared(old(TablesOf(c)), TablesOf(c), gone, c.slots.Length)
    ensures ReportsPurged(c.nodes, reports, gone, now, maxtime) && LinksAre(c.nodes, links)
  {
    ghost var was := TablesOf(c);
    ClearOnlyTables(c, gone, reports, links);
    PurgeReports(c, gone, now, maxtime, was, reports, links);
  }

  /** Nothing left in the cluster refers to this node. */
  ghost predicate Forgotten(c: Cluster, gone: ClusterNode)
    reads c, c.slots, c.importing, c.migrating, c.nodes
  {
    && gone !in c.nodes
    && gone !in c.slots[..] && gone !in c.importing[..] && gone !in c.migrating[..]
    && forall n | n in c.nodes :: n.slaveof != gone && gone !in n.slaves && gone !in Reported(n.failReports)
  }

  /** The tables do not mention it. */
  ghost predicate Unmentioned(t: Tables, gone: ClusterNode) {
    gone !in t.slots && gone !in t.importing && gone !in t.migrating
  }

  lemma ClearedIsUnmentioned(before: Tables, after: Tables, gone: ClusterNode, n: nat)
    requires Cleared(before, after, gone, n) && |before.slots| == |before.importing| == |before.migrating| == n
    ensures Unmentioned(after, gone)
  {
  }

  /** Step 3, for a node that neither tables nor reports mention any more. */
  method Unregister(c: Cluster, gone: ClusterNode)
    requires c.Shape() && c.Views() && c.Graph() && gone in c.nodes && gone != c.myself && Unmentioned(TablesOf(c), gone)
    requires forall n | n in c.nodes && n != gone :: gone !in Reported(n.failReports)
    modifies c`nodes, c.nodes`slaves, c.nodes`slaveof
    ensures c.nodes == old(c.nodes) - {gone} && c.Shape() && c.Views() && c.Graph() && Forgotten(c, gone)
    ensures forall n | n in c.nodes :: n.slaveof == Blanked(old(n.slaveof), gone)
  {
    FreeNode(c, gone);
    assert forall k :: 0 <= k < c.slots.Length ==> c.slots[..][k] != gone;
  }

  /** Its slaves follow nobody, all others whom they followed. */
  ghost predicate Orphaned(nodes: set<ClusterNode>, links: map<ClusterNode, ClusterNode?>, gone: ClusterNode)
    reads nodes`slaveof
  {
    forall n | n in nodes :: n in links && n.slaveof == Blanked(links[n], gone)
  }

  /** The same, told of what has happened before. */
  method Finish(c: Cluster, gone: ClusterNode, now: int, maxtime: int, ghost was: Tables,
                ghost reports: map<ClusterNode, map<ClusterNode, int>>, ghost links: map<ClusterNode, ClusterNode?>)
    requires c.Shape() && c.Views() && c.Graph() && gone in c.nodes && gone != c.myself
    requires |was.slots| == |was.importing| == |was.migrating| == c.slots.Length
    requires Cleared(was, TablesOf(c), gone, c.slots.Length) && ReportsPurged(c.nodes, reports, gone, now, maxtime)
    requires LinksAre(c.nodes, links)
    modifies c`nodes, c.nodes`slaves, c.nodes`slaveof
    ensures c.nodes == old(c.nodes) - {gone} && c.Shape() && c.Views() && c.Graph() && Forgotten(c, gone)
   ensures Orphaned(c.nodes, links, gone)
    ensures Cleared(was, TablesOf(c), gone, c.slots.Length) && ReportsPurged(c.nodes, reports, gone, now, maxtime)
  {
    ClearedIsUnmentioned(was, TablesOf(c), gone, c.slots.Length);
    Unregister(c, gone);
  }

  /** The three steps. */
  method RemoveNode(c: Cluster, gone: ClusterNode, now: int, maxtime: int)
    requires c.Shape() && c.Views() && c.Graph() && gone in c.nodes && gone != c.myself
    requires forall n | n in c.nodes :: n.ReportsOk()
    modifies c`nodes, c.slots, c.importing, c.migrating, c.Bitmaps()
    modifies c.nodes`numslots, c.nodes`failReports, c.nodes`slaves, c.nodes`slaveof
    ensures c.nodes == old(c.nodes) - {gone} && Forgotten(c, gone) && c.Shape() && c.Views() && c.Graph()
    ensures Cleared(old(TablesOf(c)), TablesOf(c), gone, c.slots.Length) && Orphaned(c.nodes, old(LinksOf(c.nodes)), gone)
    ensures ReportsPurged(c.nodes, old(ReportsOf(c.nodes)), gone, now, maxtime)
  {
    ghost var was, reports, links := TablesOf(c), ReportsOf(c.nodes), LinksOf(c.nodes);
    CleanUp(c, gone, now, maxtime, reports, links);
    Finish(c, gone, now, maxtime, was, reports, links);
  }

  /** clusterDelNode. Everything else stays: the other slots, the other links. */
  method DelNode(c: Cluster, gone: ClusterNode, now: int, maxtime: int)
    requires c.Shape() && c.Views() && c.Graph() && gone in c.nodes && gone != c.myself
    requires forall n | n in c.nodes :: n.ReportsOk()
    modifies c`nodes, c.slots, c.importing, c.migrating, c.Bitmaps()
    modifies c.nodes`numslots, c.nodes`failReports, c.nodes`slaves, c.nodes`slaveof
    ensures c.nodes == old(c.nodes) - {gone} && Forgotten(c, gone) && c.Shape() && c.Views() && c.Graph()
    ensures Cleared(old(TablesOf(c)), TablesOf(c), gone, c.slots.Length) && Orphaned(c.nodes, old(LinksOf(c.nodes)), gone)
    ensures ReportsPurged(c.nodes, old(ReportsOf(c.nodes)), gone, now, maxtime)
    ensures forall k :: 0 <= k < c.slots.Length ==>
              && c.slots[k] == (if old(c.slots[k]) == gone then null else old(c.slots[k]))
              && c.importing[k] == (if old(c.importing[k]) == gone then null else old(c.importing[k]))
              && c.migrating[k] == (if old(c.migrating[k]) == gone then null else old(c.migrating[k]))
    ensures forall n | n in c.nodes :: n.slaveof == if old(n.slaveof) == gone then null else old(n.slaveof)
  {
    RemoveNode(c, gone, now, maxtime);
  }
}
