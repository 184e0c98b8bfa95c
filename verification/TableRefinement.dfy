/** The heap's owner table converges like the tables of the convergence model: a ping from a master
    does to it what that model says an announcement does. */
module TableRefinement {
  import opened Bitmap
  import opened ClusterNodes
  import opened Clusters
  import opened Epochs
  import opened EpochRules
  import P = Packets
  import R = Refinement
  import T = Convergence

  function OwnerOf(n: ClusterNode?): T.Owner {
    if n == null then T.Nobody else T.Node(n.name)
  }

  function Owners(slots: seq<ClusterNode?>): map<nat, T.Owner> {
    map j: nat | j < |slots| :: OwnerOf(slots[j])
  }

  ghost function Imports(importing: seq<ClusterNode?>): set<nat> {
    set j: nat | j < |importing| && importing[j] != null
  }

  /** What the convergence model sees of a node. */
  ghost function AsTable(c: Cluster): T.Table
    requires c.Shape()
    reads c`nodes, c`myself, c.nodes`configEpoch, c.slots, c.importing
  {
    T.Table(Owners(c.slots[..]), Imports(c.importing[..]), R.Config(c))
  }

  ghost function Announced(claim: P.Claim): T.Claim {
    T.Claim(Members(claim.slots), claim.epoch)
  }

  /** The epoch a slot is held under, in both views. */
  lemma SameEpoch(c: Cluster, slot: nat)
    requires c.Shape() && c.Views() && slot < c.slots.Length
    ensures c.slots[slot] != null ==> T.Recorded(AsTable(c), OwnerOf(c.slots[slot])) == c.slots[slot].configEpoch
  {
    assert c.slots[slot] != null ==> c.slots[slot] in c.nodes;
  }

  /** Both rules take the same slots, also after the announced epoch has gone on record. */
  lemma SameSlotsTaken(c: Cluster, sender: ClusterNode, claim: P.Claim, slot: nat)
    requires c.Shape() && c.Views() && sender in c.nodes && |claim.slots| == c.slotBytes && slot < c.slots.Length
    ensures var t := T.Record(AsTable(c), sender.name, Announced(claim));
            slot in t.owner && (T.TakesSlot(t, sender.name, Announced(claim), slot) <==> c.Takes(sender, claim.epoch, claim.slots, slot))
  {
    assert slot in Members(claim.slots) <==> BitAt(claim.slots, slot);
    SameEpoch(c, slot);
    var n := c.slots[slot];
    assert n != null && n != sender ==> n.name != sender.name;
  }

  /** The slots taken, by either rule. */
  lemma TakenAlike(c: Cluster, sender: ClusterNode, claim: P.Claim, taken: set<nat>)
    requires c.Shape() && c.Views() && sender in c.nodes && sender != c.myself && |claim.slots| == c.slotBytes
    requires taken == c.Taken(sender, claim.epoch, claim.slots)
    ensures var t := AsTable(c);
            forall j :: j in t.owner ==> (j in taken <==> T.TakesSlot(T.Record(t, sender.name, Announced(claim)), sender.name, Announced(claim), j))
  {
    forall j | j in AsTable(c).owner
      ensures j in taken <==>
          T.TakesSlot(T.Record(AsTable(c), sender.name, Announced(claim)), sender.name, Announced(claim), j)
    {
      SameSlotsTaken(c, sender, claim, j);
    }
  }

  lemma ReceiveIsUpdate(t: T.Table, from: nat, claim: T.Claim)
    ensures T.Receive(t, from, claim) == T.Update(T.Record(t, from, claim), from, claim)
  {
    var t1 := T.Record(t, from, claim);
    if T.SlotsOf(t1, from) == claim.slots {
      T.SkipIsHarmless(t1, from, claim);
    }
  }

  /** The table after an announcement: the slots taken are the sender's, its epoch is on record, and
      imports go on unless we were demoted. */
  ghost predicate Heard(before: T.Table, after: T.Table, from: nat, claim: T.Claim, taken: set<nat>, demoted: bool) {
    && after.owner.Keys == before.owner.Keys
    && (forall j :: j in before.owner ==> after.owner[j] == if j in taken then T.Node(from) else before.owner[j])
    && after.record == T.Record(before, from, claim).record
    && (!demoted ==> after.importing == before.importing)
  }

  /** Which is what the model does. */
  lemma HeardIsReceived(before: T.Table, after: T.Table, from: nat, claim: T.Claim, taken: set<nat>, demoted: bool)
    requires forall j :: j in before.owner ==> (j in taken <==> T.TakesSlot(T.Record(before, from, claim), from, claim, j))
    requires Heard(before, after, from, claim, taken, demoted)
    ensures var t := T.Receive(before, from, claim);
            after.owner == t.owner && after.record == t.record && (!demoted ==> after.importing == t.importing)
  {
    ReceiveIsUpdate(before, from, claim);
  }

  /** The facts about a ping from a master that the table depends on. */
  method Hear(c: Cluster, sender: ClusterNode, h: P.Header, keys: set<nat>) returns (demoted: bool)
    requires P.Ready(c) && sender in c.nodes && sender != c.myself && (sender.master || sender.slave)
    requires h.isMaster
    requires (h.master != null ==> h.master in c.nodes) && |h.claim.slots| == c.slotBytes
    modifies c`currentEpoch, sender`configEpoch
    modifies c.slots, c.nodes`numslots, c.Bitmaps(), c.nodes`slaves, sender`slaveof, sender`master, sender`slave
    modifies c.myself`slaveof, c.myself`master, c.myself`slave, c.importing, c.migrating
    ensures P.Ready(c) && (old(EpochsOk(c)) && h.claim.epoch <= c.currentEpoch ==> EpochsOk(c))
    ensures c.Gone(old(c.slots[..]), sender, old(c.Taken(sender, h.claim.epoch, h.claim.slots)), c.slots.Length)
    ensures sender.configEpoch == Max(old(sender.configEpoch), h.claim.epoch) && P.OthersKeep(c.nodes, sender, sender)
    ensures !demoted ==> c.importing[..] == old(c.importing[..])
  {
    var purged, newer;
    demoted, purged, newer := P.ReceiveHeader(c, sender, h, keys);
  }

  lemma OwnersAfter(before: seq<ClusterNode?>, after: seq<ClusterNode?>, sender: ClusterNode, taken: set<nat>)
    requires |after| == |before| && forall k :: 0 <= k < |before| ==> after[k] == if k in taken then sender else before[k]
    ensures Owners(after).Keys == Owners(before).Keys
    ensures forall j :: j in Owners(before) ==>
        Owners(after)[j] == if j in taken then T.Node(sender.name) else Owners(before)[j]
  {
  }

  /** What the tables before and after are made of, put together. */
  lemma PartsAreHeard(before: T.Table, after: T.Table, slots: seq<ClusterNode?>, slots': seq<ClusterNode?>,
                      sender: ClusterNode, claim: T.Claim, taken: set<nat>, demoted: bool)
    requires before.owner == Owners(slots) && after.owner == Owners(slots') && |slots'| == |slots|
    requires forall k :: 0 <= k < |slots| ==> slots'[k] == if k in taken then sender else slots[k]
    requires sender.name in before.record
    requires after.record == before.record[sender.name := Max(before.record[sender.name], claim.epoch)]
    requires !demoted ==> after.importing == before.importing
    ensures Heard(before, after, sender.name, claim, taken, demoted)
  {
    OwnersAfter(slots, slots', sender, taken);
  }

  /** What is on record after a ping from a master. */
  method HearAndRecord(c: Cluster, sender: ClusterNode, h: P.Header, keys: set<nat>) returns (demoted: bool)
    requires P.Ready(c) && sender in c.nodes && sender != c.myself && (sender.master || sender.slave)
    requires h.isMaster
    requires (h.master != null ==> h.master in c.nodes) && |h.claim.slots| == c.slotBytes
    modifies c`currentEpoch, sender`configEpoch
    modifies c.slots, c.nodes`numslots, c.Bitmaps(), c.nodes`slaves, sender`slaveof, sender`master, sender`slave
    modifies c.myself`slaveof, c.myself`master, c.myself`slave, c.importing, c.migrating
    ensures P.Ready(c) && (old(EpochsOk(c)) && h.claim.epoch <= c.currentEpoch ==> EpochsOk(c))
    ensures c.Gone(old(c.slots[..]), sender, old(c.Taken(sender, h.claim.epoch, h.claim.slots)), c.slots.Length)
    ensures R.Config(c) == old(R.Config(c))[sender.name := Max(old(sender.configEpoch), h.claim.epoch)]
    ensures !demoted ==> c.importing[..] == old(c.importing[..])
  {
    ghost var record := R.Config(c);
    demoted := Hear(c, sender, h, keys);
    R.OneRecordChanged(c, record, sender);
  }

  lemma TableParts(c: Cluster, sender: ClusterNode)
    requires c.Shape() && sender in c.nodes
    ensures var t := AsTable(c);
            && t.owner == Owners(c.slots[..]) && t.importing == Imports(c.importing[..]) && t.record == R.Config(c)
            && sender.name in t.record && t.record[sender.name] == sender.configEpoch
  {
  }

  /** The table, put together. */
  method HearTable(c: Cluster, sender: ClusterNode, h: P.Header, keys: set<nat>, ghost taken: set<nat>) returns (demoted: bool)
    requires P.Ready(c) && sender in c.nodes && sender != c.myself && (sender.master || sender.slave)
    requires (h.master != null ==> h.master in c.nodes) && |h.claim.slots| == c.slotBytes
    requires h.isMaster && taken == c.Taken(sender, h.claim.epoch, h.claim.slots)
    modifies c`currentEpoch, sender`configEpoch
    modifies c.slots, c.nodes`numslots, c.Bitmaps(), c.nodes`slaves, sender`slaveof, sender`master, sender`slave
    modifies c.myself`slaveof, c.myself`master, c.myself`slave, c.importing, c.migrating
    ensures P.Ready(c) && (old(EpochsOk(c)) && h.claim.epoch <= c.currentEpoch ==> EpochsOk(c))
    ensures Heard(old(AsTable(c)), AsTable(c), sender.name, Announced(h.claim), taken, demoted)
  {
    ghost var before, slots, imports := AsTable(c), c.slots[..], c.importing[..];
    TableParts(c, sender);
    demoted := HearAndRecord(c, sender, h, keys);
    TableIsHeard(c, before, slots, imports, sender, Announced(h.claim), taken, demoted);
  }

  lemma TableIsHeard(c: Cluster, before: T.Table, slots: seq<ClusterNode?>, imports: seq<ClusterNode?>, sender: ClusterNode,
                     claim: T.Claim, taken: set<nat>, demoted: bool)
    requires c.Shape() && sender in c.nodes && |slots| == c.slots.Length && c.Gone(slots, sender, taken, c.slots.Length)
    requires before.owner == Owners(slots) && before.importing == Imports(imports) && sender.name in before.record
    requires R.Config(c) == before.record[sender.name := Max(before.record[sender.name], claim.epoch)]
    requires !demoted ==> c.importing[..] == imports
    ensures Heard(before, AsTable(c), sender.name, claim, taken, demoted)
  {
    TableParts(c, sender);
    PartsAreHeard(before, AsTable(c), slots, c.slots[..], sender, claim, taken, demoted);
  }

  /** The part of a ping from a master that convergence is about. */
  method ReceiveAnnouncement(c: Cluster, sender: ClusterNode, h: P.Header, keys: set<nat>) returns (demoted: bool)
    requires P.Ready(c) && sender in c.nodes && sender != c.myself && (sender.master || sender.slave)
    requires h.isMaster
    requires (h.master != null ==> h.master in c.nodes) && |h.claim.slots| == c.slotBytes
    modifies c`currentEpoch, sender`configEpoch
    modifies c.slots, c.nodes`numslots, c.Bitmaps(), c.nodes`slaves, sender`slaveof, sender`master, sender`slave
    modifies c.myself`slaveof, c.myself`master, c.myself`slave, c.importing, c.migrating
    ensures P.Ready(c) && (old(EpochsOk(c)) && h.claim.epoch <= c.currentEpoch ==> EpochsOk(c))
    ensures var t := T.Receive(old(AsTable(c)), sender.name, Announced(h.claim));
            && AsTable(c).owner == t.owner && AsTable(c).record == t.record
            && (!demoted ==> AsTable(c).importing == t.importing)
  {
    ghost var before, taken := AsTable(c), c.Taken(sender, h.claim.epoch, h.claim.slots);
    TakenAlike(c, sender, h.claim, taken);
    demoted := HearTable(c, sender, h, keys, taken);
    HeardIsReceived(before, AsTable(c), sender.name, Announced(h.claim), taken, demoted);
  }
}
