/** The state one node keeps about the whole cluster, and every operation on it (cluster.c). */
module Clusters {
  import opened Bitmap
  import opened ClusterNodes
  import opened Sequences
  import opened SlotTable

  class Cluster {
    const slotBytes: nat                  // CLUSTER_SLOTS / 8
    const slots: array<ClusterNode?>      // owner of each slot
    const importing: array<ClusterNode?>  // importing_slots_from
    const migrating: array<ClusterNode?>  // migrating_slots_to
    var nodes: set<ClusterNode>
    var myself: ClusterNode
    var currentEpoch: nat
    var lastVoteEpoch: nat
    var size: nat
    var authTime: int                     // failover_auth_time and so on: our own election
    var authRank: nat
    var authCount: nat
    var authSent: bool
    var authEpoch: nat

    ghost function Bitmaps(): set<array<bv8>>
      reads `nodes
    {
      set n | n in nodes :: n.bitmap
    }

    ghost predicate Shape()
      reads `nodes, `myself
    {
      && slots.Length == importing.Length == migrating.Length == 8 * slotBytes
      && slots != importing && slots != migrating && importing != migrating
      && myself in nodes
      && (forall n | n in nodes :: n.bitmap.Length == slotBytes)
      && (forall a, b | a in nodes && b in nodes && a != b :: a.bitmap != b.bitmap && a.name != b.name)
    }

    /** The owner table, the bitmaps and the counters tell one story. */
    ghost predicate Views()
      reads `nodes, slots, nodes`numslots, Bitmaps()
    {
      && (forall j | 0 <= j < slots.Length :: slots[j] == null || slots[j] in nodes)
      && (forall n | n in nodes :: n.Bits() == Owned(slots[..], n) && n.numslots == |n.Bits()|)
    }

    /** clusterInit without a configuration file: alone, a master, no slots. The `sent` flag of the
        election is the one field it leaves as it finds it. */
    constructor (name: nat, slotBytes: nat, sent: bool)
      ensures this.slotBytes == slotBytes && Shape() && Views()
      ensures nodes == {myself} && fresh(myself) && myself.name == name && myself.master && !myself.slave
      ensures myself.configEpoch == 0 && myself.slaveof == null && myself.slaves == []
      ensures fresh(slots) && fresh(importing) && fresh(migrating) && fresh(myself.bitmap)
      ensures forall j :: 0 <= j < slots.Length ==> slots[j] == importing[j] == migrating[j] == null
      ensures currentEpoch == 0 && lastVoteEpoch == 0 && size == 1
      ensures authTime == 0 && authRank == 0 && authCount == 0 && authSent == sent && authEpoch == 0
    {
      this.slotBytes := slotBytes;
      slots := new ClusterNode?[8 * slotBytes](_ => null);
      importing := new ClusterNode?[8 * slotBytes](_ => null);
      migrating := new ClusterNode?[8 * slotBytes](_ => null);
      var me := new ClusterNode(name, slotBytes);
      me.master := true;
      myself, nodes, currentEpoch, lastVoteEpoch, size := me, {me}, 0, 0, 1;
      authTime, authRank, authCount, authSent, authEpoch := 0, 0, 0, sent, 0;
    }

    // ------------------------------------------------------------ single slots

    method AddSlot(n: ClusterNode, slot: nat) returns (ok: bool)
      requires Shape() && Views() && n in nodes && slot < slots.Length
      modifies slots, n`numslots, n.bitmap
      ensures Views()
      ensures ok <==> old(slots[slot]) == null
      ensures slots[..] == if ok then old(slots[..])[slot := n] else old(slots[..])
    {
      if slots[slot] != null {
        return false;
      }
      ghost var before := slots[..];
      var was := n.SetSlotBit(slot);
      slots[slot] := n;
      forall m | m in nodes ensures Owned(slots[..], m) == if m == n then Owned(before, m) + {slot} else Owned(before, m) {
        OwnedAfterAssign(before, slot, n, m);
      }
      return true;
    }

    method DelSlot(slot: nat) returns (ok: bool)
      requires Shape() && Views() && slot < slots.Length
      modifies slots, nodes`numslots, Bitmaps()
      ensures Views()
      ensures ok <==> old(slots[slot]) != null
      ensures slots[..] == old(slots[..])[slot := null]
    {
      var n := slots[slot];
      if n == null {
        assert slots[..] == old(slots[..])[slot := null];
        return false;
      }
      ghost var before := slots[..];
      var was := n.ClearSlotBit(slot);
      assert was;  // the server's own assertion
      slots[slot] := null;
      forall m | m in nodes ensures Owned(slots[..], m) == if m == n then Owned(before, m) - {slot} else Owned(before, m) {
        OwnedAfterAssign<ClusterNode?>(before, slot, null, m);
      }
      return true;
    }

    // ----------------------------------------------------------- slots in bulk

    /** A slot changes hands: unassigned first, then bound to its new owner. */
    method Rebind(slot: nat, n: ClusterNode)
      requires Shape() && Views() && n in nodes && slot < slots.Length
      modifies slots, nodes`numslots, Bitmaps()
      ensures Views()
      ensures slots[..] == old(slots[..])[slot := n]
    {
      var _ := DelSlot(slot);
      var ok := AddSlot(n, slot);
      assert ok;
    }

    /** clusterDelNodeSlots: walks the node's own bitmap. */
    method DelNodeSlots(n: ClusterNode)
      requires Shape() && Views() && n in nodes
      modifies slots, nodes`numslots, Bitmaps()
      ensures Views()
      ensures forall k :: 0 <= k < slots.Length ==> slots[k] == if old(slots[k]) == n then null else old(slots[k])
    {
      var j := 0;
      while j < slots.Length
        invariant 0 <= j <= slots.Length && Views()
        invariant forall k :: 0 <= k < slots.Length ==>
            slots[k] == if k < j && old(slots[k]) == n then null else old(slots[k])
      {
        var bit := TestBit(n.bitmap, j);
        if bit {
          var ok := DelSlot(j);
        }
        j := j + 1;
      }
    }

    method CloseAllSlots()
      requires Shape()
      modifies importing, migrating
      ensures forall j :: 0 <= j < slots.Length ==> importing[j] == null && migrating[j] == null
    {
      var j := 0;
      while j < slots.Length
        invariant 0 <= j <= slots.Length
        invariant forall k :: 0 <= k < j ==> importing[k] == null && migrating[k] == null
      {
        importing[j], migrating[j] := null, null;
        j := j + 1;
      }
    }

    /** Does a claim take this slot, as things stand? */
    predicate Takes(sender: ClusterNode, epoch: nat, claims: seq<bv8>, slot: nat)
      reads slots, importing, (if slot < slots.Length && slots[slot] != null then {slots[slot]} else {})`configEpoch
      requires |claims| == slotBytes && slot < slots.Length == importing.Length == 8 * slotBytes
    {
      && BitAt(claims, slot)
      && Rebinds<ClusterNode?>(slots[slot], null, sender, if slots[slot] == null then 0 else slots[slot].configEpoch,
                               epoch, importing[slot] != null)
    }

    /** The slots a claim takes, ours being ignored. */
    ghost function Taken(sender: ClusterNode, epoch: nat, claims: seq<bv8>): (r: set<nat>)
      reads `nodes, `myself, slots, importing, nodes`configEpoch
      requires Shape() && |claims| == slotBytes && forall j | 0 <= j < slots.Length :: slots[j] == null || slots[j] in nodes
      ensures forall j :: j in r <==> 0 <= j < slots.Length && sender != myself && Takes(sender, epoch, claims, j)
    {
      set j | 0 <= j < slots.Length && sender != myself && Takes(sender, epoch, claims, j)
    }

    /** The slots of `taken` below `upTo` have gone from the table `before` to the sender. */
    ghost predicate Gone(before: seq<ClusterNode?>, sender: ClusterNode, taken: set<nat>, upTo: nat)
      reads slots
      requires |before| == slots.Length
    {
      forall k :: 0 <= k < slots.Length ==> slots[k] == if k < upTo && k in taken then sender else before[k]
    }

    /** What the scan has noted by the time it gets to `upTo`: whether any slot was taken from
        `curmaster`, and which of ours that still hold keys were taken. */
    static ghost predicate Noted(before: seq<ClusterNode?>, taken: set<nat>, curmaster: ClusterNode?, me: ClusterNode,
                                 keys: set<nat>, upTo: nat, newmaster: bool, dirty: seq<nat>)
      requires upTo <= |before|
    {
      && (newmaster <==> exists k :: 0 <= k < upTo && k in taken && before[k] == curmaster)
      && forall k :: k in dirty <==> 0 <= k < upTo && k in taken && before[k] == me && k in keys
    }

    /** The note on one slot. */
    method NoteSlot(slot: nat, take: bool, curmaster: ClusterNode?, keys: set<nat>, newmaster: bool, dirty: seq<nat>,
                    ghost before: seq<ClusterNode?>, ghost taken: set<nat>) returns (lost: bool, held: seq<nat>)
      requires slot < slots.Length == |before| && before[slot] == slots[slot] && (take <==> slot in taken)
      requires Noted(before, taken, curmaster, myself, keys, slot, newmaster, dirty)
      ensures Noted(before, taken, curmaster, myself, keys, slot + 1, lost, held)
    {
      lost, held := newmaster, dirty;
      if take {
        if slots[slot] == myself && slot in keys {
          held := dirty + [slot];
        }
        if slots[slot] == curmaster {
          lost := true;
        }
      }
    }

    /** One turn of the scan. */
    method ScanSlot(sender: ClusterNode, epoch: nat, claims: seq<bv8>, slot: nat, curmaster: ClusterNode?, keys: set<nat>,
                    newmaster: bool, dirty: seq<nat>, ghost before: seq<ClusterNode?>, ghost taken: set<nat>)
      returns (lost: bool, held: seq<nat>)
      requires Shape() && Views() && sender in nodes && |claims| == slotBytes && slot < slots.Length == |before|
      requires Gone(before, sender, taken, slot) && (slot in taken <==> Takes(sender, epoch, claims, slot))
      requires Noted(before, taken, curmaster, myself, keys, slot, newmaster, dirty)
      modifies slots, nodes`numslots, Bitmaps()
      ensures Views() && Gone(before, sender, taken, slot + 1)
      ensures Noted(before, taken, curmaster, myself, keys, slot + 1, lost, held)
    {
      var take := Takes(sender, epoch, claims, slot);
      lost, held := NoteSlot(slot, take, curmaster, keys, newmaster, dirty, before, taken);
      if take {
        Rebind(slot, sender);
      }
    }

    /** The scan of clusterUpdateSlotsConfigWith: rebinds slots, notes whether any was
        taken from `curmaster`, and lists our own lost slots that still hold keys. */
    method RebindSlots(sender: ClusterNode, epoch: nat, claims: seq<bv8>, curmaster: ClusterNode?, keys: set<nat>,
                       ghost taken: set<nat>) returns (newmaster: bool, dirty: seq<nat>)
      requires Shape() && Views() && sender in nodes && |claims| == slotBytes
      requires forall k :: 0 <= k < slots.Length ==> (k in taken <==> Takes(sender, epoch, claims, k))
      modifies slots, nodes`numslots, Bitmaps()
      ensures Views() && Gone(old(slots[..]), sender, taken, slots.Length)
      ensures Noted(old(slots[..]), taken, curmaster, myself, keys, slots.Length, newmaster, dirty)
    {
      newmaster, dirty := false, [];
      ghost var before := slots[..];
      var j := 0;
      while j < slots.Length
        invariant 0 <= j <= slots.Length && Views() && Gone(before, sender, taken, j)
        invariant Noted(before, taken, curmaster, myself, keys, j, newmaster, dirty)
      {
        assert slots[j] == before[j];
        newmaster, dirty := ScanSlot(sender, epoch, claims, j, curmaster, keys, newmaster, dirty, before, taken);
        j := j + 1;
      }
    }

    // ------------------------------------------------------------ master and slave links

    /** The `slaves` arrays and the `slaveof` pointers agree, and only slaves have masters. */
    ghost predicate Graph()
      reads `nodes, nodes`slaves, nodes`slaveof, nodes`master, nodes`slave
    {
      forall n | n in nodes ::
        && NoDuplicates(n.slaves)
        && (forall s | s in n.slaves :: s in nodes && s.slaveof == n)
        && (n.slaveof != null ==> n.slaveof in nodes && n in n.slaveof.slaves && n.slave)
        && !(n.master && n.slave)
    }

    /** The three views of the slots depend on nothing but the table, the bitmaps and the counters. */
    twostate lemma ViewsFramed()
      requires old(Shape() && Views()) && nodes == old(nodes) && myself == old(myself)
      requires slots[..] == old(slots[..])
      requires forall n | n in nodes :: n.numslots == old(n.numslots) && n.bitmap[..] == old(n.bitmap[..])
      ensures Shape() && Views()
    {
    }

    /** The links depend on nothing but the link and role fields. */
    twostate lemma GraphFramed()
      requires old(Graph()) && nodes == old(nodes)
      requires forall n | n in nodes :: n.slaves == old(n.slaves) && n.slaveof == old(n.slaveof)
      requires forall n | n in nodes :: n.master == old(n.master) && n.slave == old(n.slave)
      ensures Graph()
    {
    }

    lemma SlaveofIffListed(s: ClusterNode, m: ClusterNode)
      requires Graph() && s in nodes && m in nodes
      ensures s.slaveof == m <==> multiset(m.slaves)[s] == 1
      ensures s.slaveof != m <==> multiset(m.slaves)[s] == 0
    {
      if s in m.slaves {
        CountsOnce(m.slaves, s);
      }
    }

    /** Take `s` off its master's list, if it has a master. */
    method Unlink(s: ClusterNode)
      requires Graph() && s in nodes
      modifies nodes`slaves, s`slaveof
      ensures Graph() && s.slaveof == null
      ensures forall m | m in nodes :: m.slaves == if m == old(s.slaveof) then Without(old(m.slaves), s) else old(m.slaves)
    {
      if s.slaveof != null {
        WithoutRemoves(s.slaveof.slaves, s);
        var ok := s.slaveof.RemoveSlave(s);
        s.slaveof := null;
      }
    }

    /** Make `m` the master of the so far unattached slave `s`. */
    method Link(m: ClusterNode, s: ClusterNode)
      requires Graph() && m in nodes && s in nodes && s.slaveof == null && s.slave
      modifies m`slaves, s`slaveof
      ensures Graph() && s.slaveof == m && m.slaves == old(m.slaves) + [s]
    {
      s.slaveof := m;
      var ok := m.AddSlave(s);
    }

    /** Give `s` a new master, or none. */
    method Relink(s: ClusterNode, m: ClusterNode?)
      requires Graph() && s in nodes && (m != null ==> m in nodes && s.slave)
      modifies nodes`slaves, s`slaveof
      ensures Graph() && s.slaveof == m
      ensures forall n | n in nodes && n != m && n != old(s.slaveof) :: n.slaves == old(n.slaves)
    {
      Unlink(s);
      if m != null {
        Link(m, s);
      }
    }

    // ----------------------------------------------------------------- role changes

    ghost predicate NoOpenSlots()
      reads importing, migrating
    {
      forall j :: 0 <= j < importing.Length == migrating.Length ==> importing[j] == null && migrating[j] == null
    }

    twostate predicate OpenSlotsKept()
      reads importing, migrating
    {
      importing[..] == old(importing[..]) && migrating[..] == old(migrating[..])
    }

    /** No slave ever owns a slot. */
    ghost predicate SlavesOwnNothing()
      reads `nodes, nodes`slave, nodes`numslots
    {
      forall n | n in nodes && n.slave :: n.numslots == 0
    }

    /** Everything the packet and failover handlers keep. */
    ghost predicate Valid()
      reads `nodes, `myself, myself`master, myself`slave, slots, Bitmaps()
      reads nodes`numslots, nodes`slaves, nodes`slaveof, nodes`master, nodes`slave
    {
      Shape() && Views() && Graph() && SlavesOwnNothing() && (myself.master || myself.slave)
    }

    /** The same with everything else about the cluster kept. */
    method Attach(s: ClusterNode, m: ClusterNode?)
      requires Valid() && s in nodes && (m != null ==> m in nodes && s.slave)
      modifies nodes`slaves, s`slaveof
      ensures Valid() && s.slaveof == m
      ensures forall n | n in nodes && n != m && n != old(s.slaveof) :: n.slaves == old(n.slaves)
    {
      Relink(s, m);
      ViewsFramed();
    }

    method BecomeMaster(n: ClusterNode)
      requires Valid() && n in nodes && n.slaveof == null
      modifies n`master, n`slave
      ensures Valid() && n.master && !n.slave
    {
      n.slave, n.master := false, true;
    }

    method SetNodeAsMaster(n: ClusterNode)
      requires Valid() && n in nodes
      modifies nodes`slaves, n`slaveof, n`master, n`slave
      ensures Valid() && n.slaveof == null && n.master && !n.slave
      ensures forall m | m in nodes && m != old(n.slaveof) :: m.slaves == old(m.slaves)
      ensures old(n.master) ==> forall m | m in nodes :: m.slaves == old(m.slaves)
    {
      if n.master {
        return;
      }
      Attach(n, null);
      BecomeMaster(n);
    }

    /** A master without slots turns into a slave that has no master yet. */
    method BecomeSlave(n: ClusterNode)
      requires Valid() && n in nodes && n.master && n.numslots == 0
      modifies n`master, n`slave
      ensures Valid() && n.slave && !n.master && n.slaveof == null
    {
      n.master, n.slave := false, true;
    }

    /** The same for ourselves, who also close every open slot. */
    method StepDown()
      requires Valid() && myself.master && myself.numslots == 0
      modifies myself`master, myself`slave, importing, migrating
      ensures Valid() && myself.slave && !myself.master && myself.slaveof == null
      ensures forall j :: 0 <= j < slots.Length ==> importing[j] == null && migrating[j] == null
    {
      BecomeSlave(myself);
      CloseAllSlots();
    }

    /** clusterSetMaster. Its two assertions are the last two preconditions. */
    method SetMaster(n: ClusterNode)
      requires Valid() && n in nodes
      requires n != myself
      requires myself.numslots == 0
      modifies nodes`slaves, myself`slaveof, myself`master, myself`slave, importing, migrating
      ensures Valid() && myself.slaveof == n && myself.slave && !myself.master
      ensures if old(myself.master) then NoOpenSlots() else OpenSlotsKept()
    {
      if myself.master {
        StepDown();
      }
      Attach(myself, n);
    }

    /** The node whose slots decide what a slot update means for us: ourselves or our master. */
    function CurMaster(): ClusterNode?
      reads `myself, myself`master, myself`slaveof
    {
      if myself.master then myself else myself.slaveof
    }

    /** A node's counter is zero exactly when the table gives it nothing. */
    lemma NoSlotsIffZero(n: ClusterNode)
      requires Shape() && Views() && n in nodes
      ensures n.numslots == 0 <==> forall k :: 0 <= k < slots.Length ==> slots[..][k] != n
    {
      if n.numslots == 0 {
        assert n.Bits() == {};
        assert forall k :: 0 <= k < slots.Length ==> k !in Owned(slots[..], n);
      } else {
        var k :| k in n.Bits();
        assert slots[..][k] == n;
      }
    }

    /** As long as slots only move to masters, slaves go on owning nothing. */
    twostate lemma SlavesGainNothing(sender: ClusterNode)
      requires old(Shape() && Views() && SlavesOwnNothing()) && Shape() && Views() && nodes == old(nodes)
      requires sender in nodes && !sender.slave
      requires forall n | n in nodes :: n.slave ==> old(n.slave)
      requires forall k :: 0 <= k < slots.Length ==> slots[k] == old(slots[k]) || slots[k] == sender || slots[k] == null
      ensures SlavesOwnNothing()
    {
      forall n | n in nodes && n.slave ensures n.numslots == 0 {
        NoSlotsIffZero(n);
        assert old(n.Bits()) == {};
        forall k | 0 <= k < slots.Length ensures slots[..][k] != n {
          assert k !in Owned(old(slots[..]), n);
        }
      }
    }

    /** `who` lost at least one slot between two tables and now has none. */
    static ghost predicate Emptied(before: seq<ClusterNode?>, after: seq<ClusterNode?>, who: ClusterNode?) {
      && |before| == |after|
      && (exists k :: 0 <= k < |before| && before[k] == who && after[k] != who)
      && forall k :: 0 <= k < |after| ==> after[k] != who
    }

    /** Someone who loses slots to a claim is emptied iff the table no longer mentions it. */
    static lemma EmptiedIffLost(before: seq<ClusterNode?>, after: seq<ClusterNode?>, taken: set<nat>,
                                sender: ClusterNode, who: ClusterNode?)
      requires |after| == |before| && forall k :: 0 <= k < |before| ==> after[k] == if k in taken then sender else before[k]
      requires forall k :: 0 <= k < |before| && k in taken ==> before[k] != sender
      ensures Emptied(before, after, who) <==>
                && (exists k :: 0 <= k < |before| && k in taken && before[k] == who)
                && forall k :: 0 <= k < |after| ==> after[k] != who
    {
    }

    /** The scan, for a sender that is a master: slaves still own nothing afterwards. */
    method ClaimSlots(sender: ClusterNode, epoch: nat, claims: seq<bv8>, curmaster: ClusterNode?, keys: set<nat>,
                      ghost taken: set<nat>) returns (newmaster: bool, dirty: seq<nat>)
      requires Valid() && sender in nodes && sender.master && |claims| == slotBytes
      requires forall k :: 0 <= k < slots.Length ==> (k in taken <==> Takes(sender, epoch, claims, k))
      modifies slots, nodes`numslots, Bitmaps()
      ensures Valid() && Gone(old(slots[..]), sender, taken, slots.Length)
      ensures Noted(old(slots[..]), taken, curmaster, myself, keys, slots.Length, newmaster, dirty)
    {
      newmaster, dirty := RebindSlots(sender, epoch, claims, curmaster, keys, taken);
      GraphFramed();
      SlavesGainNothing(sender);
    }

    /** Whose slots decide what a slot update means for us is settled before the scan. If that is nobody
        and the scan takes an unassigned slot, the server takes it for its master's and goes on to
        follow the null pointer. */
    ghost predicate FollowsNull(before: seq<ClusterNode?>, taken: set<nat>, curmaster: ClusterNode?) {
      curmaster == null && exists k :: 0 <= k < |before| && k in taken && before[k] == null
    }

    /** The slots to purge: those taken from us that still hold keys. */
    static ghost predicate Purges(before: seq<ClusterNode?>, taken: set<nat>, me: ClusterNode, keys: set<nat>, purged: seq<nat>) {
      forall k :: k in purged <==> 0 <= k < |before| && k in taken && before[k] == me && k in keys
    }

    /** Our role after a slot update. */
    twostate predicate RoleAfter(sender: ClusterNode, demoted: bool)
      reads `myself, myself`master, myself`slave, myself`slaveof, importing, migrating
    {
      && (if demoted then myself.slave && !myself.master && myself.slaveof == sender
          else myself.master == old(myself.master) && myself.slave == old(myself.slave) && myself.slaveof == old(myself.slaveof))
      && if demoted && old(myself.master) then NoOpenSlots() else OpenSlotsKept()
    }

    /** A claim by another master, acted on: who owns what, who follows whom, which keys go. */
    method ApplyClaim(sender: ClusterNode, epoch: nat, claims: seq<bv8>, keys: set<nat>, ghost taken: set<nat>)
      returns (crashed: bool, demoted: bool, purged: seq<nat>)
      requires Valid() && sender in nodes && sender.master && sender != myself && |claims| == slotBytes
      requires forall k :: 0 <= k < slots.Length ==> (k in taken <==> Takes(sender, epoch, claims, k))
      modifies slots, nodes`numslots, Bitmaps()
      modifies nodes`slaves, myself`slaveof, myself`master, myself`slave, importing, migrating
      ensures Valid() && Gone(old(slots[..]), sender, taken, slots.Length)
      ensures crashed <==> FollowsNull(old(slots[..]), taken, old(CurMaster()))
      ensures demoted <==> !crashed && Emptied(old(slots[..]), slots[..], old(CurMaster()))
      ensures RoleAfter(sender, demoted)
      ensures crashed || demoted ==> purged == []
      ensures !crashed && !demoted ==> Purges(old(slots[..]), taken, myself, keys, purged)
    {
      var curmaster := CurMaster();
      ghost var before := slots[..];
      crashed := false;
      demoted, purged := ClaimSlots(sender, epoch, claims, curmaster, keys, taken);
      EmptiedIffLost(before, slots[..], taken, sender, curmaster);
      if demoted {
        if curmaster == null {
          return true, false, [];
        }
        NoSlotsIffZero(curmaster);
        demoted := curmaster.numslots == 0;
      }
      if demoted {
        purged := [];
        Demote(curmaster, sender);
      }
    }

    /** The same, with our own slots ignored. */
    method UpdateSlots(sender: ClusterNode, epoch: nat, claims: seq<bv8>, keys: set<nat>)
      returns (crashed: bool, demoted: bool, purged: seq<nat>)
      requires Valid() && sender in nodes && sender.master && |claims| == slotBytes
      modifies slots, nodes`numslots, Bitmaps()
      modifies nodes`slaves, myself`slaveof, myself`master, myself`slave, importing, migrating
      ensures Valid() && Gone(old(slots[..]), sender, old(Taken(sender, epoch, claims)), slots.Length)
      ensures crashed <==> FollowsNull(old(slots[..]), old(Taken(sender, epoch, claims)), old(CurMaster()))
      ensures demoted <==> !crashed && Emptied(old(slots[..]), slots[..], old(CurMaster()))
      ensures RoleAfter(sender, demoted)
      ensures crashed || demoted ==> sender != myself
      ensures crashed || demoted || sender == myself ==> purged == []
      ensures !crashed && !demoted ==> Purges(old(slots[..]), old(Taken(sender, epoch, claims)), myself, keys, purged)
    {
      crashed, demoted, purged := false, false, [];
      if sender != myself {
        crashed, demoted, purged := ApplyClaim(sender, epoch, claims, keys, Taken(sender, epoch, claims));
      }
    }

    /** The slots a claim takes, without the names of the rules. */
    lemma TakenInPlainTerms(sender: ClusterNode, epoch: nat, claims: seq<bv8>)
      requires Shape() && Views() && |claims| == slotBytes
      ensures forall k :: k in Taken(sender, epoch, claims) <==>
                && 0 <= k < slots.Length && sender != myself && k in Members(claims) && slots[k] != sender
                && importing[k] == null && (slots[k] == null || slots[k].configEpoch < epoch)
    {
    }

    /** And what the results say: all of it can be read off the two tables. */
    static lemma LossesInPlainTerms(before: seq<ClusterNode?>, after: seq<ClusterNode?>, taken: set<nat>, sender: ClusterNode,
                                    me: ClusterNode, keys: set<nat>, purged: seq<nat>)
      requires |after| == |before| && forall k :: 0 <= k < |before| ==> after[k] == if k in taken then sender else before[k]
      requires forall k :: 0 <= k < |before| && k in taken ==> before[k] != sender && sender != me
      requires Purges(before, taken, me, keys, purged)
      ensures forall k :: k in purged <==> 0 <= k < |before| && k in keys && before[k] == me && after[k] != me
    {
    }

    /** clusterUpdateSlotsConfigWith. It follows a null pointer exactly when a slave that knows no master
        sees an unassigned slot taken. */
    method UpdateSlotsConfigWith(sender: ClusterNode, epoch: nat, claims: seq<bv8>, keys: set<nat>)
      returns (crashed: bool, demoted: bool, purged: seq<nat>)
      requires Valid() && sender in nodes && sender.master && |claims| == slotBytes
      modifies slots, nodes`numslots, Bitmaps()
      modifies nodes`slaves, myself`slaveof, myself`master, myself`slave, importing, migrating
      ensures Valid()
      ensures forall k :: 0 <= k < slots.Length ==>
                slots[k] == if sender != myself && k in Members(claims) && old(slots[k]) != sender && old(importing[k]) == null
                               && old(slots[k] == null || slots[k].configEpoch < epoch) then sender else old(slots[k])
      ensures crashed <==>
                && old(!myself.master && myself.slaveof == null)
                && exists k :: 0 <= k < slots.Length && old(slots[k]) == null && slots[k] == sender
      ensures var shard := old(if myself.master then myself else myself.slaveof);
              demoted <==>
                && !crashed && (exists k :: 0 <= k < slots.Length && old(slots[k]) == shard && slots[k] != shard)
                && forall k :: 0 <= k < slots.Length ==> slots[k] != shard
      ensures if demoted then myself.slave && !myself.master && myself.slaveof == sender
              else myself.master == old(myself.master) && myself.slave == old(myself.slave) && myself.slaveof == old(myself.slaveof)
      ensures if demoted && old(myself.master) then forall k :: 0 <= k < slots.Length ==> importing[k] == null && migrating[k] == null
              else importing[..] == old(importing[..]) && migrating[..] == old(migrating[..])
      ensures forall k :: k in purged <==>
                && !crashed && !demoted && 0 <= k < slots.Length && k in keys && old(slots[k]) == myself && slots[k] != myself
    {
      ghost var before, taken := slots[..], Taken(sender, epoch, claims);
      TakenInPlainTerms(sender, epoch, claims);
      crashed, demoted, purged := UpdateSlots(sender, epoch, claims, keys);
      if !crashed && !demoted {
        LossesInPlainTerms(before, slots[..], taken, sender, myself, keys, purged);
      }
    }

    /** The demotion: our master, or we ourselves, have just lost the last slot to `sender`. */
    method Demote(curmaster: ClusterNode, sender: ClusterNode)
      requires Valid() && sender in nodes && sender != myself && curmaster == CurMaster() && curmaster.numslots == 0
      modifies nodes`slaves, myself`slaveof, myself`master, myself`slave, importing, migrating
      ensures Valid() && myself.slaveof == sender && myself.slave && !myself.master
      ensures if old(myself.master) then NoOpenSlots() else OpenSlotsKept()
    {
      SetMaster(sender);
    }

    /** clusterFailoverReplaceYourMaster: promote ourselves and take exactly the old master's slots. */
    method FailoverReplaceYourMaster() returns (done: bool)
      requires Valid()
      modifies slots, nodes`numslots, Bitmaps(), nodes`slaves, myself`slaveof, myself`master, myself`slave
      ensures Valid()
      ensures done <==> !old(myself.master) && old(myself.slaveof) != null
      ensures if done then myself.master && !myself.slave && myself.slaveof == null
              else myself.master == old(myself.master) && myself.slave == old(myself.slave) && myself.slaveof == old(myself.slaveof)
      ensures forall k :: 0 <= k < slots.Length ==>
                slots[k] == if done && old(slots[k]) == old(myself.slaveof) then myself else old(slots[k])
    {
      var oldmaster := myself.slaveof;
      if myself.master || oldmaster == null {
        return false;
      }
      SetNodeAsMaster(myself);
      TakeOver(oldmaster);
      return true;
    }

    /** The loop of the above: claim every slot in the old master's bitmap. */
    method TakeOver(oldmaster: ClusterNode)
      requires Valid() && myself.master && oldmaster in nodes
      modifies slots, nodes`numslots, Bitmaps()
      ensures Valid()
      ensures forall k :: 0 <= k < slots.Length ==> slots[k] == if old(slots[k]) == oldmaster then myself else old(slots[k])
    {
      var j := 0;
      while j < slots.Length
        invariant 0 <= j <= slots.Length && Views()
        invariant forall k :: 0 <= k < slots.Length ==>
            slots[k] == if k < j && old(slots[k]) == oldmaster then myself else old(slots[k])
      {
        var bit := TestBit(oldmaster.bitmap, j);
        if bit {
          Rebind(j, myself);
        }
        j := j + 1;
      }
      GraphFramed();
      SlavesGainNothing(myself);
    }

    /** Strip a master of its slots. */
    method ReleaseSlots(n: ClusterNode)
      requires Valid() && n in nodes && !n.slave
      modifies slots, nodes`numslots, Bitmaps()
      ensures Valid() && n.numslots == 0
      ensures forall k :: 0 <= k < slots.Length ==> slots[k] == if old(slots[k]) == n then null else old(slots[k])
    {
      DelNodeSlots(n);
      GraphFramed();
      SlavesGainNothing(n);
      NoSlotsIffZero(n);
    }

    /** A master that now reports itself a slave gives up its slots first. */
    method TurnIntoSlave(n: ClusterNode)
      requires Valid() && n in nodes && n.master
      modifies slots, nodes`numslots, Bitmaps(), n`master, n`slave
      ensures Valid() && n.slave && !n.master
      ensures forall k :: 0 <= k < slots.Length ==> slots[k] == if old(slots[k]) == n then null else old(slots[k])
    {
      ReleaseSlots(n);
      BecomeSlave(n);
    }

    /** A slave changes masters. */
    method Follow(s: ClusterNode, master: ClusterNode)
      requires Valid() && s in nodes && s.slave && master in nodes
      modifies nodes`slaves, s`slaveof
      ensures Valid() && s.slaveof == master
    {
      if s.slaveof != master {
        Attach(s, master);
      }
    }

    /** A sender that names itself a slave. */
    method HearSlave(sender: ClusterNode, master: ClusterNode?)
      requires Valid() && sender in nodes && (sender.master || sender.slave) && (master != null ==> master in nodes)
      modifies slots, nodes`numslots, Bitmaps(), nodes`slaves, sender`slaveof, sender`master, sender`slave
      ensures Valid() && sender.slave && sender.slaveof == if master != null then master else old(sender.slaveof)
      ensures forall k :: 0 <= k < slots.Length ==> slots[k] == if old(slots[k]) == sender then null else old(slots[k])
    {
      if sender.master {
        TurnIntoSlave(sender);
      } else {
        NoSlotsIffZero(sender);
      }
      if master != null {
        Follow(sender, master);
      }
    }

    /** The role switch read off a packet header: no `slaveof` means master. */
    method SwitchRole(sender: ClusterNode, isMaster: bool, master: ClusterNode?)
      requires Valid() && sender in nodes && (sender.master || sender.slave) && (master != null ==> master in nodes)
      modifies slots, nodes`numslots, Bitmaps(), nodes`slaves, sender`slaveof, sender`master, sender`slave
      ensures Valid()
      ensures if isMaster then sender.master && sender.slaveof == null
              else sender.slave && sender.slaveof == if master != null then master else old(sender.slaveof)
      ensures forall k :: 0 <= k < slots.Length ==>
                slots[k] == if !isMaster && old(slots[k]) == sender then null else old(slots[k])
    {
      if isMaster {
        SetNodeAsMaster(sender);
      } else {
        HearSlave(sender, master);
      }
    }
  }
}
