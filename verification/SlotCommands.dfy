/** CLUSTER ADDSLOTS, DELSLOTS and SETSLOT NODE. */
module SlotCommands {
  import opened Bitmap
  import opened ClusterNodes
  import opened SlotTable
  import opened Clusters
  import opened Epochs
  import opened Membership

  datatype Reply = Ok | BadSlot | Busy(slot: nat) | Unassigned(slot: nat) | Twice(slot: nat)

  /** What is wrong with the i-th argument of ADDSLOTS or DELSLOTS, if anything. */
  function Fault(owned: seq<ClusterNode?>, args: seq<int>, i: nat, del: bool): Reply
    requires i < |args|
  {
    var slot := args[i];
    if !(0 <= slot < |owned|) then BadSlot
    else if del && owned[slot] == null then Unassigned(slot)
    else if !del && owned[slot] != null then Busy(slot)
    else if slot in args[..i] then Twice(slot)
    else Ok
  }

  ghost predicate Accepted(owned: seq<ClusterNode?>, args: seq<int>, del: bool) {
    forall i :: 0 <= i < |args| ==> Fault(owned, args, i, del) == Ok
  }

  /** The first faulty argument decides the error. */
  ghost predicate Refused(owned: seq<ClusterNode?>, args: seq<int>, del: bool, reply: Reply) {
    exists i :: 0 <= i < |args| && Fault(owned, args, i, del) == reply && reply != Ok && forall k :: 0 <= k < i ==>
        Fault(owned, args, k, del) == Ok
  }

  predicate InRange(args: seq<int>, n: nat) {
    forall i :: 0 <= i < |args| ==> 0 <= args[i] < n
  }

  /** The first pass: nothing is changed; `seen` marks the slots to act on. */
  method CheckSlots(owned: array<ClusterNode?>, args: seq<int>, del: bool) returns (reply: Reply, seen: array<nat>)
    ensures fresh(seen) && seen.Length == owned.Length
    ensures if reply == Ok then Accepted(owned[..], args, del) else Refused(owned[..], args, del, reply)
    ensures reply == Ok ==> InRange(args, owned.Length) && forall k :: 0 <= k < seen.Length ==>
        seen[k] == if k in args then 1 else 0
  {
    seen := new nat[owned.Length](_ => 0);
    var j := 0;
    while j < |args|
      invariant 0 <= j <= |args|
      invariant InRange(args[..j], owned.Length)
      invariant forall i :: 0 <= i < j ==> Fault(owned[..], args, i, del) == Ok
      invariant forall k :: 0 <= k < seen.Length ==> seen[k] == if k in args[..j] then 1 else 0
    {
      var slot := args[j];
      assert args[..j + 1] == args[..j] + [slot];
      ghost var fault := Fault(owned[..], args, j, del);
      if slot < 0 || slot >= owned.Length {
        assert fault == BadSlot;
        return BadSlot, seen;
      }
      if del && owned[slot] == null {
        assert fault == Unassigned(slot);
        return Unassigned(slot), seen;
      } else if !del && owned[slot] != null {
        assert fault == Busy(slot);
        return Busy(slot), seen;
      }
      seen[slot] := seen[slot] + 1;
      if seen[slot] - 1 == 1 {
        assert fault == Twice(slot);
        return Twice(slot), seen;
      }
      j := j + 1;
    }
    assert args[..j] == args;
    reply := Ok;
  }

  /** One accepted slot: the import, if any, is closed, and the slot changes hands. */
  method ActOnSlot(c: Cluster, slot: nat, del: bool)
    requires c.Shape() && c.Views() && slot < c.slots.Length && (del <==> c.slots[slot] != null)
    modifies c.slots, c.importing, c.nodes`numslots, c.Bitmaps()
    ensures c.Views()
    ensures c.slots[..] == old(c.slots[..])[slot := if del then null else c.myself]
    ensures c.importing[..] == old(c.importing[..])[slot := null]
  {
    if c.importing[slot] != null {
      c.importing[slot] := null;
    }
    var ok;
    if del {
      ok := c.DelSlot(slot);
    } else {
      ok := c.AddSlot(c.myself, slot);
    }
    assert ok;  // the server's own assertion
  }

  /** The second pass. */
  method ActOnSlots(c: Cluster, marked: array<nat>, del: bool)
    requires c.Shape() && c.Views() && marked.Length == c.slots.Length
    requires forall k :: 0 <= k < marked.Length && marked[k] != 0 ==> (del <==> c.slots[k] != null)
    modifies c.slots, c.importing, c.nodes`numslots, c.Bitmaps()
    ensures c.Views()
    ensures forall k :: 0 <= k < c.slots.Length ==>
              c.slots[k] == if old(marked[k]) == 0 then old(c.slots[k]) else if del then null else c.myself
    ensures forall k :: 0 <= k < c.slots.Length ==>
        c.importing[k] == if old(marked[k]) == 0 then old(c.importing[k]) else null
  {
    ghost var slots, importing, marks := c.slots[..], c.importing[..], marked[..];
    var j := 0;
    while j < c.slots.Length
      invariant 0 <= j <= c.slots.Length && c.Views() && marked[..] == marks
      invariant forall k :: 0 <= k < c.slots.Length ==>
                  c.slots[k] == if k >= j || marks[k] == 0 then slots[k] else if del then null else c.myself
      invariant forall k :: 0 <= k < c.slots.Length ==>
          c.importing[k] == if k >= j || marks[k] == 0 then importing[k] else null
    {
      if marked[j] != 0 {
        ActOnSlot(c, j, del);
      }
      j := j + 1;
    }
  }

  /** Both passes. */
  method ChangeSlots(c: Cluster, args: seq<int>, del: bool) returns (reply: Reply)
    requires c.Shape() && c.Views() && args != []
    modifies c.slots, c.importing, c.nodes`numslots, c.Bitmaps()
    ensures c.Views()
    ensures if reply == Ok then Accepted(old(c.slots[..]), args, del) else Refused(old(c.slots[..]), args, del, reply)
    ensures forall k :: 0 <= k < c.slots.Length ==>
              c.slots[k] == if reply != Ok || k !in args then old(c.slots[k]) else if del then null else c.myself
    ensures forall k :: 0 <= k < c.slots.Length ==>
              c.importing[k] == if reply != Ok || k !in args then old(c.importing[k]) else null
    ensures reply == Ok ==> InRange(args, c.slots.Length)
  {
    var marked;
    reply, marked := CheckSlots(c.slots, args, del);
    if reply == Ok {
      forall k | 0 <= k < marked.Length && marked[k] != 0 ensures del <==> c.slots[k] != null {
        var i :| 0 <= i < |args| && args[i] == k;
        assert Fault(c.slots[..], args, i, del) == Ok;
      }
      ActOnSlots(c, marked, del);
    }
  }

  /** What is accepted, in plain terms. */
  lemma AcceptedInPlainTerms(owned: seq<ClusterNode?>, args: seq<int>, del: bool)
    ensures Accepted(owned, args, del) <==>
              forall i :: 0 <= i < |args| ==>
                0 <= args[i] < |owned| && (del <==> owned[args[i]] != null) && forall k :: 0 <= k < i ==> args[k] != args[i]
  {
    if Accepted(owned, args, del) {
      forall i | 0 <= i < |args|
        ensures 0 <= args[i] < |owned| && (del <==> owned[args[i]] != null) && forall k :: 0 <= k < i ==> args[k] != args[i]
      {
        assert Fault(owned, args, i, del) == Ok;
        assert forall k :: 0 <= k < i ==> args[k] == args[..i][k];
      }
    } else {
      var i :| 0 <= i < |args| && Fault(owned, args, i, del) != Ok;
      if args[i] in args[..i] {
        var k :| 0 <= k < i && args[..i][k] == args[i];
      }
    }
  }

  /** What the errors mean, `i` being the argument that is blamed. */
  ghost predicate Blames(owned: seq<ClusterNode?>, args: seq<int>, del: bool, reply: Reply, i: nat)
    requires i < |args|
  {
    match reply
    case Ok => false
    case BadSlot => !(0 <= args[i] < |owned|)
    case Busy(s) => !del && args[i] == s && s < |owned| && owned[s] != null
    case Unassigned(s) => del && args[i] == s && s < |owned| && owned[s] == null
    case Twice(s) => args[i] == s && s < |owned| && (del <==> owned[s] != null) && exists k :: 0 <= k < i && args[k] == s
  }

  lemma RefusedInPlainTerms(owned: seq<ClusterNode?>, args: seq<int>, del: bool, reply: Reply) returns (i: nat)
    requires Refused(owned, args, del, reply)
    ensures i < |args| && Blames(owned, args, del, reply, i) && Accepted(owned, args[..i], del)
  {
    i :| 0 <= i < |args| && Fault(owned, args, i, del) == reply && reply != Ok
         && forall k :: 0 <= k < i ==> Fault(owned, args, k, del) == Ok;
    if reply.Twice? {
      var k :| 0 <= k < i && args[..i][k] == args[i];
      assert args[k] == args[i] == reply.slot;
    }
    forall k | 0 <= k < i ensures Fault(owned, args[..i], k, del) == Ok {
      assert Fault(owned, args, k, del) == Ok && args[..i][..k] == args[..k];
    }
  }

  /** ADDSLOTS and DELSLOTS: all the slots named, or none. They are accepted exactly if every slot is in
      range, is taken or free as needed, and is named once. */
  method AddOrDelSlots(c: Cluster, args: seq<int>, del: bool) returns (reply: Reply)
    requires c.Shape() && c.Views() && args != []
    modifies c.slots, c.importing, c.nodes`numslots, c.Bitmaps()
    ensures c.Views()
    ensures if reply == Ok then Accepted(old(c.slots[..]), args, del) else Refused(old(c.slots[..]), args, del, reply)
    ensures forall k :: 0 <= k < c.slots.Length ==>
              c.slots[k] == if reply != Ok || k !in args then old(c.slots[k]) else if del then null else c.myself
    ensures forall k :: 0 <= k < c.slots.Length ==>
              c.importing[k] == if reply != Ok || k !in args then old(c.importing[k]) else null
    ensures reply == Ok ==> InRange(args, c.slots.Length)
    ensures reply == Ok <==>
              forall i :: 0 <= i < |args| ==>
                0 <= args[i] < c.slots.Length && (del <==> old(c.slots[..])[args[i]] != null)
                && forall k :: 0 <= k < i ==> args[k] != args[i]
    ensures reply != Ok ==>
              exists i :: 0 <= i < |args| && Blames(old(c.slots[..]), args, del, reply, i)
                && forall k :: 0 <= k < i ==> 0 <= args[k] < c.slots.Length && (del <==> old(c.slots[..])[args[k]] != null)
                                              && forall l :: 0 <= l < k ==> args[l] != args[k]
  {
    ghost var owned := c.slots[..];
    AcceptedInPlainTerms(owned, args, del);
    reply := ChangeSlots(c, args, del);
    if reply != Ok {
      ghost var i := RefusedInPlainTerms(owned, args, del, reply);
      GoodSoFar(owned, args, del, i);
      RefusedIsNotAccepted(owned, args, del, reply);
    }
  }

  lemma GoodSoFar(owned: seq<ClusterNode?>, args: seq<int>, del: bool, i: nat)
    requires i < |args| && Accepted(owned, args[..i], del)
    ensures forall k :: 0 <= k < i ==>
              0 <= args[k] < |owned| && (del <==> owned[args[k]] != null) && forall l :: 0 <= l < k ==> args[l] != args[k]
  {
    AcceptedInPlainTerms(owned, args[..i], del);
    forall k | 0 <= k < i
      ensures 0 <= args[k] < |owned| && (del <==> owned[args[k]] != null) && forall l :: 0 <= l < k ==> args[l] != args[k]
    {
      assert args[..i][k] == args[k];
      assert forall l :: 0 <= l < k ==> args[..i][l] == args[l];
    }
  }

  lemma RefusedIsNotAccepted(owned: seq<ClusterNode?>, args: seq<int>, del: bool, reply: Reply)
    requires Refused(owned, args, del, reply)
    ensures !Accepted(owned, args, del)
  {
  }

  /** Neither command looks at our role. They keep the rule that slaves own nothing exactly
      when slots are being deleted or we are no slave. */
  twostate lemma OnlyMastersMayAdd(c: Cluster, args: seq<int>, del: bool)
    requires old(c.Shape() && c.Views() && c.SlavesOwnNothing()) && c.Shape() && c.Views()
    requires c.nodes == old(c.nodes) && c.myself == old(c.myself) && forall n | n in c.nodes :: n.slave == old(n.slave)
    requires args != [] && InRange(args, c.slots.Length)
    requires forall k :: 0 <= k < c.slots.Length ==>
               c.slots[k] == if k !in args then old(c.slots[k]) else if del then null else c.myself
    ensures c.SlavesOwnNothing() <==> del || !c.myself.slave
  {
    if !del {
      assert c.slots[..][args[0]] == c.myself;
      c.NoSlotsIffZero(c.myself);
    }
    if del || !c.myself.slave {
      forall n | n in c.nodes && n.slave ensures n.numslots == 0 {
        c.NoSlotsIffZero(n);
        assert old(n.Bits()) == {};
        forall k | 0 <= k < c.slots.Length ensures c.slots[..][k] != n {
          assert k !in Owned(old(c.slots[..]), n);
        }
      }
    }
  }

  // -------------------------------------------------------------------- SETSLOT NODE

  datatype SetReply = Done | OnlyMasters | InvalidSlot | UnknownNode | StillHoldsKeys

  /** Our configEpoch is not yet a greatest one of its own. */
  predicate NeedsBump(c: Cluster)
    reads c, c.myself
  {
    c.myself.configEpoch == 0 || c.myself.configEpoch < c.currentEpoch
  }

  /** Close an import: a new configEpoch, without consensus, announces the new owner. */
  method CloseImport(c: Cluster, slot: nat)
    requires c.Shape() && EpochsOk(c) && slot < c.slots.Length
    modifies c.importing, c`currentEpoch, c.myself`configEpoch
    ensures EpochsOk(c) && c.importing[..] == old(c.importing[..])[slot := null]
    ensures var bumped := old(c.importing[slot] != null && NeedsBump(c));
            && c.currentEpoch == old(c.currentEpoch) + (if bumped then 1 else 0)
            && c.myself.configEpoch == if bumped then c.currentEpoch else old(c.myself.configEpoch)
  {
    if c.importing[slot] != null {
      var _ := BumpConfigEpoch(c);
      c.importing[slot] := null;
    }
  }

  /** The slot's migration ends if no key is left, its import if it is for us. */
  method SettleSlot(c: Cluster, slot: nat, n: ClusterNode, keys: nat)
    requires c.Shape() && c.Views() && EpochsOk(c) && slot < c.slots.Length
    modifies c.importing, c.migrating, c`currentEpoch, c.myself`configEpoch
    ensures c.Views() && EpochsOk(c)
    ensures c.migrating[..] == old(c.migrating[..])[slot := if keys == 0 then null else old(c.migrating[slot])]
    ensures c.importing[..] == old(c.importing[..])[slot := if n == c.myself then null else old(c.importing[slot])]
    ensures var bumped := n == c.myself && old(c.importing[slot] != null && NeedsBump(c));
            && c.currentEpoch == old(c.currentEpoch) + (if bumped then 1 else 0)
            && c.myself.configEpoch == if bumped then c.currentEpoch else old(c.myself.configEpoch)
  {
    if keys == 0 && c.migrating[slot] != null {
      c.migrating[slot] := null;
    }
    if n == c.myself {
      CloseImport(c, slot);
    }
  }

  /** And the slot goes to `n`. */
  method AssignSlot(c: Cluster, slot: nat, n: ClusterNode, keys: nat)
    requires c.Shape() && c.Views() && EpochsOk(c) && n in c.nodes && slot < c.slots.Length
    modifies c.slots, c.importing, c.migrating, c.nodes`numslots, c.Bitmaps(), c`currentEpoch, c.myself`configEpoch
    ensures c.Views() && EpochsOk(c) && c.slots[..] == old(c.slots[..])[slot := n]
    ensures c.migrating[..] == old(c.migrating[..])[slot := if keys == 0 then null else old(c.migrating[slot])]
    ensures c.importing[..] == old(c.importing[..])[slot := if n == c.myself then null else old(c.importing[slot])]
    ensures var bumped := n == c.myself && old(c.importing[slot] != null && NeedsBump(c));
            && c.currentEpoch == old(c.currentEpoch) + (if bumped then 1 else 0)
            && c.myself.configEpoch == if bumped then c.currentEpoch else old(c.myself.configEpoch)
  {
    SettleSlot(c, slot, n, keys);
    c.Rebind(slot, n);
  }

  method SetSlotNode(c: Cluster, slot: int, n: ClusterNode?, keys: nat) returns (reply: SetReply)
    requires c.Shape() && c.Views() && EpochsOk(c) && (n != null ==> n in c.nodes)
    modifies c.slots, c.importing, c.migrating, c.nodes`numslots, c.Bitmaps(), c`currentEpoch, c.myself`configEpoch
    ensures c.Views() && EpochsOk(c)
    ensures reply == if c.myself.slave then OnlyMasters else if !(0 <= slot < c.slots.Length) then InvalidSlot
                     else if n == null then UnknownNode
                     else if old(c.slots[slot]) == c.myself && n != c.myself && keys != 0 then StillHoldsKeys else Done
    ensures reply != Done ==>
        c.slots[..] == old(c.slots[..]) && c.importing[..] == old(c.importing[..]) && c.migrating[..] == old(c.migrating[..])
    ensures reply == Done ==>
              && c.slots[..] == old(c.slots[..])[slot := n]
              && c.migrating[..] == old(c.migrating[..])[slot := if keys == 0 then null else old(c.migrating[slot])]
              && c.importing[..] == old(c.importing[..])[slot := if n == c.myself then null else old(c.importing[slot])]
    ensures var bumped := reply == Done && n == c.myself && old(c.importing[slot] != null && NeedsBump(c));
            && c.currentEpoch == old(c.currentEpoch) + (if bumped then 1 else 0)
            && c.myself.configEpoch == if bumped then c.currentEpoch else old(c.myself.configEpoch)
  {
    if c.myself.slave {
      return OnlyMasters;
    }
    if slot < 0 || slot >= c.slots.Length {
      return InvalidSlot;
    }
    if n == null {
      return UnknownNode;
    }
    if c.slots[slot] == c.myself && n != c.myself && keys != 0 {
      return StillHoldsKeys;
    }
    AssignSlot(c, slot, n, keys);
    return Done;
  }

  /** SETSLOT NODE does not look at the role of the node it names: exactly a slave breaks the
      rule that slaves own nothing. */
  twostate lemma OnlyMastersMayReceive(c: Cluster, slot: nat, n: ClusterNode)
    requires old(c.Shape() && c.Views() && c.SlavesOwnNothing()) && c.Shape() && c.Views()
    requires c.nodes == old(c.nodes) && n in c.nodes && forall m | m in c.nodes :: m.slave == old(m.slave)
    requires slot < c.slots.Length && c.slots[..] == old(c.slots[..])[slot := n]
    ensures c.SlavesOwnNothing() <==> !n.slave
  {
    assert c.slots[..][slot] == n;
    c.NoSlotsIffZero(n);
    if !n.slave {
      c.SlavesGainNothing(n);
    }
  }

  // ------------------------------------------------------------------------ REPLICATE

  datatype ReplicateReply = Following | NoSuchNode | NotMyself | NotASlave | NotEmpty | Aborted

  /** Whatever we do ourselves, the slaves among the others own nothing. */
  ghost predicate OthersOwnNothing(c: Cluster)
    reads c`nodes, c`myself, c.nodes`slave, c.nodes`numslots
  {
    forall n | n in c.nodes && n != c.myself && n.slave :: n.numslots == 0
  }

  /** CLUSTER REPLICATE. It checks that a master is empty before it is turned into a slave, but no such
      thing of a slave: the server's assertion that we own no slots fails exactly for a slave with slots. */
  method Replicate(c: Cluster, n: ClusterNode?, keys: nat) returns (reply: ReplicateReply)
    requires c.Shape() && c.Views() && c.Graph() && (c.myself.master || c.myself.slave) && OthersOwnNothing(c)
    requires n != null ==> n in c.nodes
    modifies c.nodes`slaves, c.myself`slaveof, c.myself`master, c.myself`slave, c.importing, c.migrating
    ensures reply == if n == null then NoSuchNode else if n == c.myself then NotMyself else if n.slave then NotASlave
                     else if old(c.myself.master) && (c.myself.numslots != 0 || keys != 0) then NotEmpty
                     else if c.myself.numslots != 0 then Aborted else Following
    ensures reply == Aborted ==> c.myself.slave
    ensures reply == Following ==> c.Valid() && c.myself.slave && !c.myself.master && c.myself.slaveof == n
    ensures reply != Following ==> c.Shape() && c.Views() && c.Graph() && c.myself.slaveof == old(c.myself.slaveof)
                                   && c.myself.master == old(c.myself.master) && c.OpenSlotsKept()
  {
    if n == null {
      return NoSuchNode;
    }
    if n == c.myself {
      return NotMyself;
    }
    if n.slave {
      return NotASlave;
    }
    if c.myself.master && (c.myself.numslots != 0 || keys != 0) {
      return NotEmpty;
    }
    if c.myself.numslots != 0 {
      return Aborted;  // the server's own assertion
    }
    c.SetMaster(n);
    return Following;
  }

  // ------------------------------------------------------------- the gaps, in real states

  lemma AloneIsValid(c: Cluster)
    requires c.Shape() && c.Views() && c.nodes == {c.myself} && c.myself.master && !c.myself.slave
    requires c.myself.slaveof == null && c.myself.slaves == []
    requires forall k :: 0 <= k < c.slots.Length ==> c.slots[k] == null
    ensures c.Valid() && c.myself.numslots == 0
  {
    assert Owned(c.slots[..], c.myself) == {};
  }

  /** A server just started, made a slave or not. */
  method Alone(slave: bool) returns (c: Cluster)
    ensures fresh(c) && fresh(c.myself) && fresh(c.myself.bitmap) && fresh(c.slots) && fresh(c.importing) && fresh(c.migrating)
    ensures c.Valid() && c.nodes == {c.myself} && c.slotBytes == 1 && c.myself.name == 0 && c.myself.configEpoch == 0
    ensures c.myself.slave == slave && c.myself.master == !slave && c.myself.slaveof == null && c.myself.numslots == 0
    ensures forall k :: 0 <= k < c.slots.Length ==> c.slots[k] == null && c.importing[k] == null
  {
    c := new Cluster(0, 1, false);
    AloneIsValid(c);
    if slave {
      c.BecomeSlave(c.myself);
    }
  }

  /** It learns of one more node. */
  method Meet(c: Cluster, slave: bool) returns (n: ClusterNode)
    requires c.Valid() && c.nodes == {c.myself} && c.myself.name == 0
    modifies c`nodes
    ensures fresh(n) && fresh(n.bitmap) && c.Valid() && c.nodes == {c.myself, n} && n != c.myself
    ensures n.slave == slave && n.master == !slave && n.configEpoch == 0
  {
    n := new ClusterNode(1, c.slotBytes);
    n.master, n.slave := !slave, slave;
    AddNode(c, n);
  }

  /** Two nodes. */
  method Pair(mine: bool, theirs: bool) returns (c: Cluster, n: ClusterNode)
    ensures fresh(c) && fresh(c.nodes) && fresh(c.slots) && fresh(c.importing) && fresh(c.migrating) && fresh(c.Bitmaps())
    ensures c.Valid() && EpochsOk(c) && c.slotBytes == 1 && c.nodes == {c.myself, n} && n != c.myself
    ensures c.myself.slave == mine && c.myself.master == !mine && n.slave == theirs && n.master == !theirs
    ensures c.myself.slaveof == null && c.myself.numslots == 0
    ensures forall k :: 0 <= k < c.slots.Length ==> c.slots[k] == null && c.importing[k] == null
  {
    c := Alone(mine);
    n := Meet(c, theirs);
    assert c.Bitmaps() == {c.myself.bitmap, n.bitmap};
  }

  /** ADDSLOTS 0 on a slave. */
  method AddSlotZero(c: Cluster) returns (reply: Reply)
    requires c.Valid() && c.myself.slave && c.slots.Length > 0 && c.slots[0] == null
    modifies c.slots, c.importing, c.nodes`numslots, c.Bitmaps()
    ensures reply == Ok && c.Shape() && c.Views() && c.Graph() && c.slots[0] == c.myself
  {
    assert Fault(c.slots[..], [0], 0, false) == Ok;
    reply := AddOrDelSlots(c, [0], false);
  }

  /** A server that is a slave accepts ADDSLOTS 0, and serves a slot from then on. */
  method SlaveAddsSlots() returns (c: Cluster, n: ClusterNode, ghost before: bool, reply: Reply)
    ensures before && reply == Ok && c.Shape() && c.Views() && c.Graph() && !c.SlavesOwnNothing()
    ensures fresh(c) && fresh(c.nodes) && fresh(c.importing) && fresh(c.migrating)
    ensures c.nodes == {c.myself, n} && n != c.myself && c.myself.slave && c.myself.numslots != 0 && !n.slave
  {
    c, n := Pair(true, false);
    before := c.Valid();
    reply := AddSlotZero(c);
    assert c.slots[..][0] == c.myself;
    c.NoSlotsIffZero(c.myself);
  }

  /** And if it is told to replicate another node then, it aborts. */
  method SlaveAddsThenReplicates() returns (c: Cluster, reply: ReplicateReply)
    ensures reply == Aborted
  {
    var n, added;
    ghost var before;
    c, n, before, added := SlaveAddsSlots();
    reply := Replicate(c, n, 0);
  }

  /** A master accepts SETSLOT 0 NODE with the name of a slave, which serves a slot from then on. */
  method SlaveReceivesSlot() returns (c: Cluster, n: ClusterNode, ghost before: bool, reply: SetReply)
    ensures before && reply == Done && n in c.nodes && n.slave && !c.SlavesOwnNothing()
  {
    c, n := Pair(false, true);
    before := c.Valid();
    reply := SetSlotNode(c, 0, n, 0);
    assert c.slots[..][0] == n;
    c.NoSlotsIffZero(n);
  }

  lemma TakesFreeSlot(c: Cluster, n: ClusterNode)
    requires c.Shape() && c.Views() && c.slotBytes == 1 && n != c.myself && c.slots[0] == null && c.importing[0] == null
    ensures 0 in c.Taken(n, 1, [1])
  {
    assert BitAt([1], 0);
  }

  /** A slave that knows no master hears a claim to a slot nobody serves, and follows a null pointer. */
  method OrphanHearsClaim() returns (c: Cluster, ghost before: bool, crashed: bool)
    ensures before && c.myself.slave && c.CurMaster() == null && crashed
  {
    var n, demoted, purged;
    c, n := Pair(true, false);
    before := c.Valid();
    TakesFreeSlot(c, n);
    assert c.slots[..][0] == null;
    crashed, demoted, purged := c.UpdateSlotsConfigWith(n, 1, [1], {});
  }
}
