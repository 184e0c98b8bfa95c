/** What one node does with a packet from a node it knows (clusterProcessPacket). */
module Packets {
  import opened Bitmap
  import opened ClusterNodes
  import opened SlotTable
  import opened Clusters
  import opened Epochs
  import opened EpochRules

  /** The part of a ping, pong or update that is about slots. */
  datatype Claim = Claim(epoch: nat, slots: seq<bv8>)

  /** The sender claims this slot, but its owner here goes by a greater configEpoch. */
  predicate Outdated(c: Cluster, sender: ClusterNode, claim: Claim, slot: nat)
    reads c.slots, (if slot < c.slots.Length && c.slots[slot] != null then {c.slots[slot]} else {})`configEpoch
    requires |claim.slots| == c.slotBytes && slot < c.slots.Length == 8 * c.slotBytes
  {
    BitAt(claim.slots, slot) && c.slots[slot] != sender && c.slots[slot] != null && c.slots[slot].configEpoch > claim.epoch
  }

  /** The node to tell the sender about, if any: the owner of the first slot it is wrong about. */
  method FindNewerOwner(c: Cluster, sender: ClusterNode, claim: Claim) returns (owner: ClusterNode?, slot: nat)
    requires c.Shape() && |claim.slots| == c.slotBytes
    ensures owner == null <==> forall k :: 0 <= k < c.slots.Length ==> !Outdated(c, sender, claim, k)
    ensures owner != null ==> slot < c.slots.Length && c.slots[slot] == owner && Outdated(c, sender, claim, slot)
                              && forall k :: 0 <= k < slot ==> !Outdated(c, sender, claim, k)
  {
    owner, slot := null, 0;
    while slot < c.slots.Length
      invariant slot <= c.slots.Length && forall k :: 0 <= k < slot ==> !Outdated(c, sender, claim, k)
    {
      if BitAt(claim.slots, slot) && c.slots[slot] != sender && c.slots[slot] != null && c.slots[slot].configEpoch > claim.epoch {
        assert Outdated(c, sender, claim, slot);
        return c.slots[slot], slot;
      }
      slot := slot + 1;
    }
  }

  /** A claim equal to the bitmap on record takes nothing, so there is nothing to scan for. */
  lemma EqualBitmapsTakeNothing(c: Cluster, sender: ClusterNode, claim: Claim, slot: nat)
    requires c.Shape() && c.Views() && sender in c.nodes && slot < c.slots.Length
    requires claim.slots == sender.bitmap[..]
    ensures !c.Takes(sender, claim.epoch, claim.slots, slot)
  {
    assert slot in sender.Bits() <==> slot in Owned(c.slots[..], sender);
  }

  /** A slave has to know its master before it can take part in slot updates. */
  ghost predicate Ready(c: Cluster)
    reads c`nodes, c`myself, c.myself`master, c.myself`slave, c.myself`slaveof, c.slots, c.Bitmaps()
    reads c.nodes`numslots, c.nodes`slaves, c.nodes`slaveof, c.nodes`master, c.nodes`slave
  {
    c.Valid() && (c.myself.slave ==> c.myself.slaveof != null)
  }

  /** What a claim is judged by and what it may change: the slot tables, our own role, and the slots it
      is going to take. */
  datatype Before = Before(slots: seq<ClusterNode?>, importing: seq<ClusterNode?>, migrating: seq<ClusterNode?>,
                           me: ClusterNode, master: bool, slave: bool, slaveof: ClusterNode?, taken: set<nat>)
  {
    function CurMaster(): ClusterNode? {
      if master then me else slaveof
    }
  }

  ghost function Now(c: Cluster, sender: ClusterNode, claim: Claim): Before
    requires c.Shape() && c.Views() && |claim.slots| == c.slotBytes
    reads c`nodes, c`myself, c.nodes`configEpoch, c.slots, c.importing, c.migrating, c.nodes`numslots, c.Bitmaps()
    reads c.myself`master, c.myself`slave, c.myself`slaveof
  {
    Before(c.slots[..], c.importing[..], c.migrating[..], c.myself, c.myself.master, c.myself.slave, c.myself.slaveof,
           c.Taken(sender, claim.epoch, claim.slots))
  }

  /** Our role: the sender's slave if it demoted us, and then nothing is open any more if we were a
      master; else what it was. */
  ghost predicate RoleIs(c: Cluster, was: Before, sender: ClusterNode, demoted: bool)
    reads c`myself, c.myself`master, c.myself`slave, c.myself`slaveof, c.importing, c.migrating
  {
    && c.myself == was.me
    && (if demoted then c.myself.slave && !c.myself.master && c.myself.slaveof == sender
        else c.myself.master == was.master && c.myself.slave == was.slave && c.myself.slaveof == was.slaveof)
    && if demoted && was.master then c.NoOpenSlots() else c.importing[..] == was.importing && c.migrating[..] == was.migrating
  }

  /** A claim has been acted on: the slots it takes are the sender's now, the others are where they
      were; we follow the sender iff it took our shard's last slot; else the keys to delete are those
      of the slots that it took from us. */
  ghost predicate ClaimApplied(c: Cluster, was: Before, sender: ClusterNode, keys: set<nat>, demoted: bool, purged: seq<nat>)
    reads c`myself, c.myself`master, c.myself`slave, c.myself`slaveof, c.slots, c.importing, c.migrating
  {
    && |was.slots| == c.slots.Length && c.Gone(was.slots, sender, was.taken, c.slots.Length)
    && (demoted <==> Cluster.Emptied(was.slots, c.slots[..], was.CurMaster()))
    && RoleIs(c, was, sender, demoted)
    && if demoted then purged == [] else Cluster.Purges(was.slots, was.taken, was.me, keys, purged)
  }

  /** Someone who is not nobody does not follow nobody's pointer. */
  lemma ReadyFollows(c: Cluster, taken: set<nat>)
    requires Ready(c)
    ensures !c.FollowsNull(c.slots[..], taken, c.CurMaster())
  {
  }

  /** Step 1 of handling a master's slots: act on the claim unless the bitmaps are equal. */
  method TakeClaim(c: Cluster, sender: ClusterNode, claim: Claim, keys: set<nat>)
    returns (dirty: bool, demoted: bool, purged: seq<nat>)
    requires Ready(c) && sender in c.nodes && sender != c.myself && sender.master && sender.slaveof == null
    requires |claim.slots| == c.slotBytes
    modifies c.slots, c.nodes`numslots, c.Bitmaps(), c.nodes`slaves
    modifies c.myself`slaveof, c.myself`master, c.myself`slave, c.importing, c.migrating
    ensures Ready(c) && sender.master && sender.slaveof == null
    ensures ClaimApplied(c, old(Now(c, sender, claim)), sender, keys, demoted, purged)
    ensures !dirty ==> sender.bitmap[..] == claim.slots
  {
    dirty, demoted, purged := sender.bitmap[..] != claim.slots, false, [];
    if dirty {
      ReadyFollows(c, c.Taken(sender, claim.epoch, claim.slots));
      var crashed;
      crashed, demoted, purged := c.UpdateSlots(sender, claim.epoch, claim.slots, keys);
    } else {
      forall k | 0 <= k < c.slots.Length ensures !c.Takes(sender, claim.epoch, claim.slots, k) {
        EqualBitmapsTakeNothing(c, sender, claim, k);
      }
    }
  }

  /** Nor is there anything to tell its sender. */
  lemma EqualBitmapsAreUpToDate(c: Cluster, sender: ClusterNode, claim: Claim, slot: nat)
    requires c.Shape() && c.Views() && sender in c.nodes && slot < c.slots.Length
    requires claim.slots == sender.bitmap[..]
    ensures !Outdated(c, sender, claim, slot)
  {
    assert slot in sender.Bits() <==> slot in Owned(c.slots[..], sender);
  }

  /** The node to tell the sender about: some owner it is behind on, or nobody if there is none. */
  ghost predicate IsNews(c: Cluster, sender: ClusterNode, claim: Claim, newer: ClusterNode?)
    requires |claim.slots| == c.slotBytes && c.slots.Length == 8 * c.slotBytes
    reads c.slots, (set k | 0 <= k < c.slots.Length && c.slots[k] != null :: c.slots[k])`configEpoch
  {
    if newer == null then forall k :: 0 <= k < c.slots.Length ==> !Outdated(c, sender, claim, k)
    else exists k :: 0 <= k < c.slots.Length && Outdated(c, sender, claim, k) && c.slots[k] == newer
  }

  /** Step 2: once the claim is in, look for a node the sender should hear about. */
  method FindNews(c: Cluster, sender: ClusterNode, claim: Claim, dirty: bool) returns (newer: ClusterNode?)
    requires c.Shape() && c.Views() && sender in c.nodes && |claim.slots| == c.slotBytes
    requires !dirty ==> claim.slots == sender.bitmap[..]
    ensures IsNews(c, sender, claim, newer)
  {
    newer := null;
    if dirty {
      var slot;
      newer, slot := FindNewerOwner(c, sender, claim);
    } else {
      forall k | 0 <= k < c.slots.Length ensures !Outdated(c, sender, claim, k) {
        EqualBitmapsAreUpToDate(c, sender, claim, k);
      }
    }
  }

  /** Both steps, for a node known to be a master. */
  method MasterClaims(c: Cluster, sender: ClusterNode, claim: Claim, keys: set<nat>)
    returns (demoted: bool, purged: seq<nat>, newer: ClusterNode?)
    requires Ready(c) && sender in c.nodes && sender != c.myself && sender.master && sender.slaveof == null
    requires |claim.slots| == c.slotBytes
    modifies c.slots, c.nodes`numslots, c.Bitmaps(), c.nodes`slaves
    modifies c.myself`slaveof, c.myself`master, c.myself`slave, c.importing, c.migrating
    ensures Ready(c) && sender.master && sender.slaveof == null && IsNews(c, sender, claim, newer)
    ensures ClaimApplied(c, old(Now(c, sender, claim)), sender, keys, demoted, purged)
  {
    var dirty;
    dirty, demoted, purged := TakeClaim(c, sender, claim, keys);
    newer := FindNews(c, sender, claim, dirty);
  }

  /** A ping from a node that says it is a master: its role first. */
  method HearMaster(c: Cluster, sender: ClusterNode, claim: Claim)
    requires Ready(c) && sender in c.nodes && sender != c.myself && |claim.slots| == c.slotBytes
    modifies c.nodes`slaves, sender`slaveof, sender`master, sender`slave
    ensures Ready(c) && sender.master && sender.slaveof == null && Now(c, sender, claim) == old(Now(c, sender, claim))
  {
    c.SetNodeAsMaster(sender);
  }

  /** Then its slots, and what it should know. */
  method PingFromMaster(c: Cluster, sender: ClusterNode, claim: Claim, keys: set<nat>)
    returns (demoted: bool, purged: seq<nat>, newer: ClusterNode?)
    requires Ready(c) && sender in c.nodes && sender != c.myself && |claim.slots| == c.slotBytes
    modifies c.slots, c.nodes`numslots, c.Bitmaps(), c.nodes`slaves, sender`slaveof, sender`master, sender`slave
    modifies c.myself`slaveof, c.myself`master, c.myself`slave, c.importing, c.migrating
    ensures Ready(c) && sender.master && sender.slaveof == null
    ensures ClaimApplied(c, old(Now(c, sender, claim)), sender, keys, demoted, purged) && IsNews(c, sender, claim, newer)
  {
    HearMaster(c, sender, claim);
    demoted, purged, newer := MasterClaims(c, sender, claim, keys);
  }

  /** A ping from a node that says it is a slave carries its master's slots: nothing is rebound. */
  method PingFromSlave(c: Cluster, sender: ClusterNode, master: ClusterNode?, claim: Claim) returns (newer: ClusterNode?)
    requires Ready(c) && sender in c.nodes && sender != c.myself && (sender.master || sender.slave)
    requires (master != null ==> master in c.nodes) && |claim.slots| == c.slotBytes
    modifies c.slots, c.nodes`numslots, c.Bitmaps(), c.nodes`slaves, sender`slaveof, sender`master, sender`slave
    ensures Ready(c) && sender.slave && sender.slaveof == if master != null then master else old(sender.slaveof)
    ensures forall k :: 0 <= k < c.slots.Length ==> c.slots[k] == if old(c.slots[k]) == sender then null else old(c.slots[k])
    ensures newer != null <==>
              && sender.slaveof != null && sender.slaveof.bitmap[..] != claim.slots
              && exists k :: 0 <= k < c.slots.Length && Outdated(c, sender, claim, k)
    ensures newer != null ==> exists k :: 0 <= k < c.slots.Length && Outdated(c, sender, claim, k) && c.slots[k] == newer
  {
    c.SwitchRole(sender, false, master);
    newer := null;
    if sender.slaveof != null && sender.slaveof.bitmap[..] != claim.slots {
      var slot;
      newer, slot := FindNewerOwner(c, sender, claim);
    }
  }

  /** What a ping, pong or meet packet says about its sender. */
  datatype Header = Header(current: nat, isMaster: bool, master: ClusterNode?, claim: Claim)

  /** A slave takes no slots; if it was a master so far, it lets go of its own. */
  ghost predicate Released(c: Cluster, before: seq<ClusterNode?>, sender: ClusterNode)
    reads c.slots
  {
    |before| == c.slots.Length && forall k :: 0 <= k < c.slots.Length ==> c.slots[k] == if before[k] == sender then null else before[k]
  }

  /** Roles and slots are what the header makes of them; `theirs` was the sender's master so far. */
  ghost predicate HeaderApplied(c: Cluster, was: Before, theirs: ClusterNode?, sender: ClusterNode, h: Header,
                                keys: set<nat>, demoted: bool, purged: seq<nat>)
    reads c`myself, c.myself`master, c.myself`slave, c.myself`slaveof, sender`master, sender`slaveof
    reads c.slots, c.importing, c.migrating
  {
    && (h.isMaster <==> sender.master)
    && sender.slaveof == (if h.isMaster then null else if h.master != null then h.master else theirs)
    && if h.isMaster then ClaimApplied(c, was, sender, keys, demoted, purged)
       else Released(c, was.slots, sender) && !demoted && purged == [] && RoleIs(c, was, sender, false)
  }

  /** Masters are told whatever they are behind on, slaves only when it is about their master's slots. */
  ghost predicate HeaderNews(c: Cluster, sender: ClusterNode, h: Header, newer: ClusterNode?)
    requires |h.claim.slots| == c.slotBytes && c.slots.Length == 8 * c.slotBytes
    reads c.slots, (set k | 0 <= k < c.slots.Length && c.slots[k] != null :: c.slots[k])`configEpoch
  {
    (newer == null && !h.isMaster) || IsNews(c, sender, h.claim, newer)
  }

  /** Putting epochs on record leaves everything else in order. */
  method TakeEpochs(c: Cluster, sender: ClusterNode, current: nat, config: nat)
    requires Ready(c) && sender in c.nodes
    modifies c`currentEpoch, sender`configEpoch
    ensures Ready(c) && (old(EpochsOk(c)) ==> (EpochsOk(c) <==> config <= c.currentEpoch))
    ensures c.currentEpoch == Max(old(c.currentEpoch), current) && sender.configEpoch == Max(old(sender.configEpoch), config)
  {
    AbsorbEpochs(c, sender, current, config);
  }

  /** The epochs go on record first; that changes neither roles nor slots nor what a claim takes. */
  method AbsorbHeader(c: Cluster, sender: ClusterNode, h: Header)
    requires Ready(c) && sender in c.nodes && |h.claim.slots| == c.slotBytes
    modifies c`currentEpoch, sender`configEpoch
    ensures Ready(c) && Now(c, sender, h.claim) == old(Now(c, sender, h.claim))
    ensures c.currentEpoch == Max(old(c.currentEpoch), h.current)
    ensures sender.configEpoch == Max(old(sender.configEpoch), h.claim.epoch)
  {
    ghost var taken := c.Taken(sender, h.claim.epoch, h.claim.slots);
    TakeEpochs(c, sender, h.current, h.claim.epoch);
    assert c.Taken(sender, h.claim.epoch, h.claim.slots) == taken;
  }

  /** The other nodes' configEpochs stay on record. */
  twostate predicate OthersKeep(nodes: set<ClusterNode>, a: ClusterNode, b: ClusterNode)
    reads nodes`configEpoch
  {
    forall n | n in nodes && n != a && n != b :: n.configEpoch == old(n.configEpoch)
  }

  twostate predicate EpochsKept(nodes: set<ClusterNode>)
    reads nodes`configEpoch
  {
    forall n | n in nodes :: n.configEpoch == old(n.configEpoch)
  }

  /** Then the roles and the slots. */
  method ApplyHeader(c: Cluster, sender: ClusterNode, h: Header, keys: set<nat>)
    returns (demoted: bool, purged: seq<nat>, newer: ClusterNode?)
    requires Ready(c) && sender in c.nodes && sender != c.myself && (sender.master || sender.slave)
    requires (h.master != null ==> h.master in c.nodes) && |h.claim.slots| == c.slotBytes
    modifies c.slots, c.nodes`numslots, c.Bitmaps(), c.nodes`slaves, sender`slaveof, sender`master, sender`slave
    modifies c.myself`slaveof, c.myself`master, c.myself`slave, c.importing, c.migrating
    ensures Ready(c) && HeaderNews(c, sender, h, newer) && EpochsKept(c.nodes)
    ensures HeaderApplied(c, old(Now(c, sender, h.claim)), old(sender.slaveof), sender, h, keys, demoted, purged)
  {
    if h.isMaster {
      demoted, purged, newer := PingFromMaster(c, sender, h.claim, keys);
    } else {
      demoted, purged := false, [];
      newer := PingFromSlave(c, sender, h.master, h.claim);
    }
  }

  /** Everything but the collision. */
  method ReceiveHeader(c: Cluster, sender: ClusterNode, h: Header, keys: set<nat>)
    returns (demoted: bool, purged: seq<nat>, newer: ClusterNode?)
    requires Ready(c) && sender in c.nodes && sender != c.myself && (sender.master || sender.slave)
    requires (h.master != null ==> h.master in c.nodes) && |h.claim.slots| == c.slotBytes
    modifies c`currentEpoch, sender`configEpoch
    modifies c.slots, c.nodes`numslots, c.Bitmaps(), c.nodes`slaves, sender`slaveof, sender`master, sender`slave
    modifies c.myself`slaveof, c.myself`master, c.myself`slave, c.importing, c.migrating
    ensures Ready(c) && HeaderNews(c, sender, h, newer) && OthersKeep(c.nodes, sender, c.myself)
    ensures HeaderApplied(c, old(Now(c, sender, h.claim)), old(sender.slaveof), sender, h, keys, demoted, purged)
    ensures MarksOf(c, sender) == Absorbed(old(MarksOf(c, sender)), h)
  {
    AbsorbHeader(c, sender, h);
    demoted, purged, newer := ApplyHeader(c, sender, h, keys);
  }

  /** Current epoch, our configEpoch and the sender's. */
  datatype Marks = Marks(current: nat, mine: nat, theirs: nat)

  ghost function MarksOf(c: Cluster, sender: ClusterNode): Marks
    reads c`currentEpoch, c`myself, c.myself`configEpoch, sender`configEpoch
  {
    Marks(c.currentEpoch, c.myself.configEpoch, sender.configEpoch)
  }

  /** The header's epochs are on record. */
  function Absorbed(m: Marks, h: Header): Marks {
    Marks(Max(m.current, h.current), m.mine, Max(m.theirs, h.claim.epoch))
  }

  /** The rule for collisions: ours moves if both of us are masters and it is the packet's, the sender's
      on record too, and the sender's name is greater. */
  predicate MovesUs(m: Marks, h: Header, master: bool, myName: nat, senderName: nat) {
    master && h.isMaster && Collides(m.mine, h.claim.epoch, m.theirs, myName, senderName)
  }

  function Resolved(m: Marks, moves: bool): Marks {
    if moves then Marks(m.current + 1, m.current + 1, m.theirs) else m
  }

  /** The epochs, once a ping has been dealt with: the header's on record, and ours moved if they collide
      while both of us are masters still. */
  ghost predicate EpochsAfterPing(c: Cluster, was: Marks, sender: ClusterNode, h: Header)
    reads c`currentEpoch, c`myself, c.myself`master, c.myself`configEpoch, sender`configEpoch
  {
    MarksOf(c, sender) == Resolved(Absorbed(was, h), MovesUs(Absorbed(was, h), h, c.myself.master, c.myself.name, sender.name))
  }

  /** News stays news when our own epoch grows; our own slots may become news only then. */
  ghost predicate StillNews(c: Cluster, sender: ClusterNode, h: Header, newer: ClusterNode?)
    requires |h.claim.slots| == c.slotBytes && c.slots.Length == 8 * c.slotBytes
    reads c`myself, c.slots, (set k | 0 <= k < c.slots.Length && c.slots[k] != null :: c.slots[k])`configEpoch
  {
    if newer != null then IsNews(c, sender, h.claim, newer)
    else h.isMaster ==> forall k :: 0 <= k < c.slots.Length && c.slots[k] != c.myself ==> !Outdated(c, sender, h.claim, k)
  }

  /** Last, the collision of epochs, if the packet shows one. That changes nothing else; and as it only
      happens when the sender knows our epoch, our own slots were no news to it before. */
  method ResolveCollision(c: Cluster, sender: ClusterNode, h: Header)
    requires Ready(c) && sender in c.nodes && sender != c.myself && (h.isMaster <==> sender.master)
    modifies c`currentEpoch, c.myself`configEpoch
    ensures Ready(c) && (c.myself.configEpoch == old(c.myself.configEpoch) || old(c.myself.configEpoch) == h.claim.epoch)
    ensures MarksOf(c, sender) == old(Resolved(MarksOf(c, sender), MovesUs(MarksOf(c, sender), h, c.myself.master, c.myself.name, sender.name)))
  {
    if c.myself.master && sender.master && h.claim.epoch == c.myself.configEpoch {
      HandleConfigEpochCollision(c, sender);
    }
  }

  method ResolveKeepingNews(c: Cluster, sender: ClusterNode, h: Header, ghost newer: ClusterNode?)
    requires Ready(c) && sender in c.nodes && sender != c.myself && (h.isMaster <==> sender.master)
    requires |h.claim.slots| == c.slotBytes && HeaderNews(c, sender, h, newer)
    modifies c`currentEpoch, c.myself`configEpoch
    ensures Ready(c) && StillNews(c, sender, h, newer)
    ensures MarksOf(c, sender) == old(Resolved(MarksOf(c, sender), MovesUs(MarksOf(c, sender), h, c.myself.master, c.myself.name, sender.name)))
  {
    ghost var at := 0;
    if newer != null {
      at :| 0 <= at < c.slots.Length && Outdated(c, sender, h.claim, at) && c.slots[at] == newer;
    }
    ResolveCollision(c, sender, h);
    if newer != null {
      assert Outdated(c, sender, h.claim, at);
    }
  }

  /** The same, told of what has happened before. */
  method Finish(c: Cluster, sender: ClusterNode, h: Header, keys: set<nat>, ghost was: Before, ghost theirs: ClusterNode?,
                ghost marks: Marks, ghost demoted: bool, ghost purged: seq<nat>, ghost newer: ClusterNode?)
    requires Ready(c) && sender in c.nodes && sender != c.myself
    requires |h.claim.slots| == c.slotBytes && HeaderNews(c, sender, h, newer)
    requires HeaderApplied(c, was, theirs, sender, h, keys, demoted, purged) && MarksOf(c, sender) == Absorbed(marks, h)
    modifies c`currentEpoch, c.myself`configEpoch
    ensures Ready(c) && StillNews(c, sender, h, newer) && EpochsAfterPing(c, marks, sender, h)
    ensures HeaderApplied(c, was, theirs, sender, h, keys, demoted, purged)
  {
    ResolveKeepingNews(c, sender, h, newer);
  }

  /** All the steps of a ping in order. */
  method HandlePing(c: Cluster, sender: ClusterNode, h: Header, keys: set<nat>)
    returns (demoted: bool, purged: seq<nat>, newer: ClusterNode?)
    requires Ready(c) && sender in c.nodes && sender != c.myself && (sender.master || sender.slave)
    requires (h.master != null ==> h.master in c.nodes) && |h.claim.slots| == c.slotBytes
    modifies c`currentEpoch, c.myself`configEpoch, sender`configEpoch
    modifies c.slots, c.nodes`numslots, c.Bitmaps(), c.nodes`slaves, sender`slaveof, sender`master, sender`slave
    modifies c.myself`slaveof, c.myself`master, c.myself`slave, c.importing, c.migrating
    ensures Ready(c) && EpochsAfterPing(c, old(MarksOf(c, sender)), sender, h) && StillNews(c, sender, h, newer)
    ensures OthersKeep(c.nodes, sender, c.myself)
    ensures HeaderApplied(c, old(Now(c, sender, h.claim)), old(sender.slaveof), sender, h, keys, demoted, purged)
  {
    ghost var was, theirs, marks := Now(c, sender, h.claim), sender.slaveof, MarksOf(c, sender);
    demoted, purged, newer := ReceiveHeader(c, sender, h, keys);
    Finish(c, sender, h, keys, was, theirs, marks, demoted, purged, newer);
  }

  /** Epochs stay consistent unless the header announces one above all current epochs. */
  method TakePing(c: Cluster, sender: ClusterNode, h: Header, keys: set<nat>)
    returns (demoted: bool, purged: seq<nat>, newer: ClusterNode?)
    requires Ready(c) && sender in c.nodes && sender != c.myself && (sender.master || sender.slave)
    requires (h.master != null ==> h.master in c.nodes) && |h.claim.slots| == c.slotBytes
    modifies c`currentEpoch, c.myself`configEpoch, sender`configEpoch
    modifies c.slots, c.nodes`numslots, c.Bitmaps(), c.nodes`slaves, sender`slaveof, sender`master, sender`slave
    modifies c.myself`slaveof, c.myself`master, c.myself`slave, c.importing, c.migrating
    ensures Ready(c) && EpochsAfterPing(c, old(MarksOf(c, sender)), sender, h) && StillNews(c, sender, h, newer)
    ensures HeaderApplied(c, old(Now(c, sender, h.claim)), old(sender.slaveof), sender, h, keys, demoted, purged)
    ensures old(EpochsOk(c)) && h.claim.epoch <= Max(old(c.currentEpoch), h.current) ==> EpochsOk(c)
    ensures OthersKeep(c.nodes, sender, c.myself)
  {
    demoted, purged, newer := HandlePing(c, sender, h, keys);
  }

  /** The owner table once a claim is in, the names of the rules left out. */
  ghost function Rebound(c: Cluster, sender: ClusterNode, claim: Claim): (r: seq<ClusterNode?>)
    requires c.Shape() && c.Views() && |claim.slots| == c.slotBytes
    reads c`nodes, c`myself, c.nodes`configEpoch, c.slots, c.importing, c.nodes`numslots, c.Bitmaps()
    ensures |r| == c.slots.Length
    ensures forall k :: 0 <= k < c.slots.Length ==>
              r[k] == if k in Members(claim.slots) && c.slots[k] != sender && c.importing[k] == null
                         && (c.slots[k] == null || c.slots[k].configEpoch < claim.epoch) then sender else c.slots[k]
  {
    var slots := c.slots[..];
    var takes := set k | 0 <= k < c.slots.Length && k in Members(claim.slots) && slots[k] != sender && c.importing[k] == null
                         && (slots[k] == null || slots[k].configEpoch < claim.epoch);
    seq(c.slots.Length, k requires 0 <= k < |slots| => if k in takes then sender else slots[k])
  }

  /** That is what the rules take. */
  lemma ReboundIsTaken(c: Cluster, sender: ClusterNode, claim: Claim, was: Before)
    requires Ready(c) && sender in c.nodes && |claim.slots| == c.slotBytes && was == Now(c, sender, claim)
    ensures forall k :: k in was.taken ==> k < |was.slots| && was.slots[k] != sender
    ensures sender == c.myself ==> was.taken == {}
    ensures |was.slots| == |Rebound(c, sender, claim)|
    ensures sender != c.myself ==>
              forall k :: 0 <= k < |was.slots| ==> Rebound(c, sender, claim)[k] == if k in was.taken then sender else was.slots[k]
  {
    c.TakenInPlainTerms(sender, claim.epoch, claim.slots);
  }

  /** The same: the epochs and the news without the names of the rules. */
  method SettlePing(c: Cluster, sender: ClusterNode, h: Header, keys: set<nat>)
    returns (demoted: bool, purged: seq<nat>, newer: ClusterNode?)
    requires Ready(c) && sender in c.nodes && sender != c.myself && (sender.master || sender.slave)
    requires (h.master != null ==> h.master in c.nodes) && |h.claim.slots| == c.slotBytes
    modifies c`currentEpoch, c.myself`configEpoch, sender`configEpoch
    modifies c.slots, c.nodes`numslots, c.Bitmaps(), c.nodes`slaves, sender`slaveof, sender`master, sender`slave
    modifies c.myself`slaveof, c.myself`master, c.myself`slave, c.importing, c.migrating
    ensures Ready(c) && OthersKeep(c.nodes, sender, c.myself)
    ensures HeaderApplied(c, old(Now(c, sender, h.claim)), old(sender.slaveof), sender, h, keys, demoted, purged)
    ensures sender.configEpoch == Max(old(sender.configEpoch), h.claim.epoch)
    ensures var moved := c.myself.master && h.isMaster && old(c.myself.configEpoch) == h.claim.epoch == sender.configEpoch
                         && c.myself.name < sender.name;
            c.currentEpoch == Max(old(c.currentEpoch), h.current) + (if moved then 1 else 0)
            && c.myself.configEpoch == if moved then c.currentEpoch else old(c.myself.configEpoch)
    ensures newer != null ==> newer != sender && newer.configEpoch > h.claim.epoch
                              && exists k :: 0 <= k < c.slots.Length && k in Members(h.claim.slots) && c.slots[k] == newer
    ensures h.isMaster && newer == null ==>
              forall k :: 0 <= k < c.slots.Length && k in Members(h.claim.slots) ==>
                c.slots[k] == null || c.slots[k] == sender || c.slots[k] == c.myself || c.slots[k].configEpoch <= h.claim.epoch
  {
    demoted, purged, newer := TakePing(c, sender, h, keys);
  }

  /** What has become of roles and slots, compared with what was before. */
  lemma HeaderInPlainTerms(c: Cluster, was: Before, theirs: ClusterNode?, sender: ClusterNode, h: Header,
                           keys: set<nat>, demoted: bool, purged: seq<nat>,
                           want: seq<ClusterNode?>)
    requires HeaderApplied(c, was, theirs, sender, h, keys, demoted, purged) && sender != was.me
    requires forall k :: k in was.taken ==> k < |was.slots| && was.slots[k] != sender
    requires |want| == |was.slots| && forall k :: 0 <= k < |want| ==> want[k] == if k in was.taken then sender else was.slots[k]
    ensures sender.master == h.isMaster
    ensures sender.slaveof == if h.isMaster then null else if h.master != null then h.master else theirs
    ensures |was.slots| == c.slots.Length && c.myself == was.me
    ensures h.isMaster ==> c.slots[..] == want
    ensures !h.isMaster ==> forall k :: 0 <= k < c.slots.Length ==> c.slots[k] == if was.slots[k] == sender then null else was.slots[k]
    ensures demoted <==>
              && h.isMaster && (exists k :: 0 <= k < c.slots.Length && was.slots[k] == was.CurMaster() && c.slots[k] != was.CurMaster())
              && forall k :: 0 <= k < c.slots.Length ==> c.slots[k] != was.CurMaster()
    ensures if demoted then !c.myself.master && c.myself.slaveof == sender
            else c.myself.master == was.master && c.myself.slaveof == was.slaveof
    ensures forall k :: k in purged <==>
              h.isMaster && !demoted && 0 <= k < c.slots.Length && k in keys && was.slots[k] == c.myself && c.slots[k] != c.myself
  {
    if h.isMaster && !demoted {
      Cluster.LossesInPlainTerms(was.slots, c.slots[..], was.taken, sender, c.myself, keys, purged);
    }
  }

  method CompareHeader(c: Cluster, sender: ClusterNode, h: Header, keys: set<nat>, ghost was: Before, ghost theirs: ClusterNode?,
                       ghost want: seq<ClusterNode?>)
    returns (demoted: bool, purged: seq<nat>, newer: ClusterNode?)
    requires Ready(c) && sender in c.nodes && sender != c.myself && (sender.master || sender.slave)
    requires (h.master != null ==> h.master in c.nodes) && |h.claim.slots| == c.slotBytes
    requires was == Now(c, sender, h.claim) && theirs == sender.slaveof && want == Rebound(c, sender, h.claim)
    modifies c`currentEpoch, c.myself`configEpoch, sender`configEpoch
    modifies c.slots, c.nodes`numslots, c.Bitmaps(), c.nodes`slaves, sender`slaveof, sender`master, sender`slave
    modifies c.myself`slaveof, c.myself`master, c.myself`slave, c.importing, c.migrating
    ensures Ready(c) && OthersKeep(c.nodes, sender, c.myself)
    ensures sender.master == h.isMaster
    ensures sender.slaveof == if h.isMaster then null else if h.master != null then h.master else theirs
    ensures |was.slots| == c.slots.Length && c.myself == was.me
    ensures h.isMaster ==> c.slots[..] == want
    ensures !h.isMaster ==> forall k :: 0 <= k < c.slots.Length ==> c.slots[k] == if was.slots[k] == sender then null else was.slots[k]
    ensures demoted <==>
              && h.isMaster && (exists k :: 0 <= k < c.slots.Length && was.slots[k] == was.CurMaster() && c.slots[k] != was.CurMaster())
              && forall k :: 0 <= k < c.slots.Length ==> c.slots[k] != was.CurMaster()
    ensures if demoted then !c.myself.master && c.myself.slaveof == sender
            else c.myself.master == was.master && c.myself.slaveof == was.slaveof
    ensures forall k :: k in purged <==>
              h.isMaster && !demoted && 0 <= k < c.slots.Length && k in keys && was.slots[k] == c.myself && c.slots[k] != c.myself
    ensures sender.configEpoch == Max(old(sender.configEpoch), h.claim.epoch)
    ensures var moved := c.myself.master && h.isMaster && old(c.myself.configEpoch) == h.claim.epoch == sender.configEpoch
                         && c.myself.name < sender.name;
            c.currentEpoch == Max(old(c.currentEpoch), h.current) + (if moved then 1 else 0)
            && c.myself.configEpoch == if moved then c.currentEpoch else old(c.myself.configEpoch)
    ensures newer != null ==> newer != sender && newer.configEpoch > h.claim.epoch
                              && exists k :: 0 <= k < c.slots.Length && k in Members(h.claim.slots) && c.slots[k] == newer
    ensures h.isMaster && newer == null ==>
              forall k :: 0 <= k < c.slots.Length && k in Members(h.claim.slots) ==>
                c.slots[k] == null || c.slots[k] == sender || c.slots[k] == c.myself || c.slots[k].configEpoch <= h.claim.epoch
  {
    ReboundIsTaken(c, sender, h.claim, was);
    demoted, purged, newer := SettlePing(c, sender, h, keys);
    HeaderInPlainTerms(c, was, theirs, sender, h, keys, demoted, purged, want);
  }

  method CompareSlots(c: Cluster, sender: ClusterNode, h: Header, keys: set<nat>, ghost was: Before)
    returns (demoted: bool, purged: seq<nat>, newer: ClusterNode?)
    requires Ready(c) && sender in c.nodes && sender != c.myself && (sender.master || sender.slave)
    requires (h.master != null ==> h.master in c.nodes) && |h.claim.slots| == c.slotBytes
    requires was == Now(c, sender, h.claim)
    modifies c`currentEpoch, c.myself`configEpoch, sender`configEpoch
    modifies c.slots, c.nodes`numslots, c.Bitmaps(), c.nodes`slaves, sender`slaveof, sender`master, sender`slave
    modifies c.myself`slaveof, c.myself`master, c.myself`slave, c.importing, c.migrating
    ensures Ready(c) && OthersKeep(c.nodes, sender, c.myself)
    ensures sender.master == h.isMaster
    ensures sender.slaveof == if h.isMaster then null else if h.master != null then h.master else old(sender.slaveof)
    ensures |was.slots| == c.slots.Length && c.myself == was.me
    ensures h.isMaster ==> forall k :: 0 <= k < c.slots.Length ==>
              c.slots[k] == if k in Members(h.claim.slots) && old(c.slots[k]) != sender && old(c.importing[k]) == null
                               && old(c.slots[k] == null || c.slots[k].configEpoch < h.claim.epoch) then sender else old(c.slots[k])
    ensures !h.isMaster ==> forall k :: 0 <= k < c.slots.Length ==>
              c.slots[k] == if old(c.slots[k]) == sender then null else old(c.slots[k])
    ensures demoted <==>
              && h.isMaster && (exists k :: 0 <= k < c.slots.Length && was.slots[k] == was.CurMaster() && c.slots[k] != was.CurMaster())
              && forall k :: 0 <= k < c.slots.Length ==> c.slots[k] != was.CurMaster()
    ensures if demoted then !c.myself.master && c.myself.slaveof == sender
            else c.myself.master == was.master && c.myself.slaveof == was.slaveof
    ensures forall k :: k in purged <==>
              h.isMaster && !demoted && 0 <= k < c.slots.Length && k in keys && old(c.slots[k]) == c.myself && c.slots[k] != c.myself
    ensures sender.configEpoch == Max(old(sender.configEpoch), h.claim.epoch)
    ensures var moved := c.myself.master && h.isMaster && old(c.myself.configEpoch) == h.claim.epoch == sender.configEpoch
                         && c.myself.name < sender.name;
            c.currentEpoch == Max(old(c.currentEpoch), h.current) + (if moved then 1 else 0)
            && c.myself.configEpoch == if moved then c.currentEpoch else old(c.myself.configEpoch)
    ensures newer != null ==> newer != sender && newer.configEpoch > h.claim.epoch
                              && exists k :: 0 <= k < c.slots.Length && k in Members(h.claim.slots) && c.slots[k] == newer
    ensures h.isMaster && newer == null ==>
              forall k :: 0 <= k < c.slots.Length && k in Members(h.claim.slots) ==>
                c.slots[k] == null || c.slots[k] == sender || c.slots[k] == c.myself || c.slots[k].configEpoch <= h.claim.epoch
  {
    ghost var want := Rebound(c, sender, h.claim);
    demoted, purged, newer := CompareHeader(c, sender, h, keys, was, sender.slaveof, want);
  }

  /** A whole ping, pong or meet packet from a node we know: epochs, roles, slots, our own part in it, and
      what the sender is told. */
  method ProcessPing(c: Cluster, sender: ClusterNode, h: Header, keys: set<nat>)
    returns (demoted: bool, purged: seq<nat>, newer: ClusterNode?)
    requires Ready(c) && sender in c.nodes && sender != c.myself && (sender.master || sender.slave)
    requires (h.master != null ==> h.master in c.nodes) && |h.claim.slots| == c.slotBytes
    modifies c`currentEpoch, c.myself`configEpoch, sender`configEpoch
    modifies c.slots, c.nodes`numslots, c.Bitmaps(), c.nodes`slaves, sender`slaveof, sender`master, sender`slave
    modifies c.myself`slaveof, c.myself`master, c.myself`slave, c.importing, c.migrating
    ensures Ready(c)
    ensures sender.configEpoch == Max(old(sender.configEpoch), h.claim.epoch)
    ensures var moved := c.myself.master && h.isMaster && old(c.myself.configEpoch) == h.claim.epoch == sender.configEpoch
                         && c.myself.name < sender.name;
            c.currentEpoch == Max(old(c.currentEpoch), h.current) + (if moved then 1 else 0)
            && c.myself.configEpoch == if moved then c.currentEpoch else old(c.myself.configEpoch)
    ensures sender.master == h.isMaster
    ensures sender.slaveof == if h.isMaster then null else if h.master != null then h.master else old(sender.slaveof)
    ensures h.isMaster ==> forall k :: 0 <= k < c.slots.Length ==>
              c.slots[k] == if k in Members(h.claim.slots) && old(c.slots[k]) != sender && old(c.importing[k]) == null
                               && old(c.slots[k] == null || c.slots[k].configEpoch < h.claim.epoch) then sender else old(c.slots[k])
    ensures !h.isMaster ==> forall k :: 0 <= k < c.slots.Length ==>
              c.slots[k] == if old(c.slots[k]) == sender then null else old(c.slots[k])
    ensures var shard := old(if c.myself.master then c.myself else c.myself.slaveof);
            demoted <==>
              && h.isMaster && (exists k :: 0 <= k < c.slots.Length && old(c.slots[k]) == shard && c.slots[k] != shard)
              && forall k :: 0 <= k < c.slots.Length ==> c.slots[k] != shard
    ensures if demoted then !c.myself.master && c.myself.slaveof == sender
            else c.myself.master == old(c.myself.master) && c.myself.slaveof == old(c.myself.slaveof)
    ensures forall k :: k in purged <==>
              h.isMaster && !demoted && 0 <= k < c.slots.Length && k in keys && old(c.slots[k]) == c.myself && c.slots[k] != c.myself
    ensures newer != null ==> newer != sender && newer.configEpoch > h.claim.epoch
                              && exists k :: 0 <= k < c.slots.Length && k in Members(h.claim.slots) && c.slots[k] == newer
    ensures h.isMaster && newer == null ==>
              forall k :: 0 <= k < c.slots.Length && k in Members(h.claim.slots) ==>
                c.slots[k] == null || c.slots[k] == sender || c.slots[k] == c.myself || c.slots[k].configEpoch <= h.claim.epoch
    ensures OthersKeep(c.nodes, sender, c.myself)
  {
    ghost var was := Now(c, sender, h.claim);
    demoted, purged, newer := CompareSlots(c, sender, h, keys, was);
  }

  /** Whoever an UPDATE is about is a master. */
  method Promote(c: Cluster, n: ClusterNode, claim: Claim)
    requires Ready(c) && n in c.nodes && (n.master || n.slave) && |claim.slots| == c.slotBytes
    modifies c.nodes`slaves, n`slaveof, n`master, n`slave
    ensures Ready(c) && n.master && n.slaveof == null
    ensures n != c.myself ==> Now(c, n, claim) == old(Now(c, n, claim))
  {
    if n.slave {
      c.SetNodeAsMaster(n);
    }
  }

  /** The configEpoch that it reports. */
  method RecordEpoch(c: Cluster, n: ClusterNode, claim: Claim)
    requires Ready(c) && n in c.nodes && |claim.slots| == c.slotBytes
    modifies n`configEpoch
    ensures Ready(c) && n.configEpoch == claim.epoch && Now(c, n, claim) == old(Now(c, n, claim))
  {
    ghost var taken := c.Taken(n, claim.epoch, claim.slots);
    n.configEpoch := claim.epoch;
    assert c.Taken(n, claim.epoch, claim.slots) == taken;
  }

  /** Role and configEpoch: neither changes what the claim will take. */
  method PromoteForUpdate(c: Cluster, n: ClusterNode, claim: Claim)
    requires Ready(c) && n in c.nodes && (n.master || n.slave) && |claim.slots| == c.slotBytes
    modifies n`configEpoch, c.nodes`slaves, n`slaveof, n`master, n`slave
    ensures Ready(c) && n.master && n.slaveof == null && n.configEpoch == claim.epoch
    ensures n != c.myself ==> Now(c, n, claim) == old(Now(c, n, claim))
  {
    Promote(c, n, claim);
    RecordEpoch(c, n, claim);
  }

  /** What an update does to slots and roles; to our own slots, nothing. */
  ghost predicate UpdateApplied(c: Cluster, was: Before, n: ClusterNode, keys: set<nat>, demoted: bool, purged: seq<nat>)
    reads c`myself, c.myself`master, c.myself`slave, c.myself`slaveof, c.slots, c.importing, c.migrating
  {
    if n == was.me
    then !demoted && purged == [] && c.slots[..] == was.slots && c.importing[..] == was.importing && c.migrating[..] == was.migrating
    else ClaimApplied(c, was, n, keys, demoted, purged)
  }

  /** The slots it reports, unless they are our own. */
  method ClaimForUpdate(c: Cluster, n: ClusterNode, claim: Claim, keys: set<nat>) returns (demoted: bool, purged: seq<nat>)
    requires Ready(c) && n in c.nodes && n.master && n.slaveof == null && |claim.slots| == c.slotBytes
    modifies c.slots, c.nodes`numslots, c.Bitmaps(), c.nodes`slaves
    modifies c.myself`slaveof, c.myself`master, c.myself`slave, c.importing, c.migrating
    ensures Ready(c) && n.master && n.slaveof == null
    ensures UpdateApplied(c, old(Now(c, n, claim)), n, keys, demoted, purged)
  {
    ReadyFollows(c, c.Taken(n, claim.epoch, claim.slots));
    var crashed;
    crashed, demoted, purged := c.UpdateSlots(n, claim.epoch, claim.slots, keys);
  }

  method ActOnUpdate(c: Cluster, n: ClusterNode, claim: Claim, keys: set<nat>) returns (demoted: bool, purged: seq<nat>)
    requires Ready(c) && n in c.nodes && (n.master || n.slave) && |claim.slots| == c.slotBytes
    modifies n`configEpoch, c.slots, c.nodes`numslots, c.Bitmaps(), c.nodes`slaves, n`slaveof, n`master, n`slave
    modifies c.myself`slaveof, c.myself`master, c.myself`slave, c.importing, c.migrating
    ensures Ready(c) && n.configEpoch == claim.epoch && n.master && n.slaveof == null
    ensures UpdateApplied(c, old(Now(c, n, claim)), n, keys, demoted, purged)
  {
    PromoteForUpdate(c, n, claim);
    demoted, purged := ClaimForUpdate(c, n, claim, keys);
  }

  /** Nothing about roles, slots or epochs has changed. */
  twostate predicate Untouched(c: Cluster, n: ClusterNode)
    reads c, c.myself, n, c.slots, c.importing, c.migrating
  {
    && c.slots[..] == old(c.slots[..]) && c.RoleAfter(n, false)
    && n.master == old(n.master) && n.slave == old(n.slave) && n.slaveof == old(n.slaveof) && n.configEpoch == old(n.configEpoch)
  }

  method HandleUpdate(c: Cluster, n: ClusterNode, claim: Claim, keys: set<nat>)
    returns (done: bool, demoted: bool, purged: seq<nat>)
    requires Ready(c) && n in c.nodes && (n.master || n.slave) && |claim.slots| == c.slotBytes
    modifies n`configEpoch, c.slots, c.nodes`numslots, c.Bitmaps(), c.nodes`slaves, n`slaveof, n`master, n`slave
    modifies c.myself`slaveof, c.myself`master, c.myself`slave, c.importing, c.migrating
    ensures Ready(c)
    ensures done <==> old(n.configEpoch) < claim.epoch
    ensures if done then n.configEpoch == claim.epoch && n.master && n.slaveof == null
                         && UpdateApplied(c, old(Now(c, n, claim)), n, keys, demoted, purged)
            else Untouched(c, n) && !demoted && purged == []
    ensures OthersKeep(c.nodes, n, n)
  {
    if n.configEpoch >= claim.epoch {
      return false, false, [];
    }
    done := true;
    demoted, purged := ActOnUpdate(c, n, claim, keys);
  }

  /** The epochs along with it. */
  method TakeUpdate(c: Cluster, n: ClusterNode, claim: Claim, keys: set<nat>)
    returns (done: bool, demoted: bool, purged: seq<nat>)
    requires Ready(c) && n in c.nodes && (n.master || n.slave) && |claim.slots| == c.slotBytes
    modifies n`configEpoch, c.slots, c.nodes`numslots, c.Bitmaps(), c.nodes`slaves, n`slaveof, n`master, n`slave
    modifies c.myself`slaveof, c.myself`master, c.myself`slave, c.importing, c.migrating
    ensures Ready(c)
    ensures done <==> old(n.configEpoch) < claim.epoch
    ensures if done then n.configEpoch == claim.epoch && n.master && n.slaveof == null
                         && UpdateApplied(c, old(Now(c, n, claim)), n, keys, demoted, purged)
            else Untouched(c, n) && !demoted && purged == []
    ensures old(EpochsOk(c)) ==> (EpochsOk(c) <==> !done || claim.epoch <= c.currentEpoch)
    ensures OthersKeep(c.nodes, n, n)
  {
    done, demoted, purged := HandleUpdate(c, n, claim, keys);
  }

  /** Its roles and slots, compared with what was before. */
  lemma UpdateInPlainTerms(c: Cluster, was: Before, n: ClusterNode, keys: set<nat>, done: bool, demoted: bool, purged: seq<nat>,
                           want: seq<ClusterNode?>)
    requires if done then UpdateApplied(c, was, n, keys, demoted, purged)
             else c.slots[..] == was.slots && c.myself == was.me && !demoted && purged == []
    requires c.myself == was.me && |was.importing| == |was.slots| == c.slots.Length
    requires forall k :: k in was.taken ==> k < |was.slots| && was.slots[k] != n
    requires n != was.me ==> |want| == |was.slots| && forall k :: 0 <= k < |want| ==> want[k] == if k in was.taken then n else was.slots[k]
    ensures |was.slots| == c.slots.Length && c.myself == was.me && c.slots.Length == |was.importing|
    ensures c.slots[..] == if done && n != was.me then want else was.slots
    ensures demoted <==>
              && done && n != was.me && (exists k :: 0 <= k < c.slots.Length && was.slots[k] == was.CurMaster() && c.slots[k] != was.CurMaster())
              && forall k :: 0 <= k < c.slots.Length ==> c.slots[k] != was.CurMaster()
    ensures forall k :: k in purged <==>
              !demoted && 0 <= k < c.slots.Length && k in keys && was.slots[k] == c.myself && c.slots[k] != c.myself
  {
    if done && n != was.me && !demoted {
      Cluster.LossesInPlainTerms(was.slots, c.slots[..], was.taken, n, c.myself, keys, purged);
    }
  }

  method CompareUpdate(c: Cluster, n: ClusterNode, claim: Claim, keys: set<nat>, ghost was: Before,
                       ghost want: seq<ClusterNode?>)
    returns (done: bool, demoted: bool, purged: seq<nat>)
    requires Ready(c) && n in c.nodes && (n.master || n.slave) && |claim.slots| == c.slotBytes
    requires was == Now(c, n, claim) && want == Rebound(c, n, claim)
    modifies n`configEpoch, c.slots, c.nodes`numslots, c.Bitmaps(), c.nodes`slaves, n`slaveof, n`master, n`slave
    modifies c.myself`slaveof, c.myself`master, c.myself`slave, c.importing, c.migrating
    ensures Ready(c) && OthersKeep(c.nodes, n, n)
    ensures done <==> old(n.configEpoch) < claim.epoch
    ensures if done then n.configEpoch == claim.epoch && n.master && n.slaveof == null
            else n.configEpoch == old(n.configEpoch) && n.master == old(n.master) && n.slaveof == old(n.slaveof)
    ensures if demoted then !c.myself.master && c.myself.slaveof == n
            else n == c.myself || (c.myself.master == was.master && c.myself.slaveof == was.slaveof)
    ensures |was.slots| == c.slots.Length && c.myself == was.me && c.slots.Length == |was.importing|
    ensures c.slots[..] == if done && n != was.me then want else was.slots
    ensures demoted <==>
              && done && n != was.me && (exists k :: 0 <= k < c.slots.Length && was.slots[k] == was.CurMaster() && c.slots[k] != was.CurMaster())
              && forall k :: 0 <= k < c.slots.Length ==> c.slots[k] != was.CurMaster()
    ensures forall k :: k in purged <==>
              !demoted && 0 <= k < c.slots.Length && k in keys && was.slots[k] == c.myself && c.slots[k] != c.myself
  {
    ReboundIsTaken(c, n, claim, was);
    done, demoted, purged := TakeUpdate(c, n, claim, keys);
    UpdateInPlainTerms(c, was, n, keys, done, demoted, purged, want);
  }

  /** An UPDATE packet: the configuration of some third node, newer than what is on record.
      A node named a slave here becomes a master, even if it is ourselves. */
  method ProcessUpdate(c: Cluster, n: ClusterNode, claim: Claim, keys: set<nat>)
    returns (done: bool, demoted: bool, purged: seq<nat>)
    requires Ready(c) && n in c.nodes && (n.master || n.slave) && |claim.slots| == c.slotBytes
    modifies n`configEpoch, c.slots, c.nodes`numslots, c.Bitmaps(), c.nodes`slaves, n`slaveof, n`master, n`slave
    modifies c.myself`slaveof, c.myself`master, c.myself`slave, c.importing, c.migrating
    ensures Ready(c)
    ensures done <==> old(n.configEpoch) < claim.epoch
    ensures if done then n.configEpoch == claim.epoch && n.master && n.slaveof == null
            else n.configEpoch == old(n.configEpoch) && n.master == old(n.master) && n.slaveof == old(n.slaveof)
    ensures forall k :: 0 <= k < c.slots.Length ==>
              c.slots[k] == if done && n != c.myself && k in Members(claim.slots) && old(c.slots[k]) != n && old(c.importing[k]) == null
                               && old(c.slots[k] == null || c.slots[k].configEpoch < claim.epoch) then n else old(c.slots[k])
    ensures var shard := old(if c.myself.master then c.myself else c.myself.slaveof);
            demoted <==>
              && done && n != c.myself && (exists k :: 0 <= k < c.slots.Length && old(c.slots[k]) == shard && c.slots[k] != shard)
              && forall k :: 0 <= k < c.slots.Length ==> c.slots[k] != shard
    ensures if demoted then !c.myself.master && c.myself.slaveof == n
            else n == c.myself || (c.myself.master == old(c.myself.master) && c.myself.slaveof == old(c.myself.slaveof))
    ensures forall k :: k in purged <==>
              !demoted && 0 <= k < c.slots.Length && k in keys && old(c.slots[k]) == c.myself && c.slots[k] != c.myself
    ensures OthersKeep(c.nodes, n, n)
  {
    ghost var was := Now(c, n, claim);
    ghost var want := Rebound(c, n, claim);
    done, demoted, purged := CompareUpdate(c, n, claim, keys, was, want);
  }

  /** clusterBuildMessageHdr, as far as epochs, slots and roles go. A master speaks for itself; a slave
      announces the configEpoch and the slots of its master, under its own name. */
  method BuildHeader(c: Cluster) returns (h: Header)
    requires c.Shape() && c.Views() && c.Graph()
    ensures h.current == c.currentEpoch && h.master == c.myself.slaveof && (h.isMaster <==> c.myself.slaveof == null)
    ensures c.myself.slaveof == null ==> h.claim.epoch == c.myself.configEpoch
    ensures c.myself.slaveof != null ==> h.claim.epoch == c.myself.slaveof.configEpoch
    ensures |h.claim.slots| == c.slotBytes
    ensures forall k :: 0 <= k < c.slots.Length ==>
              (k in Members(h.claim.slots) <==>
                c.slots[k] == (if c.myself.slaveof != null then c.myself.slaveof else c.myself))
  {
    var whose: ClusterNode := if c.myself.slave && c.myself.slaveof != null then c.myself.slaveof else c.myself;
    h := Header(c.currentEpoch, c.myself.slaveof == null, c.myself.slaveof, Claim(whose.configEpoch, whose.bitmap[..]));
    assert whose.Bits() == Owned(c.slots[..], whose);
  }
}
