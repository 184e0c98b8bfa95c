# Verified model of the cluster node, its helpers and the field flattener

Dafny 4.11 proofs about four parts of the repository: the Redis Cluster node and protocol in `cluster.c`,
sorting and searching in `sp_util.c`, the small-buffer string in `sp_str.c`, and the flattening of nested
struct fields shared by `struct.c` and `to_string.c`. `dafny verify dfyconfig.toml` checks everything.

The cluster is modelled in two layers.

* **One node, on the heap.** `Bitmap`, `ClusterNode` and `Cluster` hold what a server stores: owner table, byte
  bitmaps, `numslots` counters, `slaves` arrays with `slaveof` pointers, failure reports, epochs. The same facts
  are stored several times; `Views` and `Graph` say how they agree, and every operation keeps them.
  `Epochs`, `Packets`, `Votes`, `Gossip`, `Membership` and `SlotCommands` are the handlers built on top,
  `Failover` and `SlaveFailover` the slave's side of an election as rules and on the server's fields, `Routing` the
  redirection of queries, `Text`, `SlotRuns`, `NodesConf`, `NodesFile`, `NodesLoader` and `ServerFile` the
  configuration file.
* **Many nodes, as a step relation.** `Network` has nodes exchanging packets that are delayed, reordered or
  lost, but delivered at most once. `Election`, `StaleVotes` and `Collision` prove properties of every run,
  `Convergence` of every order of slot announcements. The two layers share `EpochRules`, `SlotTable` and
  `Failover`. `Refinement` proves that the heap node reacts to a ping, an update, a vote request, a vote, a call of the
  failover handler with the win and the takeover, and an epoch bump exactly as a node of the network model does, and
  `TableRefinement` that its owner table reacts to an announcement exactly as a table of the convergence model does.

`SortSearch`, `SmallString` and `Flatten` are independent of all that. `Sequences` and `Options` are helpers.

The contracts of the handlers are written over fields, tables and packets. The rules they share with the network model
have names (`Failover.HandleFailover`, `SlotTable.Rebinds`, `Routing.Destination` and so on); the inner methods and the
network use the names, the outermost methods say the same without them.

What the model assumes, and what was found:

* The slot count is a parameter (eight times `slotBytes`; 16384 in the server). Integers are unbounded: epochs and
  counters do not wrap.
* The set of voting masters is fixed for a run, and every node knows its size. A winner does not join it. No node
  crashes, and CLUSTER RESET HARD is not used.
* **A vote that outlives its attempt breaks election safety.** The vote counter is reset when an attempt is
  scheduled (cluster.c:2905) but the epoch votes are compared with changes only when votes are asked for
  (cluster.c:2966). Votes of the previous attempt that arrive in between are counted, and the next election starts with
  them. `StaleVotes.TwoWinners` is a complete run in which two slaves win epoch 2. The condition is one the server could
  test before it asks for votes: that its counter is zero. `Election.BackedIffNoneCarried` proves that counters stay
  backed by votes along a run if and only if it holds at every request, `Election.ElectionSafety` proves safety under it.
  That no vote is counted before its attempt has asked for any is more than is needed (`Election.SafeWithoutEarlyAcks`),
  and so is what the retry wait is there for (`StaleVotes.SafeIfPatient`).
* `clusterInit` does not initialise `failover_auth_sent`; it is arbitrary at the start of a run.
* CLUSTER ADDSLOTS does not look at our role, and SETSLOT NODE not at the role of the node it names. Both break the
  rule that slaves own no slots, exactly for slaves (`SlotCommands.OnlyMastersMayAdd`, `OnlyMastersMayReceive`);
  `SlotCommands.SlaveAddsSlots` and `SlaveReceivesSlot` are states in which they do. CLUSTER REPLICATE tests only masters
  for slots (cluster.c:4435), so the assertion in `clusterSetMaster` (cluster.c:3800) fails exactly for a slave that owns
  some (`SlotCommands.Replicate`), as after ADDSLOTS (`SlotCommands.SlaveAddsThenReplicates`).
* A slave that knows no master follows a null pointer when it sees an unassigned slot taken (cluster.c:1522, 1557,
  1575), and only then: that is the `crashed` result of `Cluster.UpdateSlotsConfigWith`, and
  `SlotCommands.OrphanHearsClaim` such a state. `Packets.Ready` keeps it away, and packets keep `Ready`.
* The result of `getNodeByQuery` for several keys in an open slot depends on which keys are present; its comment
  announces an error for every such request. The model follows the code.
* Slot announcements with equal configEpochs do not converge; `Convergence.AgreementIffNoTie` says exactly when they do.
* A `macro(type) name` leaf gains one level of pointer from every enclosing struct, where its comment describes one
  in all (`Flatten.MacroAddsOneIffNotNested`, `Flatten.NestedMacroAddsTwo`).

## Model

| member | source | states |
|---|---|---|
| Election.ElectionSafety | cluster.c:2594-2694 | over every run, however packets are delayed, lost or reordered, no election epoch has two winners, provided votes are never asked for with a counter that is not zero |
| Election.BackedIffNoneCarried | cluster.c:2901-2993 | along a run every vote counter equals the number of distinct voters that voted for this slave in the epoch it goes by, if and only if votes are never asked for with a counter that is not zero |
| Election.ElectionInEveryRun | cluster.c:1997-2008 | the invariant behind it: votes in flight are on record once, carry the epoch they were given in and are not yet counted; wins have a quorum on record |
| Election.CarriedVotesBreak | cluster.c:2964-2970 | votes carried into a new election are backed by nobody, since no slave uses an epoch twice |
| Election.CountTally | cluster.c:1997-2008 | counting a vote keeps the counter backed, whether or not the attempt under way has asked for votes |
| Election.SafeWithoutEarlyAcks | cluster.c:1997-2008 | safety when no vote is counted before its attempt has asked for any |
| Election.QuorumsIntersect | cluster.c:2835-2835 | two sets of supporters of size half the voters plus one in one epoch belong to one slave |
| Election.VoteIsFresh | cluster.c:2608-2632 | a vote is the voter's first in its epoch and is given in exactly the epoch asked for |
| Election.WinIsBacked | cluster.c:2977-2993 | a win is backed by a quorum of recorded votes |
| StaleVotes.SafeIfPatient | cluster.c:2849-2851 | safety when a new attempt is scheduled only after the ballots of the previous one are gone, which the retry wait stands for |
| StaleVotes.TwoWinners | cluster.c:2901-2906 | a concrete run in which, without that, slaves 4 and 5 both win epoch 2 |
| StaleVotes.StaleQuorum | cluster.c:2964-2975 | its first half: a slave enters an epoch with a quorum of votes given in the previous one |
| Network.EpochsInEveryRun | cluster.c:1668-1677 | in every reachable state no node records, and no packet carries, an epoch above the current epoch beside it |
| Network.ReloadRepairsNothing | cluster.c:278-283 | in every reachable state the repair made when a configuration is loaded changes nothing |
| Network.BumpLandsOnTop | cluster.c:990-1007 | in every reachable state a bump without consensus ends strictly above every epoch the node records, and is declined only when the node's epoch already is the greatest, and not zero |
| Network.CollisionLandsOnTop | cluster.c:1062-1063 | so does the move that resolves a collision |
| Network.EpochsNeverGoBack | cluster.c:1668-1677 | along a run no node's current epoch or last voted epoch ever decreases |
| Network.ReceiveKeepsNode | cluster.c:1664-1677 | one packet, with no epoch above its own current epoch, keeps a node's epochs consistent |
| Network.TickKeepsNode | cluster.c:2964-2990 | so does one call of the failover handler, including a win |
| Network.NoElectionWithoutReason | cluster.c:2858-2868 | along every run of the network, no vote request is sent and no election won except at a failover call of a slave whose master has slots and is failing or being failed over by hand |
| Collision.CollisionsAreFew | cluster.c:1055-1070 | in every run of pings, stale or not, with s epochs announced but no longer held when it begins, a node with r greater names above it moves at most (2^r - 1)(1 + s) times, and n nodes collide at most (2^n - 1)(1 + s) - n - s times in all |
| Collision.CollisionsFromRest | cluster.c:1055-1070 | with none: at most 2^r - 1 times, the greatest never, and at most 2^n - 1 - n times in all |
| Collision.RunIsConsistent | cluster.c:1668-1676 | an epoch a master gave up was held before by a master with a greater name; packets announce epochs their senders have held; records never exceed what a node holds |
| Collision.OwnHistory | cluster.c:1060-1063 | a master has held at most one epoch more than all masters with greater names together, its own late announcements apart |
| Collision.FreshPing | cluster.c:1055-1063 | a fresh ping moves its receiver exactly when the two epochs are equal and the sender's name is greater |
| Collision.SettledIffDistinct | cluster.c:1055-1070 | nobody can be moved any more if and only if all masters' configEpochs are distinct |
| Collision.CanSettle | cluster.c:1055-1070 | from any state of any run the masters can go on to distinct epochs with pings alone |
| Convergence.TablesConverge | cluster.c:1529-1566 | whatever the order and the repetitions, each slot that is not being imported ends with the claimant of greatest configEpoch among those heard; the others keep their owner |
| Convergence.ReceiversAgree | cluster.c:1529-1566 | two receivers that heard from the same masters agree on every slot without a tie at the top |
| Convergence.AgreementIffNoTie | cluster.c:1544-1545 | agreement of all receivers is the same as having no tie at the top |
| Convergence.FirstKeepsSlot | cluster.c:1544-1560 | a tie goes to the claimant heard first |
| Convergence.SkipIsHarmless | cluster.c:1880-1895 | scanning a claim that equals the slots on record would change nothing |
| Clusters.Cluster.UpdateSlotsConfigWith | cluster.c:1506-1594 | a slot goes to the sender iff it is claimed, not importing, not the sender's, and free or held under a smaller epoch; the null pointer is followed iff we are a slave without a master and a free slot was taken; else we are demoted iff our shard lost a slot and has none left; purged are our lost slots that hold keys; all invariants stay |
| Clusters.Cluster.RebindSlots | cluster.c:1529-1566 | the scan: exact new owner table, whether a slot of our master was taken, and the list of lost slots with keys |
| Clusters.Cluster.AddSlot | cluster.c:3578-3583 | assigns an unassigned slot and nothing else; table, bitmaps and counters go on agreeing |
| Clusters.Cluster.DelSlot | cluster.c:3588-3595 | unassigns a slot; the server's assertion that the owner had the bit set never fires |
| Clusters.Cluster.DelNodeSlots | cluster.c:3599-3607 | walking a node's own bitmap unassigns exactly the slots the table gives it |
| Clusters.Cluster.CloseAllSlots | cluster.c:3611-3616 | no slot is open afterwards |
| Clusters.Cluster.FailoverReplaceYourMaster | cluster.c:2794-2822 | we become a master owning exactly our slots and those of the old master, or nothing changes |
| Clusters.Cluster.SetMaster | cluster.c:3798-3814 | we follow the node, unlinked from any former master, with open slots closed if we were a master; its two assertions are preconditions, met by packets and failover; for REPLICATE see `SlotCommands.Replicate`, and replica migration (cluster.c:3106) is not modelled |
| Clusters.Cluster.SetNodeAsMaster | cluster.c:1479-1493 | the node is a master without a master and on nobody's list; other lists are untouched |
| Clusters.Cluster.SwitchRole | cluster.c:1836-1868 | the role read off a header: new role, new master and the owner table, a demoted master losing all its slots |
| Clusters.Cluster.SlaveofIffListed | cluster.c:797-828 | a node's slaveof is m iff it occurs exactly once in m's slaves |
| Clusters.Cluster.Relink | cluster.c:1859-1867 | changing master keeps lists and pointers in agreement and touches no third list |
| Clusters.Cluster.NoSlotsIffZero | cluster.c:1575-1575 | a counter is zero exactly when the table gives the node nothing |
| Clusters.Cluster.SlavesGainNothing | cluster.c:3799-3800 | as long as slots only move to masters no slave owns one |
| Clusters.Cluster.EmptiedIffLost | cluster.c:1568-1575 | a node that lost slots to a claim is left with none iff the table no longer mentions it |
| Clusters.Cluster.constructor | cluster.c:407-448 | a fresh server is a master, alone, with no slots and no open ones |
| ClusterNodes.ClusterNode.SetSlotBit | cluster.c:3537-3559 | sets one bit and counts it once |
| ClusterNodes.ClusterNode.ClearSlotBit | cluster.c:3562-3567 | clears one bit and uncounts it once |
| ClusterNodes.ClusterNode.AddSlave | cluster.c:816-828 | appends a slave unless it is listed |
| ClusterNodes.ClusterNode.RemoveSlave | cluster.c:797-814 | removes the first occurrence, keeping the order of the rest |
| ClusterNodes.ClusterNode.AddFailureReport | cluster.c:712-735 | the list, read as a map from sender to time, gets one update, and stays free of duplicates |
| ClusterNodes.ClusterNode.CleanupFailureReports | cluster.c:742-756 | exactly the expired reports go |
| ClusterNodes.ClusterNode.DelFailureReport | cluster.c:769-787 | a report found is withdrawn, and the expired ones with it; else nothing changes |
| ClusterNodes.ClusterNode.FailureReportsCount | cluster.c:792-795 | the number of senders with an unexpired report |
| ClusterNodes.ReportedSize | cluster.c:792-795 | with one report per sender the length of the list is the size of the map |
| ClusterNodes.KeptIsUnexpired | cluster.c:751-755 | dropping list elements by age is restricting the map by age |
| Bitmap.EqualBytesIffEqualMembers | cluster.c:1888-1889 | two bitmaps compare equal byte by byte iff they hold the same slots |
| Bitmap.TestBit | cluster.c:3499-3503 | whether the slot is in the set the bitmap stands for, which is whether `(byte >> (pos % 8)) & 1` is one for byte `pos / 8` |
| Bitmap.SetBit | cluster.c:3506-3510 | adds one slot to the set and no other: byte `pos / 8` is or-ed with `1 << (pos % 8)`, its value grows by two to the `pos % 8` unless the bit was set, and the other bytes stay |
| Bitmap.ClearBit | cluster.c:3513-3517 | removes one slot from the set and no other: that bit of that byte goes, and with it two to the `pos % 8` of its value if it was set |
| Bitmap.MemberIsDigit | cluster.c:3499-3503 | a slot is in the set iff its binary digit of its byte, read as a number, is one |
| Bitmap.BitsMoveValue | cluster.c:3506-3517 | setting a bit adds the weight of its place to the value of a byte, clearing it takes it away, and neither does anything the second time |
| Packets.ProcessPing | cluster.c:1664-1948 | a whole ping, over the fields: the sender's epoch and ours become the greater ones; ours moves iff both are masters, the packet, our record of the sender and we have one epoch, and its name is greater; a master's claim takes exactly the claimed slots that are not the sender's, not being imported, and free or held under a smaller epoch, a slave only loses what it had; we are demoted iff our shard lost a slot and has none; purged are our lost slots with keys; the owner to report back is one of a claimed slot held under a greater epoch, and for a master there is one if any owner but us is |
| Packets.TakeClaim | cluster.c:1880-1895 | acting on a claim only when bitmaps differ has the effect of always acting on it |
| Packets.EqualBitmapsTakeNothing | cluster.c:1888-1895 | a claim equal to the bitmap on record takes no slot |
| Packets.EqualBitmapsAreUpToDate | cluster.c:1915-1925 | nor is its sender behind on any slot |
| Packets.FindNewerOwner | cluster.c:1915-1939 | the owner of the first claimed slot held under a greater epoch, or none if there is no such slot |
| Packets.PingFromSlave | cluster.c:1841-1867 | a slave's packet rebinds nothing; its sender loses slots only if it was a master; news is sent iff its master's slots differ and some slot is outdated |
| Packets.ProcessUpdate | cluster.c:2020-2042 | acted on iff newer than the record; then the node is a master with that epoch and takes the claimed slots that are not its own, not being imported, and free or held under a smaller epoch, unless it is ourselves; exact demotion and slots to purge |
| Packets.BuildHeader | cluster.c:2187-2242 | a header carries our current epoch and our master's name; epoch and slots are our own if we have no master, else those of our master, and the slots are exactly those the owner table gives it |
| Epochs.GetMaxEpoch | cluster.c:946-960 | the greatest of the current epoch and all configEpochs on record |
| Epochs.BumpConfigEpoch | cluster.c:990-1007 | bumps iff our epoch is zero or below the current one, and then lands strictly above every other |
| Epochs.HandleConfigEpochCollision | cluster.c:1055-1070 | we move iff both are masters with one epoch and the sender's name is greater |
| Epochs.MaxIsCurrent | cluster.c:278-283 | among consistent epochs the greatest is the current one |
| Epochs.AbsorbEpochs | cluster.c:1668-1677 | current epoch and sender's record become the greater of theirs and the header's; epochs stay consistent iff the header's configEpoch is not above the current epoch |
| EpochRules.MaxEpoch | cluster.c:946-960 | an upper bound of all epochs on record that is attained |
| Votes.SendFailoverAuthIfNeeded | cluster.c:2594-2694 | a vote is given iff we are a master with slots, the request is not below the current epoch, we have not voted in it, the asker is a slave with a known master that is failing or the request is forced, our last vote about that master is two time-outs old, and each slot claimed is free or held under an epoch not above the request's; it raises lastVoteEpoch to the current epoch, and the slave voted for is outdated on no slot |
| Votes.VotedForIsUpToDate | cluster.c:2671-2686 | the test on the claimed slots is what keeps a voted-for slave from being told of a newer owner |
| Gossip.GossipEntry | cluster.c:1336-1355 | a node becomes FAIL iff a master says it is failing, it is PFAIL, not FAIL and not ourselves, and the senders with a live report, that master and ourselves if we are a master, counted as a set, are more than half the cluster; otherwise the report map gets one update or withdrawal |
| Gossip.MarkNodeAsFailingIfNeeded | cluster.c:1171-1195 | marks iff PFAIL, not FAIL, and the set of senders with a live report, with ourselves if we are a master, has more than half the cluster's size |
| Gossip.TwoOfThree | cluster.c:1179-1188 | a state of three masters in which one other accuser and we ourselves are the quorum |
| Gossip.ReportsMeanLastWords | cluster.c:712-795 | over any history, however clean-ups interleave, exactly those senders count whose last word is an accusation that has not expired |
| Gossip.Replay | cluster.c:712-795 | whatever happens to a node's report list, read as a map it is what the events make of it one by one |
| Gossip.CountAfter | cluster.c:792-795 | after any history the list operations count exactly those senders |
| Gossip.CountMasters | cluster.c:3665-3687 | cluster size is the number of masters serving slots; reachable ones are those without a failure flag |
| Membership.DelNode | cluster.c:883-910 | afterwards no owner, importing or migrating entry, slaves list, slaveof or failure report of a remaining node refers to the deleted one, and every other entry is as before |
| Membership.AddNode | cluster.c:864-870 | a node just created joins, and owns nothing |
| Membership.FreeNode | cluster.c:839-861 | its slaves are orphaned and it leaves its master's list; lists and pointers go on agreeing |
| Membership.ForgetSlots | cluster.c:888-896 | exactly the entries that mention the node are cleared in the three slot tables |
| SlotCommands.AddOrDelSlots | cluster.c:4113-4162 | accepted iff every argument is in range, free or taken as needed, and named once; then all the slots named change hands and their imports are closed, else nothing changes and the error names the fault of the first bad argument; the assertion never fires |
| SlotCommands.CheckSlots | cluster.c:4121-4145 | accepts iff every argument is in range, free or taken as needed, and named once |
| SlotCommands.OnlyMastersMayAdd | cluster.c:4146-4159 | the command keeps slaves without slots iff it deletes or we are no slave |
| SlotCommands.SetSlotNode | cluster.c:4205-4253 | error conditions in order; owner, migration and import of exactly that slot; a closed import puts our configEpoch at the current epoch |
| SlotCommands.OnlyMastersMayReceive | cluster.c:4205-4253 | naming a node keeps slaves without slots iff it is no slave |
| SlotCommands.SlaveAddsSlots | cluster.c:4146-4159 | a state in which a slave accepts ADDSLOTS and owns a slot afterwards |
| SlotCommands.SlaveReceivesSlot | cluster.c:4205-4253 | a state in which a master accepts SETSLOT NODE for a slave, which owns a slot afterwards |
| SlotCommands.Replicate | cluster.c:4412-4445 | error conditions in order; the assertion that we own no slots fails exactly for a slave with slots; else we follow the node |
| SlotCommands.SlaveAddsThenReplicates | cluster.c:3800-3800 | a state in which it fails |
| SlotCommands.OrphanHearsClaim | cluster.c:1557-1575 | a state in which the null pointer is followed |
| SlotTable.OwnedAfterAssign | cluster.c:3578-3595 | assigning one slot moves exactly that slot between the sets of slots owned |
| Refinement.ReceivePing | cluster.c:1664-1948 | the heap node's reaction to a ping is the network model's, and being demoted is losing our shard's last slot |
| Refinement.SendPing | cluster.c:2187-2242 | the header of a ping, built on the heap, is the one the network model's node sends |
| Refinement.ReceiveRequest | cluster.c:1997-1999 | its reaction to a vote request is the network model's, a vote being given iff the model gives one |
| Refinement.ReceiveAck | cluster.c:1997-2008 | its reaction to a vote is: counted iff from a master with slots and for the election under way or a later epoch |
| Refinement.ReceiveUpdate | cluster.c:2020-2042 | its reaction to an update is, our own promotion included; being demoted is losing our shard's last slot to the node it is about |
| Refinement.Tick | cluster.c:2832-2997 | a call of the failover handler is the model's, and a win takes exactly the old master's slots |
| TableRefinement.ReceiveAnnouncement | cluster.c:1664-1895 | the heap's owner table, importing flags and recorded epochs change with a master's ping as the convergence model says, being demoted apart |
| TableRefinement.SameSlotsTaken | cluster.c:1529-1546 | the rule on the heap and the rule of the convergence model take the same slots, before and after the announced epoch goes on record |
| Refinement.Bump | cluster.c:990-1007 | its bump is the network model's |
| SlaveFailover.Advance | cluster.c:2832-2975 | the handler's tests in order: their effect on the election fields and the current epoch, for every state of the cluster, is the rule whose every answer Failover.HandlerAnswers writes out |
| SlaveFailover.HandleSlaveFailover | cluster.c:2832-2997 | the whole call, over the fields: anything happens iff we are a slave whose known master has slots and is failing or being failed over by hand; our data is refused iff it is older than the ping period and the validity factor allow, the time-out being deducted, and the failover is not by hand; a new attempt is due now if by hand, else after 500 ms, the random delay and a second per rank; on a win, and only then, our configEpoch becomes the greater of it and the election's and we are a master with exactly the old master's slots; all invariants stay |
| Failover.HandlerAnswers | cluster.c:2832-2975 | when the handler gives each of its eight answers, each exactly, and what it then leaves in the election fields |
| Failover.AsksOnlyForGoodReason | cluster.c:2858-2868 | a slave asks for votes only at a call at which its master has slots and is failing or being failed over by hand |
| SlaveFailover.ReceiveAck | cluster.c:2002-2006 | a vote is counted iff its sender is a master with slots and it answers the election under way or a later epoch |
| Failover.ElectionTiming | cluster.c:2901-2975 | over every run an unsent attempt is due at its base time plus a second per rank, an attempt asks for votes at most once, and the epochs asked for strictly increase |
| Failover.ScheduleOnlyMovesForward | cluster.c:2901-2961 | no call moves the scheduled time back; votes are asked for inside the attempt's window; a win takes a sent request and a quorum |
| Failover.TimeNeverMovesBack | cluster.c:2936-2949 | the same between any two moments of a run, and requests made are never unmade |
| Routing.GetNodeByQuery | cluster.c:5205-5366 | every answer exactly, over keys, table and flags: unbound, cross-slot, cluster down, ask (and whom), unstable, moved (and where to), and locally for queries without keys; it is the destination of the concatenated keys of all queued commands |
| Routing.EveryAnswer | cluster.c:5310-5366 | the same of the destination itself |
| Routing.OnlyTheKeysMatter | cluster.c:5235-5308 | order, repetition and distribution of keys do not matter, except to which of two errors a query over several slots gets |
| Routing.ServedHere | cluster.c:5320-5364 | exactly when a query with keys is served locally |
| Routing.NobodyIsLost | cluster.c:5330-5350 | while a slot moves, whatever the flags and whether or not either cluster is up: the source serves what it has all keys of and sends the rest to the target, which serves what it is asked for with ASKING but for several keys it does not all have, and sends anything else back, MIGRATE and a read of its own master's slot apart; a cluster that is down says so |
| Routing.ErrorStands | cluster.c:5265-5296 | an error found at some key is the destination of the whole query |
| SlotRuns.PrintSlots | cluster.c:3883-3901 | the scan prints exactly the runs of the bitmap, a run ending at the last slot included |
| SlotRuns.RunsAreRuns | cluster.c:3883-3901 | runs are ascending, not adjacent, and cover exactly the slots |
| SlotRuns.RunsAreMaximal | cluster.c:3883-3901 | no run could be longer |
| SlotRuns.SameRunsIffSameSlots | cluster.c:3883-3901 | two nodes print alike iff they serve the same slots |
| ServerFile.ServerRoundTrip | cluster.c:3855-3952 | a server whose views and links agree writes a valid file, and loading it gives back its owner table, roles, links in both directions, epochs, addresses and open slots |
| ServerFile.SavedIsValid | cluster.c:3855-3952 | the lines such a server writes name each node once, share no slot, and one of them is its own |
| ServerFile.FlagsInPlainTerms | cluster.c:3825-3850 | each flag is written for the state it names, and no other |
| NodesFile.FileRoundTrip | cluster.c:89-284 | loading a saved file rebuilds owner table, master links in both directions, flags, addresses, configEpochs, open slots and variables; consistent epochs need no repair |
| NodesFile.EnterIsBuilt | cluster.c:160-266 | one more line extends what the lines before built, nodes being created when first mentioned |
| NodesFile.VarsReadBack | cluster.c:137-155 | the variables line reads back |
| NodesFile.SampleVars | cluster.c:137-155 | the variables as they are written, and read back by name in any case with unknown ones skipped |
| NodesFile.LoadedEpochIsGreatest | cluster.c:278-283 | after loading, the current epoch is the variables' or the greatest configEpoch on record, whichever is greater, and nothing else is repaired |
| NodesConf.LineReadsBack | cluster.c:160-266 | a printed line, loaded, enters exactly what it described |
| NodesConf.SampleLines | cluster.c:3855-3952 | a line of our own with runs and open slots, and the fields of a slave whose link is down, word by word |
| NodesConf.SlotsReadBack | cluster.c:258-265 | the printed runs give the node exactly its slots |
| NodesConf.OpenWordsReadBack | cluster.c:235-257 | migrating and importing slots read back with their peers |
| NodesConf.FlagsReadBack | cluster.c:182-210 | the printed flags read back, `noflags` included |
| NodesConf.AllFlags | cluster.c:3825-3850 | the flag words by name, in the order they are written, for any set of flags |
| NodesConf.AddressReadsBack | cluster.c:166-180 | the printed address reads back whatever colons the host part has |
| NodesConf.AddressWithoutBusPort | cluster.c:166-180 | an address without a bus port gets the one ten thousand above its port, and one without a colon is refused |
| NodesConf.FieldsRefused | cluster.c:160-210 | a line is refused before its slots iff its address has no colon, a flag is none of the eight words, or it is one `myself` too many |
| NodesConf.RangeIsAdded | cluster.c:265-265 | adding a range gives the node the unowned slots of the range and no other |
| NodesLoader.Loader.LoadAll | cluster.c:122-269 | the loader's loops compute the specification of loading, line by line and word by word |
| NodesLoader.Loader.LoadFlags | cluster.c:182-210 | in upper or lower case: a second `myself` or an unknown word is refused, anything else collected |
| NodesLoader.Loader.AddSlots | cluster.c:265-265 | the loop over a range |
| Text.AtoiOfDecimal | cluster.c:258-264 | a printed number reads back |
| Text.SplitOfJoin | cluster.c:182-210 | words joined by commas split back |
| Text.FoldsToLowerCase | cluster.c:182-206 | words are compared with all 26 letters folded and nothing else |
| SortSearch.Quicksort | sp_util.c:467-482 | for any total preorder the slice ends sorted and permuted, the rest untouched, and the recursion terminates |
| SortSearch.Partition | sp_util.c:415-464 | the split is strictly inside, everything before it at most and everything after at least the pivot; the pivot is followed through swaps and the scans stay in range |
| SortSearch.Sort | sp_util.c:484-493 | the whole array, sorted and a permutation |
| SortSearch.IsSorted | sp_util.c:394-412 | comparing neighbours decides sortedness |
| SortSearch.AdjacentSorted | sp_util.c:394-412 | neighbours in order means all pairs in order |
| SortSearch.PartsMakeSorted | sp_util.c:477-480 | two sorted parts split by a pivot make a sorted whole |
| SortSearch.SwapExtendsSides | sp_util.c:443-453 | a swap extends both sides of the partition |
| SortSearch.BinSearch | sp_util.c:533-559 | finds an equal element iff there is one, although the probe stays in the range |
| SortSearch.BinInsertUniq | sp_util.c:562-603 | the array stays strictly sorted and holds the old elements plus the new one, or is unchanged if an equal one exists; the index returned is its place |
| SortSearch.FindPlace | sp_util.c:574-588 | an equal element, or the only place that keeps the order |
| SortSearch.RotateIn | sp_util.c:590-597 | the rotation by swaps is an insertion |
| SortSearch.InsertKeepsStrict | sp_util.c:586-597 | inserting there keeps strict order |
| SmallString.SpStr.constructor | sp_str.c:22-37 | an empty string, in place or on the heap as the capacity says, zeros throughout |
| SmallString.SpStr.AppendLen | sp_str.c:182-206 | the visible text grows by exactly the piece; capacity follows the growth policy; zeros stay from length to capacity |
| SmallString.SpStr.Appends | sp_str.c:234-248 | all pieces in order; regrowth copies exactly what the policy says |
| SmallString.RegrowthIsLinear | sp_str.c:192-199 | an append-only run copies by regrowth at most twice the final length |
| SmallString.SpStr.Swap | sp_str.c:345-355 | the two strings trade places whichever arms their unions use |
| SmallString.SpStr.Clear | sp_str.c:330-342 | empty, same capacity, all zeros |
| SmallString.SpStr.Free | sp_str.c:136-152 | back to an empty string in place |
| Flatten.FieldToArg | struct.c:1298-1327 | the list built in place shows exactly Flat of the field |
| Flatten.LiveEntriesAreLeaves | to_string.c:2606-2634 | for any nesting the live entries are the leaves in source order under full dotted paths, a struct is dead iff it has members, and no field is lost or repeated |
| Flatten.Splice | to_string.c:2611-2634 | members renamed and linked in right behind the struct, in front of whatever followed it, and the struct retired |
| Flatten.MemberList | struct.c:860-878 | the member list is the concatenation of the fields' own lists |
| Flatten.MacroAddsOneIffNotNested | to_string.c:2636-2641 | macro-typed leaves show one extra level of pointer iff they are not nested |
| Flatten.NestedMacroAddsTwo | to_string.c:2636-2641 | inside one struct they show two |

## Left out

- Sockets, event loop, link buffers, file locking and writing, logging, pub/sub, client replies, DUMP, RESTORE and MIGRATE of cluster.c: I/O, or code of libraries that are not part of this model.
- CRC16, random choices and the clock: the hash is a function parameter, random delays are an input, time is an input.
- Nodes in handshake, renaming, addresses learnt from packets, blacklist timing, `mf_slave`, replica migration, manual failover beyond its effect on the failover handler: no effect on the properties above.
- CLUSTER_NODE_MIGRATE_TO: set and cleared beside the operations modelled, read only by replica migration.
- CLUSTER RESET, crash and restart inside a run: they break the monotone epochs the network proofs rest on.
- clusterUpdateState beyond the counts of masters: the OK and FAIL state is an input of Routing.
- clusterGetSlaveRank: the rank is an input of the failover handler.
- Clusters.Cluster.DelNodeSlots: does not model the return value, which counts loop iterations rather than deletions.
- Clusters.Cluster.UpdateSlotsConfigWith: a crash is a result, and nothing is said about the server afterwards but its tables; keys are a set of populated slots.
- Election.ElectionSafety: assumes that votes are never asked for with a counter that is not zero, because TwoWinners shows the property false without that; the condition is exact for the counters, one direction for safety itself, since votes carried over need not change who wins.
- NodesFile.FileRoundTrip: lines are sequences of words; splitting at blanks (sdssplitargs is not part of this model), ping and pong times and flag words with no printable flag are not modelled, and a slot both migrating and importing is excluded because only the first is printed.
- NodesLoader.Loader.LoadAll: the owner table is a map, so a slot number beyond the table, which the server trusts the file not to have, is not an error.
- Routing.GetNodeByQuery: getKeysFromCommand is not modelled; the keys of each command are given.
- SmallString.SpStr.AppendStr: excludes appending a string to itself, where a regrowth would free what is being read.
- Flatten.FieldToArg: type names, format strings and unnamed structs are not modelled; a field declaration has one declarator, which is all `__field_name` returns.
- Scalar swaps, hex and byte-order helpers of sp_util.c, comparisons and lengths of sp_str.c, the type tables of to_string.c, tree-sitter traversal, jansson output, branch numbering and main programs: easy members or foreign calls.
