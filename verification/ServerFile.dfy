/** What a server writes is a valid file, and loading it gives the server's own tables back. */
module ServerFile {
  import opened Options
  import opened Bitmap
  import opened Sequences
  import opened SlotTable
  import opened ClusterNodes
  import opened Clusters
  import opened Epochs
  import opened NodesConf
  import opened NodesFile

  /** What a line says of a node that the cluster's state proper does not: how its name is written, its
      address, and how its link is doing. */
  datatype Label = Label(name: string, ip: string, port: nat, cport: nat, ping: nat, pong: nat, linked: bool)

  /** Every node has a label, with a name of its own. */
  ghost predicate Labelled(c: Cluster, labels: map<ClusterNode, Label>)
    reads c`nodes
  {
    && c.nodes <= labels.Keys
    && (forall n | n in c.nodes :: IsName(labels[n].name))
    && forall a, b | a in c.nodes && b in c.nodes && a != b :: labels[a].name != labels[b].name
  }

  /** The nodes in some order, each once: the order in which they are written. */
  ghost predicate Ordered(c: Cluster, order: seq<ClusterNode>)
    reads c`nodes
  {
    NoDuplicates(order) && (set n | n in order) == c.nodes
  }

  /** Open slots name nodes we know, and none is open both ways. */
  ghost predicate OpenSlotsOk(c: Cluster)
    reads c`nodes, c.importing, c.migrating
  {
    && c.importing.Length == c.migrating.Length
    && (forall k | 0 <= k < c.importing.Length :: c.importing[k] == null || c.importing[k] in c.nodes)
    && (forall k | 0 <= k < c.migrating.Length :: c.migrating[k] == null || c.migrating[k] in c.nodes)
    && forall k | 0 <= k < c.importing.Length :: c.importing[k] == null || c.migrating[k] == null
  }

  /** Everything that the file is about is in order. */
  ghost predicate Savable(c: Cluster, labels: map<ClusterNode, Label>, order: seq<ClusterNode>)
    reads c`nodes, c`myself, c.slots, c.importing, c.migrating, c.nodes`numslots, c.Bitmaps()
    reads c.nodes`slaves, c.nodes`slaveof, c.nodes`master, c.nodes`slave
  {
    c.Shape() && c.Views() && c.Graph() && OpenSlotsOk(c) && Labelled(c, labels) && Ordered(c, order)
  }

  function NameOf(labels: map<ClusterNode, Label>, n: ClusterNode?): Option<string> {
    if n != null && n in labels then Some(labels[n].name) else None
  }

  function FlagsOf(n: ClusterNode, me: ClusterNode): set<string>
    reads n`master, n`slave, n`pfail, n`fail
  {
    (if n == me then {"myself"} else {}) + (if n.master then {"master"} else {}) + (if n.slave then {"slave"} else {})
    + (if n.pfail then {"fail?"} else {}) + (if n.fail then {"fail"} else {})
  }

  /** A table of open slots, in words. */
  function OpenOf(table: seq<ClusterNode?>, labels: map<ClusterNode, Label>): map<nat, string> {
    map k: nat | k < |table| && NameOf(labels, table[k]).Some? :: NameOf(labels, table[k]).value
  }

  /** The line of one node. */
  ghost function EntryOf(c: Cluster, labels: map<ClusterNode, Label>, n: ClusterNode): Entry
    requires n in labels
    reads c`myself, c.importing, c.migrating, n, n.bitmap
  {
    var l, mine := labels[n], n == c.myself;
    Entry(l.name, l.ip, l.port, l.cport, FlagsOf(n, c.myself), NameOf(labels, n.slaveof), l.ping, l.pong, n.configEpoch, l.linked || mine,
          n.Bits(), if mine then OpenOf(c.migrating[..], labels) else map[], if mine then OpenOf(c.importing[..], labels) else map[])
  }

  ghost function EntriesOf(c: Cluster, labels: map<ClusterNode, Label>, order: seq<ClusterNode>): (es: seq<Entry>)
    requires forall n :: n in order ==> n in labels
    reads c`myself, c.importing, c.migrating, order, set n | n in order :: n.bitmap
    ensures |es| == |order| && forall i :: 0 <= i < |es| ==> es[i] == EntryOf(c, labels, order[i])
  {
    if order == [] then []
    else EntriesOf(c, labels, order[..|order| - 1]) + [EntryOf(c, labels, order[|order| - 1])]
  }

  /** The lines of a server's file. */
  ghost predicate Written(c: Cluster, labels: map<ClusterNode, Label>, order: seq<ClusterNode>, es: seq<Entry>)
    reads c`nodes, c`myself, c.slots, c.importing, c.migrating, c.nodes, c.Bitmaps(), order, set n | n in order :: n.bitmap
  {
    Savable(c, labels, order) && (forall n :: n in order ==> n in labels) && es == EntriesOf(c, labels, order)
  }

  // -------------------------------------------------------------------- it is a valid file

  /** Each flag is written for what it stands for, and nothing else is. */
  lemma FlagsInPlainTerms(n: ClusterNode, me: ClusterNode)
    ensures var f := FlagsOf(n, me);
            && ("myself" in f <==> n == me) && ("master" in f <==> n.master) && ("slave" in f <==> n.slave)
            && ("fail?" in f <==> n.pfail) && ("fail" in f <==> n.fail)
            && f <= {"myself", "master", "slave", "fail?", "fail"}
  {
    assert |"fail?"| == 5 && |"fail"| == 4 && |"slave"| == 5 && |"master"| == 6 && |"myself"| == 6;
    assert "master"[1] == 'a' && "myself"[1] == 'y' && "fail?"[0] == 'f' && "slave"[0] == 's';
  }

  lemma FlagsAreKnown(n: ClusterNode, me: ClusterNode)
    ensures forall f :: f in FlagsOf(n, me) ==> f in FLAGS
  {
    assert FLAGS[0] == "myself" && FLAGS[1] == "master" && FLAGS[2] == "slave" && FLAGS[3] == "fail?" && FLAGS[4] == "fail";
  }

  /** The peers of open slots have proper names. */
  lemma OpenIsNamed(c: Cluster, labels: map<ClusterNode, Label>, table: seq<ClusterNode?>)
    requires Labelled(c, labels) && forall k | 0 <= k < |table| :: table[k] == null || table[k] in c.nodes
    ensures forall k :: k in OpenOf(table, labels) ==> k < |table| && table[k] != null && IsName(OpenOf(table, labels)[k])
  {
  }

  lemma FieldsAreValid(e: Entry, n: nat)
    requires IsName(e.name) && (e.master.Some? ==> IsName(e.master.value)) && (forall f :: f in e.flags ==> f in FLAGS)
    requires (forall k :: k in e.slots ==> k < n) && PeersNamed(e)
    requires forall k :: k in e.migrating ==> k < n && k !in e.importing
    requires forall k :: k in e.importing ==> k < n
    requires "myself" !in e.flags ==> e.migrating == map[] && e.importing == map[]
    ensures ValidEntry(e, n)
  {
  }

  lemma EntryIsValid(c: Cluster, labels: map<ClusterNode, Label>, order: seq<ClusterNode>, n: ClusterNode)
    requires Savable(c, labels, order) && n in c.nodes
    ensures ValidEntry(EntryOf(c, labels, n), c.slots.Length)
  {
    var e := EntryOf(c, labels, n);
    FlagsAreKnown(n, c.myself);
    OpenIsNamed(c, labels, c.migrating[..]);
    OpenIsNamed(c, labels, c.importing[..]);
    assert n.slaveof != null ==> n.slaveof in c.nodes;
    FieldsAreValid(e, c.slots.Length);
  }

  lemma SavedIsValid(c: Cluster, labels: map<ClusterNode, Label>, order: seq<ClusterNode>, es: seq<Entry>)
    requires Written(c, labels, order, es)
    ensures ValidFile(es, c.slots.Length)
  {
    forall i | 0 <= i < |es| ensures ValidEntry(es[i], c.slots.Length) {
      EntryIsValid(c, labels, order, order[i]);
    }
    forall i, j | 0 <= i < j < |es| ensures es[i].name != es[j].name && es[i].slots !! es[j].slots {
      OwnDifferently(c, order[i], order[j]);
    }
    forall i, j | 0 <= i < j < |es| && "myself" in es[i].flags ensures "myself" !in es[j].flags {
      MineSaysMyself(c, labels, order[i]);
      MineSaysMyself(c, labels, order[j]);
    }
  }

  lemma OwnDifferently(c: Cluster, a: ClusterNode, b: ClusterNode)
    requires c.Shape() && c.Views() && a in c.nodes && b in c.nodes && a != b
    ensures a.Bits() !! b.Bits()
  {
    assert a.Bits() == Owned(c.slots[..], a) && b.Bits() == Owned(c.slots[..], b);
  }

  lemma MineSaysMyself(c: Cluster, labels: map<ClusterNode, Label>, n: ClusterNode)
    requires n in labels
    ensures "myself" in EntryOf(c, labels, n).flags <==> n == c.myself
  {
  }

  // ---------------------------------------------------------- what the lines say, taken together

  lemma {:induction false} LineIsFound(es: seq<Entry>, i: nat)
    requires i < |es| && forall j, k :: 0 <= j < k < |es| ==> es[j].name != es[k].name
    ensures LineOf(es, es[i].name) == Some(es[i])
  {
    if i < |es| - 1 {
      LineIsFound(es[..|es| - 1], i);
    }
  }

  lemma {:induction false} MyLineIsFound(es: seq<Entry>, i: nat)
    requires i < |es| && forall j :: 0 <= j < |es| ==> ("myself" in es[j].flags <==> j == i)
    ensures MyLine(es) == Some(es[i])
  {
    if i < |es| - 1 {
      MyLineIsFound(es[..|es| - 1], i);
    }
  }

  ghost predicate IsSlaveOf(e: Entry, name: string, s: string) {
    e.name == s && e.master == Some(name)
  }

  lemma {:induction false} SlavesAreLines(es: seq<Entry>, name: string, s: string)
    ensures s in SlavesOf(es, name) <==> exists i :: 0 <= i < |es| && IsSlaveOf(es[i], name, s)
  {
    if es != [] {
      var n := |es| - 1;
      SlavesAreLines(es[..n], name, s);
      if i :| 0 <= i < |es| && IsSlaveOf(es[i], name, s) && i < n {
        assert IsSlaveOf(es[..n][i], name, s);
      }
    }
  }

  lemma {:induction false} MentionedIs(es: seq<Entry>, names: set<string>)
    requires forall i :: 0 <= i < |es| ==> Named(es[i]) + es[i].migrating.Values + es[i].importing.Values <= names
    requires forall x :: x in names ==> exists i :: 0 <= i < |es| && es[i].name == x
    ensures Mentioned(es) == names
  {
    MentionedAtMost(es, names);
    forall x | x in names ensures x in Mentioned(es) {
      var i :| 0 <= i < |es| && es[i].name == x;
      MentionedAtLeast(es, i);
    }
  }

  lemma {:induction false} MentionedAtMost(es: seq<Entry>, names: set<string>)
    requires forall i :: 0 <= i < |es| ==> Named(es[i]) + es[i].migrating.Values + es[i].importing.Values <= names
    ensures Mentioned(es) <= names
  {
    if es != [] {
      MentionedAtMost(es[..|es| - 1], names);
    }
  }

  lemma {:induction false} MentionedAtLeast(es: seq<Entry>, i: nat)
    requires i < |es|
    ensures es[i].name in Mentioned(es)
  {
    if i < |es| - 1 {
      MentionedAtLeast(es[..|es| - 1], i);
    }
  }

  // ------------------------------------------------------------------ what comes back

  /** The loaded owner table is the saver's, in names. */
  ghost predicate SameOwners(c: Cluster, labels: map<ClusterNode, Label>, st: State)
    reads c.slots
  {
    && (forall k: nat :: k in st.owner <==> k < c.slots.Length && c.slots[k] != null)
    && forall k :: k in st.owner && k < c.slots.Length ==> Some(st.owner[k]) == NameOf(labels, c.slots[k])
  }

  /** A loaded record says what the saver had on record: flags, address, epoch, and links both ways. */
  ghost predicate SameRecord(c: Cluster, labels: map<ClusterNode, Label>, n: ClusterNode, r: Rec)
    requires n in labels
    reads c`nodes, c`myself, n, n.slaves
  {
    && r.ip == labels[n].ip && r.port == labels[n].port && r.cport == labels[n].cport
    && r.flags == FlagsOf(n, c.myself) && r.epoch == n.configEpoch && r.master == NameOf(labels, n.slaveof)
    && forall s :: s in r.slaves <==> exists m | m in n.slaves :: NameOf(labels, m) == Some(s)
  }

  lemma PlaceOf(order: seq<ClusterNode>, n: ClusterNode) returns (i: nat)
    requires n in order
    ensures i < |order| && order[i] == n
  {
    i :| i < |order| && order[i] == n;
  }

  /** What a line says of one slot. */
  lemma SlotOnLine(c: Cluster, labels: map<ClusterNode, Label>, n: ClusterNode, k: nat)
    requires c.Shape() && c.Views() && n in c.nodes && n in labels
    ensures k in EntryOf(c, labels, n).slots <==> k < c.slots.Length && c.slots[k] == n
  {
    assert k in n.Bits() <==> k in Owned(c.slots[..], n);
  }

  lemma SlotIsOwned(c: Cluster, labels: map<ClusterNode, Label>, order: seq<ClusterNode>, es: seq<Entry>, i: nat, k: nat)
    requires Written(c, labels, order, es) && i < |es| && k in es[i].slots
    ensures k < c.slots.Length && c.slots[k] == order[i] && NameOf(labels, c.slots[k]) == Some(es[i].name)
  {
    SlotOnLine(c, labels, order[i], k);
  }

  lemma OwnedSlot(c: Cluster, labels: map<ClusterNode, Label>, order: seq<ClusterNode>, es: seq<Entry>, k: nat) returns (i: nat)
    requires Written(c, labels, order, es) && k < c.slots.Length && c.slots[k] != null
    ensures i < |es| && k in es[i].slots
  {
    i := PlaceOf(order, c.slots[k]);
    SlotOnLine(c, labels, order[i], k);
  }

  lemma OwnerFrom(owner: map<nat, string>, es: seq<Entry>, k: nat) returns (i: nat)
    requires OwnerBuilt(owner, es) && k in owner
    ensures i < |es| && k in es[i].slots && owner[k] == es[i].name
  {
    i :| i < |es| && k in es[i].slots;
  }

  lemma OwnerComesBack(c: Cluster, labels: map<ClusterNode, Label>, order: seq<ClusterNode>, es: seq<Entry>,
                       owner: map<nat, string>, k: nat)
    requires Written(c, labels, order, es) && OwnerBuilt(owner, es) && k in owner
    ensures k < c.slots.Length && c.slots[k] != null && Some(owner[k]) == NameOf(labels, c.slots[k])
  {
    var i := OwnerFrom(owner, es, k);
    SlotIsOwned(c, labels, order, es, i, k);
  }

  lemma NoOwnerIsLost(c: Cluster, labels: map<ClusterNode, Label>, order: seq<ClusterNode>, es: seq<Entry>,
                      owner: map<nat, string>, k: nat)
    requires Written(c, labels, order, es) && OwnerBuilt(owner, es) && k < c.slots.Length && c.slots[k] != null
    ensures k in owner
  {
    var i := OwnedSlot(c, labels, order, es, k);
    LineIsBuilt(owner, es, i, k);
  }

  lemma LineIsBuilt(owner: map<nat, string>, es: seq<Entry>, i: nat, k: nat)
    requires OwnerBuilt(owner, es) && i < |es| && k in es[i].slots
    ensures k in owner
  {
  }

  lemma OwnersReadBack(c: Cluster, labels: map<ClusterNode, Label>, order: seq<ClusterNode>, es: seq<Entry>, st: State)
    requires Written(c, labels, order, es) && OwnerBuilt(st.owner, es)
    ensures SameOwners(c, labels, st)
  {
    forall k: nat | k in st.owner
      ensures k < c.slots.Length && c.slots[k] != null && Some(st.owner[k]) == NameOf(labels, c.slots[k])
    {
      OwnerComesBack(c, labels, order, es, st.owner, k);
    }
    forall k: nat | k < c.slots.Length && c.slots[k] != null ensures k in st.owner {
      NoOwnerIsLost(c, labels, order, es, st.owner, k);
    }
  }

  /** What a line says of its master. */
  lemma MasterOnLine(c: Cluster, labels: map<ClusterNode, Label>, order: seq<ClusterNode>, n: ClusterNode, m: ClusterNode, s: string)
    requires Savable(c, labels, order) && n in c.nodes && m in c.nodes
    ensures IsSlaveOf(EntryOf(c, labels, m), labels[n].name, s) <==> m in n.slaves && labels[m].name == s
  {
    assert m.slaveof != null ==> m.slaveof in c.nodes;
  }

  lemma SlavesReadBack(c: Cluster, labels: map<ClusterNode, Label>, order: seq<ClusterNode>, es: seq<Entry>, n: ClusterNode, s: string)
    requires Written(c, labels, order, es)
    requires n in c.nodes
    ensures s in SlavesOf(es, labels[n].name) <==> exists m | m in n.slaves :: NameOf(labels, m) == Some(s)
  {
    SlavesAreLines(es, labels[n].name, s);
    if i :| 0 <= i < |es| && IsSlaveOf(es[i], labels[n].name, s) {
      MasterOnLine(c, labels, order, n, order[i], s);
      assert NameOf(labels, order[i]) == Some(s);
    }
    if m :| m in n.slaves && NameOf(labels, m) == Some(s) {
      SlaveHasLine(c, labels, order, es, n, m, s);
    }
  }

  lemma SlaveHasLine(c: Cluster, labels: map<ClusterNode, Label>, order: seq<ClusterNode>, es: seq<Entry>, n: ClusterNode,
                     m: ClusterNode, s: string)
    requires Written(c, labels, order, es) && n in c.nodes && m in n.slaves && NameOf(labels, m) == Some(s)
    ensures exists i :: 0 <= i < |es| && IsSlaveOf(es[i], labels[n].name, s)
  {
    var i := PlaceOf(order, m);
    MasterOnLine(c, labels, order, n, m, s);
    assert IsSlaveOf(es[i], labels[n].name, s);
  }

  lemma NamesDiffer(c: Cluster, labels: map<ClusterNode, Label>, order: seq<ClusterNode>, es: seq<Entry>)
    requires Written(c, labels, order, es)
    ensures forall j, k :: 0 <= j < k < |es| ==> es[j].name != es[k].name
  {
    forall j, k | 0 <= j < k < |es| ensures es[j].name != es[k].name {
      assert order[j] != order[k];
    }
  }

  lemma RecordReadsBack(c: Cluster, labels: map<ClusterNode, Label>, order: seq<ClusterNode>, es: seq<Entry>, n: ClusterNode)
    requires Written(c, labels, order, es)
    requires n in c.nodes
    ensures SameRecord(c, labels, n, Summary(es, labels[n].name))
  {
    var i := PlaceOf(order, n);
    NamesDiffer(c, labels, order, es);
    LineIsFound(es, i);
    forall s ensures s in SlavesOf(es, labels[n].name) <==> exists m | m in n.slaves :: NameOf(labels, m) == Some(s) {
      SlavesReadBack(c, labels, order, es, n, s);
    }
  }

  ghost function NamesOf(c: Cluster, labels: map<ClusterNode, Label>): set<string>
    requires c.nodes <= labels.Keys
    reads c`nodes
  {
    set n | n in c.nodes :: labels[n].name
  }

  lemma LinesSpeakOfNodes(c: Cluster, labels: map<ClusterNode, Label>, order: seq<ClusterNode>, es: seq<Entry>)
    requires Written(c, labels, order, es)
    ensures Mentioned(es) == NamesOf(c, labels)
  {
    var names := NamesOf(c, labels);
    forall i | 0 <= i < |es| ensures Named(es[i]) + es[i].migrating.Values + es[i].importing.Values <= names {
      EntrySpeaksOfNodes(c, labels, order, order[i]);
    }
    forall x | x in names ensures exists i :: 0 <= i < |es| && es[i].name == x {
      var n :| n in c.nodes && labels[n].name == x;
      var i := PlaceOf(order, n);
      assert es[i].name == x;
    }
    MentionedIs(es, names);
  }

  lemma OpenNames(c: Cluster, labels: map<ClusterNode, Label>, table: seq<ClusterNode?>)
    requires c.nodes <= labels.Keys && forall k | 0 <= k < |table| :: table[k] == null || table[k] in c.nodes
    ensures OpenOf(table, labels).Values <= NamesOf(c, labels)
  {
    forall x | x in OpenOf(table, labels).Values ensures x in NamesOf(c, labels) {
      var k: nat :| k in OpenOf(table, labels) && OpenOf(table, labels)[k] == x;
      assert labels[table[k]].name in NamesOf(c, labels);
    }
  }

  lemma FieldsSpeakOf(e: Entry, names: set<string>)
    requires e.name in names && (e.master.Some? ==> e.master.value in names)
    requires e.migrating.Values <= names && e.importing.Values <= names
    ensures Named(e) + e.migrating.Values + e.importing.Values <= names
  {
  }

  lemma MasterIsNode(c: Cluster, labels: map<ClusterNode, Label>, n: ClusterNode)
    requires c.Graph() && n in c.nodes && c.nodes <= labels.Keys
    ensures NameOf(labels, n.slaveof).Some? ==> NameOf(labels, n.slaveof).value in NamesOf(c, labels)
  {
    if n.slaveof != null {
      assert n.slaveof in c.nodes;
    }
  }

  lemma EntrySpeaksOfNodes(c: Cluster, labels: map<ClusterNode, Label>, order: seq<ClusterNode>, n: ClusterNode)
    requires Savable(c, labels, order) && n in c.nodes
    ensures var e := EntryOf(c, labels, n); Named(e) + e.migrating.Values + e.importing.Values <= NamesOf(c, labels)
  {
    OpenNames(c, labels, c.migrating[..]);
    OpenNames(c, labels, c.importing[..]);
    MasterIsNode(c, labels, n);
    var e := EntryOf(c, labels, n);
    assert e.migrating.Values <= NamesOf(c, labels) && e.importing.Values <= NamesOf(c, labels);
    FieldsSpeakOf(e, NamesOf(c, labels));
  }

  /** Our own line: the open slots. */
  lemma MyLineReadsBack(c: Cluster, labels: map<ClusterNode, Label>, order: seq<ClusterNode>, es: seq<Entry>)
    requires Written(c, labels, order, es)
    ensures MyLine(es) == Some(EntryOf(c, labels, c.myself))
    ensures exists i :: 0 <= i < |es| && "myself" in es[i].flags
  {
    var i := PlaceOf(order, c.myself);
    forall j | 0 <= j < |es| ensures "myself" in es[j].flags <==> j == i {
      MineSaysMyself(c, labels, order[j]);
      assert order[j] == order[i] ==> j == i;
    }
    MyLineIsFound(es, i);
  }

  /** What is built from the lines of a server is that server. */
  lemma BuiltIsSame(c: Cluster, labels: map<ClusterNode, Label>, order: seq<ClusterNode>, es: seq<Entry>, st: State)
    requires Written(c, labels, order, es)
    requires Built(st, es)
    ensures SameOwners(c, labels, st) && st.nodes.Keys == NamesOf(c, labels)
    ensures forall n | n in c.nodes :: labels[n].name in st.nodes && SameRecord(c, labels, n, st.nodes[labels[n].name])
    ensures st.myself == Some(labels[c.myself].name)
    ensures st.migrating == OpenOf(c.migrating[..], labels) && st.importing == OpenOf(c.importing[..], labels)
  {
    OwnersReadBack(c, labels, order, es, st);
    LinesSpeakOfNodes(c, labels, order, es);
    forall n | n in c.nodes ensures labels[n].name in st.nodes && SameRecord(c, labels, n, st.nodes[labels[n].name]) {
      assert labels[n].name in NamesOf(c, labels);
      RecordReadsBack(c, labels, order, es, n);
    }
    MyLineReadsBack(c, labels, order, es);
  }

  lemma FileIsLoaded(es: seq<Entry>, n: nat, current: nat, lastVote: nat, consistent: bool) returns (st: State)
    requires ValidFile(es, n) && exists i :: 0 <= i < |es| && "myself" in es[i].flags
    requires consistent ==> forall i :: 0 <= i < |es| ==> es[i].epoch <= current
    ensures LoadFile(Saved(es, n, current, lastVote)) == Some(st) && Built(st, es)
    ensures st.lastVote == lastVote && st.current >= current && (consistent ==> st.current == current)
  {
    st := FileRoundTrip(es, n, current, lastVote);
  }

  lemma EpochsOnLines(c: Cluster, labels: map<ClusterNode, Label>, order: seq<ClusterNode>, es: seq<Entry>)
    requires Written(c, labels, order, es)
    ensures EpochsOk(c) ==> forall i :: 0 <= i < |es| ==> es[i].epoch <= c.currentEpoch
  {
    assert forall i :: 0 <= i < |es| ==> order[i] in c.nodes;
  }

  /** A server saves its state and the next one loads it: owner table, roles, links in both directions,
      epochs, addresses and open slots are the same, and if epochs were consistent the current epoch is. */
  lemma ServerRoundTrip(c: Cluster, labels: map<ClusterNode, Label>, order: seq<ClusterNode>, es: seq<Entry>) returns (st: State)
    requires Written(c, labels, order, es)
    ensures LoadFile(Saved(es, c.slots.Length, c.currentEpoch, c.lastVoteEpoch)) == Some(st)
    ensures SameOwners(c, labels, st) && st.nodes.Keys == NamesOf(c, labels)
    ensures forall n | n in c.nodes :: labels[n].name in st.nodes && SameRecord(c, labels, n, st.nodes[labels[n].name])
    ensures st.myself == Some(labels[c.myself].name)
    ensures st.migrating == OpenOf(c.migrating[..], labels) && st.importing == OpenOf(c.importing[..], labels)
    ensures st.lastVote == c.lastVoteEpoch && st.current >= c.currentEpoch && (EpochsOk(c) ==> st.current == c.currentEpoch)
  {
    SavedIsValid(c, labels, order, es);
    MyLineReadsBack(c, labels, order, es);
    EpochsOnLines(c, labels, order, es);
    st := FileIsLoaded(es, c.slots.Length, c.currentEpoch, c.lastVoteEpoch, EpochsOk(c));
    BuiltIsSame(c, labels, order, es, st);
  }
}
