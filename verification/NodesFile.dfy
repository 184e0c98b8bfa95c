/** The whole configuration file: written by one server, loaded by the next. */
module NodesFile {
  import opened Options
  import opened Text
  import opened NodesConf
  import opened EpochRules

  const EMPTY := State(map[], map[], map[], map[], None, 0, 0)

  function Lines(es: seq<Entry>, n: nat): seq<seq<string>> {
    if es == [] then [] else Lines(es[..|es| - 1], n) + [Description(es[|es| - 1], n)]
  }

  function Vars(current: nat, lastVote: nat): seq<string> {
    ["vars", "currentEpoch", Decimal(current), "lastVoteEpoch", Decimal(lastVote)]
  }

  /** clusterSaveConfig. */
  function Saved(es: seq<Entry>, n: nat, current: nat, lastVote: nat): seq<seq<string>> {
    Lines(es, n) + [Vars(current, lastVote)]
  }

  /** Pairs of a variable and its value; unknown variables are skipped. */
  function LoadVars(st: State, argv: seq<string>): State
    decreases |argv|
  {
    if |argv| < 2 then st
    else
      var st1 := if SameWord(argv[0], "currentEpoch") then st.(current := Unsigned(argv[1]))
                 else if SameWord(argv[0], "lastVoteEpoch") then st.(lastVote := Unsigned(argv[1]))
                 else st;
      LoadVars(st1, argv[2..])
  }

  /** One line: blank, variables, or a node. */
  function LoadLine(st: State, argv: seq<string>): Option<State> {
    if argv == [] then Some(st)
    else if SameWord(argv[0], "vars") then Some(LoadVars(st, argv[1..]))
    else LoadNode(st, argv)
  }

  function LoadLines(st: State, lines: seq<seq<string>>): Option<State> {
    if lines == [] then Some(st)
    else
      var before := LoadLines(st, lines[..|lines| - 1]);
      if before.None? then None else LoadLine(before.value, lines[|lines| - 1])
  }

  ghost function MaxRecorded(st: State): nat {
    MaxEpoch(map k | k in st.nodes :: st.nodes[k].epoch, st.current)
  }

  /** clusterLoadConfig. */
  ghost function LoadFile(lines: seq<seq<string>>): Option<State> {
    var st := LoadLines(EMPTY, lines);
    if st.None? || st.value.myself.None? then None else Some(st.value.(current := MaxRecorded(st.value)))
  }

  /** The variables by name, in any case. */
  lemma SampleVars(st: State)
    ensures Vars(7, 5) == ["vars", "currentEpoch", "7", "lastVoteEpoch", "5"]
    ensures LoadVars(st, ["CURRENTEPOCH", "7", "other", "1", "lastvoteepoch", "5"]) == st.(current := 7, lastVote := 5)
  {
    var argv := ["CURRENTEPOCH", "7", "other", "1", "lastvoteepoch", "5"];
    assert argv[2..] == ["other", "1", "lastvoteepoch", "5"] && argv[2..][2..] == ["lastvoteepoch", "5"];
    assert argv[2..][2..][2..] == [];
    assert SameWord("CURRENTEPOCH", "currentEpoch") && SameWord("lastvoteepoch", "lastVoteEpoch");
    assert !SameWord("other", "currentEpoch") && !SameWord("other", "lastVoteEpoch") && !SameWord("lastvoteepoch", "currentEpoch");
  }

  /** Loading ends with the current epoch at the greatest epoch in sight: what the variables line says, or
      the greatest configEpoch on record if that is above it. */
  lemma LoadedEpochIsGreatest(lines: seq<seq<string>>)
    requires LoadFile(lines).Some?
    ensures LoadLines(EMPTY, lines).Some?
    ensures var said, st := LoadLines(EMPTY, lines).value, LoadFile(lines).value;
            && st == said.(current := st.current) && st.myself.Some?
            && said.current <= st.current && (forall k :: k in st.nodes ==> st.nodes[k].epoch <= st.current)
            && (st.current == said.current || exists k :: k in st.nodes && st.nodes[k].epoch == st.current)
  {
    var said := LoadLines(EMPTY, lines).value;
    var epochs := map k | k in said.nodes :: said.nodes[k].epoch;
    assert forall k :: k in said.nodes ==> epochs[k] == said.nodes[k].epoch;
  }

  // ------------------------------------------------------------- what a file stands for

  ghost predicate ValidFile(es: seq<Entry>, n: nat) {
    && (forall i :: 0 <= i < |es| ==> ValidEntry(es[i], n))
    && (forall i, j :: 0 <= i < j < |es| ==> es[i].name != es[j].name && es[i].slots !! es[j].slots)
    && (forall i, j :: 0 <= i < j < |es| && "myself" in es[i].flags ==> "myself" !in es[j].flags)
  }

  function Named(e: Entry): set<string> {
    {e.name} + if e.master.Some? then {e.master.value} else {}
  }

  /** Every node a file speaks of. */
  function Mentioned(es: seq<Entry>): set<string> {
    if es == [] then {}
    else
      var e := es[|es| - 1];
      Mentioned(es[..|es| - 1]) + Named(e) + e.migrating.Values + e.importing.Values
  }

  /** The slaves of a node, in the order of their lines. */
  function SlavesOf(es: seq<Entry>, name: string): seq<string> {
    if es == [] then []
    else SlavesOf(es[..|es| - 1], name) + if es[|es| - 1].master == Some(name) then [es[|es| - 1].name] else []
  }

  function LineOf(es: seq<Entry>, name: string): Option<Entry> {
    if es == [] then None else if es[|es| - 1].name == name then Some(es[|es| - 1]) else LineOf(es[..|es| - 1], name)
  }

  function Summary(es: seq<Entry>, name: string): Rec {
    match LineOf(es, name)
    case None => FRESH.(slaves := SlavesOf(es, name))
    case Some(e) => Rec(e.ip, e.port, e.cport, e.flags, e.master, SlavesOf(es, name), e.epoch)
  }

  function MyLine(es: seq<Entry>): Option<Entry> {
    if es == [] then None else if "myself" in es[|es| - 1].flags then Some(es[|es| - 1]) else MyLine(es[..|es| - 1])
  }

  ghost predicate NodesBuilt(nodes: map<string, Rec>, es: seq<Entry>) {
    nodes.Keys == Mentioned(es) && forall k :: k in nodes ==> nodes[k] == Summary(es, k)
  }

  ghost predicate OwnerBuilt(owner: map<nat, string>, es: seq<Entry>) {
    && (forall k :: k in owner ==> exists i :: 0 <= i < |es| && k in es[i].slots)
    && (forall i, k :: 0 <= i < |es| && k in es[i].slots ==> k in owner && owner[k] == es[i].name)
  }

  predicate OpenBuilt(st: State, es: seq<Entry>) {
    match MyLine(es)
    case None => st.myself == None && st.migrating == map[] && st.importing == map[]
    case Some(e) => st.myself == Some(e.name) && st.migrating == e.migrating && st.importing == e.importing
  }

  ghost predicate Built(st: State, es: seq<Entry>) {
    NodesBuilt(st.nodes, es) && OwnerBuilt(st.owner, es) && OpenBuilt(st, es)
  }

  lemma {:induction false} NotMentioned(es: seq<Entry>, name: string)
    ensures name !in Mentioned(es) ==> LineOf(es, name) == None && SlavesOf(es, name) == []
    ensures forall s :: s in SlavesOf(es, name) ==> exists i :: 0 <= i < |es| && es[i].name == s
    ensures LineOf(es, name).Some? ==> exists i :: 0 <= i < |es| && es[i].name == name
  {
    if es != [] {
      NotMentioned(es[..|es| - 1], name);
    }
  }

  // ---------------------------------------------------------- one more line, entered

  /** New nodes appear, with nothing known about them. */
  ghost predicate Mentions(before: map<string, Rec>, after: map<string, Rec>, names: set<string>) {
    && after.Keys == before.Keys + names
    && forall k :: k in after ==> after[k] == if k in before then before[k] else FRESH
  }

  function PeersAt(e: Entry, slot: nat): set<string> {
    if slot in e.migrating then {e.migrating[slot]} else if slot in e.importing then {e.importing[slot]} else {}
  }

  function PeersBelow(e: Entry, n: nat): set<string> {
    if n == 0 then {} else PeersBelow(e, n - 1) + PeersAt(e, n - 1)
  }

  lemma {:induction false} PeersAreBelow(e: Entry, n: nat, peer: string)
    ensures peer in PeersBelow(e, n) <==> exists k :: 0 <= k < n && peer in PeersAt(e, k)
  {
    if n > 0 {
      PeersAreBelow(e, n - 1, peer);
    }
  }

  lemma PeersAreValues(e: Entry, n: nat)
    requires ValidEntry(e, n)
    ensures PeersBelow(e, n) == e.migrating.Values + e.importing.Values
  {
    forall p ensures p in PeersBelow(e, n) <==> p in e.migrating.Values + e.importing.Values {
      PeersAreBelow(e, n, p);
      if k :| 0 <= k < n && p in PeersAt(e, k) {
        assert k in e.migrating || k in e.importing;
      }
      if k :| k in e.migrating && e.migrating[k] == p {
        assert p in PeersAt(e, k);
      }
      if k :| k in e.importing && e.importing[k] == p {
        assert p in PeersAt(e, k);
      }
    }
  }

  lemma {:induction false} OpenMentions(st: State, e: Entry, n: nat)
    ensures Mentions(st.nodes, EnterOpen(st, e, n).nodes, PeersBelow(e, n))
    ensures EnterOpen(st, e, n).owner == st.owner && EnterOpen(st, e, n).myself == st.myself
  {
    if n > 0 {
      OpenMentions(st, e, n - 1);
    }
  }

  ghost predicate TablesBelow(st: State, e: Entry, n: nat) {
    && (forall k :: k in st.migrating <==> k in e.migrating && k < n)
    && (forall k :: k in st.migrating ==> st.migrating[k] == e.migrating[k])
    && (forall k :: k in st.importing <==> k in e.importing && k < n)
    && (forall k :: k in st.importing ==> st.importing[k] == e.importing[k])
  }

  lemma {:induction false} OpenTables(st: State, e: Entry, n: nat)
    requires st.migrating == map[] && st.importing == map[]
    requires forall k :: k in e.migrating ==> k !in e.importing
    ensures TablesBelow(EnterOpen(st, e, n), e, n)
  {
    if n > 0 {
      OpenTables(st, e, n - 1);
    }
  }

  lemma OpenIsBuilt(st: State, es: seq<Entry>, e: Entry, n: nat)
    requires OpenBuilt(st, es) && ValidEntry(e, n) && ("myself" in e.flags ==> MyLine(es).None?)
    ensures OpenBuilt(Enter(st, e, n), es + [e])
  {
    assert (es + [e])[..|es|] == es;
    var st1 := EnterSlots(EnterNode(st, e), e);
    OpenMentions(st1, e, n);
    if "myself" in e.flags {
      OpenTables(st1, e, n);
      var st2 := EnterOpen(st1, e, n);
      assert st2.migrating == e.migrating && st2.importing == e.importing;
    } else {
      NothingOpen(st1, e, n);
    }
  }

  lemma OwnerIsBuilt(st: State, es: seq<Entry>, e: Entry, n: nat)
    requires OwnerBuilt(st.owner, es) && forall i :: 0 <= i < |es| ==> es[i].slots !! e.slots
    ensures OwnerBuilt(Enter(st, e, n).owner, es + [e])
  {
    OpenMentions(EnterSlots(EnterNode(st, e), e), e, n);
    var owner, fs := EnterSlots(EnterNode(st, e), e).owner, es + [e];
    forall k | k in owner ensures exists i :: 0 <= i < |fs| && k in fs[i].slots {
      if k in st.owner {
        var i :| 0 <= i < |es| && k in es[i].slots;
        assert k in fs[i].slots;
      } else {
        assert k in fs[|es|].slots;
      }
    }
    forall i, k | 0 <= i < |fs| && k in fs[i].slots ensures k in owner && owner[k] == fs[i].name {
      if i < |es| {
        assert k in es[i].slots;
      }
    }
  }

  function Before(nodes: map<string, Rec>, k: string): Rec {
    if k in nodes then nodes[k] else FRESH
  }

  /** What a line's fields make of one record. */
  function Touched(r: Rec, e: Entry, k: string): Rec {
    var d := if k == e.name then Described(r, e).(master := if e.master.Some? then e.master else r.master) else r;
    if e.master == Some(k) && e.name !in d.slaves then d.(slaves := d.slaves + [e.name]) else d
  }

  lemma EnterNodeTouches(st: State, e: Entry)
    ensures var nodes := EnterNode(st, e).nodes;
            && nodes.Keys == st.nodes.Keys + Named(e)
            && forall k :: k in nodes ==> nodes[k] == Touched(Before(st.nodes, k), e, k)
  {
  }

  /** A record as far as the lines before go, and after one more. */
  lemma TouchedIsSummary(nodes: map<string, Rec>, es: seq<Entry>, e: Entry, k: string)
    requires NodesBuilt(nodes, es) && forall i :: 0 <= i < |es| ==> es[i].name != e.name
    ensures Touched(Before(nodes, k), e, k) == Summary(es + [e], k)
  {
    assert (es + [e])[..|es|] == es;
    NotMentioned(es, k);
    NotMentioned(es, e.name);
    assert Before(nodes, k) == Summary(es, k);
    assert FRESH.flags + e.flags == e.flags;
  }

  /** The records once the fields are in: a node not on record yet is one nobody told anything about. */
  lemma FieldsAreSummary(st: State, es: seq<Entry>, e: Entry, k: string)
    requires NodesBuilt(st.nodes, es) && forall i :: 0 <= i < |es| ==> es[i].name != e.name
    ensures Before(EnterNode(st, e).nodes, k) == Summary(es + [e], k)
  {
    EnterNodeTouches(st, e);
    TouchedIsSummary(st.nodes, es, e, k);
  }

  lemma MentionsKeepSummaries(before: map<string, Rec>, after: map<string, Rec>, names: set<string>, fs: seq<Entry>)
    requires Mentions(before, after, names) && before.Keys + names == Mentioned(fs)
    requires forall k :: Before(before, k) == Summary(fs, k)
    ensures NodesBuilt(after, fs)
  {
    forall k | k in after ensures after[k] == Summary(fs, k) {
      assert Before(before, k) == Summary(fs, k);
    }
  }

  lemma EnterNodeNames(st: State, e: Entry)
    ensures EnterNode(st, e).nodes.Keys == st.nodes.Keys + Named(e)
  {
  }

  lemma MentionedOneMore(es: seq<Entry>, e: Entry, peers: set<string>)
    requires peers == e.migrating.Values + e.importing.Values
    ensures Mentioned(es + [e]) == Mentioned(es) + Named(e) + peers
  {
    assert (es + [e])[..|es|] == es;
  }

  lemma NamesAreMentioned(st: State, es: seq<Entry>, e: Entry, n: nat)
    requires st.nodes.Keys == Mentioned(es) && ValidEntry(e, n)
    ensures EnterNode(st, e).nodes.Keys + PeersBelow(e, n) == Mentioned(es + [e])
  {
    EnterNodeNames(st, e);
    PeersAreValues(e, n);
    MentionedOneMore(es, e, PeersBelow(e, n));
  }

  lemma EnterMentions(st: State, e: Entry, n: nat)
    ensures Mentions(EnterNode(st, e).nodes, Enter(st, e, n).nodes, PeersBelow(e, n))
  {
    OpenMentions(EnterSlots(EnterNode(st, e), e), e, n);
  }

  lemma NodesAreBuilt(st: State, es: seq<Entry>, e: Entry, n: nat)
    requires NodesBuilt(st.nodes, es) && ValidEntry(e, n) && forall i :: 0 <= i < |es| ==> es[i].name != e.name
    ensures NodesBuilt(Enter(st, e, n).nodes, es + [e])
  {
    forall k ensures Before(EnterNode(st, e).nodes, k) == Summary(es + [e], k) {
      FieldsAreSummary(st, es, e, k);
    }
    NamesAreMentioned(st, es, e, n);
    EnterMentions(st, e, n);
    MentionsKeepSummaries(EnterNode(st, e).nodes, Enter(st, e, n).nodes, PeersBelow(e, n), es + [e]);
  }

  lemma EnterIsBuilt(st: State, es: seq<Entry>, e: Entry, n: nat)
    requires Built(st, es) && ValidFile(es + [e], n)
    ensures Built(Enter(st, e, n), es + [e]) && ("myself" in e.flags ==> st.myself.None?)
  {
    var fs := es + [e];
    assert fs[|es|] == e && ValidEntry(fs[|es|], n);
    forall i | 0 <= i < |es| ensures es[i].name != e.name && es[i].slots !! e.slots && ("myself" in es[i].flags ==> "myself" !in e.flags) {
      assert fs[i] == es[i];
    }
    MineIsAmong(es);
    NodesAreBuilt(st, es, e, n);
    OwnerIsBuilt(st, es, e, n);
    OpenIsBuilt(st, es, e, n);
  }

  lemma {:induction false} MineIsAmong(es: seq<Entry>)
    ensures MyLine(es).Some? ==> exists i :: 0 <= i < |es| && es[i] == MyLine(es).value && "myself" in es[i].flags
  {
    if es != [] {
      MineIsAmong(es[..|es| - 1]);
    }
  }

  // ---------------------------------------------------------------- the round trip

  lemma OneMoreLine(st: State, lines: seq<seq<string>>, argv: seq<string>)
    ensures LoadLines(st, lines + [argv]) ==
            if LoadLines(st, lines).None? then None else LoadLine(LoadLines(st, lines).value, argv)
  {
    assert (lines + [argv])[..|lines|] == lines;
  }

  lemma {:induction false} LinesReadBack(es: seq<Entry>, n: nat) returns (st: State)
    requires ValidFile(es, n)
    ensures LoadLines(EMPTY, Lines(es, n)) == Some(st) && Built(st, es)
  {
    if es == [] {
      st := EMPTY;
    } else {
      var front, e := es[..|es| - 1], es[|es| - 1];
      assert es == front + [e];
      var st1 := LinesReadBack(front, n);
      EnterIsBuilt(st1, front, e, n);
      LineReadsBack(st1, e, n);
      OneMoreLine(EMPTY, Lines(front, n), Description(e, n));
      NodeLine(st1, e, n);
      st := Enter(st1, e, n);
    }
  }

  lemma NodeLine(st: State, e: Entry, n: nat)
    requires ValidEntry(e, n)
    ensures LoadLine(st, Description(e, n)) == LoadNode(st, Description(e, n))
  {
    assert Description(e, n)[0] == e.name && |e.name| == 40;
  }

  lemma VarsReadBack(st: State, current: nat, lastVote: nat)
    ensures LoadLine(st, Vars(current, lastVote)) == Some(st.(current := current, lastVote := lastVote))
  {
    AtoiOfDecimal(current);
    AtoiOfDecimal(lastVote);
    var argv, rest := Vars(current, lastVote), ["lastVoteEpoch", Decimal(lastVote)];
    var st1 := st.(current := current);
    assert argv[1..] == ["currentEpoch", Decimal(current)] + rest;
    assert argv[1..][2..] == rest && rest[2..] == [];
    assert LoadVars(st1, rest) == st1.(lastVote := lastVote);
  }

  /** Whatever the bitmaps, the file a server writes rebuilds the same nodes, links, epochs, owner
      table and open slots; and if its epochs were consistent the final repair changes nothing. */
  lemma FileRoundTrip(es: seq<Entry>, n: nat, current: nat, lastVote: nat) returns (st: State)
    requires ValidFile(es, n) && exists i :: 0 <= i < |es| && "myself" in es[i].flags
    ensures LoadFile(Saved(es, n, current, lastVote)) == Some(st) && Built(st, es)
    ensures st.lastVote == lastVote && st.current >= current
    ensures (forall i :: 0 <= i < |es| ==> es[i].epoch <= current) ==> st.current == current
  {
    var st1 := LinesReadBack(es, n);
    OneMoreLine(EMPTY, Lines(es, n), Vars(current, lastVote));
    VarsReadBack(st1, current, lastVote);
    var st2 := st1.(current := current, lastVote := lastVote);
    st := st2.(current := MaxRecorded(st2));
    IAmThere(es);
    if forall i :: 0 <= i < |es| ==> es[i].epoch <= current {
      forall k | k in st2.nodes ensures st2.nodes[k].epoch <= current {
        EpochFromLine(es, k);
      }
    }
  }

  lemma {:induction false} IAmThere(es: seq<Entry>)
    requires exists i :: 0 <= i < |es| && "myself" in es[i].flags
    ensures MyLine(es).Some?
  {
    if es != [] && "myself" !in es[|es| - 1].flags {
      var i :| 0 <= i < |es| && "myself" in es[i].flags;
      assert es[..|es| - 1][i] == es[i];
      IAmThere(es[..|es| - 1]);
    }
  }

  lemma {:induction false} EpochFromLine(es: seq<Entry>, k: string)
    ensures Summary(es, k).epoch == 0 || exists i :: 0 <= i < |es| && es[i].epoch == Summary(es, k).epoch
  {
    if es != [] {
      EpochFromLine(es[..|es| - 1], k);
      if LineOf(es, k) == LineOf(es[..|es| - 1], k) && Summary(es, k).epoch != 0 {
        var i :| 0 <= i < |es| - 1 && es[..|es| - 1][i].epoch == Summary(es[..|es| - 1], k).epoch;
        assert es[i].epoch == Summary(es, k).epoch;
      }
    }
  }
}
