/** The cluster configuration file: one line of words per node, and one of variables. */
module NodesConf {
  import opened Options
  import opened Sequences
  import opened Text
  import opened SlotRuns

  const NAME_LEN := 40

  const FLAGS: seq<string> := ["myself", "master", "slave", "fail?", "fail", "handshake", "noaddr"]

  /** What the line of a node says. Only our own line has migrating and importing slots. */
  datatype Entry = Entry(name: string, ip: string, port: nat, cport: nat, flags: set<string>, master: Option<string>,
                         ping: nat, pong: nat, epoch: nat, connected: bool,
                         slots: set<nat>, migrating: map<nat, string>, importing: map<nat, string>)

  // ---------------------------------------------------------------------- printing

  /** representClusterNodeFlags: the flags in the order of its table. */
  function FlagWords(flags: set<string>, upTo: nat): seq<string>
    requires upTo <= |FLAGS|
  {
    if upTo == 0 then []
    else FlagWords(flags, upTo - 1) + if FLAGS[upTo - 1] in flags then [FLAGS[upTo - 1]] else []
  }

  function FlagsText(flags: set<string>): string {
    if flags == {} then "noflags" else Join(FlagWords(flags, |FLAGS|))
  }

  function Address(e: Entry): string {
    e.ip + ":" + (Decimal(e.port) + "@" + Decimal(e.cport))
  }

  function OpenWord(slot: nat, arrow: string, peer: string): string {
    "[" + Decimal(slot) + "-" + (arrow + "-" + peer + "]")
  }

  function OpenAt(e: Entry, slot: nat): seq<string> {
    if slot in e.migrating then [OpenWord(slot, ">", e.migrating[slot])]
    else if slot in e.importing then [OpenWord(slot, "<", e.importing[slot])]
    else []
  }

  /** Migrating and importing slots below `n`. */
  function OpenWords(e: Entry, n: nat): seq<string> {
    if n == 0 then [] else OpenWords(e, n - 1) + OpenAt(e, n - 1)
  }

  function MasterText(e: Entry): string {
    if e.master.Some? then e.master.value else "-"
  }

  function Fields(e: Entry): seq<string> {
    [e.name, Address(e), FlagsText(e.flags), MasterText(e),
     Decimal(e.ping), Decimal(e.pong), Decimal(e.epoch), if e.connected then "connected" else "disconnected"]
  }

  function SlotWords(e: Entry, n: nat): seq<string> {
    RunsText(RunsBelow(e.slots, n)) + if "myself" in e.flags then OpenWords(e, n) else []
  }

  /** clusterGenNodeDescription, word by word, for a cluster of `n` slots. */
  function Description(e: Entry, n: nat): seq<string> {
    Fields(e) + SlotWords(e, n)
  }

  // ----------------------------------------------------------------------- loading

  datatype Rec = Rec(ip: string, port: int, cport: int, flags: set<string>, master: Option<string>,
      slaves: seq<string>, epoch: nat)

  const FRESH := Rec("", 0, 0, {}, None, [], 0)

  datatype State = State(nodes: map<string, Rec>, owner: map<nat, string>, migrating: map<nat, string>,
      importing: map<nat, string>,
                         myself: Option<string>, current: nat, lastVote: nat)

  /** Nodes are created when first mentioned. */
  function Known(nodes: map<string, Rec>, name: string): (r: map<string, Rec>)
    ensures name in r && r.Keys == nodes.Keys + {name}
  {
    if name in nodes then nodes else nodes[name := FRESH]
  }

  function ParseAddress(r: Rec, s: string): Option<Rec> {
    var i := LastIndexOf(s, ':');
    if i == |s| then None
    else
      var port := s[i + 1..];
      var j := IndexOf(port, '@');
      Some(r.(ip := s[..i], port := Atoi(port[..j]), cport := if j < |port| then Atoi(port[j + 1..]) else Atoi(port) + 10000))
  }

  /** Unknown words are refused. The words come in lower case. */
  function ParseFlags(flags: set<string>, words: seq<string>): Option<set<string>> {
    if words == [] then Some(flags)
    else
      var before := ParseFlags(flags, words[..|words| - 1]);
      var w := words[|words| - 1];
      if before.None? then None
      else if w in FLAGS then Some(before.value + {w})
      else if w == "noflags" then before
      else None
  }

  /** clusterAddSlot for a range: slots that have an owner keep it. */
  function AddRange(owner: map<nat, string>, name: string, start: nat, stop: int): map<nat, string>
    decreases stop - start
  {
    if start > stop then owner
    else AddRange(if start in owner then owner else owner[start := name], name, start + 1, stop)
  }

  function AddSlave(nodes: map<string, Rec>, master: string, slave: string): map<string, Rec>
    requires master in nodes
  {
    var m := nodes[master];
    if slave in m.slaves then nodes else nodes[master := m.(slaves := m.slaves + [slave])]
  }

  lemma NoMinusNoSign(s: string)
    requires '-' !in s
    ensures Atoi(s) >= 0
  {
  }

  /** `[slot->-node]` or `[slot-<-node]`. */
  function LoadOpen(st: State, word: string): Option<State>
    requires word != "" && word[0] == '['
  {
    var i := IndexOf(word, '-');
    if i + 3 + NAME_LEN > |word| then None
    else
      NoMinusNoSign(word[1..i]);
      var slot, peer := Atoi(word[1..i]), word[i + 3..i + 3 + NAME_LEN];
      var known := st.(nodes := Known(st.nodes, peer));
      Some(if word[i + 1] == '>' then known.(migrating := st.migrating[slot := peer]) else known.(importing := st.importing[slot := peer]))
  }

  function LoadSlots(st: State, name: string, word: string): Option<State> {
    var i := IndexOf(word, '-');
    if word != "" && word[0] == '[' then LoadOpen(st, word)
    else
      NoMinusNoSign(word[..i]);
      Some(st.(owner := AddRange(st.owner, name, Atoi(word[..i]), if i < |word| then Atoi(word[i + 1..]) else Atoi(word))))
  }

  function LoadSlotWords(st: State, name: string, words: seq<string>): Option<State> {
    if words == [] then Some(st)
    else
      var before := LoadSlotWords(st, name, words[..|words| - 1]);
      if before.None? then None else LoadSlots(before.value, name, words[|words| - 1])
  }

  /** Address, flags and configEpoch of a line. */
  function ParseNode(r: Rec, address: string, flags: seq<string>, epoch: string): Option<Rec> {
    var r1 := ParseAddress(r, address);
    if r1.None? then None
    else
      var parsed := ParseFlags(r.flags, flags);
      if parsed.None? then None else Some(r1.value.(flags := parsed.value, epoch := Unsigned(epoch)))
  }

  /** The master, created if it is new, gets the node on its list. */
  function LoadMaster(nodes: map<string, Rec>, name: string, master: string): map<string, Rec>
    requires name in nodes
  {
    var linked := Known(nodes, master);
    AddSlave(linked[name := linked[name].(master := Some(master))], master, name)
  }

  function PutRecord(nodes: map<string, Rec>, name: string, r: Rec, master: Option<string>): map<string, Rec> {
    if master.None? then nodes[name := r] else LoadMaster(nodes[name := r], name, master.value)
  }

  function PutNode(st: State, name: string, r: Rec, isMe: bool, master: Option<string>): State {
    st.(myself := if isMe then Some(name) else st.myself, nodes := PutRecord(st.nodes, name, r, master))
  }

  function ParseMaster(s: string): Option<string> {
    if s != "" && s[0] == '-' then None else Some(s)
  }

  /** There can be only one `myself`. */
  function ReadFields(n: Rec, known: bool, address: string, words: seq<string>, epoch: string): Option<Rec> {
    if multiset(words)["myself"] + (if known then 1 else 0) > 1 then None else ParseNode(n, address, words, epoch)
  }

  /** The part of a line before the slots. */
  function LoadFields(st: State, name: string, address: string, flags: string, master: string, epoch: string): Option<State> {
    var words := Folds(Split(flags));
    var r := ReadFields(Known(st.nodes, name)[name], st.myself.Some?, address, words, epoch);
    if r.None? then None else Some(PutNode(st, name, r.value, "myself" in words, ParseMaster(master)))
  }

  /** A whole line; none means the file is refused. */
  function LoadNode(st: State, argv: seq<string>): Option<State> {
    if |argv| < 8 then None
    else
      var st1 := LoadFields(st, argv[0], argv[1], argv[2], argv[3], argv[6]);
      if st1.None? then None else LoadSlotWords(st1.value, argv[0], argv[8..])
  }

  // ------------------------------------------------- what loading a printed line means

  predicate IsName(s: string) {
    |s| == NAME_LEN && '-' !in s
  }

  ghost predicate PeersNamed(e: Entry) {
    && (forall k :: k in e.migrating ==> IsName(e.migrating[k]))
    && (forall k :: k in e.importing ==> IsName(e.importing[k]))
  }

  ghost predicate ValidEntry(e: Entry, n: nat) {
    && IsName(e.name) && (e.master.Some? ==> IsName(e.master.value))
    && (forall f :: f in e.flags ==> f in FLAGS)
    && (forall k :: k in e.slots ==> k < n)
    && PeersNamed(e)
    && (forall k :: k in e.migrating ==> k < n && k !in e.importing)
    && (forall k :: k in e.importing ==> k < n)
    && ("myself" !in e.flags ==> e.migrating == map[] && e.importing == map[])
  }

  /** The record of a node once its line is in, given what others said about it before. */
  function Described(r: Rec, e: Entry): Rec {
    r.(ip := e.ip, port := e.port, cport := e.cport, flags := r.flags + e.flags, epoch := e.epoch)
  }

  function EnterNode(st: State, e: Entry): State {
    PutNode(st, e.name, Described(Known(st.nodes, e.name)[e.name], e), "myself" in e.flags, e.master)
  }

  function EnterSlots(st: State, e: Entry): State {
    st.(owner := map k | k in st.owner.Keys + e.slots :: if k in st.owner then st.owner[k] else e.name)
  }

  function EnterPeer(st: State, slot: nat, peer: string, migrating: bool): State {
    var known := st.(nodes := Known(st.nodes, peer));
    if migrating then known.(migrating := st.migrating[slot := peer]) else known.(importing := st.importing[slot := peer])
  }

  function EnterAt(st: State, e: Entry, slot: nat): State {
    if slot in e.migrating then EnterPeer(st, slot, e.migrating[slot], true)
    else if slot in e.importing then EnterPeer(st, slot, e.importing[slot], false)
    else st
  }

  function EnterOpen(st: State, e: Entry, n: nat): State {
    if n == 0 then st else EnterAt(EnterOpen(st, e, n - 1), e, n - 1)
  }

  function Enter(st: State, e: Entry, n: nat): State {
    EnterOpen(EnterSlots(EnterNode(st, e), e), e, n)
  }

  /** The address reads back. */
  lemma AddressReadsBack(r: Rec, e: Entry)
    ensures ParseAddress(r, Address(e)) == Some(r.(ip := e.ip, port := e.port, cport := e.cport))
  {
    var ports := Decimal(e.port) + "@" + Decimal(e.cport);
    assert Address(e) == e.ip + ":" + ports;
    CutAtLast(e.ip, ':', ports);
    CutAtFirst(Decimal(e.port), '@', Decimal(e.cport));
    AtoiOfDecimal(e.port);
    AtoiOfDecimal(e.cport);
  }

  lemma {:induction false} KnownFlagsParse(known: set<string>, words: seq<string>)
    requires forall w :: w in words ==> w in FLAGS
    ensures ParseFlags(known, words) == Some(known + set w | w in words)
  {
    if words == [] {
      assert known + (set w | w in words) == known;
    } else {
      var front, last := words[..|words| - 1], words[|words| - 1];
      KnownFlagsParse(known, front);
      assert (set w | w in words) == (set w | w in front) + {last} by {
        assert words == front + [last];
      }
      assert known + (set w | w in front) + {last} == known + set w | w in words;
    }
  }

  lemma {:induction false} WordsAreFlags(flags: set<string>, n: nat)
    requires n <= |FLAGS|
    ensures forall w :: w in FlagWords(flags, n) <==> w in flags && w in FLAGS[..n]
    ensures multiset(FlagWords(flags, n))["myself"] == if n > 0 && "myself" in flags then 1 else 0
  {
    if n > 0 {
      WordsAreFlags(flags, n - 1);
      assert FLAGS[..n] == FLAGS[..n - 1] + [FLAGS[n - 1]];
    }
  }

  lemma FlagsHaveNoComma(f: string)
    requires f in FLAGS
    ensures ',' !in f && f != "noflags"
  {
  }

  lemma FlagIsLowerCase(f: string)
    requires f in FLAGS
    ensures Fold(f) == f
  {
    LowerCaseStays(f);
  }

  lemma FlagWordsStay(words: seq<string>)
    requires forall w :: w in words ==> w in FLAGS
    ensures Folds(words) == words
  {
    forall i | 0 <= i < |words| ensures Fold(words[i]) == words[i] {
      FlagIsLowerCase(words[i]);
    }
  }

  lemma WordsReadBack(flags: set<string>, known: set<string>, words: seq<string>)
    requires words != [] && (forall w :: w in words ==> w in FLAGS) && flags == set w | w in words
    ensures Folds(Split(Join(words))) == words && ParseFlags(known, words) == Some(known + flags)
  {
    forall w | w in words ensures ',' !in w {
      FlagsHaveNoComma(w);
    }
    SplitOfJoin(words);
    FlagWordsStay(words);
    KnownFlagsParse(known, words);
  }

  lemma NoFlagsReadBack(known: set<string>)
    ensures Folds(Split("noflags")) == ["noflags"] && ParseFlags(known, ["noflags"]) == Some(known)
  {
    SplitOfJoin(["noflags"]);
    assert Join(["noflags"]) == "noflags";
    LowerCaseStays("noflags");
    var words := ["noflags"];
    assert words[..0] == [] && "noflags" !in FLAGS;
  }

  lemma FlagsAreWords(flags: set<string>)
    requires forall f :: f in flags ==> f in FLAGS
    ensures var words := FlagWords(flags, |FLAGS|);
            && (flags != {} ==> words != []) && (forall w :: w in words ==> w in FLAGS) && flags == (set w | w in words)
            && multiset(words)["myself"] == if "myself" in flags then 1 else 0
  {
    WordsAreFlags(flags, |FLAGS|);
    assert FLAGS[..|FLAGS|] == FLAGS;
    if f :| f in flags {
      assert f in FlagWords(flags, |FLAGS|);
    }
  }

  /** So do the flags. */
  lemma FlagsReadBack(flags: set<string>, known: set<string>)
    requires forall f :: f in flags ==> f in FLAGS
    ensures var words := Folds(Split(FlagsText(flags)));
            ParseFlags(known, words) == Some(known + flags) && multiset(words)["myself"] == if "myself" in flags then 1 else 0
  {
    if flags == {} {
      NoFlagsReadBack(known);
      assert known + flags == known;
    } else {
      FlagsAreWords(flags);
      WordsReadBack(flags, known, FlagWords(flags, |FLAGS|));
    }
  }

  /** A range of slots, read from its first and last. */
  lemma {:induction false} RangeIsAdded(owner: map<nat, string>, name: string, start: nat, stop: int)
    ensures var r := AddRange(owner, name, start, stop);
            && (forall k :: k in r <==> k in owner || start <= k <= stop)
            && (forall k :: k in r ==> r[k] == if k in owner then owner[k] else name)
    decreases stop - start
  {
    if start <= stop {
      RangeIsAdded(if start in owner then owner else owner[start := name], name, start + 1, stop);
    }
  }

  lemma RunReadsBack(st: State, name: string, r: Run)
    ensures LoadSlots(st, name, RunText(r)) == Some(st.(owner := AddRange(st.owner, name, r.start, r.stop)))
  {
    var word := RunText(r);
    assert IsDigit(word[0]) by {
      assert word[0] == Decimal(r.start)[0] && Decimal(r.start)[0] in Decimal(r.start);
    }
    AtoiOfDecimal(r.start);
    AtoiOfDecimal(r.stop);
    if r.start == r.stop {
      assert word[..|word|] == word;
    } else {
      assert word == Decimal(r.start) + "-" + Decimal(r.stop);
      CutAtFirst(Decimal(r.start), '-', Decimal(r.stop));
    }
  }

  lemma OneMoreWord(st: State, name: string, words: seq<string>, word: string)
    ensures LoadSlotWords(st, name, words + [word]) ==
            if LoadSlotWords(st, name, words).None? then None else LoadSlots(LoadSlotWords(st, name, words).value, name, word)
  {
    assert (words + [word])[..|words|] == words;
  }

  lemma InOneMore(front: seq<Run>, last: Run, k: nat)
    ensures InRuns(front + [last], k) <==> InRuns(front, k) || last.start <= k <= last.stop
  {
    var runs := front + [last];
    if i :| 0 <= i < |front| && front[i].start <= k <= front[i].stop {
      assert runs[i].start <= k <= runs[i].stop;
    }
    if last.start <= k <= last.stop {
      assert runs[|front|].start <= k <= runs[|front|].stop;
    }
    if i :| 0 <= i < |runs| && runs[i].start <= k <= runs[i].stop && i < |front| {
      assert front[i].start <= k <= front[i].stop;
    }
  }

  /** `owner` with the unowned slots of some runs given to a node. */
  ghost predicate Granted(before: map<nat, string>, after: map<nat, string>, name: string, runs: seq<Run>) {
    && (forall k: nat :: k in after <==> k in before || InRuns(runs, k))
    && (forall k :: k in after ==> after[k] == if k in before then before[k] else name)
  }

  lemma GrantOneMore(before: map<nat, string>, mid: map<nat, string>, name: string, front: seq<Run>, last: Run)
    requires Granted(before, mid, name, front)
    ensures Granted(before, AddRange(mid, name, last.start, last.stop), name, front + [last])
  {
    RangeIsAdded(mid, name, last.start, last.stop);
    forall k: nat ensures InRuns(front + [last], k) <==> InRuns(front, k) || last.start <= k <= last.stop {
      InOneMore(front, last, k);
    }
  }

  lemma NextRunReadsBack(st: State, name: string, before: map<nat, string>, front: seq<Run>, last: Run)
    returns (owner: map<nat, string>)
    requires LoadSlotWords(st, name, RunsText(front)) == Some(st.(owner := before)) && Granted(st.owner, before, name, front)
    ensures LoadSlotWords(st, name, RunsText(front) + [RunText(last)]) == Some(st.(owner := owner))
    ensures Granted(st.owner, owner, name, front + [last])
  {
    OneMoreWord(st, name, RunsText(front), RunText(last));
    RunReadsBack(st.(owner := before), name, last);
    GrantOneMore(st.owner, before, name, front, last);
    owner := AddRange(before, name, last.start, last.stop);
  }

  lemma NoRunsReadBack(st: State, name: string)
    ensures LoadSlotWords(st, name, RunsText([])) == Some(st.(owner := st.owner)) && Granted(st.owner, st.owner, name, [])
  {
  }

  /** The runs are read back one by one. */
  lemma {:induction false} RunsReadBack(st: State, name: string, runs: seq<Run>) returns (owner: map<nat, string>)
    ensures LoadSlotWords(st, name, RunsText(runs)) == Some(st.(owner := owner)) && Granted(st.owner, owner, name, runs)
  {
    if runs == [] {
      owner := st.owner;
      NoRunsReadBack(st, name);
    } else {
      var front, last := runs[..|runs| - 1], runs[|runs| - 1];
      var before := RunsReadBack(st, name, front);
      assert runs == front + [last] && RunsText(runs) == RunsText(front) + [RunText(last)];
      owner := NextRunReadsBack(st, name, before, front, last);
    }
  }

  lemma GrantedIsEntered(st: State, e: Entry, owner: map<nat, string>, runs: seq<Run>)
    requires Granted(st.owner, owner, e.name, runs) && forall k: nat :: InRuns(runs, k) <==> k in e.slots
    ensures EnterSlots(st, e) == st.(owner := owner)
  {
    assert owner == EnterSlots(st, e).owner;
  }

  /** The slots of a line become those of its node. */
  lemma SlotsReadBack(st: State, e: Entry, n: nat)
    requires forall k :: k in e.slots ==> k < n
    ensures LoadSlotWords(st, e.name, RunsText(RunsBelow(e.slots, n))) == Some(EnterSlots(st, e))
  {
    var runs := RunsBelow(e.slots, n);
    RunsAreRuns(e.slots, n, runs);
    var owner := RunsReadBack(st, e.name, runs);
    GrantedIsEntered(st, e, owner, runs);
  }

  lemma OpenReadsBack(st: State, name: string, slot: nat, peer: string, migrating: bool)
    requires IsName(peer)
    ensures LoadSlots(st, name, OpenWord(slot, if migrating then ">" else "<", peer)) == Some(EnterPeer(st, slot, peer, migrating))
  {
    var arrow := if migrating then ">" else "<";
    var word, rest := OpenWord(slot, arrow, peer), arrow + "-" + peer + "]";
    assert word == ("[" + Decimal(slot)) + "-" + rest;
    CutAtFirst("[" + Decimal(slot), '-', rest);
    var i := 1 + |Decimal(slot)|;
    assert word[1..i] == Decimal(slot);
    assert word[i + 3..i + 3 + NAME_LEN] == rest[2..2 + NAME_LEN] == peer;
    AtoiOfDecimal(slot);
  }

  lemma OpenAtReadsBack(st: State, words: seq<string>, before: State, e: Entry, slot: nat, more: seq<string>)
    requires LoadSlotWords(st, e.name, words) == Some(before) && PeersNamed(e) && more == words + OpenAt(e, slot)
    ensures LoadSlotWords(st, e.name, more) == Some(EnterAt(before, e, slot))
  {
    if slot in e.migrating {
      OpenReadsBack(before, e.name, slot, e.migrating[slot], true);
      OneMoreWord(st, e.name, words, OpenWord(slot, ">", e.migrating[slot]));
    } else if slot in e.importing {
      OpenReadsBack(before, e.name, slot, e.importing[slot], false);
      OneMoreWord(st, e.name, words, OpenWord(slot, "<", e.importing[slot]));
    } else {
      assert more == words;
    }
  }

  lemma NextOpenWords(st: State, e: Entry, words: seq<string>, below: seq<string>, before: State, slot: nat, more: seq<string>)
    requires LoadSlotWords(st, e.name, words + below) == Some(before) && PeersNamed(e)
    requires more == words + (below + OpenAt(e, slot))
    ensures LoadSlotWords(st, e.name, more) == Some(EnterAt(before, e, slot))
  {
    Regroup(words, below, OpenAt(e, slot));
    OpenAtReadsBack(st, words + below, before, e, slot, more);
  }

  lemma {:induction false} OpenWordsReadBack(st: State, e: Entry, words: seq<string>, st1: State, n: nat, more: seq<string>)
    requires LoadSlotWords(st, e.name, words) == Some(st1) && PeersNamed(e) && more == words + OpenWords(e, n)
    ensures LoadSlotWords(st, e.name, more) == Some(EnterOpen(st1, e, n))
  {
    if n == 0 {
      assert more == words;
    } else {
      var below := OpenWords(e, n - 1);
      OpenWordsReadBack(st, e, words, st1, n - 1, words + below);
      NextOpenWords(st, e, words, below, EnterOpen(st1, e, n - 1), n - 1, more);
    }
  }

  lemma {:induction false} NothingOpen(st: State, e: Entry, n: nat)
    requires e.migrating == map[] && e.importing == map[]
    ensures EnterOpen(st, e, n) == st
  {
    if n > 0 {
      NothingOpen(st, e, n - 1);
    }
  }

  lemma SlotWordsReadBack(st: State, e: Entry, n: nat)
    requires ValidEntry(e, n)
    ensures LoadSlotWords(st, e.name, SlotWords(e, n)) == Some(EnterOpen(EnterSlots(st, e), e, n))
  {
    var runs := RunsText(RunsBelow(e.slots, n));
    SlotsReadBack(st, e, n);
    if "myself" in e.flags {
      OpenWordsReadBack(st, e, runs, EnterSlots(st, e), n, SlotWords(e, n));
    } else {
      NothingOpen(EnterSlots(st, e), e, n);
      assert SlotWords(e, n) == runs;
    }
  }

  lemma NodeReadsBack(r: Rec, e: Entry)
    requires forall f :: f in e.flags ==> f in FLAGS
    ensures ParseNode(r, Address(e), Folds(Split(FlagsText(e.flags))), Decimal(e.epoch)) == Some(Described(r, e))
  {
    AddressReadsBack(r, e);
    FlagsReadBack(e.flags, r.flags);
    AtoiOfDecimal(e.epoch);
  }

  lemma FieldsEnter(st: State, e: Entry, words: seq<string>)
    requires words == Folds(Split(FlagsText(e.flags))) && multiset(words)["myself"] == if "myself" in e.flags then 1 else 0
    requires ParseNode(Known(st.nodes, e.name)[e.name], Address(e), words, Decimal(e.epoch)) ==
             Some(Described(Known(st.nodes, e.name)[e.name], e))
    requires "myself" in e.flags ==> st.myself.None?
    requires ParseMaster(MasterText(e)) == e.master
    ensures LoadFields(st, e.name, Address(e), FlagsText(e.flags), MasterText(e), Decimal(e.epoch)) == Some(EnterNode(st, e))
  {
    assert "myself" in multiset(words) <==> "myself" in words;
  }

  lemma FieldsReadBack(st: State, e: Entry)
    requires (e.master.Some? ==> IsName(e.master.value)) && forall f :: f in e.flags ==> f in FLAGS
    requires "myself" in e.flags ==> st.myself.None?
    ensures LoadFields(st, e.name, Address(e), FlagsText(e.flags), MasterText(e), Decimal(e.epoch)) == Some(EnterNode(st, e))
  {
    NodeReadsBack(Known(st.nodes, e.name)[e.name], e);
    FlagsReadBack(e.flags, {});
    FieldsEnter(st, e, Folds(Split(FlagsText(e.flags))));
  }

  lemma FieldsInOrder(e: Entry, f: seq<string>)
    requires f == Fields(e)
    ensures |f| == 8 && f[0] == e.name && f[1] == Address(e) && f[2] == FlagsText(e.flags) && f[3] == MasterText(e)
    ensures f[6] == Decimal(e.epoch)
  {
  }

  lemma LineInParts(st: State, fields: seq<string>, words: seq<string>, st1: State, st2: State, argv: seq<string>)
    requires |fields| == 8 && argv == fields + words
    requires LoadFields(st, fields[0], fields[1], fields[2], fields[3], fields[6]) == Some(st1)
    requires LoadSlotWords(st1, fields[0], words) == Some(st2)
    ensures LoadNode(st, argv) == Some(st2)
  {
    assert argv[8..] == words;
  }

  /** A printed line, loaded, enters exactly what it described. */
  lemma LineReadsBack(st: State, e: Entry, n: nat)
    requires ValidEntry(e, n) && ("myself" in e.flags ==> st.myself.None?)
    ensures LoadNode(st, Description(e, n)) == Some(Enter(st, e, n))
  {
    var fields, words, st1 := Fields(e), SlotWords(e, n), EnterNode(st, e);
    FieldsInOrder(e, fields);
    FieldsReadBack(st, e);
    SlotWordsReadBack(st1, e, n);
    LineInParts(st, fields, words, st1, Enter(st, e, n), Description(e, n));
  }

  // --------------------------------------------------------- the format itself, and what is refused

  function IfSet(flags: set<string>, f: string): seq<string> {
    if f in flags then [f] else []
  }

  /** The flags are written in this order, under these names. */
  lemma AllFlags(flags: set<string>)
    ensures FlagWords(flags, |FLAGS|) ==
            IfSet(flags, "myself") + IfSet(flags, "master") + IfSet(flags, "slave") + IfSet(flags, "fail?") +
            IfSet(flags, "fail") + IfSet(flags, "handshake") + IfSet(flags, "noaddr")
  {
    var w := seq(|FLAGS| + 1, i requires 0 <= i <= |FLAGS| => FlagWords(flags, i));
    forall i: nat | i < |FLAGS| ensures w[i + 1] == w[i] + IfSet(flags, FLAGS[i]) {
      NextFlag(flags, i);
    }
    FlagsInOrder(flags, w);
  }

  lemma NextFlag(flags: set<string>, i: nat)
    requires i < |FLAGS|
    ensures FlagWords(flags, i + 1) == FlagWords(flags, i) + IfSet(flags, FLAGS[i])
  {
  }

  lemma FlagsInOrder(flags: set<string>, w: seq<seq<string>>)
    requires |w| == 8 && w[0] == []
    requires forall i: nat :: i < |FLAGS| ==> w[i + 1] == w[i] + IfSet(flags, FLAGS[i])
    ensures w[7] == IfSet(flags, "myself") + IfSet(flags, "master") + IfSet(flags, "slave") + IfSet(flags, "fail?") +
                    IfSet(flags, "fail") + IfSet(flags, "handshake") + IfSet(flags, "noaddr")
  {
    assert w[1] == IfSet(flags, "myself");
    assert w[2] == w[1] + IfSet(flags, "master");
    assert w[3] == w[2] + IfSet(flags, "slave");
    assert w[4] == w[3] + IfSet(flags, "fail?");
    assert w[5] == w[4] + IfSet(flags, "fail");
    assert w[6] == w[5] + IfSet(flags, "handshake");
    assert w[7] == w[6] + IfSet(flags, "noaddr");
  }

  lemma JoinTwo(a: string, b: string, rest: seq<string>)
    ensures Join([a, b] + rest) == a + "," + Join([b] + rest) && Join([b]) == b
  {
    assert ([a, b] + rest)[1..] == [b] + rest;
  }

  lemma Numerals()
    ensures Decimal(0) == "0" && Decimal(1) == "1" && Decimal(2) == "2" && Decimal(4) == "4" && Decimal(5) == "5"
    ensures Decimal(7000) == "7000" && Decimal(17000) == "17000"
  {
    assert Decimal(7) == "7" && Decimal(70) == "70" && Decimal(700) == "700";
    assert Decimal(17) == "17" && Decimal(170) == "170" && Decimal(1700) == "1700";
  }

  const A40 := "aaaaaaaaaaaaaaaaaaaaaaaaaaaaaaaaaaaaaaaa"
  const B40 := "bbbbbbbbbbbbbbbbbbbbbbbbbbbbbbbbbbbbbbbb"

  lemma SampleRuns()
    ensures RunsText(RunsBelow({0, 1, 2, 5}, 6)) == ["0-2", "5"]
  {
    FirstRun({0, 1, 2, 5}, 0);
    SecondRun({0, 1, 2, 5});
    Numerals();
    TwoRuns(Run(0, 2), Run(5, 5));
    assert RunText(Run(0, 2)) == "0-2" && RunText(Run(5, 5)) == "5";
  }

  lemma TwoRuns(a: Run, b: Run)
    ensures RunsText([a, b]) == [RunText(a), RunText(b)]
  {
    assert [a, b][..1] == [a] && [a][..0] == [];
    assert RunsText([a]) == [RunText(a)];
  }

  lemma NextSlot(s: set<nat>, n: nat)
    ensures RunsBelow(s, n + 1) == if n in s then Extend(RunsBelow(s, n), n) else RunsBelow(s, n)
  {
  }

  lemma ExtendOne(start: nat, stop: nat)
    ensures Extend([Run(start, stop)], stop + 1) == [Run(start, stop + 1)] && Extend([], start) == [Run(start, start)]
  {
  }

  lemma FirstRun(s: set<nat>, n: nat)
    requires RunsBelow(s, n) == [] && n in s && n + 1 in s && n + 2 in s
    ensures RunsBelow(s, n + 3) == [Run(n, n + 2)]
  {
    NextSlot(s, n);
    ExtendOne(n, n);
    assert RunsBelow(s, n + 1) == [Run(n, n)];
    NextSlot(s, n + 1);
    assert RunsBelow(s, n + 2) == [Run(n, n + 1)];
    ExtendOne(n, n + 1);
    NextSlot(s, n + 2);
  }

  lemma SecondRun(s: set<nat>)
    requires RunsBelow(s, 3) == [Run(0, 2)] && 3 !in s && 4 !in s && 5 in s
    ensures RunsBelow(s, 6) == [Run(0, 2), Run(5, 5)]
  {
    assert RunsBelow(s, 4) == [Run(0, 2)];
    assert RunsBelow(s, 5) == [Run(0, 2)];
  }

  function SampleMaster(): Entry {
    Entry(A40, "10.0.0.1", 7000, 17000, {"myself", "master"}, None, 0, 1, 5, true, {0, 1, 2, 5}, map[2 := B40], map[4 := B40])
  }

  lemma SampleOpenWords()
    ensures OpenWords(SampleMaster(), 6) == ["[2->-" + B40 + "]", "[4-<-" + B40 + "]"]
  {
    var e := SampleMaster();
    Numerals();
    assert OpenWord(2, ">", B40) == "[2->-" + B40 + "]";
    assert OpenWord(4, "<", B40) == "[4-<-" + B40 + "]";
    assert OpenWords(e, 2) == [];
    assert OpenWords(e, 3) == [OpenWord(2, ">", B40)];
    assert OpenWords(e, 4) == [OpenWord(2, ">", B40)];
    assert OpenWords(e, 5) == [OpenWord(2, ">", B40), OpenWord(4, "<", B40)];
  }

  lemma SampleFlags()
    ensures FlagsText({"myself", "master"}) == "myself,master" && FlagsText({"slave", "fail?"}) == "slave,fail?"
  {
    var m, s := {"myself", "master"}, {"slave", "fail?"};
    AllFlags(m);
    AllFlags(s);
    JoinTwo("myself", "master", []);
    JoinTwo("slave", "fail?", []);
    assert FlagWords(m, |FLAGS|) == ["myself", "master"] + [];
    assert FlagWords(s, |FLAGS|) == ["slave", "fail?"] + [];
  }

  function SampleSlave(): Entry {
    Entry(B40, "::1", 7000, 17000, {"slave", "fail?"}, Some(A40), 4, 2, 5, false, {}, map[], map[])
  }

  lemma SampleAddresses()
    ensures Address(SampleMaster()) == "10.0.0.1:7000@17000" && Address(SampleSlave()) == "::1:7000@17000"
  {
    Numerals();
  }

  lemma SampleFields()
    ensures Fields(SampleMaster()) == [A40, "10.0.0.1:7000@17000", "myself,master", "-", "0", "1", "5", "connected"]
    ensures Fields(SampleSlave()) == [B40, "::1:7000@17000", "slave,fail?", A40, "4", "2", "5", "disconnected"]
  {
    Numerals();
    SampleAddresses();
    SampleFlags();
  }

  /** A line of our own, and the start of one of a slave whose link is down. */
  lemma SampleLines()
    ensures Description(SampleMaster(), 6) ==
            [A40, "10.0.0.1:7000@17000", "myself,master", "-", "0", "1", "5", "connected"] + ["0-2", "5"] +
            ["[2->-" + B40 + "]", "[4-<-" + B40 + "]"]
    ensures Fields(SampleSlave()) == [B40, "::1:7000@17000", "slave,fail?", A40, "4", "2", "5", "disconnected"]
  {
    SampleFields();
    SampleRuns();
    SampleOpenWords();
    LineParts(SampleMaster(), 6);
  }

  lemma LineParts(e: Entry, n: nat)
    requires "myself" in e.flags
    ensures Description(e, n) == Fields(e) + RunsText(RunsBelow(e.slots, n)) + OpenWords(e, n)
  {
  }

  /** A file of an older version has no bus port: it is ten thousand above the port. */
  lemma AddressWithoutBusPort(r: Rec, ip: string, port: nat)
    ensures ParseAddress(r, ip + ":" + Decimal(port)) == Some(r.(ip := ip, port := port, cport := port + 10000))
    ensures ':' !in ip ==> ParseAddress(r, ip) == None
  {
    CutAtLast(ip, ':', Decimal(port));
    AtoiOfDecimal(port);
    var p := Decimal(port);
    assert '@' !in p && p[..|p|] == p;
  }

  /** The words that flags may be. */
  ghost predicate KnownWord(w: string) {
    w in {"myself", "master", "slave", "fail?", "fail", "handshake", "noaddr", "noflags"}
  }

  lemma {:induction false} FlagsRefused(flags: set<string>, words: seq<string>)
    ensures ParseFlags(flags, words).None? <==> exists w :: w in words && !KnownWord(w)
    ensures ParseFlags(flags, words).Some? ==> ParseFlags(flags, words).value == flags + set w | w in words && w != "noflags"
  {
    if words != [] {
      var front, last := words[..|words| - 1], words[|words| - 1];
      FlagsRefused(flags, front);
      assert words == front + [last];
      FlagIsKnown(last);
      if ParseFlags(flags, words).Some? {
        assert (set w | w in words && w != "noflags") ==
               (set w | w in front && w != "noflags") + if last == "noflags" then {} else {last};
      }
    }
  }

  lemma FlagIsKnown(w: string)
    ensures KnownWord(w) <==> w in FLAGS || w == "noflags"
    ensures "noflags" !in FLAGS
  {
    assert FLAGS[0] == "myself" && FLAGS[1] == "master" && FLAGS[2] == "slave" && FLAGS[3] == "fail?" && FLAGS[4] == "fail";
    assert FLAGS[5] == "handshake" && FLAGS[6] == "noaddr";
  }

  /** A line is refused before its slots exactly if its address has no colon, a flag is unknown, or it is
      one `myself` too many. */
  lemma FieldsRefused(st: State, name: string, address: string, flags: string, master: string, epoch: string)
    ensures var words := Folds(Split(flags));
            LoadFields(st, name, address, flags, master, epoch).None? <==>
              || ':' !in address || (exists w :: w in words && !KnownWord(w))
              || multiset(words)["myself"] + (if st.myself.Some? then 1 else 0) > 1
  {
    FlagsRefused(Known(st.nodes, name)[name].flags, Folds(Split(flags)));
  }

  lemma ShortLineRefused(st: State, argv: seq<string>)
    ensures |argv| < 8 ==> LoadNode(st, argv).None?
    ensures LoadNode(st, argv).Some? ==> |argv| >= 8 && LoadFields(st, argv[0], argv[1], argv[2], argv[3], argv[6]).Some?
  {
  }
}
