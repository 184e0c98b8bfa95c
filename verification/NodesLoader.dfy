/** The loader as the server runs it, filling its tables word by word. */
module NodesLoader {
  import opened Options
  import opened Sequences
  import opened Text
  import opened NodesConf
  import opened NodesFile

  class Loader {
    var nodes: map<string, Rec>
    var owner: map<nat, string>
    var migrating: map<nat, string>
    var importing: map<nat, string>
    var myself: Option<string>
    var current: nat
    var lastVote: nat

    constructor ()
      ensures Loaded() == EMPTY
    {
      nodes, owner, migrating, importing, myself, current, lastVote := map[], map[], map[], map[], None, 0, 0;
    }

    ghost function Loaded(): State
      reads this
    {
      State(nodes, owner, migrating, importing, myself, current, lastVote)
    }

    method AddSlots(name: string, start: nat, stop: int)
      modifies `owner
      ensures owner == AddRange(old(owner), name, start, stop)
    {
      var j := start;
      while j <= stop
        invariant AddRange(owner, name, j, stop) == AddRange(old(owner), name, start, stop)
        decreases stop - j
      {
        if j !in owner {
          owner := owner[j := name];
        }
        j := j + 1;
      }
    }

    /** clusterLookupNode and, failing that, createClusterNode and clusterAddNode. */
    method LookupOrCreate(name: string)
      modifies `nodes
      ensures nodes == Known(old(nodes), name)
    {
      if name !in nodes {
        nodes := nodes[name := FRESH];
      }
    }

    method LoadOpenSlot(word: string) returns (ok: bool)
      requires word != "" && word[0] == '['
      modifies `nodes, `migrating, `importing
      ensures var r := LoadOpen(old(Loaded()), word); ok == r.Some? && (ok ==> Loaded() == r.value)
    {
      var i := IndexOf(word, '-');
      if i + 3 + NAME_LEN > |word| {
        return false;
      }
      var direction, peer := word[i + 1], word[i + 3..i + 3 + NAME_LEN];
      NoMinusNoSign(word[1..i]);
      var slot := Atoi(word[1..i]);
      LookupOrCreate(peer);
      if direction == '>' {
        migrating := migrating[slot := peer];
      } else {
        importing := importing[slot := peer];
      }
      return true;
    }

    method LoadSlotWord(name: string, word: string) returns (ok: bool)
      modifies `nodes, `owner, `migrating, `importing
      ensures var r := LoadSlots(old(Loaded()), name, word); ok == r.Some? && (ok ==> Loaded() == r.value)
    {
      if word != "" && word[0] == '[' {
        ok := LoadOpenSlot(word);
      } else {
        var i := IndexOf(word, '-');
        NoMinusNoSign(word[..i]);
        var start, stop: int := Atoi(word[..i]), Atoi(word);
        if i < |word| {
          stop := Atoi(word[i + 1..]);
        }
        AddSlots(name, start, stop);
        ok := true;
      }
    }

    method LoadWords(name: string, words: seq<string>) returns (ok: bool)
      modifies `nodes, `owner, `migrating, `importing
      ensures var r := LoadSlotWords(old(Loaded()), name, words); ok == r.Some? && (ok ==> Loaded() == r.value)
    {
      var j := 0;
      ok := true;
      while j < |words|
        invariant 0 <= j <= |words|
        invariant var r := LoadSlotWords(old(Loaded()), name, words[..j]); ok == r.Some? && (ok ==> Loaded() == r.value)
      {
        assert words[..j + 1] == words[..j] + [words[j]];
        OneMoreWord(old(Loaded()), name, words[..j], words[j]);
        if ok {
          ok := LoadSlotWord(name, words[j]);
        }
        j := j + 1;
      }
      assert words[..j] == words;
    }

    /** One flag at a time, in upper or lower case; a second `myself` or an unknown word stops the server. */
    method LoadFlags(name: string, known: set<string>, text: seq<string>, ghost words: seq<string>) returns (flags: set<string>, ok: bool)
      requires words == Folds(text)
      modifies `myself
      ensures var r := ParseFlags(known, words);
              ok <==> r.Some? && multiset(words)["myself"] + (if old(myself).Some? then 1 else 0) <= 1
      ensures ok ==>
          flags == ParseFlags(known, words).value && myself == if "myself" in words then Some(name) else old(myself)
    {
      flags, ok := known, true;
      var j := 0;
      while j < |text| && ok
        invariant 0 <= j <= |words|
        invariant ok ==> ParseFlags(known, words[..j]) == Some(flags) && myself == if "myself" in words[..j] then Some(name) else old(myself)
        invariant ok ==>
            multiset(words[..j])["myself"] + (if old(myself).Some? then 1 else 0) == if myself.Some? then 1 else 0
        invariant !ok ==>
            ParseFlags(known, words[..j]).None? || multiset(words[..j])["myself"] + (if old(myself).Some? then 1 else 0) > 1
      {
        var w := Fold(text[j]);
        assert w == words[j];
        OneMoreFlag(known, words, j);
        if w == "myself" && myself.Some? {
          ok := false;
        } else if w in FLAGS {
          if w == "myself" {
            myself := Some(name);
          }
          flags := flags + {w};
        } else if w != "noflags" {
          ok := false;
        }
        j := j + 1;
      }
      FlagsStopEarly(known, words, j);
      assert words[..|words|] == words;
    }

    /** The link to the master, in both directions. */
    method LinkToMaster(name: string, master: string)
      requires name in nodes
      modifies `nodes
      ensures nodes == LoadMaster(old(nodes), name, master)
    {
      LookupOrCreate(master);
      nodes := nodes[name := nodes[name].(master := Some(master))];
      var m := nodes[master];
      if name !in m.slaves {
        nodes := nodes[master := m.(slaves := m.slaves + [name])];
      }
    }

    /** Address, flags and epoch; `myself` is noticed on the way. */
    method ReadNode(name: string, n: Rec, address: string, text: seq<string>, epoch: string, ghost words: seq<string>)
      returns (r: Rec, ok: bool)
      requires words == Folds(text)
      modifies `myself
      ensures var p := ReadFields(n, old(myself).Some?, address, words, epoch);
              ok == p.Some? && (ok ==> r == p.value && myself == if "myself" in words then Some(name) else old(myself))
    {
      var addressed := ParseAddress(n, address);
      if addressed.None? {
        return n, false;
      }
      var flags;
      flags, ok := LoadFlags(name, n.flags, text, words);
      r := addressed.value.(flags := flags, epoch := Unsigned(epoch));
    }

    method StoreNode(name: string, r: Rec, master: string)
      modifies `nodes
      ensures nodes == PutRecord(old(nodes), name, r, ParseMaster(master))
    {
      nodes := nodes[name := r];
      if !(master != "" && master[0] == '-') {
        LinkToMaster(name, master);
      }
    }

    /** The record goes in its place; `before` is the state when the line was begun. */
    method EnterRecord(name: string, r: Rec, master: string, ghost before: State, ghost isMe: bool)
      requires nodes == Known(before.nodes, name) && myself == if isMe then Some(name) else before.myself
      requires Loaded() == before.(nodes := nodes, myself := myself)
      modifies `nodes
      ensures Loaded() == PutNode(before, name, r, isMe, ParseMaster(master))
    {
      assert nodes[name := r] == before.nodes[name := r];
      StoreNode(name, r, master);
    }

    method LoadNodeFields(name: string, address: string, flagsText: string, master: string, epoch: string) returns (ok: bool)
      modifies `nodes, `myself
      ensures var r := LoadFields(old(Loaded()), name, address, flagsText, master, epoch); ok == r.Some? && (ok ==> Loaded() == r.value)
    {
      ghost var before := Loaded();
      LookupOrCreate(name);
      var r;
      var text := Split(flagsText);
      ghost var words := Folds(text);
      r, ok := ReadNode(name, nodes[name], address, text, epoch, words);
      if ok {
        EnterRecord(name, r, master, before, "myself" in words);
      }
    }

    method LoadNodeLine(argv: seq<string>) returns (ok: bool)
      modifies this
      ensures var r := LoadNode(old(Loaded()), argv); ok == r.Some? && (ok ==> Loaded() == r.value)
    {
      if |argv| < 8 {
        return false;
      }
      ok := LoadNodeFields(argv[0], argv[1], argv[2], argv[3], argv[6]);
      if ok {
        ok := LoadWords(argv[0], argv[8..]);
      }
    }

    method LoadVariables(argv: seq<string>)
      modifies `current, `lastVote
      ensures Loaded() == LoadVars(old(Loaded()), argv)
    {
      var j := 0;
      while j + 1 < |argv|
        invariant 0 <= j <= |argv| && LoadVars(Loaded(), argv[j..]) == LoadVars(old(Loaded()), argv)
      {
        assert argv[j..][2..] == argv[j + 2..];
        if SameWord(argv[j], "currentEpoch") {
          current := Unsigned(argv[j + 1]);
        } else if SameWord(argv[j], "lastVoteEpoch") {
          lastVote := Unsigned(argv[j + 1]);
        }
        j := j + 2;
      }
    }

    /** The whole file, up to the last repair of the current epoch. */
    method LoadAll(lines: seq<seq<string>>) returns (ok: bool)
      modifies this
      ensures var r := LoadLines(old(Loaded()), lines); ok == r.Some? && (ok ==> Loaded() == r.value)
    {
      var j := 0;
      ok := true;
      while j < |lines|
        invariant 0 <= j <= |lines|
        invariant var r := LoadLines(old(Loaded()), lines[..j]); ok == r.Some? && (ok ==> Loaded() == r.value)
      {
        var argv := lines[j];
        assert lines[..j + 1] == lines[..j] + [argv];
        OneMoreLine(old(Loaded()), lines[..j], argv);
        if ok && argv != [] {
          if SameWord(argv[0], "vars") {
            LoadVariables(argv[1..]);
          } else {
            ok := LoadNodeLine(argv);
          }
        }
        j := j + 1;
      }
      assert lines[..j] == lines;
    }
  }

  /** What is wrong with the first words of a line is wrong with the line. */
  lemma OneMoreFlag(known: set<string>, words: seq<string>, j: nat)
    requires j < |words|
    ensures var before := ParseFlags(known, words[..j]);
            ParseFlags(known, words[..j + 1]) ==
            if before.None? then None
            else if words[j] in FLAGS then Some(before.value + {words[j]})
            else if words[j] == "noflags" then before
            else None
    ensures multiset(words[..j + 1])["myself"] == multiset(words[..j])["myself"] + if words[j] == "myself" then 1 else 0
    ensures "myself" in words[..j + 1] <==> "myself" in words[..j] || words[j] == "myself"
  {
    assert words[..j + 1] == words[..j] + [words[j]] && words[..j + 1][..j] == words[..j];
  }

  lemma {:induction false} FlagsStopEarly(known: set<string>, words: seq<string>, j: nat)
    requires j <= |words|
    ensures ParseFlags(known, words[..j]).None? ==> ParseFlags(known, words).None?
    ensures multiset(words[..j])["myself"] <= multiset(words)["myself"]
    decreases |words|
  {
    if j < |words| {
      FlagsStopEarly(known, words[..|words| - 1], j);
      assert words[..|words| - 1][..j] == words[..j];
      assert words == words[..|words| - 1] + [words[|words| - 1]];
    } else {
      assert words[..j] == words;
    }
  }
}
