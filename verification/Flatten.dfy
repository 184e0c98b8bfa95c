/** Nested anonymous structs flattened into one argument list (struct.c, to_string.c): the list of
    a struct's members is spliced in behind it, under dotted names, while the list is being walked. */
module Flatten {
  import opened Sequences

  /** A field declaration with one declarator; a struct type carries its members. `macroPointer`
      stands for a `macro(type) name` declaration other than g_autoptr. */
  datatype Field = Field(name: string, macroPointer: bool, pointer: nat, members: seq<Field>)

  /** What one list entry shows: name, whether it is skipped, depth of pointers. */
  datatype Entry = Entry(variable: string, macroPointer: bool, dead: bool, pointer: nat)

  // -------------------------------------------------------------- the intended result

  /** A struct formats everything already in its member list once more, under its own name. */
  function Under(name: string, es: seq<Entry>): (r: seq<Entry>)
    ensures |r| == |es|
    ensures forall i :: 0 <= i < |es| ==> r[i] == Reformat(Rename(name, es[i]))
  {
    if es == [] then [] else Under(name, es[..|es| - 1]) + [Reformat(Rename(name, es[|es| - 1]))]
  }

  function Rename(name: string, e: Entry): Entry {
    e.(variable := name + "." + e.variable)
  }

  function Reformat(e: Entry): Entry {
    if !e.dead && e.macroPointer then e.(pointer := e.pointer + 1) else e
  }

  function Flat(f: Field): seq<Entry>
    decreases f
  {
    var self := Entry(f.name, f.macroPointer, false, f.pointer);
    if f.members == [] then [Reformat(self)]
    else [self.(dead := true)] + Under(f.name, FlatAll(f.members))
  }

  function FlatAll(fs: seq<Field>): seq<Entry>
    decreases fs
  {
    if fs == [] then [] else FlatAll(fs[..|fs| - 1]) + Flat(fs[|fs| - 1])
  }

  // ------------------------------------------- the same result, described from the leaves

  /** A leaf of the nesting: the names on the way to it, and what was declared there. A struct
      without members is a leaf. */
  datatype Leaf = Leaf(path: seq<string>, macroPointer: bool, pointer: nat)

  function Leaves(f: Field): seq<Leaf>
    decreases f
  {
    if f.members == [] then [Leaf([f.name], f.macroPointer, f.pointer)] else Inside(f.name, LeavesOf(f.members))
  }

  function LeavesOf(fs: seq<Field>): seq<Leaf>
    decreases fs
  {
    if fs == [] then [] else LeavesOf(fs[..|fs| - 1]) + Leaves(fs[|fs| - 1])
  }

  function Inside(name: string, ls: seq<Leaf>): seq<Leaf> {
    if ls == [] then []
    else Inside(name, ls[..|ls| - 1]) + [ls[|ls| - 1].(path := [name] + ls[|ls| - 1].path)]
  }

  function Dotted(path: seq<string>): string {
    if path == [] then "" else if |path| == 1 then path[0] else path[0] + "." + Dotted(path[1..])
  }

  /** The entry of a leaf: its full dotted path; a `macro(type)` leaf gains one level of pointer for
      every name in its path, where the declaration has one level in all. */
  function LeafEntry(l: Leaf): Entry {
    Entry(Dotted(l.path), l.macroPointer, false, LeafPointer(l))
  }

  function LeafPointer(l: Leaf): nat {
    l.pointer + if l.macroPointer then |l.path| else 0
  }

  function LeafEntries(ls: seq<Leaf>): seq<Entry> {
    if ls == [] then [] else LeafEntries(ls[..|ls| - 1]) + [LeafEntry(ls[|ls| - 1])]
  }

  function Live(es: seq<Entry>): seq<Entry> {
    if es == [] then []
    else Live(es[..|es| - 1]) + if es[|es| - 1].dead then [] else [es[|es| - 1]]
  }

  function CountFields(fs: seq<Field>): nat
    decreases fs
  {
    if fs == [] then 0 else CountFields(fs[..|fs| - 1]) + 1 + CountFields(fs[|fs| - 1].members)
  }

  lemma {:induction false} LiveJoined(a: seq<Entry>, b: seq<Entry>)
    ensures Live(a + b) == Live(a) + Live(b)
  {
    if b == [] {
      assert a + b == a;
    } else {
      var front, last := b[..|b| - 1], b[|b| - 1];
      LiveJoined(a, front);
      assert (a + b)[..|a + b| - 1] == a + front;
    }
  }

  lemma {:induction false} LiveUnder(name: string, es: seq<Entry>)
    ensures Live(Under(name, es)) == Under(name, Live(es))
  {
    if es != [] {
      var front, last := es[..|es| - 1], es[|es| - 1];
      LiveUnder(name, front);
      var u := Under(name, front);
      assert Under(name, es)[..|u|] == u;
      if !last.dead {
        assert (Live(front) + [last])[..|Live(front)|] == Live(front);
      }
    }
  }

  lemma {:induction false} EntriesJoined(a: seq<Leaf>, b: seq<Leaf>)
    ensures LeafEntries(a + b) == LeafEntries(a) + LeafEntries(b)
  {
    if b == [] {
      assert a + b == a;
    } else {
      var front := b[..|b| - 1];
      EntriesJoined(a, front);
      assert (a + b)[..|a + b| - 1] == a + front;
    }
  }

  ghost predicate Rooted(ls: seq<Leaf>) {
    forall i :: 0 <= i < |ls| ==> ls[i].path != []
  }

  lemma {:induction false} EntriesInside(name: string, ls: seq<Leaf>)
    requires Rooted(ls)
    ensures LeafEntries(Inside(name, ls)) == Under(name, LeafEntries(ls)) && |Inside(name, ls)| == |ls|
    ensures Rooted(Inside(name, ls))
  {
    if ls != [] {
      var front, last := ls[..|ls| - 1], ls[|ls| - 1];
      EntriesInside(name, front);
      assert Inside(name, ls)[..|front|] == Inside(name, front);
      assert LeafEntries(ls)[..|LeafEntries(front)|] == LeafEntries(front);
      assert ([name] + last.path)[1..] == last.path;
      assert LeafEntry(last.(path := [name] + last.path)) == Reformat(Rename(name, LeafEntry(last)));
    }
  }

  /** For any nesting: what stays alive in the list is exactly the leaves, in the order of the source,
      under their full dotted paths; and no field is lost or listed twice. */
  lemma {:induction false} LiveEntriesAreLeaves(f: Field)
    ensures Live(Flat(f)) == LeafEntries(Leaves(f)) && Rooted(Leaves(f))
    ensures |Flat(f)| == 1 + CountFields(f.members)
    ensures Flat(f)[0].dead <==> f.members != []
    decreases f
  {
    var self := Entry(f.name, f.macroPointer, false, f.pointer);
    if f.members == [] {
      assert Live([Reformat(self)]) == [Reformat(self)];
      assert LeafEntries(Leaves(f)) == [LeafEntry(Leaf([f.name], f.macroPointer, f.pointer))];
    } else {
      LiveEntriesAreLeavesOf(f.members);
      var under := Under(f.name, FlatAll(f.members));
      LiveJoined([self.(dead := true)], under);
      assert Live([self.(dead := true)]) == [];
      LiveUnder(f.name, FlatAll(f.members));
      EntriesInside(f.name, LeavesOf(f.members));
    }
  }

  lemma {:induction false} LiveEntriesAreLeavesOf(fs: seq<Field>)
    ensures Live(FlatAll(fs)) == LeafEntries(LeavesOf(fs)) && Rooted(LeavesOf(fs)) && |FlatAll(fs)| == CountFields(fs)
    decreases fs
  {
    if fs != [] {
      var front, last := fs[..|fs| - 1], fs[|fs| - 1];
      LiveEntriesAreLeavesOf(front);
      LiveEntriesAreLeaves(last);
      LiveJoined(FlatAll(front), Flat(last));
      EntriesJoined(LeavesOf(front), Leaves(last));
    }
  }

  /** Does the entry of this leaf show one level of pointer more than declared? */
  predicate AddsOne(l: Leaf) {
    LeafPointer(l) == l.pointer + 1
  }

  /** `macro(type) x` is meant to add one level of pointer. The entries show that exactly when the
      leaf is not nested at all; inside structs the level is added again by each of them. */
  lemma MacroAddsOneIffNotNested(f: Field, ls: seq<Leaf>)
    requires ls == Leaves(f)
    ensures (forall l :: l in ls && l.macroPointer ==> AddsOne(l)) <==>
            (f.members == [] || forall l :: l in ls ==> !l.macroPointer)
  {
    if f.members != [] {
      NestedAreDeep(f, ls);
      DeepNeverAddsOne(ls);
    } else {
      assert ls == [Leaf([f.name], f.macroPointer, f.pointer)];
    }
  }

  lemma DeepNeverAddsOne(ls: seq<Leaf>)
    requires forall l :: l in ls ==> |l.path| >= 2
    ensures forall l :: l in ls && l.macroPointer ==> !AddsOne(l)
  {
  }

  lemma NestedAreDeep(f: Field, ls: seq<Leaf>)
    requires f.members != [] && ls == Leaves(f)
    ensures forall l :: l in ls ==> |l.path| >= 2
  {
    LiveEntriesAreLeavesOf(f.members);
    DeepInside(f.name, LeavesOf(f.members), ls);
  }

  lemma {:induction false} DeepInside(name: string, ls: seq<Leaf>, nested: seq<Leaf>)
    requires Rooted(ls) && nested == Inside(name, ls)
    ensures forall l :: l in nested ==> |l.path| >= 2
  {
    if ls != [] {
      DeepInside(name, ls[..|ls| - 1], nested[..|nested| - 1]);
      assert nested == nested[..|nested| - 1] + [nested[|nested| - 1]];
    }
  }

  lemma NestedMacroAddsTwo()
    ensures Flat(Field("a", false, 0, [Field("x", true, 0, [])])) == [Entry("a", false, true, 0), Entry("a.x", true, false, 2)]
  {
    var x := Field("x", true, 0, []);
    var es := [Entry("x", true, false, 1)];
    assert [x][..0] == [] && FlatAll([]) == [] && FlatAll([x]) == es;
    assert "a" + "." + "x" == "a.x";
    assert es[..0] == [] && Under("a", []) == [] && Under("a", es) == [Entry("a.x", true, false, 2)];
  }

  // ------------------------------------------------------------------- the list itself

  class Arg {
    var variable: string
    var macroPointer: bool
    var dead: bool
    var pointer: nat
    var rec: Arg?
    var next: Arg?

    constructor (variable: string, macroPointer: bool, pointer: nat)
      ensures Shown() == Entry(variable, macroPointer, false, pointer) && rec == null && next == null
    {
      this.variable, this.macroPointer, this.dead, this.pointer, this.rec, this.next := variable, macroPointer, false, pointer, null, null;
    }

    function Shown(): Entry
      reads `variable, `macroPointer, `dead, `pointer
    {
      Entry(variable, macroPointer, dead, pointer)
    }
  }

  ghost predicate Distinct(nodes: seq<Arg>) {
    forall i, j :: 0 <= i < j < |nodes| ==> nodes[i] != nodes[j]
  }

  /** These nodes, in this order, are a whole list. */
  ghost predicate Linked(nodes: seq<Arg>)
    reads nodes`next
  {
    Distinct(nodes) && forall i :: 0 <= i < |nodes| ==> nodes[i].next == Next(nodes, i)
  }

  function Next(nodes: seq<Arg>, i: nat): Arg? {
    if i + 1 < |nodes| then nodes[i + 1] else null
  }

  /** They show these entries, and only dead ones still hold a member list. */
  ghost predicate Shows(nodes: seq<Arg>, es: seq<Entry>)
    reads nodes`variable, nodes`macroPointer, nodes`dead, nodes`pointer, nodes`rec
  {
    |nodes| == |es| && forall i :: 0 <= i < |nodes| ==> nodes[i].Shown() == es[i] && (nodes[i].dead || nodes[i].rec == null)
  }

  lemma LinkedTail(first: Arg, nodes: seq<Arg>)
    requires Linked([first] + nodes)
    ensures Linked(nodes) && first !in nodes && first.next == if nodes == [] then null else nodes[0]
  {
    var all := [first] + nodes;
    assert all[0].next == Next(all, 0);
    forall i | 0 <= i < |nodes| ensures nodes[i].next == Next(nodes, i) && nodes[i] != first {
      assert all[i + 1].next == Next(all, i + 1) && all[0] != all[i + 1];
    }
    forall i, j | 0 <= i < j < |nodes| ensures nodes[i] != nodes[j] {
      assert all[i + 1] != all[j + 1];
    }
  }

  twostate lemma LinkedJoined(before: seq<Arg>, new more: seq<Arg>)
    requires before != [] && more != [] && old(Linked(before)) && (forall k :: 0 <= k < |more| ==> more[k].next == Next(more, k))
    requires forall i, j :: 0 <= i < j < |more| ==> more[i] != more[j]
    requires forall i, j :: 0 <= i < |before| && 0 <= j < |more| ==> before[i] != more[j]
    requires before[|before| - 1].next == more[0]
    requires forall k :: 0 <= k < |before| - 1 ==> before[k].next == old(before[k].next)
    ensures Linked(before + more)
  {
    var all := before + more;
    forall i | 0 <= i < |all| ensures all[i].next == Next(all, i) {
      if i < |before| - 1 {
        assert old(before[i].next) == Next(before, i);
      } else if i >= |before| {
        assert more[i - |before|].next == Next(more, i - |before|);
      }
    }
  }

  lemma ShowsJoined(a: seq<Arg>, x: seq<Entry>, b: seq<Arg>, y: seq<Entry>)
    requires Shows(a, x) && Shows(b, y)
    ensures Shows(a + b, x + y)
  {
  }

  /** The part of __format for entries without members. */
  method FormatLeaf(result: Arg)
    requires result.dead || result.rec == null
    modifies result`pointer
    ensures result.Shown() == Reformat(old(result.Shown()))
  {
    if result.dead {
      return;
    }
    if result.macroPointer {
      result.pointer := result.pointer + 1;
    }
  }

  /** Every member gets the struct's name in front; the walk ends on the last one. */
  method RenameMembers(first: Arg, name: string, ghost kids: seq<Arg>, ghost es: seq<Entry>) returns (last: Arg)
    requires kids != [] && first == kids[0] && Linked(kids) && Shows(kids, es)
    modifies kids`variable
    ensures last == kids[|kids| - 1]
    ensures |kids| == |es| && forall i :: 0 <= i < |kids| ==> kids[i].Shown() == Rename(name, es[i])
  {
    var it := first;
    ghost var i := 0;
    while true
      invariant 0 <= i < |kids| && it == kids[i]
      invariant forall k :: 0 <= k < |kids| ==> kids[k].next == Next(kids, k)
      invariant forall k :: 0 <= k < |kids| ==> kids[k].Shown() == if k < i then Rename(name, es[k]) else es[k]
      decreases |kids| - i
    {
      it.variable := name + "." + it.variable;
      assert kids[i].next == Next(kids, i);
      if it.next == null {
        break;
      }
      assert i + 1 < |kids|;
      it := it.next;
      i := i + 1;
    }
    last := it;
  }

  lemma DistinctParts(result: Arg, kids: seq<Arg>, tail: seq<Arg>)
    requires Distinct([result] + kids + tail)
    ensures result !in kids && result !in tail && forall i, j :: 0 <= i < |kids| && 0 <= j < |tail| ==> kids[i] != tail[j]
  {
    var all := [result] + kids + tail;
    forall i | 0 <= i < |kids| ensures result != kids[i] {
      assert all[0] != all[i + 1];
    }
    forall j | 0 <= j < |tail| ensures result != tail[j] {
      assert all[0] != all[1 + |kids| + j];
    }
    forall i, j | 0 <= i < |kids| && 0 <= j < |tail| ensures kids[i] != tail[j] {
      assert all[i + 1] != all[1 + |kids| + j];
    }
  }

  /** The members in between are a whole list again. */
  lemma SplicedIn(result: Arg, kids: seq<Arg>, tail: seq<Arg>)
    requires kids != [] && Distinct([result] + kids + tail) && result.next == kids[0]
    requires forall k :: 0 <= k < |kids| - 1 ==> kids[k].next == kids[k + 1]
    requires kids[|kids| - 1].next == if tail == [] then null else tail[0]
    requires forall k :: 0 <= k < |tail| ==> tail[k].next == Next(tail, k)
    ensures Linked([result] + kids + tail)
  {
    var all := [result] + kids + tail;
    forall i | 0 <= i < |all| ensures all[i].next == Next(all, i) {
      if i > |kids| {
        assert tail[i - 1 - |kids|].next == Next(tail, i - 1 - |kids|);
      }
    }
  }

  /** The members carry the struct's name in front of theirs. */
  ghost predicate Renamed(kids: seq<Arg>, name: string, es: seq<Entry>)
    reads kids`variable, kids`macroPointer, kids`dead, kids`pointer, kids`rec
  {
    |kids| == |es| && forall i :: 0 <= i < |kids| ==>
        kids[i].Shown() == Rename(name, es[i]) && (kids[i].dead || kids[i].rec == null)
  }

  /** The members go in between the struct and whatever followed it. */
  method Hook(result: Arg, last: Arg, ghost kids: seq<Arg>, ghost tail: seq<Arg>, ghost es: seq<Entry>)
    requires Renamed(kids, result.variable, es)
    requires kids != [] && result.rec == kids[0] && Linked(kids) && last == kids[|kids| - 1]
    requires Linked([result] + tail) && Distinct([result] + kids + tail)
    modifies result`next, result`dead, last`next
    ensures Linked([result] + kids + tail) && result.next == kids[0] && Renamed(kids, result.variable, es)
    ensures result.Shown() == old(result.Shown()).(dead := true)
  {
    LinkedTail(result, tail);
    DistinctParts(result, kids, tail);
    assert forall k :: 0 <= k < |kids| ==> kids[k].next == Next(kids, k);
    last.next := result.next;
    result.next := result.rec;
    result.dead := true;
    SplicedIn(result, kids, tail);
  }

  /** The head of __format: rename the members, splice them in, and retire the struct. */
  method Splice(result: Arg, ghost kids: seq<Arg>, ghost es: seq<Entry>, ghost tail: seq<Arg>)
    requires !result.dead && kids != [] && result.rec == kids[0] && Linked(kids) && Shows(kids, es)
    requires Linked([result] + tail) && Distinct([result] + kids + tail)
    modifies result`next, result`dead, kids`variable, kids`next
    ensures Linked([result] + kids + tail) && result.next == kids[0]
    ensures result.Shown() == old(result.Shown()).(dead := true)
    ensures Renamed(kids, result.variable, es)
  {
    var last := RenameMembers(result.rec, result.variable, kids, es);
    Hook(result, last, kids, tail, es);
  }

  /** The same where nothing follows the struct, which is how __field_to_arg builds its lists. */
  method SpliceLast(result: Arg, ghost kids: seq<Arg>, ghost es: seq<Entry>)
    requires !result.dead && result.next == null && kids != [] && result.rec == kids[0] && result !in kids
    requires Linked(kids) && Shows(kids, es)
    modifies result`next, result`dead, kids`variable, kids`next
    ensures Linked([result] + kids) && Linked(kids) && result.next == kids[0]
    ensures result.Shown() == old(result.Shown()).(dead := true)
    ensures |kids| == |es| && forall i :: 0 <= i < |kids| ==>
              kids[i].Shown() == Rename(result.variable, es[i]) && (kids[i].dead || kids[i].rec == null)
  {
    assert [result] + kids + [] == [result] + kids;
    Splice(result, kids, es, []);
    LinkedTail(result, kids);
  }

  /** The turns of the loop in __field_to_arg that reach the members spliced in by the first one. */
  method FormatMembers(first: Arg?, ghost name: string, ghost kids: seq<Arg>, ghost es: seq<Entry>)
    requires Linked(kids) && first == if kids == [] then null else kids[0]
    requires |kids| == |es| && forall i :: 0 <= i < |kids| ==>
               kids[i].Shown() == Rename(name, es[i]) && (kids[i].dead || kids[i].rec == null)
    modifies kids`pointer
    ensures Shows(kids, Under(name, es))
  {
    var it := first;
    ghost var i, under := 0, Under(name, es);
    while it != null
      invariant 0 <= i <= |kids| && it == if i < |kids| then kids[i] else null
      invariant forall k :: 0 <= k < |kids| ==> kids[k].next == Next(kids, k)
      invariant forall k :: 0 <= k < |kids| ==> kids[k].Shown() == if k < i then under[k] else Rename(name, es[k])
      decreases |kids| - i
    {
      FormatLeaf(it);
      assert kids[i].next == Next(kids, i);
      it := it.next;
      i := i + 1;
    }
  }

  /** What follows the construction of a struct's member list: splice, then format what was spliced. */
  method FormatStruct(result: Arg, ghost kids: seq<Arg>, ghost es: seq<Entry>)
    requires !result.dead && result.next == null && kids != [] && result.rec == kids[0] && result !in kids
    requires Linked(kids) && Shows(kids, es)
    modifies result`next, result`dead, kids`variable, kids`next, kids`pointer
    ensures Linked([result] + kids)
    ensures Shows([result] + kids, [old(result.Shown()).(dead := true)] + Under(result.variable, es))
  {
    SpliceLast(result, kids, es);
    FormatMembers(result.next, result.variable, kids, es);
    ShowsJoined([result], [result.Shown()], kids, Under(result.variable, es));
  }

  /** A struct and its member list. */
  method AttachMembers(result: Arg, first: Arg?, ghost kids: seq<Arg>, ghost es: seq<Entry>)
    requires !result.dead && result.next == null && kids != [] && first == kids[0] && result !in kids
    requires Linked(kids) && Shows(kids, es)
    modifies result`rec, result`next, result`dead, kids`variable, kids`next, kids`pointer
    ensures Linked([result] + kids)
    ensures Shows([result] + kids, [old(result.Shown()).(dead := true)] + Under(result.variable, es))
  {
    result.rec := first;
    FormatStruct(result, kids, es);
  }

  /** __field_to_arg: the list for one field, its members after it. */
  method FieldToArg(f: Field) returns (result: Arg, ghost nodes: seq<Arg>)
    ensures nodes != [] && result == nodes[0] && Linked(nodes) && Shows(nodes, Flat(f))
    ensures fresh(nodes)
    decreases f, 0
  {
    result := new Arg(f.name, f.macroPointer, f.pointer);
    nodes := [result];
    if f.members == [] {
      FormatLeaf(result);
    } else {
      ghost var kids;
      var first;
      first, kids := MemberList(f.members);
      AttachMembers(result, first, kids, FlatAll(f.members));
      nodes := [result] + kids;
    }
  }

  /** One more field of a struct: its own list is appended whole. */
  method AppendField(ghost before: seq<Arg>, last: Arg, f: Field) returns (end: Arg, ghost more: seq<Arg>)
    requires before != [] && Linked(before) && last == before[|before| - 1]
    modifies last`next
    ensures more != [] && fresh(more) && Linked(before + more) && Shows(more, Flat(f)) && end == more[|more| - 1]
    decreases f, 1
  {
    var arg;
    arg, more := FieldToArg(f);
    end := Append(before, last, arg, more);
  }

  /** The list of the members, with the dummy in front and a pointer to the end. */
  ghost predicate Collected(dummy: Arg, nodes: seq<Arg>, es: seq<Entry>, last: Arg)
    reads {dummy} + (set n | n in nodes)
  {
    Linked([dummy] + nodes) && Shows(nodes, es) && last == ([dummy] + nodes)[|nodes|]
  }

  method AppendMember(dummy: Arg, ghost nodes: seq<Arg>, ghost es: seq<Entry>, last: Arg, f: Field)
    returns (end: Arg, ghost more: seq<Arg>)
    requires Collected(dummy, nodes, es, last)
    modifies last`next
    ensures more != [] && fresh(more) && Collected(dummy, nodes + more, es + Flat(f), end)
    decreases f, 2
  {
    end, more := AppendField([dummy] + nodes, last, f);
    Regroup([dummy], nodes, more);
    ShowsJoined(nodes, es, more, Flat(f));
  }

  /** The member list of a struct. */
  method MemberList(fs: seq<Field>) returns (first: Arg?, ghost nodes: seq<Arg>)
    ensures Linked(nodes) && Shows(nodes, FlatAll(fs)) && first == if nodes == [] then null else nodes[0]
    ensures fs != [] ==> nodes != []
    ensures fresh(nodes)
    decreases fs
  {
    var dummy := new Arg("", false, 0);
    var last := dummy;
    nodes := [];
    var i := 0;
    while i < |fs|
      invariant 0 <= i <= |fs| && (i > 0 ==> nodes != [])
      invariant fresh(nodes) && fresh(dummy) && Collected(dummy, nodes, FlatAll(fs[..i]), last)
    {
      ghost var more;
      last, more := AppendMember(dummy, nodes, FlatAll(fs[..i]), last, fs[i]);
      FlatAllOneMore(fs, i);
      nodes := nodes + more;
      i := i + 1;
    }
    assert fs[..i] == fs;
    LinkedTail(dummy, nodes);
    first := dummy.next;
  }

  lemma FlatAllOneMore(fs: seq<Field>, i: nat)
    requires i < |fs|
    ensures FlatAll(fs[..i + 1]) == FlatAll(fs[..i]) + Flat(fs[i])
  {
    assert fs[..i + 1][..i] == fs[..i];
  }

  /** Hook one list behind another and walk to its end. */
  method Append(ghost before: seq<Arg>, last: Arg, arg: Arg, ghost more: seq<Arg>) returns (end: Arg)
    requires before != [] && Linked(before) && last == before[|before| - 1]
    requires more != [] && Linked(more) && arg == more[0]
    requires forall i, j :: 0 <= i < |before| && 0 <= j < |more| ==> before[i] != more[j]
    modifies last`next
    ensures Linked(before + more) && end == more[|more| - 1]
  {
    last.next := arg;
    LinkedJoined(before, more);
    end := arg;
    ghost var i := 0;
    while end.next != null
      invariant 0 <= i < |more| && end == more[i] && Linked(before + more)
      decreases |more| - i
    {
      assert (before + more)[|before| + i].next == Next(before + more, |before| + i);
      end := end.next;
      i := i + 1;
    }
    assert (before + more)[|before| + i].next == Next(before + more, |before| + i);
  }
}
