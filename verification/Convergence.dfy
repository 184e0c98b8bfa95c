/** Owner tables converge: masters that keep announcing the same slots end up in every table the
    same way, whatever the order in which their packets arrive and however often. */
module Convergence {
  import opened EpochRules
  import opened SlotTable

  type Id = nat

  datatype Owner = Nobody | Node(id: Id)

  /** What a master announces in every packet. */
  datatype Claim = Claim(slots: set<nat>, epoch: nat)

  /** What a receiver keeps: owner and open-import flag of each slot, configEpoch on record of each node. */
  datatype Table = Table(owner: map<nat, Owner>, importing: set<nat>, record: map<Id, nat>)

  function Recorded(t: Table, o: Owner): nat {
    if o.Node? && o.id in t.record then t.record[o.id] else 0
  }

  /** The packet's configEpoch goes on record if it is newer. */
  function Record(t: Table, from: Id, c: Claim): Table {
    t.(record := t.record[from := Max(Recorded(t, Node(from)), c.epoch)])
  }

  predicate TakesSlot(t: Table, from: Id, c: Claim, slot: nat)
    requires slot in t.owner
  {
    slot in c.slots && Rebinds(t.owner[slot], Nobody, Node(from), Recorded(t, t.owner[slot]), c.epoch, slot in t.importing)
  }

  function Update(t: Table, from: Id, c: Claim): Table {
    t.(owner := map j | j in t.owner :: if TakesSlot(t, from, c, j) then Node(from) else t.owner[j])
  }

  /** The slots the table gives to a node. */
  function SlotsOf(t: Table, id: Id): set<nat> {
    set j | j in t.owner && t.owner[j] == Node(id)
  }

  /** One packet: the table is only scanned when the claim differs from what it says already. */
  function Receive(t: Table, from: Id, c: Claim): Table {
    var t1 := Record(t, from, c);
    if SlotsOf(t1, from) == c.slots then t1 else Update(t1, from, c)
  }

  /** Skipping the scan changes nothing. */
  lemma SkipIsHarmless(t: Table, from: Id, c: Claim)
    requires SlotsOf(t, from) == c.slots
    ensures Update(t, from, c) == t
  {
    forall j | j in t.owner ensures !TakesSlot(t, from, c, j) {
      assert j in c.slots <==> j in SlotsOf(t, from);
    }
    assert Update(t, from, c).owner == t.owner;
  }

  /** Packets arrive in some order, each from one of the masters. */
  function ReceiveAll(t: Table, claims: map<Id, Claim>, order: seq<Id>): Table
    requires forall id :: id in order ==> id in claims
  {
    if order == [] then t
    else
      var last := order[|order| - 1];
      Receive(ReceiveAll(t, claims, order[..|order| - 1]), last, claims[last])
  }

  /** Nothing owned yet but, perhaps, slots being imported. */
  ghost predicate Blank(t: Table, claims: map<Id, Claim>) {
    && (forall j :: j in t.owner && j !in t.importing ==> t.owner[j] == Nobody)
    && (forall id :: id in claims && id in t.record ==> t.record[id] <= claims[id].epoch)
  }

  /** `o` is the right owner of a slot once the packets of `heard` are in. */
  ghost predicate Best(claims: map<Id, Claim>, heard: set<Id>, slot: nat, o: Owner) {
    if o.Nobody? then forall id :: id in heard && id in claims ==> slot !in claims[id].slots
    else
      && o.id in heard && o.id in claims && slot in claims[o.id].slots
      && forall id :: id in heard && id in claims && slot in claims[id].slots ==> claims[id].epoch <= claims[o.id].epoch
  }

  function Heard(order: seq<Id>): (r: set<Id>)
    ensures forall id :: id in r <==> id in order
  {
    set id | id in order
  }

  ghost predicate UpToDate(t: Table, t0: Table, claims: map<Id, Claim>, heard: set<Id>) {
    && t.owner.Keys == t0.owner.Keys && t.importing == t0.importing
    && (forall id :: id in heard && id in claims ==> id in t.record && t.record[id] == claims[id].epoch)
    && (forall id :: id in claims && id in t.record ==> t.record[id] <= claims[id].epoch)
    && (forall j :: j in t.owner && j !in t.importing ==> Best(claims, heard, j, t.owner[j]))
    && (forall j :: j in t.owner && j in t.importing ==> t.owner[j] == t0.owner[j])
  }

  lemma ReceiveKeepsUpToDate(t: Table, t0: Table, claims: map<Id, Claim>, heard: set<Id>, from: Id)
    requires UpToDate(t, t0, claims, heard) && from in claims
    ensures UpToDate(Receive(t, from, claims[from]), t0, claims, heard + {from})
  {
    var c := claims[from];
    var t1 := Record(t, from, c);
    var t2 := Update(t1, from, c);
    if SlotsOf(t1, from) == c.slots {
      SkipIsHarmless(t1, from, c);
    }
    assert Receive(t, from, c) == t2;
    forall j | j in t2.owner && j !in t2.importing ensures Best(claims, heard + {from}, j, t2.owner[j]) {
      assert Best(claims, heard, j, t.owner[j]);
    }
  }

  /** Whatever the order and the repetitions, each slot that is not being imported ends up with
      the claimant of greatest configEpoch among those heard, and the others stay as they were. */
  lemma {:induction false} TablesConverge(t0: Table, claims: map<Id, Claim>, order: seq<Id>)
    requires Blank(t0, claims) && forall id :: id in order ==> id in claims
    ensures UpToDate(ReceiveAll(t0, claims, order), t0, claims, Heard(order))
  {
    if order == [] {
      assert forall j :: j in t0.owner && j !in t0.importing ==> Best(claims, {}, j, t0.owner[j]);
    } else {
      var front, last := order[..|order| - 1], order[|order| - 1];
      TablesConverge(t0, claims, front);
      ReceiveKeepsUpToDate(ReceiveAll(t0, claims, front), t0, claims, Heard(front), last);
      assert Heard(order) == Heard(front) + {last};
    }
  }

  /** Two claimants heard of one slot, neither below any third. */
  ghost predicate Tied(claims: map<Id, Claim>, heard: set<Id>, slot: nat) {
    exists a, b :: a != b && Best(claims, heard, slot, Node(a)) && Best(claims, heard, slot, Node(b))
  }

  /** Two receivers that heard from the same masters agree, however differently they heard them,
      on every slot without a tie at the top. */
  lemma ReceiversAgree(t: Table, u: Table, claims: map<Id, Claim>, x: seq<Id>, y: seq<Id>, slot: nat)
    requires Blank(t, claims) && Blank(u, claims) && Heard(x) == Heard(y) && forall id :: id in x ==> id in claims
    requires slot in t.owner && slot in u.owner && slot !in t.importing && slot !in u.importing
    requires !Tied(claims, Heard(x), slot)
    ensures forall id :: id in y ==> id in claims
    ensures var t1, u1 := ReceiveAll(t, claims, x), ReceiveAll(u, claims, y);
            slot in t1.owner && slot in u1.owner && t1.owner[slot] == u1.owner[slot]
  {
    assert forall id :: id in y ==> id in Heard(x);
    TablesConverge(t, claims, x);
    TablesConverge(u, claims, y);
    var t1, u1 := ReceiveAll(t, claims, x), ReceiveAll(u, claims, y);
    assert Best(claims, Heard(x), slot, t1.owner[slot]) && Best(claims, Heard(x), slot, u1.owner[slot]);
  }

  lemma OwnerStays(t: Table, owner: Id, from: Id, c: Claim, slot: nat)
    requires slot in t.owner && t.owner[slot] == Node(owner) && owner in t.record
    requires slot in c.slots ==> c.epoch <= t.record[owner]
    ensures slot in Receive(t, from, c).owner && Receive(t, from, c).owner[slot] == Node(owner)
  {
  }

  /** The first one heard keeps the slot unless a greater epoch claims it: ties go to the first. */
  lemma {:induction false} FirstKeepsSlot(t: Table, claims: map<Id, Claim>, first: Id, order: seq<Id>, slot: nat)
    requires Blank(t, claims) && first in claims && forall id :: id in order ==> id in claims
    requires slot in t.owner && slot !in t.importing && slot in claims[first].slots
    requires forall id :: id in order && slot in claims[id].slots ==> claims[id].epoch <= claims[first].epoch
    ensures slot in ReceiveAll(t, claims, [first] + order).owner
    ensures ReceiveAll(t, claims, [first] + order).owner[slot] == Node(first)
  {
    var all := [first] + order;
    if order == [] {
      assert all[..0] == [];
      assert slot !in SlotsOf(Record(t, first, claims[first]), first);
    } else {
      var front, last := order[..|order| - 1], order[|order| - 1];
      FirstKeepsSlot(t, claims, first, front, slot);
      assert all[..|all| - 1] == [first] + front;
      TablesConverge(t, claims, [first] + front);
      assert ([first] + front)[0] in Heard([first] + front);
      OwnerStays(ReceiveAll(t, claims, [first] + front), first, last, claims[last], slot);
    }
  }

  /** Exactly when: agreement between all receivers of the same packets, on a slot nobody is
      importing, is the same as having no tie at the top. */
  lemma AgreementIffNoTie(t: Table, claims: map<Id, Claim>, order: seq<Id>, slot: nat)
    requires Blank(t, claims) && slot in t.owner && slot !in t.importing && forall id :: id in order ==> id in claims
    ensures !Tied(claims, Heard(order), slot) <==>
            forall x, y | Heard(x) == Heard(order) && Heard(y) == Heard(order) :: SameOwner(t, claims, x, y, slot)
  {
    if Tied(claims, Heard(order), slot) {
      var a, b :| a != b && Best(claims, Heard(order), slot, Node(a)) && Best(claims, Heard(order), slot, Node(b));
      FirstKeepsSlot(t, claims, a, order, slot);
      FirstKeepsSlot(t, claims, b, order, slot);
      assert Heard([a] + order) == Heard(order) == Heard([b] + order);
      assert !SameOwner(t, claims, [a] + order, [b] + order, slot);
    } else {
      forall x, y | Heard(x) == Heard(order) && Heard(y) == Heard(order) ensures SameOwner(t, claims, x, y, slot) {
        assert forall id :: id in x ==> id in Heard(order);
        ReceiversAgree(t, t, claims, x, y, slot);
      }
    }
  }

  ghost predicate SameOwner(t: Table, claims: map<Id, Claim>, x: seq<Id>, y: seq<Id>, slot: nat) {
    && (forall id :: id in x ==> id in claims) && (forall id :: id in y ==> id in claims)
    && var t1, t2 := ReceiveAll(t, claims, x), ReceiveAll(t, claims, y);
       slot in t1.owner && slot in t2.owner && t1.owner[slot] == t2.owner[slot]
  }
}
