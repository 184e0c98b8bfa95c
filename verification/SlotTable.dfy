/** What one slot-configuration message does to an owner table, slot by slot. */
module SlotTable {

  /** A claimed slot changes hands iff it is not the claimant's already, is not being
      imported, and is either free or held under a smaller configEpoch. */
  predicate Rebinds<O(==)>(owner: O, none: O, sender: O, ownerEpoch: nat, claimEpoch: nat, importing: bool) {
    owner != sender && !importing && (owner == none || ownerEpoch < claimEpoch)
  }

  /** The slots a table gives to one owner. */
  ghost function Owned<O>(table: seq<O>, owner: O): (r: set<nat>)
    ensures forall j :: j in r <==> 0 <= j < |table| && table[j] == owner
  {
    set j | 0 <= j < |table| && table[j] == owner
  }

  lemma OwnedAfterAssign<O>(table: seq<O>, slot: nat, owner: O, who: O)
    requires slot < |table|
    ensures Owned(table[slot := owner], who) ==
            if who == owner then Owned(table, who) + {slot} else Owned(table, who) - {slot}
  {
  }
}
