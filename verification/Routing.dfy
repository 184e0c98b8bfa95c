/** Where a query goes (getNodeByQuery). */
module Routing {
  import opened ClusterNodes
  import opened Clusters

  type Key = string

  /** The hash that maps keys to slots (CRC16 in the server). */
  datatype Hash = Hash(of: Key -> nat) {
    function Slot(k: Key): nat {
      of(k)
    }
  }

  /** What is asked: the keys of each queued command (or of the one command there is), and flags. */
  datatype Query = Query(commands: seq<seq<Key>>, isExec: bool, inMulti: bool, isMigrate: bool, readOnly: bool, asking: bool,
                         readOnlyClient: bool, askingClient: bool)

  datatype Route = Local | Moved(to: ClusterNode) | Ask(to: ClusterNode) | CrossSlot | Unstable | DownUnbound | DownState

  function Keys(commands: seq<seq<Key>>): seq<Key> {
    if commands == [] then [] else Keys(commands[..|commands| - 1]) + commands[|commands| - 1]
  }

  predicate OneSlot(hash: Hash, keys: seq<Key>) {
    forall i, j :: 0 <= i < |keys| && 0 <= j < |keys| ==> hash.Slot(keys[i]) == hash.Slot(keys[j])
  }

  predicate SeveralKeys(keys: seq<Key>) {
    exists i, j :: 0 <= i < |keys| && 0 <= j < |keys| && keys[i] != keys[j]
  }

  predicate AllPresent(keys: seq<Key>, present: set<Key>) {
    forall k :: k in keys ==> k in present
  }

  ghost predicate HashFits(hash: Hash, c: Cluster) {
    c.slots.Length == c.importing.Length == c.migrating.Length && forall k: Key :: hash.Slot(k) < c.slots.Length
  }

  /** We own the slot and are giving it away. */
  predicate Leaving(c: Cluster, slot: nat)
    reads c, c.slots, c.migrating
    requires slot < c.slots.Length == c.migrating.Length
  {
    c.slots[slot] == c.myself && c.migrating[slot] != null
  }

  /** We are taking the slot over. */
  predicate Arriving(c: Cluster, slot: nat)
    reads c, c.slots, c.migrating, c.importing
    requires slot < c.slots.Length == c.migrating.Length == c.importing.Length
  {
    !Leaving(c, slot) && c.importing[slot] != null
  }

  /** The rules, for the keys of the whole query in order. */
  ghost function Destination(c: Cluster, hash: Hash, q: Query, keys: seq<Key>, present: set<Key>, up: bool): Route
    reads c, c.slots, c.migrating, c.importing, c.myself
    requires HashFits(hash, c)
  {
    if (q.isExec && !q.inMulti) || keys == [] then Local
    else
      var slot := hash.Slot(keys[0]);
      var n := c.slots[slot];
      if n == null then DownUnbound
      else if !OneSlot(hash, keys) then CrossSlot
      else if !up then DownState
      else if (Leaving(c, slot) || Arriving(c, slot)) && q.isMigrate then Local
      else if Leaving(c, slot) && !AllPresent(keys, present) then Ask(c.migrating[slot])
      else if Arriving(c, slot) && (q.askingClient || q.asking) then
        if SeveralKeys(keys) && !AllPresent(keys, present) then Unstable else Local
      else if q.readOnlyClient && q.readOnly && c.myself.slave && c.myself.slaveof == n then Local
      else if n == c.myself then Local
      else Moved(n)
  }

  lemma KeysOneMore(commands: seq<seq<Key>>, i: nat)
    requires i < |commands|
    ensures Keys(commands[..i + 1]) == Keys(commands[..i]) + commands[i]
  {
    assert commands[..i + 1][..i] == commands[..i];
  }

  /** A query that goes wrong at some key goes wrong the same way as a whole. */
  lemma {:induction false} KeysArePrefix(commands: seq<seq<Key>>, i: nat)
    requires i <= |commands|
    ensures Keys(commands[..i]) <= Keys(commands)
    decreases |commands| - i
  {
    if i < |commands| {
      KeysArePrefix(commands, i + 1);
      KeysOneMore(commands, i);
    } else {
      assert commands[..i] == commands;
    }
  }

  lemma KeyIsReached(commands: seq<seq<Key>>, i: nat, at: nat)
    requires i < |commands| && at < |commands[i]|
    ensures Keys(commands[..i]) + commands[i][..at] + [commands[i][at]] <= Keys(commands)
  {
    var seen, mine := Keys(commands[..i]), commands[i];
    KeysOneMore(commands, i);
    KeysArePrefix(commands, i + 1);
    assert seen + mine == (seen + mine[..at] + [mine[at]]) + mine[at + 1..];
  }

  /** The local variables of the scan. */
  datatype Scan = Scan(first: Key, n: ClusterNode?, slot: nat, leaving: bool, arriving: bool, several: bool, missing: nat)

  /** What they say once some keys have been looked at; `n` is null as long as none was. */
  ghost predicate Seen(c: Cluster, hash: Hash, keys: seq<Key>, present: set<Key>, s: Scan)
    reads c, c.slots, c.migrating, c.importing
    requires HashFits(hash, c)
  {
    if keys == [] then s.n == null && !s.leaving && !s.arriving && !s.several && s.missing == 0
    else
      && s.first == keys[0] && s.slot == hash.Slot(keys[0]) && s.n == c.slots[s.slot] && s.n != null && OneSlot(hash, keys)
      && s.leaving == Leaving(c, s.slot) && s.arriving == Arriving(c, s.slot)
      && (s.several <==> SeveralKeys(keys))
      && (s.leaving || s.arriving ==> (s.missing > 0 <==> !AllPresent(keys, present)))
  }

  lemma OneMoreKey(hash: Hash, keys: seq<Key>, k: Key)
    requires keys != [] && OneSlot(hash, keys)
    ensures OneSlot(hash, keys + [k]) <==> hash.Slot(k) == hash.Slot(keys[0])
    ensures SeveralKeys(keys + [k]) <==> SeveralKeys(keys) || k != keys[0]
  {
    var more := keys + [k];
    if SeveralKeys(keys) {
      var i, j :| 0 <= i < |keys| && 0 <= j < |keys| && keys[i] != keys[j];
      assert more[i] != more[j];
    }
    if !SeveralKeys(keys) {
      assert forall i :: 0 <= i < |keys| ==> keys[i] == keys[0];
    }
    assert more[|keys|] == k && more[0] == keys[0];
    if hash.Slot(k) != hash.Slot(keys[0]) {
      assert hash.Slot(more[|keys|]) != hash.Slot(more[0]);
    }
  }

  /** One key of the query. */
  method SeeKey(c: Cluster, hash: Hash, ghost keys: seq<Key>, key: Key, present: set<Key>, s: Scan)
      returns (t: Scan, error: Route)
    requires HashFits(hash, c) && Seen(c, hash, keys, present, s)
    ensures match error
            case Local => Seen(c, hash, keys + [key], present, t)
            case DownUnbound => keys == [] && c.slots[hash.Slot(key)] == null
            case CrossSlot => keys != [] && c.slots[hash.Slot(keys[0])] != null && !OneSlot(hash, keys + [key])
            case _ => false
  {
    t, error := s, Local;
    var thisSlot := hash.Slot(key);
    if s.n == null {
      t := t.(first := key, slot := thisSlot, n := c.slots[thisSlot]);
      if t.n == null {
        return t, DownUnbound;
      }
      if t.n == c.myself && c.migrating[thisSlot] != null {
        t := t.(leaving := true);
      } else if c.importing[thisSlot] != null {
        t := t.(arriving := true);
      }
    } else {
      OneMoreKey(hash, keys, key);
      if s.first != key {
        if s.slot != thisSlot {
          return t, CrossSlot;
        }
        t := t.(several := true);
      }
    }
    if (t.leaving || t.arriving) && key !in present {
      t := t.(missing := t.missing + 1);
    }
  }

  /** An error at one key is the destination of the whole query. */
  lemma ErrorStands(c: Cluster, hash: Hash, q: Query, seen: seq<Key>, key: Key, keys: seq<Key>, present: set<Key>, up: bool)
    requires HashFits(hash, c) && seen + [key] <= keys && !(q.isExec && !q.inMulti)
    ensures seen == [] && c.slots[hash.Slot(key)] == null ==> Destination(c, hash, q, keys, present, up) == DownUnbound
    ensures seen != [] && c.slots[hash.Slot(seen[0])] != null && !OneSlot(hash, seen + [key]) ==>
              Destination(c, hash, q, keys, present, up) == CrossSlot
  {
    var more := seen + [key];
    assert keys[..|more|] == more && keys[0] == more[0];
    if !OneSlot(hash, more) {
      var i, j :| 0 <= i < |more| && 0 <= j < |more| && hash.Slot(more[i]) != hash.Slot(more[j]);
      assert keys[i] == more[i] && keys[j] == more[j];
    }
  }

  /** The keys of one command. */
  method SeeCommand(c: Cluster, hash: Hash, ghost seen: seq<Key>, keys: seq<Key>, present: set<Key>, s: Scan)
    returns (t: Scan, error: Route, ghost at: nat)
    requires HashFits(hash, c) && Seen(c, hash, seen, present, s)
    ensures match error
            case Local => Seen(c, hash, seen + keys, present, t)
            case DownUnbound => at < |keys| && seen + keys[..at] == [] && c.slots[hash.Slot(keys[at])] == null
            case CrossSlot => at < |keys| && seen + keys[..at] != [] && c.slots[hash.Slot((seen + keys[..at])[0])] != null
                              && !OneSlot(hash, seen + keys[..at] + [keys[at]])
            case _ => false
  {
    t, error, at := s, Local, 0;
    assert seen + keys[..0] == seen;
    var j := 0;
    while j < |keys|
      invariant 0 <= j <= |keys| && Seen(c, hash, seen + keys[..j], present, t) && error == Local
    {
      at := j;
      assert seen + keys[..j + 1] == seen + keys[..j] + [keys[j]];
      t, error := SeeKey(c, hash, seen + keys[..j], keys[j], present, t);
      if error != Local {
        return;
      }
      j := j + 1;
    }
    assert keys[..j] == keys;
  }

  /** What to do once all the keys are known to be in one slot. */
  method Decide(c: Cluster, hash: Hash, q: Query, ghost keys: seq<Key>, present: set<Key>, up: bool, s: Scan)
      returns (r: Route)
    requires HashFits(hash, c) && Seen(c, hash, keys, present, s) && !(q.isExec && !q.inMulti)
    ensures r == Destination(c, hash, q, keys, present, up)
  {
    if s.n == null {
      return Local;
    }
    if !up {
      return DownState;
    }
    if (s.leaving || s.arriving) && q.isMigrate {
      return Local;
    }
    if s.leaving && s.missing > 0 {
      return Ask(c.migrating[s.slot]);
    }
    if s.arriving && (q.askingClient || q.asking) {
      if s.several && s.missing > 0 {
        return Unstable;
      } else {
        return Local;
      }
    }
    if q.readOnlyClient && q.readOnly && c.myself.slave && c.myself.slaveof == s.n {
      return Local;
    }
    if s.n != c.myself {
      return Moved(s.n);
    }
    return Local;
  }

  /** The scan and the decision follow the rules. */
  method FindNode(c: Cluster, hash: Hash, q: Query, present: set<Key>, up: bool) returns (r: Route)
    requires HashFits(hash, c)
    ensures r == Destination(c, hash, q, Keys(q.commands), present, up)
  {
    if q.isExec && !q.inMulti {
      return Local;
    }
    var s := Scan("", null, 0, false, false, false, 0);
    var i := 0;
    while i < |q.commands|
      invariant 0 <= i <= |q.commands| && Seen(c, hash, Keys(q.commands[..i]), present, s)
    {
      var error, mine := Local, q.commands[i];
      ghost var at, seen := 0, Keys(q.commands[..i]);
      KeysOneMore(q.commands, i);
      s, error, at := SeeCommand(c, hash, seen, mine, present, s);
      if error != Local {
        KeyIsReached(q.commands, i, at);
        ErrorStands(c, hash, q, seen + mine[..at], mine[at], Keys(q.commands), present, up);
        return error;
      }
      i := i + 1;
    }
    assert q.commands[..i] == q.commands;
    r := Decide(c, hash, q, Keys(q.commands), present, up, s);
  }

  lemma SlotsInPlainTerms(hash: Hash, keys: seq<Key>)
    requires keys != []
    ensures OneSlot(hash, keys) <==> forall k :: k in keys ==> hash.Slot(k) == hash.Slot(keys[0])
    ensures SeveralKeys(keys) <==> exists k :: k in keys && k != keys[0]
  {
    if OneSlot(hash, keys) {
      forall k | k in keys ensures hash.Slot(k) == hash.Slot(keys[0]) {
        var i :| 0 <= i < |keys| && keys[i] == k;
      }
    }
    if SeveralKeys(keys) {
      var i, j :| 0 <= i < |keys| && 0 <= j < |keys| && keys[i] != keys[j];
      assert keys[i] in keys && keys[j] in keys;
    }
    if k :| k in keys && k != keys[0] {
      var i :| 0 <= i < |keys| && keys[i] == k;
      assert keys[i] != keys[0];
    }
  }

  /** Every answer but serving the query here, with exactly when it is given, for the keys of all the
      commands together. The slot is that of the first key. */
  lemma EveryAnswer(c: Cluster, hash: Hash, q: Query, keys: seq<Key>, present: set<Key>, up: bool)
    requires HashFits(hash, c) && keys != [] && !(q.isExec && !q.inMulti)
    ensures var r := Destination(c, hash, q, keys, present, up);
            var slot := hash.Slot(keys[0]);
            var owner := c.slots[slot];
            var single := forall k :: k in keys ==> hash.Slot(k) == slot;
            var complete := forall k :: k in keys ==> k in present;
            var several := exists k :: k in keys && k != keys[0];
            var leaving := owner == c.myself && c.migrating[slot] != null;
            var arriving := !leaving && c.importing[slot] != null;
            var invited := arriving && (q.askingClient || q.asking);
            var mayRead := q.readOnlyClient && q.readOnly && c.myself.slave && c.myself.slaveof == owner;
            var served := owner != null && single && up;
            && (r == DownUnbound <==> owner == null)
            && (r == CrossSlot <==> owner != null && !single)
            && (r == DownState <==> owner != null && single && !up)
            && (r.Ask? <==> served && leaving && !q.isMigrate && !complete)
            && (r.Ask? ==> r.to == c.migrating[slot])
            && (r == Unstable <==> served && invited && !q.isMigrate && several && !complete)
            && (r.Moved? <==> served && owner != c.myself && !(arriving && q.isMigrate) && !invited && !mayRead)
            && (r.Moved? ==> r.to == owner)
  {
    SlotsInPlainTerms(hash, keys);
  }

  /** getNodeByQuery: the answer is determined by the keys of all the commands together, and this is
      when each of them is given. A query that is not redirected and not refused is served here. */
  method GetNodeByQuery(c: Cluster, hash: Hash, q: Query, present: set<Key>, up: bool) returns (r: Route)
    requires HashFits(hash, c)
    ensures r == Destination(c, hash, q, Keys(q.commands), present, up)
    ensures (q.isExec && !q.inMulti) || Keys(q.commands) == [] ==> r == Local
    ensures Keys(q.commands) != [] && !(q.isExec && !q.inMulti) ==>
            var keys := Keys(q.commands);
            var slot := hash.Slot(keys[0]);
            var owner := c.slots[slot];
            var single := forall k :: k in keys ==> hash.Slot(k) == slot;
            var complete := forall k :: k in keys ==> k in present;
            var several := exists k :: k in keys && k != keys[0];
            var leaving := owner == c.myself && c.migrating[slot] != null;
            var arriving := !leaving && c.importing[slot] != null;
            var invited := arriving && (q.askingClient || q.asking);
            var mayRead := q.readOnlyClient && q.readOnly && c.myself.slave && c.myself.slaveof == owner;
            var served := owner != null && single && up;
            && (r == DownUnbound <==> owner == null)
            && (r == CrossSlot <==> owner != null && !single)
            && (r == DownState <==> owner != null && single && !up)
            && (r.Ask? <==> served && leaving && !q.isMigrate && !complete)
            && (r.Ask? ==> r.to == c.migrating[slot])
            && (r == Unstable <==> served && invited && !q.isMigrate && several && !complete)
            && (r.Moved? <==> served && owner != c.myself && !(arriving && q.isMigrate) && !invited && !mayRead)
            && (r.Moved? ==> r.to == owner)
  {
    if Keys(q.commands) != [] && !(q.isExec && !q.inMulti) {
      EveryAnswer(c, hash, q, Keys(q.commands), present, up);
    }
    r := FindNode(c, hash, q, present, up);
  }

  // ---------------------------------------------------------- what the rules amount to

  /** A query with keys is served here exactly when its slot is bound, the only one, and the cluster
      up, and: the slot is open and this is MIGRATE; or we are giving it away and hold every key; or
      we are receiving it, were ASKed, and hold every key or need but one; or it is ours, or our
      master's and this is a permitted read. */
  lemma ServedHere(c: Cluster, hash: Hash, q: Query, keys: seq<Key>, present: set<Key>, up: bool)
    requires HashFits(hash, c) && keys != [] && !(q.isExec && !q.inMulti)
    ensures var slot := hash.Slot(keys[0]);
            var leaving, invited := Leaving(c, slot), Arriving(c, slot) && (q.askingClient || q.asking);
            Destination(c, hash, q, keys, present, up) == Local <==>
              && c.slots[slot] != null && OneSlot(hash, keys) && up
              && (|| (q.isMigrate && (leaving || Arriving(c, slot)))
                  || (leaving && AllPresent(keys, present))
                  || (invited && (AllPresent(keys, present) || !SeveralKeys(keys)))
                  || (!leaving && !invited &&
                      (c.slots[slot] == c.myself
                       || (q.readOnlyClient && q.readOnly && c.myself.slave && c.myself.slaveof == c.slots[slot]))))
  {
  }

  ghost predicate SameKeys(a: seq<Key>, b: seq<Key>) {
    forall k :: k in a <==> k in b
  }

  /** Neither order nor repetition of keys matters, nor how they are spread over commands, except
      to which of two errors a query over several slots gets. */
  lemma OnlyTheKeysMatter(c: Cluster, hash: Hash, q: Query, a: seq<Key>, b: seq<Key>, present: set<Key>, up: bool)
    requires HashFits(hash, c) && SameKeys(a, b)
    ensures var x, y := Destination(c, hash, q, a, present, up), Destination(c, hash, q, b, present, up);
            x == y || (!OneSlot(hash, a) && !OneSlot(hash, b) && x in {CrossSlot, DownUnbound} && y in {CrossSlot, DownUnbound})
  {
    SlotsFollowKeys(hash, a, b);
    SlotsFollowKeys(hash, b, a);
    EmptyTogether(a, b);
    if a != [] && b != [] {
      assert a[0] in b;
      var i :| 0 <= i < |b| && b[i] == a[0];
      assert OneSlot(hash, b) ==> hash.Slot(b[i]) == hash.Slot(b[0]);
      SeveralFollows(a, b);
      SeveralFollows(b, a);
    }
  }

  lemma EmptyTogether(a: seq<Key>, b: seq<Key>)
    requires SameKeys(a, b)
    ensures a == [] <==> b == []
  {
    if a != [] {
      assert a[0] in a;
    }
    if b != [] {
      assert b[0] in b;
    }
  }

  lemma SlotsFollowKeys(hash: Hash, a: seq<Key>, b: seq<Key>)
    requires SameKeys(a, b)
    ensures OneSlot(hash, a) ==> OneSlot(hash, b)
  {
    if OneSlot(hash, a) {
      forall i, j | 0 <= i < |b| && 0 <= j < |b| ensures hash.Slot(b[i]) == hash.Slot(b[j]) {
        assert b[i] in a && b[j] in a;
      }
    }
  }

  lemma SeveralFollows(a: seq<Key>, b: seq<Key>)
    requires SameKeys(a, b)
    ensures SeveralKeys(a) ==> SeveralKeys(b)
  {
    if SeveralKeys(a) {
      var i, j :| 0 <= i < |a| && 0 <= j < |a| && a[i] != a[j];
      assert a[i] in b && a[j] in b;
    }
  }

  /** A slot on its way from one server to another, as each of them sees it. */
  ghost predicate InTransit(source: Cluster, target: Cluster, slot: nat)
    reads source, source.slots, source.migrating, target, target.slots, target.importing, target.migrating
  {
    && slot < source.slots.Length == source.importing.Length == source.migrating.Length
    && slot < target.slots.Length == target.importing.Length == target.migrating.Length
    && source.slots[slot] == source.myself && source.migrating[slot] != null && source.migrating[slot].name == target.myself.name
    && target.slots[slot] != null && target.slots[slot] != target.myself && target.importing[slot] != null
  }

  /** While a slot moves, no query is lost between the two servers, whatever its flags. The source, if it
      is up, serves those it has all the keys of, and MIGRATE, and sends the others to the target. The
      target, if it is up and asked, serves every single-key query, every query it has all the keys of,
      and MIGRATE; only a query whose keys are spread over both is told to try again. Not asked, it
      serves MIGRATE and the reads it may serve as a slave of the owner, and sends all else there. */
  lemma NobodyIsLost(source: Cluster, target: Cluster, hash: Hash, q: Query, keys: seq<Key>, here: set<Key>, there: set<Key>,
                     sourceUp: bool, targetUp: bool)
    requires HashFits(hash, source) && HashFits(hash, target)
    requires keys != [] && OneSlot(hash, keys) && InTransit(source, target, hash.Slot(keys[0]))
    requires !(q.isExec && !q.inMulti)
    ensures var first := Destination(source, hash, q, keys, here, sourceUp);
            if !sourceUp then first == DownState
            else if q.isMigrate || AllPresent(keys, here) then first == Local
            else first.Ask? && first.to.name == target.myself.name
    ensures Destination(target, hash, q.(askingClient := true), keys, there, targetUp) ==
            if !targetUp then DownState
            else if !q.isMigrate && SeveralKeys(keys) && !AllPresent(keys, there) then Unstable
            else Local
    ensures var owner := target.slots[hash.Slot(keys[0])];
            !q.asking && !q.askingClient ==>
              Destination(target, hash, q, keys, there, targetUp) ==
              if !targetUp then DownState
              else if q.isMigrate || (q.readOnlyClient && q.readOnly && target.myself.slave && target.myself.slaveof == owner) then Local
              else Moved(owner)
  {
  }
}
