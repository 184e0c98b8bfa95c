/** The small-buffer string (sp_str.c): short contents live inside the record, longer ones
    in a heap buffer, and the capacity alone says which. */
module SmallString {

  const SBUF_MAX: nat := 15
  const SBUF_CAP: nat := SBUF_MAX + 1

  function Max(a: nat, b: nat): nat {
    if a < b then b else a
  }

  predicate IsStaticAlloc(cap: nat) {
    cap < SBUF_CAP
  }

  function Zeros(n: nat): (r: seq<char>)
    ensures |r| == n && forall k :: 0 <= k < n ==> r[k] == '\0'
  {
    if n == 0 then [] else Zeros(n - 1) + ['\0']
  }

  /** The buffer holds the text, and zeros from there on. */
  ghost predicate Holds(bytes: seq<char>, text: string) {
    && |text| < |bytes| && bytes[..|text|] == text
    && forall k :: |text| <= k < |bytes| ==> bytes[k] == '\0'
  }

  /** The union of the record: sixteen bytes in place, or a pointer to a buffer. */
  datatype Store = Inline(sbuf: seq<char>) | Heap(buf: array<char>)

  /** The capacity after making room for `len` more bytes. */
  function Grown(cap: nat, length: nat, len: nat): nat {
    if length + len > cap then Max(length + len, Max(16, cap * 2)) else cap
  }

  /** Bytes moved by regrowth alone while appending pieces of the given sizes in turn. */
  function RegrowthCopies(cap: nat, length: nat, sizes: seq<nat>): nat
    decreases |sizes|
  {
    if sizes == [] then 0
    else (if length + sizes[0] > cap then length else 0)
         + RegrowthCopies(Grown(cap, length, sizes[0]), length + sizes[0], sizes[1..])
  }

  function Sum(sizes: seq<nat>): nat {
    if sizes == [] then 0 else sizes[0] + Sum(sizes[1..])
  }

  function Sizes(parts: seq<string>): seq<nat> {
    if parts == [] then [] else [|parts[0]|] + Sizes(parts[1..])
  }

  function Concat(parts: seq<string>): string {
    if parts == [] then "" else parts[0] + Concat(parts[1..])
  }

  /** The growth policy pays for itself: whatever was copied before, an append-only run
      never copies more than the capacity it leaves, nor more than twice the final length. */
  lemma {:induction false} RegrowthIsLinear(cap: nat, length: nat, sizes: seq<nat>, before: nat)
    requires length <= cap && before <= cap && before <= 2 * length
    ensures before + RegrowthCopies(cap, length, sizes) <= 2 * (length + Sum(sizes))
    decreases |sizes|
  {
    if sizes != [] {
      var copied := if length + sizes[0] > cap then length else 0;
      RegrowthIsLinear(Grown(cap, length, sizes[0]), length + sizes[0], sizes[1..], before + copied);
    }
  }

  method CopyInto(buf: array<char>, at: nat, o: string)
    requires at + |o| <= buf.Length
    modifies buf
    ensures buf[..] == old(buf[..])[..at] + o + old(buf[..])[at + |o|..]
  {
    var i := 0;
    while i < |o|
      invariant 0 <= i <= |o|
      invariant forall k :: 0 <= k < buf.Length ==> buf[k] == if at <= k < at + i then o[k - at] else old(buf[k])
    {
      buf[at + i] := o[i];
      i := i + 1;
    }
  }

  /** Writing at the length keeps the text in front and the zeros behind. */
  lemma WrittenTail(text: string, bytes: seq<char>, o: string)
    requires Holds(bytes, text) && |text| + |o| < |bytes|
    ensures Holds(bytes[..|text|] + o + bytes[|text| + |o|..], text + o)
  {
  }

  /** Taking the first of the parts still to append. */
  lemma NextPart(text: string, parts: seq<string>, i: nat, cap: nat, length: nat)
    requires i < |parts|
    ensures text + Concat(parts[i..]) == (text + parts[i]) + Concat(parts[i + 1..])
    ensures RegrowthCopies(cap, length, Sizes(parts[i..])) ==
            (if length + |parts[i]| > cap then length else 0)
            + RegrowthCopies(Grown(cap, length, |parts[i]|), length + |parts[i]|, Sizes(parts[i + 1..]))
  {
    assert parts[i..][1..] == parts[i + 1..];
    assert Sizes(parts[i..])[1..] == Sizes(parts[i + 1..]);
    assert text + (parts[i] + Concat(parts[i + 1..])) == (text + parts[i]) + Concat(parts[i + 1..]);
  }

  class SpStr {
    var store: Store
    var length: nat
    var capacity: nat

    ghost var copied: nat  // bytes moved by regrowth since the string was set up
    ghost var peak: nat    // the greatest length it has had since then

    ghost var text: string       // what a caller sees
    ghost var Repr: set<object>  // the record, and its heap buffer if it has one

    /** The raw bytes the active arm of the union gives access to. */
    ghost function Bytes(): seq<char>
      reads this, if store.Heap? then {store.buf} else {}
    {
      match store
      case Inline(sbuf) => sbuf
      case Heap(buf) => buf[..]
    }

    ghost predicate Valid()
      reads this, Repr
    {
      && Repr == {this} + (if store.Heap? then {store.buf} else {})
      && SBUF_MAX <= capacity && length <= capacity
      && (store.Inline? <==> IsStaticAlloc(capacity))
      && |Bytes()| == capacity + 1 && |text| == length && Holds(Bytes(), text)
      && length <= peak && copied <= capacity && copied <= 2 * peak
    }

    constructor (cap: nat)
      ensures Valid() && fresh(Repr) && text == ""
      ensures if cap < 16 then store.Inline? && capacity == 15 else store.Heap? && capacity == cap
      ensures copied == 0 && peak == 0
    {
      if IsStaticAlloc(cap) {
        store := Inline(Zeros(SBUF_CAP));
        capacity := SBUF_MAX;
        Repr := {this};
      } else {
        var buf := new char[cap + 1](_ => '\0');
        store := Heap(buf);
        capacity := cap;
        Repr := {this, buf};
      }
      text, length, copied, peak := "", 0, 0, 0;
      new;
    }

    /** memcpy of `o` to `raw + at`, in whichever arm is active. */
    method Write(at: nat, o: string)
      requires Valid() && at + |o| <= capacity
      modifies this`store, if store.Heap? then {store.buf} else {}
      ensures store.Heap? ==> store == old(store)
      ensures store.Inline? <==> old(store).Inline?
      ensures Bytes() == old(Bytes())[..at] + o + old(Bytes())[at + |o|..]
    {
      match store {
        case Inline(sbuf) =>
          store := Inline(sbuf[..at] + o + sbuf[at + |o|..]);
        case Heap(buf) =>
          CopyInto(buf, at, o);
      }
    }

    /** A string with more room and the same text. */
    method Roomier(cap: nat) returns (tmp: SpStr)
      requires Valid() && cap > capacity
      ensures tmp.Valid() && fresh(tmp.Repr) && tmp.text == text
      ensures tmp.capacity == if IsStaticAlloc(cap) then SBUF_MAX else cap
      decreases 1, 0
    {
      tmp := new SpStr(cap);
      tmp.AppendStr(this);
    }

    /** Trade places with a string that is not needed any more, and free that. */
    method Become(tmp: SpStr)
      requires Valid() && tmp.Valid() && tmp.Repr !! Repr
      modifies this, tmp
      ensures Valid() && Repr == old(tmp.Repr) - {tmp} + {this}
      ensures text == old(tmp.text) && capacity == old(tmp.capacity)
    {
      Swap(tmp);
      tmp.Free();
    }

    /** The regrowth: a roomier temporary takes a copy, the two records trade places and
        the old one is freed. */
    method Regrow(required: nat)
      requires Valid() && required > capacity
      modifies Repr
      ensures Valid() && fresh(Repr - old(Repr))
      ensures text == old(text) && peak == Max(old(peak), required)
      ensures capacity == Max(required, Max(16, old(capacity) * 2))
      ensures copied == old(copied) + old(length)
      decreases 1, 1
    {
      ghost var copied0, peak0 := copied + length, Max(peak, required);
      var tmp := Roomier(Max(required, Max(16, capacity * 2)));
      Become(tmp);
      copied, peak := copied0, peak0;
    }

    /** Write at the end, where there is room. */
    method Put(o: string)
      requires Valid() && length + |o| <= capacity
      modifies Repr
      ensures Valid() && Repr == old(Repr) && text == old(text) + o && capacity == old(capacity)
      ensures copied == old(copied) && peak == Max(old(peak), length)
    {
      WrittenTail(text, Bytes(), o);
      Write(length, o);
      text := text + o;
      length := length + |o|;
      peak := Max(peak, length);
    }

    /** Append, making room first if there is none. */
    method AppendLen(o: string)
      requires Valid()
      modifies Repr
      ensures Valid() && fresh(Repr - old(Repr))
      ensures text == old(text) + o
      ensures capacity == Grown(old(capacity), old(length), |o|)
      ensures if length <= old(capacity) then capacity == old(capacity)
              else capacity >= length && capacity >= 16 && capacity >= 2 * old(capacity) && capacity in {length, 16, 2 * old(capacity)}
      ensures store.Inline? <==> capacity < 16
      ensures copied == old(copied) + if length > old(capacity) then old(length) else 0
      ensures peak == Max(old(peak), length)
      decreases if length + |o| > capacity then 1 else 0, 2
    {
      var required := length + |o|;
      if required > capacity {
        Regrow(required);
      }
      Put(o);
    }

    method AppendStr(o: SpStr)
      requires Valid() && o.Valid() && o.Repr !! Repr
      modifies Repr
      ensures Valid() && fresh(Repr - old(Repr))
      ensures text == old(text) + o.text
      ensures capacity == Grown(old(capacity), old(length), o.length)
      decreases if length + o.length > capacity then 1 else 0, 3
    {
      var visible := o.CStr();
      AppendLen(visible);
    }

    /** What it takes to get from here to the text wanted: the parts from the i-th on. */
    ghost predicate Pending(parts: seq<string>, i: nat, whole: string, cost: nat)
      requires i <= |parts|
      reads `text, `copied, `capacity, `length
    {
      && text + Concat(parts[i..]) == whole
      && copied + RegrowthCopies(capacity, length, Sizes(parts[i..])) == cost
    }

    method AppendNext(parts: seq<string>, i: nat, ghost whole: string, ghost cost: nat)
      requires Valid() && i < |parts| && Pending(parts, i, whole, cost)
      modifies Repr
      ensures Valid() && fresh(Repr - old(Repr)) && Pending(parts, i + 1, whole, cost)
    {
      NextPart(text, parts, i, capacity, length);
      AppendLen(parts[i]);
    }

    /** sp_str_appends: append each of a list of C strings in turn. */
    method Appends(parts: seq<string>)
      requires Valid()
      modifies Repr
      ensures Valid() && fresh(Repr - old(Repr))
      ensures text == old(text) + Concat(parts)
      ensures copied == old(copied) + RegrowthCopies(old(capacity), old(length), Sizes(parts))
    {
      var i := 0;
      ghost var whole, cost := text + Concat(parts), copied + RegrowthCopies(capacity, length, Sizes(parts));
      assert parts[0..] == parts;
      while i < |parts|
        invariant 0 <= i <= |parts| && Valid() && fresh(Repr - old(Repr)) && Pending(parts, i, whole, cost)
      {
        AppendNext(parts, i, whole, cost);
        i := i + 1;
      }
    }

    method CStr() returns (visible: string)
      requires Valid()
      ensures visible == text
    {
      match store
      case Inline(sbuf) => visible := sbuf[..length];
      case Heap(buf) => visible := buf[..length];
    }

    method Clear()
      requires Valid()
      modifies Repr
      ensures Valid() && Repr == old(Repr) && text == "" && capacity == old(capacity)
      ensures copied == old(copied) && peak == old(peak)
    {
      Write(0, Zeros(capacity));
      text, length := "", 0;
    }

    method Swap(s: SpStr)
      requires Valid() && s.Valid() && s.Repr !! Repr
      modifies this, s
      ensures Valid() && s.Valid()
      ensures text == old(s.text) && s.text == old(text)
      ensures capacity == old(s.capacity) && s.capacity == old(capacity)
      ensures Repr == old(s.Repr) - {s} + {this} && s.Repr == old(Repr) - {this} + {s}
      ensures copied == old(s.copied) && s.copied == old(copied) && peak == old(s.peak) && s.peak == old(peak)
    {
      store, s.store := s.store, store;
      length, s.length := s.length, length;
      capacity, s.capacity := s.capacity, capacity;
      text, s.text, copied, s.copied, peak, s.peak := s.text, text, s.copied, copied, s.peak, peak;
      Repr, s.Repr := s.Repr - {s} + {this}, Repr - {this} + {s};
    }

    method Free()
      requires Valid()
      modifies this
      ensures Valid() && Repr == {this} && text == "" && store.Inline? && capacity == 15 && copied == 0 && peak == 0
    {
      store, capacity, length := Inline(Zeros(SBUF_CAP)), SBUF_MAX, 0;
      text, copied, peak, Repr := "", 0, 0, {this};
    }
  }
}
