/** Slot bitmaps: one bit per hash slot, eight to a byte (cluster.c, "Slots management"). */
module Bitmap {

  function Mask(bit: nat): bv8
    requires bit < 8
  {
    1 << bit
  }

  function BitAt(bytes: seq<bv8>, pos: nat): bool
    requires pos < 8 * |bytes|
  {
    bytes[pos / 8] & Mask(pos % 8) != 0
  }

  /** The slots a bitmap stands for. */
  ghost function Members(bytes: seq<bv8>): (r: set<nat>)
    ensures forall j :: j in r <==> 0 <= j < 8 * |bytes| && BitAt(bytes, j)
  {
    set j | 0 <= j < 8 * |bytes| && BitAt(bytes, j)
  }

  // ------------------------------------------------------------- bits and binary digits

  lemma MaskFindsBit(b: bv8, i: nat)
    requires i < 8
    ensures b & Mask(i) != 0 <==> (b >> i) & 1 == 1
  {
  }

  /** The i-th binary digit of a number, the lowest being digit 0. */
  function Digit(v: nat, i: nat): nat {
    if i == 0 then v % 2 else Digit(v / 2, i - 1)
  }

  function TwoTo(n: nat): nat {
    if n == 0 then 1 else 2 * TwoTo(n - 1)
  }

  lemma Weights()
    ensures TwoTo(0) == 1 && TwoTo(1) == 2 && TwoTo(2) == 4 && TwoTo(3) == 8
    ensures TwoTo(4) == 16 && TwoTo(5) == 32 && TwoTo(6) == 64 && TwoTo(7) == 128
  {
    assert TwoTo(3) == 8 && TwoTo(5) == 32;
  }

  ghost predicate MovesValue(b: bv8, i: nat)
    requires i < 8
  {
    && (b | (1 << i)) as nat == b as nat + (if (b >> i) & 1 == 1 then 0 else TwoTo(i))
    && b as nat == (b & !(1 << i)) as nat + if (b >> i) & 1 == 1 then TwoTo(i) else 0
  }

  lemma Bit0(b: bv8)
    ensures b & 1 != 0 <==> b as nat % 2 == 1
  {
  }

  lemma Bit1(b: bv8)
    ensures b & 2 != 0 <==> b as nat / 2 % 2 == 1
  {
  }

  lemma Bit2(b: bv8)
    ensures b & 4 != 0 <==> b as nat / 4 % 2 == 1
  {
  }

  lemma Bit3(b: bv8)
    ensures b & 8 != 0 <==> b as nat / 8 % 2 == 1
  {
  }

  lemma Bit4(b: bv8)
    ensures b & 16 != 0 <==> b as nat / 16 % 2 == 1
  {
  }

  lemma Bit5(b: bv8)
    ensures b & 32 != 0 <==> b as nat / 32 % 2 == 1
  {
  }

  lemma Bit6(b: bv8)
    ensures b & 64 != 0 <==> b as nat / 64 % 2 == 1
  {
  }

  lemma Bit7(b: bv8)
    ensures b & 128 != 0 <==> b as nat / 128 % 2 == 1
  {
  }

  lemma EachMovesValue(b: bv8, i: nat)
    requires i < 8
    ensures MovesValue(b, i)
  {
    Weights();
    match i
    case 0 => assert MovesValue(b, 0);
    case 1 => assert MovesValue(b, 1);
    case 2 => assert MovesValue(b, 2);
    case 3 => assert MovesValue(b, 3);
    case 4 => assert MovesValue(b, 4);
    case 5 => assert MovesValue(b, 5);
    case 6 => assert MovesValue(b, 6);
    case 7 => assert MovesValue(b, 7);
  }

  /** Setting a bit adds the weight of its place to the value of the byte, clearing it takes it away. */
  lemma BitsMoveValue(b: bv8, i: nat)
    requires i < 8
    ensures (b | (1 << i)) as nat == b as nat + (if (b >> i) & 1 == 1 then 0 else TwoTo(i))
    ensures b as nat == (b & !(1 << i)) as nat + if (b >> i) & 1 == 1 then TwoTo(i) else 0
  {
    EachMovesValue(b, i);
  }

  lemma DigitsOfByte(v: nat)
    requires v < 256
    ensures Digit(v, 0) == v % 2 && Digit(v, 1) == v / 2 % 2 && Digit(v, 2) == v / 4 % 2 && Digit(v, 3) == v / 8 % 2
    ensures Digit(v, 4) == v / 16 % 2 && Digit(v, 5) == v / 32 % 2 && Digit(v, 6) == v / 64 % 2 && Digit(v, 7) == v / 128 % 2
  {
    assert v / 2 / 2 == v / 4 && v / 4 / 2 == v / 8 && v / 8 / 2 == v / 16;
    assert v / 16 / 2 == v / 32 && v / 32 / 2 == v / 64 && v / 64 / 2 == v / 128;
    assert Digit(v, 7) == Digit(v / 4, 5) == Digit(v / 16, 3) == Digit(v / 64, 1);
    assert Digit(v, 6) == Digit(v / 4, 4) == Digit(v / 16, 2) == Digit(v / 64, 0);
    assert Digit(v, 5) == Digit(v / 4, 3) == Digit(v / 16, 1);
    assert Digit(v, 4) == Digit(v / 4, 2) == Digit(v / 16, 0);
  }

  lemma MaskFindsDigit(b: bv8, i: nat)
    requires i < 8
    ensures b & Mask(i) != 0 <==> Digit(b as nat, i) == 1
  {
    DigitsOfByte(b as nat);
    match i
    case 0 => Bit0(b);
    case 1 => Bit1(b);
    case 2 => Bit2(b);
    case 3 => Bit3(b);
    case 4 => Bit4(b);
    case 5 => Bit5(b);
    case 6 => Bit6(b);
    case 7 => Bit7(b);
  }

  /** A bitmap stands for the slots whose binary digit is one: slot 8k + i is digit i of byte k. */
  lemma MemberIsDigit(bytes: seq<bv8>, pos: nat)
    requires pos < 8 * |bytes|
    ensures pos in Members(bytes) <==> Digit(bytes[pos / 8] as nat, pos % 8) == 1
  {
    MaskFindsDigit(bytes[pos / 8], pos % 8);
  }

  // ------------------------------------------------------------------------ the operations

  lemma MaskSets(b: bv8, i: nat, j: nat)
    requires i < 8 && j < 8
    ensures ((b | Mask(i)) & Mask(j) != 0) <==> (i == j || b & Mask(j) != 0)
  {
  }

  lemma MaskClears(b: bv8, i: nat, j: nat)
    requires i < 8 && j < 8
    ensures ((b & !Mask(i)) & Mask(j) != 0) <==> (i != j && b & Mask(j) != 0)
  {
  }

  /** A byte is determined by its eight bits. */
  lemma ByteFromBits(a: bv8, b: bv8)
    requires forall i :: 0 <= i < 8 ==> (a & Mask(i) != 0) == (b & Mask(i) != 0)
    ensures a == b
  {
    assert (a & Mask(0) != 0) == (b & Mask(0) != 0);
    assert (a & Mask(1) != 0) == (b & Mask(1) != 0);
    assert (a & Mask(2) != 0) == (b & Mask(2) != 0);
    assert (a & Mask(3) != 0) == (b & Mask(3) != 0);
    assert (a & Mask(4) != 0) == (b & Mask(4) != 0);
    assert (a & Mask(5) != 0) == (b & Mask(5) != 0);
    assert (a & Mask(6) != 0) == (b & Mask(6) != 0);
    assert (a & Mask(7) != 0) == (b & Mask(7) != 0);
  }

  /** memcmp on two bitmaps finds no difference exactly when they hold the same slots. */
  lemma EqualBytesIffEqualMembers(a: seq<bv8>, b: seq<bv8>)
    requires |a| == |b|
    ensures a == b <==> Members(a) == Members(b)
  {
    if Members(a) == Members(b) {
      forall k | 0 <= k < |a| ensures a[k] == b[k] {
        forall i | 0 <= i < 8 ensures (a[k] & Mask(i) != 0) == (b[k] & Mask(i) != 0) {
          var pos := 8 * k + i;
          assert pos / 8 == k && pos % 8 == i;
          assert pos in Members(a) <==> pos in Members(b);
          assert BitAt(a, pos) == (a[k] & Mask(i) != 0) && BitAt(b, pos) == (b[k] & Mask(i) != 0);
        }
        ByteFromBits(a[k], b[k]);
      }
    }
  }

  method TestBit(bitmap: array<bv8>, pos: nat) returns (bit: bool)
    requires pos < 8 * bitmap.Length
    ensures bit <==> pos in Members(bitmap[..])
    ensures bit <==> (bitmap[pos / 8] >> (pos % 8)) & 1 == 1
  {
    MaskFindsBit(bitmap[pos / 8], pos % 8);
    bit := bitmap[pos / 8] & Mask(pos % 8) != 0;
  }

  /** One more slot. */
  lemma SetMembers(before: seq<bv8>, after: seq<bv8>, pos: nat)
    requires pos < 8 * |before| && after == before[pos / 8 := before[pos / 8] | Mask(pos % 8)]
    ensures Members(after) == Members(before) + {pos}
  {
    forall j: nat | j < 8 * |before| ensures BitAt(after, j) <==> BitAt(before, j) || j == pos {
      if j / 8 == pos / 8 {
        MaskSets(before[j / 8], pos % 8, j % 8);
      }
    }
  }

  /** One slot less. */
  lemma ClearMembers(before: seq<bv8>, after: seq<bv8>, pos: nat)
    requires pos < 8 * |before| && after == before[pos / 8 := before[pos / 8] & !Mask(pos % 8)]
    ensures Members(after) == Members(before) - {pos}
  {
    forall j: nat | j < 8 * |before| ensures BitAt(after, j) <==> BitAt(before, j) && j != pos {
      if j / 8 == pos / 8 {
        MaskClears(before[j / 8], pos % 8, j % 8);
      }
    }
  }

  /** A byte once a bit has been set, and what that adds to its value. */
  function Raised(b: bv8, bit: nat): (r: bv8)
    requires bit < 8
    ensures r == b | (1 << bit)
    ensures r as nat == b as nat + if (b >> bit) & 1 == 1 then 0 else TwoTo(bit)
  {
    BitsMoveValue(b, bit);
    b | Mask(bit)
  }

  method StoreRaised(bitmap: array<bv8>, pos: nat)
    requires pos < 8 * bitmap.Length
    modifies bitmap
    ensures bitmap[..] == old(bitmap[..])[pos / 8 := Raised(old(bitmap[pos / 8]), pos % 8)]
    ensures Members(bitmap[..]) == Members(old(bitmap[..])) + {pos}
  {
    ghost var before := bitmap[..];
    bitmap[pos / 8] := Raised(bitmap[pos / 8], pos % 8);
    SetMembers(before, bitmap[..], pos);
  }

  method SetBit(bitmap: array<bv8>, pos: nat)
    requires pos < 8 * bitmap.Length
    modifies bitmap
    ensures Members(bitmap[..]) == Members(old(bitmap[..])) + {pos}
    ensures bitmap[..] == old(bitmap[..])[pos / 8 := old(bitmap[pos / 8]) | (1 << (pos % 8))]
    ensures bitmap[pos / 8] as nat ==
            old(bitmap[pos / 8]) as nat + if old(bitmap[pos / 8] >> (pos % 8)) & 1 == 1 then 0 else TwoTo(pos % 8)
  {
    ghost var was, bit := bitmap[pos / 8], pos % 8;
    StoreRaised(bitmap, pos);
    assert bitmap[pos / 8] == Raised(was, bit);
  }

  /** And once it has been cleared. */
  function Lowered(b: bv8, bit: nat): (r: bv8)
    requires bit < 8
    ensures r == b & !(1 << bit)
    ensures b as nat == r as nat + if (b >> bit) & 1 == 1 then TwoTo(bit) else 0
  {
    BitsMoveValue(b, bit);
    b & !Mask(bit)
  }

  method StoreLowered(bitmap: array<bv8>, pos: nat)
    requires pos < 8 * bitmap.Length
    modifies bitmap
    ensures bitmap[..] == old(bitmap[..])[pos / 8 := Lowered(old(bitmap[pos / 8]), pos % 8)]
    ensures Members(bitmap[..]) == Members(old(bitmap[..])) - {pos}
  {
    ghost var before := bitmap[..];
    bitmap[pos / 8] := Lowered(bitmap[pos / 8], pos % 8);
    ClearMembers(before, bitmap[..], pos);
  }

  method ClearBit(bitmap: array<bv8>, pos: nat)
    requires pos < 8 * bitmap.Length
    modifies bitmap
    ensures Members(bitmap[..]) == Members(old(bitmap[..])) - {pos}
    ensures bitmap[..] == old(bitmap[..])[pos / 8 := old(bitmap[pos / 8]) & !(1 << (pos % 8))]
    ensures old(bitmap[pos / 8]) as nat ==
            bitmap[pos / 8] as nat + if old(bitmap[pos / 8] >> (pos % 8)) & 1 == 1 then TwoTo(pos % 8) else 0
  {
    ghost var was, bit := bitmap[pos / 8], pos % 8;
    StoreLowered(bitmap, pos);
    assert bitmap[pos / 8] == Lowered(was, bit);
  }
}
