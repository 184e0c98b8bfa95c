/** Sorting and searching over an array, ordered by a caller-supplied comparison (sp_util.c). */
module SortSearch {
  import opened Options

  /** The comparison callback: negative, zero or positive. */
  datatype Comparator<!T> = Comparator(callback: (T, T) -> int) {
    function Of(x: T, y: T): int {
      callback(x, y)
    }
  }

  /** The sign of the comparison flips when its arguments are exchanged. */
  ghost predicate Flips<T>(cmp: Comparator<T>, x: T, y: T) {
    cmp.Of(x, y) < 0 <==> cmp.Of(y, x) > 0
  }

  ghost predicate Chains<T>(cmp: Comparator<T>, x: T, y: T, z: T) {
    cmp.Of(x, y) <= 0 && cmp.Of(y, z) <= 0 ==> cmp.Of(x, z) <= 0
  }

  /** What every routine asks of its callback: a total preorder, written with the
      sign convention of the C callback (negative, zero, positive). The laws are
      instantiated by hand, through `Flips` and `Chains`. */
  ghost predicate TotalPreorder<T(!new)>(cmp: Comparator<T>) {
    && (forall x, y :: Flips(cmp, x, y))
    && (forall x, y, z :: Chains(cmp, x, y, z))
  }

  ghost predicate Sorted<T>(s: seq<T>, cmp: Comparator<T>) {
    forall i, j :: 0 <= i < j < |s| ==> cmp.Of(s[i], s[j]) <= 0
  }

  ghost predicate StrictlySorted<T>(s: seq<T>, cmp: Comparator<T>) {
    forall i, j :: 0 <= i < j < |s| ==> cmp.Of(s[i], s[j]) < 0
  }

  /** Everything in `s` is on the low side of `pivot`. */
  ghost predicate AllAtMost<T>(s: seq<T>, pivot: T, cmp: Comparator<T>) {
    forall x :: x in s ==> cmp.Of(x, pivot) <= 0
  }

  /** Everything in `s` is on the high side of `pivot`. */
  ghost predicate AllAtLeast<T>(s: seq<T>, pivot: T, cmp: Comparator<T>) {
    forall x :: x in s ==> cmp.Of(pivot, x) <= 0
  }

  lemma Reflexive<T(!new)>(cmp: Comparator<T>, x: T)
    requires TotalPreorder(cmp)
    ensures cmp.Of(x, x) == 0
  {
    assert Flips(cmp, x, x);
  }

  lemma Flip<T(!new)>(cmp: Comparator<T>, x: T, y: T)
    requires TotalPreorder(cmp)
    ensures cmp.Of(x, y) < 0 <==> cmp.Of(y, x) > 0
    ensures cmp.Of(x, y) == 0 <==> cmp.Of(y, x) == 0
  {
    assert Flips(cmp, x, y) && Flips(cmp, y, x);
  }

  /** Two steps up are a step up, and a strict one if either was strict. */
  lemma Chain<T(!new)>(cmp: Comparator<T>, x: T, y: T, z: T)
    requires TotalPreorder(cmp) && cmp.Of(x, y) <= 0 && cmp.Of(y, z) <= 0
    ensures cmp.Of(x, z) <= 0
    ensures cmp.Of(x, y) < 0 || cmp.Of(y, z) < 0 ==> cmp.Of(x, z) < 0
  {
    assert Chains(cmp, x, y, z) && Chains(cmp, z, x, y) && Chains(cmp, y, z, x);
    Flip(cmp, x, y);
    Flip(cmp, y, z);
    Flip(cmp, x, z);
  }

  /** Adjacent pairs in order are enough for every pair to be in order. */
  lemma {:induction false} AdjacentSorted<T(!new)>(s: seq<T>, cmp: Comparator<T>)
    requires TotalPreorder(cmp)
    requires forall i :: 0 <= i < |s| - 1 ==> cmp.Of(s[i], s[i + 1]) <= 0
    ensures Sorted(s, cmp)
  {
    if |s| > 1 {
      var front := s[..|s| - 1];
      AdjacentSorted(front, cmp);
      var last := |s| - 1;
      forall i, j | 0 <= i < j < |s| ensures cmp.Of(s[i], s[j]) <= 0 {
        if j < last {
          assert front[i] == s[i] && front[j] == s[j];
        } else {
          assert cmp.Of(s[last - 1], s[last - 1 + 1]) <= 0;
          if i < last - 1 {
            assert cmp.Of(front[i], front[last - 1]) <= 0;
            Chain(cmp, s[i], s[last - 1], s[last]);
          }
        }
      }
    }
  }

  method IsSorted<T(!new)>(a: array<T>, cmp: Comparator<T>) returns (r: bool)
    requires TotalPreorder(cmp)
    ensures r <==> Sorted(a[..], cmp)
  {
    var i := 0;
    while i + 1 < a.Length
      invariant 0 <= i <= a.Length && (a.Length > 0 ==> i < a.Length)
      invariant forall k :: 0 <= k < i ==> cmp.Of(a[k], a[k + 1]) <= 0
    {
      if cmp.Of(a[i], a[i + 1]) > 0 {
        assert a[..][i] == a[i] && a[..][i + 1] == a[i + 1];
        return false;
      }
      i := i + 1;
    }
    AdjacentSorted(a[..], cmp);
    return true;
  }

  // ---------------------------------------------------------------- quicksort

  lemma SwapPermutes<T>(s: seq<T>, t: seq<T>, i: nat, j: nat)
    requires i < j < |s| == |t|
    requires t == s[i := s[j]][j := s[i]]
    ensures multiset(t) == multiset(s)
  {
    assert s == s[..i] + [s[i]] + s[i + 1..j] + [s[j]] + s[j + 1..];
    assert t == s[..i] + [s[j]] + s[i + 1..j] + [s[i]] + s[j + 1..];
  }

  /** The part of `s` between the bounds of a slice may be rearranged, nothing else. */
  ghost predicate Rearranged<T>(s: seq<T>, t: seq<T>, lo: nat, hi: nat)
    requires lo <= hi <= |s|
  {
    && |t| == |s| && s[..lo] == t[..lo] && s[hi..] == t[hi..]
    && multiset(s[lo..hi]) == multiset(t[lo..hi])
  }

  lemma SwapRearranges<T>(s0: seq<T>, s: seq<T>, lo: nat, hi: nat, i: nat, j: nat)
    requires lo <= i < j < hi <= |s0| && Rearranged(s0, s, lo, hi)
    ensures Rearranged(s0, s[i := s[j]][j := s[i]], lo, hi)
  {
    var t := s[i := s[j]][j := s[i]];
    var b, c := s[lo..hi], t[lo..hi];
    assert c == b[i - lo := b[j - lo]][j - lo := b[i - lo]];
    SwapPermutes(b, c, i - lo, j - lo);
    assert s[..lo] == t[..lo] && s[hi..] == t[hi..];
  }

  ghost predicate LowUpTo<T>(s: seq<T>, lo: nat, head: nat, pivot: T, cmp: Comparator<T>) {
    head <= |s| && forall i :: lo <= i < head ==> cmp.Of(s[i], pivot) <= 0
  }

  ghost predicate HighAfter<T>(s: seq<T>, tail: int, hi: nat, pivot: T, cmp: Comparator<T>) {
    -1 <= tail && hi <= |s| && forall i :: tail < i < hi ==> cmp.Of(pivot, s[i]) <= 0
  }

  /** The head's scan: up to the first entry that is not below the pivot. The pivot itself,
      or an entry already placed on the high side, stops it inside the slice. */
  method ScanUp<T(!new)>(a: array<T>, head0: nat, p: nat, ghost stop: nat, end: nat, cmp: Comparator<T>) returns (head: nat)
    requires TotalPreorder(cmp) && head0 <= stop < end <= a.Length && p < a.Length
    requires cmp.Of(a[p], a[stop]) <= 0
    ensures head0 <= head <= stop && cmp.Of(a[head], a[p]) >= 0
    ensures forall i :: head0 <= i < head ==> cmp.Of(a[i], a[p]) < 0
  {
    head := head0;
    Flip(cmp, a[p], a[stop]);
    while head != end && cmp.Of(a[head], a[p]) < 0
      invariant head0 <= head <= stop
      invariant forall i :: head0 <= i < head ==> cmp.Of(a[i], a[p]) < 0
      decreases end - head
    {
      head := head + 1;
    }
  }

  /** The tail's scan, down to the last entry that is not above the pivot, or the slice's start. */
  method ScanDown<T(!new)>(a: array<T>, tail0: nat, p: nat, start: nat, cmp: Comparator<T>) returns (tail: nat)
    requires start <= tail0 < a.Length && p < a.Length
    ensures start <= tail <= tail0 && (tail == start || cmp.Of(a[p], a[tail]) >= 0)
    ensures forall i :: tail < i <= tail0 ==> cmp.Of(a[p], a[i]) < 0
  {
    tail := tail0;
    while tail != start && cmp.Of(a[p], a[tail]) < 0
      invariant start <= tail <= tail0
      invariant forall i :: tail < i <= tail0 ==> cmp.Of(a[p], a[i]) < 0
    {
      tail := tail - 1;
    }
  }

  /** The two sides after a swap of a misplaced pair. */
  lemma SwapExtendsSides<T(!new)>(s: seq<T>, lo: nat, head: nat, tail: nat, hi: nat, pivot: T, cmp: Comparator<T>)
    requires TotalPreorder(cmp) && lo <= head < tail < hi <= |s|
    requires LowUpTo(s, lo, head, pivot, cmp) && HighAfter(s, tail, hi, pivot, cmp)
    requires cmp.Of(s[head], pivot) >= 0
    requires tail == lo || cmp.Of(pivot, s[tail]) >= 0
    ensures var t := s[head := s[tail]][tail := s[head]];
            LowUpTo(t, lo, head + 1, pivot, cmp) && HighAfter(t, tail - 1, hi, pivot, cmp)
  {
    Flip(cmp, s[head], pivot);
    Flip(cmp, s[tail], pivot);
  }

  /** What the loop knows between two swaps: both sides so far, and where the pivot has got to. In the
      first turn nothing has been swapped; afterwards both ends have left their starting points. */
  ghost predicate Partitioning<T(!new)>(s0: seq<T>, s: seq<T>, pivot: T, lo: nat, hi: nat, head: nat, tail: nat, p: nat,
                                        first: bool, cmp: Comparator<T>) {
    && lo <= head <= tail + 1 && lo <= tail < hi && lo <= p < hi <= |s| == |s0| && s[p] == pivot
    && (first ==> head == lo && tail == p == hi - 1) && (!first ==> lo < head && tail < hi - 1)
    && LowUpTo(s, lo, head, pivot, cmp) && HighAfter(s, tail, hi, pivot, cmp) && Rearranged(s0, s, lo, hi)
  }

  /** The two scans of a turn. They stop inside the slice, at a pair to swap or past each other. */
  method Scans<T(!new)>(a: array<T>, lo: nat, hi: nat, head0: nat, tail0: nat, p: nat, ghost first: bool, cmp: Comparator<T>,
                        ghost s0: seq<T>, ghost pivot: T) returns (head: nat, tail: nat)
    requires TotalPreorder(cmp) && hi <= a.Length && Partitioning(s0, a[..], pivot, lo, hi, head0, tail0, p, first, cmp)
    ensures head0 <= head < hi && lo <= tail <= tail0 && (first ==> head <= p) && (!first ==> head <= tail0 + 1)
    ensures cmp.Of(a[head], pivot) >= 0 && (tail == lo || cmp.Of(pivot, a[tail]) >= 0)
    ensures LowUpTo(a[..], lo, head, pivot, cmp) && HighAfter(a[..], tail, hi, pivot, cmp)
    ensures first ==> tail == p
  {
    ghost var s := a[..];
    Reflexive(cmp, pivot);
    assert tail0 + 1 < hi ==> cmp.Of(pivot, s[tail0 + 1]) <= 0;
    head := ScanUp(a, head0, p, if first then p else tail0 + 1, hi, cmp);
    tail := ScanDown(a, tail0, p, lo, cmp);
  }

  /** The swap of a turn; the pivot is followed if it is one of the two. */
  method SwapPair<T(!new)>(a: array<T>, lo: nat, hi: nat, head: nat, tail: nat, p0: nat, cmp: Comparator<T>,
                           ghost s0: seq<T>, ghost pivot: T) returns (p: nat)
    requires TotalPreorder(cmp) && lo <= head < tail < hi <= a.Length && lo <= p0 < hi && a[p0] == pivot && |s0| == a.Length
    requires cmp.Of(a[head], pivot) >= 0 && (tail == lo || cmp.Of(pivot, a[tail]) >= 0)
    requires LowUpTo(a[..], lo, head, pivot, cmp) && HighAfter(a[..], tail, hi, pivot, cmp) && Rearranged(s0, a[..], lo, hi)
    modifies a
    ensures Partitioning(s0, a[..], pivot, lo, hi, head + 1, tail - 1, p, false, cmp)
  {
    ghost var s := a[..];
    p := p0;
    if head == p {
      p := tail;
    } else if tail == p {
      p := head;
    }
    SwapExtendsSides(s, lo, head, tail, hi, pivot, cmp);
    SwapRearranges(s0, s, lo, hi, head, tail);
    a[head], a[tail] := a[tail], a[head];
    assert a[..] == s[head := s[tail]][tail := s[head]];
  }

  /** Where the scans have passed each other the slice can be split. */
  lemma ScansMeet<T(!new)>(s: seq<T>, pivot: T, lo: nat, hi: nat, head: nat, tail: nat, cmp: Comparator<T>)
    requires TotalPreorder(cmp) && lo <= tail <= head < hi <= |s| && cmp.Of(s[head], pivot) >= 0
    requires LowUpTo(s, lo, head, pivot, cmp) && HighAfter(s, tail, hi, pivot, cmp)
    ensures HighAfter(s, head - 1, hi, pivot, cmp)
  {
    Flip(cmp, s[head], pivot);
  }

  /** The slice is split at `head`, strictly inside if it can be. */
  ghost predicate SplitAt<T(!new)>(s0: seq<T>, s: seq<T>, pivot: T, lo: nat, hi: nat, head: nat, cmp: Comparator<T>) {
    && lo <= head < hi <= |s| == |s0| && (hi - lo > 1 ==> lo < head)
    && LowUpTo(s, lo, head, pivot, cmp) && HighAfter(s, head - 1, hi, pivot, cmp) && Rearranged(s0, s, lo, hi)
  }

  /** One turn of the loop: two scans, and a swap unless they have met. */
  method Turn<T(!new)>(a: array<T>, lo: nat, hi: nat, head0: nat, tail0: nat, p0: nat, ghost first: bool, cmp: Comparator<T>,
                       ghost s0: seq<T>, ghost pivot: T) returns (done: bool, head: nat, tail: nat, p: nat)
    requires TotalPreorder(cmp) && hi <= a.Length && Partitioning(s0, a[..], pivot, lo, hi, head0, tail0, p0, first, cmp)
    modifies a
    ensures done ==> SplitAt(s0, a[..], pivot, lo, hi, head, cmp)
    ensures !done ==> Partitioning(s0, a[..], pivot, lo, hi, head, tail, p, false, cmp) && head0 < head && tail < tail0 && head0 < tail0
  {
    head, tail := Scans(a, lo, hi, head0, tail0, p0, first, cmp, s0, pivot);
    p, done := p0, head >= tail;
    if done {
      ScansMeet(a[..], pivot, lo, hi, head, tail, cmp);
    } else {
      p := SwapPair(a, lo, hi, head, tail, p, cmp, s0, pivot);
      head, tail := head + 1, tail - 1;
    }
  }

  /** Hoare-style partition of a[lo..lo+len]. The pivot is the last element's value;
      `p` follows that element when a swap moves it. The split is strictly inside
      the slice as soon as there are two elements, which is why quicksort terminates. */
  method Partition<T(!new)>(a: array<T>, lo: nat, len: nat, cmp: Comparator<T>) returns (split: nat)
    requires TotalPreorder(cmp) && 0 < len && lo + len <= a.Length
    modifies a
    ensures split < len && (len > 1 ==> 0 < split)
    ensures LowUpTo(a[..], lo, lo + split, old(a[lo + len - 1]), cmp)
    ensures HighAfter(a[..], lo + split - 1, lo + len, old(a[lo + len - 1]), cmp)
    ensures Rearranged(old(a[..]), a[..], lo, lo + len)
  {
    var hi := lo + len;
    var head: nat, tail: nat, p: nat, done := lo, hi - 1, hi - 1, false;
    ghost var s0, pivot, first := a[..], a[p], true;
    while !done
      invariant if done then SplitAt(s0, a[..], pivot, lo, hi, head, cmp)
                else Partitioning(s0, a[..], pivot, lo, hi, head, tail, p, first, cmp)
      decreases !done, tail - head
    {
      done, head, tail, p := Turn(a, lo, hi, head, tail, p, first, cmp, s0, pivot);
      first := false;
    }
    split := head - lo;
  }

  lemma SidesSurvivePermutation<T>(before: seq<T>, after: seq<T>, pivot: T, cmp: Comparator<T>)
    requires multiset(before) == multiset(after)
    ensures AllAtMost(before, pivot, cmp) ==> AllAtMost(after, pivot, cmp)
    ensures AllAtLeast(before, pivot, cmp) ==> AllAtLeast(after, pivot, cmp)
  {
    forall x | x in after ensures x in before {
      assert x in multiset(after);
    }
  }

  lemma JoinSorted<T(!new)>(left: seq<T>, right: seq<T>, pivot: T, cmp: Comparator<T>)
    requires TotalPreorder(cmp) && Sorted(left, cmp) && Sorted(right, cmp)
    requires AllAtMost(left, pivot, cmp) && AllAtLeast(right, pivot, cmp)
    ensures Sorted(left + right, cmp)
  {
    var s := left + right;
    forall i, j | 0 <= i < j < |s| ensures cmp.Of(s[i], s[j]) <= 0 {
      if i < |left| <= j {
        assert s[i] in left && s[j] in right;
        Chain(cmp, s[i], pivot, s[j]);
      }
    }
  }

  /** What one partition and two recursive sorts do to the whole array. */
  lemma PartsMakeSorted<T(!new)>(s0: seq<T>, s1: seq<T>, s2: seq<T>, s3: seq<T>,
                                 lo: nat, mid: nat, hi: nat, pivot: T, cmp: Comparator<T>)
    requires TotalPreorder(cmp) && lo <= mid <= hi <= |s0|
    requires Rearranged(s0, s1, lo, hi) && LowUpTo(s1, lo, mid, pivot, cmp) && HighAfter(s1, mid - 1, hi, pivot, cmp)
    requires Rearranged(s1, s2, lo, mid) && Sorted(s2[lo..mid], cmp)
    requires Rearranged(s2, s3, mid, hi) && Sorted(s3[mid..hi], cmp)
    ensures Rearranged(s0, s3, lo, hi) && Sorted(s3[lo..hi], cmp)
  {
    SlicesOfNested(s1, s2, s3, lo, mid, hi);
    assert AllAtMost(s1[lo..mid], pivot, cmp) && AllAtLeast(s1[mid..hi], pivot, cmp);
    SidesSurvivePermutation(s1[lo..mid], s3[lo..mid], pivot, cmp);
    SidesSurvivePermutation(s1[mid..hi], s3[mid..hi], pivot, cmp);
    JoinSorted(s3[lo..mid], s3[mid..hi], pivot, cmp);
    assert s3[lo..hi] == s3[lo..mid] + s3[mid..hi] && s1[lo..hi] == s1[lo..mid] + s1[mid..hi];
  }

  /** Rearranging the left part and then the right part leaves each part's contents where they were. */
  lemma SlicesOfNested<T>(s1: seq<T>, s2: seq<T>, s3: seq<T>, lo: nat, mid: nat, hi: nat)
    requires lo <= mid <= hi <= |s1|
    requires Rearranged(s1, s2, lo, mid) && Rearranged(s2, s3, mid, hi)
    ensures |s3| == |s1| && s3[..lo] == s1[..lo] && s3[hi..] == s1[hi..]
    ensures s3[lo..mid] == s2[lo..mid]
    ensures multiset(s3[lo..mid]) == multiset(s1[lo..mid]) && multiset(s3[mid..hi]) == multiset(s1[mid..hi])
  {
    assert s2[mid..hi] == s1[mid..hi] by {
      assert s2[mid..hi] == s2[mid..][..hi - mid] && s1[mid..hi] == s1[mid..][..hi - mid];
    }
    assert s2[hi..] == s1[hi..] by {
      assert s2[hi..] == s2[mid..][hi - mid..] && s1[hi..] == s1[mid..][hi - mid..];
    }
    assert s3[lo..mid] == s2[lo..mid] by {
      assert s3[lo..mid] == s3[..mid][lo..] && s2[lo..mid] == s2[..mid][lo..];
    }
    assert s3[..lo] == s2[..lo] by {
      assert s3[..lo] == s3[..mid][..lo] && s2[..lo] == s2[..mid][..lo];
    }
  }

  method Quicksort<T(!new)>(a: array<T>, lo: nat, len: nat, cmp: Comparator<T>)
    requires TotalPreorder(cmp) && lo + len <= a.Length
    modifies a
    ensures Sorted(a[..][lo..lo + len], cmp)
    ensures Rearranged(old(a[..]), a[..], lo, lo + len)
    decreases len
  {
    if len > 1 {
      ghost var s0, pivot := a[..], a[lo + len - 1];
      var split := Partition(a, lo, len, cmp);
      ghost var s1 := a[..];
      Quicksort(a, lo, split, cmp);
      ghost var s2 := a[..];
      Quicksort(a, lo + split, len - split, cmp);
      ghost var s3 := a[..];
      PartsMakeSorted(s0, s1, s2, s3, lo, lo + split, lo + len, pivot, cmp);
    }
  }

  /** The public entry point: a sorted permutation of what was there. */
  method Sort<T(!new)>(a: array<T>, cmp: Comparator<T>)
    requires TotalPreorder(cmp)
    modifies a
    ensures Sorted(a[..], cmp)
    ensures multiset(a[..]) == multiset(old(a[..]))
  {
    ghost var before := a[..];
    Quicksort(a, 0, a.Length, cmp);
    assert before[0..a.Length] == before && a[..][0..a.Length] == a[..];
  }

  // ------------------------------------------------------------------- search

  /** Binary search over the first `len` entries. The window keeps the probed midpoint
      in range on both sides, so it halves (rounding up) until one element is left. */
  method BinSearch<T(!new)>(a: array<T>, len: nat, needle: T, cmp: Comparator<T>) returns (r: Option<nat>)
    requires TotalPreorder(cmp) && len <= a.Length && Sorted(a[..len], cmp)
    ensures r.Some? ==> r.value < len && cmp.Of(needle, a[r.value]) == 0
    ensures r.None? <==> forall i :: 0 <= i < len ==> cmp.Of(needle, a[i]) != 0
  {
    var base, n := 0, len;
    ghost var s := a[..len];
    while n > 0
      invariant 0 <= base && base + n <= len && s == a[..len]
      invariant forall i :: 0 <= i < len && cmp.Of(needle, s[i]) == 0 ==> base <= i < base + n
      decreases n
    {
      var half := n / 2;
      var mid := base + half;
      var res := cmp.Of(needle, a[mid]);
      assert a[mid] == s[mid];
      if res == 0 {
        return Some(mid);
      }
      if half == 0 {
        break;
      }
      OneSideOfProbe(s, needle, mid, cmp);
      if res > 0 {
        base := mid;
      }
      n := n - half;
    }
    assert forall i :: 0 <= i < len ==> a[i] == s[i];
    return None;
  }

  /** Elements equal to the needle can only be on the side of the probe it points to. */
  lemma OneSideOfProbe<T(!new)>(s: seq<T>, needle: T, mid: nat, cmp: Comparator<T>)
    requires TotalPreorder(cmp) && Sorted(s, cmp) && mid < |s|
    ensures cmp.Of(needle, s[mid]) > 0 ==> forall i :: 0 <= i <= mid ==> cmp.Of(needle, s[i]) > 0
    ensures cmp.Of(needle, s[mid]) < 0 ==> forall i :: mid <= i < |s| ==> cmp.Of(needle, s[i]) < 0
  {
    Flip(cmp, s[mid], needle);
    forall i | 0 <= i < mid && cmp.Of(needle, s[mid]) > 0 ensures cmp.Of(needle, s[i]) > 0 {
      Chain(cmp, s[i], s[mid], needle);
      Flip(cmp, s[i], needle);
    }
    forall i | mid < i < |s| && cmp.Of(needle, s[mid]) < 0 ensures cmp.Of(needle, s[i]) < 0 {
      Chain(cmp, needle, s[mid], s[i]);
    }
  }

  // ------------------------------------------------------------ sorted insert

  /** Where `x` belongs in a strictly sorted sequence: everything before `pos` is below
      it, everything from `pos` on is above it. */
  ghost predicate InsertionPoint<T>(s: seq<T>, x: T, pos: int, cmp: Comparator<T>) {
    && 0 <= pos <= |s|
    && (forall i :: 0 <= i < pos ==> cmp.Of(x, s[i]) > 0)
    && (forall i :: pos <= i < |s| ==> cmp.Of(x, s[i]) < 0)
  }

  lemma InsertKeepsStrict<T(!new)>(s: seq<T>, x: T, pos: nat, cmp: Comparator<T>)
    requires TotalPreorder(cmp) && StrictlySorted(s, cmp) && InsertionPoint(s, x, pos, cmp)
    ensures StrictlySorted(s[..pos] + [x] + s[pos..], cmp)
  {
    var t := s[..pos] + [x] + s[pos..];
    forall i, j | 0 <= i < j < |t| ensures cmp.Of(t[i], t[j]) < 0 {
      var i' := if i < pos then i else i - 1;
      var j' := if j < pos then j else j - 1;
      if i == pos {
        assert t[j] == s[j'];
      } else if j == pos {
        assert t[i] == s[i'];
        Flip(cmp, t[i], x);
      } else {
        assert t[i] == s[i'] && t[j] == s[j'];
      }
    }
  }

  /** The halving loop of the insert: an equal element, or else the place for a new one. */
  method FindPlace<T(!new)>(a: array<T>, len: nat, x: T, cmp: Comparator<T>) returns (found: bool, at: nat)
    requires TotalPreorder(cmp) && len <= a.Length && StrictlySorted(a[..len], cmp)
    ensures found ==> at < len && cmp.Of(x, a[at]) == 0
    ensures !found ==> InsertionPoint(a[..len], x, at, cmp)
  {
    var left, right, mid, eq := 0, len, 0, 0;
    ghost var s := a[..len];
    assert Sorted(s, cmp);
    while left < right
      invariant 0 <= left <= right <= len && s == a[..len]
      invariant forall i :: 0 <= i < left ==> cmp.Of(x, s[i]) > 0
      invariant forall i :: right <= i < len ==> cmp.Of(x, s[i]) < 0
      invariant eq > 0 ==> left == mid + 1
      invariant eq < 0 ==> mid == right
      invariant eq == 0 ==> mid == left == 0 && right == len
    {
      mid := (left + right) / 2;
      eq := cmp.Of(x, a[mid]);
      assert a[mid] == s[mid];
      OneSideOfProbe(s, x, mid, cmp);
      if eq < 0 {
        right := mid;
      } else if eq > 0 {
        left := mid + 1;
      } else {
        return true, mid;
      }
    }
    if eq > 0 {
      mid := mid + 1;
    }
    return false, mid;
  }

  /** The rotation: the entry just past the end moves to `at`, one swap at a time, and
      everything from `at` on moves one place right. */
  method RotateIn<T>(a: array<T>, len: nat, at: nat)
    requires at <= len < a.Length
    modifies a
    ensures a[..len + 1] == old(a[..len])[..at] + [old(a[len])] + old(a[..len])[at..]
    ensures a[len + 1..] == old(a[..])[len + 1..]
  {
    var mid := at;
    ghost var s, x := a[..], a[len];
    while mid < len
      invariant at <= mid <= len
      invariant forall i :: 0 <= i < at || mid <= i < len || len < i < a.Length ==> a[i] == s[i]
      invariant forall i :: at < i < mid ==> a[i] == s[i - 1]
      invariant mid > at ==> a[at] == x
      invariant a[len] == if mid == at then x else s[mid - 1]
    {
      a[mid], a[len] := a[len], a[mid];
      mid := mid + 1;
    }
    assert a[len + 1..] == a[..][len + 1..] == s[len + 1..];
  }

  /** Insert into a sorted set kept in the first `len` entries. An equal element already
      there leaves everything alone and its index is returned; otherwise the element goes
      in at its place. */
  method BinInsertUniq<T(!new)>(a: array<T>, len: nat, x: T, cmp: Comparator<T>) returns (len': nat, at: nat)
    requires TotalPreorder(cmp) && len <= a.Length && StrictlySorted(a[..len], cmp)
    requires len == a.Length ==> exists i :: 0 <= i < len && cmp.Of(x, a[i]) == 0
    modifies a
    ensures at < len' <= a.Length && cmp.Of(x, a[at]) == 0 && StrictlySorted(a[..len'], cmp)
    ensures (exists i :: 0 <= i < len && cmp.Of(x, old(a[i])) == 0) ==> len' == len && a[..] == old(a[..])
    ensures (forall i :: 0 <= i < len ==> cmp.Of(x, old(a[i])) != 0) ==>
              && len' == len + 1 && a[at] == x && at <= len
              && a[..len'] == old(a[..len])[..at] + [x] + old(a[..len])[at..]
              && a[len'..] == old(a[..])[len'..]
  {
    var found, mid := FindPlace(a, len, x, cmp);
    if found {
      return len, mid;
    }
    ghost var s := a[..len];
    assert forall i :: 0 <= i < len ==> a[i] == s[i] && cmp.Of(x, s[i]) != 0;
    InsertKeepsStrict(s, x, mid, cmp);
    Reflexive(cmp, x);
    a[len] := x;
    assert a[..len] == s;
    RotateIn(a, len, mid);
    assert a[mid] == a[..len + 1][mid];
    return len + 1, mid;
  }
}
