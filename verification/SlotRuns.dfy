/** The slots of a node as the configuration file shows them: maximal runs (clusterGenNodeDescription). */
module SlotRuns {
  import opened Bitmap
  import opened Text

  datatype Run = Run(start: nat, stop: nat)

  /** One more slot, just above all the others: the last run grows or a new one starts. */
  function Extend(runs: seq<Run>, slot: nat): seq<Run> {
    var n := |runs|;
    if n > 0 && runs[n - 1].stop + 1 == slot then runs[..n - 1] + [Run(runs[n - 1].start, slot)]
    else runs + [Run(slot, slot)]
  }

  /** The runs of the slots below `n`. */
  function RunsBelow(slots: set<nat>, n: nat): seq<Run> {
    if n == 0 then []
    else if n - 1 in slots then Extend(RunsBelow(slots, n - 1), n - 1)
    else RunsBelow(slots, n - 1)
  }

  /** The slots that runs stand for. */
  ghost predicate InRuns(runs: seq<Run>, slot: nat) {
    exists i :: 0 <= i < |runs| && runs[i].start <= slot <= runs[i].stop
  }

  /** Ascending, disjoint and not even adjacent. */
  ghost predicate Apart(runs: seq<Run>, n: nat) {
    && (forall i :: 0 <= i < |runs| ==> runs[i].start <= runs[i].stop < n)
    && forall i, j :: 0 <= i < j < |runs| ==> runs[i].stop + 1 < runs[j].start
  }

  ghost predicate CoverExactly(runs: seq<Run>, slots: set<nat>, n: nat) {
    forall k: nat :: InRuns(runs, k) <==> k < n && k in slots
  }

  lemma InExtended(runs: seq<Run>, slot: nat, k: nat)
    requires Apart(runs, slot)
    ensures InRuns(Extend(runs, slot), k) <==> InRuns(runs, k) || k == slot
  {
    var t, n := Extend(runs, slot), |runs|;
    if i :| 0 <= i < n && runs[i].start <= k <= runs[i].stop {
      assert t[i].start <= k <= t[i].stop;
    }
    if k == slot {
      assert t[|t| - 1].start <= k <= t[|t| - 1].stop;
    }
    if i :| 0 <= i < |t| && t[i].start <= k <= t[i].stop && k != slot {
      assert runs[i].start <= k <= runs[i].stop;
    }
  }

  lemma ApartGrows(runs: seq<Run>, slot: nat)
    requires Apart(runs, slot)
    ensures Apart(Extend(runs, slot), slot + 1)
  {
    var n := |runs|;
    assert n > 0 ==> runs[n - 1].stop < slot;
  }

  ghost predicate AreRuns(slots: set<nat>, n: nat, runs: seq<Run>) {
    Apart(runs, n) && CoverExactly(runs, slots, n)
  }

  lemma AreRunsGrows(slots: set<nat>, n: nat, runs: seq<Run>, more: seq<Run>)
    requires AreRuns(slots, n, runs) && more == if n in slots then Extend(runs, n) else runs
    ensures AreRuns(slots, n + 1, more)
  {
    if n in slots {
      ApartGrows(runs, n);
      forall k: nat ensures InRuns(more, k) <==> InRuns(runs, k) || k == n {
        InExtended(runs, n, k);
      }
    }
  }

  /** The runs are apart and cover exactly the slots. */
  lemma {:induction false} RunsAreRuns(slots: set<nat>, n: nat, runs: seq<Run>)
    requires runs == RunsBelow(slots, n)
    ensures AreRuns(slots, n, runs)
  {
    if n > 0 {
      var r := RunsBelow(slots, n - 1);
      RunsAreRuns(slots, n - 1, r);
      AreRunsGrows(slots, n - 1, r, runs);
    }
  }

  /** No run could be longer. */
  lemma RunsAreMaximal(slots: set<nat>, n: nat, i: nat)
    requires i < |RunsBelow(slots, n)|
    ensures var r := RunsBelow(slots, n)[i];
            && (forall k :: r.start <= k <= r.stop ==> k in slots)
            && (r.start > 0 ==> r.start - 1 !in slots)
            && (r.stop + 1 < n ==> r.stop + 1 !in slots)
  {
    var runs := RunsBelow(slots, n);
    RunsAreRuns(slots, n, runs);
    forall k | runs[i].start <= k <= runs[i].stop ensures k in slots {
      assert InRuns(runs, k);
    }
    assert runs[i].start > 0 ==> (InRuns(runs, runs[i].start - 1) <==> runs[i].start - 1 in slots);
    assert InRuns(runs, runs[i].stop + 1) <==> runs[i].stop + 1 < n && runs[i].stop + 1 in slots;
  }

  /** Two nodes print alike exactly when they serve the same slots. */
  lemma {:induction false} SameRunsIffSameSlots(a: set<nat>, b: set<nat>, n: nat)
    ensures RunsBelow(a, n) == RunsBelow(b, n) <==> forall k :: 0 <= k < n ==> (k in a <==> k in b)
  {
    if RunsBelow(a, n) == RunsBelow(b, n) {
      RunsAreRuns(a, n, RunsBelow(a, n));
      RunsAreRuns(b, n, RunsBelow(b, n));
      forall k | 0 <= k < n ensures k in a <==> k in b {
        assert InRuns(RunsBelow(a, n), k) <==> k in a;
        assert InRuns(RunsBelow(b, n), k) <==> k in b;
      }
    } else if n > 0 {
      SameRunsIffSameSlots(a, b, n - 1);
    }
  }

  // ---------------------------------------------------------------------- printing

  function RunText(r: Run): string {
    if r.start == r.stop then Decimal(r.start) else Decimal(r.start) + "-" + Decimal(r.stop)
  }

  function RunsText(runs: seq<Run>): seq<string> {
    if runs == [] then [] else RunsText(runs[..|runs| - 1]) + [RunText(runs[|runs| - 1])]
  }

  /** What the scan has found when it stands at `j`, all the slots below making up the runs
      `below`: closed runs and perhaps an open one. */
  predicate Scanned(below: seq<Run>, j: nat, runs: seq<Run>, start: int) {
    if start < 0 then below == runs && (runs != [] ==> runs[|runs| - 1].stop + 1 < j)
    else start < j && below == runs + [Run(start, j - 1)]
  }

  /** One more slot that is set: the open run grows, or a run opens. */
  lemma ScanSet(below: seq<Run>, j: nat, runs: seq<Run>, start: int)
    requires Scanned(below, j, runs, start)
    ensures Scanned(Extend(below, j), j + 1, runs, if start < 0 then j else start)
  {
    assert start >= 0 ==> below[..|below| - 1] == runs;
  }

  lemma RunsTextOneMore(runs: seq<Run>, r: Run)
    ensures RunsText(runs + [r]) == RunsText(runs) + [RunText(r)]
  {
    assert (runs + [r])[..|runs|] == runs;
  }

  /** A closed run goes on the line. */
  method PrintRun(text: seq<string>, ghost runs: seq<Run>, start: nat, j: nat) returns (more: seq<string>)
    requires start < j && text == RunsText(runs)
    ensures more == RunsText(runs + [Run(start, j - 1)])
  {
    RunsTextOneMore(runs, Run(start, j - 1));
    if start == j - 1 {
      more := text + [Decimal(start)];
    } else {
      more := text + [Decimal(start) + "-" + Decimal(j - 1)];
    }
  }

  /** One step of the scan. When the last slot is set, the run it belongs to is closed by
      stepping past the end. */
  method ScanSlot(bit: bool, last: bool, j: nat, start: int, text: seq<string>, ghost runs: seq<Run>, ghost below: seq<Run>)
    returns (at: nat, open: int, more: seq<string>, ghost closed: seq<Run>)
    requires text == RunsText(runs) && Scanned(below, j, runs, start) && start >= -1
    ensures more == RunsText(closed) && open >= -1 && at > j && (!last ==> at == j + 1)
    ensures var now := if bit then Extend(below, j) else below;
            if last then now == closed else Scanned(now, j + 1, closed, open)
  {
    at, open, more, closed := j, start, text, runs;
    if bit {
      ScanSet(below, j, runs, start);
      if start == -1 {
        open := j;
      }
    }
    if open != -1 && (!bit || last) {
      if bit && last {
        at := at + 1;
      }
      more := PrintRun(text, runs, open, at);
      closed := runs + [Run(open, at - 1)];
      open := -1;
    }
    at := at + 1;
  }

  /** The scan over the whole bitmap. */
  method PrintSlots(bitmap: array<bv8>) returns (text: seq<string>)
    ensures text == RunsText(RunsBelow(Members(bitmap[..]), 8 * bitmap.Length))
  {
    text := [];
    var start, j := -1, 0;
    ghost var n, slots, runs := 8 * bitmap.Length, Members(bitmap[..]), [];
    while j < 8 * bitmap.Length
      invariant start >= -1 && text == RunsText(runs) && (n == 0 ==> j == 0)
      invariant if j < n || n == 0 then Scanned(RunsBelow(slots, j), j, runs, start) else RunsBelow(slots, n) == runs
    {
      var bit := TestBit(bitmap, j);
      j, start, text, runs := ScanSlot(bit, j == 8 * bitmap.Length - 1, j, start, text, runs, RunsBelow(slots, j));
    }
  }
}
