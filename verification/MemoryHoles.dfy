/** Cutting memory-mapped devices out of the list of memory ranges. */
module MemoryHoles {
  import opened Bytes
  import opened MemoryRanges
  import opened PageTables

  /** A value as the unsigned 64-bit arithmetic of the driver leaves it. */
  function Wrap(x: int): nat {
    x % TWO64
  }

  /** `start & 0xFFFFFFFFFFFFF000` and `end | 0xFFF` */
  function PageStart(a: nat): nat {
    a - a % PAGE
  }

  function PageEnd(a: nat): nat {
    a - a % PAGE + (PAGE - 1)
  }

  predicate Splits(r: Run, s: nat) {
    r.base < s < r.End()
  }

  predicate Ends(r: Run, e: nat) {
    r.base < e < r.End()
  }

  /** What the loop does from one run on, for a hole from page start `s` to page end `e`. */
  function InsertHole(runs: seq<Run>, s: nat, e: nat): (result: seq<Run>)
    ensures |result| >= |runs|
    decreases |runs|, runs != [] && Splits(runs[0], s)
  {
    if runs == [] then []
    else
      var r := runs[0];
      if Splits(r, s) then [Run(r.base, s - r.base - 1)] + InsertHole([Run(s, r.End() - s - 1)] + runs[1..], s, e)
      else if Ends(r, e) then [Run(e + 1, r.End() - e - 1)] + runs[1..]
      else [r] + InsertHole(runs[1..], s, e)
  }

  lemma InsertHoleStep(r: Run, rest: seq<Run>, s: nat, e: nat)
    ensures Splits(r, s) ==>
              InsertHole([r] + rest, s, e)
              == [Run(r.base, s - r.base - 1)] + InsertHole([Run(s, r.End() - s - 1)] + rest, s, e)
              && |InsertHole([Run(s, r.End() - s - 1)] + rest, s, e)| > |rest|
    ensures !Splits(r, s) && Ends(r, e) ==> InsertHole([r] + rest, s, e) == [Run(e + 1, r.End() - e - 1)] + rest
    ensures !Splits(r, s) && !Ends(r, e) ==> InsertHole([r] + rest, s, e) == [r] + InsertHole(rest, s, e)
  {
    assert ([r] + rest)[1..] == rest;
  }

  /** What `InsertMemoryHole` makes of the list. */
  function Inserted(runs: seq<Run>, first: nat, last: nat): seq<Run> {
    if PageStart(first) == PageEnd(last) then runs else InsertHole(runs, PageStart(first), PageEnd(last))
  }

  /**
    The test for an empty hole never fires: a page start and a page end differ, and a hole of one byte becomes a page.
   */
  lemma NoHoleIsEmpty(runs: seq<Run>, first: nat, last: nat)
    ensures Inserted(runs, first, last) == InsertHole(runs, PageStart(first), PageEnd(last))
    ensures PageStart(first) <= first < PageStart(first) + PAGE && PageStart(first) % PAGE == 0
    ensures last <= PageEnd(last) < last + PAGE && (PageEnd(last) + 1) % PAGE == 0
    ensures first <= last ==> PageStart(first) < PageEnd(last)
  {
    assert PageStart(first) % PAGE == 0 && PageEnd(last) % PAGE == PAGE - 1;
  }

  class MemoryInfo {
    var numberOfRuns: nat
    const run: array<Run>

    constructor (capacity: nat)
      ensures numberOfRuns == 0 && run.Length == capacity && fresh(run)
    {
      numberOfRuns := 0;
      run := new Run[capacity](_ => Run(0, 0));
    }

    ghost predicate Valid()
      reads this
    {
      numberOfRuns <= run.Length
    }

    ghost function Runs(): seq<Run>
      reads this, run
      requires Valid()
    {
      run[..numberOfRuns]
    }

    /** What the list comes to when the loop goes on at run `i`. */
    ghost function Outcome(i: nat, s: nat, e: nat): seq<Run>
      reads this, run
      requires i <= numberOfRuns <= run.Length
    {
      run[..i] + InsertHole(run[i..numberOfRuns], s, e)
    }

    lemma AtTheEnds(s: nat, e: nat)
      requires Valid()
      ensures Outcome(0, s, e) == InsertHole(Runs(), s, e) && Outcome(numberOfRuns, s, e) == Runs()
    {
      assert run[0..numberOfRuns] == Runs() && run[numberOfRuns..numberOfRuns] == [];
      assert run[..0] + InsertHole(Runs(), s, e) == InsertHole(Runs(), s, e);
    }

    lemma RunIsKept(i: nat, s: nat, e: nat)
      requires Valid() && i < numberOfRuns && !Splits(run[i], s) && !Ends(run[i], e)
      ensures Outcome(i + 1, s, e) == Outcome(i, s, e)
    {
      hide InsertHole;
      var rest := run[i + 1..numberOfRuns];
      assert run[i..numberOfRuns] == [run[i]] + rest && run[..i + 1] == run[..i] + [run[i]];
      InsertHoleStep(run[i], rest, s, e);
      Assoc(run[..i], [run[i]], InsertHole(rest, s, e));
    }

    lemma SplitNeedsRoom(i: nat, s: nat, e: nat)
      requires Valid() && i < numberOfRuns && Splits(run[i], s)
      ensures |Outcome(i, s, e)| > numberOfRuns
    {
      hide InsertHole;
      var rest := run[i + 1..numberOfRuns];
      assert run[i..numberOfRuns] == [run[i]] + rest;
      InsertHoleStep(run[i], rest, s, e);
    }

    /**
      `InsertMemoryHole`. The array needs room for the list that results; no sum or difference leaves the 64-bit range.
     */
    method InsertMemoryHole(first: nat, last: nat)
      requires Valid() && first < TWO64 && last < TWO64
      requires forall r :: r in Runs() ==> r.End() < TWO64
      requires |Inserted(Runs(), first, last)| <= run.Length
      modifies this, run
      ensures Valid() && Runs() == Inserted(old(Runs()), first, last)
    {
      hide InsertHole, PageStart, PageEnd, Outcome;
      var start, end := PageStart(first), PageEnd(last);
      if start == end {
        return;
      }
      AtTheEnds(start, end);
      var i := 0;
      while i < numberOfRuns
        invariant i <= numberOfRuns <= run.Length
        invariant Outcome(i, start, end) == old(Inserted(Runs(), first, last))
        invariant forall k :: i <= k < numberOfRuns ==> run[k].End() < TWO64
        decreases numberOfRuns - i, i < numberOfRuns && Splits(run[i], start)
      {
        var runStart, runEnd := run[i].base, Wrap(run[i].base + run[i].length);
        if runStart < start && start < runEnd {
          SplitNeedsRoom(i, start, end);
          SplitRun(i, start, runEnd, end);
          i := i + 1;
          continue;
        }
        if runStart < end && end < runEnd {
          TrimRun(i, start, end);
          return;
        }
        RunIsKept(i, start, end);
        i := i + 1;
      }
      AtTheEnds(start, end);
    }

    /** Room is made behind run `i`, which keeps what lies before `start`; what lies behind becomes the next run. */
    method SplitRun(i: nat, start: nat, runEnd: nat, ghost end: nat)
      requires Valid() && i < numberOfRuns < run.Length
      requires Splits(run[i], start) && runEnd == run[i].End() < TWO64
      modifies this, run
      ensures Valid() && numberOfRuns == old(numberOfRuns) + 1
      ensures run[i + 1] == Run(start, runEnd - start - 1)
      ensures forall k :: i + 1 < k < numberOfRuns ==> run[k] == old(run[k - 1])
      ensures Outcome(i + 1, start, end) == old(Outcome(i, start, end))
    {
      hide InsertHole;
      ghost var before, r, rest := run[..i], run[i], run[i + 1..numberOfRuns];
      InsertHoleStep(r, rest, start, end);
      assert run[i..numberOfRuns] == [r] + rest;
      // RtlMoveMemory
      forall k | i < k <= numberOfRuns {
        run[k] := run[k - 1];
      }
      numberOfRuns := numberOfRuns + 1;
      run[i] := Run(run[i].base, Wrap(start - run[i].base - 1));
      run[i + 1] := Run(start, Wrap(runEnd - start - 1));
      assert run[i + 1..numberOfRuns] == [Run(start, runEnd - start - 1)] + rest;
      assert run[..i + 1] == before + [Run(r.base, start - r.base - 1)];
      Assoc(before, [Run(r.base, start - r.base - 1)], InsertHole(run[i + 1..numberOfRuns], start, end));
    }

    /** Run `i` loses what lies up to `end`, and the loop is left. */
    method TrimRun(i: nat, ghost start: nat, end: nat)
      requires Valid() && i < numberOfRuns && !Splits(run[i], start)
      requires Ends(run[i], end) && run[i].End() < TWO64
      modifies run
      ensures Runs() == old(Outcome(i, start, end))
    {
      hide InsertHole;
      ghost var r, rest := run[i], run[i + 1..numberOfRuns];
      InsertHoleStep(r, rest, start, end);
      assert run[i..numberOfRuns] == [r] + rest;
      run[i] := Run(Wrap(end + 1), Wrap(run[i].End() - end - 1));
    }
  }
}
