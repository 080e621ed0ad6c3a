/** What a list of memory ranges is after a hole has been cut out of it. */
module HoledRanges {
  import opened Bytes
  import opened MemoryHoles
  import opened MemoryRanges
  import opened PageTables

  /**
    One range on its own: split at the hole's start, or trimmed at its end, or both; each split costs two more bytes.
   */
  function Piece(r: Run, s: nat, e: nat): seq<Run> {
    if Splits(r, s) then
      var behind := Run(s, r.End() - s - 1);
      [Run(r.base, s - r.base - 1)] + [if Ends(behind, e) then Run(e + 1, behind.End() - e - 1) else behind]
    else if Ends(r, e) then [Run(e + 1, r.End() - e - 1)]
    else [r]
  }

  function Pieces(runs: seq<Run>, s: nat, e: nat): seq<Run> {
    if runs == [] then [] else Piece(runs[0], s, e) + Pieces(runs[1..], s, e)
  }

  lemma SortedTail(runs: seq<Run>)
    requires Sorted(runs) && runs != []
    ensures Sorted(runs[1..])
    ensures forall r :: r in runs[1..] ==> runs[0].End() <= r.base
  {
    forall r | r in runs[1..] ensures runs[0].End() <= r.base {
      var k :| 0 <= k < |runs[1..]| && runs[1..][k] == r;
      assert runs[k + 1] == r;
    }
  }

  lemma {:induction false} PiecesBehindTheHole(runs: seq<Run>, s: nat, e: nat)
    requires s <= e && forall r :: r in runs ==> e <= r.base
    ensures Pieces(runs, s, e) == runs
  {
    if runs != [] {
      assert runs[0] in runs;
      PiecesBehindTheHole(runs[1..], s, e);
      assert runs == [runs[0]] + runs[1..];
    }
  }

  lemma OneRangeIsCut(r: Run, rest: seq<Run>, s: nat, e: nat)
    requires s <= e && InsertHole(rest, s, e) == Pieces(rest, s, e)
    requires e < r.End() ==> Pieces(rest, s, e) == rest
    ensures InsertHole([r] + rest, s, e) == Piece(r, s, e) + Pieces(rest, s, e)
  {
    hide InsertHole, Pieces;
    InsertHoleStep(r, rest, s, e);
    if Splits(r, s) {
      var behind := Run(s, r.End() - s - 1);
      InsertHoleStep(behind, rest, s, e);
      Assoc([Run(r.base, s - r.base - 1)], [if Ends(behind, e) then Run(e + 1, behind.End() - e - 1) else behind],
            Pieces(rest, s, e));
    }
  }

  /**
    On a sorted list the in-place loop, which stops at the first
    trim, does to every range what it would do to it alone.
   */
  lemma {:induction false} EachRangeIsCutAlone(runs: seq<Run>, s: nat, e: nat)
    requires Sorted(runs) && s <= e
    ensures InsertHole(runs, s, e) == Pieces(runs, s, e)
  {
    if runs != [] {
      hide InsertHole, Piece, Sorted;
      var r, rest := runs[0], runs[1..];
      assert runs == [r] + rest;
      SortedTail(runs);
      EachRangeIsCutAlone(rest, s, e);
      if e < r.End() {
        PiecesBehindTheHole(rest, s, e);
      }
      OneRangeIsCut(r, rest, s, e);
    }
  }

  lemma {:induction false} PiecesOfTwoLists(a: seq<Run>, b: seq<Run>, s: nat, e: nat)
    ensures Pieces(a + b, s, e) == Pieces(a, s, e) + Pieces(b, s, e)
  {
    if a == [] {
      assert a + b == b;
    } else {
      assert (a + b)[1..] == a[1..] + b;
      PiecesOfTwoLists(a[1..], b, s, e);
    }
  }

  // The shape of the list

  predicate PageBased(runs: seq<Run>) {
    forall r :: r in runs ==> r.base % PAGE == 0
  }

  predicate Within(runs: seq<Run>, low: nat, high: nat) {
    forall r :: r in runs ==> low <= r.base && r.End() <= high
  }

  lemma JoinSorted(a: seq<Run>, b: seq<Run>, middle: nat, high: nat)
    requires Sorted(a) && Sorted(b) && Within(a, 0, middle) && Within(b, middle, high)
    ensures Sorted(a + b)
  {
    forall i, j | 0 <= i < j < |a + b| ensures (a + b)[i].End() <= (a + b)[j].base {
      if i < |a| <= j {
        assert a[i] in a && b[j - |a|] in b;
      }
    }
  }

  lemma ShapeOfPiece(r: Run, s: nat, e: nat)
    requires s <= e
    ensures Sorted(Piece(r, s, e)) && Within(Piece(r, s, e), r.base, r.End())
    ensures r.base % PAGE == 0 && s % PAGE == 0 && (e + 1) % PAGE == 0 ==> PageBased(Piece(r, s, e))
  {
  }

  /** The list stays sorted and page-based, within its old bounds, so that no end leaves the 64-bit range. */
  lemma {:induction false} ShapeIsKept(runs: seq<Run>, s: nat, e: nat, low: nat, high: nat)
    requires Sorted(runs) && s <= e && Within(runs, low, high)
    ensures Sorted(InsertHole(runs, s, e)) && Within(InsertHole(runs, s, e), low, high)
    ensures PageBased(runs) && s % PAGE == 0 && (e + 1) % PAGE == 0 ==> PageBased(InsertHole(runs, s, e))
  {
    hide InsertHole, Piece, Sorted;
    EachRangeIsCutAlone(runs, s, e);
    if runs != [] {
      var r, rest := runs[0], runs[1..];
      assert r in runs;
      SortedTail(runs);
      EachRangeIsCutAlone(rest, s, e);
      ShapeIsKept(rest, s, e, r.End(), high);
      ShapeOfPiece(r, s, e);
      JoinSorted(Piece(r, s, e), Pieces(rest, s, e), r.End(), high);
    }
  }

  /** At most one range is split. */
  lemma {:induction false} SplitsOnce(runs: seq<Run>, s: nat, e: nat)
    requires Sorted(runs) && s <= e
    ensures |runs| <= |InsertHole(runs, s, e)| <= |runs| + 1
    ensures |InsertHole(runs, s, e)| == |runs| + 1 <==> exists r :: r in runs && Splits(r, s)
  {
    EachRangeIsCutAlone(runs, s, e);
    if runs != [] {
      var r, rest := runs[0], runs[1..];
      SortedTail(runs);
      EachRangeIsCutAlone(rest, s, e);
      SplitsOnce(rest, s, e);
      assert forall q :: q in runs <==> q == r || q in rest;
    }
  }

  /** The array is written past its end exactly if it is full and the hole starts inside a range. */
  lemma RoomIsNeededExactlyWhen(runs: seq<Run>, s: nat, e: nat, capacity: nat)
    requires Sorted(runs) && s <= e && |runs| <= capacity
    ensures |InsertHole(runs, s, e)| > capacity <==> |runs| == capacity && exists r :: r in runs && Splits(r, s)
  {
    hide InsertHole;
    SplitsOnce(runs, s, e);
  }

  /** A second insertion of the same hole changes nothing, whatever the hole crosses or covers. */
  lemma {:induction false} SecondInsertionChangesNothing(runs: seq<Run>, s: nat, e: nat)
    requires Sorted(runs) && s <= e
    ensures InsertHole(InsertHole(runs, s, e), s, e) == InsertHole(runs, s, e)
  {
    EachRangeIsCutAlone(runs, s, e);
    SortedAfter(runs, s, e);
    EachRangeIsCutAlone(Pieces(runs, s, e), s, e);
    PiecesAreFixed(runs, s, e);
  }

  lemma {:induction false} PiecesAreFixed(runs: seq<Run>, s: nat, e: nat)
    requires s <= e
    ensures Pieces(Pieces(runs, s, e), s, e) == Pieces(runs, s, e)
  {
    if runs != [] {
      var p := Piece(runs[0], s, e);
      PiecesOfTwoLists(p, Pieces(runs[1..], s, e), s, e);
      PiecesAreFixed(runs[1..], s, e);
      PiecesOfPiece(runs[0], s, e);
    }
  }

  lemma PiecesOfPiece(r: Run, s: nat, e: nat)
    requires s <= e
    ensures Pieces(Piece(r, s, e), s, e) == Piece(r, s, e)
  {
    var p := Piece(r, s, e);
    assert Piece(p[0], s, e) == [p[0]];
    if Splits(r, s) {
      assert p == [p[0]] + [p[1]];
      PiecesOfTwoLists([p[0]], [p[1]], s, e);
    }
  }

  // The addresses that are left

  /** The addresses of a range that the hole takes with it. */
  predicate Dropped(r: Run, s: nat, e: nat, a: nat) {
    if Splits(r, s) then a == s - 1 || a == r.End() - 1 || (e < r.End() - 1 && s <= a <= e && s < e)
    else Ends(r, e) && a <= e
  }

  predicate In(r: Run, a: nat) {
    r.base <= a < r.End()
  }

  lemma CoveredByTwoLists(a: seq<Run>, b: seq<Run>, x: nat)
    ensures Covered(a + b, x) <==> Covered(a, x) || Covered(b, x)
  {
    if Covered(a, x) {
      var i :| 0 <= i < |a| && a[i].base <= x < a[i].End();
      assert (a + b)[i] == a[i];
    }
    if Covered(b, x) {
      var i :| 0 <= i < |b| && b[i].base <= x < b[i].End();
      assert (a + b)[|a| + i] == b[i];
    }
  }

  /** No address is added, and those that go are named: a range loses exactly what `Dropped` says. */
  lemma {:induction false} WhatIsLeft(runs: seq<Run>, s: nat, e: nat, a: nat)
    requires Sorted(runs) && s <= e
    ensures Covered(InsertHole(runs, s, e), a) <==> exists r :: r in runs && In(r, a) && !Dropped(r, s, e, a)
  {
    EachRangeIsCutAlone(runs, s, e);
    if runs != [] {
      var r, rest := runs[0], runs[1..];
      SortedTail(runs);
      EachRangeIsCutAlone(rest, s, e);
      WhatIsLeft(rest, s, e, a);
      CoveredByTwoLists(Piece(r, s, e), Pieces(rest, s, e), a);
      WhatIsLeftOfOne(r, s, e, a);
      assert forall q :: q in runs <==> q == r || q in rest;
    }
  }

  lemma WhatIsLeftOfOne(r: Run, s: nat, e: nat, a: nat)
    requires s <= e
    ensures Covered(Piece(r, s, e), a) <==> In(r, a) && !Dropped(r, s, e, a)
  {
    var p := Piece(r, s, e);
    assert Covered(p, a) <==> In(p[0], a) || (|p| == 2 && In(p[1], a));
  }

  /** Whether a range lets the whole hole go; a caller can read this off the range and the hole. */
  predicate LetsGo(r: Run, s: nat, e: nat) {
    || r.length == 0 || e < r.base || r.End() <= s
    || (s <= r.base < e < r.End())
    || (Splits(r, s) && (s < e < r.End() - 1 || s == r.End() - 1))
  }

  lemma WhenOneLetsGo(r: Run, s: nat, e: nat)
    requires s <= e
    ensures LetsGo(r, s, e) <==> forall a :: s <= a <= e && In(r, a) ==> Dropped(r, s, e, a)
  {
    if !LetsGo(r, s, e) {
      var a := if s <= r.base then r.base else s;
      assert s <= a <= e && In(r, a) && !Dropped(r, s, e, a);
    } else {
      forall a | s <= a <= e && In(r, a) ensures Dropped(r, s, e, a) {
      }
    }
  }

  /**
    The hole disappears from the list exactly when every range lets it go. A range that the
    hole covers completely, and one that the hole ends on the very last byte of, do not.
   */
  lemma HoleIsGoneExactlyWhen(runs: seq<Run>, s: nat, e: nat)
    requires Sorted(runs) && s <= e
    ensures (forall a :: s <= a <= e ==> !Covered(InsertHole(runs, s, e), a))
            <==> forall r :: r in runs ==> LetsGo(r, s, e)
  {
    hide LetsGo, Dropped, In, InsertHole, Sorted, Covered;
    if r :| r in runs && !LetsGo(r, s, e) {
      WhenOneLetsGo(r, s, e);
      var a :| s <= a <= e && In(r, a) && !Dropped(r, s, e, a);
      WhatIsLeft(runs, s, e, a);
      assert Covered(InsertHole(runs, s, e), a);
    } else {
      forall a | s <= a <= e ensures !Covered(InsertHole(runs, s, e), a) {
        WhatIsLeft(runs, s, e, a);
        forall r | r in runs && In(r, a) ensures Dropped(r, s, e, a) {
          WhenOneLetsGo(r, s, e);
        }
      }
    }
  }

  // The bytes that are left

  function Total(runs: seq<Run>): nat {
    if runs == [] then 0 else runs[0].length + Total(runs[1..])
  }

  datatype Hole = Hole(start: nat, end: nat)

  /** The pages that a hole from `first` to `last` becomes. */
  function Rounded(first: nat, last: nat): Hole {
    Hole(PageStart(first), PageEnd(last))
  }

  predicate Pages(h: Hole) {
    h.start % PAGE == 0 && (h.end + 1) % PAGE == 0 && h.start < h.end < TWO64
  }

  lemma RoundedIsPages(first: nat, last: nat)
    requires first <= last < TWO64
    ensures Pages(Rounded(first, last))
  {
    NoHoleIsEmpty([], first, last);
  }

  /** The pages are the fewest that hold the first and the last byte. */
  lemma RoundingIsTight(first: nat, last: nat)
    requires first <= last
    ensures var h := Rounded(first, last);
            && h.start % 4096 == 0 && h.start <= first < h.start + 4096
            && (h.end + 1) % 4096 == 0 && h.end - 4096 < last <= h.end
  {
  }

  /** A hole inside one range that lets it go. */
  predicate Inside(r: Run, h: Hole) {
    r.base <= h.start < h.end < r.End() && (h.start == r.base || h.end < r.End() - 1)
  }

  /** What the hole costs: its own bytes, and two more when the range is split. */
  function Cost(r: Run, h: Hole): nat
    requires Inside(r, h)
  {
    h.end - h.start + (if h.start == r.base then 1 else 3)
  }

  lemma {:induction false} TotalOfTwoLists(a: seq<Run>, b: seq<Run>)
    ensures Total(a + b) == Total(a) + Total(b)
  {
    if a == [] {
      assert a + b == b;
    } else {
      assert (a + b)[1..] == a[1..] + b;
      TotalOfTwoLists(a[1..], b);
    }
  }

  lemma {:induction false} PiecesBeforeTheHole(runs: seq<Run>, s: nat, e: nat)
    requires s <= e && forall r :: r in runs ==> r.End() <= s
    ensures Pieces(runs, s, e) == runs
  {
    if runs != [] {
      assert runs[0] in runs;
      PiecesBeforeTheHole(runs[1..], s, e);
      assert runs == [runs[0]] + runs[1..];
    }
  }

  lemma OnlyThatRangeChanges(runs: seq<Run>, k: nat, h: Hole)
    requires Sorted(runs) && k < |runs| && Inside(runs[k], h)
    ensures InsertHole(runs, h.start, h.end) == runs[..k] + Piece(runs[k], h.start, h.end) + runs[k + 1..]
  {
    hide InsertHole, Piece, Sorted, Pieces;
    var s, e, before, r, behind := h.start, h.end, runs[..k], runs[k], runs[k + 1..];
    EachRangeIsCutAlone(runs, s, e);
    assert runs == before + [r] + behind;
    PiecesOfTwoLists(before + [r], behind, s, e);
    PiecesOfTwoLists(before, [r], s, e);
    AroundOne(runs, k);
    PiecesBeforeTheHole(before, s, e);
    PiecesBehindTheHole(behind, s, e);
    PiecesOfOne(r, s, e);
  }

  lemma AroundOne(runs: seq<Run>, k: nat)
    requires Sorted(runs) && k < |runs|
    ensures forall r :: r in runs[..k] ==> r.End() <= runs[k].base
    ensures forall r :: r in runs[k + 1..] ==> runs[k].End() <= r.base
  {
  }

  lemma PiecesOfOne(r: Run, s: nat, e: nat)
    ensures Pieces([r], s, e) == Piece(r, s, e)
  {
  }

  lemma TotalOfThreeLists(a: seq<Run>, b: seq<Run>, c: seq<Run>)
    ensures Total(a + b + c) == Total(a) + Total(b) + Total(c)
  {
    TotalOfTwoLists(a + b, c);
    TotalOfTwoLists(a, b);
  }

  /** A hole inside range `k` changes that range only, and the list loses exactly its cost. */
  lemma ContainedHole(runs: seq<Run>, k: nat, h: Hole)
    requires Sorted(runs) && k < |runs| && Inside(runs[k], h)
    ensures InsertHole(runs, h.start, h.end) == runs[..k] + Piece(runs[k], h.start, h.end) + runs[k + 1..]
    ensures Total(InsertHole(runs, h.start, h.end)) + Cost(runs[k], h) == Total(runs)
  {
    hide InsertHole, Piece, Total, Sorted, Inside, Cost;
    OnlyThatRangeChanges(runs, k, h);
    TotalOfThreeLists(runs[..k], Piece(runs[k], h.start, h.end), runs[k + 1..]);
    TotalOfThreeLists(runs[..k], [runs[k]], runs[k + 1..]);
    assert runs == runs[..k] + [runs[k]] + runs[k + 1..];
    TotalOfPiece(runs[k], h);
  }

  lemma TotalOfPiece(r: Run, h: Hole)
    requires Inside(r, h)
    ensures Total(Piece(r, h.start, h.end)) + Cost(r, h) == Total([r])
  {
    var p := Piece(r, h.start, h.end);
    if |p| == 2 {
      assert p == [p[0]] + [p[1]];
      TotalOfTwoLists([p[0]], [p[1]]);
    }
  }

  function InsertHoles(runs: seq<Run>, holes: seq<Hole>): seq<Run>
    decreases |holes|
  {
    if holes == [] then runs
    else InsertHoles(InsertHole(runs, holes[0].start, holes[0].end), holes[1..])
  }

  lemma {:induction false} HolesOfTwoLists(runs: seq<Run>, a: seq<Hole>, b: seq<Hole>)
    ensures InsertHoles(runs, a + b) == InsertHoles(InsertHoles(runs, a), b)
    decreases |a|
  {
    if a == [] {
      assert a + b == b;
    } else {
      assert (a + b)[1..] == a[1..] + b;
      HolesOfTwoLists(InsertHole(runs, a[0].start, a[0].end), a[1..], b);
    }
  }

  /** Everything that 64 bits can address, but for the last byte. */
  const WHOLE_SPACE: seq<Run> := [Run(0, TWO64 - 1)]

  /** The list only grows. */
  lemma {:induction false} ListGrows(runs: seq<Run>, holes: seq<Hole>)
    ensures |runs| <= |InsertHoles(runs, holes)|
    decreases |holes|
  {
    if holes != [] {
      ListGrows(InsertHole(runs, holes[0].start, holes[0].end), holes[1..]);
    }
  }

  /** An array of a given capacity is written past its end on the way if and only if the final list does not fit it. */
  lemma ArrayIsOverrunExactlyWhen(runs: seq<Run>, holes: seq<Hole>, capacity: nat)
    ensures (exists j :: 0 <= j <= |holes| && |InsertHoles(runs, holes[..j])| > capacity)
            <==> |InsertHoles(runs, holes)| > capacity
  {
    hide InsertHoles;
    assert holes[..|holes|] == holes;
    forall j | 0 <= j <= |holes| ensures |InsertHoles(runs, holes[..j])| <= |InsertHoles(runs, holes)| {
      assert holes == holes[..j] + holes[j..];
      HolesOfTwoLists(runs, holes[..j], holes[j..]);
      ListGrows(InsertHoles(runs, holes[..j]), holes[j..]);
    }
  }

  /** Twenty ranges fill the list of the driver; a hole in the first of them makes it write a twenty-first. */
  lemma FullListIsOverrun() returns (runs: seq<Run>)
    ensures |runs| == NUMBER_OF_RUNS && Sorted(runs) && PageBased(runs) && Pages(Hole(0x1000, 0x1FFF))
    ensures |InsertHole(runs, 0x1000, 0x1FFF)| > NUMBER_OF_RUNS
  {
    runs := seq(NUMBER_OF_RUNS, i requires 0 <= i < NUMBER_OF_RUNS => Run(i * 0x10000, 0x8000));
    assert runs[0] == Run(0, 0x8000) && runs[0] in runs && Splits(runs[0], 0x1000);
    RoomIsNeededExactlyWhen(runs, 0x1000, 0x1FFF, NUMBER_OF_RUNS);
  }

  /** Hole by hole, the index of the range that contains it at that moment. */
  predicate Contained(runs: seq<Run>, holes: seq<Hole>, places: seq<nat>)
    decreases |holes|
  {
    |places| == |holes|
    && (holes == []
        || (places[0] < |runs| && Inside(runs[places[0]], holes[0])
            && Contained(InsertHole(runs, holes[0].start, holes[0].end), holes[1..], places[1..])))
  }

  function Costs(runs: seq<Run>, holes: seq<Hole>, places: seq<nat>): nat
    requires Contained(runs, holes, places)
    decreases |holes|
  {
    if holes == [] then 0
    else
      Cost(runs[places[0]], holes[0])
      + Costs(InsertHole(runs, holes[0].start, holes[0].end), holes[1..], places[1..])
  }

  /** Over any sequence of contained holes the total falls by exactly the sum of their costs. */
  lemma {:induction false} TotalAfterHoles(runs: seq<Run>, holes: seq<Hole>, places: seq<nat>)
    requires Sorted(runs) && Contained(runs, holes, places)
    ensures Total(InsertHoles(runs, holes)) + Costs(runs, holes, places) == Total(runs)
    decreases |holes|
  {
    if holes != [] {
      var h := holes[0];
      ContainedHole(runs, places[0], h);
      SortedAfter(runs, h.start, h.end);
      TotalAfterHoles(InsertHole(runs, h.start, h.end), holes[1..], places[1..]);
    }
  }

  lemma SortedAfter(runs: seq<Run>, s: nat, e: nat)
    requires Sorted(runs) && s <= e
    ensures Sorted(InsertHole(runs, s, e))
  {
    if runs != [] {
      forall r | r in runs ensures r.End() <= Top(runs) {
        var k :| 0 <= k < |runs| && runs[k] == r;
      }
    }
    ShapeIsKept(runs, s, e, 0, Top(runs));
  }
}
