/** When a list of memory ranges has lost every one of many holes, and when it has not. */
module DisjointHoles {
  import opened HoledRanges
  import opened MemoryHoles
  import opened MemoryRanges
  import opened PageTables

  predicate Forward(holes: seq<Hole>) {
    forall h :: h in holes ==> h.start <= h.end
  }

  // What holds for any holes.

  lemma {:induction false} HolesKeepOrder(runs: seq<Run>, holes: seq<Hole>)
    requires Sorted(runs) && Forward(holes)
    ensures Sorted(InsertHoles(runs, holes))
    decreases |holes|
  {
    if holes != [] {
      assert holes[0] in holes;
      SortedAfter(runs, holes[0].start, holes[0].end);
      HolesKeepOrder(InsertHole(runs, holes[0].start, holes[0].end), holes[1..]);
    }
  }

  /** No insertion ever adds an address. */
  lemma {:induction false} NothingIsAdded(runs: seq<Run>, holes: seq<Hole>, a: nat)
    requires Sorted(runs) && Forward(holes) && Covered(InsertHoles(runs, holes), a)
    ensures Covered(runs, a)
    decreases |holes|
  {
    if holes != [] {
      var h := holes[0];
      assert h in holes;
      SortedAfter(runs, h.start, h.end);
      NothingIsAdded(InsertHole(runs, h.start, h.end), holes[1..], a);
      WhatIsLeft(runs, h.start, h.end, a);
      var r :| r in runs && In(r, a) && !Dropped(r, h.start, h.end, a);
      var i :| 0 <= i < |runs| && runs[i] == r;
    }
  }

  ghost predicate Gone(runs: seq<Run>, h: Hole) {
    forall a :: h.start <= a <= h.end ==> !Covered(runs, a)
  }

  /**
    A hole is gone after its own insertion exactly if every range lets it go at that moment, and then it stays gone.
   */
  lemma GoneForGood(runs: seq<Run>, before: seq<Hole>, h: Hole, after: seq<Hole>)
    requires Sorted(runs) && Forward(before + [h] + after)
    ensures Gone(InsertHoles(runs, before + [h]), h)
            <==> forall r :: r in InsertHoles(runs, before) ==> LetsGo(r, h.start, h.end)
    ensures Gone(InsertHoles(runs, before + [h]), h) ==> Gone(InsertHoles(runs, before + [h] + after), h)
  {
    hide InsertHole, LetsGo, Sorted, Covered;
    assert forall x :: x in before || x == h || x in after ==> x in before + [h] + after;
    var middle := InsertHoles(runs, before);
    HolesKeepOrder(runs, before);
    HoleIsGoneExactlyWhen(middle, h.start, h.end);
    HolesOfTwoLists(runs, before, [h]);
    OneOfHoles(middle, h);
    HolesOfTwoLists(runs, before + [h], after);
    HolesKeepOrder(runs, before + [h]);
    forall a | Covered(InsertHoles(runs, before + [h] + after), a) ensures Covered(InsertHoles(runs, before + [h]), a) {
      NothingIsAdded(InsertHoles(runs, before + [h]), after, a);
    }
  }

  lemma OneOfHoles(runs: seq<Run>, h: Hole)
    ensures InsertHoles(runs, [h]) == InsertHole(runs, h.start, h.end)
  {
    assert InsertHoles(InsertHole(runs, h.start, h.end), [h][1..]) == InsertHole(runs, h.start, h.end);
  }

  /** Two adjacent pages in descending order: the second one stays in the list. */
  lemma DescendingNeighbours()
    ensures var holes := [Hole(0x2000, 0x2FFF), Hole(0x1000, 0x1FFF)];
            Pages(holes[0]) && Pages(holes[1]) && Covered(InsertHoles(WHOLE_SPACE, holes), 0x1000)
  {
    var holes := [Hole(0x2000, 0x2FFF), Hole(0x1000, 0x1FFF)];
    var r := Run(0, TWO64 - 1);
    InsertHoleStep(r, [], 0x2000, 0x2FFF);
    InsertHoleStep(Run(0x2000, TWO64 - 1 - 0x2000 - 1), [], 0x2000, 0x2FFF);
    var runs := [Run(0, 0x1FFF), Run(0x3000, TWO64 - 2 - 0x3000)];
    assert InsertHole([r], 0x2000, 0x2FFF) == runs by {
      assert [r] + [] == [r] && [Run(0x2000, TWO64 - 1 - 0x2000 - 1)] + [] == [Run(0x2000, TWO64 - 1 - 0x2000 - 1)];
    }
    assert holes[1..] == [holes[1]];
    OneOfHoles(runs, holes[1]);
    assert In(runs[0], 0x1000) && !Dropped(runs[0], 0x1000, 0x1FFF, 0x1000);
    WhatIsLeft(runs, 0x1000, 0x1FFF, 0x1000);
  }

  // Holes of whole pages that do not overlap, cut out of the whole address space.

  predicate AllPages(holes: seq<Hole>) {
    forall h :: h in holes ==> Pages(h)
  }

  predicate ApartFrom(holes: seq<Hole>, h: Hole) {
    forall g :: g in holes ==> g.end < h.start || h.end < g.start
  }

  predicate Apart(holes: seq<Hole>) {
    forall j :: 0 <= j < |holes| ==> ApartFrom(holes[..j], holes[j])
  }

  /** Where a range can end, up to a page: at the top of the address space or before one of the holes. */
  predicate Ceiling(holes: seq<Hole>, u: nat) {
    u == TWO64 || exists g :: g in holes && g.start == u
  }

  predicate Floor(holes: seq<Hole>, b: nat) {
    b == 0 || exists g :: g in holes && g.end + 1 == b
  }

  /** No hole reaches the top of the address space, and none ends just below one that was inserted before it. */
  predicate InGoodOrder(holes: seq<Hole>) {
    forall j :: 0 <= j < |holes| ==> !Ceiling(holes[..j], holes[j].end + 1)
  }

  function NextPage(a: nat): nat {
    a - a % PAGE + PAGE
  }

  /** After `k` insertions a range ends at most so many bytes too early. */
  predicate Frayed(r: Run, k: nat) {
    r.End() % PAGE + k >= PAGE - 1
  }

  predicate Tidy(r: Run, holes: seq<Hole>) {
    Frayed(r, |holes|) && Floor(holes, r.base) && Ceiling(holes, NextPage(r.End()))
  }

  lemma TidyLetsGo(r: Run, holes: seq<Hole>, h: Hole)
    requires Pages(h) && AllPages(holes) && ApartFrom(holes, h) && |holes| < PAGE - 2
    requires Tidy(r, holes) && !Ceiling(holes, h.end + 1)
    ensures LetsGo(r, h.start, h.end)
    ensures h.start < r.End() && r.base <= h.end && r.length > 0 ==> r.base <= h.start && h.end + 1 < r.End() - 1
  {
    var s, e, u := h.start, h.end, NextPage(r.End());
    if s < r.End() && r.base <= e && r.length > 0 {
      assert r.base <= s;
      assert u % PAGE == 0 && u != e + 1;
      assert e < u by {
        if u != TWO64 {
          var g :| g in holes && g.start == u;
        }
      }
      PageGap(e + 1, u);
    }
  }

  lemma PageGap(a: nat, b: nat)
    requires a % PAGE == 0 && b % PAGE == 0 && a < b
    ensures a + PAGE <= b
  {
  }

  lemma PageEnds(end: nat, s: nat)
    requires end % PAGE > 0 && s % PAGE == 0 && s > 0
    ensures NextPage(end - 1) == NextPage(end) && (end - 1) % PAGE == end % PAGE - 1
    ensures NextPage(s - 1) == s && (s - 1) % PAGE == PAGE - 1
  {
  }

  lemma TidyPiece(r: Run, holes: seq<Hole>, h: Hole, p: Run)
    requires Pages(h) && AllPages(holes) && ApartFrom(holes, h) && |holes| < PAGE - 2
    requires Tidy(r, holes) && !Ceiling(holes, h.end + 1) && p in Piece(r, h.start, h.end)
    ensures Tidy(p, holes + [h])
  {
    TidyLetsGo(r, holes, h);
    var all := holes + [h];
    assert h in all && forall g :: g in holes ==> g in all;
    assert Floor(all, r.base) && Ceiling(all, NextPage(r.End()));
    assert Floor(all, h.end + 1) && Ceiling(all, h.start);
    var s, e := h.start, h.end;
    if Splits(r, s) {
      PageEnds(r.End(), s);
    }
  }

  lemma FrayedPiece(r: Run, k: nat, h: Hole, p: Run)
    requires Pages(h) && k < PAGE - 2 && Frayed(r, k) && p in Piece(r, h.start, h.end)
    ensures Frayed(p, k + 1)
  {
  }

  lemma {:induction false} PieceOrigin(runs: seq<Run>, s: nat, e: nat, p: Run) returns (r: Run)
    requires p in Pieces(runs, s, e)
    ensures r in runs && p in Piece(r, s, e)
  {
    r := runs[0];
    if p !in Piece(r, s, e) {
      r := PieceOrigin(runs[1..], s, e, p);
    }
  }

  lemma TidyKept(runs: seq<Run>, holes: seq<Hole>, h: Hole)
    requires Sorted(runs) && forall r :: r in runs ==> Tidy(r, holes)
    requires Pages(h) && AllPages(holes) && ApartFrom(holes, h) && |holes| < PAGE - 2 && !Ceiling(holes, h.end + 1)
    ensures forall p :: p in InsertHole(runs, h.start, h.end) ==> Tidy(p, holes + [h])
  {
    hide InsertHole, Pieces, Piece, Tidy;
    EachRangeIsCutAlone(runs, h.start, h.end);
    forall p | p in InsertHole(runs, h.start, h.end) ensures Tidy(p, holes + [h]) {
      var r := PieceOrigin(runs, h.start, h.end, p);
      TidyPiece(r, holes, h, p);
    }
  }

  lemma FrayedKept(runs: seq<Run>, k: nat, h: Hole)
    requires Sorted(runs) && Pages(h) && k < PAGE - 2 && forall r :: r in runs ==> Frayed(r, k)
    ensures forall p :: p in InsertHole(runs, h.start, h.end) ==> Frayed(p, k + 1)
  {
    hide InsertHole, Pieces, Piece, Frayed;
    EachRangeIsCutAlone(runs, h.start, h.end);
    forall p | p in InsertHole(runs, h.start, h.end) ensures Frayed(p, k + 1) {
      var r := PieceOrigin(runs, h.start, h.end, p);
      FrayedPiece(r, k, h, p);
    }
  }

  /** The first byte of a page outside the holes is never lost. */
  lemma {:induction false} PageStartStays(runs: seq<Run>, k: nat, holes: seq<Hole>, p: nat)
    requires Sorted(runs) && AllPages(holes) && k + |holes| < PAGE - 1 && forall r :: r in runs ==> Frayed(r, k)
    requires p % PAGE == 0 && Covered(runs, p) && forall h :: h in holes ==> !(h.start <= p <= h.end)
    ensures Covered(InsertHoles(runs, holes), p)
    decreases |holes|
  {
    hide InsertHole, Piece, Sorted;
    if holes != [] {
      var h := holes[0];
      assert h in holes;
      var i :| 0 <= i < |runs| && runs[i].base <= p < runs[i].End();
      NotDropped(runs[i], k, h, p);
      WhatIsLeft(runs, h.start, h.end, p);
      SortedAfter(runs, h.start, h.end);
      FrayedKept(runs, k, h);
      PageStartStays(InsertHole(runs, h.start, h.end), k + 1, holes[1..], p);
    }
  }

  lemma NotDropped(r: Run, k: nat, h: Hole, p: nat)
    requires Pages(h) && k < PAGE - 2 && Frayed(r, k) && p % PAGE == 0 && In(r, p)
    requires !(h.start <= p <= h.end) || (p == h.start && r.End() <= h.end)
    ensures !Dropped(r, h.start, h.end, p)
  {
    assert (r.End() - 1) % PAGE == r.End() % PAGE - 1;
  }

  /** As long as the order is good, the ranges are tidy. */
  lemma {:induction false} TidyUpTo(holes: seq<Hole>, n: nat)
    requires n <= |holes| < PAGE - 2 && AllPages(holes) && Apart(holes)
    requires forall j :: 0 <= j < n ==> !Ceiling(holes[..j], holes[j].end + 1)
    ensures Sorted(InsertHoles(WHOLE_SPACE, holes[..n]))
    ensures forall r :: r in InsertHoles(WHOLE_SPACE, holes[..n]) ==> Tidy(r, holes[..n])
  {
    hide InsertHole, InsertHoles, Tidy, Ceiling, Pages, Sorted;
    if n > 0 {
      var front, h := holes[..n - 1], holes[n - 1];
      TidyUpTo(holes, n - 1);
      assert holes[..n] == front + [h] && h in holes && forall g :: g in front ==> g in holes;
      PagesAreForward(holes);
      HolesOfTwoLists(WHOLE_SPACE, front, [h]);
      OneOfHoles(InsertHoles(WHOLE_SPACE, front), h);
      SortedAfter(InsertHoles(WHOLE_SPACE, front), h.start, h.end);
      TidyKept(InsertHoles(WHOLE_SPACE, front), front, h);
    } else {
      WholeSpaceIsTidy();
      assert holes[..0] == [];
    }
  }

  lemma WholeSpaceIsTidy()
    ensures InsertHoles(WHOLE_SPACE, []) == WHOLE_SPACE && Sorted(WHOLE_SPACE)
    ensures forall r :: r in WHOLE_SPACE ==> Tidy(r, [])
  {
    assert Run(0, TWO64 - 1).End() % PAGE == PAGE - 1;
  }

  lemma SplitAt(holes: seq<Hole>, j: nat)
    requires j < |holes|
    ensures holes == holes[..j] + [holes[j]] + holes[j + 1..] && holes[..j + 1] == holes[..j] + [holes[j]]
  {
  }

  lemma PagesAreForward(holes: seq<Hole>)
    requires AllPages(holes)
    ensures Forward(holes)
  {
  }

  /** In a good order hole `j` is gone after its insertion, and from then on. */
  lemma GoodHoleIsGone(holes: seq<Hole>, j: nat, n: nat)
    requires j < n <= |holes| < PAGE - 2 && AllPages(holes) && Apart(holes)
    requires forall i :: 0 <= i <= j ==> !Ceiling(holes[..i], holes[i].end + 1)
    ensures Gone(InsertHoles(WHOLE_SPACE, holes[..n]), holes[j])
  {
    hide InsertHoles, Gone, LetsGo, Tidy, Pages;
    var part := holes[..n];
    var before, h, after := part[..j], part[j], part[j + 1..];
    assert holes[..j] == before && h in holes && forall g :: g in part ==> g in holes;
    TidyUpTo(holes, j);
    forall r | r in InsertHoles(WHOLE_SPACE, before) ensures LetsGo(r, h.start, h.end) {
      TidyLetsGo(r, before, h);
    }
    SplitAt(part, j);
    PagesAreForward(part);
    GoneForGood(WHOLE_SPACE, before, h, after);
  }

  /** The first hole that breaks the order keeps its first byte when it is inserted. */
  lemma BadHoleIsKept(holes: seq<Hole>, j: nat)
    requires j < |holes| < PAGE - 2 && AllPages(holes) && Apart(holes)
    requires forall i :: 0 <= i < j ==> !Ceiling(holes[..i], holes[i].end + 1)
    requires Ceiling(holes[..j], holes[j].end + 1)
    ensures var runs := InsertHoles(WHOLE_SPACE, holes[..j + 1]);
            Sorted(runs) && (forall q :: q in runs ==> Frayed(q, j + 1)) && Covered(runs, holes[j].start)
  {
    hide InsertHole, InsertHoles, Tidy, Gone, Ceiling, Frayed, Sorted, Apart, Dropped;
    var before, h := holes[..j], holes[j];
    SplitAt(holes, j);
    assert h in holes && forall g :: g in before ==> g in holes;
    LaterHolesAreApart(holes, j);
    TidyUpTo(holes, j);
    var middle := InsertHoles(WHOLE_SPACE, before);
    WholeSpaceCovers(h.start);
    PageStartStays(WHOLE_SPACE, 0, before, h.start);
    var i :| 0 <= i < |middle| && middle[i].base <= h.start < middle[i].End();
    var r := middle[i];
    forall q | q in middle ensures Frayed(q, j) {
      TidyParts(q, before);
    }
    TidyEnd(holes, j, r);
    NotDropped(r, j, h, h.start);
    WhatIsLeft(middle, h.start, h.end, h.start);
    HolesOfTwoLists(WHOLE_SPACE, before, [h]);
    OneOfHoles(middle, h);
    SortedAfter(middle, h.start, h.end);
    FrayedKept(middle, j, h);
  }

  /** And it keeps it for ever. */
  lemma BadHoleStays(holes: seq<Hole>, j: nat)
    requires j < |holes| < PAGE - 2 && AllPages(holes) && Apart(holes)
    requires forall i :: 0 <= i < j ==> !Ceiling(holes[..i], holes[i].end + 1)
    requires Ceiling(holes[..j], holes[j].end + 1)
    ensures Covered(InsertHoles(WHOLE_SPACE, holes), holes[j].start)
  {
    hide InsertHoles, Ceiling, Frayed, Sorted, Apart, Covered;
    var now, later := holes[..j + 1], holes[j + 1..];
    BadHoleIsKept(holes, j);
    LaterHolesAreApart(holes, j);
    assert holes == now + later && holes[j] in holes && forall g :: g in later ==> g in holes;
    PageStartStays(InsertHoles(WHOLE_SPACE, now), j + 1, later, holes[j].start);
    HolesOfTwoLists(WHOLE_SPACE, now, later);
  }

  lemma TidyParts(r: Run, holes: seq<Hole>)
    requires Tidy(r, holes)
    ensures Frayed(r, |holes|) && Ceiling(holes, NextPage(r.End()))
  {
  }

  lemma WholeSpaceCovers(p: nat)
    requires p < TWO64 - 1
    ensures Covered(WHOLE_SPACE, p) && Sorted(WHOLE_SPACE) && forall r :: r in WHOLE_SPACE ==> Frayed(r, 0)
  {
    assert WHOLE_SPACE[0] == Run(0, TWO64 - 1);
  }

  lemma LaterHolesAreApart(holes: seq<Hole>, j: nat)
    requires j < |holes| && Apart(holes) && AllPages(holes)
    ensures forall g :: g in holes[j + 1..] ==> !(g.start <= holes[j].start <= g.end)
    ensures forall g :: g in holes[..j] ==> !(g.start <= holes[j].start <= g.end)
  {
    assert holes[j] in holes;
    forall g | g in holes[j + 1..] ensures !(g.start <= holes[j].start <= g.end) {
      var k :| j < k < |holes| && holes[k] == g;
      assert holes[..k][j] == holes[j] && holes[j] in holes[..k];
      assert ApartFrom(holes[..k], holes[k]);
    }
    assert ApartFrom(holes[..j], holes[j]);
  }

  /** A range that holds the start of the bad hole ends inside it. */
  lemma TidyEnd(holes: seq<Hole>, j: nat, r: Run)
    requires j < |holes| < PAGE - 2 && AllPages(holes) && Apart(holes)
    requires forall i :: 0 <= i < j ==> !Ceiling(holes[..i], holes[i].end + 1)
    requires Ceiling(holes[..j], holes[j].end + 1)
    requires r in InsertHoles(WHOLE_SPACE, holes[..j]) && Tidy(r, holes[..j]) && In(r, holes[j].start)
    ensures r.End() <= holes[j].end
  {
    hide InsertHoles, Gone, Covered, Tidy, Apart, Ceiling;
    var before, h, runs := holes[..j], holes[j], InsertHoles(WHOLE_SPACE, holes[..j]);
    assert h in holes && forall g :: g in before ==> g in holes;
    TidyParts(r, before);
    EndOfTidy(r, before);
    if h.end + 1 != TWO64 {
      var i := HoleAtCeiling(before, h.end + 1);
      GoodHoleIsGone(holes, i, j);
      HoleHasStart(holes, i);
      StartIsGone(runs, holes[i]);
      NotIn(runs, r, holes[i].start);
      EndsBefore(r, h, holes[i].start);
    }
  }

  lemma HoleAtCeiling(holes: seq<Hole>, u: nat) returns (i: nat)
    requires Ceiling(holes, u) && u != TWO64
    ensures i < |holes| && holes[i].start == u
  {
    var g :| g in holes && g.start == u;
    i :| 0 <= i < |holes| && holes[i] == g;
  }

  lemma EndsBefore(r: Run, h: Hole, a: nat)
    requires Pages(h) && In(r, h.start) && !In(r, a) && a == h.end + 1 && r.End() % PAGE > 0
    ensures r.End() <= h.end
  {
  }

  lemma EndOfTidy(r: Run, holes: seq<Hole>)
    requires AllPages(holes) && |holes| < PAGE - 2 && Frayed(r, |holes|) && Ceiling(holes, NextPage(r.End()))
    ensures r.End() < TWO64 && r.End() % PAGE > 0
  {
    if NextPage(r.End()) != TWO64 {
      var g :| g in holes && g.start == NextPage(r.End());
    }
  }

  lemma StartIsGone(runs: seq<Run>, g: Hole)
    requires Gone(runs, g) && g.start <= g.end
    ensures !Covered(runs, g.start)
  {
  }

  lemma NotIn(runs: seq<Run>, r: Run, a: nat)
    requires r in runs && !Covered(runs, a)
    ensures !In(r, a)
  {
    var k :| 0 <= k < |runs| && runs[k] == r;
  }

  /**
    All of many holes are gone in the end if and only if their order is good. The driver starts with the
    whole address space; the holes are the page-rounded blocks of the devices in the order of the scan.
   */
  lemma AllGoneExactlyInGoodOrder(holes: seq<Hole>)
    requires |holes| < PAGE - 2 && AllPages(holes) && Apart(holes)
    ensures (forall h :: h in holes ==> Gone(InsertHoles(WHOLE_SPACE, holes), h)) <==> InGoodOrder(holes)
  {
    hide InsertHoles, Ceiling, AllPages, Apart;
    assert holes[..|holes|] == holes;
    if InGoodOrder(holes) {
      forall h | h in holes ensures Gone(InsertHoles(WHOLE_SPACE, holes), h) {
        var j :| 0 <= j < |holes| && holes[j] == h;
        GoodHoleIsGone(holes, j, |holes|);
      }
    } else {
      var j := 0;
      while !Ceiling(holes[..j], holes[j].end + 1)
        invariant j < |holes| && forall i :: 0 <= i < j ==> !Ceiling(holes[..i], holes[i].end + 1)
        invariant exists i :: j <= i < |holes| && Ceiling(holes[..i], holes[i].end + 1)
        decreases |holes| - j
      {
        j := j + 1;
      }
      BadHoleStays(holes, j);
      assert holes[j] in holes;
      HoleHasStart(holes, j);
    }
  }

  lemma HoleHasStart(holes: seq<Hole>, j: nat)
    requires j < |holes| && AllPages(holes)
    ensures holes[j].start <= holes[j].end
  {
    assert holes[j] in holes;
  }
}
