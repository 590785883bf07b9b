/**
 Bounded detection of the parts of a requested window that the coverage index does not claim.

 An instant is a number of microseconds.  A stored span is a row of the index, closed at both
 ends; a gap is a part of the request to be repaired.
 */
module GapDetection {
  import opened Arithmetic
  import opened Wrappers
  import opened Sorting

  datatype Span = Span(start: int, end: int)

  predicate StartsFirst(a: Span, b: Span) { a.start <= b.start }

  /** The rows the query selects: those that meet the closed request. */
  predicate Meets(s: Span, start: int, end: int) { s.end >= start && s.start <= end }

  /** The query: matching rows in order of their start. */
  function Matching(stored: seq<Span>, start: int, end: int): seq<Span> {
    Sort(Filter(stored, (s: Span) => Meets(s, start, end)), StartsFirst)
  }

  /** Rows actually inspected under the cap on fetched rows. */
  function Scanned(stored: seq<Span>, start: int, end: int, maxRanges: nat): seq<Span> {
    var rows := Matching(stored, start, end);
    if |rows| > maxRanges then rows[..maxRanges] else rows
  }

  /** All gaps left by rows in order, from a pointer that has been accounted for. */
  function AllGaps(pointer: int, rows: seq<Span>, end: int): seq<Span>
    decreases rows
  {
    if pointer >= end then []
    else if rows == [] then [Span(pointer, end)]
    else
      var r := rows[0];
      (if pointer < r.start then [Span(pointer, r.start)] else []) + AllGaps(Max(pointer, r.end), rows[1..], end)
  }

  /** At the cap the last gap kept is widened to the end of the request. */
  function Capped(gaps: seq<Span>, maxGaps: nat, end: int): seq<Span>
    requires maxGaps > 0
  {
    if |gaps| <= maxGaps then gaps
    else gaps[..maxGaps - 1] + [Span(gaps[maxGaps - 1].start, end)]
  }

  // ---- What a list of gaps may claim --------------------------------------------------------

  predicate InSpan(t: int, s: Span) { s.start <= t <= s.end }

  ghost predicate InSome(t: int, spans: seq<Span>) {
    exists s :: s in spans && InSpan(t, s)
  }

  /** Non-empty, inside the request, in order and not overlapping. */
  ghost predicate WellFormed(gaps: seq<Span>, start: int, end: int) {
    && (forall i :: 0 <= i < |gaps| ==> start <= gaps[i].start < gaps[i].end <= end)
    && (forall i, j :: 0 <= i < j < |gaps| ==> gaps[i].end <= gaps[j].start)
  }

  /** No instant strictly inside a gap is claimed by a stored span. */
  ghost predicate InteriorsFree(gaps: seq<Span>, stored: seq<Span>) {
    forall g, s, t :: g in gaps && s in stored && g.start < t < g.end ==> !InSpan(t, s)
  }

  /** Closed spans with no common instant, as the overlap constraint guarantees. */
  ghost predicate Disjoint(stored: seq<Span>) {
    && (forall s :: s in stored ==> s.start <= s.end)
    && (forall r, q :: r in stored && q in stored && r != q ==> r.end < q.start || q.end < r.start)
  }

  lemma OrderIsTotal()
    ensures TotalPreorder(StartsFirst)
  {
  }

  lemma MatchingRows(stored: seq<Span>, start: int, end: int)
    ensures Sorted(Matching(stored, start, end), StartsFirst)
    ensures forall s :: s in Matching(stored, start, end) <==> s in stored && Meets(s, start, end)
  {
    var kept := Filter(stored, (s: Span) => Meets(s, start, end));
    OrderIsTotal();
    SortSorted(kept, StartsFirst);
    forall s ensures s in Matching(stored, start, end) <==> s in stored && Meets(s, start, end) {
      FilterElements(stored, (s: Span) => Meets(s, start, end), s);
      SortElements(kept, StartsFirst, s);
    }
  }

  /** Rows the query can return: proper spans that start inside the request. */
  ghost predicate Proper(rows: seq<Span>, end: int) {
    forall s :: s in rows ==> s.start <= s.end && s.start <= end
  }

  lemma {:induction false} AllGapsWellFormed(pointer: int, rows: seq<Span>, end: int)
    requires Proper(rows, end)
    ensures WellFormed(AllGaps(pointer, rows, end), pointer, end)
    decreases rows
  {
    if pointer < end && rows != [] {
      assert rows[0] in rows;
      AllGapsWellFormed(Max(pointer, rows[0].end), rows[1..], end);
    }
  }

  /** An instant of the remaining request that no row claims lies in a gap. */
  lemma {:induction false} AllGapsComplete(pointer: int, rows: seq<Span>, end: int, t: int)
    requires pointer <= t <= end && pointer < end
    requires !InSome(t, rows)
    ensures InSome(t, AllGaps(pointer, rows, end))
    decreases rows
  {
    if rows == [] {
      assert Span(pointer, end) in AllGaps(pointer, rows, end);
    } else {
      var r := rows[0];
      assert r in rows;
      if t <= r.start && pointer < r.start {
        assert Span(pointer, r.start) in AllGaps(pointer, rows, end);
      } else {
        assert r.end < t;
        forall s | s in rows[1..] ensures !InSpan(t, s) {
          assert s in rows;
        }
        AllGapsComplete(Max(pointer, r.end), rows[1..], end, t);
        var g :| g in AllGaps(Max(pointer, r.end), rows[1..], end) && InSpan(t, g);
        assert g in AllGaps(pointer, rows, end);
      }
    }
  }

  lemma {:induction false} AllGapsInteriors(pointer: int, rows: seq<Span>, end: int)
    requires Sorted(rows, StartsFirst)
    ensures InteriorsFree(AllGaps(pointer, rows, end), rows)
    ensures forall g :: g in AllGaps(pointer, rows, end) ==> pointer <= g.start
    decreases rows
  {
    if pointer < end && rows != [] {
      var r := rows[0];
      var later := AllGaps(Max(pointer, r.end), rows[1..], end);
      AllGapsInteriors(Max(pointer, r.end), rows[1..], end);
      forall g, s, t | g in AllGaps(pointer, rows, end) && s in rows && g.start < t < g.end
        ensures !InSpan(t, s)
      {
        if g in later {
          assert s == r || s in rows[1..];
        } else {
          var i :| 0 <= i < |rows| && rows[i] == s;
          assert StartsFirst(r, s);
        }
      }
    }
  }

  /** No gap at all: one row reaches from the pointer to the end. */
  lemma {:induction false} NoGapMeansOneRow(pointer: int, rows: seq<Span>, end: int) returns (r: Span)
    requires pointer < end && Sorted(rows, StartsFirst) && Disjoint(rows)
    requires AllGaps(pointer, rows, end) == []
    ensures r in rows && r.start <= pointer && end <= r.end
    decreases rows
  {
    r := rows[0];
    assert r in rows;
    if r.end < end {
      assert forall s :: s in rows[1..] ==> s in rows;
      var q := NoGapMeansOneRow(Max(pointer, r.end), rows[1..], end);
      var i :| 0 <= i < |rows| && rows[i] == q;
      assert StartsFirst(rows[0], rows[i]) || i == 0;
      r := q;
    }
  }

  lemma CappedWellFormed(gaps: seq<Span>, maxGaps: nat, start: int, end: int)
    requires maxGaps > 0 && WellFormed(gaps, start, end)
    ensures WellFormed(Capped(gaps, maxGaps, end), start, end)
    ensures |Capped(gaps, maxGaps, end)| <= maxGaps
  {
  }

  lemma CappedKeepsInstants(gaps: seq<Span>, maxGaps: nat, start: int, end: int, t: int)
    requires maxGaps > 0 && WellFormed(gaps, start, end)
    requires InSome(t, gaps)
    ensures InSome(t, Capped(gaps, maxGaps, end))
  {
    var g :| g in gaps && InSpan(t, g);
    var i :| 0 <= i < |gaps| && gaps[i] == g;
    var kept := Capped(gaps, maxGaps, end);
    if |gaps| > maxGaps && i >= maxGaps - 1 {
      assert gaps[maxGaps - 1].start <= gaps[i].start;
      assert kept[maxGaps - 1] in kept && InSpan(t, kept[maxGaps - 1]);
    } else {
      assert kept[i] in kept;
    }
  }

  /** What detection must return. */
  function Gaps(stored: seq<Span>, start: int, end: int, maxRanges: nat, maxGaps: nat): seq<Span>
    requires maxGaps > 0
  {
    if start >= end then []
    else Capped(AllGaps(start, Scanned(stored, start, end, maxRanges), end), maxGaps, end)
  }

  lemma ScannedRows(stored: seq<Span>, start: int, end: int, maxRanges: nat)
    requires forall s :: s in stored ==> s.start <= s.end
    ensures var rows := Scanned(stored, start, end, maxRanges);
            && Sorted(rows, StartsFirst) && Proper(rows, end)
            && forall s :: s in rows ==> s in stored && Meets(s, start, end)
  {
    MatchingRows(stored, start, end);
    var rows, all := Scanned(stored, start, end, maxRanges), Matching(stored, start, end);
    assert forall s :: s in rows ==> s in all;
  }

  /**
   The inspected rows are the first in order of their start, as many as the cap allows, of those
   whose closed span has an instant in common with the closed request.
   */
  lemma InspectedRows(stored: seq<Span>, start: int, end: int, maxRanges: nat)
    requires forall s :: s in stored ==> s.start <= s.end
    ensures var rows := Scanned(stored, start, end, maxRanges);
            && |rows| <= maxRanges
            && (forall s :: s in rows ==> s in stored && s.start <= end && start <= s.end)
            && (forall i, j :: 0 <= i < j < |rows| ==> rows[i].start <= rows[j].start)
            && (forall s, r :: s in stored && s.start <= end && start <= s.end && s !in rows && r in rows ==> r.start <= s.start)
            && (forall s :: s in stored && s.start <= end && start <= s.end && s !in rows ==> |rows| == maxRanges)
  {
    ScannedRows(stored, start, end, maxRanges);
    MatchingRows(stored, start, end);
    var rows, all := Scanned(stored, start, end, maxRanges), Matching(stored, start, end);
    forall s, r | s in stored && s.start <= end && start <= s.end && s !in rows && r in rows ensures r.start <= s.start {
      assert s in all;
      var i :| 0 <= i < |all| && all[i] == s;
      var j :| 0 <= j < |rows| && rows[j] == r;
      assert i >= |rows| && all[j] == r && StartsFirst(all[j], all[i]);
    }
  }

  /** Below the cap on gaps no inspected row reaches into a gap, whatever was left uninspected. */
  lemma GapsOfInspectedRows(stored: seq<Span>, start: int, end: int, maxRanges: nat, maxGaps: nat)
    requires maxGaps > 0 && forall s :: s in stored ==> s.start <= s.end
    requires |AllGaps(start, Scanned(stored, start, end, maxRanges), end)| <= maxGaps
    ensures InteriorsFree(Gaps(stored, start, end, maxRanges, maxGaps), Scanned(stored, start, end, maxRanges))
    ensures start < end ==>
              forall t :: start <= t <= end && !InSome(t, Scanned(stored, start, end, maxRanges)) ==>
                InSome(t, Gaps(stored, start, end, maxRanges, maxGaps))
  {
    if start < end {
      var rows := Scanned(stored, start, end, maxRanges);
      ScannedRows(stored, start, end, maxRanges);
      AllGapsInteriors(start, rows, end);
      forall t | start <= t <= end && !InSome(t, rows) ensures InSome(t, AllGaps(start, rows, end)) {
        AllGapsComplete(start, rows, end, t);
      }
    }
  }

  /**
   Detection is bounded and conservative under both caps: at most `maxGaps` ordered, disjoint,
   non-empty gaps inside the request, and every instant of the closed request that no stored
   span claims lies in one of them.
   */
  lemma GapsAreConservative(stored: seq<Span>, start: int, end: int, maxRanges: nat, maxGaps: nat)
    requires maxGaps > 0
    requires forall s :: s in stored ==> s.start <= s.end
    ensures var gaps := Gaps(stored, start, end, maxRanges, maxGaps);
            && |gaps| <= maxGaps
            && WellFormed(gaps, start, end)
            && (start < end ==> forall t :: start <= t <= end && !InSome(t, stored) ==> InSome(t, gaps))
  {
    if start < end {
      ScannedRows(stored, start, end, maxRanges);
      var rows := Scanned(stored, start, end, maxRanges);
      var all := AllGaps(start, rows, end);
      AllGapsWellFormed(start, rows, end);
      CappedWellFormed(all, maxGaps, start, end);
      forall t | start <= t <= end && !InSome(t, stored)
        ensures InSome(t, Gaps(stored, start, end, maxRanges, maxGaps))
      {
        AllGapsComplete(start, rows, end, t);
        CappedKeepsInstants(all, maxGaps, start, end, t);
      }
    }
  }

  /** When neither cap is reached, no stored span reaches into the interior of a gap. */
  lemma UncappedGapsAreFree(stored: seq<Span>, start: int, end: int, maxRanges: nat, maxGaps: nat)
    requires maxGaps > 0
    requires forall s :: s in stored ==> s.start <= s.end
    requires |Matching(stored, start, end)| <= maxRanges
    requires |AllGaps(start, Matching(stored, start, end), end)| <= maxGaps
    ensures InteriorsFree(Gaps(stored, start, end, maxRanges, maxGaps), stored)
  {
    if start < end {
      var gaps := Gaps(stored, start, end, maxRanges, maxGaps);
      var rows := Matching(stored, start, end);
      MatchingRows(stored, start, end);
      AllGapsInteriors(start, rows, end);
      ScannedRows(stored, start, end, maxRanges);
      AllGapsWellFormed(start, rows, end);
      assert gaps == AllGaps(start, rows, end);
      forall g, s, t | g in gaps && s in stored && g.start < t < g.end
        ensures !InSpan(t, s)
      {
        if Meets(s, start, end) {
          assert s in rows;
        }
      }
    }
  }

  ghost predicate OneSpanHolds(stored: seq<Span>, start: int, end: int) {
    exists r :: r in stored && r.start <= start && end <= r.end
  }

  /** Under any caps the answer is empty exactly when one stored span holds the whole request. */
  lemma EmptyIffCovered(stored: seq<Span>, start: int, end: int, maxRanges: nat, maxGaps: nat)
    requires maxRanges > 0 && maxGaps > 0 && start < end && Disjoint(stored)
    ensures Gaps(stored, start, end, maxRanges, maxGaps) == [] <==> OneSpanHolds(stored, start, end)
  {
    ScannedRows(stored, start, end, maxRanges);
    var rows := Scanned(stored, start, end, maxRanges);
    if AllGaps(start, rows, end) == [] {
      var r := NoGapMeansOneRow(start, rows, end);
    }
    if OneSpanHolds(stored, start, end) {
      var r :| r in stored && r.start <= start && end <= r.end;
      MatchingRows(stored, start, end);
      assert r in Matching(stored, start, end);
      assert |rows| > 0 && rows[0] in rows;
      assert rows[0] in stored && Meets(rows[0], start, end);
      assert rows[0] == r;
      assert AllGaps(start, rows, end) == AllGaps(Max(start, r.end), rows[1..], end);
    }
  }

  /** A gap found when the list is full only widens the last one kept. */
  lemma CappedPrefix(gaps: seq<Span>, gap: Span, later: seq<Span>, maxGaps: nat, end: int)
    requires 0 < maxGaps && |gaps| <= maxGaps
    ensures |gaps| == maxGaps ==>
              Capped(gaps + [gap] + later, maxGaps, end) ==
              gaps[..maxGaps - 1] + [Span(gaps[maxGaps - 1].start, end)]
    ensures |gaps| < maxGaps && later == [] ==> Capped(gaps + [gap] + later, maxGaps, end) == gaps + [gap]
  {
    var all := gaps + [gap] + later;
    if |gaps| == maxGaps {
      assert all[..maxGaps - 1] == gaps[..maxGaps - 1];
      assert all[maxGaps - 1] == gaps[maxGaps - 1];
    }
  }

  datatype DetectionError = NonPositiveCap

  /** Adds a gap, or at the hard cap widens the last one; `later` are gaps not yet seen. */
  method AppendGap(gaps: seq<Span>, gap: Span, maxGaps: nat, end: int, ghost later: seq<Span>)
    returns (kept: seq<Span>, full: bool)
    requires 0 < maxGaps && |gaps| <= maxGaps
    ensures full <==> |gaps| == maxGaps
    ensures full ==> kept == Capped(gaps + ([gap] + later), maxGaps, end)
    ensures !full ==> kept == gaps + [gap] && kept + later == gaps + ([gap] + later)
  {
    assert gaps + [gap] + later == gaps + ([gap] + later);
    CappedPrefix(gaps, gap, later, maxGaps, end);
    full := |gaps| == maxGaps;
    kept := if full then gaps[..maxGaps - 1] + [Span(gaps[maxGaps - 1].start, end)] else gaps + [gap];
  }

  /** Walks the inspected rows with a pointer, keeping at most `maxGaps` gaps. */
  method Scan(rows: seq<Span>, start: int, end: int, maxGaps: nat) returns (gaps: seq<Span>)
    requires start < end && maxGaps > 0
    ensures gaps == Capped(AllGaps(start, rows, end), maxGaps, end)
  {
    hide AllGaps, Capped;
    ghost var all := AllGaps(start, rows, end);
    var pointer, full := start, false;
    gaps := [];
    for i := 0 to |rows|
      invariant pointer < end && |gaps| <= maxGaps
      invariant all == gaps + AllGaps(pointer, rows[i..], end)
    {
      var row := rows[i];
      AllGapsStep(pointer, rows[i..], end);
      assert rows[i..][1..] == rows[i + 1..];
      if pointer < row.start {
        gaps, full := AppendGap(gaps, Span(pointer, row.start), maxGaps, end,
                                AllGaps(Max(pointer, row.end), rows[i + 1..], end));
        if full {
          return;
        }
      }
      pointer := Max(pointer, row.end);
      if pointer >= end {
        AllGapsAfter(pointer, rows[i + 1..], end);
        UncappedList(gaps, maxGaps, end);
        assert gaps + [] == gaps;
        return;
      }
    }
    AllGapsLast(pointer, end);
    assert [Span(pointer, end)] + [] == AllGaps(pointer, [], end) && rows[|rows|..] == [];
    gaps, full := AppendGap(gaps, Span(pointer, end), maxGaps, end, []);
    assert gaps + [] == gaps;
    if !full {
      UncappedList(gaps, maxGaps, end);
    }
  }

  lemma AllGapsAfter(pointer: int, rows: seq<Span>, end: int)
    requires pointer >= end
    ensures AllGaps(pointer, rows, end) == []
  {
  }

  lemma AllGapsLast(pointer: int, end: int)
    requires pointer < end
    ensures AllGaps(pointer, [], end) == [Span(pointer, end)]
  {
  }

  lemma UncappedList(gaps: seq<Span>, maxGaps: nat, end: int)
    requires 0 < maxGaps && |gaps| <= maxGaps
    ensures Capped(gaps, maxGaps, end) == gaps
  {
  }

  lemma AllGapsStep(pointer: int, rows: seq<Span>, end: int)
    requires pointer < end && rows != []
    ensures var later := AllGaps(Max(pointer, rows[0].end), rows[1..], end);
            AllGaps(pointer, rows, end) ==
            if pointer < rows[0].start then [Span(pointer, rows[0].start)] + later else later
  {
  }

  /** The service's detection: caps checked, rows queried and capped, then one scan. */
  method DetectMissingRanges(stored: seq<Span>, start: int, end: int, maxRanges: int, maxGaps: int)
    returns (r: Result<seq<Span>, DetectionError>)
    requires forall s :: s in stored ==> s.start <= s.end
    ensures r.Err? <==> maxRanges <= 0 || maxGaps <= 0
    ensures r.Ok? ==> r.value == Gaps(stored, start, end, maxRanges, maxGaps)
    ensures r.Ok? ==> |r.value| <= maxGaps && WellFormed(r.value, start, end)
    ensures r.Ok? && start < end ==>
              forall t :: start <= t <= end && !InSome(t, stored) ==> InSome(t, r.value)
  {
    if maxRanges <= 0 || maxGaps <= 0 {
      return Err(NonPositiveCap);
    }
    GapsAreConservative(stored, start, end, maxRanges, maxGaps);
    if start >= end {
      return Ok([]);
    }
    var rows := Matching(stored, start, end);
    if |rows| > maxRanges {
      rows := rows[..maxRanges];
    }
    var gaps := Scan(rows, start, end, maxGaps);
    return Ok(gaps);
  }
}
