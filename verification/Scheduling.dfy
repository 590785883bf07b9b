/**
 Durable work windows.  A scheduler creates jobs only for the parts of a proposed window that
 no active job already holds.  Windows are half-open: they include `start` and exclude `end`.
 */
module Scheduling {
  import opened Arithmetic
  import opened Sorting

  datatype Window = Window(start: int, end: int)

  predicate Holds(w: Window, t: int) { w.start <= t < w.end }

  ghost predicate SomeHolds(ws: seq<Window>, t: int) {
    exists w :: w in ws && Holds(w, t)
  }

  predicate Overlaps(w: Window, start: int, end: int) { w.start < end && w.end > start }

  function Clip(w: Window, start: int, end: int): Window {
    Window(Max(start, w.start), Min(end, w.end))
  }

  /** The order of pairs of instants. */
  predicate PairOrder(a: Window, b: Window) {
    a.start < b.start || (a.start == b.start && a.end <= b.end)
  }

  /** Existing windows that overlap the proposal, clipped to it. */
  function Clipped(start: int, end: int, existing: seq<Window>): seq<Window> {
    if existing == [] then []
    else (if Overlaps(existing[0], start, end) then [Clip(existing[0], start, end)] else [])
         + Clipped(start, end, existing[1..])
  }

  /** What ordered intervals leave free between the cursor and the end. */
  function FreeParts(cursor: int, intervals: seq<Window>, end: int): seq<Window>
    decreases intervals
  {
    if intervals == [] then
      if cursor < end then [Window(cursor, end)] else []
    else
      var w := intervals[0];
      if w.end <= cursor then FreeParts(cursor, intervals[1..], end)
      else
        var later := if w.end >= end then [] else FreeParts(w.end, intervals[1..], end);
        if w.start > cursor then [Window(cursor, w.start)] + later else later
  }

  lemma SomeHoldsCons(w: Window, ws: seq<Window>, t: int)
    ensures SomeHolds([w] + ws, t) <==> Holds(w, t) || SomeHolds(ws, t)
  {
    assert forall v :: v in [w] + ws <==> v == w || v in ws;
  }

  /** Intervals as the scheduler sees them: ordered, non-empty and inside the proposal. */
  ghost predicate Usable(intervals: seq<Window>, end: int) {
    && Sorted(intervals, PairOrder)
    && forall w :: w in intervals ==> w.start < w.end <= end
  }

  /** Free parts are non-empty, in order and never adjacent. */
  ghost predicate Parts(ws: seq<Window>, start: int, end: int) {
    && (forall i :: 0 <= i < |ws| ==> start <= ws[i].start < ws[i].end <= end)
    && (forall i, j :: 0 <= i < j < |ws| ==> ws[i].end < ws[j].start)
  }

  lemma {:induction false} FreePartsShape(cursor: int, intervals: seq<Window>, end: int)
    requires Usable(intervals, end)
    ensures Parts(FreeParts(cursor, intervals, end), cursor, end)
    decreases intervals
  {
    if intervals != [] {
      var w := intervals[0];
      assert w in intervals;
      FreePartsShape(Max(cursor, w.end), intervals[1..], end);
    }
  }

  /** Exactly the instants no interval holds are free. */
  lemma {:induction false} FreePartsExact(cursor: int, intervals: seq<Window>, end: int, t: int)
    requires Usable(intervals, end)
    ensures SomeHolds(FreeParts(cursor, intervals, end), t) <==> cursor <= t < end && !SomeHolds(intervals, t)
    decreases intervals
  {
    if intervals == [] {
      SomeHoldsCons(Window(cursor, end), [], t);
    } else {
      var w, rest := intervals[0], intervals[1..];
      assert intervals == [w] + rest && w in intervals;
      SomeHoldsCons(w, rest, t);
      forall v | v in rest ensures w.start <= v.start {
        var i :| 0 <= i < |rest| && rest[i] == v;
        assert PairOrder(intervals[0], intervals[i + 1]);
      }
      var next := Max(cursor, w.end);
      FreePartsExact(next, rest, end, t);
      if w.end > cursor {
        var later := if w.end >= end then [] else FreeParts(w.end, rest, end);
        assert SomeHolds(later, t) <==> w.end <= t < end && !SomeHolds(rest, t);
        if w.start > cursor {
          SomeHoldsCons(Window(cursor, w.start), later, t);
        }
      }
    }
  }

  /** The intervals an existing table contributes to a proposal. */
  function Intervals(start: int, end: int, existing: seq<Window>): seq<Window> {
    Sort(Clipped(start, end, existing), PairOrder)
  }

  /** The parts of the proposal that no existing window holds. */
  function Uncovered(start: int, end: int, existing: seq<Window>): seq<Window> {
    FreeParts(start, Intervals(start, end, existing), end)
  }

  lemma {:induction false} ClippedWindows(start: int, end: int, existing: seq<Window>, t: int)
    requires start < end && forall w :: w in existing ==> w.start < w.end
    ensures forall w :: w in Clipped(start, end, existing) ==> start <= w.start < w.end <= end
    ensures SomeHolds(Clipped(start, end, existing), t) <==> start <= t < end && SomeHolds(existing, t)
  {
    if existing != [] {
      var w, rest := existing[0], existing[1..];
      assert existing == [w] + rest && w in existing;
      SomeHoldsCons(w, rest, t);
      ClippedWindows(start, end, rest, t);
      if Overlaps(w, start, end) {
        SomeHoldsCons(Clip(w, start, end), Clipped(start, end, rest), t);
      } else {
        assert Clipped(start, end, existing) == Clipped(start, end, rest);
      }
    }
  }

  lemma IntervalsUsable(start: int, end: int, existing: seq<Window>, t: int)
    requires start < end && forall w :: w in existing ==> w.start < w.end
    ensures Usable(Intervals(start, end, existing), end)
    ensures SomeHolds(Intervals(start, end, existing), t) <==> start <= t < end && SomeHolds(existing, t)
  {
    var clipped := Clipped(start, end, existing);
    ClippedWindows(start, end, existing, t);
    assert TotalPreorder(PairOrder);
    SortSorted(clipped, PairOrder);
    forall w ensures w in Intervals(start, end, existing) <==> w in clipped {
      SortElements(clipped, PairOrder, w);
    }
  }

  /**
   The free parts are the exact ordered complement: in order, non-empty, never adjacent, and
   an instant of the proposal is in one of them exactly when no existing window holds it.
   */
  lemma UncoveredIsComplement(start: int, end: int, existing: seq<Window>)
    requires start < end && forall w :: w in existing ==> w.start < w.end
    ensures Parts(Uncovered(start, end, existing), start, end)
    ensures forall t :: SomeHolds(Uncovered(start, end, existing), t) <==>
                        start <= t < end && !SomeHolds(existing, t)
  {
    IntervalsUsable(start, end, existing, start);
    FreePartsShape(start, Intervals(start, end, existing), end);
    forall t ensures SomeHolds(Uncovered(start, end, existing), t) <==>
                     start <= t < end && !SomeHolds(existing, t)
    {
      IntervalsUsable(start, end, existing, t);
      FreePartsExact(start, Intervals(start, end, existing), end, t);
    }
  }

  /** The scheduler's cursor walk. */
  method UncoveredIntervals(start: int, end: int, existing: seq<Window>) returns (uncovered: seq<Window>)
    requires start < end && forall w :: w in existing ==> w.start < w.end
    ensures uncovered == Uncovered(start, end, existing)
    ensures Parts(uncovered, start, end)
    ensures forall t :: SomeHolds(uncovered, t) <==> start <= t < end && !SomeHolds(existing, t)
  {
    UncoveredIsComplement(start, end, existing);
    var intervals := Intervals(start, end, existing);
    uncovered := WalkIntervals(start, intervals, end);
  }

  method WalkIntervals(start: int, intervals: seq<Window>, end: int) returns (uncovered: seq<Window>)
    requires start < end
    ensures uncovered == FreeParts(start, intervals, end)
  {
    uncovered := [];
    var cursor := start;
    for i := 0 to |intervals|
      invariant cursor < end
      invariant FreeParts(start, intervals, end) == uncovered + FreeParts(cursor, intervals[i..], end)
    {
      var w := intervals[i];
      assert intervals[i..][0] == w && intervals[i..][1..] == intervals[i + 1..];
      if w.end <= cursor {
        continue;
      }
      ghost var later := if w.end >= end then [] else FreeParts(w.end, intervals[i + 1..], end);
      if w.start > cursor {
        assert uncovered + ([Window(cursor, w.start)] + later) == uncovered + [Window(cursor, w.start)] + later;
        uncovered := uncovered + [Window(cursor, w.start)];
      }
      cursor := Max(cursor, w.end);
      if cursor >= end {
        return;
      }
    }
    assert intervals[|intervals|..] == [];
    if cursor < end {
      uncovered := uncovered + [Window(cursor, end)];
    }
  }

  // ---- Job tables -------------------------------------------------------------------------

  /** A job row: active jobs are those whose status still reserves their window. */
  datatype Job = Job(window: Window, active: bool)

  predicate Apart(v: Window, w: Window) { v.end <= w.start || w.end <= v.start }

  lemma ApartIffDisjoint(v: Window, w: Window)
    requires v.start < v.end && w.start < w.end
    ensures Apart(v, w) <==> forall t :: Holds(v, t) ==> !Holds(w, t)
  {
    if !Apart(v, w) {
      assert Holds(v, Max(v.start, w.start)) && Holds(w, Max(v.start, w.start));
    }
  }

  ghost predicate ValidTable(jobs: seq<Job>) {
    && (forall i :: 0 <= i < |jobs| ==> jobs[i].window.start < jobs[i].window.end)
    && forall i, j :: 0 <= i < j < |jobs| && jobs[i].active && jobs[j].active ==>
                      Apart(jobs[i].window, jobs[j].window)
  }

  /** Windows of the active jobs that overlap a proposal. */
  function ActiveOverlaps(jobs: seq<Job>, start: int, end: int): seq<Window> {
    if jobs == [] then []
    else (if jobs[0].active && Overlaps(jobs[0].window, start, end) then [jobs[0].window] else [])
         + ActiveOverlaps(jobs[1..], start, end)
  }

  function NewJobs(windows: seq<Window>): (jobs: seq<Job>)
    ensures |jobs| == |windows|
    ensures forall i :: 0 <= i < |jobs| ==> jobs[i] == Job(windows[i], true)
  {
    seq(|windows|, i requires 0 <= i < |windows| => Job(windows[i], true))
  }

  /**
   Scheduling: `cap` bounds how many overlapping active jobs are examined (`-1` for no bound);
   beyond it nothing is scheduled.
   */
  function Schedule(jobs: seq<Job>, start: int, end: int, cap: int): seq<Job> {
    var active := ActiveOverlaps(jobs, start, end);
    if start >= end || (cap >= 0 && |active| > cap) then jobs
    else jobs + NewJobs(Uncovered(start, end, active))
  }

  /** A job leaves the active statuses when it completes or fails for good. */
  function Retire(jobs: seq<Job>, i: nat): seq<Job> {
    if i < |jobs| then jobs[i := jobs[i].(active := false)] else jobs
  }

  lemma {:induction false} ActiveOverlapsExact(jobs: seq<Job>, start: int, end: int)
    ensures forall w :: w in ActiveOverlaps(jobs, start, end) <==>
              exists i :: 0 <= i < |jobs| && jobs[i].active && jobs[i].window == w && Overlaps(w, start, end)
  {
    if jobs != [] {
      ActiveOverlapsExact(jobs[1..], start, end);
      forall w ensures w in ActiveOverlaps(jobs, start, end) <==>
        exists i :: 0 <= i < |jobs| && jobs[i].active && jobs[i].window == w && Overlaps(w, start, end)
      {
        if i :| 0 <= i < |jobs| && jobs[i].active && jobs[i].window == w && Overlaps(w, start, end) {
          if i > 0 {
            assert jobs[1..][i - 1] == jobs[i];
          }
        }
        if w in ActiveOverlaps(jobs[1..], start, end) {
          var i :| 0 <= i < |jobs[1..]| && jobs[1..][i].active && jobs[1..][i].window == w && Overlaps(w, start, end);
          assert jobs[i + 1] == jobs[1..][i];
        }
      }
    }
  }

  /** Row `i` is active and its window holds `t`. */
  predicate ActiveAt(jobs: seq<Job>, i: int, t: int) {
    0 <= i < |jobs| && jobs[i].active && Holds(jobs[i].window, t)
  }

  ghost predicate ActiveSomewhere(jobs: seq<Job>, t: int) {
    exists i :: ActiveAt(jobs, i, t)
  }

  lemma ActiveOverlapsHold(jobs: seq<Job>, start: int, end: int, t: int)
    requires start <= t < end
    ensures SomeHolds(ActiveOverlaps(jobs, start, end), t) <==> ActiveSomewhere(jobs, t)
  {
    ActiveOverlapsExact(jobs, start, end);
    if i: int :| ActiveAt(jobs, i, t) {
      assert jobs[i].window in ActiveOverlaps(jobs, start, end);
    }
    if SomeHolds(ActiveOverlaps(jobs, start, end), t) {
      var w :| w in ActiveOverlaps(jobs, start, end) && Holds(w, t);
      var i :| 0 <= i < |jobs| && jobs[i].active && jobs[i].window == w;
      assert ActiveAt(jobs, i, t);
    }
  }

  lemma ScheduledParts(jobs: seq<Job>, start: int, end: int)
    requires ValidTable(jobs) && start < end
    ensures var parts := Uncovered(start, end, ActiveOverlaps(jobs, start, end));
            && Parts(parts, start, end)
            && forall t :: SomeHolds(parts, t) <==> start <= t < end && !ActiveSomewhere(jobs, t)
  {
    var active := ActiveOverlaps(jobs, start, end);
    ActiveOverlapsExact(jobs, start, end);
    UncoveredIsComplement(start, end, active);
    forall t ensures SomeHolds(Uncovered(start, end, active), t) <==>
                     start <= t < end && !ActiveSomewhere(jobs, t)
    {
      if start <= t < end {
        ActiveOverlapsHold(jobs, start, end, t);
      }
    }
  }

  lemma ScheduleKeepsValid(jobs: seq<Job>, start: int, end: int, cap: int)
    requires ValidTable(jobs)
    ensures ValidTable(Schedule(jobs, start, end, cap))
  {
    var after := Schedule(jobs, start, end, cap);
    if after != jobs {
      var parts := Uncovered(start, end, ActiveOverlaps(jobs, start, end));
      ScheduledParts(jobs, start, end);
      forall i, j | 0 <= i < j < |after| && after[i].active && after[j].active
        ensures Apart(after[i].window, after[j].window)
      {
        if i < |jobs| <= j {
          var part := parts[j - |jobs|];
          forall t | Holds(jobs[i].window, t) ensures !Holds(part, t) {
            assert ActiveAt(jobs, i, t) && part in parts;
            assert !SomeHolds(parts, t);
          }
          ApartIffDisjoint(jobs[i].window, part);
        }
      }
    }
  }

  /** Exactly one active row's window holds `t`. */
  ghost predicate ActiveOnce(jobs: seq<Job>, t: int) {
    ActiveSomewhere(jobs, t) && forall i, j :: ActiveAt(jobs, i, t) && ActiveAt(jobs, j, t) ==> j == i
  }

  /** After an uncapped schedule each instant of the window is in exactly one active job. */
  lemma ScheduledOnce(jobs: seq<Job>, start: int, end: int, t: int)
    requires ValidTable(jobs) && start <= t < end
    ensures ActiveOnce(Schedule(jobs, start, end, -1), t)
  {
    var after := Schedule(jobs, start, end, -1);
    ScheduleKeepsValid(jobs, start, end, -1);
    ScheduledParts(jobs, start, end);
    var parts := Uncovered(start, end, ActiveOverlaps(jobs, start, end));
    if ActiveSomewhere(jobs, t) {
      var k :| ActiveAt(jobs, k, t);
      assert ActiveAt(after, k, t);
    } else {
      assert SomeHolds(parts, t);
      var w :| w in parts && Holds(w, t);
      var k :| 0 <= k < |parts| && parts[k] == w;
      assert ActiveAt(after, |jobs| + k, t);
    }
  }

  datatype Event = Propose(start: int, end: int) | Finish(index: nat)

  function Run(jobs: seq<Job>, events: seq<Event>, cap: int): seq<Job> {
    if events == [] then jobs
    else
      var before := Run(jobs, events[..|events| - 1], cap);
      match events[|events| - 1]
      case Propose(start, end) => Schedule(before, start, end, cap)
      case Finish(index) => Retire(before, index)
  }

  /** Over all runs of proposals and retirements active windows stay pairwise disjoint. */
  lemma {:induction false} ActiveWindowsStayDisjoint(events: seq<Event>, cap: int)
    ensures ValidTable(Run([], events, cap))
  {
    if events != [] {
      var before := events[..|events| - 1];
      ActiveWindowsStayDisjoint(before, cap);
      match events[|events| - 1]
      case Propose(start, end) => ScheduleKeepsValid(Run([], before, cap), start, end, cap);
      case Finish(_) =>
    }
  }

  /** One scheduler's table. */
  class WindowTable {
    var jobs: seq<Job>
    const cap: int

    ghost predicate Valid()
      reads this
    {
      ValidTable(jobs)
    }

    constructor (cap: int)
      ensures Valid() && jobs == [] && this.cap == cap
    {
      this.cap := cap;
      jobs := [];
    }

    /** Adds a pending job per uncovered part and returns the created rows, or one existing one. */
    method ScheduleWindow(start: int, end: int) returns (reported: seq<Window>)
      requires Valid()
      modifies this
      ensures Valid()
      ensures jobs == Schedule(old(jobs), start, end, cap)
      ensures cap < 0 ==> forall t :: start <= t < end ==> ActiveSomewhere(jobs, t)
      ensures cap < 0 && start < end ==> |reported| > 0
    {
      ScheduleKeepsValid(jobs, start, end, cap);
      if start >= end {
        return [];
      }
      var active := ActiveOverlaps(jobs, start, end);
      if cap >= 0 && |active| > cap {
        return active[..1];
      }
      ActiveOverlapsExact(jobs, start, end);
      var uncovered := UncoveredIntervals(start, end, active);
      ghost var before := jobs;
      jobs := jobs + NewJobs(uncovered);
      forall t | start <= t < end ensures ActiveSomewhere(Schedule(before, start, end, -1), t) {
        ScheduledOnce(before, start, end, t);
      }
      assert cap < 0 ==> jobs == Schedule(before, start, end, -1);
      assert SomeHolds(uncovered, start) || SomeHolds(active, start);
      reported := if uncovered != [] then uncovered else active[..1];
    }

    method Finish(index: nat)
      requires Valid()
      modifies this
      ensures Valid()
      ensures jobs == Retire(old(jobs), index)
    {
      if index < |jobs| {
        jobs := jobs[index := jobs[index].(active := false)];
      }
    }
  }
}
