/**
 The coverage index of one asset: a table of closed minute ranges that asserts which
 one-minute candles are present in canonical raw storage.

 A minute is its index since the epoch.  `raw` is the set of minutes present in raw
 storage; `ranges` is the content of the range table.
 */
module Coverage {

  /** A row of the range table: every minute from `start` to `end`, both included. */
  datatype Range = Range(start: int, end: int)

  function Minutes(start: int, end: int): (s: set<int>)
    ensures forall m :: m in s <==> start <= m <= end
    decreases end - start
  {
    if start > end then {} else Minutes(start, end - 1) + {end}
  }

  ghost predicate Filled(raw: set<int>, start: int, end: int) {
    forall m :: start <= m <= end ==> m in raw
  }

  ghost predicate MaximalRun(raw: set<int>, start: int, end: int) {
    && start <= end
    && Filled(raw, start, end)
    && start - 1 !in raw
    && end + 1 !in raw
  }

  /** The table is the maximal-run decomposition of `raw`: no run missing, none invented. */
  ghost predicate Exact(ranges: set<Range>, raw: set<int>) {
    forall start, end :: Range(start, end) in ranges <==> MaximalRun(raw, start, end)
  }

  ghost predicate Sound(ranges: set<Range>, raw: set<int>) {
    forall r :: r in ranges ==> r.start <= r.end && Filled(raw, r.start, r.end)
  }

  /** Any two rows are more than one minute apart. */
  ghost predicate Separated(ranges: set<Range>) {
    forall r, q :: r in ranges && q in ranges && r != q ==> r.end + 1 < q.start || q.end + 1 < r.start
  }

  ghost predicate Covered(ranges: set<Range>, m: int) {
    exists r :: r in ranges && r.start <= m <= r.end
  }

  ghost predicate Covers(ranges: set<Range>, minutes: set<int>) {
    forall m :: m in minutes ==> Covered(ranges, m)
  }

  // ---- Counting proves completeness ------------------------------------------------

  lemma SomeMember(s: set<int>)
    requires s != {}
    ensures exists x :: x in s
  {
    assert (forall x :: x !in s) ==> s == {};
  }

  lemma {:induction false} MinutesSize(start: int, end: int)
    requires start <= end + 1
    ensures |Minutes(start, end)| == end - start + 1
    decreases end - start
  {
    if start <= end {
      MinutesSize(start, end - 1);
    }
  }

  lemma {:induction false} SubsetSize(small: set<int>, big: set<int>)
    requires small <= big
    ensures |small| <= |big|
    ensures |small| == |big| ==> small == big
    decreases |big|
  {
    if small != {} {
      SomeMember(small);
      var x :| x in small;
      SubsetSize(small - {x}, big - {x});
      assert small == small - {x} + {x} && big == big - {x} + {x};
    }
  }

  function Within(raw: set<int>, start: int, end: int): (s: set<int>)
    ensures s <= raw
  {
    set m | m in raw && start <= m <= end
  }

  /** A row count equal to the length of the interval leaves no minute out. */
  lemma CountIsProof(raw: set<int>, start: int, end: int)
    requires start <= end
    ensures |Within(raw, start, end)| <= end - start + 1
    ensures |Within(raw, start, end)| == end - start + 1 <==> Filled(raw, start, end)
  {
    var rows := Within(raw, start, end);
    MinutesSize(start, end);
    SubsetSize(rows, Minutes(start, end));
    if Filled(raw, start, end) {
      assert rows == Minutes(start, end);
    }
  }

  lemma {:induction false} MinExists(s: set<int>)
    requires s != {}
    ensures exists x :: x in s && forall y :: y in s ==> x <= y
    decreases |s|
  {
    SomeMember(s);
    var z :| z in s;
    var others := s - {z};
    if others == {} {
      assert s == {z};
      assert forall y :: y in s ==> y == z;
    } else {
      MinExists(others);
      var x :| x in others && forall y :: y in others ==> x <= y;
      var least := if x < z then x else z;
      assert forall y :: y in s ==> y == z || y in others;
      assert least in s && forall y :: y in s ==> least <= y;
    }
  }

  lemma {:induction false} MaxExists(s: set<int>)
    requires s != {}
    ensures exists x :: x in s && forall y :: y in s ==> y <= x
    decreases |s|
  {
    SomeMember(s);
    var z :| z in s;
    var others := s - {z};
    if others == {} {
      assert s == {z};
      assert forall y :: y in s ==> y == z;
    } else {
      MaxExists(others);
      var x :| x in others && forall y :: y in others ==> y <= x;
      var most := if x > z then x else z;
      assert forall y :: y in s ==> y == z || y in others;
      assert most in s && forall y :: y in s ==> y <= most;
    }
  }

  function MinOf(s: set<int>): (x: int)
    requires s != {}
    ensures x in s && forall y :: y in s ==> x <= y
  {
    MinExists(s);
    var x :| x in s && forall y :: y in s ==> x <= y;
    x
  }

  function MaxOf(s: set<int>): (x: int)
    requires s != {}
    ensures x in s && forall y :: y in s ==> y <= x
  {
    MaxExists(s);
    var x :| x in s && forall y :: y in s ==> y <= x;
    x
  }

  /** The aggregate proof shared by the service and the table trigger: count, min and max. */
  predicate CoverageProof(raw: set<int>, start: int, end: int) {
    var rows := Within(raw, start, end);
    && |rows| == end - start + 1
    && rows != {}
    && MinOf(rows) == start
    && MaxOf(rows) == end
  }

  lemma CoverageProofIsComplete(raw: set<int>, start: int, end: int)
    ensures CoverageProof(raw, start, end) <==> start <= end && Filled(raw, start, end)
  {
    var rows := Within(raw, start, end);
    if start <= end {
      CountIsProof(raw, start, end);
      if Filled(raw, start, end) {
        assert start in rows && end in rows;
      }
    } else {
      assert rows == {};
    }
  }

  // ---- Contiguous blocks of an ordered batch ------------------------------------------

  predicate Increasing(ts: seq<int>) {
    forall i, j :: 0 <= i < j < |ts| ==> ts[i] < ts[j]
  }

  /** Blocks of an ordered, non-empty list of minutes. */
  function Blocks(ts: seq<int>): (bs: seq<Range>)
    requires |ts| > 0
    ensures |bs| > 0
  {
    var last := ts[|ts| - 1];
    if |ts| == 1 then [Range(last, last)]
    else
      var bs := Blocks(ts[..|ts| - 1]);
      if last - ts[|ts| - 2] == 1 then bs[..|bs| - 1] + [Range(bs[|bs| - 1].start, last)]
      else bs + [Range(last, last)]
  }

  function Elements<T(!new)>(s: seq<T>): (r: set<T>)
    ensures forall x :: x in r <==> x in s
  {
    set x | x in s
  }

  /** Blocks are in order, non-empty and more than one minute apart. */
  lemma {:induction false} BlocksShape(ts: seq<int>)
    requires |ts| > 0 && Increasing(ts)
    ensures var bs := Blocks(ts);
            && bs[|bs| - 1].end == ts[|ts| - 1]
            && (forall i :: 0 <= i < |bs| ==> bs[i].start <= bs[i].end)
            && (forall i, j :: 0 <= i < j < |bs| ==> bs[i].end + 1 < bs[j].start)
  {
    if |ts| > 1 {
      var before, last := ts[..|ts| - 1], ts[|ts| - 1];
      BlocksShape(before);
      var bs := Blocks(before);
      var b := bs[|bs| - 1];
      assert b.end == ts[|ts| - 2] < last;
      assert Blocks(ts) == if last - b.end == 1 then bs[..|bs| - 1] + [Range(b.start, last)] else bs + [Range(last, last)];
      hide Blocks, Increasing;
      if last - b.end == 1 {
        SpacedSnoc(bs[..|bs| - 1], Range(b.start, last));
      } else {
        SpacedSnoc(bs, Range(last, last));
      }
    }
  }

  lemma SpacedSnoc(bs: seq<Range>, r: Range)
    requires forall i :: 0 <= i < |bs| ==> bs[i].start <= bs[i].end
    requires forall i, j :: 0 <= i < j < |bs| ==> bs[i].end + 1 < bs[j].start
    requires r.start <= r.end && (bs != [] ==> bs[|bs| - 1].end + 1 < r.start)
    ensures var all := bs + [r];
            && (forall i :: 0 <= i < |all| ==> all[i].start <= all[i].end)
            && (forall i, j :: 0 <= i < j < |all| ==> all[i].end + 1 < all[j].start)
  {
    forall i | 0 <= i < |bs| ensures bs[i].end + 1 < r.start {
      assert i < |bs| - 1 ==> bs[i].end + 1 < bs[|bs| - 1].start;
    }
  }

  lemma {:induction false} BlocksElements(ts: seq<int>, m: int)
    requires |ts| > 0 && Increasing(ts)
    ensures m in ts <==> Covered(Elements(Blocks(ts)), m)
  {
    var n := |ts| - 1;
    var last := ts[n];
    var cs := Blocks(ts);
    if n == 0 {
      assert cs[0] == Range(last, last) && ts[0] == last;
      assert Elements(cs) == {Range(last, last)};
    } else {
      var before := ts[..n];
      assert ts == before + [last];
      BlocksElements(before, m);
      BlocksShape(before);
      var bs := Blocks(before);
      var b := bs[|bs| - 1];
      if last - ts[n - 1] == 1 {
        assert bs == bs[..|bs| - 1] + [b];
        LastBlockCovers(bs[..|bs| - 1], b, m);
        LastBlockCovers(bs[..|bs| - 1], Range(b.start, last), m);
      } else {
        LastBlockCovers(bs, Range(last, last), m);
      }
    }
  }

  lemma LastBlockCovers(bs: seq<Range>, last: Range, m: int)
    ensures Covered(Elements(bs + [last]), m) <==> Covered(Elements(bs), m) || last.start <= m <= last.end
  {
    assert forall b :: b in Elements(bs + [last]) <==> b in Elements(bs) || b == last;
  }

  /** The blocks of a batch are the maximal runs of its minutes. */
  lemma BlocksAreMaximalRuns(ts: seq<int>)
    requires |ts| > 0 && Increasing(ts)
    ensures Exact(Elements(Blocks(ts)), Elements(ts))
  {
    var table, minutes := Elements(Blocks(ts)), Elements(ts);
    forall m ensures m in minutes <==> Covered(table, m) {
      BlocksElements(ts, m);
    }
    BlocksShape(ts);
    hide Blocks, Increasing, MaximalRun;
    RowsOfBlocks(Blocks(ts), minutes);
    SoundSeparatedCoversIsExact(table, minutes);
  }

  lemma RowsOfBlocks(blocks: seq<Range>, minutes: set<int>)
    requires forall i :: 0 <= i < |blocks| ==> blocks[i].start <= blocks[i].end
    requires forall i, j :: 0 <= i < j < |blocks| ==> blocks[i].end + 1 < blocks[j].start
    requires forall m :: m in minutes <==> Covered(Elements(blocks), m)
    ensures Sound(Elements(blocks), minutes) && Separated(Elements(blocks)) && Covers(Elements(blocks), minutes)
  {
    forall r | r in Elements(blocks) ensures r.start <= r.end && Filled(minutes, r.start, r.end) {
      var i :| 0 <= i < |blocks| && blocks[i] == r;
      forall m | r.start <= m <= r.end ensures m in minutes {
        assert Covered(Elements(blocks), m);
      }
    }
  }

  /** Ordered batch to blocks, rejecting a timestamp that does not increase. */
  method ContiguousBlocks(ts: seq<int>) returns (ok: bool, blocks: seq<Range>)
    ensures ok <==> Increasing(ts)
    ensures ok ==> blocks == if ts == [] then [] else Blocks(ts)
    ensures ok && ts != [] ==> Exact(Elements(blocks), Elements(ts))
  {
    hide Exact, Elements;
    blocks := [];
    if ts == [] {
      return true, [];
    }
    var blockStart, previous := ts[0], ts[0];
    for i := 1 to |ts|
      invariant Increasing(ts[..i])
      invariant previous == ts[i - 1]
      invariant blocks + [Range(blockStart, previous)] == Blocks(ts[..i])
    {
      var current := ts[i];
      if current <= previous {
        assert !(ts[i - 1] < ts[i]);
        return false, [];
      }
      assert ts[..i + 1][..i] == ts[..i];
      if current - previous != 1 {
        blocks := blocks + [Range(blockStart, previous)];
        blockStart := current;
      }
      previous := current;
    }
    assert ts[..|ts|] == ts;
    blocks := blocks + [Range(blockStart, previous)];
    BlocksAreMaximalRuns(ts);
    ok := true;
  }

  // ---- Merging a verified interval into the table ----------------------------------------

  /** Rows within one minute of the interval. */
  function Touching(ranges: set<Range>, start: int, end: int): (s: set<Range>)
    ensures s <= ranges
  {
    set r | r in ranges && r.start <= end + 1 && r.end >= start - 1
  }

  function Starts(rows: set<Range>): set<int> { set r | r in rows :: r.start }

  function Ends(rows: set<Range>): set<int> { set r | r in rows :: r.end }

  function MergedRange(ranges: set<Range>, start: int, end: int): (r: Range)
    ensures r.start <= start && end <= r.end
  {
    var rows := Touching(ranges, start, end);
    Range(MinOf(Starts(rows) + {start}), MaxOf(Ends(rows) + {end}))
  }

  /** The table after an interval has been merged: touching rows fuse into one. */
  function Merge(ranges: set<Range>, start: int, end: int): set<Range> {
    ranges - Touching(ranges, start, end) + {MergedRange(ranges, start, end)}
  }

  function MergeAll(ranges: set<Range>, blocks: seq<Range>): set<Range> {
    if blocks == [] then ranges
    else
      var last := blocks[|blocks| - 1];
      Merge(MergeAll(ranges, blocks[..|blocks| - 1]), last.start, last.end)
  }

  /** Rows the overlap constraint forbids beside `r`: closed ranges that share an instant. */
  predicate Collides(ranges: set<Range>, r: Range) {
    exists q :: q in ranges && q.start <= r.end && r.start <= q.end
  }

  /** The merged row is complete in raw storage and collides with no remaining row. */
  lemma MergedRowIsAdmissible(ranges: set<Range>, raw: set<int>, start: int, end: int)
    requires Sound(ranges, raw) && Separated(ranges)
    requires start <= end && Filled(raw, start, end)
    ensures var r := MergedRange(ranges, start, end);
            && CoverageProof(raw, r.start, r.end)
            && !Collides(ranges - Touching(ranges, start, end), r)
            && forall q :: q in ranges - Touching(ranges, start, end) ==> q.end + 1 < r.start || r.end + 1 < q.start
  {
    var rows := Touching(ranges, start, end);
    var r := MergedRange(ranges, start, end);
    var low, high := MergedEnds(ranges, start, end);
    hide MergedRange, CoverageProof;
    forall m | r.start <= m <= r.end ensures m in raw {
      if m <= low.end {
        assert low.start <= m <= low.end;
      } else if m >= high.start {
        assert high.start <= m <= high.end;
      } else {
        assert start <= m <= end;
      }
    }
    CoverageProofIsComplete(raw, r.start, r.end);
    forall q | q in ranges - rows ensures q.end + 1 < r.start || r.end + 1 < q.start {
      assert q.start > end + 1 || q.end < start - 1;
      assert low != Range(start, end) ==> low in ranges && low != q;
      assert high != Range(start, end) ==> high in ranges && high != q;
    }
  }

  /** The rows, or the interval itself, that give the merged row its two ends. */
  lemma MergedEnds(ranges: set<Range>, start: int, end: int) returns (low: Range, high: Range)
    ensures var r := MergedRange(ranges, start, end); low.start == r.start && high.end == r.end
    ensures low == Range(start, end) || low in Touching(ranges, start, end)
    ensures high == Range(start, end) || high in Touching(ranges, start, end)
  {
    var rows, r := Touching(ranges, start, end), MergedRange(ranges, start, end);
    low := if r.start == start then Range(start, end) else var q :| q in rows && q.start == r.start; q;
    high := if r.end == end then Range(start, end) else var q :| q in rows && q.end == r.end; q;
  }

  lemma MergeKeepsInvariant(ranges: set<Range>, raw: set<int>, start: int, end: int)
    requires Sound(ranges, raw) && Separated(ranges)
    requires start <= end && Filled(raw, start, end)
    ensures Sound(Merge(ranges, start, end), raw) && Separated(Merge(ranges, start, end))
  {
    MergedRowIsAdmissible(ranges, raw, start, end);
    var merged := MergedRange(ranges, start, end);
    CoverageProofIsComplete(raw, merged.start, merged.end);
  }

  /** Merging covers the interval and otherwise neither gains nor loses a minute. */
  lemma MergeCovers(ranges: set<Range>, start: int, end: int, m: int)
    requires start <= end
    ensures Covered(Merge(ranges, start, end), m) <==> Covered(ranges, m) || start <= m <= end
  {
    var rows := Touching(ranges, start, end);
    var merged := MergedRange(ranges, start, end);
    var after := Merge(ranges, start, end);
    assert merged in after;
    if Covered(ranges, m) {
      var r :| r in ranges && r.start <= m <= r.end;
      if r in rows {
        assert r.start in Starts(rows) && r.end in Ends(rows);
      } else {
        assert r in after;
      }
    }
    if Covered(after, m) && !(start <= m <= end) {
      var r :| r in after && r.start <= m <= r.end;
      if r == merged {
        var q := if m < start then (var q :| q in rows && q.start == merged.start; q)
                 else (var q :| q in rows && q.end == merged.end; q);
        assert q in ranges && q.start <= m <= q.end;
      }
    }
  }

  lemma {:induction false} MergeAllKeepsInvariant(ranges: set<Range>, raw: set<int>, blocks: seq<Range>)
    requires Sound(ranges, raw) && Separated(ranges)
    requires forall b :: b in blocks ==> b.start <= b.end && Filled(raw, b.start, b.end)
    ensures Sound(MergeAll(ranges, blocks), raw) && Separated(MergeAll(ranges, blocks))
    ensures forall m :: Covered(MergeAll(ranges, blocks), m) <==> Covered(ranges, m) || Covered(Elements(blocks), m)
  {
    if blocks != [] {
      var n := |blocks| - 1;
      var before, last := blocks[..n], blocks[n];
      MergeAllKeepsInvariant(ranges, raw, before);
      assert blocks == before + [last];
      MergeKeepsInvariant(MergeAll(ranges, before), raw, last.start, last.end);
      forall m ensures Covered(MergeAll(ranges, blocks), m) <==> Covered(ranges, m) || Covered(Elements(blocks), m) {
        MergeCovers(MergeAll(ranges, before), last.start, last.end, m);
        LastBlockCovers(before, last, m);
      }
    }
  }

  /** Merging an interval one row already contains leaves the table as it is. */
  lemma MergeContained(ranges: set<Range>, start: int, end: int, r: Range)
    requires Separated(ranges)
    requires start <= end
    requires r in ranges && r.start <= start && end <= r.end
    ensures Merge(ranges, start, end) == ranges
  {
    var rows := Touching(ranges, start, end);
    assert rows == {r};
    assert Starts(rows) == {r.start} && Ends(rows) == {r.end};
  }

  // ---- Exact decompositions -----------------------------------------------------------

  /** The minutes next to a row of a separated table are in no row. */
  lemma EdgesAreUncovered(ranges: set<Range>, r: Range)
    requires Separated(ranges)
    requires r in ranges && r.start <= r.end
    ensures !Covered(ranges, r.start - 1) && !Covered(ranges, r.end + 1)
  {
    forall q | q in ranges
      ensures !(q.start <= r.start - 1 <= q.end) && !(q.start <= r.end + 1 <= q.end)
    {
      if q != r {
        assert r.end + 1 < q.start || q.end + 1 < r.start;
      }
    }
  }

  lemma SoundSeparatedCoversIsExact(ranges: set<Range>, raw: set<int>)
    requires Sound(ranges, raw) && Separated(ranges) && Covers(ranges, raw)
    ensures Exact(ranges, raw)
  {
    forall start, end ensures Range(start, end) in ranges <==> MaximalRun(raw, start, end) {
      if Range(start, end) in ranges {
        EdgesAreUncovered(ranges, Range(start, end));
      }
      if MaximalRun(raw, start, end) {
        assert start in raw && Covered(ranges, start);
        var r :| r in ranges && r.start <= start <= r.end;
        EdgesAreUncovered(ranges, r);
        assert r.end + 1 !in raw;
        assert r.start == start;
        assert r.end == end;
      }
    }
  }

  lemma {:induction false} RunStart(raw: set<int>, m: int) returns (start: int)
    requires m in raw
    ensures start <= m && Filled(raw, start, m) && start - 1 !in raw
    decreases m - MinOf(raw)
  {
    start := m;
    if m - 1 in raw {
      start := RunStart(raw, m - 1);
    }
  }

  lemma {:induction false} RunEnd(raw: set<int>, m: int) returns (end: int)
    requires m in raw
    ensures m <= end && Filled(raw, m, end) && end + 1 !in raw
    decreases MaxOf(raw) - m
  {
    end := m;
    if m + 1 in raw {
      end := RunEnd(raw, m + 1);
    }
  }

  /** Every present minute lies in a maximal run. */
  lemma RunAround(raw: set<int>, m: int) returns (start: int, end: int)
    requires m in raw
    ensures MaximalRun(raw, start, end) && start <= m <= end
  {
    start := RunStart(raw, m);
    end := RunEnd(raw, m);
  }

  /** An exact table is precisely a sound, separated and complete one. */
  lemma ExactIffSoundSeparatedCovers(ranges: set<Range>, raw: set<int>)
    ensures Exact(ranges, raw) <==> Sound(ranges, raw) && Separated(ranges) && Covers(ranges, raw)
  {
    if Sound(ranges, raw) && Separated(ranges) && Covers(ranges, raw) {
      SoundSeparatedCoversIsExact(ranges, raw);
    }
    if Exact(ranges, raw) {
      forall r | r in ranges ensures r.start <= r.end && Filled(raw, r.start, r.end) {
        assert Range(r.start, r.end) in ranges;
      }
      forall r, q | r in ranges && q in ranges && r != q
        ensures r.end + 1 < q.start || q.end + 1 < r.start
      {
        assert MaximalRun(raw, r.start, r.end) && MaximalRun(raw, q.start, q.end);
        DistinctRunsApart(raw, r, q);
      }
      forall m | m in raw ensures Covered(ranges, m) {
        var start, end := RunAround(raw, m);
        assert Range(start, end) in ranges;
      }
    }
  }

  lemma DistinctRunsApart(raw: set<int>, r: Range, q: Range)
    requires MaximalRun(raw, r.start, r.end) && MaximalRun(raw, q.start, q.end) && r != q
    ensures r.end + 1 < q.start || q.end + 1 < r.start
  {
    assert r.end + 1 !in raw && q.end + 1 !in raw;
    assert r.start < q.start ==> q.start - 1 !in raw;
    assert q.start < r.start ==> r.start - 1 !in raw;
  }

  /** In a sound, separated table two rows that hold a common minute are one row. */
  lemma FilledBlockHasOneRow(ranges: set<Range>, raw: set<int>, start: int, end: int) returns (r: Range)
    requires Sound(ranges, raw) && Separated(ranges)
    requires start <= end && forall m :: start <= m <= end ==> Covered(ranges, m)
    ensures r in ranges && r.start <= start && end <= r.end
  {
    assert Covered(ranges, start);
    r :| r in ranges && r.start <= start <= r.end;
    EdgesAreUncovered(ranges, r);
    assert !Covered(ranges, r.end + 1);
  }

  // ---- Rebuilding the table from raw storage ------------------------------------------------

  /** Position of `m` when the minutes are numbered in order, starting from one. */
  ghost function RowNumber(raw: set<int>, m: int): nat {
    |set u | u in raw && u <= m|
  }

  ghost function Group(raw: set<int>, m: int): int { m - RowNumber(raw, m) }

  /** One row per group of minutes with equal `minute - row_number`: its least and greatest minute. */
  ghost function Rebuild(raw: set<int>): set<Range> {
    set a, b | a in raw && b in raw && Group(raw, a) == Group(raw, b) &&
               (forall c :: c in raw && Group(raw, c) == Group(raw, a) ==> a <= c <= b)
             :: Range(a, b)
  }

  lemma SameGroupIffFilled(raw: set<int>, a: int, b: int)
    requires a in raw && b in raw && a <= b
    ensures Group(raw, a) == Group(raw, b) <==> Filled(raw, a, b)
  {
    var upToA, upToB := set u | u in raw && u <= a, set u | u in raw && u <= b;
    var between := Within(raw, a, b);
    assert upToB == (upToA - {a}) + between;
    assert (upToA - {a}) !! between;
    CountIsProof(raw, a, b);
  }

  /** The migration's window-function rebuild yields exactly the maximal runs. */
  lemma RebuildIsExact(raw: set<int>)
    ensures Exact(Rebuild(raw), raw)
  {
    hide Group;
    forall a, b ensures Range(a, b) in Rebuild(raw) <==> MaximalRun(raw, a, b) {
      if Range(a, b) in Rebuild(raw) {
        SameGroupIffFilled(raw, a, b);
        if a - 1 in raw {
          assert Filled(raw, a - 1, b);
          SameGroupIffFilled(raw, a - 1, b);
          assert false;
        }
        if b + 1 in raw {
          assert Filled(raw, a, b + 1);
          SameGroupIffFilled(raw, a, b + 1);
          assert false;
        }
      }
      if MaximalRun(raw, a, b) {
        SameGroupIffFilled(raw, a, b);
        forall c | c in raw && Group(raw, c) == Group(raw, a) ensures a <= c <= b {
          if c < a {
            SameGroupIffFilled(raw, c, a);
            assert false;
          }
          if b < c {
            SameGroupIffFilled(raw, a, c);
            assert false;
          }
        }
      }
    }
  }

  // ---- Deletion -----------------------------------------------------------------------

  /** Rows left after the deletion trigger drops every range that holds the minute. */
  function Invalidate(ranges: set<Range>, m: int): (after: set<Range>)
    ensures after <= ranges
  {
    set r | r in ranges && !(r.start <= m && r.end >= m)
  }

  lemma InvalidateKeepsInvariant(ranges: set<Range>, raw: set<int>, m: int)
    requires Sound(ranges, raw) && Separated(ranges)
    ensures Sound(Invalidate(ranges, m), raw - {m}) && Separated(Invalidate(ranges, m))
    ensures forall u :: Covered(Invalidate(ranges, m), u) ==> Covered(ranges, u)
  {
  }
}
