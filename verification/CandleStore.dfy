/**
 Everything stored for one asset: canonical rows, their ledger, the coverage index and the
 historical staging rows; the ingestion transactions over them; and what every run of such
 transactions keeps.
 */
module CandleStore {
  import opened Wrappers
  import opened Coverage
  import opened CandleLedger

  datatype Asset = Asset(tables: Tables, ranges: set<Range>, staged: map<int, RawRow>) {
    function Present(): set<int> { tables.raw.Keys }
  }

  // ---- Specification of the transactions --------------------------------------------------

  /** Blocks are merged one by one; a block the raw table does not prove is skipped. */
  function Mark(ranges: set<Range>, raw: set<int>, blocks: seq<Range>): set<Range> {
    if blocks == [] then ranges
    else
      var last := blocks[|blocks| - 1];
      var before := Mark(ranges, raw, blocks[..|blocks| - 1]);
      if CoverageProof(raw, last.start, last.end) then Merge(before, last.start, last.end) else before
  }

  function BatchBlocks(batch: seq<Candle>): seq<Range> {
    if batch == [] then [] else Blocks(MinutesOf(batch))
  }

  /** Rows go straight to canonical storage; an unordered batch aborts the transaction. */
  function CommitRaw(s: Asset, batch: seq<Candle>): Asset {
    if !Increasing(MinutesOf(batch)) then s
    else
      var tables := UpsertAll(s.tables, batch);
      Asset(tables, Mark(s.ranges, tables.raw.Keys, BatchBlocks(batch)), s.staged)
  }

  function Stage(staged: map<int, RawRow>, c: Candle): map<int, RawRow> {
    if c.minute !in staged then staged[c.minute := RawRow(c.row, 1)]
    else if Replaces(c.row, staged[c.minute].row) then
      staged[c.minute := RawRow(c.row, staged[c.minute].revision + 1)]
    else staged
  }

  function StageAll(staged: map<int, RawRow>, batch: seq<Candle>): map<int, RawRow> {
    if batch == [] then staged
    else Stage(StageAll(staged, batch[..|batch| - 1]), batch[|batch| - 1])
  }

  /** Candles at or after the cutoff. */
  function Live(batch: seq<Candle>, cutoff: int): seq<Candle> {
    if batch == [] then []
    else
      var last := batch[|batch| - 1];
      if last.minute >= cutoff then Live(batch[..|batch| - 1], cutoff) + [last] else Live(batch[..|batch| - 1], cutoff)
  }

  /** Candles before the cutoff. */
  function Historical(batch: seq<Candle>, cutoff: int): seq<Candle> {
    if batch == [] then []
    else
      var last := batch[|batch| - 1];
      if last.minute < cutoff then Historical(batch[..|batch| - 1], cutoff) + [last]
      else Historical(batch[..|batch| - 1], cutoff)
  }

  /** The ordinary path: recent rows to canonical storage, older rows to staging only. */
  function Commit(s: Asset, batch: seq<Candle>, cutoff: int): Asset {
    if !Increasing(MinutesOf(batch)) then s
    else
      var live := CommitRaw(s, Live(batch, cutoff));
      live.(staged := StageAll(s.staged, Historical(batch, cutoff)))
  }

  /** The minutes of a set in increasing order. */
  function Ordered(minutes: set<int>): (ts: seq<int>)
    ensures Increasing(ts)
    ensures forall m :: m in ts <==> m in minutes
    decreases |minutes|
  {
    if minutes == {} then []
    else
      var first := MinOf(minutes);
      var rest := Ordered(minutes - {first});
      assert forall i :: 0 <= i < |rest| ==> rest[i] in minutes - {first};
      [first] + rest
  }

  function PageBatch(staged: map<int, RawRow>, minutes: set<int>): (batch: seq<Candle>)
    requires minutes <= staged.Keys
    ensures MinutesOf(batch) == Ordered(minutes)
    ensures forall c :: c in batch ==> c.minute in minutes && c.row == staged[c.minute].row
  {
    var ts := Ordered(minutes);
    assert forall i :: 0 <= i < |ts| ==> ts[i] in ts;
    seq(|ts|, i requires 0 <= i < |ts| => Candle(ts[i], staged[ts[i]].row))
  }

  /** Promotion: the page is committed to canonical storage and then leaves staging. */
  function Promote(s: Asset, page: set<int>): Asset {
    var minutes := page * s.staged.Keys;
    var committed := CommitRaw(s, PageBatch(s.staged, minutes));
    committed.(staged := s.staged - minutes)
  }

  /** Deleting a canonical row drops every range that claims its minute. */
  function Remove(s: Asset, minute: int): Asset {
    if minute !in s.tables.raw then s
    else s.(tables := SqlDelete(s.tables, minute), ranges := Invalidate(s.ranges, minute))
  }

  /** A transaction: the three ingestion paths, and direct SQL against the raw table. */
  datatype Event =
    | RawBatch(batch: seq<Candle>)
    | Batch(batch: seq<Candle>, cutoff: int)
    | Page(minutes: set<int>)
    | DirectInsert(minute: int, row: Row, revision: int)
    | DirectUpdate(minute: int, stored: RawRow)
    | Deletion(minute: int)

  function Step(s: Asset, e: Event): Asset {
    match e
    case RawBatch(batch) => CommitRaw(s, batch)
    case Batch(batch, cutoff) => Commit(s, batch, cutoff)
    case Page(minutes) => Promote(s, minutes)
    case DirectInsert(minute, row, revision) =>
      var r := SqlInsert(s.tables, minute, row, revision);
      if r.Ok? then s.(tables := r.value) else s
    case DirectUpdate(minute, stored) =>
      var r := SqlUpdate(s.tables, minute, stored);
      if r.Ok? then s.(tables := r.value) else s
    case Deletion(minute) => Remove(s, minute)
  }

  function Run(s: Asset, es: seq<Event>): Asset {
    if es == [] then s else Step(Run(s, es[..|es| - 1]), es[|es| - 1])
  }

  /** Only the service's own write paths. */
  predicate ServiceOnly(es: seq<Event>) {
    forall e :: e in es ==> e.RawBatch? || e.Batch? || e.Page?
  }

  /** The state the hardening migration leaves: seeded ledger and rebuilt ranges. */
  ghost function Migrated(rows: map<int, Row>, staged: map<int, RawRow>): Asset {
    Asset(
      Tables(map m | m in rows :: RawRow(rows[m], 1), map m | m in rows :: (m, 1) := rows[m]),
      Rebuild(rows.Keys),
      staged)
  }

  // ---- Invariants ---------------------------------------------------------------------------

  ghost predicate Consistent(s: Asset) {
    && CandleLedger.Valid(s.tables)
    && Sound(s.ranges, s.Present())
    && Separated(s.ranges)
  }

  lemma {:induction false} MarkComplete(ranges: set<Range>, raw: set<int>, blocks: seq<Range>)
    requires forall b :: b in blocks ==> b.start <= b.end && Filled(raw, b.start, b.end)
    ensures Mark(ranges, raw, blocks) == MergeAll(ranges, blocks)
  {
    if blocks != [] {
      var last := blocks[|blocks| - 1];
      assert last in blocks;
      CoverageProofIsComplete(raw, last.start, last.end);
      MarkComplete(ranges, raw, blocks[..|blocks| - 1]);
    }
  }

  /** Every block of a batch is complete once its rows are stored. */
  lemma BatchBlocksFilled(batch: seq<Candle>, raw: set<int>)
    requires Increasing(MinutesOf(batch))
    requires Elements(MinutesOf(batch)) <= raw
    ensures forall b :: b in BatchBlocks(batch) ==> b.start <= b.end && Filled(raw, b.start, b.end)
    ensures forall m :: Covered(Elements(BatchBlocks(batch)), m) <==> m in MinutesOf(batch)
  {
    if batch != [] {
      var ts := MinutesOf(batch);
      BlocksAreMaximalRuns(ts);
      ExactIffSoundSeparatedCovers(Elements(Blocks(ts)), Elements(ts));
      forall b | b in Blocks(ts) ensures b.start <= b.end && Filled(raw, b.start, b.end) {
        assert b in Elements(Blocks(ts));
      }
      forall m ensures Covered(Elements(Blocks(ts)), m) <==> m in ts {
        assert m in ts <==> m in Elements(ts);
      }
    }
  }

  lemma SoundGrows(ranges: set<Range>, small: set<int>, big: set<int>)
    requires Sound(ranges, small) && small <= big
    ensures Sound(ranges, big)
  {
  }

  /** What one canonical commit does to presence and coverage. */
  lemma CommitRawEffect(s: Asset, batch: seq<Candle>)
    requires Sound(s.ranges, s.Present()) && Separated(s.ranges)
    requires Increasing(MinutesOf(batch))
    ensures var after := CommitRaw(s, batch);
            && after.Present() == s.Present() + Elements(MinutesOf(batch))
            && after.ranges == MergeAll(s.ranges, BatchBlocks(batch))
            && Sound(after.ranges, after.Present()) && Separated(after.ranges)
    ensures forall m :: Covered(CommitRaw(s, batch).ranges, m) <==> Covered(s.ranges, m) || m in MinutesOf(batch)
  {
    UpsertAllSettles(s.tables, batch);
    var present := UpsertAll(s.tables, batch).raw.Keys;
    BatchBlocksFilled(batch, present);
    SoundGrows(s.ranges, s.Present(), present);
    MarkComplete(s.ranges, present, BatchBlocks(batch));
    MergeAllKeepsInvariant(s.ranges, present, BatchBlocks(batch));
  }

  lemma CommitRawKeepsConsistent(s: Asset, batch: seq<Candle>)
    requires Consistent(s)
    ensures Consistent(CommitRaw(s, batch))
    ensures GrowsTo(s.tables.ledger, CommitRaw(s, batch).tables.ledger)
  {
    if Increasing(MinutesOf(batch)) {
      UpsertAllKeepsValid(s.tables, batch);
      CommitRawEffect(s, batch);
    }
  }

  /** The raw path in its two stages: rows first, then the blocks they prove. */
  lemma CommitRawInStages(s: Asset, batch: seq<Candle>, blocks: seq<Range>)
    requires Consistent(s)
    requires Increasing(MinutesOf(batch)) ==> blocks == if MinutesOf(batch) == [] then [] else Blocks(MinutesOf(batch))
    ensures !Increasing(MinutesOf(batch)) ==> CommitRaw(s, batch) == s
    ensures Increasing(MinutesOf(batch)) ==>
            var tables := UpsertAll(s.tables, batch);
            && CommitRaw(s, batch) == Asset(tables, Mark(s.ranges, tables.raw.Keys, blocks), s.staged)
            && Sound(s.ranges, tables.raw.Keys) && Separated(s.ranges)
  {
    hide Blocks, Mark;
    if Increasing(MinutesOf(batch)) {
      assert MinutesOf(batch) == [] <==> batch == [];
      UpsertAllSettles(s.tables, batch);
      SoundGrows(s.ranges, s.Present(), UpsertAll(s.tables, batch).raw.Keys);
    }
  }

  lemma {:induction false} SplitMembers(batch: seq<Candle>, cutoff: int)
    ensures forall c :: c in Live(batch, cutoff) <==> c in batch && c.minute >= cutoff
    ensures forall c :: c in Historical(batch, cutoff) <==> c in batch && c.minute < cutoff
  {
    if batch != [] {
      SplitMembers(batch[..|batch| - 1], cutoff);
      assert batch == batch[..|batch| - 1] + [batch[|batch| - 1]];
    }
  }

  lemma SplitAtCutoff(batch: seq<Candle>, cutoff: int)
    ensures forall c :: c in Live(batch, cutoff) <==> c in batch && c.minute >= cutoff
    ensures forall c :: c in Historical(batch, cutoff) <==> c in batch && c.minute < cutoff
    ensures Increasing(MinutesOf(batch)) ==>
              Increasing(MinutesOf(Live(batch, cutoff))) && Increasing(MinutesOf(Historical(batch, cutoff)))
  {
    SplitMembers(batch, cutoff);
    if Increasing(MinutesOf(batch)) {
      SplitIncreasing(batch, cutoff);
    }
  }

  lemma {:induction false} SplitIncreasing(batch: seq<Candle>, cutoff: int)
    requires Increasing(MinutesOf(batch))
    ensures Increasing(MinutesOf(Live(batch, cutoff))) && Increasing(MinutesOf(Historical(batch, cutoff)))
  {
    if batch != [] {
      var before, last := batch[..|batch| - 1], batch[|batch| - 1];
      LastIsLatest(batch);
      SplitIncreasing(before, cutoff);
      SplitMembers(before, cutoff);
      hide Increasing;
      if last.minute >= cutoff {
        AppendIncreasing(Live(before, cutoff), last);
      } else {
        AppendIncreasing(Historical(before, cutoff), last);
      }
    }
  }

  lemma LastIsLatest(batch: seq<Candle>)
    requires batch != [] && Increasing(MinutesOf(batch))
    ensures var before, last := batch[..|batch| - 1], batch[|batch| - 1];
            Increasing(MinutesOf(before)) && forall c :: c in before ==> c.minute < last.minute
  {
    var n := |batch| - 1;
    forall c | c in batch[..n] ensures c.minute < batch[n].minute {
      var i :| 0 <= i < n && batch[i] == c;
      assert MinutesOf(batch)[i] < MinutesOf(batch)[n];
    }
    assert MinutesOf(batch[..n]) == MinutesOf(batch)[..n];
  }

  lemma AppendIncreasing(batch: seq<Candle>, last: Candle)
    requires Increasing(MinutesOf(batch))
    requires forall c :: c in batch ==> c.minute < last.minute
    ensures Increasing(MinutesOf(batch + [last]))
  {
    var ts := MinutesOf(batch + [last]);
    forall i, j | 0 <= i < j < |ts| ensures ts[i] < ts[j] {
      assert i < |batch| && batch[i] in batch;
      assert j < |batch| ==> MinutesOf(batch)[i] < MinutesOf(batch)[j];
    }
  }

  lemma StepKeepsConsistent(s: Asset, e: Event)
    requires Consistent(s)
    ensures Consistent(Step(s, e))
    ensures GrowsTo(s.tables.ledger, Step(s, e).tables.ledger)
  {
    match e
    case RawBatch(batch) => CommitRawKeepsConsistent(s, batch);
    case Batch(batch, cutoff) => CommitRawKeepsConsistent(s, Live(batch, cutoff));
    case Page(minutes) => CommitRawKeepsConsistent(s, PageBatch(s.staged, minutes * s.staged.Keys));
    case DirectInsert(minute, row, revision) =>
      if SqlInsert(s.tables, minute, row, revision).Ok? {
        InsertKeepsValid(s.tables, minute, row, revision);
        SoundGrows(s.ranges, s.Present(), Step(s, e).Present());
      }
    case DirectUpdate(minute, stored) =>
      if SqlUpdate(s.tables, minute, stored).Ok? {
        UpdateKeepsValid(s.tables, minute, stored);
        assert Step(s, e).Present() == s.Present();
      }
    case Deletion(minute) =>
      DeleteKeepsValid(s.tables, minute);
      InvalidateKeepsInvariant(s.ranges, s.Present(), minute);
      assert SqlDelete(s.tables, minute).raw.Keys == s.Present() - {minute};
  }

  lemma CommitRawKeepsIndexed(s: Asset, batch: seq<Candle>)
    requires Sound(s.ranges, s.Present()) && Separated(s.ranges)
    ensures var after := CommitRaw(s, batch); Sound(after.ranges, after.Present()) && Separated(after.ranges)
  {
    if Increasing(MinutesOf(batch)) {
      CommitRawEffect(s, batch);
    }
  }

  /** The index alone stays sound and separated over every transaction, whatever the ledger holds. */
  lemma StepKeepsIndexed(s: Asset, e: Event)
    requires Sound(s.ranges, s.Present()) && Separated(s.ranges)
    ensures var after := Step(s, e); Sound(after.ranges, after.Present()) && Separated(after.ranges)
  {
    match e
    case RawBatch(batch) => CommitRawKeepsIndexed(s, batch);
    case Batch(batch, cutoff) => CommitRawKeepsIndexed(s, Live(batch, cutoff));
    case Page(minutes) => CommitRawKeepsIndexed(s, PageBatch(s.staged, minutes * s.staged.Keys));
    case DirectInsert(_, _, _) => SoundGrows(s.ranges, s.Present(), Step(s, e).Present());
    case DirectUpdate(_, _) => assert Step(s, e).Present() == s.Present();
    case Deletion(minute) =>
      InvalidateKeepsInvariant(s.ranges, s.Present(), minute);
      assert SqlDelete(s.tables, minute).raw.Keys == s.Present() - {minute};
  }

  /**
   In every run, deletions and direct SQL included: each minute's ledger is exactly revisions
   1..k, a present row is revision k, the ledger only grows, every range is fully present in
   raw storage, and ranges stay more than one minute apart.
   */
  lemma {:induction false} RunKeepsConsistent(s: Asset, es: seq<Event>)
    requires Consistent(s)
    ensures Consistent(Run(s, es))
    ensures GrowsTo(s.tables.ledger, Run(s, es).tables.ledger)
  {
    if es != [] {
      RunKeepsConsistent(s, es[..|es| - 1]);
      StepKeepsConsistent(Run(s, es[..|es| - 1]), es[|es| - 1]);
    }
  }

  lemma MigratedIsConsistent(rows: map<int, Row>, staged: map<int, RawRow>)
    ensures Consistent(Migrated(rows, staged))
    ensures Exact(Migrated(rows, staged).ranges, Migrated(rows, staged).Present())
  {
    var s := Migrated(rows, staged);
    assert s.Present() == rows.Keys;
    RebuildIsExact(rows.Keys);
    ExactIffSoundSeparatedCovers(s.ranges, rows.Keys);
    forall m ensures MinuteValid(s.tables, m) {
      MigratedMinute(rows, staged, m);
    }
  }

  lemma MigratedMinute(rows: map<int, Row>, staged: map<int, RawRow>, m: int)
    ensures MinuteValid(Migrated(rows, staged).tables, m)
  {
    var ledger := Migrated(rows, staged).tables.ledger;
    if m in rows {
      assert (m, 1) in ledger && ledger[(m, 1)] == rows[m];
      assert Revisions(ledger, m) == {1};
      assert Coverage.Minutes(1, 1) == {1};
    } else {
      assert Revisions(ledger, m) == {};
      assert Coverage.Minutes(1, 0) == {};
    }
  }

  lemma StepKeepsExact(s: Asset, e: Event)
    requires Consistent(s) && Exact(s.ranges, s.Present())
    requires e.RawBatch? || e.Batch? || e.Page?
    ensures Exact(Step(s, e).ranges, Step(s, e).Present())
  {
    var batch := match e
      case RawBatch(b) => b
      case Batch(b, cutoff) => Live(b, cutoff)
      case Page(minutes) => PageBatch(s.staged, minutes * s.staged.Keys)
      case _ => [];
    if e.Batch? {
      SplitAtCutoff(e.batch, e.cutoff);
    }
    if Increasing(MinutesOf(batch)) {
      CommitRawEffect(s, batch);
      ExactIffSoundSeparatedCovers(s.ranges, s.Present());
      var after := CommitRaw(s, batch);
      forall m | m in after.Present() ensures Covered(after.ranges, m) {
        assert m in s.Present() || m in MinutesOf(batch);
      }
      SoundSeparatedCoversIsExact(after.ranges, after.Present());
    }
  }

  /**
   From the migration on, in every run of the service's write paths without raw deletes the
   coverage index is exactly the maximal-run decomposition of the minutes in raw storage.
   */
  lemma {:induction false} CoverageIsExact(rows: map<int, Row>, staged: map<int, RawRow>, es: seq<Event>)
    requires ServiceOnly(es)
    ensures var s := Run(Migrated(rows, staged), es); Consistent(s) && Exact(s.ranges, s.Present())
  {
    MigratedIsConsistent(rows, staged);
    if es != [] {
      CoverageIsExact(rows, staged, es[..|es| - 1]);
      var s := Run(Migrated(rows, staged), es[..|es| - 1]);
      StepKeepsConsistent(s, es[|es| - 1]);
      StepKeepsExact(s, es[|es| - 1]);
    }
  }

  /**
   In any reachable state, with or without earlier deletes, no merge of a batch's blocks is
   refused: each merged row is proved by the coverage trigger and overlaps no other row.
   */
  lemma MergesAreNeverRefused(s: Asset, batch: seq<Candle>, i: nat)
    requires Consistent(s) && Increasing(MinutesOf(batch))
    requires i < |BatchBlocks(batch)|
    ensures var raw := UpsertAll(s.tables, batch).raw.Keys;
            var ranges := Mark(s.ranges, raw, BatchBlocks(batch)[..i]);
            var block := BatchBlocks(batch)[i];
            var merged := MergedRange(ranges, block.start, block.end);
            && CoverageProof(raw, block.start, block.end)
            && CoverageProof(raw, merged.start, merged.end)
            && !Collides(ranges - Touching(ranges, block.start, block.end), merged)
  {
    UpsertAllSettles(s.tables, batch);
    var raw := UpsertAll(s.tables, batch).raw.Keys;
    var blocks := BatchBlocks(batch);
    BatchBlocksFilled(batch, raw);
    SoundGrows(s.ranges, s.Present(), raw);
    var before := blocks[..i];
    assert forall b :: b in before ==> b in blocks;
    MarkComplete(s.ranges, raw, before);
    MergeAllKeepsInvariant(s.ranges, raw, before);
    var block := blocks[i];
    assert block in blocks;
    CoverageProofIsComplete(raw, block.start, block.end);
    MergedRowIsAdmissible(MergeAll(s.ranges, before), raw, block.start, block.end);
  }

  // ---- Redelivery -----------------------------------------------------------------------------

  lemma {:induction false} MergeAllContained(ranges: set<Range>, raw: set<int>, blocks: seq<Range>)
    requires Sound(ranges, raw) && Separated(ranges)
    requires forall b :: b in blocks ==> b.start <= b.end && forall m :: b.start <= m <= b.end ==> Covered(ranges, m)
    ensures MergeAll(ranges, blocks) == ranges
  {
    if blocks != [] {
      var last := blocks[|blocks| - 1];
      assert last in blocks;
      MergeAllContained(ranges, raw, blocks[..|blocks| - 1]);
      var r := FilledBlockHasOneRow(ranges, raw, last.start, last.end);
      MergeContained(ranges, last.start, last.end, r);
    }
  }

  /** Applying a canonical batch twice equals applying it once: rows, ledger and index. */
  lemma CommitRawTwice(s: Asset, batch: seq<Candle>)
    requires Consistent(s)
    ensures CommitRaw(CommitRaw(s, batch), batch) == CommitRaw(s, batch)
  {
    if Increasing(MinutesOf(batch)) {
      var once := CommitRaw(s, batch);
      UpsertAllTwice(s.tables, batch);
      CommitRawEffect(s, batch);
      CommitRawEffect(once, batch);
      BatchBlocksFilled(batch, Elements(MinutesOf(batch)));
      forall b | b in BatchBlocks(batch)
        ensures b.start <= b.end && forall m :: b.start <= m <= b.end ==> Covered(once.ranges, m)
      {
        forall m | b.start <= m <= b.end ensures Covered(once.ranges, m) {
          assert m in Elements(MinutesOf(batch));
        }
      }
      MergeAllContained(once.ranges, once.Present(), BatchBlocks(batch));
    }
  }

  ghost predicate StageSettled(staged: map<int, RawRow>, c: Candle) {
    c.minute in staged && !Replaces(c.row, staged[c.minute].row)
  }

  lemma {:induction false} StageAllSettles(staged: map<int, RawRow>, batch: seq<Candle>)
    requires Increasing(MinutesOf(batch))
    ensures StageAll(staged, batch).Keys == staged.Keys + Elements(MinutesOf(batch))
    ensures forall c :: c in batch ==> StageSettled(StageAll(staged, batch), c)
  {
    if batch != [] {
      var n := |batch| - 1;
      var before, last := batch[..n], batch[n];
      assert MinutesOf(batch) == MinutesOf(before) + [last.minute];
      StageAllSettles(staged, before);
      assert last.minute !in MinutesOf(before);
      forall c | c in batch ensures StageSettled(StageAll(staged, batch), c) {
        if c in before {
          assert c.minute in MinutesOf(before);
          assert StageSettled(StageAll(staged, before), c);
        }
      }
      assert StageAll(staged, batch).Keys == StageAll(staged, before).Keys + {last.minute};
    }
  }

  lemma {:induction false} StageAllNoop(staged: map<int, RawRow>, batch: seq<Candle>)
    requires forall c :: c in batch ==> StageSettled(staged, c)
    ensures StageAll(staged, batch) == staged
  {
    if batch != [] {
      assert batch[|batch| - 1] in batch;
      StageAllNoop(staged, batch[..|batch| - 1]);
    }
  }

  /** The ordinary path is idempotent too, staging included. */
  lemma CommitTwice(s: Asset, batch: seq<Candle>, cutoff: int)
    requires Consistent(s)
    ensures Commit(Commit(s, batch, cutoff), batch, cutoff) == Commit(s, batch, cutoff)
  {
    if Increasing(MinutesOf(batch)) {
      SplitAtCutoff(batch, cutoff);
      var earlier := Historical(batch, cutoff);
      CommitRawTwice(s, Live(batch, cutoff));
      StageAllSettles(s.staged, earlier);
      StageAllNoop(StageAll(s.staged, earlier), earlier);
    }
  }

  // ---- Source precedence -----------------------------------------------------------------------

  lemma StepHoldsPriority(s: Asset, e: Event, minute: int)
    requires e != Deletion(minute)
    ensures PriorityHeld(s.tables, Step(s, e).tables, minute)
  {
    match e
    case RawBatch(batch) =>
      if Increasing(MinutesOf(batch)) { UpsertAllHoldsPriority(s.tables, batch, minute); }
    case Batch(batch, cutoff) =>
      SplitAtCutoff(batch, cutoff);
      if Increasing(MinutesOf(batch)) { UpsertAllHoldsPriority(s.tables, Live(batch, cutoff), minute); }
    case Page(minutes) =>
      UpsertAllHoldsPriority(s.tables, PageBatch(s.staged, minutes * s.staged.Keys), minute);
    case DirectInsert(_, _, _) =>
    case DirectUpdate(_, _) =>
    case Deletion(_) =>
  }

  /** Between deletions of a minute its row stays and its source priority never falls. */
  lemma {:induction false} PriorityNeverFalls(s: Asset, es: seq<Event>, minute: int)
    requires Deletion(minute) !in es
    ensures PriorityHeld(s.tables, Run(s, es).tables, minute)
  {
    if es != [] {
      PriorityNeverFalls(s, es[..|es| - 1], minute);
      StepHoldsPriority(Run(s, es[..|es| - 1]), es[|es| - 1], minute);
    }
  }

  // ---- REST rows against later WebSocket rows ---------------------------------------------------

  /** The event puts the candle through the canonical upsert. */
  predicate Delivers(e: Event, c: Candle) {
    match e
    case RawBatch(batch) => Increasing(MinutesOf(batch)) && c in batch
    case Batch(batch, cutoff) => Increasing(MinutesOf(batch)) && c in batch && c.minute >= cutoff
    case _ => false
  }

  /** For the minute the run brings nothing but WebSocket candles. */
  ghost predicate WebSocketOnly(es: seq<Event>, minute: int) {
    && (forall e :: e in es ==> e.RawBatch? || e.Batch? || (e.Page? && minute !in e.minutes))
    && (forall e, c :: e in es && Delivers(e, c) && c.minute == minute ==> c.row.source == "binance_ws")
  }

  /** Some candle of the run differs from the values of a row. */
  ghost predicate SomeDiffers(es: seq<Event>, minute: int, row: Row) {
    exists e, c :: e in es && Delivers(e, c) && c.minute == minute && Differ(row, c.row)
  }

  /** A step leaves a minute as its own candle alone would, or alone if it brings none. */
  lemma StepOnMinute(s: Asset, e: Event, minute: int)
    requires e.RawBatch? || e.Batch? || (e.Page? && minute !in e.minutes)
    ensures (forall c :: Delivers(e, c) ==> c.minute != minute) ==> SameMinute(s.tables, Step(s, e).tables, minute)
    ensures forall c :: Delivers(e, c) && c.minute == minute ==>
              SameMinute(Upsert(s.tables, c).value, Step(s, e).tables, minute)
  {
    match e
    case RawBatch(batch) =>
      if Increasing(MinutesOf(batch)) { BatchOnMinute(s, batch, minute); }
    case Batch(batch, cutoff) =>
      SplitAtCutoff(batch, cutoff);
      if Increasing(MinutesOf(batch)) { BatchOnMinute(s, Live(batch, cutoff), minute); }
    case Page(minutes) =>
      var page := PageBatch(s.staged, minutes * s.staged.Keys);
      BatchOnMinute(s, page, minute);
  }

  lemma BatchOnMinute(s: Asset, batch: seq<Candle>, minute: int)
    requires Increasing(MinutesOf(batch))
    ensures (forall c :: c in batch ==> c.minute != minute) ==>
              SameMinute(s.tables, CommitRaw(s, batch).tables, minute)
    ensures forall c :: c in batch && c.minute == minute ==>
              SameMinute(Upsert(s.tables, c).value, CommitRaw(s, batch).tables, minute)
  {
    UpsertAllIsPointwise(s.tables, batch);
    if minute in MinutesOf(batch) {
      var i :| 0 <= i < |batch| && MinutesOf(batch)[i] == minute;
      assert batch[i] in batch;
    }
  }

  /** What REST or anything else left for a minute, followed by WebSocket candles only. */
  lemma {:induction false} HeldAgainstWebSocket(s: Asset, es: seq<Event>, minute: int)
    requires minute in s.tables.raw && WebSocketOnly(es, minute)
    ensures var base, after := s.tables.raw[minute], Run(s, es).tables.raw;
            && minute in after
            && after[minute].revision >= base.revision
            && (after[minute] != base ==> after[minute].revision > base.revision)
            && (after[minute] != base <==> base.row.source != "binance_rest" && SomeDiffers(es, minute, base.row))
  {
    if es != [] {
      var before, e := es[..|es| - 1], es[|es| - 1];
      assert es == before + [e];
      HeldAgainstWebSocket(s, before, minute);
      OneMoreEvent(s, Run(s, before), e, minute);
      SomeDiffersSnoc(before, e, minute, s.tables.raw[minute].row);
    }
  }

  lemma SomeDiffersSnoc(es: seq<Event>, e: Event, minute: int, row: Row)
    ensures SomeDiffers(es + [e], minute, row) <==> SomeDiffers(es, minute, row) || SomeDiffers([e], minute, row)
  {
    assert forall d :: d in es + [e] <==> d in es || d in [e];
  }

  lemma OneMoreEvent(s: Asset, mid: Asset, e: Event, minute: int)
    requires minute in s.tables.raw && minute in mid.tables.raw && WebSocketOnly([e], minute)
    requires var base, held := s.tables.raw[minute], mid.tables.raw[minute];
             held == base || held.revision > base.revision
    ensures var base, held, after := s.tables.raw[minute], mid.tables.raw[minute], Step(mid, e).tables.raw;
            && minute in after
            && after[minute].revision >= held.revision
            && (held != base ==> after[minute] != base)
            && (held == base ==>
                  (after[minute] != base <==> base.row.source != "binance_rest" && SomeDiffers([e], minute, base.row)) &&
                  (after[minute] != base ==> after[minute].revision > base.revision))
  {
    assert e in [e];
    var row := mid.tables.raw[minute];
    AfterEvent(mid, e, minute);
    hide Step, Run, Differ;
    if Step(mid, e).tables.raw[minute] != row {
      assert SomeDiffers([e], minute, row.row);
    }
  }

  /** A present row is replaced by the one differing candle the event brings, or kept. */
  lemma AfterEvent(s: Asset, e: Event, minute: int)
    requires minute in s.tables.raw && WebSocketOnly([e], minute)
    ensures var row, after := s.tables.raw[minute], Step(s, e).tables.raw;
            && minute in after
            && (after[minute] == row || after[minute].revision > row.revision)
            && (after[minute] != row <==> row.row.source != "binance_rest" && SomeDiffers([e], minute, row.row))
  {
    var row := s.tables.raw[minute];
    assert e in [e];
    StepOnMinute(s, e, minute);
    hide Step;
    if c :| Delivers(e, c) && c.minute == minute {
      assert SameMinute(Upsert(s.tables, c).value, Step(s, e).tables, minute);
      assert c.row.source == "binance_ws";
      UpsertPresent(s.tables, c);
      assert SomeDiffers([e], minute, row.row) <==> Differ(row.row, c.row) by {
        forall d | Delivers(e, d) && d.minute == minute ensures d == c {
          OneCandlePerMinute(e, c, d);
        }
      }
    } else {
      assert SameMinute(s.tables, Step(s, e).tables, minute);
    }
  }

  lemma UpsertPresent(t: Tables, c: Candle)
    requires c.minute in t.raw
    ensures var row, after := t.raw[c.minute], Upsert(t, c).value.raw;
            && c.minute in after
            && after[c.minute] == if Replaces(c.row, row.row) then RawRow(c.row, row.revision + 1) else row
  {
  }

  lemma OneCandlePerMinute(e: Event, c: Candle, d: Candle)
    requires Delivers(e, c) && Delivers(e, d) && c.minute == d.minute
    ensures c == d
  {
    var batch := e.batch;
    var i :| 0 <= i < |batch| && batch[i] == c;
    var j :| 0 <= j < |batch| && batch[j] == d;
    assert MinutesOf(batch)[i] == MinutesOf(batch)[j];
  }

  /** An accepted REST row stays exactly as it is through any run of WebSocket candles. */
  lemma AcceptedRestRowSurvives(s: Asset, es: seq<Event>, minute: int)
    requires minute in s.tables.raw && s.tables.raw[minute].row.source == "binance_rest"
    requires WebSocketOnly(es, minute)
    ensures minute in Run(s, es).tables.raw && Run(s, es).tables.raw[minute] == s.tables.raw[minute]
  {
    HeldAgainstWebSocket(s, es, minute);
  }

  /**
   A REST delivery followed by any run of WebSocket candles: the row it left is replaced exactly
   when REST only confirmed what a weaker source had stored, and some later candle differs.
   */
  lemma RestDeliveryReplacedIff(s: Asset, rest: Candle, es: seq<Event>)
    requires rest.row.source == "binance_rest" && WebSocketOnly(es, rest.minute)
    ensures var mid := CommitRaw(s, [rest]);
            var left, after := mid.tables.raw, Run(mid, es).tables.raw;
            && rest.minute in left && rest.minute in after
            && (after[rest.minute] != left[rest.minute] <==>
                  OnlyConfirms(s.tables, rest) && SomeDiffers(es, rest.minute, rest.row))
  {
    var mid := CommitRaw(s, [rest]);
    assert rest in [rest];
    BatchOnMinute(s, [rest], rest.minute);
    assert SameMinute(Upsert(s.tables, rest).value, mid.tables, rest.minute);
    hide CommitRaw;
    HeldAgainstWebSocket(mid, es, rest.minute);
    RestLeaves(s.tables, rest);
    var left := mid.tables.raw[rest.minute].row;
    assert left.source != "binance_rest" <==> OnlyConfirms(s.tables, rest);
    assert !Differ(left, rest.row);
    assert SomeDiffers(es, rest.minute, left) <==> SomeDiffers(es, rest.minute, rest.row);
  }

  lemma RestLeaves(t: Tables, rest: Candle)
    requires rest.row.source == "binance_rest"
    ensures var left := Upsert(t, rest).value.raw;
            && rest.minute in left
            && !Differ(left[rest.minute].row, rest.row)
            && (left[rest.minute].row.source != "binance_rest" <==> OnlyConfirms(t, rest))
  {
  }

  /** The transaction stores the minute: an accepted batch, a page of staged rows, or an accepted insert. */
  predicate Stores(s: Asset, e: Event, m: int) {
    match e
    case RawBatch(batch) => Increasing(MinutesOf(batch)) && m in MinutesOf(batch)
    case Batch(batch, cutoff) => Increasing(MinutesOf(batch)) && m in MinutesOf(batch) && m >= cutoff
    case Page(minutes) => m in minutes && m in s.staged
    case DirectInsert(minute, row, revision) => minute == m && SqlInsert(s.tables, minute, row, revision).Ok?
    case DirectUpdate(_, _) => false
    case Deletion(_) => false
  }

  /** A minute is present after a transaction exactly if this stores it, or it was there and is not deleted. */
  lemma PresentAfterIff(s: Asset, e: Event, m: int)
    ensures m in Step(s, e).tables.raw <==> Stores(s, e, m) || (m in s.tables.raw && e != Deletion(m))
  {
    match e
    case RawBatch(batch) =>
      if Increasing(MinutesOf(batch)) { UpsertAllSettles(s.tables, batch); }
    case Batch(batch, cutoff) =>
      if Increasing(MinutesOf(batch)) {
        SplitAtCutoff(batch, cutoff);
        UpsertAllSettles(s.tables, Live(batch, cutoff));
        LiveMinutes(batch, cutoff, m);
      } else {
        assert Step(s, e) == s;
      }
    case Page(minutes) =>
      var page := minutes * s.staged.Keys;
      UpsertAllSettles(s.tables, PageBatch(s.staged, page));
      assert m in Ordered(page) <==> m in page;
    case DirectInsert(_, _, _) =>
    case DirectUpdate(_, _) =>
    case Deletion(_) =>
  }

  lemma LiveMinutes(batch: seq<Candle>, cutoff: int, m: int)
    ensures m in MinutesOf(Live(batch, cutoff)) <==> m in MinutesOf(batch) && m >= cutoff
  {
    SplitMembers(batch, cutoff);
    if m in MinutesOf(batch) && m >= cutoff {
      var i :| 0 <= i < |batch| && MinutesOf(batch)[i] == m;
      assert batch[i] in Live(batch, cutoff);
      var j :| 0 <= j < |Live(batch, cutoff)| && Live(batch, cutoff)[j] == batch[i];
      assert MinutesOf(Live(batch, cutoff))[j] == m;
    }
    if m in MinutesOf(Live(batch, cutoff)) {
      var j :| 0 <= j < |Live(batch, cutoff)| && MinutesOf(Live(batch, cutoff))[j] == m;
      assert Live(batch, cutoff)[j] in batch;
      var i :| 0 <= i < |batch| && batch[i] == Live(batch, cutoff)[j];
      assert MinutesOf(batch)[i] == m;
    }
  }

  // ---- Staged history is conserved ----------------------------------------------------------------

  /** Minutes a transaction puts into staging. */
  ghost function StagedBy(e: Event): set<int> {
    match e
    case Batch(batch, cutoff) =>
      if Increasing(MinutesOf(batch)) then Elements(MinutesOf(Historical(batch, cutoff))) else {}
    case _ => {}
  }

  /** Minutes the run has ever put into staging. */
  ghost function EverStaged(es: seq<Event>): set<int> {
    if es == [] then {} else EverStaged(es[..|es| - 1]) + StagedBy(es[|es| - 1])
  }

  predicate Held(s: Asset, m: int) { m in s.staged || m in s.tables.raw }

  /** A minute held, or staged by this very transaction, is held afterwards, unless this deletes it. */
  lemma StepConserves(s: Asset, e: Event, m: int)
    requires e != Deletion(m)
    requires Held(s, m) || m in StagedBy(e)
    ensures Held(Step(s, e), m)
  {
    PresentAfterIff(s, e, m);
    StagingKeeps(s, e, m);
    hide Step, Stores;
  }

  /** A staged minute, earlier or by this transaction, stays staged unless a page stores it. */
  lemma StagingKeeps(s: Asset, e: Event, m: int)
    ensures m in s.staged || m in StagedBy(e) ==> m in Step(s, e).staged || Stores(s, e, m)
  {
    if e.Batch? && Increasing(MinutesOf(e.batch)) {
      SplitAtCutoff(e.batch, e.cutoff);
      StageAllSettles(s.staged, Historical(e.batch, e.cutoff));
    }
  }

  /** In every run each minute ever staged and never deleted is in staging or in raw storage. */
  lemma {:induction false} NothingStagedIsLost(s: Asset, es: seq<Event>, m: int)
    requires Deletion(m) !in es
    requires m in EverStaged(es) || Held(s, m)
    ensures Held(Run(s, es), m)
  {
    hide Step, Held;
    if es != [] {
      var before, e := es[..|es| - 1], es[|es| - 1];
      assert e in es;
      if m in EverStaged(before) || Held(s, m) {
        NothingStagedIsLost(s, before, m);
      }
      StepConserves(Run(s, before), e, m);
    }
  }

  /** Rows leave staging only by promotion, and in that same step the rule decides them in raw storage. */
  lemma RowsLeaveStagingForRaw(s: Asset, e: Event, m: int)
    requires m in s.staged && m !in Step(s, e).staged
    ensures e.Page? && m in e.minutes
    ensures Decided(s.tables.raw, Step(s, e).tables.raw, Candle(m, s.staged[m].row))
  {
    if e.Batch? && Increasing(MinutesOf(e.batch)) {
      SplitAtCutoff(e.batch, e.cutoff);
      StageAllSettles(s.staged, Historical(e.batch, e.cutoff));
    }
    if e.Page? && m in e.minutes {
      PageDecides(s, e.minutes, m);
    }
    hide Decided;
  }

  // ---- Which row wins -------------------------------------------------------------------------

  /** A promoted row is decided in raw storage by the rule. */
  lemma PageDecides(s: Asset, minutes: set<int>, m: int)
    requires m in minutes && m in s.staged
    ensures Decided(s.tables.raw, Promote(s, minutes).tables.raw, Candle(m, s.staged[m].row))
  {
    hide Decided, UpsertAll;
    var page := minutes * s.staged.Keys;
    var batch := PageBatch(s.staged, page);
    assert m in page && m in Ordered(page);
    var i :| 0 <= i < |Ordered(page)| && Ordered(page)[i] == m;
    assert MinutesOf(batch)[i] == m && batch[i] in batch;
    UpsertAllDecides(s.tables, batch);
  }

  /** Staging an ordered batch decides each of its minutes by the same rule and touches no other. */
  lemma {:induction false} StageAllDecides(staged: map<int, RawRow>, batch: seq<Candle>)
    requires Increasing(MinutesOf(batch))
    ensures forall c :: c in batch ==> Decided(staged, StageAll(staged, batch), c)
    ensures forall c :: c in batch && c.minute !in staged ==>
              c.minute in StageAll(staged, batch) && StageAll(staged, batch)[c.minute] == RawRow(c.row, 1)
    ensures forall m :: m in staged && m !in MinutesOf(batch) ==>
              m in StageAll(staged, batch) && StageAll(staged, batch)[m] == staged[m]
  {
    if batch != [] {
      var n := |batch| - 1;
      var before, last := batch[..n], batch[n];
      assert MinutesOf(batch) == MinutesOf(before) + [last.minute];
      StageAllDecides(staged, before);
      StageAllSettles(staged, before);
      assert last.minute !in MinutesOf(before);
      StageDecides(StageAll(staged, before), last);
      forall c | c in batch
        ensures Decided(staged, StageAll(staged, batch), c)
        ensures c.minute !in staged ==>
                  c.minute in StageAll(staged, batch) && StageAll(staged, batch)[c.minute] == RawRow(c.row, 1)
      {
        if c in before {
          var i :| 0 <= i < |before| && before[i] == c;
          assert MinutesOf(before)[i] == c.minute;
        }
      }
    }
  }

  lemma StageDecides(staged: map<int, RawRow>, c: Candle)
    ensures Decided(staged, Stage(staged, c), c)
    ensures c.minute !in staged ==> Stage(staged, c)[c.minute] == RawRow(c.row, 1)
    ensures forall m :: m in staged && m != c.minute ==> m in Stage(staged, c) && Stage(staged, c)[m] == staged[m]
  {
    if c.minute in staged {
      PriorityOrder(staged[c.minute].row.source, c.row.source);
    }
  }

  /**
   One service transaction: a delivered candle is decided in raw storage, a candle before the cutoff
   in staging, a promoted row in raw storage again, all by the rule of which row wins.
   */
  lemma TransactionDecides(s: Asset, e: Event)
    requires e.RawBatch? || e.Batch? || e.Page?
    ensures forall c :: Delivers(e, c) ==> Decided(s.tables.raw, Step(s, e).tables.raw, c)
    ensures e.Batch? && Increasing(MinutesOf(e.batch)) ==>
              forall c :: c in e.batch && c.minute < e.cutoff ==>
                && Decided(s.staged, Step(s, e).staged, c)
                && (c.minute !in s.staged ==> Step(s, e).staged[c.minute] == RawRow(c.row, 1))
    ensures e.Page? ==>
              forall m :: m in e.minutes && m in s.staged ==>
                Decided(s.tables.raw, Step(s, e).tables.raw, Candle(m, s.staged[m].row))
    ensures forall m :: m in s.tables.raw && !Stores(s, e, m) ==>
              m in Step(s, e).tables.raw && Step(s, e).tables.raw[m] == s.tables.raw[m]
  {
    hide Decided, Increasing, UpsertAll, StageAll, Mark, BatchBlocks;
    match e
    case RawBatch(batch) =>
      if Increasing(MinutesOf(batch)) { UpsertAllDecides(s.tables, batch); }
    case Batch(batch, cutoff) =>
      if Increasing(MinutesOf(batch)) {
        SplitAtCutoff(batch, cutoff);
        UpsertAllDecides(s.tables, Live(batch, cutoff));
        StageAllDecides(s.staged, Historical(batch, cutoff));
        forall m ensures m in MinutesOf(Live(batch, cutoff)) <==> m in MinutesOf(batch) && m >= cutoff {
          LiveMinutes(batch, cutoff, m);
        }
      }
    case Page(minutes) =>
      var page := minutes * s.staged.Keys;
      forall m | m in page ensures Decided(s.tables.raw, Promote(s, minutes).tables.raw, Candle(m, s.staged[m].row)) {
        PageDecides(s, minutes, m);
      }
      UpsertAllDecides(s.tables, PageBatch(s.staged, page));
      assert forall m :: m in Ordered(page) <==> m in page;
  }

  /** A deletion takes the row and exactly the ranges over its minute; ledger and staging stay. */
  lemma DeletionTakes(s: Asset, minute: int)
    ensures Step(s, Deletion(minute)) ==
              if minute !in s.tables.raw then s
              else
                Asset(Tables(s.tables.raw - {minute}, s.tables.ledger),
                      (set r | r in s.ranges && (minute < r.start || r.end < minute)),
                      s.staged)
  {
  }

  lemma SpanGrows(rows: set<Range>, r: Range, start: int, end: int)
    ensures var low, high := MinOf(Starts(rows) + {start}), MaxOf(Ends(rows) + {end});
            && MinOf(Starts(rows + {r}) + {start}) == (if r.start < low then r.start else low)
            && MaxOf(Ends(rows + {r}) + {end}) == (if high < r.end then r.end else high)
  {
    assert Starts(rows + {r}) + {start} == Starts(rows) + {start} + {r.start};
    assert Ends(rows + {r}) + {end} == Ends(rows) + {end} + {r.end};
  }

  // ---- The tables in place -------------------------------------------------------------------------

  /** The rows of one asset, updated in place by the ingestion service. */
  class CandleTables {
    var raw: map<int, RawRow>
    var ledger: map<(int, int), Row>
    var ranges: set<Range>
    var staged: map<int, RawRow>

    ghost function State(): Asset
      reads this
    {
      Asset(Tables(raw, ledger), ranges, staged)
    }

    ghost predicate Valid()
      reads this
    {
      Consistent(State())
    }

    constructor ()
      ensures Valid() && State() == Asset(Tables(map[], map[]), {}, map[])
    {
      raw, ledger, ranges, staged := map[], map[], {}, map[];
      new;
      forall m ensures MinuteValid(Tables(map[], map[]), m) {
        assert Revisions(map[], m) == {};
      }
    }

    method UpsertRaw(batch: seq<Candle>)
      modifies `raw, `ledger
      ensures Tables(raw, ledger) == UpsertAll(old(Tables(raw, ledger)), batch)
    {
      ghost var before := Tables(raw, ledger);
      for i := 0 to |batch|
        invariant Tables(raw, ledger) == UpsertAll(before, batch[..i])
      {
        assert batch[..i + 1][..i] == batch[..i];
        var after := Upsert(Tables(raw, ledger), batch[i]).value;
        raw, ledger := after.raw, after.ledger;
      }
      assert batch[..|batch|] == batch;
    }

    method UpsertStaged(batch: seq<Candle>)
      modifies `staged
      ensures staged == StageAll(old(staged), batch)
    {
      ghost var before := staged;
      for i := 0 to |batch|
        invariant staged == StageAll(before, batch[..i])
      {
        assert batch[..i + 1][..i] == batch[..i];
        staged := Stage(staged, batch[i]);
      }
      assert batch[..|batch|] == batch;
    }

    /** Inserts a range; the trigger and the overlap constraint are preconditions it must meet. */
    method InsertRange(r: Range)
      requires CoverageProof(raw.Keys, r.start, r.end)
      requires !Collides(ranges, r)
      modifies `ranges
      ensures ranges == old(ranges) + {r}
    {
      ranges := ranges + {r};
    }

    /** Replaces every touching range by one that spans them and the proven interval. */
    method MergeVerified(start: int, end: int)
      requires Sound(ranges, raw.Keys) && Separated(ranges)
      requires start <= end && Filled(raw.Keys, start, end)
      modifies `ranges
      ensures ranges == Merge(old(ranges), start, end)
    {
      var overlaps := Touching(ranges, start, end);
      var mergedStart, mergedEnd := start, end;
      var toDelete: set<Range> := {};
      var rest := overlaps;
      while rest != {}
        invariant ranges == old(ranges)
        invariant toDelete + rest == overlaps && toDelete !! rest
        invariant mergedStart == MinOf(Starts(toDelete) + {start})
        invariant mergedEnd == MaxOf(Ends(toDelete) + {end})
        decreases rest
      {
        var r :| r in rest;
        SpanGrows(toDelete, r, start, end);
        mergedStart := if r.start < mergedStart then r.start else mergedStart;
        mergedEnd := if mergedEnd < r.end then r.end else mergedEnd;
        toDelete := toDelete + {r};
        rest := rest - {r};
      }
      assert toDelete == overlaps;
      MergedRowIsAdmissible(ranges, raw.Keys, start, end);
      ranges := ranges - toDelete;
      InsertRange(Range(mergedStart, mergedEnd));
    }

    /** Claims the blocks raw storage proves; the others are skipped. */
    method MarkVerified(blocks: seq<Range>)
      requires Sound(ranges, raw.Keys) && Separated(ranges)
      modifies `ranges
      ensures ranges == Mark(old(ranges), raw.Keys, blocks)
      ensures Sound(ranges, raw.Keys) && Separated(ranges)
    {
      ghost var before := ranges;
      for i := 0 to |blocks|
        invariant ranges == Mark(before, raw.Keys, blocks[..i])
        invariant Sound(ranges, raw.Keys) && Separated(ranges)
      {
        assert blocks[..i + 1][..i] == blocks[..i];
        var block := blocks[i];
        CoverageProofIsComplete(raw.Keys, block.start, block.end);
        if !CoverageProof(raw.Keys, block.start, block.end) {
          continue;
        }
        MergeKeepsInvariant(ranges, raw.Keys, block.start, block.end);
        MergeVerified(block.start, block.end);
      }
      assert blocks[..|blocks|] == blocks;
    }

    /** Registers an interval on a caller's word only if raw storage proves it. */
    method UpdateSyncRanges(start: int, end: int) returns (ok: bool)
      requires Valid()
      modifies `ranges
      ensures ok <==> start <= end && Filled(raw.Keys, start, end)
      ensures ranges == if ok then Merge(old(ranges), start, end) else old(ranges)
      ensures Valid()
    {
      CoverageProofIsComplete(raw.Keys, start, end);
      ok := CoverageProof(raw.Keys, start, end);
      if ok {
        MergeKeepsInvariant(ranges, raw.Keys, start, end);
        MergeVerified(start, end);
      }
    }

    /** The canonical commit path. */
    method CommitRawBatch(batch: seq<Candle>) returns (ok: bool)
      requires Valid()
      modifies this
      ensures ok <==> Increasing(MinutesOf(batch))
      ensures State() == CommitRaw(old(State()), batch)
      ensures Valid()
    {
      hide CommitRaw, UpsertAll, Mark, Blocks, Exact, Consistent, Increasing, Sound, Separated;
      ghost var before := State();
      CommitRawKeepsConsistent(before, batch);
      var blocks;
      ok, blocks := ContiguousBlocks(MinutesOf(batch));
      CommitRawInStages(before, batch, blocks);
      if !ok {
        return;
      }
      UpsertRaw(batch);
      MarkVerified(blocks);
    }

    /** The ordinary commit path: recent candles are canonical at once, older ones are staged. */
    method CommitBatch(batch: seq<Candle>, cutoff: int) returns (ok: bool)
      requires Valid()
      modifies this
      ensures ok <==> Increasing(MinutesOf(batch))
      ensures State() == Commit(old(State()), batch, cutoff)
      ensures Valid()
    {
      var blocks;
      ok, blocks := ContiguousBlocks(MinutesOf(batch));
      if !ok {
        return;
      }
      SplitAtCutoff(batch, cutoff);
      var live, historical := Live(batch, cutoff), Historical(batch, cutoff);
      CommitRawKeepsConsistent(State(), live);
      if live != [] {
        var _ := CommitRawBatch(live);
      }
      if historical != [] {
        UpsertStaged(historical);
      }
    }

    /** Commits one page of staged minutes and removes exactly that page from staging. */
    method PromotePage(page: set<int>)
      requires Valid()
      requires page <= staged.Keys
      modifies this
      ensures State() == Promote(old(State()), page)
      ensures Valid()
    {
      assert page * staged.Keys == page;
      var batch := PageBatch(staged, page);
      var _ := CommitRawBatch(batch);
      staged := staged - page;
    }

    method DeleteMinute(minute: int)
      requires Valid()
      modifies `raw, `ranges
      ensures State() == Remove(old(State()), minute)
      ensures Valid()
    {
      StepKeepsConsistent(State(), Deletion(minute));
      if minute in raw {
        raw := raw - {minute};
        ranges := Invalidate(ranges, minute);
      }
    }
  }
}
