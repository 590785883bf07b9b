/**
 Gap repair end to end: jobs over closed windows of one asset, claimed by workers that may pause
 at any point, fenced batches, parking until staged history is promoted, release, and completion
 together with the refresh windows it schedules.  Raw rows may be deleted at any time.
 */
module GapPipeline {
  import opened Wrappers
  import opened Coverage
  import opened CandleLedger
  import opened CandleStore
  import Jobs = JobClaims
  import Gap = GapDetection
  import Scheduling
  import Alignment = BucketAlignment

  /** The instant of a minute's candle, in microseconds. */
  function At(minute: int): int { minute * 60_000_000 }

  /** A repair job: a window closed at both ends and the history of its claims. */
  datatype GapJob = GapJob(asset: int, start: int, end: int, claims: Jobs.Sys)

  /** `cleared` holds the claims whose worker has seen complete coverage of its window. */
  datatype System = System(
    assets: map<int, Asset>,
    jobs: seq<GapJob>,
    refresh: seq<Scheduling.Job>,
    cleared: set<(nat, nat)>)

  function SpanOf(r: Range): Gap.Span { Gap.Span(At(r.start), At(r.end)) }

  /** The index rows of an asset in some order. */
  ghost predicate Lists(stored: seq<Gap.Span>, ranges: set<Range>) {
    forall s :: s in stored <==> exists r :: r in ranges && SpanOf(r) == s
  }

  datatype Event =
    | Ingest(asset: int, transaction: CandleStore.Event)
    | Create(asset: int, start: int, end: int, maxRetries: nat)
    | Claim(job: nat, worker: int, now: int, duration: int, respectSchedule: bool)
    | Heartbeat(job: nat, worker: int, token: nat, now: int, duration: int)
    | Repair(job: nat, worker: int, token: nat, now: int, batch: seq<Candle>, cutoff: int)
    | Verify(job: nat, token: nat, stored: seq<Gap.Span>, maxRanges: nat, maxGaps: nat)
    | Park(job: nat, worker: int, token: nat, now: int)
    | Release(job: nat, now: int)
    | Fail(job: nat, worker: int, token: nat, now: int, retryable: bool)
    | Complete(job: nat, worker: int, token: nat, now: int)
    | RefreshEnds(index: nat)

  /** The window is closed at both ends. */
  predicate InWindow(job: GapJob, minute: int) { job.start <= minute * 60_000_000 <= job.end }

  predicate StagedInWindow(s: Asset, job: GapJob) {
    exists m :: m in s.staged && job.start <= At(m) && At(m) <= job.end
  }

  function ClaimStep(s: System, job: nat, e: Jobs.Event): System
    requires job < |s.jobs|
  {
    s.(jobs := s.jobs[job := s.jobs[job].(claims := Jobs.Step(Jobs.Gap, s.jobs[job].claims, e))])
  }

  predicate OwnsJob(s: System, job: nat, worker: int, token: nat, now: int) {
    job < |s.jobs| && Jobs.Owns(s.jobs[job].claims.job, worker, token, now)
  }

  /** The refresh window of a completed repair: whole days, the last candle's day included. */
  function RefreshWindow(job: GapJob): (int, int)
    requires job.start < job.end
  {
    Alignment.Align(job.start, job.end, Alignment.Day, true).value
  }

  ghost function Step(s: System, e: Event): System {
    match e
    case Ingest(asset, transaction) =>
      if asset in s.assets then
        s.(assets := s.assets[asset := CandleStore.Step(s.assets[asset], transaction)])
      else s
    case Create(asset, start, end, maxRetries) =>
      if asset in s.assets && start < end then
        s.(jobs := s.jobs + [GapJob(asset, start, end, Jobs.Init(maxRetries))])
      else s
    case Claim(job, worker, now, duration, respect) =>
      if job < |s.jobs| then ClaimStep(s, job, Jobs.Claim(worker, now, duration, respect)) else s
    case Heartbeat(job, worker, token, now, duration) =>
      if job < |s.jobs| then ClaimStep(s, job, Jobs.Heartbeat(worker, token, now, duration)) else s
    case Repair(job, worker, token, now, batch, cutoff) =>
      if OwnsJob(s, job, worker, token, now) && s.jobs[job].asset in s.assets then
        var asset := s.jobs[job].asset;
        s.(assets := s.assets[asset := CandleStore.Step(s.assets[asset], Batch(batch, cutoff))])
      else s
    case Verify(job, token, stored, maxRanges, maxGaps) =>
      if job < |s.jobs| && token < s.jobs[job].claims.issued && s.jobs[job].asset in s.assets &&
         maxRanges > 0 && maxGaps > 0 &&
         Lists(stored, s.assets[s.jobs[job].asset].ranges) &&
         Gap.Gaps(stored, s.jobs[job].start, s.jobs[job].end, maxRanges, maxGaps) == []
      then s.(cleared := s.cleared + {(job, token)})
      else s
    case Park(job, worker, token, now) =>
      if job < |s.jobs| then ClaimStep(s, job, Jobs.Park(worker, token, now)) else s
    case Release(job, now) =>
      if job < |s.jobs| && s.jobs[job].asset in s.assets &&
         !StagedInWindow(s.assets[s.jobs[job].asset], s.jobs[job])
      then ClaimStep(s, job, Jobs.Release(now))
      else s
    case Fail(job, worker, token, now, retryable) =>
      if job < |s.jobs| then ClaimStep(s, job, Jobs.Fail(worker, token, now, retryable)) else s
    case Complete(job, worker, token, now) =>
      if OwnsJob(s, job, worker, token, now) && (job, token) in s.cleared && s.jobs[job].start < s.jobs[job].end then
        var (low, high) := RefreshWindow(s.jobs[job]);
        ClaimStep(s, job, Jobs.Complete(worker, token, now)).(refresh := Scheduling.Schedule(s.refresh, low, high, -1))
      else s
    case RefreshEnds(index) => s.(refresh := Scheduling.Retire(s.refresh, index))
  }

  ghost function Run(s: System, es: seq<Event>): System {
    if es == [] then s else Step(Run(s, es[..|es| - 1]), es[|es| - 1])
  }

  function Start(assets: map<int, Asset>): System { System(assets, [], [], {}) }

  // ---- A verified window is stored --------------------------------------------------------------

  ghost predicate WindowStored(s: System, job: GapJob) {
    job.asset in s.assets && forall m :: InWindow(job, m) ==> m in s.assets[job.asset].tables.raw
  }

  lemma SpansAreDisjoint(stored: seq<Gap.Span>, ranges: set<Range>, raw: set<int>)
    requires Lists(stored, ranges) && Sound(ranges, raw) && Separated(ranges)
    ensures Gap.Disjoint(stored)
  {
    forall s | s in stored ensures s.start <= s.end {
      var r :| r in ranges && SpanOf(r) == s;
    }
    forall s, u | s in stored && u in stored && s != u ensures s.end < u.start || u.end < s.start {
      var r :| r in ranges && SpanOf(r) == s;
      var q :| q in ranges && SpanOf(q) == u;
    }
  }

  /** An empty detection result, under any caps, proves every minute of the window. */
  lemma NoGapsMeansStored(asset: Asset, job: GapJob, stored: seq<Gap.Span>, maxRanges: nat, maxGaps: nat)
    requires Sound(asset.ranges, asset.Present()) && Separated(asset.ranges)
    requires Lists(stored, asset.ranges) && job.start < job.end && maxRanges > 0 && maxGaps > 0
    requires Gap.Gaps(stored, job.start, job.end, maxRanges, maxGaps) == []
    ensures forall m :: InWindow(job, m) ==> m in asset.tables.raw
  {
    SpansAreDisjoint(stored, asset.ranges, asset.Present());
    Gap.EmptyIffCovered(stored, job.start, job.end, maxRanges, maxGaps);
    var span :| span in stored && span.start <= job.start && job.end <= span.end;
    var r :| r in asset.ranges && SpanOf(r) == span;
    forall m | InWindow(job, m) ensures m in asset.tables.raw {
      assert r.start <= m <= r.end;
    }
  }

  /** The last minute not after the start of the window, and the first not before its end. */
  function FirstMinute(job: GapJob): int { job.start / 60_000_000 }

  function LastMinute(job: GapJob): int { (job.end + 59_999_999) / 60_000_000 }

  lemma MinutesAround(job: GapJob, m: int)
    ensures At(FirstMinute(job)) <= job.start && job.end <= At(LastMinute(job))
    ensures m <= FirstMinute(job) <==> At(m) <= job.start
    ensures LastMinute(job) <= m <==> job.end <= At(m)
  {
  }

  /**
   When the index is exact, detection over a window is empty exactly when raw storage holds every
   minute from the one at or before its start to the one at or after its end.  For a window of whole
   minutes these are its own minutes, so a released job whose rows all arrived needs no download.
   */
  lemma NoGapsIffStored(asset: Asset, job: GapJob, stored: seq<Gap.Span>, maxRanges: nat, maxGaps: nat)
    requires Exact(asset.ranges, asset.Present()) && Lists(stored, asset.ranges)
    requires job.start < job.end && maxRanges > 0 && maxGaps > 0
    ensures Gap.Gaps(stored, job.start, job.end, maxRanges, maxGaps) == [] <==>
              forall m :: FirstMinute(job) <= m <= LastMinute(job) ==> m in asset.tables.raw
  {
    ExactIffSoundSeparatedCovers(asset.ranges, asset.Present());
    SpansAreDisjoint(stored, asset.ranges, asset.Present());
    Gap.EmptyIffCovered(stored, job.start, job.end, maxRanges, maxGaps);
    hide FirstMinute, LastMinute, Gap.Gaps, Exact, Lists, Sound, Separated, Covers;
    SpanAroundIff(asset, job, stored);
  }

  lemma SpanAroundIff(asset: Asset, job: GapJob, stored: seq<Gap.Span>)
    requires Sound(asset.ranges, asset.Present()) && Separated(asset.ranges) && Covers(asset.ranges, asset.Present())
    requires Lists(stored, asset.ranges) && job.start < job.end
    ensures (exists span :: span in stored && span.start <= job.start && job.end <= span.end) <==>
              forall m :: FirstMinute(job) <= m <= LastMinute(job) ==> m in asset.tables.raw
  {
    var a, b := FirstMinute(job), LastMinute(job);
    MinutesAround(job, a);
    hide FirstMinute, LastMinute;
    if span :| span in stored && span.start <= job.start && job.end <= span.end {
      var r :| r in asset.ranges && SpanOf(r) == span;
      MinutesAround(job, r.start);
      MinutesAround(job, r.end);
      assert forall m :: r.start <= m <= r.end ==> m in asset.Present();
    }
    if forall m :: a <= m <= b ==> m in asset.tables.raw {
      forall m | a <= m <= b ensures Covered(asset.ranges, m) {
        assert m in asset.Present();
      }
      var r := FilledBlockHasOneRow(asset.ranges, asset.Present(), a, b);
      assert SpanOf(r) in stored;
    }
  }

  /**
   A window whose own minutes are all stored stays open exactly while a minute it only touches is
   missing: one that ends inside a minute waits for the next candle.
   */
  lemma StoredWindowOpenIff(asset: Asset, job: GapJob, stored: seq<Gap.Span>, maxRanges: nat, maxGaps: nat)
    requires Exact(asset.ranges, asset.Present()) && Lists(stored, asset.ranges)
    requires job.start < job.end && maxRanges > 0 && maxGaps > 0
    requires forall m :: InWindow(job, m) ==> m in asset.tables.raw
    ensures Gap.Gaps(stored, job.start, job.end, maxRanges, maxGaps) != [] <==>
              FirstMinute(job) !in asset.tables.raw || LastMinute(job) !in asset.tables.raw
  {
    NoGapsIffStored(asset, job, stored, maxRanges, maxGaps);
    hide Gap.Gaps, Exact, Lists, FirstMinute, LastMinute;
    MinutesAround(job, FirstMinute(job));
    forall m | FirstMinute(job) < m < LastMinute(job) ensures m in asset.tables.raw {
      MinutesAround(job, m);
      assert InWindow(job, m);
    }
  }

  /** Minutes 0 and 1 are stored and indexed; a window that ends a microsecond after minute 1 has a gap. */
  lemma StoredWindowStaysOpen(row: Row, maxRanges: nat, maxGaps: nat)
    requires maxRanges > 0 && maxGaps > 0
    ensures var raw := map[0 := RawRow(row, 1), 1 := RawRow(row, 1)];
            var s := Asset(Tables(raw, map[(0, 1) := row, (1, 1) := row]), {Range(0, 1)}, map[]);
            var job := GapJob(1, 0, At(1) + 1, Jobs.Init(0));
            var stored := [Gap.Span(0, At(1))];
            && Exact(s.ranges, s.Present()) && Lists(stored, s.ranges)
            && (forall m :: InWindow(job, m) ==> m in s.tables.raw)
            && Gap.Gaps(stored, job.start, job.end, maxRanges, maxGaps) != []
  {
    var raw := map[0 := RawRow(row, 1), 1 := RawRow(row, 1)];
    var s := Asset(Tables(raw, map[(0, 1) := row, (1, 1) := row]), {Range(0, 1)}, map[]);
    var job, stored := GapJob(1, 0, At(1) + 1, Jobs.Init(0)), [Gap.Span(0, At(1))];
    TwoMinutesAreExact();
    assert s.Present() == {0, 1} && SpanOf(Range(0, 1)) == stored[0];
    assert LastMinute(job) == 2;
    hide Exact, Gap.Gaps, FirstMinute, LastMinute;
    StoredWindowOpenIff(s, job, stored, maxRanges, maxGaps);
  }

  lemma TwoMinutesAreExact()
    ensures Exact({Range(0, 1)}, {0, 1})
  {
    var ranges, minutes := {Range(0, 1)}, {0, 1};
    forall m | m in minutes ensures Covered(ranges, m) {
      assert Range(0, 1) in ranges;
    }
    ExactIffSoundSeparatedCovers(ranges, minutes);
  }

  // ---- What every run keeps ---------------------------------------------------------------------

  ghost predicate Indexed(s: System) {
    forall a :: a in s.assets ==> Sound(s.assets[a].ranges, s.assets[a].Present()) && Separated(s.assets[a].ranges)
  }

  /** The claim that completed the job, if one did, is the last that ended it. */
  predicate Completer(s: System, job: nat, token: nat) {
    && job < |s.jobs|
    && s.jobs[job].claims.job.status == Jobs.Completed
    && s.jobs[job].claims.ended != []
    && s.jobs[job].claims.ended[|s.jobs[job].claims.ended| - 1] == token
  }

  ghost predicate JobsGood(s: System) {
    forall i: nat :: i < |s.jobs| ==>
      && s.jobs[i].start < s.jobs[i].end
      && s.jobs[i].asset in s.assets
      && Jobs.Fenced(s.jobs[i].claims)
      && (s.jobs[i].claims.job.status == Jobs.Completed ==>
            exists token: nat :: Completer(s, i, token) && (i, token) in s.cleared)
  }

  ghost predicate ClearedGood(s: System) {
    forall i: nat, t: nat :: (i, t) in s.cleared ==> i < |s.jobs| && t < s.jobs[i].claims.issued
  }

  ghost predicate Good(s: System) {
    Indexed(s) && JobsGood(s) && ClearedGood(s) && Scheduling.ValidTable(s.refresh)
  }

  lemma IngestKeepsGood(s: System, asset: int, transaction: CandleStore.Event)
    requires Good(s) && asset in s.assets
    ensures Good(s.(assets := s.assets[asset := CandleStore.Step(s.assets[asset], transaction)]))
  {
    hide JobsGood, Scheduling.ValidTable, CandleStore.Step, Sound, Separated;
    StepKeepsIndexed(s.assets[asset], transaction);
    JobsStayGood(s, s.assets[asset := CandleStore.Step(s.assets[asset], transaction)]);
  }

  lemma JobsStayGood(s: System, assets: map<int, Asset>)
    requires JobsGood(s) && s.assets.Keys <= assets.Keys
    ensures JobsGood(s.(assets := assets))
  {
    hide Jobs.Fenced;
    var next := s.(assets := assets);
    SameCompleters(s, next);
    hide Completer;
    forall i: nat | i < |s.jobs| && s.jobs[i].claims.job.status == Jobs.Completed
      ensures exists token: nat :: Completer(next, i, token) && (i, token) in next.cleared
    {
      var token: nat :| Completer(s, i, token) && (i, token) in s.cleared;
      assert Completer(next, i, token);
    }
  }

  /** Tokens are never taken back, only completion completes, and a completed job has one completer. */
  lemma ClaimStepStatus(claims: Jobs.Sys, e: Jobs.Event)
    ensures var after := Jobs.Step(Jobs.Gap, claims, e);
            && claims.issued <= after.issued
            && (claims.job.status == Jobs.Completed ==>
                  after.job.status == Jobs.Completed && after.ended == claims.ended)
            && (after.job.status == Jobs.Completed && claims.job.status != Jobs.Completed ==>
                  e.Complete? && after.ended == claims.ended + [e.token])
  {
  }

  lemma ClaimStepKeepsGood(s: System, job: nat, e: Jobs.Event)
    requires Good(s) && job < |s.jobs|
    requires e.Complete? ==> (job, e.token) in s.cleared
    ensures Good(ClaimStep(s, job, e))
  {
    Jobs.StepKeepsFenced(Jobs.Gap, s.jobs[job].claims, e);
    ClaimStepStatus(s.jobs[job].claims, e);
    hide Jobs.Fenced, Jobs.Step;
    var after := ClaimStep(s, job, e);
    forall i: nat | i < |after.jobs| && after.jobs[i].claims.job.status == Jobs.Completed
      ensures exists token: nat :: Completer(after, i, token) && (i, token) in after.cleared
    {
      if i != job || s.jobs[job].claims.job.status == Jobs.Completed {
        var token: nat :| Completer(s, i, token) && (i, token) in s.cleared;
        assert Completer(after, i, token);
      } else {
        assert Completer(after, i, e.token);
      }
    }
  }

  lemma StepKeepsGood(s: System, e: Event)
    requires Good(s)
    ensures Good(Step(s, e))
  {
    hide Good, Jobs.Fenced, Jobs.Step, CandleStore.Step, Scheduling.ValidTable, Scheduling.Schedule, Gap.Gaps, Lists;
    match e
    case Ingest(asset, transaction) =>
      if asset in s.assets { IngestKeepsGood(s, asset, transaction); }
    case Create(_, _, _, maxRetries) => CreateKeepsGood(s, e);
    case Claim(job, worker, now, duration, respect) =>
      if job < |s.jobs| { ClaimStepKeepsGood(s, job, Jobs.Claim(worker, now, duration, respect)); }
    case Heartbeat(job, worker, token, now, duration) =>
      if job < |s.jobs| { ClaimStepKeepsGood(s, job, Jobs.Heartbeat(worker, token, now, duration)); }
    case Repair(job, worker, token, now, batch, cutoff) =>
      if OwnsJob(s, job, worker, token, now) && s.jobs[job].asset in s.assets {
        IngestKeepsGood(s, s.jobs[job].asset, Batch(batch, cutoff));
      }
    case Verify(job, token, stored, maxRanges, maxGaps) => VerifyKeepsGood(s, e);
    case Park(job, worker, token, now) =>
      if job < |s.jobs| { ClaimStepKeepsGood(s, job, Jobs.Park(worker, token, now)); }
    case Release(job, now) =>
      if job < |s.jobs| { ClaimStepKeepsGood(s, job, Jobs.Release(now)); }
    case Fail(job, worker, token, now, retryable) =>
      if job < |s.jobs| { ClaimStepKeepsGood(s, job, Jobs.Fail(worker, token, now, retryable)); }
    case Complete(job, worker, token, now) => CompleteKeepsGood(s, job, worker, token, now);
    case RefreshEnds(index) => RefreshEndKeepsGood(s, index);
  }

  lemma RefreshEndKeepsGood(s: System, index: nat)
    requires Good(s)
    ensures Good(s.(refresh := Scheduling.Retire(s.refresh, index)))
  {
    hide Jobs.Fenced;
    SameCompleters(s, s.(refresh := Scheduling.Retire(s.refresh, index)));
  }

  lemma SameCompleters(s: System, next: System)
    requires s.jobs <= next.jobs
    ensures forall i: nat, token: nat :: Completer(s, i, token) ==> Completer(next, i, token)
  {
  }

  lemma CreateKeepsGood(s: System, e: Event)
    requires Good(s) && e.Create?
    ensures Good(Step(s, e))
  {
    SameCompleters(s, Step(s, e));
    hide Completer;
  }

  lemma VerifyKeepsGood(s: System, e: Event)
    requires Good(s) && e.Verify?
    ensures Good(Step(s, e))
  {
    hide Jobs.Fenced, Lists, Gap.Gaps;
    SameCompleters(s, Step(s, e));
    hide Completer;
  }

  lemma CompleteKeepsGood(s: System, job: nat, worker: int, token: nat, now: int)
    requires Good(s)
    ensures Good(Step(s, Complete(job, worker, token, now)))
  {
    hide Jobs.Fenced, Jobs.Step, Scheduling.ValidTable, Scheduling.Schedule;
    if OwnsJob(s, job, worker, token, now) && (job, token) in s.cleared {
      ClaimStepKeepsGood(s, job, Jobs.Complete(worker, token, now));
      var (low, high) := RefreshWindow(s.jobs[job]);
      Scheduling.ScheduleKeepsValid(s.refresh, low, high, -1);
      var mid, after := ClaimStep(s, job, Jobs.Complete(worker, token, now)), Step(s, Complete(job, worker, token, now));
      SameCompleters(mid, after);
      hide Completer;
    }
  }

  lemma {:induction false} RunKeepsGood(s: System, es: seq<Event>)
    requires Good(s)
    ensures Good(Run(s, es))
  {
    if es != [] {
      RunKeepsGood(s, es[..|es| - 1]);
      StepKeepsGood(Run(s, es[..|es| - 1]), es[|es| - 1]);
    }
  }

  lemma StartIsGood(assets: map<int, Asset>)
    requires forall a :: a in assets ==> Consistent(assets[a])
    ensures Good(Start(assets))
  {
  }

  predicate SameWindow(a: GapJob, b: GapJob) { a.asset == b.asset && a.start == b.start && a.end == b.end }

  /** Jobs keep their windows, and assets are never dropped. */
  lemma StepKeepsShape(s: System, e: Event, job: nat)
    requires job < |s.jobs|
    ensures job < |Step(s, e).jobs| && SameWindow(Step(s, e).jobs[job], s.jobs[job])
    ensures forall a :: a in s.assets ==> a in Step(s, e).assets
  {
    hide Jobs.Step, CandleStore.Step, Gap.Gaps, Lists, RefreshWindow, Scheduling.Schedule, Scheduling.Retire;
  }

  // ---- Completed windows ---------------------------------------------------------------------------

  predicate Deletes(e: Event, asset: int, m: int) { e == Ingest(asset, Deletion(m)) }

  predicate NoDeletes(es: seq<Event>) { forall e :: e in es ==> !(e.Ingest? && e.transaction.Deletion?) }

  predicate Missing(s: System, asset: int, m: int) { asset in s.assets && m !in s.assets[asset].tables.raw }

  /** The step stores the minute: a transaction of its own, or a batch of the owner of a repair. */
  predicate Brings(s: System, e: Event, asset: int, m: int) {
    && asset in s.assets
    && match e
       case Ingest(a, transaction) => a == asset && Stores(s.assets[asset], transaction, m)
       case Repair(job, worker, token, now, batch, cutoff) =>
         OwnsJob(s, job, worker, token, now) && s.jobs[job].asset == asset &&
         Stores(s.assets[asset], Batch(batch, cutoff), m)
       case _ => false
  }

  /** Exactly these steps store a minute, and only its own deletion takes it away. */
  lemma StoredAfterIff(s: System, e: Event, asset: int, m: int)
    requires asset in s.assets
    ensures asset in Step(s, e).assets
    ensures m in Step(s, e).assets[asset].tables.raw <==>
              Brings(s, e, asset, m) || (m in s.assets[asset].tables.raw && !Deletes(e, asset, m))
  {
    hide CandleStore.Step, Stores, Jobs.Step, Gap.Gaps, Lists, RefreshWindow, Scheduling.Schedule, Scheduling.Retire;
    if e.Ingest? && e.asset == asset {
      PresentAfterIff(s.assets[asset], e.transaction, m);
    }
    if e.Repair? && OwnsJob(s, e.job, e.worker, e.token, e.now) && s.jobs[e.job].asset == asset {
      PresentAfterIff(s.assets[asset], Batch(e.batch, e.cutoff), m);
    }
  }

  /** Event `n` deleted the minute after the claim had been cleared, and no later event brought it back. */
  ghost predicate GoneSince(s: System, es: seq<Event>, n: int, asset: int, m: int, job: nat, token: nat) {
    && 0 <= n < |es|
    && Deletes(es[n], asset, m)
    && (job, token) in Run(s, es[..n]).cleared
    && forall k :: n < k < |es| ==> !Brings(Run(s, es[..k]), es[k], asset, m)
  }

  /** A minute of a cleared window is missing only if it was deleted since and never came back. */
  lemma {:induction false} ClearedMinute(s: System, es: seq<Event>, job: nat, token: nat, m: int) returns (n: int)
    requires Good(s) && s.cleared == {} && (job, token) in Run(s, es).cleared
    requires job < |Run(s, es).jobs| && InWindow(Run(s, es).jobs[job], m)
    requires Missing(Run(s, es), Run(s, es).jobs[job].asset, m)
    ensures GoneSince(s, es, n, Run(s, es).jobs[job].asset, m, job, token)
  {
    var before, e := es[..|es| - 1], es[|es| - 1];
    var mid, asset := Run(s, before), Run(s, es).jobs[job].asset;
    RunKeepsGood(s, before);
    assert Run(s, es) == Step(mid, e);
    hide Good, Step, Run, Missing, GoneSince, Deletes, InWindow;
    MissingBefore(mid, e, job, token, m);
    if Missing(mid, asset, m) {
      n := ClearedMinute(s, before, job, token, m);
      NothingBrought(mid, e, asset, m);
      StillGone(s, es, n, asset, m, job, token);
    } else {
      n := |es| - 1;
      JustGone(s, es, asset, m, job, token);
    }
  }

  lemma NothingBrought(s: System, e: Event, asset: int, m: int)
    requires Missing(Step(s, e), asset, m)
    ensures !Brings(s, e, asset, m)
  {
    hide Step, Deletes;
    if asset in s.assets {
      StoredAfterIff(s, e, asset, m);
    }
  }

  /** A minute of a cleared window missing after a step was missing before it, or the step deleted it. */
  lemma MissingBefore(s: System, e: Event, job: nat, token: nat, m: int)
    requires Good(s) && (job, token) in Step(s, e).cleared
    requires job < |Step(s, e).jobs| && InWindow(Step(s, e).jobs[job], m)
    requires Missing(Step(s, e), Step(s, e).jobs[job].asset, m)
    ensures (job, token) in s.cleared && job < |s.jobs|
    ensures SameWindow(Step(s, e).jobs[job], s.jobs[job]) && InWindow(s.jobs[job], m)
    ensures Missing(s, s.jobs[job].asset, m) || Deletes(e, s.jobs[job].asset, m)
  {
    hide Good, Step, Deletes;
    if (job, token) !in s.cleared {
      FreshlyCleared(s, e, job, token, m);
      assert false;
    } else {
      ClearedJobExists(s, job, token);
      StepKeepsShape(s, e, job);
      if !Missing(s, s.jobs[job].asset, m) {
        StoredAfterIff(s, e, s.jobs[job].asset, m);
      }
    }
  }

  lemma JustGone(s: System, es: seq<Event>, asset: int, m: int, job: nat, token: nat)
    requires es != [] && Deletes(es[|es| - 1], asset, m)
    requires (job, token) in Run(s, es[..|es| - 1]).cleared
    ensures GoneSince(s, es, |es| - 1, asset, m, job, token)
  {
    hide Run, Deletes, Brings;
  }

  lemma ClearedJobExists(s: System, job: nat, token: nat)
    requires Good(s) && (job, token) in s.cleared
    ensures job < |s.jobs| && s.jobs[job].asset in s.assets
  {
  }

  lemma StillGone(s: System, es: seq<Event>, n: int, asset: int, m: int, job: nat, token: nat)
    requires es != [] && GoneSince(s, es[..|es| - 1], n, asset, m, job, token)
    requires !Brings(Run(s, es[..|es| - 1]), es[|es| - 1], asset, m)
    ensures GoneSince(s, es, n, asset, m, job, token)
  {
    hide Run, Brings, Deletes;
    var before := es[..|es| - 1];
    assert forall k :: 0 <= k < |es| ==> es[..k] == before[..k];
  }

  /** Assets are neither added nor dropped. */
  lemma {:induction false} RunKeepsAssets(s: System, es: seq<Event>)
    ensures Run(s, es).assets.Keys == s.assets.Keys
  {
    if es != [] {
      RunKeepsAssets(s, es[..|es| - 1]);
      hide CandleStore.Step, Jobs.Step, Gap.Gaps, Lists, RefreshWindow, Scheduling.Schedule, Scheduling.Retire;
    }
  }

  /** A deleted minute stays missing until an event brings it back. */
  lemma {:induction false} GoneMeansMissing(s: System, es: seq<Event>, n: int, asset: int, m: int, job: nat, token: nat)
    requires GoneSince(s, es, n, asset, m, job, token) && asset in s.assets
    ensures Missing(Run(s, es), asset, m)
  {
    var before, e := es[..|es| - 1], es[|es| - 1];
    RunKeepsAssets(s, before);
    assert Run(s, es) == Step(Run(s, before), e);
    hide Run, Step, Deletes, Brings;
    StoredAfterIff(Run(s, before), e, asset, m);
    if n < |es| - 1 {
      assert forall k :: 0 <= k < |es| ==> es[..k] == before[..k];
      assert before[n] == es[n];
      GoneMeansMissing(s, before, n, asset, m, job, token);
    } else {
      NotBroughtByDeletion(Run(s, before), e, asset, m);
    }
  }

  lemma NotBroughtByDeletion(s: System, e: Event, asset: int, m: int)
    requires Deletes(e, asset, m)
    ensures !Brings(s, e, asset, m)
  {
  }

  /** The step that clears a claim sees every minute of the window in raw storage. */
  lemma FreshlyCleared(s: System, e: Event, job: nat, token: nat, m: int)
    requires Good(s) && (job, token) !in s.cleared && (job, token) in Step(s, e).cleared
    requires job < |Step(s, e).jobs| && InWindow(Step(s, e).jobs[job], m)
    ensures !Missing(Step(s, e), Step(s, e).jobs[job].asset, m)
  {
    ClearsByVerifying(s, e, job, token);
    var window := s.jobs[job];
    NoGapsMeansStored(s.assets[window.asset], window, e.stored, e.maxRanges, e.maxGaps);
  }

  lemma ClearsByVerifying(s: System, e: Event, job: nat, token: nat)
    requires (job, token) !in s.cleared && (job, token) in Step(s, e).cleared
    ensures e.Verify? && e.job == job && job < |s.jobs| && Step(s, e).jobs == s.jobs && Step(s, e).assets == s.assets
    ensures s.jobs[job].asset in s.assets && e.maxRanges > 0 && e.maxGaps > 0
    ensures Lists(e.stored, s.assets[s.jobs[job].asset].ranges)
    ensures Gap.Gaps(e.stored, s.jobs[job].start, s.jobs[job].end, e.maxRanges, e.maxGaps) == []
  {
    hide Jobs.Step, CandleStore.Step, Gap.Gaps, Lists, RefreshWindow, Scheduling.Schedule, Scheduling.Retire;
  }

  /**
   In every run, with deletions at any time: a minute of a completed job's window is missing from
   raw storage exactly when it was deleted after the completing claim had been cleared and no batch,
   page, insert or owned repair has stored it since.
   */
  lemma CompletedMinuteMissingIff(assets: map<int, Asset>, es: seq<Event>, job: nat, token: nat, m: int)
    requires forall a :: a in assets ==> Consistent(assets[a])
    requires Completer(Run(Start(assets), es), job, token) && InWindow(Run(Start(assets), es).jobs[job], m)
    ensures var s := Run(Start(assets), es);
            && s.jobs[job].asset in s.assets
            && (m !in s.assets[s.jobs[job].asset].tables.raw <==>
                  exists n :: GoneSince(Start(assets), es, n, s.jobs[job].asset, m, job, token))
  {
    StartIsGood(assets);
    RunKeepsGood(Start(assets), es);
    var s := Run(Start(assets), es);
    var other: nat :| Completer(s, job, other) && (job, other) in s.cleared;
    if Missing(s, s.jobs[job].asset, m) {
      var n := ClearedMinute(Start(assets), es, job, token, m);
    }
    if n :| GoneSince(Start(assets), es, n, s.jobs[job].asset, m, job, token) {
      RunKeepsAssets(Start(assets), es);
      GoneMeansMissing(Start(assets), es, n, s.jobs[job].asset, m, job, token);
    }
  }

  /**
   So in every delete-free run a completed gap job's whole closed window is in raw storage, however
   its claims, batches, promotions, parking and releases were interleaved.
   */
  lemma CompletedWindowIsStored(assets: map<int, Asset>, es: seq<Event>, job: nat)
    requires forall a :: a in assets ==> Consistent(assets[a])
    requires NoDeletes(es)
    requires job < |Run(Start(assets), es).jobs|
    requires Run(Start(assets), es).jobs[job].claims.job.status == Jobs.Completed
    ensures WindowStored(Run(Start(assets), es), Run(Start(assets), es).jobs[job])
  {
    StartIsGood(assets);
    RunKeepsGood(Start(assets), es);
    var s := Run(Start(assets), es);
    var token: nat :| Completer(s, job, token) && (job, token) in s.cleared;
    forall m | InWindow(s.jobs[job], m) ensures m in s.assets[s.jobs[job].asset].tables.raw {
      CompletedMinuteMissingIff(assets, es, job, token, m);
      NothingIsGone(Start(assets), es, s.jobs[job].asset, m, job, token);
    }
  }

  lemma NothingIsGone(s: System, es: seq<Event>, asset: int, m: int, job: nat, token: nat)
    requires NoDeletes(es)
    ensures !exists n :: GoneSince(s, es, n, asset, m, job, token)
  {
    forall n ensures !GoneSince(s, es, n, asset, m, job, token) {
      assert 0 <= n < |es| ==> es[n] in es;
    }
  }

  /** Deleting a minute between verification and completion leaves a hole in the completed window. */
  lemma DeleteLeavesHole(s: System, job: nat, worker: int, token: nat, now: int, m: int)
    requires Good(s) && OwnsJob(s, job, worker, token, now) && (job, token) in s.cleared
    requires InWindow(s.jobs[job], m) && m in s.assets[s.jobs[job].asset].tables.raw
    ensures var after := Run(s, [Ingest(s.jobs[job].asset, Deletion(m)), Complete(job, worker, token, now)]);
            && job < |after.jobs|
            && after.jobs[job].claims.job.status == Jobs.Completed
            && InWindow(after.jobs[job], m)
            && Missing(after, after.jobs[job].asset, m)
  {
    var removal, complete := Ingest(s.jobs[job].asset, Deletion(m)), Complete(job, worker, token, now);
    assert Run(s, []) == s;
    hide Good, Step, Run;
    RunSnoc(s, [], removal);
    RunSnoc(s, [removal], complete);
    assert [] + [removal] == [removal] && [removal] + [complete] == [removal, complete];
    var mid := Step(s, removal);
    ClearedJobExists(s, job, token);
    StepKeepsGood(s, removal);
    RemovalEffect(s, s.jobs[job].asset, m);
    CompletesTheJob(mid, job, worker, token, now);
    StepKeepsShape(mid, complete, job);
  }

  lemma RemovalEffect(s: System, asset: int, m: int)
    requires asset in s.assets
    ensures var after := Step(s, Ingest(asset, Deletion(m)));
            after.jobs == s.jobs && after.cleared == s.cleared && Missing(after, asset, m)
  {
  }

  /** With an exact index a claim is cleared exactly when every minute around its window is stored. */
  lemma VerifyClearsIff(s: System, job: nat, token: nat, stored: seq<Gap.Span>, maxRanges: nat, maxGaps: nat)
    requires job < |s.jobs| && s.jobs[job].asset in s.assets && s.jobs[job].start < s.jobs[job].end
    requires token < s.jobs[job].claims.issued && (job, token) !in s.cleared && maxRanges >= 1 && maxGaps >= 1
    requires var asset := s.assets[s.jobs[job].asset];
             Exact(asset.ranges, asset.Present()) && Lists(stored, asset.ranges)
    ensures (job, token) in Step(s, Verify(job, token, stored, maxRanges, maxGaps)).cleared <==>
              forall m :: FirstMinute(s.jobs[job]) <= m <= LastMinute(s.jobs[job]) ==>
                m in s.assets[s.jobs[job].asset].tables.raw
  {
    NoGapsIffStored(s.assets[s.jobs[job].asset], s.jobs[job], stored, maxRanges, maxGaps);
    hide Gap.Gaps, Exact, Lists, FirstMinute, LastMinute;
  }

  /** The owner of a cleared claim completes its job, and nobody else does. */
  lemma CompletesIff(s: System, job: nat, worker: int, token: nat, now: int)
    requires Good(s) && job < |s.jobs| && s.jobs[job].claims.job.status != Jobs.Completed
    ensures Step(s, Complete(job, worker, token, now)).jobs[job].claims.job.status == Jobs.Completed <==>
              OwnsJob(s, job, worker, token, now) && (job, token) in s.cleared
  {
    hide RefreshWindow, Scheduling.Schedule;
  }

  /**
   At the completing step of any run every instant of the aligned window, the bucket of the last
   candle included, is in exactly one active refresh job; and without deletions the window is stored.
   */
  lemma CompletionSchedulesRefresh(assets: map<int, Asset>, es: seq<Event>, job: nat, worker: int, token: nat, now: int)
    requires forall a :: a in assets ==> Consistent(assets[a])
    requires var s := Run(Start(assets), es); OwnsJob(s, job, worker, token, now) && (job, token) in s.cleared
    ensures var s := Run(Start(assets), es);
            var after := Step(s, Complete(job, worker, token, now));
            && s.jobs[job].start < s.jobs[job].end
            && after.jobs[job].claims.job.status == Jobs.Completed
            && (NoDeletes(es) ==> WindowStored(after, after.jobs[job]))
    ensures var s := Run(Start(assets), es);
            var (low, high) := RefreshWindow(s.jobs[job]);
            low <= s.jobs[job].start && s.jobs[job].end < high
    ensures var s := Run(Start(assets), es);
            var (low, high) := RefreshWindow(s.jobs[job]);
            var refresh := Step(s, Complete(job, worker, token, now)).refresh;
            forall t :: low <= t < high ==> Scheduling.ActiveOnce(refresh, t)
  {
    StartIsGood(assets);
    RunKeepsGood(Start(assets), es);
    var s, complete := Run(Start(assets), es), Complete(job, worker, token, now);
    if NoDeletes(es) {
      RunSnoc(Start(assets), es, complete);
      assert forall e :: e in es + [complete] ==> e in es || e == complete;
      CompletesTheJob(s, job, worker, token, now);
      CompletedWindowIsStored(assets, es + [complete], job);
    }
    hide WindowStored, NoDeletes, Run;
    CompletesTheJob(s, job, worker, token, now);
    RefreshAtCompletion(s, job, worker, token, now);
  }

  lemma RunSnoc(s: System, es: seq<Event>, e: Event)
    ensures Run(s, es + [e]) == Step(Run(s, es), e)
  {
    assert (es + [e])[..|es|] == es;
  }

  lemma CompletesTheJob(s: System, job: nat, worker: int, token: nat, now: int)
    requires Good(s) && OwnsJob(s, job, worker, token, now) && (job, token) in s.cleared
    ensures s.jobs[job].start < s.jobs[job].end
    ensures var after := Step(s, Complete(job, worker, token, now));
            && after.assets == s.assets
            && job < |after.jobs| && after.jobs[job].claims.job.status == Jobs.Completed
  {
    hide RefreshWindow, Scheduling.Schedule;
  }

  lemma RefreshAtCompletion(s: System, job: nat, worker: int, token: nat, now: int)
    requires Good(s) && OwnsJob(s, job, worker, token, now) && (job, token) in s.cleared
    requires s.jobs[job].start < s.jobs[job].end
    ensures var (low, high) := RefreshWindow(s.jobs[job]);
            && low <= s.jobs[job].start && s.jobs[job].end < high
            && forall t :: low <= t < high ==>
                 Scheduling.ActiveOnce(Step(s, Complete(job, worker, token, now)).refresh, t)
  {
    Alignment.AlignIsLeastCover(s.jobs[job].start, s.jobs[job].end, Alignment.Day, true);
    hide Alignment.Align, Scheduling.ActiveOnce, Scheduling.Schedule;
    var (low, high) := RefreshWindow(s.jobs[job]);
    var refresh := Step(s, Complete(job, worker, token, now)).refresh;
    assert refresh == Scheduling.Schedule(s.refresh, low, high, -1);
    forall t | low <= t < high ensures Scheduling.ActiveOnce(refresh, t) {
      Scheduling.ScheduledOnce(s.refresh, low, high, t);
    }
  }

  // ---- Lost claims -----------------------------------------------------------------------------

  ghost predicate LostClaim(s: System, job: nat, token: nat) {
    job < |s.jobs| && token < s.jobs[job].claims.issued && s.jobs[job].claims.job.token != Some(token)
  }

  /** A claim that lost the row stays without it over any step on the row. */
  lemma ClaimStepKeepsLost(claims: Jobs.Sys, e: Jobs.Event, token: nat)
    requires Jobs.Fenced(claims) && token < claims.issued && claims.job.token != Some(token)
    ensures var after := Jobs.Step(Jobs.Gap, claims, e); token < after.issued && after.job.token != Some(token)
  {
  }

  lemma StepKeepsLost(s: System, e: Event, job: nat, token: nat)
    requires Good(s) && LostClaim(s, job, token)
    ensures LostClaim(Step(s, e), job, token)
  {
    forall at: nat, claim | at < |s.jobs| ensures LostClaim(ClaimStep(s, at, claim), job, token) {
      if at == job { ClaimStepKeepsLost(s.jobs[job].claims, claim, token); }
    }
    if e.Create? || e.Verify? || e.Ingest? || e.Repair? || e.RefreshEnds? {
      OtherStepKeepsJob(s, e, job);
    } else {
      hide Good, ClaimStep, CandleStore.Step, RefreshWindow, Scheduling.Schedule;
    }
  }

  lemma OtherStepKeepsJob(s: System, e: Event, job: nat)
    requires job < |s.jobs| && (e.Create? || e.Verify? || e.Ingest? || e.Repair? || e.RefreshEnds?)
    ensures job < |Step(s, e).jobs| && Step(s, e).jobs[job] == s.jobs[job]
  {
    hide CandleStore.Step, Gap.Gaps, Lists, Scheduling.Retire;
  }

  lemma LostClaimChangesNothing(s: System, job: nat, token: nat)
    requires LostClaim(s, job, token)
    ensures forall worker, now, batch, cutoff :: Step(s, Repair(job, worker, token, now, batch, cutoff)) == s
    ensures forall worker, now :: Step(s, Complete(job, worker, token, now)) == s
  {
    hide CandleStore.Step, RefreshWindow, Scheduling.Schedule;
  }

  /**
   Once a claim has lost its job, no batch and no completion of that claim is ever applied
   again, at any later time and on any clock.
   */
  lemma {:induction false} LostClaimNeverWrites(s: System, es: seq<Event>, job: nat, token: nat)
    requires Good(s) && LostClaim(s, job, token)
    ensures LostClaim(Run(s, es), job, token)
    ensures forall worker, now, batch, cutoff ::
              Step(Run(s, es), Repair(job, worker, token, now, batch, cutoff)) == Run(s, es)
    ensures forall worker, now ::
              Step(Run(s, es), Complete(job, worker, token, now)) == Run(s, es)
  {
    if es != [] {
      LostClaimNeverWrites(s, es[..|es| - 1], job, token);
      RunKeepsGood(s, es[..|es| - 1]);
      StepKeepsLost(Run(s, es[..|es| - 1]), es[|es| - 1], job, token);
    }
    LostClaimChangesNothing(Run(s, es), job, token);
    hide Step, LostClaim;
  }

  // ---- Parked work ---------------------------------------------------------------------------------

  /** A job is created for a known asset and a window that is not empty, pending and unclaimed. */
  lemma CreatesIff(s: System, asset: int, start: int, end: int, maxRetries: nat)
    ensures Step(s, Create(asset, start, end, maxRetries)).jobs ==
              if asset in s.assets && start < end then s.jobs + [GapJob(asset, start, end, Jobs.Init(maxRetries))] else s.jobs
  {
  }

  /** The owner parks its job, and a parked job is released exactly when nothing is staged for it. */
  lemma ParkingIff(s: System, job: nat, worker: int, token: nat, now: int)
    requires job < |s.jobs|
    ensures Step(s, Park(job, worker, token, now)) != s ==> OwnsJob(s, job, worker, token, now)
    ensures OwnsJob(s, job, worker, token, now) ==>
              Step(s, Park(job, worker, token, now)).jobs[job].claims.job.status == Jobs.AwaitingMerge
    ensures s.jobs[job].asset in s.assets && s.jobs[job].claims.job.status == Jobs.AwaitingMerge ==>
              (Step(s, Release(job, now)).jobs[job].claims.job.status == Jobs.Pending <==>
                forall m :: m in s.assets[s.jobs[job].asset].staged ==> !InWindow(s.jobs[job], m))
  {
    forall m ensures At(m) == m * 60_000_000 {
    }
  }

  /** Every minute of the window is in raw storage or waiting in staging. */
  ghost predicate WindowKept(s: System, job: GapJob) {
    job.asset in s.assets &&
    forall m :: InWindow(job, m) ==> m in s.assets[job.asset].staged || m in s.assets[job.asset].tables.raw
  }

  lemma StepKeepsWindow(s: System, e: Event, job: nat)
    requires job < |s.jobs| && WindowKept(s, s.jobs[job]) && NoDeletes([e])
    ensures job < |Step(s, e).jobs| && SameWindow(Step(s, e).jobs[job], s.jobs[job])
    ensures WindowKept(Step(s, e), s.jobs[job])
  {
    hide Jobs.Step, CandleStore.Step, Gap.Gaps, Lists, RefreshWindow, Scheduling.Schedule, Scheduling.Retire;
    assert e in [e];
    StepKeepsShape(s, e, job);
    var window := s.jobs[job];
    var asset := if e.Ingest? then e.asset
                 else if e.Repair? && e.job < |s.jobs| then s.jobs[e.job].asset else window.asset + 1;
    if asset == window.asset {
      var transaction := if e.Ingest? then e.transaction else Batch(e.batch, e.cutoff);
      forall m | InWindow(window, m)
        ensures var after := CandleStore.Step(s.assets[asset], transaction);
                m in after.staged || m in after.tables.raw
      {
        assert Held(s.assets[asset], m);
        StepConserves(s.assets[asset], transaction, m);
      }
    }
  }

  /**
   Without deletions a window that was complete in staging and raw together stays so; when its
   parked job is released, nothing is staged for it any more and all of it is in raw storage.
   */
  lemma {:induction false} ReleasedWindowIsStored(s: System, es: seq<Event>, job: nat, now: int)
    requires job < |s.jobs| && WindowKept(s, s.jobs[job]) && NoDeletes(es)
    ensures var later := Run(s, es);
            && job < |later.jobs| && SameWindow(later.jobs[job], s.jobs[job])
            && WindowKept(later, s.jobs[job])
            && (Step(later, Release(job, now)) != later ==> WindowStored(later, later.jobs[job]))
  {
    hide Step, WindowStored;
    if es != [] {
      assert es[|es| - 1] in es;
      ReleasedWindowIsStored(s, es[..|es| - 1], job, now);
      StepKeepsWindow(Run(s, es[..|es| - 1]), es[|es| - 1], job);
    }
    ReleaseMeansNothingStaged(Run(s, es), s.jobs[job], job, now);
  }

  lemma ReleaseMeansNothingStaged(later: System, window: GapJob, job: nat, now: int)
    requires job < |later.jobs| && SameWindow(later.jobs[job], window)
    ensures WindowKept(later, window) && Step(later, Release(job, now)) != later ==>
              WindowStored(later, later.jobs[job])
  {
    hide ClaimStep;
  }
}
