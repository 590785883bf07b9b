/**
 The day worker: staged rows of one calendar day move to canonical storage page by page, under
 a claim, while other transactions commit in between, and the day is closed when nothing is
 left to move.
 */
module HistoricalMerge {
  import opened Arithmetic
  import opened Wrappers
  import opened Coverage
  import opened CandleLedger
  import opened CandleStore
  import Jobs = JobClaims
  import Scheduling

  const MINUTES_PER_DAY: int := 1440
  const MICROS_PER_DAY: int := 86_400_000_000

  // ---- Promotion in pages is promotion at once ---------------------------------------------------

  lemma SameEverywhere(t: Tables, u: Tables)
    requires forall m :: SameMinute(t, u, m)
    ensures t == u
  {
    forall key: (int, int) ensures SameEntry(t, u, key) {
      var (m, k) := key;
      assert SameMinute(t, u, m);
      assert SameEntry(t, u, (m, k));
    }
    forall m ensures m in t.raw <==> m in u.raw {
      assert SameMinute(t, u, m);
    }
    forall m | m in t.raw ensures t.raw[m] == u.raw[m] {
      assert SameMinute(t, u, m);
    }
    assert t.raw == u.raw;
    forall key ensures key in t.ledger <==> key in u.ledger {
      assert SameEntry(t, u, key);
    }
    forall key | key in t.ledger ensures t.ledger[key] == u.ledger[key] {
      assert SameEntry(t, u, key);
    }
    assert t.ledger == u.ledger;
  }

  /** A sound, separated index is determined by the minutes it covers. */
  lemma CoverageDeterminesRanges(ranges: set<Range>, other: set<Range>, raw: set<int>)
    requires Sound(ranges, raw) && Separated(ranges)
    requires Sound(other, raw) && Separated(other)
    requires forall m :: Covered(ranges, m) <==> Covered(other, m)
    ensures ranges == other
  {
    var covered := set m | m in raw && Covered(ranges, m);
    SoundOnCovered(ranges, covered, raw);
    SoundOnCovered(other, covered, raw);
    SoundSeparatedCoversIsExact(ranges, covered);
    SoundSeparatedCoversIsExact(other, covered);
    forall r ensures r in ranges <==> r in other {
      assert r == Range(r.start, r.end);
      assert r in ranges <==> MaximalRun(covered, r.start, r.end);
      assert r in other <==> MaximalRun(covered, r.start, r.end);
    }
  }

  lemma SoundOnCovered(ranges: set<Range>, covered: set<int>, raw: set<int>)
    requires Sound(ranges, raw)
    requires forall m :: m in covered <==> m in raw && Covered(ranges, m)
    ensures Sound(ranges, covered) && Covers(ranges, covered)
  {
    forall r | r in ranges ensures r.start <= r.end && Filled(covered, r.start, r.end) {
      forall m | r.start <= m <= r.end ensures m in covered {
        assert Covered(ranges, m);
      }
    }
  }

  lemma PageHolds(staged: map<int, RawRow>, page: set<int>, m: int)
    requires page <= staged.Keys
    ensures m in page <==> m in MinutesOf(PageBatch(staged, page))
    ensures m in page ==> Candle(m, staged[m].row) in PageBatch(staged, page)
  {
    var batch := PageBatch(staged, page);
    assert m in page <==> m in Ordered(page);
    if m in page {
      var i :| 0 <= i < |Ordered(page)| && Ordered(page)[i] == m;
      assert MinutesOf(batch)[i] == m;
      assert batch[i] == Candle(m, staged[m].row);
    }
  }

  lemma SplitTables(t: Tables, staged: map<int, RawRow>, p: set<int>, q: set<int>)
    requires p !! q && p + q <= staged.Keys
    ensures UpsertAll(UpsertAll(t, PageBatch(staged, p)), PageBatch(staged - p, q))
              == UpsertAll(t, PageBatch(staged, p + q))
  {
    var twice := UpsertAll(UpsertAll(t, PageBatch(staged, p)), PageBatch(staged - p, q));
    var once := UpsertAll(t, PageBatch(staged, p + q));
    forall m ensures SameMinute(twice, once, m) {
      SplitMinute(t, staged, p, q, m);
    }
    SameEverywhere(twice, once);
  }

  lemma SplitMinute(t: Tables, staged: map<int, RawRow>, p: set<int>, q: set<int>, m: int)
    requires p !! q && p + q <= staged.Keys
    ensures SameMinute(UpsertAll(UpsertAll(t, PageBatch(staged, p)), PageBatch(staged - p, q)),
                       UpsertAll(t, PageBatch(staged, p + q)), m)
  {
    hide UpsertAll, PageBatch, Upsert, SameMinute;
    var first, second, whole := PageBatch(staged, p), PageBatch(staged - p, q), PageBatch(staged, p + q);
    var mid := UpsertAll(t, first);
    var twice, once := UpsertAll(mid, second), UpsertAll(t, whole);
    UpsertAllIsPointwise(t, first);
    UpsertAllIsPointwise(mid, second);
    UpsertAllIsPointwise(t, whole);
    PageHolds(staged, p, m);
    PageHolds(staged - p, q, m);
    PageHolds(staged, p + q, m);
    if m in p {
      var alone := Upsert(t, Candle(m, staged[m].row)).value;
      SameChain(alone, mid, twice, m);
      SameChain(twice, alone, once, m);
    } else if m in q {
      var c := Candle(m, staged[m].row);
      UpsertIsLocal(t, mid, c);
      SameChain(Upsert(t, c).value, Upsert(mid, c).value, twice, m);
      SameChain(twice, Upsert(t, c).value, once, m);
    } else {
      SameChain(t, mid, twice, m);
      SameChain(twice, t, once, m);
    }
  }

  lemma SameChain(t: Tables, u: Tables, v: Tables, m: int)
    requires (SameMinute(t, u, m) || SameMinute(u, t, m)) && SameMinute(u, v, m)
    ensures SameMinute(t, v, m) && SameMinute(v, t, m)
  {
    forall k ensures SameEntry(t, v, (m, k)) && SameEntry(v, t, (m, k)) {
      assert SameEntry(t, u, (m, k)) || SameEntry(u, t, (m, k));
      assert SameEntry(u, v, (m, k));
    }
  }

  /**
   Promoting two disjoint pages one after the other, in either order, leaves exactly the rows,
   the ledger, the index and the staging that promoting their union leaves.
   */
  lemma PagesAreOnePromotion(s: Asset, p: set<int>, q: set<int>)
    requires Sound(s.ranges, s.Present()) && Separated(s.ranges)
    requires p !! q && p + q <= s.staged.Keys
    ensures Promote(Promote(s, p), q) == Promote(s, p + q)
  {
    hide Promote, PageBatch, UpsertAll;
    var mid := Promote(s, p);
    var twice, once := Promote(mid, q), Promote(s, p + q);
    PromotionEffect(s, p);
    PromotionEffect(mid, q);
    PromotionEffect(s, p + q);
    SplitTables(s.tables, s.staged, p, q);
    CoverageDeterminesRanges(twice.ranges, once.ranges, once.Present());
    assert twice.staged == once.staged;
  }

  /** What promoting a page of staged minutes does, table by table. */
  lemma PromotionEffect(s: Asset, p: set<int>)
    requires Sound(s.ranges, s.Present()) && Separated(s.ranges) && p <= s.staged.Keys
    ensures var after := Promote(s, p);
            && after.tables == UpsertAll(s.tables, PageBatch(s.staged, p))
            && after.staged == s.staged - p
            && after.Present() == s.Present() + p
            && Sound(after.ranges, after.Present()) && Separated(after.ranges)
    ensures forall m :: Covered(Promote(s, p).ranges, m) <==> Covered(s.ranges, m) || m in p
  {
    assert p * s.staged.Keys == p;
    var batch := PageBatch(s.staged, p);
    CommitRawEffect(s, batch);
    forall m ensures m in p <==> m in MinutesOf(batch) {
      PageHolds(s.staged, p, m);
    }
    assert Elements(MinutesOf(batch)) == p;
  }

  lemma PromoteNothing(s: Asset)
    ensures Promote(s, {}) == s
  {
    assert {} * s.staged.Keys == {};
    assert PageBatch(s.staged, {}) == [];
    assert s.staged - {} == s.staged;
  }

  // ---- Staged rows in key order -------------------------------------------------------------------

  /** The primary key of a staged row. */
  datatype Key = Key(asset: int, minute: int)

  predicate Precedes(a: Key, b: Key) {
    a.asset < b.asset || (a.asset == b.asset && a.minute < b.minute)
  }

  predicate InDay(minute: int, day: int) {
    day * MINUTES_PER_DAY <= minute < (day + 1) * MINUTES_PER_DAY
  }

  function StagedKeys(db: map<int, Asset>, day: int): set<Key> {
    set a, m | a in db && m in db[a].staged && InDay(m, day) :: Key(a, m)
  }

  predicate IsLeast(keys: set<Key>, least: Key) {
    least in keys && forall k :: k in keys && k != least ==> Precedes(least, k)
  }

  lemma {:induction false} LeastExists(keys: set<Key>)
    requires keys != {}
    ensures exists least :: IsLeast(keys, least)
    decreases |keys|
  {
    var k :| k in keys;
    if keys == {k} {
      assert IsLeast(keys, k);
    } else {
      LeastExists(keys - {k});
      var least :| IsLeast(keys - {k}, least);
      var first := if Precedes(k, least) then k else least;
      forall other | other in keys && other != first ensures Precedes(first, other) {
        assert other == k || other in keys - {k};
      }
      assert IsLeast(keys, first);
    }
  }

  function Least(keys: set<Key>): (least: Key)
    requires keys != {}
    ensures IsLeast(keys, least)
  {
    LeastExists(keys);
    var least :| IsLeast(keys, least);
    least
  }

  /** The first rows in key order, at most `limit` of them. */
  function FirstRows(keys: set<Key>, limit: nat): (rows: seq<Key>)
    ensures |rows| == if limit < |keys| then limit else |keys|
    ensures forall k :: k in rows ==> k in keys
    ensures forall i, j :: 0 <= i < j < |rows| ==> Precedes(rows[i], rows[j])
    ensures forall k, r :: k in keys && k !in rows && r in rows ==> Precedes(r, k)
    decreases limit
  {
    if limit == 0 || keys == {} then []
    else
      var least := Least(keys);
      [least] + FirstRows(keys - {least}, limit - 1)
  }

  /** The next page of a day: its first rows that no one has locked. */
  function NextPage(db: map<int, Asset>, day: int, locked: set<Key>, limit: nat): seq<Key> {
    FirstRows(StagedKeys(db, day) - locked, limit)
  }

  lemma NextPageInOrder(db: map<int, Asset>, day: int, locked: set<Key>, limit: nat)
    ensures var rows := NextPage(db, day, locked, limit);
            && (forall k :: k in rows ==> k.asset in db)
            && forall i, j :: 0 <= i < j < |rows| ==> Precedes(rows[i], rows[j])
  {
    hide Precedes;
    var rows := NextPage(db, day, locked, limit);
    forall k | k in rows ensures k.asset in db {
      assert k in StagedKeys(db, day);
    }
  }

  /** The rows of a day are those whose instants lie in its refresh window. */
  lemma DayIsItsWindow(minute: int, day: int)
    ensures InDay(minute, day) <==> day * 86_400_000_000 <= minute * 60_000_000 < (day + 1) * 86_400_000_000
    ensures MICROS_PER_DAY == 86_400_000_000
  {
  }

  /**
   The next page: unlocked staged rows of the day by asset and then by time, all of them or as many
   as fit, and none after a row that was left out.
   */
  lemma NextPageIs(db: map<int, Asset>, day: int, locked: set<Key>, limit: nat)
    ensures var rows := NextPage(db, day, locked, limit);
            var eligible := set a, m | a in db && m in db[a].staged &&
                                       day * 1440 <= m < (day + 1) * 1440 && Key(a, m) !in locked :: Key(a, m);
            && |rows| <= limit && (|rows| < limit ==> forall k :: k in eligible ==> k in rows)
            && (forall k :: k in rows ==> k in eligible)
            && (forall i, j :: 0 <= i < j < |rows| ==>
                  rows[i].asset < rows[j].asset || (rows[i].asset == rows[j].asset && rows[i].minute < rows[j].minute))
            && (forall k, r :: k in eligible && k !in rows && r in rows ==>
                  r.asset < k.asset || (r.asset == k.asset && r.minute < k.minute))
  {
    EligibleKeys(db, day, locked);
    var rows := NextPage(db, day, locked, limit);
    if |rows| < limit {
      AllRows(StagedKeys(db, day) - locked, rows);
    }
    hide StagedKeys;
  }

  lemma EligibleKeys(db: map<int, Asset>, day: int, locked: set<Key>)
    ensures StagedKeys(db, day) - locked ==
              set a, m | a in db && m in db[a].staged &&
                         day * 1440 <= m < (day + 1) * 1440 && Key(a, m) !in locked :: Key(a, m)
  {
    var eligible := set a, m | a in db && m in db[a].staged &&
                               day * 1440 <= m < (day + 1) * 1440 && Key(a, m) !in locked :: Key(a, m);
    forall k ensures k in eligible <==> k in StagedKeys(db, day) - locked {
      assert k == Key(k.asset, k.minute);
    }
  }

  /** A list of distinct members as long as the set holds all of it. */
  lemma AllRows(keys: set<Key>, rows: seq<Key>)
    requires |rows| == |keys| && forall k :: k in rows ==> k in keys
    requires forall i, j :: 0 <= i < j < |rows| ==> rows[i] != rows[j]
    ensures forall k :: k in keys ==> k in rows
    decreases rows
  {
    if rows != [] {
      var rest := rows[1..];
      forall k | k in rest ensures k in keys - {rows[0]} {
        var i :| 0 <= i < |rest| && rest[i] == k;
        assert rows[i + 1] == k;
      }
      AllRows(keys - {rows[0]}, rest);
      forall k | k in keys ensures k in rows {
        assert k == rows[0] || k in rest;
      }
    }
  }

  /** The minutes of one asset on a page. */
  function PageOf(rows: seq<Key>, asset: int): set<int> {
    set k | k in rows && k.asset == asset :: k.minute
  }

  lemma PageOfHolds(rows: seq<Key>, asset: int, m: int)
    ensures m in PageOf(rows, asset) <==> Key(asset, m) in rows
  {
    if m in PageOf(rows, asset) {
      var k :| k in rows && k.asset == asset && k.minute == m;
      assert k == Key(asset, m);
    }
  }

  /** Every asset with its part of the page promoted. */
  function Merged(db: map<int, Asset>, rows: seq<Key>): map<int, Asset> {
    map a | a in db :: Promote(db[a], PageOf(rows, a))
  }

  ghost predicate Indexed(db: map<int, Asset>) {
    forall a :: a in db ==> Sound(db[a].ranges, db[a].Present()) && Separated(db[a].ranges)
  }

  lemma MergedKeepsIndexed(db: map<int, Asset>, rows: seq<Key>)
    requires Indexed(db)
    requires forall k :: k in rows ==> k.asset in db && k.minute in db[k.asset].staged
    ensures Indexed(Merged(db, rows))
    ensures forall a :: a in db ==> Merged(db, rows)[a].staged == db[a].staged - PageOf(rows, a)
  {
    forall a | a in db
      ensures PageOf(rows, a) <= db[a].staged.Keys
      ensures var after := Merged(db, rows)[a];
              && after.staged == db[a].staged - PageOf(rows, a)
              && Sound(after.ranges, after.Present()) && Separated(after.ranges)
    {
      forall m | m in PageOf(rows, a) ensures m in db[a].staged {
        PageOfHolds(rows, a, m);
      }
      PromotionEffect(db[a], PageOf(rows, a));
    }
  }

  /**
   `after` is `before` with some staged minutes of the day promoted: rows, ledger and index are
   those of one promotion of everything that has left staging.
   */
  ghost predicate Progressed(before: map<int, Asset>, after: map<int, Asset>, day: int) {
    && after.Keys == before.Keys
    && forall a :: a in before ==> Advanced(before[a], after[a], day)
  }

  ghost predicate Advanced(before: Asset, after: Asset, day: int) {
    var gone := before.staged.Keys - after.staged.Keys;
    && after == Promote(before, gone)
    && forall m :: m in gone ==> InDay(m, day)
  }

  lemma PageAdvances(before: Asset, mid: Asset, page: set<int>, day: int)
    requires Sound(before.ranges, before.Present()) && Separated(before.ranges)
    requires Advanced(before, mid, day)
    requires page <= mid.staged.Keys && forall m :: m in page ==> InDay(m, day)
    ensures Advanced(before, Promote(mid, page), day)
  {
    hide PageBatch, CommitRaw;
    var gone := before.staged.Keys - mid.staged.Keys;
    PromotionEffect(before, gone);
    PromotionEffect(mid, page);
    assert mid.staged.Keys == before.staged.Keys - gone;
    PagesAreOnePromotion(before, gone, page);
    assert before.staged.Keys - Promote(mid, page).staged.Keys == gone + page;
  }

  lemma NoProgress(db: map<int, Asset>, day: int)
    ensures Progressed(db, db, day)
  {
    forall a | a in db ensures Advanced(db[a], db[a], day) {
      PromoteNothing(db[a]);
      assert db[a].staged.Keys - db[a].staged.Keys == {};
    }
  }

  lemma PageProgresses(before: map<int, Asset>, mid: map<int, Asset>, rows: seq<Key>, day: int)
    requires Indexed(before) && Progressed(before, mid, day)
    requires forall k :: k in rows ==> k in StagedKeys(mid, day)
    ensures Progressed(before, Merged(mid, rows), day)
  {
    hide Advanced, Promote, Sound, Separated;
    forall a | a in before ensures Advanced(before[a], Merged(mid, rows)[a], day) {
      PageIsStaged(mid, rows, day, a);
      PageAdvances(before[a], mid[a], PageOf(rows, a), day);
    }
  }

  lemma PageIsStaged(db: map<int, Asset>, rows: seq<Key>, day: int, asset: int)
    requires forall k :: k in rows ==> k in StagedKeys(db, day)
    requires asset in db
    ensures PageOf(rows, asset) <= db[asset].staged.Keys
    ensures forall m :: m in PageOf(rows, asset) ==> InDay(m, day)
  {
    forall m | m in PageOf(rows, asset) ensures m in db[asset].staged && InDay(m, day) {
      PageOfHolds(rows, asset, m);
      assert Key(asset, m) in StagedKeys(db, day);
    }
  }

  lemma PageLeavesStaging(db: map<int, Asset>, rows: seq<Key>, day: int)
    requires Indexed(db)
    requires forall k :: k in rows ==> k in StagedKeys(db, day)
    ensures Indexed(Merged(db, rows))
    ensures StagedKeys(Merged(db, rows), day) == StagedKeys(db, day) - Elements(rows)
  {
    hide Promote, Sound, Separated;
    MergedKeepsIndexed(db, rows);
    forall k ensures k in StagedKeys(Merged(db, rows), day) <==> k in StagedKeys(db, day) - Elements(rows) {
      PageOfHolds(rows, k.asset, k.minute);
      assert k == Key(k.asset, k.minute);
    }
  }

  /** A row that left staging has been decided in raw storage, as one promotion of it would. */
  lemma PromotedRowIsStored(before: map<int, Asset>, after: map<int, Asset>, day: int, k: Key)
    requires Progressed(before, after, day)
    requires k in StagedKeys(before, day) && k !in StagedKeys(after, day)
    ensures Decided(before[k.asset].tables.raw, after[k.asset].tables.raw,
                    Candle(k.minute, before[k.asset].staged[k.minute].row))
  {
    assert Advanced(before[k.asset], after[k.asset], day);
    assert k.minute in after[k.asset].staged ==> Key(k.asset, k.minute) in StagedKeys(after, day);
    RowsLeaveStagingForRaw(before[k.asset], Page(before[k.asset].staged.Keys - after[k.asset].staged.Keys), k.minute);
  }

  // ---- Other transactions between two pages -------------------------------------------------------

  /** The storage of every asset, the day's job row with its claims, and the refresh windows. */
  datatype World = World(db: map<int, Asset>, claims: Jobs.Sys, refresh: seq<Scheduling.Job>)

  /** What anyone else may commit meanwhile; a renewal by the worker's own heartbeat is one of them. */
  datatype Other =
    | Ingest(asset: int, transaction: CandleStore.Event)
    | OnClaims(event: Jobs.Event)
    | Schedule(start: int, end: int, cap: int)
    | RefreshEnds(index: nat)

  function Met(w: World, o: Other): World {
    match o
    case Ingest(asset, transaction) =>
      if asset in w.db then w.(db := w.db[asset := CandleStore.Step(w.db[asset], transaction)]) else w
    case OnClaims(event) => w.(claims := Jobs.Step(Jobs.Merge, w.claims, event))
    case Schedule(start, end, cap) => w.(refresh := Scheduling.Schedule(w.refresh, start, end, cap))
    case RefreshEnds(index) => w.(refresh := Scheduling.Retire(w.refresh, index))
  }

  function AllMet(w: World, others: seq<Other>): World {
    if others == [] then w else Met(AllMet(w, others[..|others| - 1]), others[|others| - 1])
  }

  /** The transactions that touched one asset, in order. */
  function HistoryOf(others: seq<Other>, asset: int): seq<CandleStore.Event> {
    if others == [] then []
    else
      var before, last := HistoryOf(others[..|others| - 1], asset), others[|others| - 1];
      if last.Ingest? && last.asset == asset then before + [last.transaction] else before
  }

  predicate Quiet(others: seq<Other>) { forall o :: o in others ==> !o.Ingest? }

  /** Held at the start or staged since by someone, and deleted by no one. */
  ghost predicate Owed(start: Asset, transactions: seq<CandleStore.Event>, m: int) {
    (Held(start, m) || m in EverStaged(transactions)) && Deletion(m) !in transactions
  }

  ghost predicate Kept(start: map<int, Asset>, others: seq<Other>, db: map<int, Asset>) {
    && db.Keys == start.Keys
    && forall a, m :: a in start && Owed(start[a], HistoryOf(others, a), m) ==> Held(db[a], m)
  }

  /** What the worker's pages keep true of the world, whatever others committed in between. */
  ghost predicate Tracked(start: World, others: seq<Other>, w: World, day: int) {
    && Indexed(start.db) && Indexed(w.db) && Scheduling.ValidTable(w.refresh)
    && w.claims == AllMet(start, others).claims && w.refresh == AllMet(start, others).refresh
    && Kept(start.db, others, w.db)
    && (Quiet(others) ==> Progressed(start.db, w.db, day))
  }

  lemma TrackedAtStart(w: World, day: int)
    requires Indexed(w.db) && Scheduling.ValidTable(w.refresh)
    ensures Tracked(w, [], w, day)
  {
    NoProgress(w.db, day);
  }

  lemma OtherIsTracked(start: World, others: seq<Other>, w: World, o: Other, day: int)
    requires Tracked(start, others, w, day)
    ensures Tracked(start, others + [o], Met(w, o), day)
  {
    assert (others + [o])[..|others|] == others;
    assert AllMet(start, others + [o]) == Met(AllMet(start, others), o);
    assert Quiet(others + [o]) ==> Quiet(others) && (others + [o])[|others|] == o;
    OtherKeeps(start.db, others, w, o);
    OtherKeepsIndexed(w, o);
    hide AllMet, Kept, Progressed, Indexed, Scheduling.ValidTable, Scheduling.Schedule, Jobs.Step, CandleStore.Step;
  }

  lemma QuietOneMore(others: seq<Other>, met: nat, n: nat, w: World)
    requires met <= n < |others|
    ensures Quiet(others[met..n + 1]) ==> Quiet(others[met..n]) && Met(w, others[n]).db == w.db
  {
    assert others[met..n + 1] == others[met..n] + [others[n]];
    assert others[n] in others[met..n + 1];
    hide Jobs.Step, Scheduling.Schedule, Scheduling.Retire;
  }

  lemma OtherKeepsIndexed(w: World, o: Other)
    requires Indexed(w.db) && Scheduling.ValidTable(w.refresh)
    ensures Indexed(Met(w, o).db) && Scheduling.ValidTable(Met(w, o).refresh)
  {
    hide CandleStore.Step, Sound, Separated, Scheduling.Schedule;
    match o
    case Ingest(asset, transaction) =>
      if asset in w.db { StepKeepsIndexed(w.db[asset], transaction); }
    case Schedule(start, end, cap) => Scheduling.ScheduleKeepsValid(w.refresh, start, end, cap);
    case OnClaims(_) =>
    case RefreshEnds(_) =>
  }

  lemma OtherKeeps(start: map<int, Asset>, others: seq<Other>, w: World, o: Other)
    requires Kept(start, others, w.db)
    ensures Kept(start, others + [o], Met(w, o).db)
  {
    hide Owed, Held, CandleStore.Step, Jobs.Step, Scheduling.Schedule;
    assert (others + [o])[..|others|] == others;
    if o.Ingest? && o.asset in w.db {
      forall m | Owed(start[o.asset], HistoryOf(others + [o], o.asset), m)
        ensures Held(CandleStore.Step(w.db[o.asset], o.transaction), m)
      {
        OwedOneMore(start[o.asset], HistoryOf(others, o.asset), o.transaction, m);
        StepConserves(w.db[o.asset], o.transaction, m);
      }
    }
  }

  lemma OwedOneMore(start: Asset, transactions: seq<CandleStore.Event>, e: CandleStore.Event, m: int)
    requires Owed(start, transactions + [e], m)
    ensures e != Deletion(m) && (Owed(start, transactions, m) || m in StagedBy(e))
  {
    assert (transactions + [e])[..|transactions|] == transactions;
    assert (transactions + [e])[|transactions|] == e;
  }

  lemma PageIsTracked(start: World, others: seq<Other>, w: World, rows: seq<Key>, day: int)
    requires Tracked(start, others, w, day)
    requires forall k :: k in rows ==> k in StagedKeys(w.db, day)
    ensures Tracked(start, others, w.(db := Merged(w.db, rows)), day)
  {
    PageLeavesStaging(w.db, rows, day);
    if Quiet(others) {
      PageProgresses(start.db, w.db, rows, day);
    }
    PageKeeps(start.db, others, w.db, rows);
    hide Kept, Progressed, Indexed, Merged, StagedKeys, AllMet, Scheduling.ValidTable;
  }

  lemma PageShrinksStaging(start: World, others: seq<Other>, w: World, rows: seq<Key>, day: int)
    requires Tracked(start, others, w, day)
    requires forall k :: k in rows ==> k in StagedKeys(w.db, day)
    ensures rows != [] ==> |StagedKeys(Merged(w.db, rows), day)| < |StagedKeys(w.db, day)|
  {
    var db := w.db;
    PageLeavesStaging(db, rows, day);
    hide Indexed, Merged, StagedKeys;
    if rows != [] {
      assert rows[0] in rows;
      ProperSubset(StagedKeys(Merged(db, rows), day), StagedKeys(db, day), rows[0]);
    }
  }

  lemma NextPageIsTracked(start: World, others: seq<Other>, w: World, limit: nat, locked: set<Key>, day: int)
    requires Tracked(start, others, w, day)
    ensures var rows := NextPage(w.db, day, locked, limit);
            && Tracked(start, others, w.(db := Merged(w.db, rows)), day)
            && (rows != [] ==> |StagedKeys(Merged(w.db, rows), day)| < |StagedKeys(w.db, day)|)
  {
    hide Tracked, Merged, StagedKeys;
    PageIsTracked(start, others, w, NextPage(w.db, day, locked, limit), day);
    PageShrinksStaging(start, others, w, NextPage(w.db, day, locked, limit), day);
  }

  lemma EmptyPage(db: map<int, Asset>, day: int, locked: set<Key>, limit: nat)
    requires limit > 0
    ensures NextPage(db, day, locked, limit) == [] <==> StagedKeys(db, day) <= locked
  {
    hide StagedKeys;
    var rest := StagedKeys(db, day) - locked;
    if rest == {} {
      forall k | k in StagedKeys(db, day) ensures k in locked {
        assert k !in rest;
      }
    }
  }

  /**
   What one run of a worker meets.  Before its step `i`, `pace(i)` of the other transactions commit;
   then it looks at its heartbeat, reads its clock and finds some rows locked by others.
   */
  datatype Course = Course(
    worker: int, token: nat, others: seq<Other>, pace: nat -> nat,
    reportedLost: nat -> bool, clock: nat -> int, locked: nat -> set<Key>)
  {
    /** How many of the others have committed before the worker's step `n` is due. */
    function Arrived(n: nat): (met: nat)
      ensures met <= |others|
    {
      if n == 0 then 0 else Min(Arrived(n - 1) + pace(n - 1), |others|)
    }

    /** The others' transactions the worker finds committed at its step `i`. */
    function Before(i: nat): seq<Other> { others[..Arrived(i + 1)] }

    /** Those among them that committed after its step before. */
    function Since(i: nat): seq<Other> { others[Arrived(i)..Arrived(i + 1)] }

    /** At step `i` the heartbeat has reported no loss, and the row is owned at that step's clock. */
    predicate Holds(start: World, i: nat) {
      !reportedLost(i) && Jobs.Owns(AllMet(start, Before(i)).claims.job, worker, token, clock(i))
    }
  }

  lemma BeforeEnds(c: Course, i: nat)
    ensures c.Before(i) == c.others[..c.Arrived(i + 1)]
  {
  }

  lemma HoldsNow(start: World, c: Course, i: nat, w: World, day: int)
    requires Tracked(start, c.Before(i), w, day)
    ensures c.Holds(start, i) <==> !c.reportedLost(i) && Jobs.Owns(w.claims.job, c.worker, c.token, c.clock(i))
  {
    hide AllMet, Jobs.Owns, Indexed, Kept, Progressed, Scheduling.ValidTable;
  }

  lemma PageKeeps(start: map<int, Asset>, others: seq<Other>, db: map<int, Asset>, rows: seq<Key>)
    requires Kept(start, others, db)
    ensures Kept(start, others, Merged(db, rows))
  {
    hide Owed, Held, Promote;
    forall a, m | a in start && Owed(start[a], HistoryOf(others, a), m) ensures Held(Merged(db, rows)[a], m) {
      StepConserves(db[a], Page(PageOf(rows, a)), m);
    }
  }

  /** Every minute owed to the day is in raw storage. */
  ghost predicate DayStored(start: map<int, Asset>, others: seq<Other>, db: map<int, Asset>, day: int) {
    forall a, m :: a in start && InDay(m, day) && Owed(start[a], HistoryOf(others, a), m) ==>
      a in db && m in db[a].tables.raw
  }

  /** With nothing of the day in staging, everything owed to the day is in raw storage. */
  lemma NothingStagedMeansStored(start: World, others: seq<Other>, w: World, day: int)
    requires Tracked(start, others, w, day) && StagedKeys(w.db, day) == {}
    ensures DayStored(start.db, others, w.db, day)
  {
    hide Indexed, Progressed, Owed, AllMet, Scheduling.ValidTable;
    forall a, m | a in start.db && InDay(m, day) && Owed(start.db[a], HistoryOf(others, a), m)
      ensures a in w.db && m in w.db[a].tables.raw
    {
      assert m in w.db[a].staged ==> Key(a, m) in StagedKeys(w.db, day);
    }
  }

  /**
   How a run that ended at step `step` ended.  The worker held its claim at every step before, and
   the day closes exactly if it holds it at this one and nothing of the day is staged.  Rows it
   leaves behind while holding the claim were locked at its last page or staged since.
   */
  ghost predicate DayRun(start: World, after: World, c: Course, step: nat, closed: bool, day: int) {
    var found := AllMet(start, c.Before(step));
    && Kept(start.db, c.Before(step), after.db)
    && (Quiet(c.Before(step)) ==> Progressed(start.db, after.db, day))
    && (forall i: nat :: i < step ==> c.Holds(start, i))
    && (closed <==> c.Holds(start, step) && StagedKeys(after.db, day) == {})
    && (!closed && c.Holds(start, step) ==>
          step > 0 && (Quiet(c.Since(step)) ==> StagedKeys(after.db, day) <= c.locked(step - 1)))
    && (closed ==> DayStored(start.db, c.Before(step), after.db, day))
    && after.claims == (if closed then
                          Jobs.Step(Jobs.Merge, found.claims, Jobs.Complete(c.worker, c.token, c.clock(step)))
                        else found.claims)
    && (!closed ==> after.refresh == found.refresh)
  }

  lemma LostWhilePaging(start: World, c: Course, step: nat, w: World, day: int)
    requires Tracked(start, c.Before(step), w, day)
    requires forall i: nat :: i < step ==> c.Holds(start, i)
    requires !c.Holds(start, step)
    ensures DayRun(start, w, c, step, false, day)
  {
    hide AllMet, Quiet, Indexed, Kept, Progressed, Jobs.Step, Scheduling.ValidTable, StagedKeys, DayStored;
    hide Course.Holds, Course.Before, Course.Since;
  }

  lemma EndedAtClosing(start: World, c: Course, step: nat, w: World, after: World, closed: bool, day: int)
    requires step > 0 && Tracked(start, c.Before(step), w, day)
    requires forall i: nat :: i < step ==> c.Holds(start, i)
    requires after.db == w.db && (!closed ==> after == w)
    requires closed <==> !c.reportedLost(step) && Jobs.Owns(w.claims.job, c.worker, c.token, c.clock(step)) && StagedKeys(w.db, day) == {}
    requires closed ==> after.claims == Jobs.Step(Jobs.Merge, w.claims, Jobs.Complete(c.worker, c.token, c.clock(step)))
    requires Quiet(c.Since(step)) ==> StagedKeys(w.db, day) <= c.locked(step - 1)
    ensures DayRun(start, after, c, step, closed, day)
  {
    HoldsNow(start, c, step, w, day);
    if closed {
      NothingStagedMeansStored(start, c.Before(step), w, day);
    }
    hide AllMet, Quiet, Indexed, Kept, Progressed, Jobs.Step, Jobs.Owns, Scheduling.ValidTable, StagedKeys, DayStored;
    hide Course.Holds, Course.Before, Course.Since;
  }

  lemma ProperSubset(small: set<Key>, big: set<Key>, gone: Key)
    requires small <= big && gone in big && gone !in small
    ensures |small| < |big|
  {
    assert small <= big - {gone};
    CardinalityGrows(small, big - {gone});
  }

  lemma {:induction false} CardinalityGrows(small: set<Key>, big: set<Key>)
    requires small <= big
    ensures |small| <= |big|
    decreases |small|
  {
    if small != {} {
      var k :| k in small;
      CardinalityGrows(small - {k}, big - {k});
    }
  }

  // ---- The worker -----------------------------------------------------------------------------------

  /** One asset's part of a page in canonical storage, staging untouched. */
  function Committed(s: Asset, page: set<int>): Asset {
    CommitRaw(s, PageBatch(s.staged, page * s.staged.Keys))
  }

  ghost predicate GroupsCommitted(before: map<int, Asset>, after: map<int, Asset>, rows: seq<Key>) {
    after.Keys == before.Keys && forall a :: a in before ==> after[a] == Committed(before[a], PageOf(rows, a))
  }

  lemma NoGroupCommitted(db: map<int, Asset>)
    ensures GroupsCommitted(db, db, [])
  {
    forall a | a in db ensures Committed(db[a], PageOf([], a)) == db[a] {
      assert PageOf([], a) == {};
      CommittedNothing(db[a]);
    }
  }

  lemma CommittedNothing(s: Asset)
    ensures Committed(s, {}) == s
  {
    assert {} * s.staged.Keys == {};
    assert PageBatch(s.staged, {}) == [];
  }

  /** A run of rows of one asset is that asset's whole part of the longer prefix. */
  lemma GroupOf(rows: seq<Key>, i: nat, j: nat)
    requires i < j <= |rows|
    requires forall a, b :: 0 <= a < b < |rows| ==> Precedes(rows[a], rows[b])
    requires forall k :: i <= k < j ==> rows[k].asset == rows[i].asset
    requires i > 0 ==> rows[i - 1].asset < rows[i].asset
    ensures PageOf(rows[..i], rows[i].asset) == {}
    ensures PageOf(rows[..j], rows[i].asset) == PageOf(rows[i..j], rows[i].asset)
    ensures forall a :: a != rows[i].asset ==> PageOf(rows[..j], a) == PageOf(rows[..i], a)
  {
    assert rows[..j] == rows[..i] + rows[i..j];
    forall k | k in rows[..i] ensures k.asset < rows[i].asset {
      var n :| 0 <= n < i && rows[n] == k;
      assert n < i - 1 ==> Precedes(rows[n], rows[i - 1]);
    }
    forall k | k in rows[i..j] ensures k.asset == rows[i].asset {
    }
    forall a | a != rows[i].asset ensures PageOf(rows[..j], a) == PageOf(rows[..i], a) {
      forall m ensures m in PageOf(rows[..j], a) <==> m in PageOf(rows[..i], a) {
        PageOfHolds(rows[..j], a, m);
        PageOfHolds(rows[..i], a, m);
      }
    }
    forall m ensures m in PageOf(rows[..j], rows[i].asset) <==> m in PageOf(rows[i..j], rows[i].asset) {
      PageOfHolds(rows[..j], rows[i].asset, m);
      PageOfHolds(rows[i..j], rows[i].asset, m);
    }
  }

  lemma GroupCommitted(before: map<int, Asset>, db: map<int, Asset>, rows: seq<Key>, i: nat, j: nat, minutes: set<int>)
    requires i < j <= |rows| && GroupsCommitted(before, db, rows[..i])
    requires forall a, b :: 0 <= a < b < |rows| ==> Precedes(rows[a], rows[b])
    requires forall k :: i <= k < j ==> rows[k].asset == rows[i].asset
    requires i > 0 ==> rows[i - 1].asset < rows[i].asset
    requires minutes == PageOf(rows[i..j], rows[i].asset) && rows[i].asset in db
    ensures GroupsCommitted(before, db[rows[i].asset := Committed(db[rows[i].asset], minutes)], rows[..j])
  {
    hide Committed, PageOf, Precedes;
    var asset := rows[i].asset;
    GroupOf(rows, i, j);
    CommittedNothing(before[asset]);
    var after := db[asset := Committed(db[asset], minutes)];
    forall a | a in before ensures after[a] == Committed(before[a], PageOf(rows[..j], a)) {
      assert db[a] == Committed(before[a], PageOf(rows[..i], a));
    }
  }

  lemma MergedNothing(db: map<int, Asset>)
    ensures Merged(db, []) == db
  {
    forall a | a in db ensures Promote(db[a], PageOf([], a)) == db[a] {
      assert PageOf([], a) == {};
      PromoteNothing(db[a]);
    }
  }

  lemma GroupsThenDeleted(before: map<int, Asset>, mid: map<int, Asset>, rows: seq<Key>)
    requires GroupsCommitted(before, mid, rows)
    ensures (map a | a in mid :: mid[a].(staged := mid[a].staged - PageOf(rows, a))) == Merged(before, rows)
  {
    forall a | a in before ensures mid[a].(staged := mid[a].staged - PageOf(rows, a)) == Merged(before, rows)[a] {
      assert before[a].staged - PageOf(rows, a) == before[a].staged - (PageOf(rows, a) * before[a].staged.Keys);
    }
  }

  datatype Outcome = InvalidPageSize | LeaseLost | Closed

  /** Storage, the day's job row and the refresh windows, as one worker sees them. */
  class DayWorker {
    const day: int
    var db: map<int, Asset>
    var claims: Jobs.Sys
    var refresh: seq<Scheduling.Job>

    constructor (day: int, db: map<int, Asset>, claims: Jobs.Sys, refresh: seq<Scheduling.Job>)
      ensures this.day == day && this.db == db && this.claims == claims && this.refresh == refresh
    {
      this.day, this.db, this.claims, this.refresh := day, db, claims, refresh;
    }

    function State(): World
      reads this
    {
      World(db, claims, refresh)
    }

    ghost predicate Valid()
      reads this
    {
      Indexed(db) && Scheduling.ValidTable(refresh)
    }

    /** The rows from `i` on that belong to the same asset. */
    method TakeGroup(rows: seq<Key>, i: nat) returns (j: nat, minutes: set<int>)
      requires i < |rows|
      ensures i < j <= |rows|
      ensures forall k :: i <= k < j ==> rows[k].asset == rows[i].asset
      ensures j < |rows| ==> rows[j].asset != rows[i].asset
      ensures minutes == PageOf(rows[i..j], rows[i].asset)
    {
      j, minutes := i, {};
      while j < |rows| && rows[j].asset == rows[i].asset
        invariant i <= j <= |rows|
        invariant forall k :: i <= k < j ==> rows[k].asset == rows[i].asset
        invariant minutes == PageOf(rows[i..j], rows[i].asset)
      {
        assert rows[i..j + 1] == rows[i..j] + [rows[j]];
        minutes := minutes + {rows[j].minute};
        j := j + 1;
      }
    }

    /** Groups a page by asset and commits each group; staging is not touched yet. */
    method CommitGroups(rows: seq<Key>)
      requires forall k :: k in rows ==> k.asset in db
      requires forall i, j :: 0 <= i < j < |rows| ==> Precedes(rows[i], rows[j])
      modifies `db
      ensures GroupsCommitted(old(db), db, rows)
    {
      hide Committed;
      ghost var before := db;
      var i := 0;
      NoGroupCommitted(db);
      assert rows[..0] == [];
      while i < |rows|
        invariant i <= |rows|
        invariant GroupsCommitted(before, db, rows[..i])
        invariant 0 < i < |rows| ==> rows[i - 1].asset < rows[i].asset
      {
        assert rows[i] in rows;
        var j, minutes := TakeGroup(rows, i);
        assert j < |rows| ==> Precedes(rows[j - 1], rows[j]);
        GroupCommitted(before, db, rows, i, j, minutes);
        db := db[rows[i].asset := Committed(db[rows[i].asset], minutes)];
        i := j;
      }
      assert rows[..|rows|] == rows;
    }

    /** One fenced transaction: the next page is committed, then removed from staging. */
    method MergeOnePage(limit: nat, worker: int, token: nat, now: int, locked: set<Key>) returns (count: Option<nat>)
      requires limit > 0
      modifies `db
      ensures count.None? <==> !Jobs.Owns(claims.job, worker, token, now)
      ensures count.None? ==> db == old(db)
      ensures count.Some? ==>
                var rows := NextPage(old(db), day, locked, limit);
                count.value == |rows| && db == Merged(old(db), rows)
    {
      hide NextPage, StagedKeys, Precedes, GroupsCommitted, Merged, Jobs.Owns;
      if !Jobs.Owns(claims.job, worker, token, now) {
        return None;
      }
      var rows := NextPage(db, day, locked, limit);
      count := Some(|rows|);
      ghost var before := db;
      if rows == [] {
        MergedNothing(db);
        return;
      }
      NextPageInOrder(db, day, locked, limit);
      CommitGroups(rows);
      GroupsThenDeleted(before, db, rows);
      db := map a | a in db :: db[a].(staged := db[a].staged - PageOf(rows, a));
    }

    /** Closes the day under the claim, unless something is still staged for it. */
    method CompleteIfOwned(worker: int, token: nat, now: int) returns (ok: bool)
      requires Valid()
      modifies `claims, `refresh
      ensures Valid()
      ensures ok <==> Jobs.Owns(old(claims).job, worker, token, now) && StagedKeys(db, day) == {}
      ensures claims == (if ok then Jobs.Step(Jobs.Merge, old(claims), Jobs.Complete(worker, token, now)) else old(claims))
      ensures refresh == if ok then
                           Scheduling.Schedule(old(refresh), day * MICROS_PER_DAY, (day + 1) * MICROS_PER_DAY, -1)
                         else old(refresh)
      ensures ok ==> forall t :: day * MICROS_PER_DAY <= t < (day + 1) * MICROS_PER_DAY ==>
                       Scheduling.ActiveOnce(refresh, t)
    {
      if !Jobs.Owns(claims.job, worker, token, now) {
        return false;
      }
      if StagedKeys(db, day) != {} {
        return false;
      }
      var start, end := day * MICROS_PER_DAY, (day + 1) * MICROS_PER_DAY;
      ghost var before := refresh;
      refresh := Scheduling.Schedule(refresh, start, end, -1);
      Scheduling.ScheduleKeepsValid(before, start, end, -1);
      forall t | start <= t < end ensures Scheduling.ActiveOnce(refresh, t) {
        Scheduling.ScheduledOnce(before, start, end, t);
      }
      claims := claims.(job := Jobs.Finished(Jobs.Merge, claims.job), ended := claims.ended + [token]);
      ok := true;
    }

    /** Other transactions commit, `count` of them at most. */
    method MeetOthers(others: seq<Other>, met: nat, count: nat, ghost start: World) returns (next: nat)
      requires met <= |others| && Tracked(start, others[..met], State(), day)
      modifies `db, `claims, `refresh
      ensures next == Min(met + count, |others|) && Tracked(start, others[..next], State(), day)
      ensures next == met ==> State() == old(State())
      ensures Quiet(others[met..next]) ==> db == old(db)
    {
      hide Tracked, Met, Quiet;
      next := met;
      assert others[met..met] == [];
      while next < |others| && next - met < count
        invariant met <= next <= Min(met + count, |others|) && Tracked(start, others[..next], State(), day)
        invariant next == met ==> State() == old(State())
        invariant Quiet(others[met..next]) ==> db == old(db)
      {
        OtherIsTracked(start, others[..next], State(), others[next], day);
        QuietOneMore(others, met, next, State());
        assert others[..next + 1] == others[..next] + [others[next]];
        var w := Met(State(), others[next]);
        db, claims, refresh := w.db, w.claims, w.refresh;
        next := next + 1;
      }
    }

    /** One turn: `pace` of the other transactions commit, then the worker tries its next page. */
    method MergeTurn(
      limit: nat, worker: int, token: nat, others: seq<Other>, met: nat, pace: nat,
      reportedLost: bool, now: int, locked: set<Key>, ghost start: World)
      returns (count: Option<nat>, next: nat)
      requires limit > 0 && met <= |others| && Tracked(start, others[..met], State(), day)
      modifies `db, `claims, `refresh
      ensures next == Min(met + pace, |others|) && Tracked(start, others[..next], State(), day)
      ensures count.None? <==> reportedLost || !Jobs.Owns(claims.job, worker, token, now)
      ensures count == Some(0) ==> StagedKeys(db, day) <= locked
      ensures count.Some? && count.value > 0 && next == met ==> |StagedKeys(db, day)| < |StagedKeys(old(db), day)|
    {
      hide Tracked, Merged, StagedKeys, NextPage, Jobs.Owns;
      next := MeetOthers(others, met, pace, start);
      if reportedLost {
        return None, next;
      }
      ghost var w := State();
      count := MergeOnePage(limit, worker, token, now, locked);
      NextPageIsTracked(start, others[..next], w, limit, locked, day);
      if count == Some(0) {
        EmptyPage(w.db, day, locked, limit);
        MergedNothing(w.db);
      }
    }

    /** Page after page until one comes back empty or the claim is lost; `step` is the page it ended with. */
    method MergePages(limit: nat, c: Course, ghost start: World) returns (lost: bool, met: nat, step: nat)
      requires limit > 0 && Tracked(start, [], State(), day)
      modifies `db, `claims, `refresh
      ensures met == c.Arrived(step + 1) && Tracked(start, c.Before(step), State(), day)
      ensures forall i: nat :: i < step ==> c.Holds(start, i)
      ensures lost <==> !c.Holds(start, step)
      ensures !lost ==> StagedKeys(db, day) <= c.locked(step)
    {
      hide Tracked, StagedKeys, Course.Holds, Jobs.Owns;
      assert c.others[..0] == [];
      met, step := 0, 0;
      while true
        invariant met == c.Arrived(step) && Tracked(start, c.others[..met], State(), day)
        invariant forall i: nat :: i < step ==> c.Holds(start, i)
        decreases |c.others| - met, |StagedKeys(db, day)|
      {
        var count;
        count, met := MergeTurn(limit, c.worker, c.token, c.others, met, c.pace(step), c.reportedLost(step),
                                c.clock(step), c.locked(step), start);
        HoldsNow(start, c, step, State(), day);
        if count.None? || count.value == 0 {
          return count.None?, met, step;
        }
        step := step + 1;
      }
    }

    /** The last step: others commit once more, then the worker closes the day if it may. */
    method CloseDay(c: Course, met: nat, step: nat, ghost start: World) returns (closed: bool, ghost w: World)
      requires step > 0 && met == c.Arrived(step) && Tracked(start, c.others[..met], State(), day)
      modifies `db, `claims, `refresh
      ensures Tracked(start, c.Before(step), w, day) && Scheduling.ValidTable(refresh)
      ensures Quiet(c.Since(step)) ==> db == old(db)
      ensures w.db == db && (!closed ==> State() == w)
      ensures closed <==> !c.reportedLost(step) && Jobs.Owns(w.claims.job, c.worker, c.token, c.clock(step)) && StagedKeys(db, day) == {}
      ensures closed ==> claims == Jobs.Step(Jobs.Merge, w.claims, Jobs.Complete(c.worker, c.token, c.clock(step)))
      ensures closed ==> forall t :: day * MICROS_PER_DAY <= t < (day + 1) * MICROS_PER_DAY ==>
                           Scheduling.ActiveOnce(refresh, t)
    {
      hide Indexed, Kept, Progressed, StagedKeys, AllMet, Quiet, Jobs.Step, Jobs.Owns;
      hide Scheduling.Schedule, Scheduling.ValidTable, Scheduling.ActiveOnce;
      var next := MeetOthers(c.others, met, c.pace(step), start);
      w := State();
      closed := false;
      if !c.reportedLost(step) {
        closed := CompleteIfOwned(c.worker, c.token, c.clock(step));
      }
    }

    /**
     A claimed day: its pages, then its closing, with other transactions committing at any point in
     between.  `step` is the last step the worker took.
     */
    method ProcessDay(limit: int, c: Course) returns (outcome: Outcome, step: nat)
      requires Valid()
      modifies `db, `claims, `refresh
      ensures Valid()
      ensures outcome.InvalidPageSize? <==> limit <= 0
      ensures outcome.InvalidPageSize? ==> State() == old(State())
      ensures !outcome.InvalidPageSize? ==> DayRun(old(State()), State(), c, step, outcome.Closed?, day)
      ensures outcome.Closed? ==> forall t :: day * MICROS_PER_DAY <= t < (day + 1) * MICROS_PER_DAY ==>
                                    Scheduling.ActiveOnce(refresh, t)
    {
      hide Indexed, Kept, Progressed, AllMet, DayRun, Course.Holds, Course.Before, Course.Since, Course.Arrived;
      hide StagedKeys, Quiet, Jobs.Step, Jobs.Owns, Scheduling.ValidTable, Scheduling.ActiveOnce;
      if limit <= 0 {
        return InvalidPageSize, 0;
      }
      ghost var start := State();
      TrackedAtStart(start, day);
      var lost, met;
      lost, met, step := MergePages(limit, c, start);
      if lost {
        LostWhilePaging(start, c, step, State(), day);
        return LeaseLost, step;
      }
      step := step + 1;
      var closed;
      ghost var w;
      BeforeEnds(c, step - 1);
      closed, w := CloseDay(c, met, step, start);
      EndedAtClosing(start, c, step, w, State(), closed, day);
      outcome := if closed then Closed else LeaseLost;
    }
  }
}
