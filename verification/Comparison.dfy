/**
 Comparison of a strategy's live evidence with its reference: findings per family of points,
 deduplicated, and the status they imply.
 */
module Comparison {
  import opened Wrappers
  import opened Pairing
  import Sorting

  datatype Kind =
    | InsufficientReference | VersionMismatch | ConfigurationMismatch | EvaluatorFailure
    | MissingSignal | UnexpectedSignal | SignalTiming
    | MissingCandle | CorrectedCandle | TimestampMismatch | OhlcDiscrepancy | VolumeDiscrepancy
    | MissingEntry | MissingExit | UnexpectedEntry | UnexpectedExit
    | ExecutionDelay | ExecutionSlippage | FeeDifference
    | PositionMismatch | ExposureMismatch | UnexpectedPersistence
    | ReturnDifference | DrawdownDifference | VolatilityDifference | BenchmarkDifference
    | FrequencyDifference | WinRateDifference

  /** What a finding records of one side: the whole point, or the part of it that differs. */
  datatype Excerpt =
    | Nothing
    | Whole(point: Point)
    | RevisionOf(asset: int, revision: Option<int>)
    | VolumeOf(asset: int, volume: real)
    | FeesOf(asset: int, entry: bool, signal: Option<int>, fees: Option<real>)
    | ExposureOf(asset: int, exposure: Option<real>)
    | Coverage(complete: bool)
    | Identity(strategy: int)
    | Configuration(hash: Option<int>)
    | Totals(performance: Option<Performance>)
    | Metric(value: Option<real>)
    | Count(trades: Option<nat>)

  /**
   A finding with the values of both sides, or a reported issue with its values and explanation.
   The fingerprint is injective, so equal findings are the duplicates.
   */
  datatype Finding =
    | Finding(kind: Kind, time: Option<int>, expected: Excerpt, observed: Excerpt)
    | Reported(kind: Kind, time: Option<int>, details: IssueDetails)

  datatype IssueDetails = IssueDetails(observedValues: int, explanation: string)

  datatype Policy = Policy(
    signalSeconds: int, marketSeconds: int, ohlcBps: real, volume: real,
    delaySeconds: int, priceBps: real, fee: real, slippage: real, exposure: real,
    totalReturn: real, drawdown: real, volatility: real, trades: int, winRate: real, benchmark: real)

  datatype Performance = Performance(
    totalReturn: Option<real>, drawdown: Option<real>, volatility: Option<real>, benchmark: Option<real>,
    trades: Option<nat>, wins: Option<nat>)

  datatype Evidence = Evidence(
    signals: seq<Point>, candles: seq<Point>, executions: seq<Point>, positions: seq<Point>,
    performance: Option<Performance>)

  /** Incidents the market-data pipeline itself reported; `observedValues` stands for its JSON values. */
  datatype Issue = Issue(kind: Kind, time: int, asset: Option<int>, details: IssueDetails)

  datatype Input = Input(
    strategy: int, reference: int,
    policy: Policy,
    referenceComplete: bool, observedComplete: bool,
    expectedConfiguration: Option<int>, observedConfiguration: Option<int>,
    expected: Evidence, observed: Evidence,
    issues: seq<Issue>)

  datatype Status = Healthy | Divergent | InsufficientEvidence

  datatype Report = Report(status: Status, findings: set<Finding>)

  /** Every tolerance is non-negative: the policy's own field constraints. */
  predicate NonNegative(p: Policy) {
    && p.signalSeconds >= 0 && p.marketSeconds >= 0 && p.ohlcBps >= 0.0 && p.volume >= 0.0
    && p.delaySeconds >= 0 && p.priceBps >= 0.0 && p.fee >= 0.0 && p.slippage >= 0.0 && p.exposure >= 0.0
    && p.totalReturn >= 0.0 && p.drawdown >= 0.0 && p.volatility >= 0.0
    && p.trades >= 0 && p.winRate >= 0.0 && p.benchmark >= 0.0
  }

  /** Each list holds points of its own family. */
  predicate Typed(e: Evidence) {
    && (forall p :: p in e.signals ==> p.body.SignalBody?)
    && (forall p :: p in e.candles ==> p.body.CandleBody?)
    && (forall p :: p in e.executions ==> p.body.ExecutionBody?)
    && (forall p :: p in e.positions ==> p.body.PositionBody?)
  }

  predicate AllComparable(e: Evidence) {
    Comparable(e.signals) && Comparable(e.candles) && Comparable(e.executions) && Comparable(e.positions)
  }

  function Apart(a: Point, b: Point): int { if a.time <= b.time then b.time - a.time else a.time - b.time }

  function Micros(seconds: int): int { seconds * 1_000_000 }

  function Abs(x: real): real { if x < 0.0 then -x else x }

  /** A price differs by more than so many basis points; from zero any difference is unbounded. */
  predicate BpsExceeds(expected: real, observed: real, bps: real) {
    if expected == 0.0 then observed != 0.0 else Abs(observed - expected) / Abs(expected) * 10000.0 > bps
  }

  /** Two optional values are compared only when both are present. */
  predicate Exceeds(a: Option<real>, b: Option<real>, tolerance: real) {
    a.Some? && b.Some? && Abs(a.value - b.value) > tolerance
  }

  function When(condition: bool, f: Finding): seq<Finding> { if condition then [f] else [] }

  /** A finding of a pair, recorded at the observed time. */
  function Between(kind: Kind, pair: Pair): Finding {
    Finding(kind, Some(pair.1.time), Whole(pair.0), Whole(pair.1))
  }

  // ---- Findings per family ----------------------------------------------------------------------------

  function SignalPair(p: Policy, pair: Pair): seq<Finding> {
    When(Apart(pair.0, pair.1) > Micros(p.signalSeconds), Between(SignalTiming, pair))
  }

  /** A mistimed candle is reported as such and not compared further. */
  function CandlePair(p: Policy, pair: Pair): seq<Finding> {
    var (e, o) := pair;
    if Apart(e, o) > Micros(p.marketSeconds) then [Between(TimestampMismatch, pair)]
    else if !e.body.CandleBody? || !o.body.CandleBody? then []
    else
      When(e.body.revision.Some? && o.body.revision.Some? && e.body.revision != o.body.revision,
           Finding(CorrectedCandle, Some(o.time), RevisionOf(e.key.asset, e.body.revision), RevisionOf(o.key.asset, o.body.revision))) +
      When(OhlcExceeds(p, e.body, o.body), Between(OhlcDiscrepancy, pair)) +
      When(Abs(e.body.volume - o.body.volume) > p.volume,
           Finding(VolumeDiscrepancy, Some(o.time), VolumeOf(e.key.asset, e.body.volume), VolumeOf(o.key.asset, o.body.volume)))
  }

  predicate OhlcExceeds(p: Policy, e: Body, o: Body)
    requires e.CandleBody? && o.CandleBody?
  {
    || BpsExceeds(e.open, o.open, p.ohlcBps) || BpsExceeds(e.high, o.high, p.ohlcBps)
    || BpsExceeds(e.low, o.low, p.ohlcBps) || BpsExceeds(e.close, o.close, p.ohlcBps)
  }

  function ExecutionPair(p: Policy, pair: Pair): seq<Finding> {
    var (e, o) := pair;
    When(Apart(e, o) > Micros(p.delaySeconds), Between(ExecutionDelay, pair)) +
    if !e.body.ExecutionBody? || !o.body.ExecutionBody? then []
    else
      When(BpsExceeds(e.body.price, o.body.price, p.priceBps) || Exceeds(e.body.slippage, o.body.slippage, p.slippage),
           Between(ExecutionSlippage, pair)) +
      When(Exceeds(e.body.fees, o.body.fees, p.fee), Finding(FeeDifference, Some(o.time), FeesExcerpt(e), FeesExcerpt(o)))
  }

  function FeesExcerpt(x: Point): Excerpt
    requires x.body.ExecutionBody?
  {
    FeesOf(x.key.asset, x.body.entry, x.key.signal, x.body.fees)
  }

  function PositionPair(p: Policy, pair: Pair): seq<Finding> {
    var (e, o) := pair;
    if !e.body.PositionBody? || !o.body.PositionBody? then []
    else
      When(e.body.state != o.body.state, Between(PositionMismatch, pair)) +
      When(Exceeds(e.body.exposure, o.body.exposure, p.exposure),
           Finding(ExposureMismatch, Some(o.time), ExposureOf(e.key.asset, e.body.exposure), ExposureOf(o.key.asset, o.body.exposure)))
  }

  function Missing(kind: Kind, e: Point): seq<Finding> { [Finding(kind, Some(e.time), Whole(e), Nothing)] }

  function Unexpected(kind: Kind, o: Point): seq<Finding> { [Finding(kind, Some(o.time), Nothing, Whole(o))] }

  predicate IsEntry(p: Point) { p.body.ExecutionBody? && p.body.entry }

  /** An observed flat position nobody expected is no finding. */
  function UnexpectedPosition(o: Point): seq<Finding> {
    if o.body.PositionBody? && o.body.state == Flat then [] else Unexpected(UnexpectedPersistence, o)
  }

  function OverPairs(pairs: seq<Pair>, n: nat, f: Pair -> seq<Finding>): seq<Finding>
    requires n <= |pairs|
  {
    if n == 0 then [] else OverPairs(pairs, n - 1, f) + f(pairs[n - 1])
  }

  function OverPoints(points: seq<Point>, n: nat, f: Point -> seq<Finding>): seq<Finding>
    requires n <= |points|
  {
    if n == 0 then [] else OverPoints(points, n - 1, f) + f(points[n - 1])
  }

  function Family(r: Paired, onPair: Pair -> seq<Finding>, onExpected: Point -> seq<Finding>,
                  onObserved: Point -> seq<Finding>): seq<Finding>
  {
    OverPairs(r.pairs, |r.pairs|, onPair) +
    OverPoints(r.expectedOnly, |r.expectedOnly|, onExpected) +
    OverPoints(r.observedOnly, |r.observedOnly|, onObserved)
  }

  function SignalFindings(p: Policy, r: Paired): seq<Finding> {
    Family(r, pair => SignalPair(p, pair), e => Missing(MissingSignal, e), o => Unexpected(UnexpectedSignal, o))
  }

  function CandleFindings(p: Policy, r: Paired): seq<Finding> {
    Family(r, pair => CandlePair(p, pair), e => Missing(MissingCandle, e), o => Unexpected(TimestampMismatch, o))
  }

  function ExecutionFindings(p: Policy, r: Paired): seq<Finding> {
    Family(r, pair => ExecutionPair(p, pair),
           e => Missing(if IsEntry(e) then MissingEntry else MissingExit, e),
           o => Unexpected(if IsEntry(o) then UnexpectedEntry else UnexpectedExit, o))
  }

  function PositionFindings(p: Policy, r: Paired): seq<Finding> {
    Family(r, pair => PositionPair(p, pair), e => Missing(PositionMismatch, e), o => UnexpectedPosition(o))
  }

  function Overall(kind: Kind, expected: Excerpt, observed: Excerpt): Finding { Finding(kind, None, expected, observed) }

  /** The win rate where it is defined: both counts known and at least one trade. */
  function WinRate(f: Performance): Option<real> {
    if f.trades.Some? && f.wins.Some? && f.trades.value > 0 then Some(f.wins.value as real / f.trades.value as real)
    else None
  }

  predicate TradesExceed(a: Option<nat>, b: Option<nat>, tolerance: int) {
    a.Some? && b.Some? && (a.value - b.value > tolerance || b.value - a.value > tolerance)
  }

  function PerformanceFindings(p: Policy, expected: Option<Performance>, observed: Option<Performance>): seq<Finding> {
    if expected.None? && observed.None? then []
    else if expected.None? || observed.None? then [Overall(InsufficientReference, Totals(expected), Totals(observed))]
    else
      var e, o := expected.value, observed.value;
      MetricFindings(p, e, o) +
      When(TradesExceed(e.trades, o.trades, p.trades), Overall(FrequencyDifference, Count(e.trades), Count(o.trades))) +
      MetricFinding(WinRateDifference, WinRate(e), WinRate(o), p.winRate)
  }

  function MetricFindings(p: Policy, e: Performance, o: Performance): seq<Finding> {
    MetricFinding(ReturnDifference, e.totalReturn, o.totalReturn, p.totalReturn) +
    MetricFinding(DrawdownDifference, e.drawdown, o.drawdown, p.drawdown) +
    MetricFinding(VolatilityDifference, e.volatility, o.volatility, p.volatility) +
    MetricFinding(BenchmarkDifference, e.benchmark, o.benchmark, p.benchmark)
  }

  function MetricFinding(kind: Kind, e: Option<real>, o: Option<real>, tolerance: real): seq<Finding> {
    When(Exceeds(e, o, tolerance), Overall(kind, Metric(e), Metric(o)))
  }

  /** The asset of an issue does not enter its finding: the service keeps only the observed values. */
  function IssueFinding(x: Issue): Finding { Reported(x.kind, Some(x.time), x.details) }

  function IssueFindings(issues: seq<Issue>, n: nat): seq<Finding>
    requires n <= |issues|
  {
    if n == 0 then []
    else IssueFindings(issues, n - 1) + [IssueFinding(issues[n - 1])]
  }

  predicate ConfigurationsConflict(i: Input) {
    i.expectedConfiguration.Some? && i.observedConfiguration.Some? && i.expectedConfiguration != i.observedConfiguration
  }

  function HeaderFindings(i: Input): seq<Finding> {
    When(!i.referenceComplete || !i.observedComplete,
         Overall(InsufficientReference, Coverage(i.referenceComplete), Coverage(i.observedComplete))) +
    When(i.strategy != i.reference, Overall(VersionMismatch, Identity(i.reference), Identity(i.strategy))) +
    When(ConfigurationsConflict(i),
         Overall(ConfigurationMismatch, Configuration(i.expectedConfiguration), Configuration(i.observedConfiguration)))
  }

  /** All findings, in the order the comparison makes them. */
  function Findings(i: Input): seq<Finding> {
    HeaderFindings(i) +
    IssueFindings(i.issues, |i.issues|) +
    SignalFindings(i.policy, PairUp(i.expected.signals, i.observed.signals)) +
    CandleFindings(i.policy, PairUp(i.expected.candles, i.observed.candles)) +
    ExecutionFindings(i.policy, PairUp(i.expected.executions, i.observed.executions)) +
    PositionFindings(i.policy, PairUp(i.expected.positions, i.observed.positions)) +
    PerformanceFindings(i.policy, i.expected.performance, i.observed.performance)
  }

  /** Insufficient evidence outranks divergence. */
  function Classify(findings: set<Finding>): Status {
    if exists f :: f in findings && f.kind == InsufficientReference then InsufficientEvidence
    else if findings != {} then Divergent
    else Healthy
  }

  function ToSet(findings: seq<Finding>): set<Finding> { set f | f in findings }

  /** The comparison as a whole: evidence that cannot be sorted has no report. */
  function Compared(i: Input): Result<Report, PairingError> {
    if AllComparable(i.expected) && AllComparable(i.observed) then
      Ok(Report(Classify(ToSet(Findings(i))), ToSet(Findings(i))))
    else Err(IncomparableSignals)
  }

  // ---- When a comparison is healthy --------------------------------------------------------------------

  /** Two times are more than so many seconds apart. */
  predicate FarApart(e: Point, o: Point, seconds: int) { !Near(e, o, seconds * 1_000_000) }

  /** A price is off by more than so many ten-thousandths of the expected one. */
  predicate PriceOff(e: real, o: real, bps: real) {
    if e > 0.0 then (o - e) * 10000.0 > bps * e || (e - o) * 10000.0 > bps * e
    else if e < 0.0 then (o - e) * 10000.0 > bps * -e || (e - o) * 10000.0 > bps * -e
    else o != 0.0
  }

  /** Both values are known and more than the tolerance apart. */
  predicate Off(a: Option<real>, b: Option<real>, tolerance: real) {
    a.Some? && b.Some? && !(-tolerance <= a.value - b.value <= tolerance)
  }

  predicate CandleAgrees(p: Policy, e: Point, o: Point) {
    && !FarApart(e, o, p.marketSeconds)
    && e.body.CandleBody? && o.body.CandleBody?
    && (e.body.revision.None? || o.body.revision.None? || e.body.revision == o.body.revision)
    && !PriceOff(e.body.open, o.body.open, p.ohlcBps) && !PriceOff(e.body.high, o.body.high, p.ohlcBps)
    && !PriceOff(e.body.low, o.body.low, p.ohlcBps) && !PriceOff(e.body.close, o.body.close, p.ohlcBps)
    && -p.volume <= e.body.volume - o.body.volume <= p.volume
  }

  predicate ExecutionAgrees(p: Policy, e: Point, o: Point) {
    && !FarApart(e, o, p.delaySeconds)
    && e.body.ExecutionBody? && o.body.ExecutionBody?
    && !PriceOff(e.body.price, o.body.price, p.priceBps)
    && !Off(e.body.slippage, o.body.slippage, p.slippage)
    && !Off(e.body.fees, o.body.fees, p.fee)
  }

  predicate PositionAgrees(p: Policy, e: Point, o: Point) {
    && e.body.PositionBody? && o.body.PositionBody?
    && e.body.state == o.body.state
    && !Off(e.body.exposure, o.body.exposure, p.exposure)
  }

  predicate CandlesAgree(p: Policy, r: Paired) {
    r.expectedOnly == [] && r.observedOnly == [] && forall pair :: pair in r.pairs ==> CandleAgrees(p, pair.0, pair.1)
  }

  predicate ExecutionsAgree(p: Policy, r: Paired) {
    r.expectedOnly == [] && r.observedOnly == [] && forall pair :: pair in r.pairs ==> ExecutionAgrees(p, pair.0, pair.1)
  }

  /** Positions may be observed that nobody expected, as long as they are flat. */
  predicate PositionsAgree(p: Policy, r: Paired) {
    && r.expectedOnly == []
    && (forall o :: o in r.observedOnly ==> o.body.PositionBody? && o.body.state == Flat)
    && (forall pair :: pair in r.pairs ==> PositionAgrees(p, pair.0, pair.1))
  }

  /** Both counts are known on both sides and each side traded, and the shares of wins are too far apart. */
  predicate WinsOff(e: Performance, o: Performance, tolerance: real) {
    && e.trades.Some? && o.trades.Some? && e.wins.Some? && o.wins.Some?
    && e.trades.value > 0 && o.trades.value > 0
    && !(-tolerance <= e.wins.value as real / e.trades.value as real - o.wins.value as real / o.trades.value as real <= tolerance)
  }

  predicate TradesOff(e: Performance, o: Performance, tolerance: int) {
    e.trades.Some? && o.trades.Some? && !(-tolerance <= e.trades.value - o.trades.value <= tolerance)
  }

  predicate PerformanceAgrees(p: Policy, expected: Option<Performance>, observed: Option<Performance>) {
    || (expected.None? && observed.None?)
    || (expected.Some? && observed.Some? &&
        var e, o := expected.value, observed.value;
        && !Off(e.totalReturn, o.totalReturn, p.totalReturn)
        && !Off(e.drawdown, o.drawdown, p.drawdown)
        && !Off(e.volatility, o.volatility, p.volatility)
        && !Off(e.benchmark, o.benchmark, p.benchmark)
        && !TradesOff(e, o, p.trades)
        && !WinsOff(e, o, p.winRate))
  }

  lemma ApartIff(e: Point, o: Point, seconds: int)
    ensures Apart(e, o) > Micros(seconds) <==> FarApart(e, o, seconds)
  {
  }

  /** The test by division and the test by multiplication agree. */
  lemma BpsExceedsIff(e: real, o: real, bps: real)
    ensures BpsExceeds(e, o, bps) <==> PriceOff(e, o, bps)
  {
    if e != 0.0 {
      RatioExceedsIff(Abs(o - e), Abs(e), bps);
    }
  }

  lemma RatioExceedsIff(difference: real, base: real, bps: real)
    requires base > 0.0
    ensures difference / base * 10000.0 > bps <==> difference * 10000.0 > bps * base
  {
    var q := difference / base;
    assert q * base == difference;
    if q * 10000.0 > bps {
      ScalePositive(bps, q * 10000.0, base);
    } else {
      ScaleNonNegative(q * 10000.0, bps, base);
    }
    assert (q * 10000.0) * base == difference * 10000.0;
  }

  lemma ScalePositive(x: real, y: real, base: real)
    requires x < y && base > 0.0
    ensures x * base < y * base
  {
    assert (y - x) * base > 0.0;
  }

  lemma ScaleNonNegative(x: real, y: real, base: real)
    requires x <= y && base > 0.0
    ensures x * base <= y * base
  {
    assert (y - x) * base >= 0.0;
  }

  lemma ExceedsIff(a: Option<real>, b: Option<real>, tolerance: real)
    ensures Exceeds(a, b, tolerance) <==> Off(a, b, tolerance)
  {
  }

  lemma OhlcExceedsIff(p: Policy, e: Body, o: Body)
    requires e.CandleBody? && o.CandleBody?
    ensures OhlcExceeds(p, e, o) <==>
              || PriceOff(e.open, o.open, p.ohlcBps) || PriceOff(e.high, o.high, p.ohlcBps)
              || PriceOff(e.low, o.low, p.ohlcBps) || PriceOff(e.close, o.close, p.ohlcBps)
  {
    BpsExceedsIff(e.open, o.open, p.ohlcBps);
    BpsExceedsIff(e.high, o.high, p.ohlcBps);
    BpsExceedsIff(e.low, o.low, p.ohlcBps);
    BpsExceedsIff(e.close, o.close, p.ohlcBps);
  }

  lemma WinRatesExceedIff(e: Performance, o: Performance, tolerance: real)
    ensures Exceeds(WinRate(e), WinRate(o), tolerance) <==> WinsOff(e, o, tolerance)
  {
  }

  lemma {:induction false} NoPairFindings(pairs: seq<Pair>, n: nat, f: Pair -> seq<Finding>)
    requires n <= |pairs|
    ensures OverPairs(pairs, n, f) == [] <==> forall i :: 0 <= i < n ==> f(pairs[i]) == []
  {
    if n > 0 {
      NoPairFindings(pairs, n - 1, f);
    }
  }

  lemma {:induction false} NoPointFindings(points: seq<Point>, n: nat, f: Point -> seq<Finding>)
    requires n <= |points|
    ensures OverPoints(points, n, f) == [] <==> forall i :: 0 <= i < n ==> f(points[i]) == []
  {
    if n > 0 {
      NoPointFindings(points, n - 1, f);
    }
  }

  lemma NoFamilyFindings(r: Paired, onPair: Pair -> seq<Finding>, onExpected: Point -> seq<Finding>, onObserved: Point -> seq<Finding>)
    ensures Family(r, onPair, onExpected, onObserved) == [] <==>
              && (forall pair :: pair in r.pairs ==> onPair(pair) == [])
              && (forall e :: e in r.expectedOnly ==> onExpected(e) == [])
              && (forall o :: o in r.observedOnly ==> onObserved(o) == [])
  {
    NoPairFindings(r.pairs, |r.pairs|, onPair);
    NoPointFindings(r.expectedOnly, |r.expectedOnly|, onExpected);
    NoPointFindings(r.observedOnly, |r.observedOnly|, onObserved);
    assert (forall pair :: pair in r.pairs ==> onPair(pair) == []) <==>
             forall i :: 0 <= i < |r.pairs| ==> onPair(r.pairs[i]) == [];
    assert (forall e :: e in r.expectedOnly ==> onExpected(e) == []) <==>
             forall i :: 0 <= i < |r.expectedOnly| ==> onExpected(r.expectedOnly[i]) == [];
    assert (forall o :: o in r.observedOnly ==> onObserved(o) == []) <==>
             forall i :: 0 <= i < |r.observedOnly| ==> onObserved(r.observedOnly[i]) == [];
  }

  lemma {:induction false} InFirsts(pairs: seq<Pair>, pair: Pair)
    requires pair in pairs
    ensures pair.0 in Firsts(pairs) && pair.1 in Seconds(pairs)
  {
    PairCounts(pairs);
    var i :| 0 <= i < |pairs| && pairs[i] == pair;
    assert Firsts(pairs)[i] == pair.0 && Seconds(pairs)[i] == pair.1;
  }

  /** Everything in a pairing comes from the lists paired. */
  lemma PairedFromLists(expected: seq<Point>, observed: seq<Point>)
    ensures var r := PairUp(expected, observed);
            && (forall pair :: pair in r.pairs ==> pair.0 in expected && pair.1 in observed)
            && (forall e :: e in r.expectedOnly ==> e in expected)
            && (forall o :: o in r.observedOnly ==> o in observed)
  {
    var r := PairUp(expected, observed);
    PairingIsExactPartition(expected, observed);
    forall pair | pair in r.pairs ensures pair.0 in expected && pair.1 in observed {
      InFirsts(r.pairs, pair);
      assert pair.0 in multiset(Firsts(r.pairs)) && pair.1 in multiset(Seconds(r.pairs));
      assert pair.0 in multiset(expected) && pair.1 in multiset(observed);
    }
    forall e | e in r.expectedOnly ensures e in expected {
      assert e in multiset(r.expectedOnly);
      assert e in multiset(expected);
    }
    forall o | o in r.observedOnly ensures o in observed {
      assert o in multiset(r.observedOnly);
      assert o in multiset(observed);
    }
  }

  lemma Empty<T>(s: seq<T>)
    ensures s == [] <==> forall x :: x in s ==> false
  {
    if s != [] {
      assert s[0] in s;
    }
  }

  /** No signal finding exactly when the signals can be matched within the tolerance at all. */
  lemma SignalsAgreeIff(p: Policy, expected: seq<Point>, observed: seq<Point>)
    ensures SignalFindings(p, PairUp(expected, observed)) == [] <==>
              Matchable(expected, observed, p.signalSeconds * 1_000_000)
  {
    var r := PairUp(expected, observed);
    NoFamilyFindings(r, pair => SignalPair(p, pair), e => Missing(MissingSignal, e), o => Unexpected(UnexpectedSignal, o));
    PairedWithinIffMatchable(expected, observed, p.signalSeconds * 1_000_000);
    hide PairUp, Matchable;
    Empty(r.expectedOnly);
    Empty(r.observedOnly);
    if forall pair :: pair in r.pairs ==> SignalPair(p, pair) == [] {
      forall i | 0 <= i < |r.pairs| ensures Near(r.pairs[i].0, r.pairs[i].1, p.signalSeconds * 1_000_000) {
        assert r.pairs[i] in r.pairs;
        ApartIff(r.pairs[i].0, r.pairs[i].1, p.signalSeconds);
      }
    }
  }

  lemma CandlesAgreeIff(p: Policy, expected: seq<Point>, observed: seq<Point>)
    requires forall e :: e in expected ==> e.body.CandleBody?
    requires forall o :: o in observed ==> o.body.CandleBody?
    ensures CandleFindings(p, PairUp(expected, observed)) == [] <==> CandlesAgree(p, PairUp(expected, observed))
  {
    var r := PairUp(expected, observed);
    NoFamilyFindings(r, pair => CandlePair(p, pair), e => Missing(MissingCandle, e), o => Unexpected(TimestampMismatch, o));
    PairedFromLists(expected, observed);
    hide PairUp, OhlcExceeds, Apart, FarApart, PriceOff;
    Empty(r.expectedOnly);
    Empty(r.observedOnly);
    forall pair | pair in r.pairs ensures CandlePair(p, pair) == [] <==> CandleAgrees(p, pair.0, pair.1) {
      ApartIff(pair.0, pair.1, p.marketSeconds);
      OhlcExceedsIff(p, pair.0.body, pair.1.body);
    }
  }

  lemma ExecutionsAgreeIff(p: Policy, expected: seq<Point>, observed: seq<Point>)
    requires forall e :: e in expected ==> e.body.ExecutionBody?
    requires forall o :: o in observed ==> o.body.ExecutionBody?
    ensures ExecutionFindings(p, PairUp(expected, observed)) == [] <==> ExecutionsAgree(p, PairUp(expected, observed))
  {
    var r := PairUp(expected, observed);
    NoFamilyFindings(r, pair => ExecutionPair(p, pair),
                     e => Missing(if IsEntry(e) then MissingEntry else MissingExit, e),
                     o => Unexpected(if IsEntry(o) then UnexpectedEntry else UnexpectedExit, o));
    PairedFromLists(expected, observed);
    hide PairUp, BpsExceeds, Exceeds, Apart, FarApart, PriceOff, Off;
    Empty(r.expectedOnly);
    Empty(r.observedOnly);
    forall pair | pair in r.pairs ensures ExecutionPair(p, pair) == [] <==> ExecutionAgrees(p, pair.0, pair.1) {
      var (e, o) := pair;
      ApartIff(e, o, p.delaySeconds);
      BpsExceedsIff(e.body.price, o.body.price, p.priceBps);
      ExceedsIff(e.body.slippage, o.body.slippage, p.slippage);
      ExceedsIff(e.body.fees, o.body.fees, p.fee);
    }
  }

  lemma PositionsAgreeIff(p: Policy, expected: seq<Point>, observed: seq<Point>)
    requires forall e :: e in expected ==> e.body.PositionBody?
    requires forall o :: o in observed ==> o.body.PositionBody?
    ensures PositionFindings(p, PairUp(expected, observed)) == [] <==> PositionsAgree(p, PairUp(expected, observed))
  {
    var r := PairUp(expected, observed);
    NoFamilyFindings(r, pair => PositionPair(p, pair), e => Missing(PositionMismatch, e), o => UnexpectedPosition(o));
    PairedFromLists(expected, observed);
    hide PairUp, Exceeds, Off;
    Empty(r.expectedOnly);
    forall pair | pair in r.pairs ensures PositionPair(p, pair) == [] <==> PositionAgrees(p, pair.0, pair.1) {
      ExceedsIff(pair.0.body.exposure, pair.1.body.exposure, p.exposure);
    }
  }

  lemma PerformanceAgreesIff(p: Policy, expected: Option<Performance>, observed: Option<Performance>)
    ensures PerformanceFindings(p, expected, observed) == [] <==> PerformanceAgrees(p, expected, observed)
  {
    if expected.Some? && observed.Some? {
      var e, o := expected.value, observed.value;
      ExceedsIff(e.totalReturn, o.totalReturn, p.totalReturn);
      ExceedsIff(e.drawdown, o.drawdown, p.drawdown);
      ExceedsIff(e.volatility, o.volatility, p.volatility);
      ExceedsIff(e.benchmark, o.benchmark, p.benchmark);
      WinRatesExceedIff(e, o, p.winRate);
    }
    hide Exceeds, Off, WinsOff, WinRate;
  }

  lemma HealthyMeansNone(findings: seq<Finding>)
    ensures Classify(ToSet(findings)) == Healthy <==> findings == []
    ensures ToSet(findings) == {} <==> findings == []
  {
    if findings != [] {
      assert findings[0] in ToSet(findings);
    }
  }

  /**
   A comparison reports health exactly when the sort keys of both sides are comparable, coverage is
   complete on both sides, identities and configurations do not conflict, no issue was reported, the
   signals can be matched within the tolerance, and candles, executions, positions and performance
   agree as paired.
   */
  lemma HealthyIff(i: Input)
    requires Typed(i.expected) && Typed(i.observed)
    ensures Compared(i) == Ok(Report(Healthy, {})) <==>
              && AllComparable(i.expected) && AllComparable(i.observed)
              && i.referenceComplete && i.observedComplete
              && i.strategy == i.reference
              && !ConfigurationsConflict(i)
              && i.issues == []
              && Matchable(i.expected.signals, i.observed.signals, i.policy.signalSeconds * 1_000_000)
              && CandlesAgree(i.policy, PairUp(i.expected.candles, i.observed.candles))
              && ExecutionsAgree(i.policy, PairUp(i.expected.executions, i.observed.executions))
              && PositionsAgree(i.policy, PairUp(i.expected.positions, i.observed.positions))
              && PerformanceAgrees(i.policy, i.expected.performance, i.observed.performance)
  {
    HealthyMeansNone(Findings(i));
    NoFindingsIff(i);
    HeaderIsCleanIff(i);
    hide Findings, HeaderFindings, ConfigurationsConflict;
    SignalsAgreeIff(i.policy, i.expected.signals, i.observed.signals);
    CandlesAgreeIff(i.policy, i.expected.candles, i.observed.candles);
    ExecutionsAgreeIff(i.policy, i.expected.executions, i.observed.executions);
    PositionsAgreeIff(i.policy, i.expected.positions, i.observed.positions);
    PerformanceAgreesIff(i.policy, i.expected.performance, i.observed.performance);
    hide PairUp, Matchable, CandlesAgree, ExecutionsAgree, PositionsAgree, PerformanceAgrees, Classify, ToSet, AllComparable;
    hide SignalFindings, CandleFindings, ExecutionFindings, PositionFindings, PerformanceFindings, IssueFindings, Typed;
  }

  lemma NoFindingsIff(i: Input)
    ensures Findings(i) == [] <==>
              && HeaderFindings(i) == []
              && i.issues == []
              && SignalFindings(i.policy, PairUp(i.expected.signals, i.observed.signals)) == []
              && CandleFindings(i.policy, PairUp(i.expected.candles, i.observed.candles)) == []
              && ExecutionFindings(i.policy, PairUp(i.expected.executions, i.observed.executions)) == []
              && PositionFindings(i.policy, PairUp(i.expected.positions, i.observed.positions)) == []
              && PerformanceFindings(i.policy, i.expected.performance, i.observed.performance) == []
  {
    assert IssueFindings(i.issues, |i.issues|) == [] <==> i.issues == [];
    hide PairUp, HeaderFindings, IssueFindings;
    hide SignalFindings, CandleFindings, ExecutionFindings, PositionFindings, PerformanceFindings;
  }

  lemma HeaderIsCleanIff(i: Input)
    ensures HeaderFindings(i) == [] <==>
              i.referenceComplete && i.observedComplete && i.strategy == i.reference && !ConfigurationsConflict(i)
  {
  }

  // ---- What each finding says ------------------------------------------------------------------------------

  /** A finding about a pair of signals. */
  predicate SignalSaid(p: Policy, e: Point, o: Point, f: Finding) {
    f == Finding(SignalTiming, Some(o.time), Whole(e), Whole(o)) && FarApart(e, o, p.signalSeconds)
  }

  /** A finding about a pair of candles; a pair too far apart in time is not compared further. */
  predicate CandleSaid(p: Policy, e: Point, o: Point, f: Finding) {
    if FarApart(e, o, p.marketSeconds) then f == Finding(TimestampMismatch, Some(o.time), Whole(e), Whole(o))
    else
      && f.Finding? && f.time == Some(o.time) && e.body.CandleBody? && o.body.CandleBody?
      && match f.kind
         case CorrectedCandle =>
           && e.body.revision.Some? && o.body.revision.Some? && e.body.revision.value != o.body.revision.value
           && f.expected == RevisionOf(e.key.asset, e.body.revision) && f.observed == RevisionOf(o.key.asset, o.body.revision)
         case OhlcDiscrepancy =>
           && f.expected == Whole(e) && f.observed == Whole(o)
           && (PriceOff(e.body.open, o.body.open, p.ohlcBps) || PriceOff(e.body.high, o.body.high, p.ohlcBps) ||
               PriceOff(e.body.low, o.body.low, p.ohlcBps) || PriceOff(e.body.close, o.body.close, p.ohlcBps))
         case VolumeDiscrepancy =>
           && !(-p.volume <= e.body.volume - o.body.volume <= p.volume)
           && f.expected == VolumeOf(e.key.asset, e.body.volume) && f.observed == VolumeOf(o.key.asset, o.body.volume)
         case _ => false
  }

  predicate ExecutionSaid(p: Policy, e: Point, o: Point, f: Finding) {
    && f.Finding? && f.time == Some(o.time)
    && match f.kind
       case ExecutionDelay => FarApart(e, o, p.delaySeconds) && f.expected == Whole(e) && f.observed == Whole(o)
       case ExecutionSlippage =>
         && e.body.ExecutionBody? && o.body.ExecutionBody? && f.expected == Whole(e) && f.observed == Whole(o)
         && (PriceOff(e.body.price, o.body.price, p.priceBps) || Off(e.body.slippage, o.body.slippage, p.slippage))
       case FeeDifference =>
         && e.body.ExecutionBody? && o.body.ExecutionBody? && Off(e.body.fees, o.body.fees, p.fee)
         && f.expected == FeesOf(e.key.asset, e.body.entry, e.key.signal, e.body.fees)
         && f.observed == FeesOf(o.key.asset, o.body.entry, o.key.signal, o.body.fees)
       case _ => false
  }

  predicate PositionSaid(p: Policy, e: Point, o: Point, f: Finding) {
    && f.Finding? && f.time == Some(o.time) && e.body.PositionBody? && o.body.PositionBody?
    && match f.kind
       case PositionMismatch => e.body.state != o.body.state && f.expected == Whole(e) && f.observed == Whole(o)
       case ExposureMismatch =>
         && Off(e.body.exposure, o.body.exposure, p.exposure)
         && f.expected == ExposureOf(e.key.asset, e.body.exposure) && f.observed == ExposureOf(o.key.asset, o.body.exposure)
       case _ => false
  }

  predicate MetricSaid(kind: Kind, e: Option<real>, o: Option<real>, tolerance: real, f: Finding) {
    f == Finding(kind, None, Metric(e), Metric(o)) && Off(e, o, tolerance)
  }

  predicate MetricsSaid(p: Policy, e: Performance, o: Performance, f: Finding) {
    || MetricSaid(ReturnDifference, e.totalReturn, o.totalReturn, p.totalReturn, f)
    || MetricSaid(DrawdownDifference, e.drawdown, o.drawdown, p.drawdown, f)
    || MetricSaid(VolatilityDifference, e.volatility, o.volatility, p.volatility, f)
    || MetricSaid(BenchmarkDifference, e.benchmark, o.benchmark, p.benchmark, f)
  }

  predicate TradesSaid(p: Policy, e: Performance, o: Performance, f: Finding) {
    f == Finding(FrequencyDifference, None, Count(e.trades), Count(o.trades)) && TradesOff(e, o, p.trades)
  }

  predicate WinsSaid(p: Policy, e: Performance, o: Performance, f: Finding) {
    && WinsOff(e, o, p.winRate)
    && f == Finding(WinRateDifference, None, Metric(Some(e.wins.value as real / e.trades.value as real)),
                    Metric(Some(o.wins.value as real / o.trades.value as real)))
  }

  predicate PerformanceSaid(p: Policy, expected: Option<Performance>, observed: Option<Performance>, f: Finding) {
    if expected.Some? && observed.Some? then
      var e, o := expected.value, observed.value;
      MetricsSaid(p, e, o, f) || TradesSaid(p, e, o, f) || WinsSaid(p, e, o, f)
    else
      (expected.Some? || observed.Some?) && f == Finding(InsufficientReference, None, Totals(expected), Totals(observed))
  }

  predicate HeaderSaid(i: Input, f: Finding) {
    && f.Finding? && f.time == None
    && match f.kind
       case InsufficientReference =>
         && !(i.referenceComplete && i.observedComplete)
         && f.expected == Coverage(i.referenceComplete) && f.observed == Coverage(i.observedComplete)
       case VersionMismatch =>
         i.strategy != i.reference && f.expected == Identity(i.reference) && f.observed == Identity(i.strategy)
       case ConfigurationMismatch =>
         && i.expectedConfiguration.Some? && i.observedConfiguration.Some?
         && i.expectedConfiguration.value != i.observedConfiguration.value
         && f.expected == Configuration(i.expectedConfiguration) && f.observed == Configuration(i.observedConfiguration)
       case _ => false
  }

  /** What a point only one side has is reported as, by its family. */
  function OneSidedKind(p: Point, expected: bool): Kind {
    match p.body
    case SignalBody(_, _) => if expected then MissingSignal else UnexpectedSignal
    case CandleBody(_, _, _, _, _, _) => if expected then MissingCandle else TimestampMismatch
    case ExecutionBody(entry, _, _, _, _, _) =>
      if expected then (if entry then MissingEntry else MissingExit)
      else if entry then UnexpectedEntry else UnexpectedExit
    case PositionBody(_, _) => if expected then PositionMismatch else UnexpectedPersistence
  }

  /** A point without a partner: what is expected is always reported, a flat position nobody expected never. */
  ghost predicate OneSidedSaid(r: Paired, f: Finding) {
    || (exists e :: e in r.expectedOnly && f == Finding(OneSidedKind(e, true), Some(e.time), Whole(e), Nothing))
    || (exists o :: o in r.observedOnly && f == Finding(OneSidedKind(o, false), Some(o.time), Nothing, Whole(o)) &&
                    !(o.body.PositionBody? && o.body.state == Flat))
  }

  ghost predicate SignalsSaid(p: Policy, r: Paired, f: Finding) {
    (exists pair :: pair in r.pairs && SignalSaid(p, pair.0, pair.1, f)) || OneSidedSaid(r, f)
  }

  ghost predicate CandlesSaid(p: Policy, r: Paired, f: Finding) {
    (exists pair :: pair in r.pairs && CandleSaid(p, pair.0, pair.1, f)) || OneSidedSaid(r, f)
  }

  ghost predicate ExecutionsSaid(p: Policy, r: Paired, f: Finding) {
    (exists pair :: pair in r.pairs && ExecutionSaid(p, pair.0, pair.1, f)) || OneSidedSaid(r, f)
  }

  ghost predicate PositionsSaid(p: Policy, r: Paired, f: Finding) {
    (exists pair :: pair in r.pairs && PositionSaid(p, pair.0, pair.1, f)) || OneSidedSaid(r, f)
  }

  /** Everything a comparison may say, finding by finding. */
  ghost predicate Said(i: Input, f: Finding) {
    || HeaderSaid(i, f)
    || (exists x :: x in i.issues && f == Reported(x.kind, Some(x.time), x.details))
    || SignalsSaid(i.policy, PairUp(i.expected.signals, i.observed.signals), f)
    || CandlesSaid(i.policy, PairUp(i.expected.candles, i.observed.candles), f)
    || ExecutionsSaid(i.policy, PairUp(i.expected.executions, i.observed.executions), f)
    || PositionsSaid(i.policy, PairUp(i.expected.positions, i.observed.positions), f)
    || PerformanceSaid(i.policy, i.expected.performance, i.observed.performance, f)
  }

  lemma {:induction false} InPairFindings(pairs: seq<Pair>, n: nat, g: Pair -> seq<Finding>, f: Finding)
    requires n <= |pairs|
    ensures f in OverPairs(pairs, n, g) <==> exists k :: 0 <= k < n && f in g(pairs[k])
  {
    if n > 0 {
      InPairFindings(pairs, n - 1, g, f);
    }
  }

  lemma {:induction false} InPointFindings(points: seq<Point>, n: nat, g: Point -> seq<Finding>, f: Finding)
    requires n <= |points|
    ensures f in OverPoints(points, n, g) <==> exists k :: 0 <= k < n && f in g(points[k])
  {
    if n > 0 {
      InPointFindings(points, n - 1, g, f);
    }
  }

  /** A family's findings come from its pairs and from what only one side has. */
  lemma InFamily(r: Paired, onPair: Pair -> seq<Finding>, onExpected: Point -> seq<Finding>, onObserved: Point -> seq<Finding>, f: Finding)
    ensures f in Family(r, onPair, onExpected, onObserved) <==>
              || (exists pair :: pair in r.pairs && f in onPair(pair))
              || (exists e :: e in r.expectedOnly && f in onExpected(e))
              || (exists o :: o in r.observedOnly && f in onObserved(o))
  {
    InPairFindings(r.pairs, |r.pairs|, onPair, f);
    InPointFindings(r.expectedOnly, |r.expectedOnly|, onExpected, f);
    InPointFindings(r.observedOnly, |r.observedOnly|, onObserved, f);
    if pair :| pair in r.pairs && f in onPair(pair) {
      var k :| 0 <= k < |r.pairs| && r.pairs[k] == pair;
    }
    if e :| e in r.expectedOnly && f in onExpected(e) {
      var k :| 0 <= k < |r.expectedOnly| && r.expectedOnly[k] == e;
    }
    if o :| o in r.observedOnly && f in onObserved(o) {
      var k :| 0 <= k < |r.observedOnly| && r.observedOnly[k] == o;
    }
  }

  lemma SignalPairSays(p: Policy, pair: Pair, f: Finding)
    ensures f in SignalPair(p, pair) <==> SignalSaid(p, pair.0, pair.1, f)
  {
    ApartIff(pair.0, pair.1, p.signalSeconds);
  }

  lemma CandlePairSays(p: Policy, pair: Pair, f: Finding)
    ensures f in CandlePair(p, pair) <==> CandleSaid(p, pair.0, pair.1, f)
  {
    var (e, o) := pair;
    ApartIff(e, o, p.marketSeconds);
    if e.body.CandleBody? && o.body.CandleBody? {
      OhlcExceedsIff(p, e.body, o.body);
    }
    hide OhlcExceeds, PriceOff, FarApart, Apart;
  }

  lemma ExecutionPairSays(p: Policy, pair: Pair, f: Finding)
    ensures f in ExecutionPair(p, pair) <==> ExecutionSaid(p, pair.0, pair.1, f)
  {
    var (e, o) := pair;
    ApartIff(e, o, p.delaySeconds);
    if e.body.ExecutionBody? && o.body.ExecutionBody? {
      BpsExceedsIff(e.body.price, o.body.price, p.priceBps);
      ExceedsIff(e.body.slippage, o.body.slippage, p.slippage);
      ExceedsIff(e.body.fees, o.body.fees, p.fee);
    }
    hide BpsExceeds, Exceeds, PriceOff, Off, FarApart, Apart;
  }

  lemma PositionPairSays(p: Policy, pair: Pair, f: Finding)
    ensures f in PositionPair(p, pair) <==> PositionSaid(p, pair.0, pair.1, f)
  {
    if pair.0.body.PositionBody? && pair.1.body.PositionBody? {
      ExceedsIff(pair.0.body.exposure, pair.1.body.exposure, p.exposure);
    }
    hide Exceeds, Off;
  }

  lemma PerformanceSays(p: Policy, expected: Option<Performance>, observed: Option<Performance>, f: Finding)
    ensures f in PerformanceFindings(p, expected, observed) <==> PerformanceSaid(p, expected, observed, f)
  {
    if expected.Some? && observed.Some? {
      var e, o := expected.value, observed.value;
      MetricsSay(p, e, o, f);
      TradesSay(p, e, o, f);
      WinsSay(p, e, o, f);
      hide MetricFindings, MetricFinding, When, TradesExceed, MetricsSaid, TradesSaid, WinsSaid;
    }
  }

  lemma MetricSays(kind: Kind, e: Option<real>, o: Option<real>, tolerance: real, f: Finding)
    ensures f in MetricFinding(kind, e, o, tolerance) <==> MetricSaid(kind, e, o, tolerance, f)
  {
    ExceedsIff(e, o, tolerance);
    hide Exceeds, Off;
  }

  lemma MetricsSay(p: Policy, e: Performance, o: Performance, f: Finding)
    ensures f in MetricFindings(p, e, o) <==> MetricsSaid(p, e, o, f)
  {
    MetricSays(ReturnDifference, e.totalReturn, o.totalReturn, p.totalReturn, f);
    MetricSays(DrawdownDifference, e.drawdown, o.drawdown, p.drawdown, f);
    MetricSays(VolatilityDifference, e.volatility, o.volatility, p.volatility, f);
    MetricSays(BenchmarkDifference, e.benchmark, o.benchmark, p.benchmark, f);
    hide MetricFinding, MetricSaid;
  }

  lemma TradesSay(p: Policy, e: Performance, o: Performance, f: Finding)
    ensures f in When(TradesExceed(e.trades, o.trades, p.trades), Overall(FrequencyDifference, Count(e.trades), Count(o.trades))) <==>
              TradesSaid(p, e, o, f)
  {
  }

  lemma WinsSay(p: Policy, e: Performance, o: Performance, f: Finding)
    ensures f in MetricFinding(WinRateDifference, WinRate(e), WinRate(o), p.winRate) <==> WinsSaid(p, e, o, f)
  {
    MetricSays(WinRateDifference, WinRate(e), WinRate(o), p.winRate, f);
    WinRatesExceedIff(e, o, p.winRate);
    ExceedsIff(WinRate(e), WinRate(o), p.winRate);
    hide MetricFinding, Off, Exceeds;
  }

  lemma {:induction false} IssuesSay(issues: seq<Issue>, n: nat, f: Finding)
    requires n <= |issues|
    ensures f in IssueFindings(issues, n) <==>
              exists k :: 0 <= k < n && f == Reported(issues[k].kind, Some(issues[k].time), issues[k].details)
  {
    if n > 0 {
      IssuesSay(issues, n - 1, f);
    }
  }

  lemma SignalsSay(p: Policy, r: Paired, f: Finding)
    requires forall e :: e in r.expectedOnly || e in r.observedOnly ==> e.body.SignalBody?
    ensures f in SignalFindings(p, r) <==> SignalsSaid(p, r, f)
  {
    InFamily(r, pair => SignalPair(p, pair), e => Missing(MissingSignal, e), o => Unexpected(UnexpectedSignal, o), f);
    forall pair ensures f in SignalPair(p, pair) <==> SignalSaid(p, pair.0, pair.1, f) {
      SignalPairSays(p, pair, f);
    }
    hide SignalPair, SignalSaid, Family;
  }

  lemma CandlesSay(p: Policy, r: Paired, f: Finding)
    requires forall e :: e in r.expectedOnly || e in r.observedOnly ==> e.body.CandleBody?
    ensures f in CandleFindings(p, r) <==> CandlesSaid(p, r, f)
  {
    InFamily(r, pair => CandlePair(p, pair), e => Missing(MissingCandle, e), o => Unexpected(TimestampMismatch, o), f);
    forall pair ensures f in CandlePair(p, pair) <==> CandleSaid(p, pair.0, pair.1, f) {
      CandlePairSays(p, pair, f);
    }
    hide CandlePair, CandleSaid, Family;
  }

  lemma ExecutionsSay(p: Policy, r: Paired, f: Finding)
    requires forall e :: e in r.expectedOnly || e in r.observedOnly ==> e.body.ExecutionBody?
    ensures f in ExecutionFindings(p, r) <==> ExecutionsSaid(p, r, f)
  {
    InFamily(r, pair => ExecutionPair(p, pair),
             e => Missing(if IsEntry(e) then MissingEntry else MissingExit, e),
             o => Unexpected(if IsEntry(o) then UnexpectedEntry else UnexpectedExit, o), f);
    hide Family;
    assert (exists e :: e in r.expectedOnly && f in Missing(if IsEntry(e) then MissingEntry else MissingExit, e)) <==>
             exists e :: e in r.expectedOnly && f == Finding(OneSidedKind(e, true), Some(e.time), Whole(e), Nothing);
    assert (exists o :: o in r.observedOnly && f in Unexpected(if IsEntry(o) then UnexpectedEntry else UnexpectedExit, o)) <==>
             exists o :: o in r.observedOnly && f == Finding(OneSidedKind(o, false), Some(o.time), Nothing, Whole(o));
    forall pair ensures f in ExecutionPair(p, pair) <==> ExecutionSaid(p, pair.0, pair.1, f) {
      ExecutionPairSays(p, pair, f);
    }
    hide ExecutionPair, ExecutionSaid, Missing, Unexpected, OneSidedKind;
  }

  lemma PositionsSay(p: Policy, r: Paired, f: Finding)
    requires forall e :: e in r.expectedOnly || e in r.observedOnly ==> e.body.PositionBody?
    ensures f in PositionFindings(p, r) <==> PositionsSaid(p, r, f)
  {
    InFamily(r, pair => PositionPair(p, pair), e => Missing(PositionMismatch, e), o => UnexpectedPosition(o), f);
    forall pair ensures f in PositionPair(p, pair) <==> PositionSaid(p, pair.0, pair.1, f) {
      PositionPairSays(p, pair, f);
    }
    hide PositionPair, PositionSaid, Family;
  }

  /** A report holds a finding exactly when its evidence says so: kind, values, time and tolerance. */
  lemma ReportedIff(i: Input, f: Finding)
    requires Typed(i.expected) && Typed(i.observed) && Compared(i).Ok?
    ensures f in Compared(i).value.findings <==> Said(i, f)
  {
    PairedFromLists(i.expected.signals, i.observed.signals);
    PairedFromLists(i.expected.candles, i.observed.candles);
    PairedFromLists(i.expected.executions, i.observed.executions);
    PairedFromLists(i.expected.positions, i.observed.positions);
    hide PairUp, AllComparable;
    SignalsSay(i.policy, PairUp(i.expected.signals, i.observed.signals), f);
    CandlesSay(i.policy, PairUp(i.expected.candles, i.observed.candles), f);
    ExecutionsSay(i.policy, PairUp(i.expected.executions, i.observed.executions), f);
    PositionsSay(i.policy, PairUp(i.expected.positions, i.observed.positions), f);
    PerformanceSays(i.policy, i.expected.performance, i.observed.performance, f);
    hide SignalFindings, CandleFindings, ExecutionFindings, PositionFindings, PerformanceFindings;
    hide SignalsSaid, CandlesSaid, ExecutionsSaid, PositionsSaid, PerformanceSaid, Typed;
    IssuesSay(i.issues, |i.issues|, f);
    HeaderSays(i, f);
    hide IssueFindings, HeaderFindings, HeaderSaid, Classify;
    assert f in Compared(i).value.findings <==> f in Findings(i);
    hide Compared;
  }

  lemma HeaderSays(i: Input, f: Finding)
    ensures f in HeaderFindings(i) <==> HeaderSaid(i, f)
  {
  }

  // ---- Identical evidence ---------------------------------------------------------------------------------

  lemma {:induction false} RankInOwnList(points: seq<Point>, n: nat, key: Key)
    requires n <= |points|
    ensures Upto(points, n, key) <= Of(points, key)
  {
    UptoIsOf(points, n, key);
    OfAppend(points[..n], points[n..], key);
    assert points == points[..n] + points[n..];
  }

  lemma {:induction false} MatchedWithItself(points: seq<Point>, n: nat)
    requires n <= |points|
    ensures forall pair :: pair in Matched(points, points, n) ==> pair.0 == pair.1
    ensures Unmatched(points, points, n) == []
  {
    if n > 0 {
      MatchedWithItself(points, n - 1);
      RankInOwnList(points, n, points[n - 1].key);
    }
  }

  /** No two points share their time and their identity. */
  predicate Distinguished(points: seq<Point>) {
    forall i, j :: 0 <= i < j < |points| ==> points[i].time != points[j].time || points[i].key != points[j].key
  }

  /** The same list, or the same points in any order where time and identity tell them apart. */
  ghost predicate SamePoints(a: seq<Point>, b: seq<Point>) {
    a == b || (multiset(a) == multiset(b) && Distinguished(a))
  }

  predicate AllDistinct(points: seq<Point>) {
    forall p, q :: p in points && q in points && p != q ==> p.time != q.time || p.key != q.key
  }

  /** One order for distinguished points: two ordered lists of the same points are equal. */
  lemma {:induction false} OneOrder(a: seq<Point>, b: seq<Point>)
    requires Sorting.Sorted(a, InOrder) && Sorting.Sorted(b, InOrder)
    requires multiset(a) == multiset(b) && AllDistinct(a)
    ensures a == b
  {
    assert |multiset(a)| == |a| && |multiset(b)| == |b|;
    if a != [] {
      SameMembers(a, b);
      SameMembers(b, a);
      SameHead(a, b);
      SameTail(a, b);
      hide InOrder;
      OneOrder(a[1..], b[1..]);
    }
  }

  lemma SameMembers(a: seq<Point>, b: seq<Point>)
    requires multiset(a) == multiset(b)
    ensures forall p :: p in b ==> p in a
  {
    forall p | p in b ensures p in a {
      assert p in multiset(b);
    }
  }

  lemma SameHead(a: seq<Point>, b: seq<Point>)
    requires a != [] && b != [] && Sorting.Sorted(a, InOrder) && Sorting.Sorted(b, InOrder)
    requires a[0] in b && b[0] in a && AllDistinct(a)
    ensures a[0] == b[0]
  {
    var i :| 0 <= i < |b| && b[i] == a[0];
    var j :| 0 <= j < |a| && a[j] == b[0];
    assert i > 0 ==> InOrder(b[0], b[i]);
    assert j > 0 ==> InOrder(a[0], a[j]);
  }

  lemma SameTail(a: seq<Point>, b: seq<Point>)
    requires a != [] && b != [] && a[0] == b[0] && multiset(a) == multiset(b) && AllDistinct(a)
    ensures multiset(a[1..]) == multiset(b[1..]) && AllDistinct(a[1..])
  {
    assert a == [a[0]] + a[1..] && b == [b[0]] + b[1..];
    assert multiset(a[1..]) == multiset(a) - multiset{a[0]};
    assert multiset(b[1..]) == multiset(b) - multiset{b[0]};
  }

  lemma SamePointsSameOrder(a: seq<Point>, b: seq<Point>)
    requires SamePoints(a, b)
    ensures Ordered(a) == Ordered(b)
  {
    if a != b {
      OrderedKeepsPoints(a);
      OrderedKeepsPoints(b);
      SameMembers(a, Ordered(a));
      forall p, q | p in Ordered(a) && q in Ordered(a) && p != q ensures p.time != q.time || p.key != q.key {
        var i :| 0 <= i < |a| && a[i] == p;
        var j :| 0 <= j < |a| && a[j] == q;
      }
      OneOrder(Ordered(a), Ordered(b));
    }
  }

  /** Lists with the same points: each point is paired with itself, and nothing is left over. */
  lemma PairedWithItself(expected: seq<Point>, observed: seq<Point>)
    requires SamePoints(expected, observed)
    ensures var r := PairUp(expected, observed);
            r.expectedOnly == [] && r.observedOnly == [] && forall pair :: pair in r.pairs ==> pair.0 == pair.1
  {
    SamePointsSameOrder(expected, observed);
    MatchedWithItself(Ordered(expected), |Ordered(expected)|);
  }

  lemma NothingExceedsItself(p: Policy, x: Point)
    requires NonNegative(p)
    ensures x.body.CandleBody? ==> CandleAgrees(p, x, x)
    ensures x.body.ExecutionBody? ==> ExecutionAgrees(p, x, x)
    ensures x.body.PositionBody? ==> PositionAgrees(p, x, x)
  {
  }

  /** Signals match themselves in any order, ties included. */
  lemma SignalsMatchThemselves(expected: seq<Point>, observed: seq<Point>, tolerance: int)
    requires tolerance >= 0 && multiset(expected) == multiset(observed)
    ensures Matchable(expected, observed, tolerance)
  {
    var r := PairUp(expected, expected);
    PairedWithItself(expected, expected);
    PairingIsExactPartition(expected, expected);
    PairsAreRankByRank(expected, expected, Key(0, 0, None));
    hide PairUp;
    forall i | 0 <= i < |r.pairs| ensures Near(r.pairs[i].0, r.pairs[i].1, tolerance) {
      assert r.pairs[i] in r.pairs;
    }
    assert multiset(expected) == multiset(Firsts(r.pairs)) + multiset{};
    assert Complete(r.pairs, expected, observed);
  }

  /** Both sides hold the same evidence, whatever the order of its lists. */
  ghost predicate SameEvidence(a: Evidence, b: Evidence) {
    && multiset(a.signals) == multiset(b.signals)
    && SamePoints(a.candles, b.candles)
    && SamePoints(a.executions, b.executions)
    && SamePoints(a.positions, b.positions)
    && a.performance == b.performance
  }

  lemma SameEvidenceIsTyped(a: Evidence, b: Evidence)
    requires Typed(a) && SameEvidence(a, b)
    ensures Typed(b)
  {
    SameMembers(a.signals, b.signals);
    SameMembers(a.candles, b.candles);
    SameMembers(a.executions, b.executions);
    SameMembers(a.positions, b.positions);
  }

  /**
   The same complete evidence on both sides, in any order, with one identity and no issue: the
   comparison is healthy with no findings if the evidence can be sorted, and fails otherwise.
   */
  lemma IdenticalEvidenceIsHealthy(i: Input)
    requires Typed(i.expected) && NonNegative(i.policy)
    requires SameEvidence(i.expected, i.observed) && i.referenceComplete && i.observedComplete
    requires i.strategy == i.reference && !ConfigurationsConflict(i) && i.issues == []
    ensures Compared(i) == if AllComparable(i.expected) then Ok(Report(Healthy, {})) else Err(IncomparableSignals)
  {
    SameEvidenceIsTyped(i.expected, i.observed);
    SameEvidenceIsComparable(i.expected, i.observed);
    SignalsMatchThemselves(i.expected.signals, i.observed.signals, i.policy.signalSeconds * 1_000_000);
    CandlesMatchThemselves(i.policy, i.expected.candles, i.observed.candles);
    ExecutionsMatchThemselves(i.policy, i.expected.executions, i.observed.executions);
    PositionsMatchThemselves(i.policy, i.expected.positions, i.observed.positions);
    PerformanceMatchesItself(i.policy, i.expected.performance);
    hide PairUp, Matchable, CandlesAgree, ExecutionsAgree, PositionsAgree, PerformanceAgrees, Findings, Classify, NonNegative;
    hide Typed, SamePoints;
    hide AllComparable;
    HealthyIff(i);
  }

  lemma SameEvidenceIsComparable(a: Evidence, b: Evidence)
    requires SameEvidence(a, b)
    ensures AllComparable(a) <==> AllComparable(b)
  {
    hide Clash;
    SameMembers(a.signals, b.signals);
    SameMembers(b.signals, a.signals);
    SameMembers(a.candles, b.candles);
    SameMembers(b.candles, a.candles);
    SameMembers(a.executions, b.executions);
    SameMembers(b.executions, a.executions);
    SameMembers(a.positions, b.positions);
    SameMembers(b.positions, a.positions);
  }

  /** Two identical sides whose signals clash: the comparison fails although nothing differs. */
  lemma ClashingEvidenceFails(i: Input, time: int, asset: int, kind: int, signal: int, body: Body)
    requires i.expected == i.observed
    requires i.expected.signals == [Point(time, Key(asset, kind, None), body), Point(time, Key(asset, kind, Some(signal)), body)]
    ensures Compared(i).Err?
  {
    assert Clash(i.expected.signals[0], i.expected.signals[1]);
  }

  lemma PerformanceMatchesItself(p: Policy, performance: Option<Performance>)
    requires NonNegative(p)
    ensures PerformanceAgrees(p, performance, performance)
  {
  }

  lemma CandlesMatchThemselves(p: Policy, expected: seq<Point>, observed: seq<Point>)
    requires NonNegative(p) && SamePoints(expected, observed) && forall e :: e in expected ==> e.body.CandleBody?
    ensures CandlesAgree(p, PairUp(expected, observed))
  {
    var r := PairUp(expected, observed);
    PairedWithItself(expected, observed);
    PairedFromLists(expected, observed);
    hide PairUp, CandleAgrees;
    forall pair | pair in r.pairs ensures CandleAgrees(p, pair.0, pair.1) {
      NothingExceedsItself(p, pair.0);
    }
  }

  lemma ExecutionsMatchThemselves(p: Policy, expected: seq<Point>, observed: seq<Point>)
    requires NonNegative(p) && SamePoints(expected, observed) && forall e :: e in expected ==> e.body.ExecutionBody?
    ensures ExecutionsAgree(p, PairUp(expected, observed))
  {
    var r := PairUp(expected, observed);
    PairedWithItself(expected, observed);
    PairedFromLists(expected, observed);
    hide PairUp, ExecutionAgrees;
    forall pair | pair in r.pairs ensures ExecutionAgrees(p, pair.0, pair.1) {
      NothingExceedsItself(p, pair.0);
    }
  }

  lemma PositionsMatchThemselves(p: Policy, expected: seq<Point>, observed: seq<Point>)
    requires NonNegative(p) && SamePoints(expected, observed) && forall e :: e in expected ==> e.body.PositionBody?
    ensures PositionsAgree(p, PairUp(expected, observed))
  {
    var r := PairUp(expected, observed);
    PairedWithItself(expected, observed);
    PairedFromLists(expected, observed);
    hide PairUp, PositionAgrees;
    forall pair | pair in r.pairs ensures PositionAgrees(p, pair.0, pair.1) {
      NothingExceedsItself(p, pair.0);
    }
  }

  // ---- When evidence is insufficient -----------------------------------------------------------------------

  predicate NoneOfKind(findings: seq<Finding>, kind: Kind) {
    forall f :: f in findings ==> f.kind != kind
  }

  lemma {:induction false} PairsOfOtherKind(pairs: seq<Pair>, n: nat, f: Pair -> seq<Finding>, kind: Kind)
    requires n <= |pairs| && forall pair :: NoneOfKind(f(pair), kind)
    ensures NoneOfKind(OverPairs(pairs, n, f), kind)
  {
    if n > 0 {
      PairsOfOtherKind(pairs, n - 1, f, kind);
      assert NoneOfKind(f(pairs[n - 1]), kind);
    }
  }

  lemma {:induction false} PointsOfOtherKind(points: seq<Point>, n: nat, f: Point -> seq<Finding>, kind: Kind)
    requires n <= |points| && forall p :: NoneOfKind(f(p), kind)
    ensures NoneOfKind(OverPoints(points, n, f), kind)
  {
    if n > 0 {
      PointsOfOtherKind(points, n - 1, f, kind);
      assert NoneOfKind(f(points[n - 1]), kind);
    }
  }

  lemma FamilyOfOtherKind(r: Paired, onPair: Pair -> seq<Finding>, onExpected: Point -> seq<Finding>, onObserved: Point -> seq<Finding>, kind: Kind)
    requires forall pair :: NoneOfKind(onPair(pair), kind)
    requires forall p :: NoneOfKind(onExpected(p), kind)
    requires forall p :: NoneOfKind(onObserved(p), kind)
    ensures NoneOfKind(Family(r, onPair, onExpected, onObserved), kind)
  {
    PairsOfOtherKind(r.pairs, |r.pairs|, onPair, kind);
    PointsOfOtherKind(r.expectedOnly, |r.expectedOnly|, onExpected, kind);
    PointsOfOtherKind(r.observedOnly, |r.observedOnly|, onObserved, kind);
  }

  lemma PointFindingsAreSufficient(p: Policy, r: Paired)
    ensures NoneOfKind(SignalFindings(p, r), InsufficientReference)
    ensures NoneOfKind(CandleFindings(p, r), InsufficientReference)
    ensures NoneOfKind(ExecutionFindings(p, r), InsufficientReference)
    ensures NoneOfKind(PositionFindings(p, r), InsufficientReference)
  {
    hide Family, BpsExceeds, OhlcExceeds, Exceeds, Apart;
    FamilyOfOtherKind(r, pair => SignalPair(p, pair), e => Missing(MissingSignal, e),
                      o => Unexpected(UnexpectedSignal, o), InsufficientReference);
    FamilyOfOtherKind(r, pair => CandlePair(p, pair), e => Missing(MissingCandle, e),
                      o => Unexpected(TimestampMismatch, o), InsufficientReference);
    FamilyOfOtherKind(r, pair => ExecutionPair(p, pair),
                      e => Missing(if IsEntry(e) then MissingEntry else MissingExit, e),
                      o => Unexpected(if IsEntry(o) then UnexpectedEntry else UnexpectedExit, o), InsufficientReference);
    FamilyOfOtherKind(r, pair => PositionPair(p, pair), e => Missing(PositionMismatch, e),
                      o => UnexpectedPosition(o), InsufficientReference);
  }

  /** The kinds an issue may have. */
  predicate IssueKinds(issues: seq<Issue>) {
    forall x :: x in issues ==>
      x.kind == MissingCandle || x.kind == CorrectedCandle || x.kind == TimestampMismatch || x.kind == EvaluatorFailure
  }

  lemma {:induction false} IssuesAreSufficient(issues: seq<Issue>, n: nat)
    requires n <= |issues| && IssueKinds(issues)
    ensures NoneOfKind(IssueFindings(issues, n), InsufficientReference)
  {
    if n > 0 {
      IssuesAreSufficient(issues, n - 1);
      assert issues[n - 1] in issues;
    }
  }

  predicate OneSided(i: Input) {
    i.expected.performance.Some? != i.observed.performance.Some?
  }

  /**
   The status is insufficient exactly when the evidence can be sorted and a side is incomplete or
   only one side reports performance, whatever else differs.
   */
  lemma InsufficientIff(i: Input)
    requires IssueKinds(i.issues)
    ensures Compared(i).Ok? && Compared(i).value.status == InsufficientEvidence <==>
              && AllComparable(i.expected) && AllComparable(i.observed)
              && (!i.referenceComplete || !i.observedComplete || OneSided(i))
  {
    hide AllComparable;
    hide PairUp, SignalFindings, CandleFindings, ExecutionFindings, PositionFindings, PerformanceFindings, IssueFindings;
    hide HeaderFindings, NoneOfKind, Classify, ToSet;
    var signals := SignalFindings(i.policy, PairUp(i.expected.signals, i.observed.signals));
    var candles := CandleFindings(i.policy, PairUp(i.expected.candles, i.observed.candles));
    var executions := ExecutionFindings(i.policy, PairUp(i.expected.executions, i.observed.executions));
    var positions := PositionFindings(i.policy, PairUp(i.expected.positions, i.observed.positions));
    IssuesAreSufficient(i.issues, |i.issues|);
    PointFindingsAreSufficient(i.policy, PairUp(i.expected.signals, i.observed.signals));
    PointFindingsAreSufficient(i.policy, PairUp(i.expected.candles, i.observed.candles));
    PointFindingsAreSufficient(i.policy, PairUp(i.expected.executions, i.observed.executions));
    PointFindingsAreSufficient(i.policy, PairUp(i.expected.positions, i.observed.positions));
    HeaderKinds(i);
    OneSidedIsInsufficient(i);
    InsufficientMeansSome(Findings(i));
    Concatenated(HeaderFindings(i), IssueFindings(i.issues, |i.issues|), signals, candles, executions, positions,
                 PerformanceFindings(i.policy, i.expected.performance, i.observed.performance), InsufficientReference);
  }

  lemma Concatenated(a: seq<Finding>, b: seq<Finding>, c: seq<Finding>, d: seq<Finding>, e: seq<Finding>,
                     f: seq<Finding>, g: seq<Finding>, kind: Kind)
    requires NoneOfKind(b, kind) && NoneOfKind(c, kind) && NoneOfKind(d, kind) && NoneOfKind(e, kind) && NoneOfKind(f, kind)
    ensures NoneOfKind(a + b + c + d + e + f + g, kind) <==> NoneOfKind(a, kind) && NoneOfKind(g, kind)
  {
    assert forall x :: x in a || x in g ==> x in a + b + c + d + e + f + g;
  }

  lemma InsufficientMeansSome(findings: seq<Finding>)
    ensures Classify(ToSet(findings)) == InsufficientEvidence <==> !NoneOfKind(findings, InsufficientReference)
  {
    if f :| f in findings && f.kind == InsufficientReference {
      assert f in ToSet(findings);
    }
  }

  lemma HeaderKinds(i: Input)
    ensures NoneOfKind(HeaderFindings(i), InsufficientReference) <==> i.referenceComplete && i.observedComplete
  {
    if !i.referenceComplete || !i.observedComplete {
      assert HeaderFindings(i)[0] in HeaderFindings(i);
    }
  }

  lemma OneSidedIsInsufficient(i: Input)
    ensures var findings := PerformanceFindings(i.policy, i.expected.performance, i.observed.performance);
            NoneOfKind(findings, InsufficientReference) <==> !OneSided(i)
  {
    hide Exceeds, TradesExceed, WinRate, MetricFindings;
    if i.expected.performance.Some? && i.observed.performance.Some? {
      MetricsAreSufficient(i.policy, i.expected.performance.value, i.observed.performance.value);
    } else if OneSided(i) {
      assert Overall(InsufficientReference, Totals(i.expected.performance), Totals(i.observed.performance))
          in PerformanceFindings(i.policy, i.expected.performance, i.observed.performance);
    }
  }

  lemma MetricsAreSufficient(p: Policy, e: Performance, o: Performance)
    ensures NoneOfKind(MetricFindings(p, e, o), InsufficientReference)
  {
    hide Exceeds;
  }

  // ---- The comparison ---------------------------------------------------------------------------------------

  /** The three loops of one family: pairs, then what only one side has. */
  method CollectFamily(r: Paired, onPair: Pair -> seq<Finding>, onExpected: Point -> seq<Finding>,
                       onObserved: Point -> seq<Finding>) returns (findings: seq<Finding>)
    ensures findings == Family(r, onPair, onExpected, onObserved)
  {
    var pairwise: seq<Finding> := [];
    for i := 0 to |r.pairs|
      invariant pairwise == OverPairs(r.pairs, i, onPair)
    {
      pairwise := pairwise + onPair(r.pairs[i]);
    }
    var missing: seq<Finding> := [];
    for i := 0 to |r.expectedOnly|
      invariant missing == OverPoints(r.expectedOnly, i, onExpected)
    {
      missing := missing + onExpected(r.expectedOnly[i]);
    }
    var unexpected: seq<Finding> := [];
    for i := 0 to |r.observedOnly|
      invariant unexpected == OverPoints(r.observedOnly, i, onObserved)
    {
      unexpected := unexpected + onObserved(r.observedOnly[i]);
    }
    findings := pairwise + missing + unexpected;
  }

  method CollectIssues(issues: seq<Issue>) returns (findings: seq<Finding>)
    ensures findings == IssueFindings(issues, |issues|)
  {
    findings := [];
    for i := 0 to |issues|
      invariant findings == IssueFindings(issues, i)
    {
      findings := findings + [IssueFinding(issues[i])];
    }
  }

  method CompareSignals(p: Policy, r: Paired) returns (findings: seq<Finding>)
    ensures findings == SignalFindings(p, r)
  {
    findings := CollectFamily(r, pair => SignalPair(p, pair), e => Missing(MissingSignal, e), o => Unexpected(UnexpectedSignal, o));
  }

  method CompareCandles(p: Policy, r: Paired) returns (findings: seq<Finding>)
    ensures findings == CandleFindings(p, r)
  {
    findings := CollectFamily(r, pair => CandlePair(p, pair), e => Missing(MissingCandle, e), o => Unexpected(TimestampMismatch, o));
  }

  method CompareExecutions(p: Policy, r: Paired) returns (findings: seq<Finding>)
    ensures findings == ExecutionFindings(p, r)
  {
    findings := CollectFamily(r, pair => ExecutionPair(p, pair),
                              e => Missing(if IsEntry(e) then MissingEntry else MissingExit, e),
                              o => Unexpected(if IsEntry(o) then UnexpectedEntry else UnexpectedExit, o));
  }

  method ComparePositions(p: Policy, r: Paired) returns (findings: seq<Finding>)
    ensures findings == PositionFindings(p, r)
  {
    findings := CollectFamily(r, pair => PositionPair(p, pair), e => Missing(PositionMismatch, e), o => UnexpectedPosition(o));
  }

  /** Compares all families; evidence whose sort keys cannot be compared makes it fail. */
  method Compare(i: Input) returns (r: Result<Report, PairingError>)
    ensures r == Compared(i)
  {
    hide Comparable, PairUp, Classify, ToSet;
    var signals := PairPoints(i.expected.signals, i.observed.signals);
    if signals.Err? { return Err(IncomparableSignals); }
    var candles := PairPoints(i.expected.candles, i.observed.candles);
    if candles.Err? { return Err(IncomparableSignals); }
    var executions := PairPoints(i.expected.executions, i.observed.executions);
    if executions.Err? { return Err(IncomparableSignals); }
    var positions := PairPoints(i.expected.positions, i.observed.positions);
    if positions.Err? { return Err(IncomparableSignals); }

    var findings := HeaderFindings(i);
    var issues := CollectIssues(i.issues);
    var signalFindings := CompareSignals(i.policy, signals.value);
    var candleFindings := CompareCandles(i.policy, candles.value);
    var executionFindings := CompareExecutions(i.policy, executions.value);
    var positionFindings := ComparePositions(i.policy, positions.value);
    var performance := PerformanceFindings(i.policy, i.expected.performance, i.observed.performance);
    findings := findings + issues + signalFindings + candleFindings + executionFindings + positionFindings + performance;
    r := Ok(Report(Classify(ToSet(findings)), ToSet(findings)));
  }
}
