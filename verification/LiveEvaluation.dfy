/**
 Live evaluation of one strategy activation: the pure evaluator of a closed candle, the step that
 records its outcome and moves the durable cursor and position of the asset, and the loop over a
 batch of candles read after the cursor.
 */
module LiveEvaluation {
  import opened Wrappers
  import opened BucketAlignment

  // ---- The evaluator ------------------------------------------------------------------------------

  datatype Position = Flat | Long | Short

  datatype Direction = ToLong | ToShort | ToFlat

  datatype Operator = Above | AtLeast | Below | AtMost

  /** `wellFormed` says whether the stored condition is a valid threshold. */
  datatype Signal = Signal(exit: bool, direction: Direction, operator: Operator, threshold: real, wellFormed: bool)

  datatype Definition = Definition(
    universe: set<int>,
    interval: int,
    signals: seq<Signal>,
    allowReversal: bool,
    maxOpen: nat)

  datatype Candle = Candle(asset: int, time: int, close: real)

  datatype Status = Evaluated | Duplicate | OutOfOrder | GapDetected | Invalid | Error

  datatype EventKind = SignalSeen | Entry | Exit

  datatype Emitted = Emitted(kind: EventKind, position: Position)

  datatype Outcome = Outcome(status: Status, before: Position, after: Position, events: seq<Emitted>)

  datatype EvaluationError = InvalidSignal | FlatEntry

  predicate Matches(s: Signal, close: real) {
    match s.operator
    case Above => close > s.threshold
    case AtLeast => close >= s.threshold
    case Below => close < s.threshold
    case AtMost => close <= s.threshold
  }

  /** The first signal that matches; a malformed one met before it is an error. */
  function FirstMatch(signals: seq<Signal>, close: real): Result<Option<Signal>, EvaluationError> {
    if signals == [] then Ok(None)
    else if !signals[0].wellFormed then Err(InvalidSignal)
    else if Matches(signals[0], close) then Ok(Some(signals[0]))
    else FirstMatch(signals[1..], close)
  }

  function Target(d: Direction): Result<Position, EvaluationError> {
    match d
    case ToLong => Ok(Long)
    case ToShort => Ok(Short)
    case ToFlat => Err(FlatEntry)
  }

  function Unchanged(status: Status, position: Position): Outcome { Outcome(status, position, position, []) }

  /** What a matching signal does to a position. */
  function Apply(d: Definition, s: Signal, position: Position, canOpen: bool): Result<Outcome, EvaluationError> {
    var seen := Emitted(SignalSeen, position);
    if s.exit then
      if position != Flat then Ok(Outcome(Evaluated, position, Flat, [seen, Emitted(Exit, Flat)]))
      else Ok(Outcome(Evaluated, position, position, [seen]))
    else
      match Target(s.direction)
      case Err(e) => Err(e)
      case Ok(target) =>
        if position == Flat && canOpen then
          Ok(Outcome(Evaluated, position, target, [seen, Emitted(Entry, target)]))
        else if position != target && d.allowReversal then
          Ok(Outcome(Evaluated, position, target, [seen, Emitted(Exit, Flat), Emitted(Entry, target)]))
        else Ok(Outcome(Evaluated, position, position, [seen]))
  }

  /** One persisted candle; an exception of the evaluator is recorded as an error. */
  function Evaluate(d: Definition, c: Candle, position: Position, cursor: Option<int>, canOpen: bool): Outcome
    requires d.interval > 0
  {
    if c.asset !in d.universe then Unchanged(Invalid, position)
    else if !Boundary(c.time, d.interval) then Unchanged(Invalid, position)
    else if cursor.Some? && c.time == cursor.value then Unchanged(Duplicate, position)
    else if cursor.Some? && c.time < cursor.value then Unchanged(OutOfOrder, position)
    else if cursor.Some? && c.time > cursor.value + d.interval then Unchanged(GapDetected, position)
    else
      match FirstMatch(d.signals, c.close)
      case Err(_) => Unchanged(Invalid, position)
      case Ok(None) => Unchanged(Evaluated, position)
      case Ok(Some(s)) =>
        match Apply(d, s, position, canOpen)
        case Err(_) => Unchanged(Error, position)
        case Ok(outcome) => outcome
  }

  /** A threshold signal fires: gt, gte, lt and lte of the close against the threshold. */
  predicate Fires(s: Signal, close: real) {
    || (s.operator == Above && s.threshold < close)
    || (s.operator == AtLeast && s.threshold <= close)
    || (s.operator == Below && close < s.threshold)
    || (s.operator == AtMost && close <= s.threshold)
  }

  lemma MatchesIff(s: Signal, close: real)
    ensures Matches(s, close) <==> Fires(s, close)
  {
  }

  /** The match is the first signal that matches, unless a malformed one comes before it. */
  lemma {:induction false} FirstMatchIsFirst(signals: seq<Signal>, close: real)
    ensures FirstMatch(signals, close) == Ok(None) <==>
              forall s :: s in signals ==> s.wellFormed && !Fires(s, close)
    ensures FirstMatch(signals, close).Ok? && FirstMatch(signals, close).value.Some? <==>
              exists i :: IsFirstMatch(signals, close, i)
    ensures forall i :: IsFirstMatch(signals, close, i) ==> FirstMatch(signals, close) == Ok(Some(signals[i]))
  {
    if signals != [] {
      MatchesIff(signals[0], close);
      FirstMatchIsFirst(signals[1..], close);
      assert signals == [signals[0]] + signals[1..];
      forall i ensures i > 0 ==>
        (IsFirstMatch(signals, close, i) <==>
          signals[0].wellFormed && !Fires(signals[0], close) && IsFirstMatch(signals[1..], close, i - 1))
      {
        FirstMatchShift(signals, close, i);
      }
      if signals[0].wellFormed && Fires(signals[0], close) {
        assert IsFirstMatch(signals, close, 0);
      }
      if j :| IsFirstMatch(signals[1..], close, j) {
        FirstMatchShift(signals, close, j + 1);
      }
    }
  }

  /** Position `i` matches, and everything up to it is well-formed and nothing before it matches. */
  predicate IsFirstMatch(signals: seq<Signal>, close: real, i: int) {
    && 0 <= i < |signals|
    && Fires(signals[i], close)
    && (forall j :: 0 <= j <= i ==> signals[j].wellFormed)
    && (forall j :: 0 <= j < i ==> !Fires(signals[j], close))
  }

  lemma FirstMatchShift(signals: seq<Signal>, close: real, i: int)
    requires signals != []
    ensures i > 0 ==>
              (IsFirstMatch(signals, close, i) <==>
                signals[0].wellFormed && !Fires(signals[0], close) && IsFirstMatch(signals[1..], close, i - 1))
  {
    if IsFirstMatch(signals[1..], close, i - 1) && signals[0].wellFormed && !Fires(signals[0], close) {
      forall j | 0 < j <= i ensures signals[j].wellFormed && (j < i ==> !Fires(signals[j], close)) {
        assert signals[j] == signals[1..][j - 1];
      }
    }
    if IsFirstMatch(signals, close, i) && i > 0 {
      forall j | 0 <= j <= i - 1 ensures signals[1..][j].wellFormed && (j < i - 1 ==> !Fires(signals[1..][j], close)) {
        assert signals[1..][j] == signals[j + 1];
      }
    }
  }

  /** A malformed signal is met before any fires. */
  ghost predicate Malformed(signals: seq<Signal>, close: real) {
    exists i :: 0 <= i < |signals| && !signals[i].wellFormed && QuietBefore(signals, close, i)
  }

  predicate QuietBefore(signals: seq<Signal>, close: real, i: int)
    requires i <= |signals|
  {
    forall j :: 0 <= j < i ==> signals[j].wellFormed && !Fires(signals[j], close)
  }

  lemma {:induction false} MalformedIff(signals: seq<Signal>, close: real)
    ensures FirstMatch(signals, close).Err? <==> Malformed(signals, close)
  {
    if signals != [] {
      MatchesIff(signals[0], close);
      MalformedIff(signals[1..], close);
      if !signals[0].wellFormed {
        assert QuietBefore(signals, close, 0);
      } else if !Fires(signals[0], close) {
        if i :| 0 <= i < |signals[1..]| && !signals[1..][i].wellFormed && QuietBefore(signals[1..], close, i) {
          QuietShift(signals, close, i + 1);
          assert !signals[i + 1].wellFormed;
        }
        if i :| 0 <= i < |signals| && !signals[i].wellFormed && QuietBefore(signals, close, i) {
          QuietShift(signals, close, i);
          assert !signals[1..][i - 1].wellFormed;
        }
      }
    }
  }

  lemma QuietShift(signals: seq<Signal>, close: real, i: int)
    requires 0 < i <= |signals| && signals[0].wellFormed && !Fires(signals[0], close)
    ensures QuietBefore(signals, close, i) <==> QuietBefore(signals[1..], close, i - 1)
  {
    if QuietBefore(signals, close, i) {
      forall j | 0 <= j < i - 1 ensures signals[1..][j].wellFormed && !Fires(signals[1..][j], close) {
        assert signals[1..][j] == signals[j + 1];
      }
    }
    if QuietBefore(signals[1..], close, i - 1) {
      forall j | 0 <= j < i ensures signals[j].wellFormed && !Fires(signals[j], close) {
        assert j > 0 ==> signals[j] == signals[1..][j - 1];
      }
    }
  }

  // ---- What the evaluator answers ----------------------------------------------------------------

  predicate Aligned(d: Definition, c: Candle)
    requires d.interval > 0
  {
    c.asset in d.universe && c.time % d.interval == 0
  }

  /** The candle is the next one the cursor accepts. */
  predicate Due(d: Definition, c: Candle, cursor: Option<int>)
    requires d.interval > 0
  {
    Aligned(d, c) && (cursor.Some? ==> cursor.value < c.time <= cursor.value + d.interval)
  }

  /** What a firing signal makes of a position. */
  function Answer(d: Definition, s: Signal, position: Position, canOpen: bool): Outcome {
    var seen := Emitted(SignalSeen, position);
    var side := if s.direction == ToLong then Long else Short;
    if s.exit && position == Flat then Outcome(Evaluated, Flat, Flat, [seen])
    else if s.exit then Outcome(Evaluated, position, Flat, [seen, Emitted(Exit, Flat)])
    else if s.direction == ToFlat then Outcome(Error, position, position, [])
    else if position == Flat && canOpen then Outcome(Evaluated, Flat, side, [seen, Emitted(Entry, side)])
    else if d.allowReversal && position != side then Outcome(Evaluated, position, side, [seen, Emitted(Exit, Flat), Emitted(Entry, side)])
    else Outcome(Evaluated, position, position, [seen])
  }

  /** The answer for a due candle: by the first signal that fires, or none. */
  lemma EvaluateAnswers(d: Definition, c: Candle, position: Position, cursor: Option<int>, canOpen: bool)
    requires d.interval > 0 && Due(d, c, cursor)
    ensures var o := Evaluate(d, c, position, cursor, canOpen);
            && (Malformed(d.signals, c.close) ==> o == Outcome(Invalid, position, position, []))
            && (forall i :: IsFirstMatch(d.signals, c.close, i) ==> o == Answer(d, d.signals[i], position, canOpen))
            && ((forall s :: s in d.signals ==> s.wellFormed && !Fires(s, c.close)) ==>
                  o == Outcome(Evaluated, position, position, []))
  {
    FirstMatchIsFirst(d.signals, c.close);
    MalformedIff(d.signals, c.close);
    hide FirstMatch, IsFirstMatch, Malformed, Fires;
  }

  /** The status of every candle, and that only an evaluation can move the position. */
  lemma StatusIff(d: Definition, c: Candle, position: Position, cursor: Option<int>, canOpen: bool)
    requires d.interval > 0
    ensures var o := Evaluate(d, c, position, cursor, canOpen);
            && (o.status == Duplicate <==> Aligned(d, c) && cursor == Some(c.time))
            && (o.status == OutOfOrder <==> Aligned(d, c) && cursor.Some? && c.time < cursor.value)
            && (o.status == GapDetected <==> Aligned(d, c) && cursor.Some? && c.time > cursor.value + d.interval)
            && (o.status == Invalid <==> !Aligned(d, c) || (Due(d, c, cursor) && Malformed(d.signals, c.close)))
            && (o.status == Error <==>
                  Due(d, c, cursor) &&
                  exists i :: IsFirstMatch(d.signals, c.close, i) && !d.signals[i].exit && d.signals[i].direction == ToFlat)
            && (o.status != Evaluated ==> o == Outcome(o.status, position, position, []))
  {
    FirstMatchIsFirst(d.signals, c.close);
    MalformedIff(d.signals, c.close);
    hide FirstMatch, IsFirstMatch, Malformed, Fires;
  }

  // ---- Recording an outcome ----------------------------------------------------------------------

  datatype AssetState = AssetState(position: Position, cursor: Option<int>)

  datatype Observation = Observation(asset: int, time: int, attempt: nat, status: Status)

  datatype Recorded = Recorded(asset: int, time: int, event: Emitted)

  datatype Activation = Activation(
    states: map<int, AssetState>,
    openCount: int,
    observations: seq<Observation>,
    events: seq<Recorded>)

  /** The highest-numbered attempt recorded for a candle. */
  function Previous(observations: seq<Observation>, asset: int, time: int): Option<Observation> {
    if observations == [] then None
    else
      var last := observations[|observations| - 1];
      var earlier := Previous(observations[..|observations| - 1], asset, time);
      if last.asset == asset && last.time == time && (earlier.None? || earlier.value.attempt <= last.attempt)
      then Some(last) else earlier
  }

  function CanOpen(a: Activation, d: Definition, asset: int): bool
    requires asset in a.states
  {
    a.states[asset].position != Flat || a.openCount < d.maxOpen
  }

  function Record(c: Candle, events: seq<Emitted>): (r: seq<Recorded>)
    ensures |r| == |events| && forall i :: 0 <= i < |r| ==> r[i] == Recorded(c.asset, c.time, events[i])
  {
    seq(|events|, i requires 0 <= i < |events| => Recorded(c.asset, c.time, events[i]))
  }

  /** Evaluates a candle and records the outcome; the flag says whether anything was recorded. */
  function Persist(a: Activation, d: Definition, c: Candle): (Activation, bool)
    requires d.interval > 0 && c.asset in a.states
  {
    var state := a.states[c.asset];
    var outcome := Evaluate(d, c, state.position, state.cursor, CanOpen(a, d, c.asset));
    var previous := Previous(a.observations, c.asset, c.time);
    if outcome.status == Duplicate || outcome.status == OutOfOrder then (a, false)
    else if previous.Some? && (previous.value.status == Evaluated || outcome.status != Evaluated) then (a, false)
    else
      var attempt := if previous.Some? then previous.value.attempt + 1 else 1;
      var evaluated := outcome.status == Evaluated;
      var moved := evaluated && outcome.after != outcome.before;
      var count := if !moved then a.openCount
                   else if outcome.before == Flat then a.openCount + 1
                   else if outcome.after == Flat then a.openCount - 1
                   else a.openCount;
      var next := AssetState(if moved then outcome.after else state.position,
                             if evaluated then Some(c.time) else state.cursor);
      (Activation(a.states[c.asset := next], count,
                  a.observations + [Observation(c.asset, c.time, attempt, outcome.status)],
                  a.events + Record(c, outcome.events)),
       true)
  }

  function Activated(assets: set<int>): Activation {
    Activation(map a | a in assets :: AssetState(Flat, None), 0, [], [])
  }

  /** Any stream of candles of the activation's assets, whatever its order, gaps or repetitions. */
  function Run(a: Activation, d: Definition, stream: seq<Candle>): (r: Activation)
    requires d.interval > 0 && forall c :: c in stream ==> c.asset in a.states
    ensures r.states.Keys == a.states.Keys
  {
    if stream == [] then a
    else
      assert stream[|stream| - 1] in stream;
      Persist(Run(a, d, stream[..|stream| - 1]), d, stream[|stream| - 1]).0
  }

  // ---- Histories ------------------------------------------------------------------------------------

  /** Times of the evaluated candles of an asset, in the order they were recorded. */
  function EvaluatedTimes(observations: seq<Observation>, asset: int): seq<int> {
    if observations == [] then []
    else
      var last := observations[|observations| - 1];
      EvaluatedTimes(observations[..|observations| - 1], asset) +
      if last.asset == asset && last.status == Evaluated then [last.time] else []
  }

  /** All attempts recorded for one candle. */
  function Attempts(observations: seq<Observation>, asset: int, time: int): seq<Observation> {
    if observations == [] then []
    else
      var last := observations[|observations| - 1];
      Attempts(observations[..|observations| - 1], asset, time) +
      if last.asset == asset && last.time == time then [last] else []
  }

  /** The entries and exits of an asset, in order. */
  function Trades(events: seq<Recorded>, asset: int): seq<Emitted> {
    if events == [] then []
    else
      var last := events[|events| - 1];
      Trades(events[..|events| - 1], asset) +
      if last.asset == asset && last.event.kind != SignalSeen then [last.event] else []
  }

  /** A position rebuilt from the recorded trades alone. */
  function Replay(trades: seq<Emitted>): Position {
    if trades == [] then Flat else trades[|trades| - 1].position
  }

  function Open(states: map<int, AssetState>): set<int> {
    set a | a in states && states[a].position != Flat
  }

  // ---- Cursor invariant -----------------------------------------------------------------------------

  /** Evaluated times run from the first to the cursor, one interval apart. */
  ghost predicate Consecutive(times: seq<int>, cursor: Option<int>, interval: int) {
    && (cursor.None? <==> times == [])
    && (times != [] ==> cursor == Some(times[|times| - 1]))
    && (forall k :: 0 < k < |times| ==> times[k] == times[k - 1] + interval)
    && (forall k :: 0 <= k < |times| ==> interval > 0 && Boundary(times[k], interval))
  }

  /** At most two attempts, numbered from one, of which only the last can be an evaluation. */
  ghost predicate AttemptsGood(attempts: seq<Observation>) {
    && |attempts| <= 2
    && (forall k :: 0 <= k < |attempts| ==> attempts[k].attempt == k + 1)
    && (|attempts| == 2 ==> attempts[0].status != Evaluated && attempts[1].status == Evaluated)
  }

  ghost predicate CursorsGood(a: Activation, d: Definition) {
    forall asset :: asset in a.states ==>
      Consecutive(EvaluatedTimes(a.observations, asset), a.states[asset].cursor, d.interval)
  }

  ghost predicate HistoryGood(a: Activation) {
    forall asset, time :: AttemptsGood(Attempts(a.observations, asset, time))
  }

  lemma {:induction false} PreviousIsLastAttempt(observations: seq<Observation>, asset: int, time: int)
    requires forall k :: 0 <= k < |Attempts(observations, asset, time)| ==>
               Attempts(observations, asset, time)[k].attempt == k + 1
    ensures var attempts := Attempts(observations, asset, time);
            Previous(observations, asset, time) ==
              if attempts == [] then None else Some(attempts[|attempts| - 1])
  {
    if observations != [] {
      var before := observations[..|observations| - 1];
      var shorter, all := Attempts(before, asset, time), Attempts(observations, asset, time);
      forall k | 0 <= k < |shorter| ensures shorter[k].attempt == k + 1 {
        assert all[k] == shorter[k];
      }
      PreviousIsLastAttempt(before, asset, time);
    }
  }

  lemma EvaluatedTimesSnoc(observations: seq<Observation>, o: Observation, asset: int)
    ensures EvaluatedTimes(observations + [o], asset) ==
              if o.asset == asset && o.status == Evaluated then EvaluatedTimes(observations, asset) + [o.time]
              else EvaluatedTimes(observations, asset)
  {
    assert (observations + [o])[..|observations|] == observations;
  }

  lemma AttemptsSnoc(observations: seq<Observation>, o: Observation, asset: int, time: int)
    ensures Attempts(observations + [o], asset, time) ==
              if o.asset == asset && o.time == time then Attempts(observations, asset, time) + [o]
              else Attempts(observations, asset, time)
  {
    assert (observations + [o])[..|observations|] == observations;
  }

  lemma ConsecutiveSnoc(times: seq<int>, cursor: Option<int>, interval: int, time: int)
    requires Consecutive(times, cursor, interval) && interval > 0 && Boundary(time, interval)
    requires cursor.Some? ==> cursor.value < time <= cursor.value + interval
    ensures Consecutive(times + [time], Some(time), interval)
  {
    if cursor.Some? {
      BoundariesApart(cursor.value, time, interval);
    }
  }

  /** The evaluator's events: the signal, then at most an exit and an entry. */
  lemma OutcomeShape(d: Definition, c: Candle, position: Position, cursor: Option<int>, canOpen: bool)
    requires d.interval > 0
    ensures var o := Evaluate(d, c, position, cursor, canOpen);
            && o.before == position
            && (o.status != Evaluated ==> o.events == [] && o.after == position)
            && |o.events| <= 3
            && (o.events != [] ==> o.events[0].kind == SignalSeen)
            && (forall k :: 1 <= k < |o.events| ==> o.events[k].kind != SignalSeen)
            && (|o.events| > 1 <==> o.after != position)
            && (|o.events| > 1 ==> o.events[|o.events| - 1].position == o.after)
  {
    hide Boundary, FirstMatch;
  }

  /** The evaluator's answer for a candle in the current state. */
  function Verdict(a: Activation, d: Definition, c: Candle): Outcome
    requires d.interval > 0 && c.asset in a.states
  {
    Evaluate(d, c, a.states[c.asset].position, a.states[c.asset].cursor, CanOpen(a, d, c.asset))
  }

  /** One step in terms of the evaluator's answer: everything that changes, and how. */
  lemma PersistEffect(a: Activation, d: Definition, c: Candle)
    requires d.interval > 0 && c.asset in a.states
    ensures var (next, stored) := Persist(a, d, c);
            var o := Verdict(a, d, c);
            var state := a.states[c.asset];
            && (!stored ==> next == a)
            && (stored ==>
                  && next.states == a.states[c.asset := AssetState(o.after, if o.status == Evaluated then Some(c.time) else state.cursor)]
                  && next.openCount == a.openCount - Weight(state.position) + Weight(o.after)
                  && next.events == a.events + Record(c, o.events)
                  && |next.observations| == |a.observations| + 1
                  && next.observations[..|a.observations|] == a.observations
                  && var last := next.observations[|a.observations|];
                     last.asset == c.asset && last.time == c.time && last.status == o.status)
    ensures Verdict(a, d, c).status == Evaluated ==> Due(d, c, a.states[c.asset].cursor)
  {
    EvaluatedIff(d, c, a.states[c.asset].position, a.states[c.asset].cursor, CanOpen(a, d, c.asset));
    hide Boundary, Due, Malformed, IsFirstMatch;
    OutcomeShape(d, c, a.states[c.asset].position, a.states[c.asset].cursor, CanOpen(a, d, c.asset));
    hide Previous, Record, FirstMatch, Apply;
  }

  function Weight(p: Position): int { if p == Flat then 0 else 1 }

  lemma PersistKeepsCursors(a: Activation, d: Definition, c: Candle)
    requires d.interval > 0 && c.asset in a.states && CursorsGood(a, d)
    ensures CursorsGood(Persist(a, d, c).0, d)
  {
    forall asset | asset in Persist(a, d, c).0.states
      ensures Consecutive(EvaluatedTimes(Persist(a, d, c).0.observations, asset), Persist(a, d, c).0.states[asset].cursor, d.interval)
    {
      PersistEffect(a, d, c);
      hide Persist, Verdict, EvaluatedTimes, Consecutive;
      assert asset in a.states;
      CursorAfter(a, d, c, asset);
    }
  }

  lemma CursorAfter(a: Activation, d: Definition, c: Candle, asset: int)
    requires d.interval > 0 && c.asset in a.states && asset in a.states
    requires Consecutive(EvaluatedTimes(a.observations, asset), a.states[asset].cursor, d.interval)
    ensures var next := Persist(a, d, c).0;
            && asset in next.states
            && Consecutive(EvaluatedTimes(next.observations, asset), next.states[asset].cursor, d.interval)
  {
    hide Boundary;
    PersistEffect(a, d, c);
    hide Persist, Verdict, EvaluatedTimes, Consecutive;
    var (next, stored) := Persist(a, d, c);
    if stored {
      var o := next.observations[|a.observations|];
      assert next.observations == a.observations + [o];
      EvaluatedTimesSnoc(a.observations, o, asset);
      if asset == c.asset && o.status == Evaluated {
        ConsecutiveSnoc(EvaluatedTimes(a.observations, asset), a.states[asset].cursor, d.interval, c.time);
      }
    }
  }

  lemma PersistKeepsHistory(a: Activation, d: Definition, c: Candle)
    requires d.interval > 0 && c.asset in a.states && HistoryGood(a)
    ensures HistoryGood(Persist(a, d, c).0)
  {
    forall asset, time ensures AttemptsGood(Attempts(Persist(a, d, c).0.observations, asset, time)) {
      assert AttemptsGood(Attempts(a.observations, asset, time));
      assert AttemptsGood(Attempts(a.observations, c.asset, c.time));
      hide Persist, Attempts, AttemptsGood;
      AttemptsAfter(a, d, c, asset, time);
    }
  }

  lemma AttemptsAfter(a: Activation, d: Definition, c: Candle, asset: int, time: int)
    requires d.interval > 0 && c.asset in a.states
    requires AttemptsGood(Attempts(a.observations, asset, time))
    requires AttemptsGood(Attempts(a.observations, c.asset, c.time))
    ensures AttemptsGood(Attempts(Persist(a, d, c).0.observations, asset, time))
  {
    hide Boundary, Evaluate, Attempts, Previous, Record, CanOpen;
    var (next, stored) := Persist(a, d, c);
    PreviousIsLastAttempt(a.observations, c.asset, c.time);
    if stored {
      AttemptsSnoc(a.observations, next.observations[|a.observations|], asset, time);
    }
  }

  lemma {:induction false} RunKeepsHistory(assets: set<int>, d: Definition, stream: seq<Candle>)
    requires d.interval > 0 && forall c :: c in stream ==> c.asset in assets
    ensures CursorsGood(Run(Activated(assets), d, stream), d)
    ensures HistoryGood(Run(Activated(assets), d, stream))
  {
    if stream != [] {
      RunKeepsHistory(assets, d, stream[..|stream| - 1]);
      PersistKeepsCursors(Run(Activated(assets), d, stream[..|stream| - 1]), d, stream[|stream| - 1]);
      PersistKeepsHistory(Run(Activated(assets), d, stream[..|stream| - 1]), d, stream[|stream| - 1]);
    }
  }

  /**
   For any stream, with gaps, repetitions, late or corrected candles, the evaluated times of an
   asset are t0, t0 + D, t0 + 2D, ... up to the durable cursor, so no candle is evaluated twice.
   */
  lemma EvaluatedTimesAreConsecutive(assets: set<int>, d: Definition, stream: seq<Candle>, asset: int, k: nat)
    requires d.interval > 0 && asset in assets && forall c :: c in stream ==> c.asset in assets
    requires k < |EvaluatedTimes(Run(Activated(assets), d, stream).observations, asset)|
    ensures var a := Run(Activated(assets), d, stream);
            var times := EvaluatedTimes(a.observations, asset);
            && times[k] == times[0] + k * d.interval
            && a.states[asset].cursor == Some(times[|times| - 1])
  {
    RunKeepsHistory(assets, d, stream);
    var a := Run(Activated(assets), d, stream);
    Steps(EvaluatedTimes(a.observations, asset), a.states[asset].cursor, d.interval, k);
  }

  lemma {:induction false} Steps(times: seq<int>, cursor: Option<int>, interval: int, k: nat)
    requires Consecutive(times, cursor, interval) && k < |times|
    ensures times[k] == times[0] + k * interval
  {
    if k > 0 {
      Steps(times, cursor, interval, k - 1);
      assert k * interval == (k - 1) * interval + interval;
    }
  }

  /** Each candle has at most two attempts, and of two only the second is an evaluation. */
  lemma AtMostTwoAttempts(assets: set<int>, d: Definition, stream: seq<Candle>, asset: int, time: int)
    requires d.interval > 0 && forall c :: c in stream ==> c.asset in assets
    ensures var attempts := Attempts(Run(Activated(assets), d, stream).observations, asset, time);
            && |attempts| <= 2
            && (|attempts| == 2 ==> attempts[0].status != Evaluated && attempts[1].status == Evaluated)
  {
    RunKeepsHistory(assets, d, stream);
    assert AttemptsGood(Attempts(Run(Activated(assets), d, stream).observations, asset, time));
  }

  // ---- Positions --------------------------------------------------------------------------------------

  lemma {:induction false} TradesAppend(events: seq<Recorded>, more: seq<Recorded>, asset: int)
    ensures Trades(events + more, asset) == Trades(events, asset) + Trades(more, asset)
  {
    if more == [] {
      assert events + more == events;
    } else {
      var n := |more| - 1;
      TradesAppend(events, more[..n], asset);
      assert (events + more)[..|events + more| - 1] == events + more[..n];
    }
  }

  lemma RecordedTrades(c: Candle, events: seq<Emitted>, asset: int)
    requires |events| <= 3
    requires events != [] ==> events[0].kind == SignalSeen
    requires forall k :: 1 <= k < |events| ==> events[k].kind != SignalSeen
    ensures Trades(Record(c, events), asset) == if asset == c.asset && events != [] then events[1..] else []
  {
    var r := Record(c, events);
    assert |events| > 0 ==> Trades(r[..1], asset) == [] && r[..1][..0] == [];
    assert |events| > 1 ==> r[..2][..1] == r[..1] && Trades(r[..2], asset) == (if asset == c.asset then [events[1]] else []);
    assert |events| > 2 ==> r[..3][..2] == r[..2] && r[..3] == r;
    assert |events| > 0 ==> r[..|events|] == r;
  }

  /** What one step does to the recorded trades and to the position they describe. */
  lemma PersistTrades(a: Activation, d: Definition, c: Candle, asset: int)
    requires d.interval > 0 && c.asset in a.states && asset in a.states
    ensures var (next, stored) := Persist(a, d, c);
            var o := Verdict(a, d, c);
            && Trades(next.events, asset) == Trades(a.events, asset) +
                 (if stored && asset == c.asset && o.events != [] then o.events[1..] else [])
            && next.states[asset].position == (if stored && asset == c.asset then o.after else a.states[asset].position)
  {
    hide Boundary;
    var (next, stored) := Persist(a, d, c);
    var o := Verdict(a, d, c);
    PersistEffect(a, d, c);
    OutcomeShape(d, c, a.states[c.asset].position, a.states[c.asset].cursor, CanOpen(a, d, c.asset));
    hide Evaluate, Persist, Trades;
    if stored {
      TradesAppend(a.events, Record(c, o.events), asset);
      RecordedTrades(c, o.events, asset);
    }
  }

  lemma OpenAfterUpdate(states: map<int, AssetState>, asset: int, next: AssetState)
    requires asset in states
    ensures |Open(states[asset := next])| ==
              |Open(states)| - (if states[asset].position != Flat then 1 else 0) + (if next.position != Flat then 1 else 0)
  {
    var others := Open(states) - {asset};
    assert Open(states) == others + if states[asset].position != Flat then {asset} else {};
    assert Open(states[asset := next]) == others + if next.position != Flat then {asset} else {};
  }

  ghost predicate PositionsGood(a: Activation) {
    && a.openCount == |Open(a.states)|
    && forall asset :: asset in a.states ==> Replay(Trades(a.events, asset)) == a.states[asset].position
  }

  lemma ReplayAppend(trades: seq<Emitted>, events: seq<Emitted>, after: Position)
    requires |events| > 1 ==> events[|events| - 1].position == after
    ensures Replay(trades + if events != [] then events[1..] else []) ==
              if |events| > 1 then after else Replay(trades)
  {
  }

  lemma PersistKeepsPositions(a: Activation, d: Definition, c: Candle)
    requires d.interval > 0 && c.asset in a.states && PositionsGood(a)
    ensures PositionsGood(Persist(a, d, c).0)
  {
    hide Boundary;
    var (next, stored) := Persist(a, d, c);
    PersistEffect(a, d, c);
    OutcomeShape(d, c, a.states[c.asset].position, a.states[c.asset].cursor, CanOpen(a, d, c.asset));
    hide Evaluate, Persist, Trades, Open, Verdict;
    forall asset | asset in a.states ensures Replay(Trades(next.events, asset)) == next.states[asset].position {
      PersistTrades(a, d, c, asset);
      ReplayAppend(Trades(a.events, asset), Verdict(a, d, c).events, Verdict(a, d, c).after);
    }
    if stored {
      OpenAfterUpdate(a.states, c.asset, next.states[c.asset]);
    }
  }

  /**
   In every reachable state the open-position counter is the number of assets that are not flat,
   and replaying an asset's recorded entries and exits rebuilds its position.
   */
  lemma {:induction false} CounterAndReplayAreExact(assets: set<int>, d: Definition, stream: seq<Candle>)
    requires d.interval > 0 && forall c :: c in stream ==> c.asset in assets
    ensures var a := Run(Activated(assets), d, stream);
            && a.openCount == |Open(a.states)|
            && forall asset :: asset in assets ==> Replay(Trades(a.events, asset)) == a.states[asset].position
  {
    if stream == [] {
      assert Open(Activated(assets).states) == {};
    } else {
      CounterAndReplayAreExact(assets, d, stream[..|stream| - 1]);
      PersistKeepsPositions(Run(Activated(assets), d, stream[..|stream| - 1]), d, stream[|stream| - 1]);
    }
  }

  // ---- The cap and the order of trades ---------------------------------------------------------------

  /** Entries and exits take turns, an entry first. */
  ghost predicate Alternates(trades: seq<Emitted>) {
    forall k :: 0 <= k < |trades| ==> trades[k].kind == if k % 2 == 0 then Entry else Exit
  }

  /** The cap holds, each asset's trades alternate, and a flat asset has closed its last one. */
  ghost predicate Disciplined(a: Activation, d: Definition) {
    && a.openCount <= d.maxOpen
    && forall asset :: asset in a.states ==>
         && Alternates(Trades(a.events, asset))
         && (a.states[asset].position == Flat <==> |Trades(a.events, asset)| % 2 == 0)
  }

  /** When a candle counts as evaluated, and what it then does to a position. */
  lemma EvaluatedIff(d: Definition, c: Candle, position: Position, cursor: Option<int>, canOpen: bool)
    requires d.interval > 0
    ensures var o := Evaluate(d, c, position, cursor, canOpen);
            && (o.status == Evaluated <==>
                  && Due(d, c, cursor) && !Malformed(d.signals, c.close)
                  && forall i :: IsFirstMatch(d.signals, c.close, i) ==> d.signals[i].exit || d.signals[i].direction != ToFlat)
            && (o.status == Evaluated ==>
                  forall i :: IsFirstMatch(d.signals, c.close, i) ==>
                    var s := d.signals[i];
                    && (s.exit ==> o.after == Flat)
                    && (!s.exit && ((position == Flat && canOpen) || d.allowReversal) ==>
                          o.after == if s.direction == ToLong then Long else Short)
                    && (!s.exit && !(position == Flat && canOpen) && !d.allowReversal ==> o.after == position))
            && (o.status == Evaluated && (forall i :: !IsFirstMatch(d.signals, c.close, i)) ==>
                  o.events == [] && o.after == position)
  {
    FirstMatchIsFirst(d.signals, c.close);
    MalformedIff(d.signals, c.close);
    hide FirstMatch, IsFirstMatch, Malformed, Fires;
  }

  /** A reversal taken by a flat asset because the cap is reached: the guard as written allows it. */
  predicate ReversesFromFlat(a: Activation, d: Definition, c: Candle)
    requires d.interval > 0 && c.asset in a.states
  {
    && Due(d, c, a.states[c.asset].cursor)
    && a.states[c.asset].position == Flat
    && a.openCount >= d.maxOpen
    && d.allowReversal
    && var first := FirstMatch(d.signals, c.close);
       first.Ok? && first.value.Some? && !first.value.value.exit && first.value.value.direction != ToFlat
  }

  lemma {:induction false} EvaluatedIsListed(observations: seq<Observation>, asset: int, time: int)
    requires Previous(observations, asset, time).Some?
    requires Previous(observations, asset, time).value.status == Evaluated
    ensures time in EvaluatedTimes(observations, asset)
  {
    var n := |observations| - 1;
    var last, earlier := observations[n], Previous(observations[..n], asset, time);
    if last.asset != asset || last.time != time || (earlier.Some? && earlier.value.attempt > last.attempt) {
      EvaluatedIsListed(observations[..n], asset, time);
    }
  }

  /** A due candle has never been evaluated before. */
  lemma DueIsFresh(a: Activation, d: Definition, c: Candle)
    requires d.interval > 0 && c.asset in a.states && CursorsGood(a, d)
    requires Due(d, c, a.states[c.asset].cursor)
    ensures var previous := Previous(a.observations, c.asset, c.time);
            previous.Some? ==> previous.value.status != Evaluated
  {
    var times := EvaluatedTimes(a.observations, c.asset);
    var previous := Previous(a.observations, c.asset, c.time);
    if previous.Some? && previous.value.status == Evaluated {
      EvaluatedIsListed(a.observations, c.asset, c.time);
      var k :| 0 <= k < |times| && times[k] == c.time;
      NoLaterThanLast(times, a.states[c.asset].cursor, d.interval, k);
    }
  }

  lemma {:induction false} NoLaterThanLast(times: seq<int>, cursor: Option<int>, interval: int, k: nat)
    requires Consecutive(times, cursor, interval) && k < |times|
    ensures times[k] <= times[|times| - 1]
    decreases |times| - k
  {
    if k < |times| - 1 {
      NoLaterThanLast(times, cursor, interval, k + 1);
    }
  }

  /** A due candle whose first firing signal can be applied moves the asset as that signal says. */
  lemma PersistAnswers(a: Activation, d: Definition, c: Candle, i: int)
    requires d.interval > 0 && c.asset in a.states && CursorsGood(a, d)
    requires Due(d, c, a.states[c.asset].cursor) && IsFirstMatch(d.signals, c.close, i)
    requires d.signals[i].exit || d.signals[i].direction != ToFlat
    ensures var position := a.states[c.asset].position;
            var answer := Answer(d, d.signals[i], position, position != Flat || a.openCount < d.maxOpen);
            var (next, stored) := Persist(a, d, c);
            && stored
            && next.states == a.states[c.asset := AssetState(answer.after, Some(c.time))]
            && next.openCount == a.openCount + (if answer.after != Flat then 1 else 0) - (if position != Flat then 1 else 0)
            && next.events == a.events + Record(c, answer.events)
  {
    EvaluateAnswers(d, c, a.states[c.asset].position, a.states[c.asset].cursor, CanOpen(a, d, c.asset));
    DueIsFresh(a, d, c);
    PersistEffect(a, d, c);
    EvaluatedIsStored(a, d, c);
    hide Evaluate, Persist, Due, IsFirstMatch, CursorsGood, Previous, Record, Malformed;
  }

  lemma EvaluatedIsStored(a: Activation, d: Definition, c: Candle)
    requires d.interval > 0 && c.asset in a.states && Verdict(a, d, c).status == Evaluated
    requires var previous := Previous(a.observations, c.asset, c.time);
             previous.Some? ==> previous.value.status != Evaluated
    ensures Persist(a, d, c).1
  {
    hide Evaluate, Previous, Record;
  }

  /**
   An outcome is recorded unless the candle is a duplicate or out of order, was evaluated before, or
   was attempted before without being evaluated now; attempts are numbered from one.
   */
  lemma RecordedIff(a: Activation, d: Definition, c: Candle)
    requires d.interval > 0 && c.asset in a.states && HistoryGood(a)
    ensures var attempts := Attempts(a.observations, c.asset, c.time);
            var status := Verdict(a, d, c).status;
            var (next, stored) := Persist(a, d, c);
            && (stored <==>
                  && status != Duplicate && status != OutOfOrder
                  && (attempts == [] || (|attempts| == 1 && attempts[0].status != Evaluated && status == Evaluated)))
            && (stored ==> next.observations == a.observations + [Observation(c.asset, c.time, |attempts| + 1, status)])
  {
    assert AttemptsGood(Attempts(a.observations, c.asset, c.time));
    PreviousIsLastAttempt(a.observations, c.asset, c.time);
    hide Evaluate, Attempts, Previous, Record, HistoryGood;
  }

  lemma FlatReversalOutcome(a: Activation, d: Definition, c: Candle)
    requires d.interval > 0 && c.asset in a.states && CursorsGood(a, d)
    requires ReversesFromFlat(a, d, c)
    ensures var (next, stored) := Persist(a, d, c);
            var o := Verdict(a, d, c);
            && stored && next.openCount == a.openCount + 1
            && o.status == Evaluated && |o.events| == 3 && o.events[1].kind == Exit
  {
    DueIsFresh(a, d, c);
  }

  /** Every other step adds an entry to a flat asset, an exit to an open one, or both to an open one. */
  lemma OrdinaryOutcome(a: Activation, d: Definition, c: Candle)
    requires d.interval > 0 && c.asset in a.states && !ReversesFromFlat(a, d, c)
    ensures var position := a.states[c.asset].position;
            var o := Verdict(a, d, c);
            && TakesTurns(position, o.events, o.after)
            && (position == Flat && o.after != Flat ==> a.openCount < d.maxOpen)
  {
    hide FirstMatch;
  }

  /** The trades that may follow a position: an entry from flat, an exit, or an exit and an entry. */
  predicate TakesTurns(before: Position, events: seq<Emitted>, after: Position) {
    || (|events| <= 1 && after == before)
    || (|events| == 2 && before == Flat && events[1].kind == Entry && after != Flat)
    || (|events| == 2 && before != Flat && events[1].kind == Exit && after == Flat)
    || (|events| == 3 && before != Flat && events[1].kind == Exit && events[2].kind == Entry && after != Flat)
  }

  lemma TurnsAlternate(trades: seq<Emitted>, before: Position, events: seq<Emitted>, after: Position)
    requires Alternates(trades) && (before == Flat <==> |trades| % 2 == 0)
    requires TakesTurns(before, events, after)
    ensures var longer := trades + if events != [] then events[1..] else [];
            Alternates(longer) && (after == Flat <==> |longer| % 2 == 0)
  {
  }

  lemma OrdinaryStepKeepsDiscipline(a: Activation, d: Definition, c: Candle)
    requires d.interval > 0 && c.asset in a.states && Disciplined(a, d) && !ReversesFromFlat(a, d, c)
    ensures Disciplined(Persist(a, d, c).0, d)
  {
    hide Boundary;
    var (next, stored) := Persist(a, d, c);
    var o := Verdict(a, d, c);
    PersistEffect(a, d, c);
    OutcomeShape(d, c, a.states[c.asset].position, a.states[c.asset].cursor, CanOpen(a, d, c.asset));
    OrdinaryOutcome(a, d, c);
    hide Evaluate, Persist, Trades, ReversesFromFlat;
    forall asset | asset in a.states
      ensures Alternates(Trades(next.events, asset))
      ensures next.states[asset].position == Flat <==> |Trades(next.events, asset)| % 2 == 0
    {
      TradesAfter(a, d, c, asset);
    }
  }

  lemma TradesAfter(a: Activation, d: Definition, c: Candle, asset: int)
    requires d.interval > 0 && c.asset in a.states && asset in a.states && !ReversesFromFlat(a, d, c)
    requires Alternates(Trades(a.events, asset))
    requires a.states[asset].position == Flat <==> |Trades(a.events, asset)| % 2 == 0
    ensures var next := Persist(a, d, c).0;
            && Alternates(Trades(next.events, asset))
            && (next.states[asset].position == Flat <==> |Trades(next.events, asset)| % 2 == 0)
  {
    hide Boundary;
    var (next, stored) := Persist(a, d, c);
    var o := Verdict(a, d, c);
    PersistTrades(a, d, c, asset);
    OutcomeShape(d, c, a.states[c.asset].position, a.states[c.asset].cursor, CanOpen(a, d, c.asset));
    OrdinaryOutcome(a, d, c);
    hide Evaluate, Persist, Trades, ReversesFromFlat, Alternates, TakesTurns, Verdict, CanOpen;
    if stored && asset == c.asset {
      TurnsAlternate(Trades(a.events, asset), a.states[asset].position, o.events, o.after);
    }
  }

  /**
   One step leaves the cap and the alternation of trades intact exactly when it is not a reversal
   from flat at the cap.
   */
  lemma DisciplineKeptIff(a: Activation, d: Definition, c: Candle)
    requires d.interval > 0 && c.asset in a.states && CursorsGood(a, d) && Disciplined(a, d)
    ensures Disciplined(Persist(a, d, c).0, d) <==> !ReversesFromFlat(a, d, c)
    ensures ReversesFromFlat(a, d, c) ==>
              && Persist(a, d, c).0.openCount > d.maxOpen
              && !Alternates(Trades(Persist(a, d, c).0.events, c.asset))
  {
    if ReversesFromFlat(a, d, c) {
      FlatReversalOutcome(a, d, c);
      PersistTrades(a, d, c, c.asset);
      var trades := Trades(a.events, c.asset);
      var after := Trades(Persist(a, d, c).0.events, c.asset);
      assert after[|trades|].kind == Exit && |trades| % 2 == 0;
    } else {
      OrdinaryStepKeepsDiscipline(a, d, c);
    }
  }

  /** No step of the run was a reversal from flat. */
  predicate NeverReversesFromFlat(a: Activation, d: Definition, stream: seq<Candle>)
    requires d.interval > 0 && forall c :: c in stream ==> c.asset in a.states
  {
    stream == [] ||
    (var before, last := stream[..|stream| - 1], stream[|stream| - 1];
     assert last in stream;
     NeverReversesFromFlat(a, d, before) && !ReversesFromFlat(Run(a, d, before), d, last))
  }

  /** The cap and the alternation held after every step of the run. */
  ghost predicate AlwaysDisciplined(a: Activation, d: Definition, stream: seq<Candle>)
    requires d.interval > 0 && forall c :: c in stream ==> c.asset in a.states
  {
    && Disciplined(Run(a, d, stream), d)
    && (stream != [] ==> AlwaysDisciplined(a, d, stream[..|stream| - 1]))
  }

  lemma StartIsDisciplined(assets: set<int>, d: Definition)
    ensures Disciplined(Activated(assets), d)
  {
  }

  /**
   Over a whole run the cap and the alternation hold after every step exactly when no step
   reverses from flat.
   */
  lemma {:induction false} RunDisciplinedIff(assets: set<int>, d: Definition, stream: seq<Candle>)
    requires d.interval > 0 && forall c :: c in stream ==> c.asset in assets
    ensures AlwaysDisciplined(Activated(assets), d, stream) <==>
              NeverReversesFromFlat(Activated(assets), d, stream)
  {
    if stream == [] {
      StartIsDisciplined(assets, d);
    } else {
      hide Persist, ReversesFromFlat, Disciplined, CursorsGood, HistoryGood;
      var before, last := stream[..|stream| - 1], stream[|stream| - 1];
      RunDisciplinedIff(assets, d, before);
      RunKeepsHistory(assets, d, before);
      if AlwaysDisciplined(Activated(assets), d, before) {
        DisciplineKeptIff(Run(Activated(assets), d, before), d, last);
      }
    }
  }

  /** Without reversals the cap is never exceeded and entries and exits always take turns. */
  lemma NoReversalNoExcess(assets: set<int>, d: Definition, stream: seq<Candle>)
    requires d.interval > 0 && !d.allowReversal && forall c :: c in stream ==> c.asset in assets
    ensures var a := Run(Activated(assets), d, stream);
            a.openCount <= d.maxOpen && forall asset :: asset in assets ==> Alternates(Trades(a.events, asset))
  {
    NoReversalNeverReverses(Activated(assets), d, stream);
    RunDisciplinedIff(assets, d, stream);
  }

  lemma {:induction false} NoReversalNeverReverses(a: Activation, d: Definition, stream: seq<Candle>)
    requires d.interval > 0 && !d.allowReversal && forall c :: c in stream ==> c.asset in a.states
    ensures NeverReversesFromFlat(a, d, stream)
  {
    if stream != [] {
      NoReversalNeverReverses(a, d, stream[..|stream| - 1]);
    }
  }

  lemma RunSnoc(a: Activation, d: Definition, stream: seq<Candle>, c: Candle)
    requires d.interval > 0 && c.asset in a.states && forall b :: b in stream ==> b.asset in a.states
    ensures Run(a, d, stream + [c]) == Persist(Run(a, d, stream), d, c).0
  {
    assert (stream + [c])[..|stream|] == stream;
  }

  /** With reversals allowed, two assets and a cap of one are enough to exceed it. */
  lemma ReversalExceedsCap(d: Definition, s: Signal, c1: Candle, c2: Candle)
    requires s == Signal(false, ToLong, AtLeast, 1.0, true) && d == Definition({1, 2}, 60, [s], true, 1)
    requires c1 == Candle(1, 60, 1.0) && c2 == Candle(2, 60, 1.0)
    ensures var a := Run(Activated({1, 2}), d, [c1, c2]);
            a.openCount > d.maxOpen && !Alternates(Trades(a.events, 2))
  {
    FirstOfTwo(d, s, c1, c2);
    hide Persist, ReversesFromFlat, Disciplined, CursorsGood, HistoryGood, Trades, Alternates, FirstMatch;
    var a0 := Activated({1, 2});
    RunSnoc(a0, d, [], c1);
    RunSnoc(a0, d, [c1], c2);
    assert [] + [c1] == [c1] && [c1] + [c2] == [c1, c2];
    StartIsDisciplined({1, 2}, d);
    OrdinaryStepKeepsDiscipline(a0, d, c1);
    RunKeepsHistory({1, 2}, d, [c1]);
    DisciplineKeptIff(Persist(a0, d, c1).0, d, c2);
  }

  lemma FirstOfTwo(d: Definition, s: Signal, c1: Candle, c2: Candle)
    requires s == Signal(false, ToLong, AtLeast, 1.0, true) && d == Definition({1, 2}, 60, [s], true, 1)
    requires c1 == Candle(1, 60, 1.0) && c2 == Candle(2, 60, 1.0)
    ensures !ReversesFromFlat(Activated({1, 2}), d, c1)
    ensures ReversesFromFlat(Persist(Activated({1, 2}), d, c1).0, d, c2)
  {
    assert FirstMatch(d.signals, 1.0) == Ok(Some(s));
    assert Persist(Activated({1, 2}), d, c1).0.openCount == 1;
  }

  // ---- The runtime in place ------------------------------------------------------------------------

  /** What processing a batch means: the loop stops at the first candle the cursor does not reach. */
  function Batch(a: Activation, d: Definition, asset: int, candles: seq<Candle>): Activation
    requires d.interval > 0 && asset in a.states && forall c :: c in candles ==> c.asset == asset
    decreases candles
  {
    if candles == [] then a
    else
      assert candles[0] in candles;
      var next := Persist(a, d, candles[0]).0;
      if next.states[asset].cursor != Some(candles[0].time) then next
      else Batch(next, d, asset, candles[1..])
  }

  /** The loop is a run over some prefix of the batch: later candles leave no trace. */
  lemma {:induction false} BatchIsRun(a: Activation, d: Definition, asset: int, candles: seq<Candle>) returns (n: nat)
    requires d.interval > 0 && asset in a.states && forall c :: c in candles ==> c.asset == asset
    ensures n <= |candles|
    ensures (forall c :: c in candles[..n] ==> c.asset in a.states) && Batch(a, d, asset, candles) == Run(a, d, candles[..n])
    ensures n < |candles| ==> n > 0 && Batch(a, d, asset, candles).states[asset].cursor != Some(candles[n - 1].time)
    decreases candles
  {
    if candles == [] {
      return 0;
    }
    hide Persist;
    assert candles[0] in candles;
    var next := Persist(a, d, candles[0]).0;
    PersistKeepsAssets(a, d, candles[0]);
    RunSnoc(a, d, [], candles[0]);
    assert [] + [candles[0]] == candles[..1];
    if next.states[asset].cursor != Some(candles[0].time) {
      return 1;
    }
    var rest := BatchIsRun(next, d, asset, candles[1..]);
    n := rest + 1;
    BatchStep(a, d, candles, rest);
  }

  lemma BatchStep(a: Activation, d: Definition, candles: seq<Candle>, rest: nat)
    requires d.interval > 0 && rest < |candles| && forall c :: c in candles ==> c.asset in a.states
    ensures var next := Persist(a, d, candles[0]).0;
            && next.states.Keys == a.states.Keys
            && Run(next, d, candles[1..][..rest]) == Run(a, d, candles[..rest + 1])
  {
    hide Persist, Run;
    PersistKeepsAssets(a, d, candles[0]);
    RunCons(a, d, candles[0], candles[1..][..rest]);
    assert [candles[0]] + candles[1..][..rest] == candles[..rest + 1];
  }

  lemma PersistKeepsAssets(a: Activation, d: Definition, c: Candle)
    requires d.interval > 0 && c.asset in a.states
    ensures Persist(a, d, c).0.states.Keys == a.states.Keys
  {
  }

  lemma {:induction false} RunCons(a: Activation, d: Definition, c: Candle, stream: seq<Candle>)
    requires d.interval > 0 && c.asset in a.states && forall b :: b in stream ==> b.asset in a.states
    ensures Run(Persist(a, d, c).0, d, stream) == Run(a, d, [c] + stream)
  {
    hide Persist;
    PersistKeepsAssets(a, d, c);
    if stream == [] {
      RunSnoc(a, d, [], c);
      assert [] + [c] == [c] + stream;
    } else {
      var n := |stream| - 1;
      RunCons(a, d, c, stream[..n]);
      RunSnoc(a, d, [c] + stream[..n], stream[n]);
      assert [c] + stream[..n] + [stream[n]] == [c] + stream;
    }
  }

  /** A candle ahead of the cursor is counted exactly when the cursor reaches it. */
  lemma PersistCounts(a: Activation, d: Definition, c: Candle)
    requires d.interval > 0 && c.asset in a.states
    requires a.states[c.asset].cursor.Some? ==> c.time > a.states[c.asset].cursor.value
    ensures var (next, stored) := Persist(a, d, c);
            && next.states.Keys == a.states.Keys
            && |EvaluatedTimes(next.observations, c.asset)| ==
                 |EvaluatedTimes(a.observations, c.asset)| +
                 if stored && next.states[c.asset].cursor == Some(c.time) then 1 else 0
  {
    var (next, stored) := Persist(a, d, c);
    hide Evaluate, Previous, EvaluatedTimes;
    if stored {
      EvaluatedTimesSnoc(a.observations, next.observations[|next.observations| - 1], c.asset);
    }
  }

  class Runtime {
    const definition: Definition
    var states: map<int, AssetState>
    var openCount: int
    var observations: seq<Observation>
    var events: seq<Recorded>

    ghost function State(): Activation
      reads this
    {
      Activation(states, openCount, observations, events)
    }

    constructor (definition: Definition)
      ensures this.definition == definition && State() == Activated(definition.universe)
    {
      this.definition := definition;
      states := map a | a in definition.universe :: AssetState(Flat, None);
      openCount, observations, events := 0, [], [];
    }

    /** Evaluates one candle and records what came of it. */
    method EvaluateAndPersist(c: Candle) returns (persisted: bool)
      requires definition.interval > 0 && c.asset in states
      modifies this
      ensures (State(), persisted) == Persist(old(State()), definition, c)
    {
      var state := states[c.asset];
      var canOpen := state.position != Flat || openCount < definition.maxOpen;
      var outcome := Evaluate(definition, c, state.position, state.cursor, canOpen);
      ghost var before := State();
      assert canOpen == CanOpen(before, definition, c.asset);
      if outcome.status == Duplicate || outcome.status == OutOfOrder {
        return false;
      }
      var previous := Previous(observations, c.asset, c.time);
      var attempt := 1;
      if previous.Some? {
        if previous.value.status == Evaluated {
          return false;
        }
        if outcome.status != Evaluated {
          return false;
        }
        attempt := previous.value.attempt + 1;
      }
      hide Evaluate, Previous;
      observations := observations + [Observation(c.asset, c.time, attempt, outcome.status)];
      events := events + Record(c, outcome.events);
      if outcome.status == Evaluated {
        state := state.(cursor := Some(c.time));
        if outcome.after != outcome.before {
          if outcome.before == Flat {
            openCount := openCount + 1;
          } else if outcome.after == Flat {
            openCount := openCount - 1;
          }
          state := state.(position := outcome.after);
        }
      }
      states := states[c.asset := state];
      persisted := true;
    }

    /**
     A batch read after the cursor in time order.  The loop stops at the first candle that does
     not move the cursor, so nothing is observed behind an unresolved gap; the count returned is
     the number of evaluations recorded.
     */
    method ProcessAsset(asset: int, candles: seq<Candle>) returns (evaluated: nat)
      requires definition.interval > 0 && asset in states
      requires forall c :: c in candles ==> c.asset == asset
      requires forall i, j :: 0 <= i < j < |candles| ==> candles[i].time < candles[j].time
      requires states[asset].cursor.Some? ==> forall c :: c in candles ==> c.time > states[asset].cursor.value
      modifies this
      ensures State() == Batch(old(State()), definition, asset, candles)
      ensures |EvaluatedTimes(observations, asset)| == |EvaluatedTimes(old(observations), asset)| + evaluated
    {
      hide Evaluate, Previous;
      evaluated := 0;
      var i := 0;
      while i < |candles|
        invariant i <= |candles| && asset in states
        invariant Batch(old(State()), definition, asset, candles) == Batch(State(), definition, asset, candles[i..])
        invariant |EvaluatedTimes(observations, asset)| == |EvaluatedTimes(old(observations), asset)| + evaluated
        invariant i > 0 ==> states[asset].cursor == Some(candles[i - 1].time)
        invariant i == 0 ==> State() == old(State())
      {
        var candle := candles[i];
        assert candle in candles && candles[i..][0] == candle && candles[i..][1..] == candles[i + 1..];
        ghost var before := State();
        var persisted := EvaluateAndPersist(candle);
        PersistCounts(before, definition, candle);
        if persisted && states[asset].cursor == Some(candle.time) {
          evaluated := evaluated + 1;
        }
        if states[asset].cursor != Some(candle.time) {
          return;
        }
        i := i + 1;
      }
    }
  }
}
