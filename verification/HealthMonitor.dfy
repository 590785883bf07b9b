/**
 The health projection of one activation: what processed comparison runs, freshness checks and
 runtime failures make of it, and when incidents recover by themselves.
 */
module HealthMonitor {
  import opened Wrappers
  import opened Incidents

  datatype Level = Unknown | Healthy | Degraded | Stale | Error

  datatype Class = Class(cause: Cause, severity: Severity)

  /** `windowEnd` is the end of the newest complete window, `comparedAt` when it was processed. */
  datatype Health = Health(
    binding: int,
    level: Level,
    shown: Option<Class>,
    streak: nat,
    windowEnd: Option<int>,
    comparedAt: Option<int>)

  datatype State = State(ledger: Ledger, health: Health)

  datatype RunStatus = HealthyRun | InsufficientRun | DivergentRun

  datatype FindingRow = FindingRow(cause: Cause, discriminator: int, finding: int, observed: Severity)

  /** A persisted comparison run and its findings in page order. */
  datatype ComparisonRun = ComparisonRun(status: RunStatus, windowEnd: int, findings: seq<FindingRow>)

  // ---- Projections ---------------------------------------------------------------------------------

  function CauseRank(c: Cause): nat {
    match c
    case StrategyFailure => 5
    case Runtime => 4
    case StrategyBehavior => 3
    case Execution => 2
    case DataQuality => 1
    case Reference => 0
  }

  /** Severity first, then how directly the cause speaks of a fault. */
  predicate MoreActionable(a: Class, b: Class) {
    || Rank(a.severity) > Rank(b.severity)
    || (a.severity == b.severity && CauseRank(a.cause) > CauseRank(b.cause))
  }

  function Prefer(current: Option<Class>, candidate: Class): Class {
    if current.None? || MoreActionable(candidate, current.value) then candidate else current.value
  }

  predicate IsMost(classes: set<Class>, most: Class) {
    most in classes && forall c :: c in classes && c != most ==> MoreActionable(most, c)
  }

  lemma {:induction false} MostExists(classes: set<Class>)
    requires classes != {}
    ensures exists most :: IsMost(classes, most)
    decreases |classes|
  {
    var c :| c in classes;
    if classes == {c} {
      assert IsMost(classes, c);
    } else {
      MostExists(classes - {c});
      var most :| IsMost(classes - {c}, most);
      var best := if MoreActionable(c, most) then c else most;
      forall other | other in classes && other != best ensures MoreActionable(best, other) {
        assert other == c || other in classes - {c};
      }
      assert IsMost(classes, best);
    }
  }

  function Most(classes: set<Class>): (most: Class)
    requires classes != {}
    ensures IsMost(classes, most)
  {
    MostExists(classes);
    var most :| IsMost(classes, most);
    most
  }

  function SetUnknown(h: Health): Health { h.(level := Unknown, shown := None, streak := 0) }

  function SetHealthy(h: Health): Health { h.(level := Healthy, shown := None) }

  function SetHealth(h: Health, level: Level, c: Class): Health { h.(level := level, shown := Some(c), streak := 0) }

  function LevelOf(c: Cause): Level { if c == StrategyFailure || c == Runtime then Error else Degraded }

  function SetDivergent(h: Health, c: Class): Health { SetHealth(h, LevelOf(c.cause), c) }

  /** A projection of another binding is reset before it is used for this one. */
  function Bound(h: Health, binding: int): Health {
    if h.binding == binding then h else SetUnknown(h.(binding := binding))
  }

  // ---- Recording the findings of a run ----------------------------------------------------------------

  function KeyFor(binding: int, f: FindingRow): Key { FindingKey(binding, f.cause, f.discriminator) }

  function RecordRow(l: Ledger, p: Policy, binding: int, f: FindingRow): Ledger
    requires ValidPolicy(p)
  {
    Sighting(l, p, KeyFor(binding, f), OfFinding(f.finding), f.observed)
  }

  /** What a finding counts as: its cause with the severity of the incident it is linked to. */
  function Classified(l: Ledger, binding: int, f: FindingRow): Class {
    var linked := if Linked(l, f.finding).Some? then Linked(l, f.finding).value else KeyFor(binding, f);
    Class(f.cause, if linked in l.incidents then l.incidents[linked].severity else Info)
  }

  /** The incident a finding is linked to. */
  function Linked(l: Ledger, finding: int): Option<Key> {
    LinkedIn(l.rows, finding)
  }

  function LinkedIn(rows: seq<Row>, finding: int): Option<Key> {
    if rows == [] then None
    else if rows[0].evidence == OfFinding(finding) then Some(rows[0].key)
    else LinkedIn(rows[1..], finding)
  }

  /** Ledger and the two running projections: over all findings, and over those not about coverage. */
  datatype Progress = Progress(ledger: Ledger, all: Option<Class>, known: Option<Class>)

  function RecordNext(s: Progress, p: Policy, binding: int, f: FindingRow): Progress
    requires ValidPolicy(p)
  {
    var ledger := RecordRow(s.ledger, p, binding, f);
    var c := Classified(ledger, binding, f);
    Progress(ledger, Some(Prefer(s.all, c)), if f.cause == Reference then s.known else Some(Prefer(s.known, c)))
  }

  function RecordAll(l: Ledger, p: Policy, binding: int, findings: seq<FindingRow>): Progress
    requires ValidPolicy(p)
  {
    if findings == [] then Progress(l, None, None)
    else RecordNext(RecordAll(l, p, binding, findings[..|findings| - 1]), p, binding, findings[|findings| - 1])
  }

  // ---- Steps ----------------------------------------------------------------------------------------------

  predicate Current(h: Health, windowEnd: int) {
    h.windowEnd.None? || windowEnd >= h.windowEnd.value
  }

  /** A run whose status and findings contradict each other is refused and rolled back. */
  predicate Wellformed(run: ComparisonRun) {
    match run.status
    case HealthyRun => run.findings == []
    case InsufficientRun => true
    case DivergentRun => run.findings != []
  }

  function Classes(l: Ledger, keys: set<Key>): set<Class> {
    set k | k in keys && k in l.incidents :: Class(CauseOf(k), l.incidents[k].severity)
  }

  /** A complete current healthy run: one more check towards recovery, or recovery itself. */
  function HealthyCheck(s: State, p: Policy, binding: int): State {
    var streak := s.health.streak + 1;
    var open := Recoverable(s.ledger, binding);
    var h := s.health.(streak := streak);
    if streak < p.recoveryChecks then
      if Classes(s.ledger, open) == {} then s.(health := SetHealthy(h))
      else s.(health := SetDivergent(h, Most(Classes(s.ledger, open))).(streak := streak))
    else State(SetLifecycle(s.ledger, open, Resolved), SetHealthy(h))
  }

  function Complete(h: Health, windowEnd: int, now: int): Health {
    h.(windowEnd := Some(windowEnd), comparedAt := Some(now))
  }

  function ProcessRun(s: State, p: Policy, binding: int, run: ComparisonRun, now: int): State
    requires ValidPolicy(p)
  {
    if !Wellformed(run) then s
    else
      var recorded := RecordAll(s.ledger, p, binding, run.findings);
      var h := Bound(s.health, binding);
      var after := State(recorded.ledger, h);
      if !Current(h, run.windowEnd) then after
      else
        match run.status
        case HealthyRun => HealthyCheck(after.(health := Complete(h, run.windowEnd, now)), p, binding)
        case InsufficientRun =>
          after.(health := if recorded.known.None? then SetUnknown(h) else SetDivergent(h, recorded.known.value))
        case DivergentRun =>
          var c := if recorded.all.Some? then recorded.all.value else Class(Reference, Info);
          after.(health := SetDivergent(Complete(h, run.windowEnd, now), c))
  }

  function IncidentSeverity(l: Ledger, key: Key): Severity {
    if key in l.incidents then l.incidents[key].severity else Info
  }

  /** Runtime liveness: a stale evaluator is projected and recorded, a fresh one recovers. */
  function CheckStaleness(s: State, p: Policy, binding: int, baseline: int, now: int): State
    requires ValidPolicy(p)
  {
    var h := Bound(s.health, binding);
    if now - baseline >= p.staleAfter then
      var ledger := Sighting(s.ledger, p, StaleStateKey(binding), OfStaleState(baseline), Info);
      State(ledger, SetHealth(h, Stale, Class(Runtime, IncidentSeverity(ledger, StaleStateKey(binding)))))
    else
      State(RecoverOne(s.ledger, StaleStateKey(binding)), if h.level == Stale then SetUnknown(h) else h)
  }

  /** Resolves one incident if it is still unresolved. */
  function RecoverOne(l: Ledger, key: Key): Ledger {
    if key in Unresolved(l, key.binding) then SetLifecycle(l, {key}, Resolved) else l
  }

  /** When comparison coverage was last complete, or the registration if it never was. */
  function FreshnessBaseline(h: Health, registered: int): int {
    if h.comparedAt.Some? then h.comparedAt.value else registered
  }

  /** Comparison freshness: no complete comparison for too long degrades whatever was projected. */
  function CheckFreshness(s: State, p: Policy, binding: int, registered: int, now: int): State
    requires ValidPolicy(p)
  {
    var h := Bound(s.health, binding);
    var baseline := FreshnessBaseline(h, registered);
    if now - baseline < p.comparisonStaleAfter then
      State(RecoverOne(s.ledger, StaleComparisonKey(binding)), h)
    else
      var key := StaleComparisonKey(binding);
      var ledger := Sighting(s.ledger, p, key, OfStaleComparison(baseline, h.windowEnd), Info);
      State(ledger, SetDivergent(h, Prefer(h.shown, Class(Reference, IncidentSeverity(ledger, key)))))
  }

  /** A failed runtime, or a failure of monitoring itself under an unreadable policy. */
  function FailRuntime(s: State, p: Policy, binding: int, status: int, error: int, trusted: bool): State
    requires ValidPolicy(p)
  {
    var severity := if trusted then SeverityFor(p, Runtime, 1) else Critical;
    var ledger := if trusted then Sighting(s.ledger, p, RuntimeKey(binding), OfRuntime(status, error), Info)
                  else Record(s.ledger, RuntimeKey(binding), OfRuntime(status, error), Critical, Critical);
    State(ledger, SetHealth(Bound(s.health, binding), Error, Class(Runtime, severity)))
  }

  datatype Event =
    | Compare(binding: int, run: ComparisonRun, now: int)
    | Staleness(binding: int, baseline: int, now: int)
    | Freshness(binding: int, registered: int, now: int)
    | Failure(binding: int, status: int, error: int, trusted: bool)
    | Unenrol(binding: int)
    | Register(binding: int)
    | Operator(key: Key, resolve: bool)

  function Step(s: State, policies: Policies, e: Event): State
    requires forall b: int :: ValidPolicy(policies(b))
  {
    match e
    case Compare(binding, run, now) => ProcessRun(s, policies(binding), binding, run, now)
    case Staleness(binding, baseline, now) => CheckStaleness(s, policies(binding), binding, baseline, now)
    case Freshness(binding, registered, now) => CheckFreshness(s, policies(binding), binding, registered, now)
    case Failure(binding, status, error, trusted) => FailRuntime(s, policies(binding), binding, status, error, trusted)
    case Unenrol(binding) => if s.health.binding == binding then s.(health := SetUnknown(s.health)) else s
    case Register(binding) => s.(health := SetUnknown(s.health.(binding := binding)))
    case Operator(key, resolve) => s.(ledger := Incidents.Step(s.ledger, policies, if resolve then Resolve(key) else Acknowledge(key)))
  }

  function Run(s: State, policies: Policies, es: seq<Event>): State
    requires forall b: int :: ValidPolicy(policies(b))
  {
    if es == [] then s else Step(Run(s, policies, es[..|es| - 1]), policies, es[|es| - 1])
  }

  function Initial(binding: int): State {
    State(EMPTY, Health(binding, Unknown, None, 0, None, None))
  }

  // ---- The ledger stays good --------------------------------------------------------------------------

  lemma {:induction false} RecordAllKeepsGood(l: Ledger, policies: Policies, binding: int, findings: seq<FindingRow>)
    requires ValidPolicies(policies) && Good(l, policies)
    ensures var after := RecordAll(l, policies(binding), binding, findings).ledger;
            Good(after, policies) && NeverLess(l, after)
    ensures RecordAll(l, policies(binding), binding, findings).all.Some? <==> findings != []
  {
    if findings != [] {
      var before, f := findings[..|findings| - 1], findings[|findings| - 1];
      RecordAllKeepsGood(l, policies, binding, before);
      hide Good, Sighting;
      SightingKeepsGood(RecordAll(l, policies(binding), binding, before).ledger, policies,
                        KeyFor(binding, f), OfFinding(f.finding), f.observed);
    }
  }

  lemma NeverLessTransitive(a: Ledger, b: Ledger, c: Ledger)
    requires NeverLess(a, b) && (NeverLess(b, c) || b == c)
    ensures NeverLess(a, c)
  {
  }

  lemma NeverLessReflexive(a: Ledger)
    ensures NeverLess(a, a)
  {
  }

  /** The ledger after a comparison: the findings recorded, then possibly a recovery. */
  lemma CompareLedger(s: State, p: Policy, binding: int, run: ComparisonRun, now: int)
    requires ValidPolicy(p)
    ensures var mid := RecordAll(s.ledger, p, binding, run.findings).ledger;
            var after := ProcessRun(s, p, binding, run, now).ledger;
            after == s.ledger || after == mid || after == SetLifecycle(mid, Recoverable(mid, binding), Resolved)
  {
    hide RecordAll, SetLifecycle, Recoverable, Most, Prefer, Classes;
  }

  lemma CompareKeepsLedger(s: State, policies: Policies, binding: int, run: ComparisonRun, now: int)
    requires ValidPolicies(policies) && Good(s.ledger, policies)
    ensures var after := ProcessRun(s, policies(binding), binding, run, now).ledger;
            Good(after, policies) && NeverLess(s.ledger, after)
  {
    hide Good, NeverLess, RecordAll, SetLifecycle, Recoverable, ProcessRun;
    var mid := RecordAll(s.ledger, policies(binding), binding, run.findings).ledger;
    CompareLedger(s, policies(binding), binding, run, now);
    RecordAllKeepsGood(s.ledger, policies, binding, run.findings);
    LifecycleKeepsGood(mid, policies, Recoverable(mid, binding), Resolved);
    NeverLessReflexive(s.ledger);
    NeverLessTransitive(s.ledger, mid, SetLifecycle(mid, Recoverable(mid, binding), Resolved));
  }

  lemma RecoverKeepsGood(l: Ledger, policies: Policies, key: Key)
    requires ValidPolicies(policies) && Good(l, policies)
    ensures Good(RecoverOne(l, key), policies) && NeverLess(l, RecoverOne(l, key))
  {
    LifecycleKeepsGood(l, policies, {key}, Resolved);
  }

  lemma StepKeepsLedger(s: State, policies: Policies, e: Event)
    requires ValidPolicies(policies) && Good(s.ledger, policies)
    ensures var after := Step(s, policies, e).ledger;
            Good(after, policies) && NeverLess(s.ledger, after)
  {
    hide Good, NeverLess, RecoverOne, ProcessRun, Sighting, Record, Prefer;
    var l := s.ledger;
    NeverLessReflexive(l);
    match e
    case Compare(binding, run, now) => CompareKeepsLedger(s, policies, binding, run, now);
    case Staleness(binding, baseline, _) =>
      SightingKeepsGood(l, policies, StaleStateKey(binding), OfStaleState(baseline), Info);
      RecoverKeepsGood(l, policies, StaleStateKey(binding));
    case Freshness(binding, registered, _) =>
      var h := Bound(s.health, binding);
      var baseline := FreshnessBaseline(h, registered);
      SightingKeepsGood(l, policies, StaleComparisonKey(binding), OfStaleComparison(baseline, h.windowEnd), Info);
      RecoverKeepsGood(l, policies, StaleComparisonKey(binding));
    case Failure(binding, status, error, trusted) =>
      Incidents.StepKeepsGood(l, policies, RuntimeFailure(binding, status, error, trusted));
    case Unenrol(_) =>
    case Register(_) =>
    case Operator(key, resolve) =>
      Incidents.StepKeepsGood(l, policies, if resolve then Resolve(key) else Acknowledge(key));
  }

  /** Over whole monitoring runs the ledger keeps its counts, links and severities. */
  lemma {:induction false} RunKeepsLedger(policies: Policies, binding: int, es: seq<Event>)
    requires ValidPolicies(policies)
    ensures Good(Run(Initial(binding), policies, es).ledger, policies)
  {
    if es != [] {
      RunKeepsLedger(policies, binding, es[..|es| - 1]);
      StepKeepsLedger(Run(Initial(binding), policies, es[..|es| - 1]), policies, es[|es| - 1]);
    }
  }

  // ---- What makes health healthy ------------------------------------------------------------------------

  /** A comparison whose window ended before the newest complete one. */
  predicate Late(h: Health, e: Event) {
    e.Compare? && h.windowEnd.Some? && e.run.windowEnd < h.windowEnd.value
  }

  /** A run whose status contradicts its findings. */
  predicate Refused(run: ComparisonRun) {
    (run.status == HealthyRun && run.findings != []) || (run.status == DivergentRun && run.findings == [])
  }

  /** A finding-free healthy run of the current window. */
  predicate HealthyCurrent(h: Health, e: Event) {
    && e.Compare? && e.run.status == HealthyRun && e.run.findings == []
    && !Late(h, e)
  }

  /** No other step makes health healthy. */
  lemma HealthyOnlyByHealthyRun(s: State, policies: Policies, e: Event)
    requires ValidPolicies(policies)
    requires s.health.level != Healthy && Step(s, policies, e).health.level == Healthy
    ensures HealthyCurrent(s.health, e)
  {
    hide RecordAll, Sighting, Record, Most, Prefer;
  }

  /** A complete run: accepted, and either healthy or divergent. */
  predicate IsComplete(e: Event) {
    e.Compare? && !Refused(e.run) && e.run.status != InsufficientRun
  }

  /** No complete run processed so far ended later than the recorded window end. */
  ghost predicate NewestWindow(h: Health, es: seq<Event>) {
    forall e :: e in es && IsComplete(e) ==> h.windowEnd.Some? && e.run.windowEnd <= h.windowEnd.value
  }

  /** The recorded window end moves only forward, to the end of a complete current run. */
  lemma StepMovesWindow(s: State, policies: Policies, e: Event)
    requires ValidPolicies(policies)
    ensures var before, after := s.health.windowEnd, Step(s, policies, e).health.windowEnd;
            && (before.Some? ==> after.Some? && before.value <= after.value)
            && (IsComplete(e) ==> after.Some? && e.run.windowEnd <= after.value)
  {
    hide RecordAll, Sighting, Record, Most, Prefer;
  }

  lemma {:induction false} RunKeepsNewestWindow(policies: Policies, binding: int, es: seq<Event>)
    requires ValidPolicies(policies)
    ensures NewestWindow(Run(Initial(binding), policies, es).health, es)
  {
    if es != [] {
      var before, e := es[..|es| - 1], es[|es| - 1];
      RunKeepsNewestWindow(policies, binding, before);
      StepMovesWindow(Run(Initial(binding), policies, before), policies, e);
      assert es == before + [e];
    }
  }

  /**
   In every run health becomes healthy only by processing a healthy run without findings whose
   window ends no earlier than any complete run processed before; incomplete coverage, freshness
   checks and failures never do it.
   */
  lemma HealthyMeansNewestEvidence(policies: Policies, binding: int, es: seq<Event>, e: Event)
    requires ValidPolicies(policies)
    requires Run(Initial(binding), policies, es).health.level != Healthy
    requires Step(Run(Initial(binding), policies, es), policies, e).health.level == Healthy
    ensures e.Compare? && e.run.status == HealthyRun && e.run.findings == []
    ensures forall d :: d in es && IsComplete(d) ==> d.run.windowEnd <= e.run.windowEnd
  {
    HealthyOnlyByHealthyRun(Run(Initial(binding), policies, es), policies, e);
    RunKeepsNewestWindow(policies, binding, es);
  }

  lemma NoClassesIffNoneOpen(l: Ledger, binding: int)
    ensures Classes(l, Recoverable(l, binding)) == {} <==> Recoverable(l, binding) == {}
  {
    if k :| k in Recoverable(l, binding) {
      assert Class(CauseOf(k), l.incidents[k].severity) in Classes(l, Recoverable(l, binding));
    }
  }

  lemma SettledLedger(l: Ledger, binding: int)
    ensures Recoverable(SetLifecycle(l, Recoverable(l, binding), Resolved), binding) == {}
  {
  }

  /**
   A current healthy run leaves health healthy exactly when it leaves none of the binding's
   incidents open, the stale-runtime one excepted; otherwise health shows the most actionable of
   them and the check is still counted.
   */
  lemma HealthyIffNothingOpen(s: State, policies: Policies, e: Event)
    requires ValidPolicies(policies) && HealthyCurrent(s.health, e)
    ensures var after := Step(s, policies, e);
            var open := Recoverable(after.ledger, e.binding);
            && (after.health.level == Healthy <==> open == {})
            && (open != {} ==>
                  && after.health.shown == Some(Most(Classes(after.ledger, open)))
                  && after.health.level == LevelOf(after.health.shown.value.cause)
                  && after.health.streak == (if Rebinds(s, e) then 0 else s.health.streak) + 1)
  {
    NoClassesIffNoneOpen(s.ledger, e.binding);
    SettledLedger(s.ledger, e.binding);
    assert RecordAll(s.ledger, policies(e.binding), e.binding, []).ledger == s.ledger;
    if Recoverable(s.ledger, e.binding) == {} {
      SameWhenNothingSet(s.ledger);
    }
    hide Recoverable, Classes, Most, SetLifecycle, RecordAll;
  }

  lemma SameWhenNothingSet(l: Ledger)
    ensures SetLifecycle(l, {}, Resolved) == l
  {
  }

  /** The classes of a run's findings, each as it stood when the finding was recorded. */
  function Seen(l: Ledger, p: Policy, binding: int, findings: seq<FindingRow>, known: bool): set<Class>
    requires ValidPolicy(p)
  {
    if findings == [] then {}
    else
      var f := findings[|findings| - 1];
      Seen(l, p, binding, findings[..|findings| - 1], known) +
      if known && f.cause == Reference then {}
      else {Classified(RecordAll(l, p, binding, findings).ledger, binding, f)}
  }

  /** The projection of a run is the most actionable class seen, over all or over known causes. */
  lemma {:induction false} ProjectionIsMostActionable(l: Ledger, p: Policy, binding: int, findings: seq<FindingRow>)
    requires ValidPolicy(p)
    ensures var r := RecordAll(l, p, binding, findings);
            && (r.all.None? <==> Seen(l, p, binding, findings, false) == {})
            && (r.all.Some? ==> IsMost(Seen(l, p, binding, findings, false), r.all.value))
            && (r.known.None? <==> Seen(l, p, binding, findings, true) == {})
            && (r.known.Some? ==> IsMost(Seen(l, p, binding, findings, true), r.known.value))
  {
    if findings != [] {
      var before, f := findings[..|findings| - 1], findings[|findings| - 1];
      ProjectionIsMostActionable(l, p, binding, before);
      var c := Classified(RecordAll(l, p, binding, findings).ledger, binding, f);
      hide Classified, RecordRow;
      PreferKeepsMost(Seen(l, p, binding, before, false), RecordAll(l, p, binding, before).all, c);
      PreferKeepsMost(Seen(l, p, binding, before, true), RecordAll(l, p, binding, before).known, c);
      hide IsMost, MoreActionable, Prefer;
    }
  }

  lemma PreferKeepsMost(classes: set<Class>, current: Option<Class>, c: Class)
    requires current.None? <==> classes == {}
    requires current.Some? ==> IsMost(classes, current.value)
    ensures IsMost(classes + {c}, Prefer(current, c))
  {
  }

  // ---- What health shows ------------------------------------------------------------------------------------

  /** A cause is shown rather than another of the same severity. */
  predicate Precedes(a: Cause, b: Cause) {
    match a
    case StrategyFailure => true
    case Runtime => b != StrategyFailure
    case StrategyBehavior => b != StrategyFailure && b != Runtime
    case Execution => b == Execution || b == DataQuality || b == Reference
    case DataQuality => b == DataQuality || b == Reference
    case Reference => b == Reference
  }

  /** Critical before warning before informational, and within a severity by cause. */
  ghost predicate TopOf(classes: iset<Class>, top: Class) {
    && top in classes
    && (top.severity == Warning ==> forall c :: c in classes ==> c.severity != Critical)
    && (top.severity == Info ==> forall c :: c in classes ==> c.severity == Info)
    && forall c :: c in classes && c.severity == top.severity ==> Precedes(top.cause, c.cause)
  }

  ghost function All(classes: set<Class>): iset<Class> { iset c | c in classes }

  lemma MostIsTop(classes: set<Class>, most: Class)
    ensures IsMost(classes, most) <==> TopOf(All(classes), most)
  {
    if most in classes {
      forall c | c in classes && c != most
        ensures MoreActionable(most, c) <==>
                  && (most.severity == Warning ==> c.severity != Critical)
                  && (most.severity == Info ==> c.severity == Info)
                  && (c.severity == most.severity ==> Precedes(most.cause, c.cause))
      {
      }
    }
  }

  /** A finding's class: its cause, with the severity of the incident whose evidence row holds it. */
  ghost predicate ClassOfFinding(l: Ledger, f: FindingRow, c: Class) {
    c.cause == f.cause && exists k :: Row(k, OfFinding(f.finding)) in l.rows && k in l.incidents && c.severity == l.incidents[k].severity
  }

  /** Some finding of the run, about coverage or not as asked, had this class when it was recorded. */
  ghost predicate SeenIn(l: Ledger, p: Policy, binding: int, findings: seq<FindingRow>, known: bool, c: Class)
    requires ValidPolicy(p)
  {
    exists i :: SeenAt(l, p, binding, findings, known, c, i)
  }

  ghost predicate SeenAt(l: Ledger, p: Policy, binding: int, findings: seq<FindingRow>, known: bool, c: Class, i: int)
    requires ValidPolicy(p)
  {
    && 0 <= i < |findings| && (known ==> findings[i].cause != Reference)
    && ClassOfFinding(RecordAll(l, p, binding, findings[..i + 1]).ledger, findings[i], c)
  }

  lemma {:induction false} LinkedHolds(rows: seq<Row>, finding: int)
    ensures LinkedIn(rows, finding).Some? ==> Row(LinkedIn(rows, finding).value, OfFinding(finding)) in rows
    ensures LinkedIn(rows, finding).None? ==> forall k :: Row(k, OfFinding(finding)) !in rows
  {
    if rows != [] {
      LinkedHolds(rows[1..], finding);
      assert rows == [rows[0]] + rows[1..];
    }
  }

  /** In a good ledger that holds the finding, its class is exactly the one computed. */
  lemma ClassifiedIff(l: Ledger, binding: int, f: FindingRow, c: Class)
    requires Counted(l) && LinkedOnce(l) && exists k :: Row(k, OfFinding(f.finding)) in l.rows
    ensures c == Classified(l, binding, f) <==> ClassOfFinding(l, f, c)
  {
    LinkedHolds(l.rows, f.finding);
    var k := LinkedIn(l.rows, f.finding).value;
    assert Row(k, OfFinding(f.finding)).key in l.incidents;
    forall other | Row(other, OfFinding(f.finding)) in l.rows ensures other == k {
      var i :| 0 <= i < |l.rows| && l.rows[i] == Row(k, OfFinding(f.finding));
      var j :| 0 <= j < |l.rows| && l.rows[j] == Row(other, OfFinding(f.finding));
    }
  }

  lemma RecordedHolds(l: Ledger, p: Policy, binding: int, f: FindingRow)
    requires ValidPolicy(p)
    ensures exists k :: Row(k, OfFinding(f.finding)) in RecordRow(l, p, binding, f).rows
  {
    SightingDecides(l, p, KeyFor(binding, f), OfFinding(f.finding), f.observed);
    var after := RecordRow(l, p, binding, f);
    if !InRows(l.rows, KeyFor(binding, f), OfFinding(f.finding)) {
      assert after.rows[|l.rows|] == Row(KeyFor(binding, f), OfFinding(f.finding));
    }
  }

  lemma {:induction false} SeenIff(l: Ledger, policies: Policies, binding: int, findings: seq<FindingRow>, known: bool, c: Class)
    requires ValidPolicies(policies) && Good(l, policies)
    ensures c in Seen(l, policies(binding), binding, findings, known) <==> SeenIn(l, policies(binding), binding, findings, known, c)
  {
    var p := policies(binding);
    if findings != [] {
      var n := |findings| - 1;
      var before, f := findings[..n], findings[n];
      SeenIff(l, policies, binding, before, known, c);
      RecordAllKeepsGood(l, policies, binding, findings);
      RecordedHolds(RecordAll(l, p, binding, before).ledger, p, binding, f);
      ClassifiedIff(RecordAll(l, p, binding, findings).ledger, binding, f, c);
      SeenInSnoc(l, p, binding, findings, known, c);
      hide SeenIn, ClassOfFinding, Classified, RecordRow, Good;
    }
  }

  lemma SeenInSnoc(l: Ledger, p: Policy, binding: int, findings: seq<FindingRow>, known: bool, c: Class)
    requires ValidPolicy(p) && findings != []
    ensures var n := |findings| - 1;
            SeenIn(l, p, binding, findings, known, c) <==>
              || SeenIn(l, p, binding, findings[..n], known, c)
              || ((known ==> findings[n].cause != Reference) && ClassOfFinding(RecordAll(l, p, binding, findings).ledger, findings[n], c))
  {
    hide SeenAt, RecordAll, ClassOfFinding;
    var n := |findings| - 1;
    forall i ensures SeenAt(l, p, binding, findings[..n], known, c, i) <==> i < n && SeenAt(l, p, binding, findings, known, c, i) {
      SeenAtPrefix(l, p, binding, findings, known, c, i);
    }
    SeenAtLast(l, p, binding, findings, known, c);
    SeenAtInside(l, p, binding, findings, known, c);
  }

  lemma SeenAtLast(l: Ledger, p: Policy, binding: int, findings: seq<FindingRow>, known: bool, c: Class)
    requires ValidPolicy(p) && findings != []
    ensures var n := |findings| - 1;
            SeenAt(l, p, binding, findings, known, c, n) <==>
              (known ==> findings[n].cause != Reference) && ClassOfFinding(RecordAll(l, p, binding, findings).ledger, findings[n], c)
  {
    hide RecordAll, ClassOfFinding;
    assert findings[..|findings|] == findings;
  }

  lemma SeenAtInside(l: Ledger, p: Policy, binding: int, findings: seq<FindingRow>, known: bool, c: Class)
    requires ValidPolicy(p)
    ensures forall i :: SeenAt(l, p, binding, findings, known, c, i) ==> 0 <= i < |findings|
  {
  }

  lemma SeenAtPrefix(l: Ledger, p: Policy, binding: int, findings: seq<FindingRow>, known: bool, c: Class, i: int)
    requires ValidPolicy(p) && findings != []
    ensures var n := |findings| - 1;
            SeenAt(l, p, binding, findings[..n], known, c, i) <==> i < n && SeenAt(l, p, binding, findings, known, c, i)
  {
    hide RecordAll, ClassOfFinding;
    var n := |findings| - 1;
    assert 0 <= i < n ==> findings[..n][..i + 1] == findings[..i + 1];
  }

  /** The classes a run shows one of. */
  ghost function ClassesSeen(l: Ledger, p: Policy, binding: int, findings: seq<FindingRow>, known: bool): iset<Class>
    requires ValidPolicy(p)
  {
    iset c: Class | SeenIn(l, p, binding, findings, known, c)
  }

  /** Health shows the top of some classes: an error for a strategy failure or the runtime, degraded otherwise. */
  ghost predicate ShowsTop(h: Health, classes: iset<Class>) {
    && h.shown.Some? && TopOf(classes, h.shown.value)
    && h.level == if h.shown.value.cause == StrategyFailure || h.shown.value.cause == Runtime then Error else Degraded
  }

  ghost predicate ShowsUnknown(h: Health) { h.level == Unknown && h.shown == None && h.streak == 0 }

  /** A current divergent run shows the top of all classes it found, and starts recovery over. */
  lemma DivergentRunShows(s: State, policies: Policies, e: Event)
    requires ValidPolicies(policies) && Good(s.ledger, policies)
    requires e.Compare? && e.run.status == DivergentRun && e.run.findings != [] && !Late(s.health, e)
    ensures var after := Step(s, policies, e).health;
            && ShowsTop(after, ClassesSeen(s.ledger, policies(e.binding), e.binding, e.run.findings, false))
            && after.streak == 0 && after.windowEnd == Some(e.run.windowEnd) && after.comparedAt == Some(e.now)
  {
    SeenClasses(s.ledger, policies, e.binding, e.run.findings, false);
    var p, recorded := policies(e.binding), RecordAll(s.ledger, policies(e.binding), e.binding, e.run.findings);
    ProjectionIsMostActionable(s.ledger, p, e.binding, e.run.findings);
    RecordAllKeepsGood(s.ledger, policies, e.binding, e.run.findings);
    MostIsTop(Seen(s.ledger, p, e.binding, e.run.findings, false), recorded.all.value);
    hide Good, RecordAll, Seen, IsMost, TopOf, ClassesSeen, HealthyCheck;
  }

  lemma SeenClasses(l: Ledger, policies: Policies, binding: int, findings: seq<FindingRow>, known: bool)
    requires ValidPolicies(policies) && Good(l, policies)
    ensures All(Seen(l, policies(binding), binding, findings, known)) == ClassesSeen(l, policies(binding), binding, findings, known)
  {
    forall c ensures c in Seen(l, policies(binding), binding, findings, known) <==>
                     c in ClassesSeen(l, policies(binding), binding, findings, known)
    {
      SeenIff(l, policies, binding, findings, known, c);
    }
  }

  /**
   A current run over incomplete coverage shows the top of the classes that are not about coverage,
   or nothing at all; it is no complete comparison.
   */
  lemma InsufficientRunShows(s: State, policies: Policies, e: Event)
    requires ValidPolicies(policies) && Good(s.ledger, policies)
    requires e.Compare? && e.run.status == InsufficientRun && !Late(s.health, e)
    ensures var after := Step(s, policies, e).health;
            && (if forall f :: f in e.run.findings ==> f.cause == Reference then ShowsUnknown(after)
                else ShowsTop(after, ClassesSeen(s.ledger, policies(e.binding), e.binding, e.run.findings, true)))
            && after.streak == 0
            && (s.health.binding == e.binding ==> after.windowEnd == s.health.windowEnd && after.comparedAt == s.health.comparedAt)
  {
    SeenClasses(s.ledger, policies, e.binding, e.run.findings, true);
    var p, recorded := policies(e.binding), RecordAll(s.ledger, policies(e.binding), e.binding, e.run.findings);
    ProjectionIsMostActionable(s.ledger, p, e.binding, e.run.findings);
    KnownIsEmptyIff(s.ledger, p, e.binding, e.run.findings);
    if recorded.known.Some? {
      MostIsTop(Seen(s.ledger, p, e.binding, e.run.findings, true), recorded.known.value);
    }
    hide Good, RecordAll, Seen, IsMost, TopOf, ClassesSeen, HealthyCheck;
  }

  lemma {:induction false} KnownIsEmptyIff(l: Ledger, p: Policy, binding: int, findings: seq<FindingRow>)
    requires ValidPolicy(p)
    ensures Seen(l, p, binding, findings, true) == {} <==> forall f :: f in findings ==> f.cause == Reference
  {
    if findings != [] {
      KnownIsEmptyIff(l, p, binding, findings[..|findings| - 1]);
      assert findings == findings[..|findings| - 1] + [findings[|findings| - 1]];
    }
  }

  /** A current healthy run before recovery shows the top of the incidents still open, and counts. */
  lemma HealthyRunShows(s: State, policies: Policies, e: Event)
    requires ValidPolicies(policies) && HealthyCurrent(s.health, e)
    ensures var after := Step(s, policies, e);
            var open := set k | k in after.ledger.incidents && k.binding == e.binding && !k.StaleStateKey? &&
                                after.ledger.incidents[k].lifecycle != Resolved;
            && after.health.streak == (if s.health.binding == e.binding then s.health.streak else 0) + 1
            && after.health.windowEnd == Some(e.run.windowEnd) && after.health.comparedAt == Some(e.now)
            && (open == {} ==> after.health.level == Healthy && after.health.shown == None)
            && (open != {} ==>
                  ShowsTop(after.health, iset k | k in open :: Class(NamedCause(k), after.ledger.incidents[k].severity)))
  {
    var after := Step(s, policies, e);
    HealthyIffNothingOpen(s, policies, e);
    StepStreak(s, policies, e);
    NoClassesIffNoneOpen(after.ledger, e.binding);
    var open := Recoverable(after.ledger, e.binding);
    SameClasses(after.ledger, open);
    if open != {} {
      MostIsTop(Classes(after.ledger, open), Most(Classes(after.ledger, open)));
    }
    assert RecordAll(s.ledger, policies(e.binding), e.binding, []).ledger == s.ledger;
    hide RecordAll, Most, IsMost, TopOf, Classes, SetLifecycle, NamedCause;
  }

  lemma SameClasses(l: Ledger, keys: set<Key>)
    requires forall k :: k in keys ==> k in l.incidents
    ensures All(Classes(l, keys)) == iset k | k in keys :: Class(NamedCause(k), l.incidents[k].severity)
  {
    assert forall k :: CauseOf(k) == NamedCause(k);
  }

  /** A late or refused run leaves health as it was, unless it was another binding's. */
  lemma LateRunShowsNothing(s: State, policies: Policies, e: Event)
    requires ValidPolicies(policies) && e.Compare? && s.health.binding == e.binding
    requires Late(s.health, e) || Refused(e.run)
    ensures Step(s, policies, e).health == s.health
  {
    hide RecordAll, HealthyCheck;
  }

  /** A stale comparison is shown unless something above it is shown already. */
  lemma StaleComparisonShows(s: State, policies: Policies, e: Event)
    requires ValidPolicies(policies) && Good(s.ledger, policies) && e.Freshness? && s.health.binding == e.binding
    ensures var after := Step(s, policies, e);
            var limit := policies(e.binding).comparisonStaleAfter;
            var since := if s.health.comparedAt.Some? then s.health.comparedAt.value else e.registered;
            if e.now - since < limit then after.health == s.health
            else
              && StaleComparisonKey(e.binding) in after.ledger.incidents
              && after.health.streak == 0
              && var stale := Class(Reference, after.ledger.incidents[StaleComparisonKey(e.binding)].severity);
                 ShowsTop(after.health, iset{stale} + if s.health.shown.Some? then iset{s.health.shown.value} else iset{})
  {
    var h, key := s.health, StaleComparisonKey(e.binding);
    var evidence := OfStaleComparison(FreshnessBaseline(h, e.registered), h.windowEnd);
    SightingDecides(s.ledger, policies(e.binding), key, evidence, Info);
    if InRows(s.ledger.rows, key, evidence) {
      assert Row(key, evidence).key in s.ledger.incidents;
    }
    hide Sighting, Good, InRows, Prefer, TopOf, SeverityRule;
    var ledger := Sighting(s.ledger, policies(e.binding), key, evidence, Info);
    PreferIsTop(h.shown, Class(Reference, IncidentSeverity(ledger, key)));
  }

  lemma PreferIsTop(current: Option<Class>, candidate: Class)
    ensures TopOf(iset{candidate} + if current.Some? then iset{current.value} else iset{}, Prefer(current, candidate))
  {
  }

  /** A stale runtime is shown as such, and a fresh one only takes that back. */
  lemma StaleRuntimeShows(s: State, policies: Policies, e: Event)
    requires ValidPolicies(policies) && e.Staleness? && s.health.binding == e.binding
    ensures var after := Step(s, policies, e);
            if e.now - e.baseline < policies(e.binding).staleAfter then
              if s.health.level == Stale then ShowsUnknown(after.health) else after.health == s.health
            else
              && after.health.level == Stale && after.health.streak == 0
              && after.health.shown.Some? && after.health.shown.value.cause == Runtime
  {
    hide Sighting;
  }

  /** A fresh runtime, and a fresh comparison, resolve their own stale incident and touch no other. */
  lemma FreshnessResolves(s: State, policies: Policies, e: Event)
    requires ValidPolicies(policies) && (e.Staleness? || e.Freshness?)
    requires e.Staleness? ==> e.now - e.baseline < policies(e.binding).staleAfter
    requires e.Freshness? ==>
               e.now - (if s.health.comparedAt.Some? then s.health.comparedAt.value else e.registered)
                 < policies(e.binding).comparisonStaleAfter
    ensures var before, after := s.ledger, Step(s, policies, e).ledger;
            var key := if e.Staleness? then StaleStateKey(e.binding) else StaleComparisonKey(e.binding);
            && after.rows == before.rows && after.incidents.Keys == before.incidents.Keys
            && forall k :: k in before.incidents ==>
                 after.incidents[k] == if k == key then before.incidents[k].(lifecycle := Resolved) else before.incidents[k]
  {
    hide Sighting;
  }

  /** A failed runtime is an error, critical if monitoring itself could not be trusted. */
  lemma FailureShows(s: State, policies: Policies, e: Event)
    requires ValidPolicies(policies) && e.Failure?
    ensures var after, p := Step(s, policies, e).health, policies(e.binding);
            && after.level == Error && after.streak == 0
            && after.shown.Some? && after.shown.value.cause == Runtime
            && (after.shown.value.severity == Critical <==> !e.trusted || p.baseline[Runtime] == Critical || p.criticalAfter == 1)
            && (after.shown.value.severity == Info <==> e.trusted && p.baseline[Runtime] == Info && p.warningAfter > 1)
  {
    hide Sighting, Record;
  }

  // ---- The recovery streak ----------------------------------------------------------------------------------

  datatype Effect = Checked | Projected | Untouched

  /** Whether a step counts as a healthy check, projects something else, or leaves health alone. */
  function EffectOf(s: State, policies: Policies, e: Event): Effect {
    match e
    case Compare(binding, run, _) =>
      if Refused(run) || Late(s.health, e) then Untouched
      else if run.status == HealthyRun then Checked
      else Projected
    case Staleness(binding, baseline, now) =>
      if now - baseline >= policies(binding).staleAfter || Bound(s.health, binding).level == Stale then Projected
      else Untouched
    case Freshness(binding, registered, now) =>
      var h := Bound(s.health, binding);
      var baseline := FreshnessBaseline(h, registered);
      if now - baseline >= policies(binding).comparisonStaleAfter then Projected else Untouched
    case Failure(_, _, _, _) => Projected
    case Unenrol(binding) => if s.health.binding == binding then Projected else Untouched
    case Register(_) => Projected
    case Operator(_, _) => Untouched
  }

  /** The step reads the projection of another binding and therefore starts it afresh. */
  predicate Rebinds(s: State, e: Event) {
    match e
    case Compare(binding, run, _) => !Refused(run) && s.health.binding != binding
    case Staleness(binding, _, _) => s.health.binding != binding
    case Freshness(binding, _, _) => s.health.binding != binding
    case Failure(binding, _, _, _) => s.health.binding != binding
    case _ => false
  }

  /** Healthy checks since health was last projected otherwise: counted from the history alone. */
  function Checks(policies: Policies, s: State, es: seq<Event>): nat
    requires forall b: int :: ValidPolicy(policies(b))
  {
    if es == [] then s.health.streak
    else
      var before := Run(s, policies, es[..|es| - 1]);
      var earlier := if Rebinds(before, es[|es| - 1]) then 0 else Checks(policies, s, es[..|es| - 1]);
      match EffectOf(before, policies, es[|es| - 1])
      case Checked => earlier + 1
      case Projected => 0
      case Untouched => earlier
  }

  lemma StepStreak(s: State, policies: Policies, e: Event)
    requires ValidPolicies(policies)
    ensures var earlier := if Rebinds(s, e) then 0 else s.health.streak;
            Step(s, policies, e).health.streak ==
              match EffectOf(s, policies, e)
              case Checked => earlier + 1
              case Projected => 0
              case Untouched => earlier
  {
    hide RecordAll, Sighting, Record, Most, Prefer, Recoverable, Classes;
  }

  /**
   The stored counter, although cleared and restored while incidents stay open, is always the
   number of current healthy runs since the last other projection.
   */
  lemma {:induction false} StreakIsHistory(policies: Policies, s: State, es: seq<Event>)
    requires ValidPolicies(policies)
    ensures Run(s, policies, es).health.streak == Checks(policies, s, es)
  {
    if es != [] {
      StreakIsHistory(policies, s, es[..|es| - 1]);
      StepStreak(Run(s, policies, es[..|es| - 1]), policies, es[|es| - 1]);
    }
  }

  // ---- Automatic recovery --------------------------------------------------------------------------------------

  predicate IsUnresolved(l: Ledger, k: Key) { k in l.incidents && l.incidents[k].lifecycle != Resolved }

  predicate IsResolved(l: Ledger, k: Key) { k in l.incidents && l.incidents[k].lifecycle == Resolved }

  lemma SightingNeverResolves(l: Ledger, p: Policy, key: Key, evidence: Evidence, observed: Severity, k: Key)
    requires ValidPolicy(p) && IsUnresolved(l, k)
    ensures IsUnresolved(Sighting(l, p, key, evidence, observed), k)
  {
    hide Known;
  }

  lemma {:induction false} RecordingNeverResolves(l: Ledger, p: Policy, binding: int, findings: seq<FindingRow>, k: Key)
    requires ValidPolicy(p) && IsUnresolved(l, k)
    ensures IsUnresolved(RecordAll(l, p, binding, findings).ledger, k)
  {
    if findings != [] {
      var before, f := findings[..|findings| - 1], findings[|findings| - 1];
      RecordingNeverResolves(l, p, binding, before, k);
      SightingNeverResolves(RecordAll(l, p, binding, before).ledger, p, KeyFor(binding, f), OfFinding(f.finding), f.observed, k);
    }
  }

  /** An unresolved incident is resolved by a step only in one of these four ways. */
  lemma HowIncidentsResolve(s: State, policies: Policies, e: Event, k: Key)
    requires ValidPolicies(policies)
    requires IsUnresolved(s.ledger, k) && IsResolved(Step(s, policies, e).ledger, k)
    ensures
      || (HealthyCurrent(s.health, e) && k.binding == e.binding && !k.StaleStateKey? &&
          Step(s, policies, e).health.streak >= policies(e.binding).recoveryChecks)
      || (e.Staleness? && k == StaleStateKey(e.binding) && e.now - e.baseline < policies(e.binding).staleAfter)
      || (e.Freshness? && k == StaleComparisonKey(e.binding) &&
          e.now - FreshnessBaseline(Bound(s.health, e.binding), e.registered) < policies(e.binding).comparisonStaleAfter)
      || (e.Operator? && e.resolve && e.key == k)
  {
    match e
    case Compare(binding, run, now) =>
      RecordingNeverResolves(s.ledger, policies(binding), binding, run.findings, k);
    case Staleness(binding, baseline, now) =>
      SightingNeverResolves(s.ledger, policies(binding), StaleStateKey(binding), OfStaleState(baseline), Info, k);
    case Freshness(binding, registered, now) =>
      var h := Bound(s.health, binding);
      var baseline := FreshnessBaseline(h, registered);
      SightingNeverResolves(s.ledger, policies(binding), StaleComparisonKey(binding), OfStaleComparison(baseline, h.windowEnd), Info, k);
    case Failure(binding, status, error, trusted) =>
      SightingNeverResolves(s.ledger, policies(binding), RuntimeKey(binding), OfRuntime(status, error), Info, k);
    case Unenrol(_) =>
    case Register(_) =>
    case Operator(key, resolve) =>
  }

  /**
   A current healthy run resolves the binding's open incidents, the stale-runtime one excepted,
   exactly when it completes the required number of checks.
   */
  lemma RecoveryIff(s: State, policies: Policies, e: Event, k: Key)
    requires ValidPolicies(policies) && HealthyCurrent(s.health, e)
    requires k in Recoverable(s.ledger, e.binding)
    ensures var checks := (if Rebinds(s, e) then 0 else s.health.streak) + 1;
            IsResolved(Step(s, policies, e).ledger, k) <==> checks >= policies(e.binding).recoveryChecks
  {
  }

  /** Over whole runs: automatic recovery comes only after the required checks in a row. */
  lemma RecoveryNeedsChecks(policies: Policies, binding: int, es: seq<Event>, e: Event, k: Key)
    requires ValidPolicies(policies) && e.Compare?
    requires IsUnresolved(Run(Initial(binding), policies, es).ledger, k)
    requires IsResolved(Step(Run(Initial(binding), policies, es), policies, e).ledger, k)
    ensures e.run.status == HealthyRun && e.run.findings == [] && k.binding == e.binding && !k.StaleStateKey?
    ensures Checks(policies, Initial(binding), es + [e]) >= policies(e.binding).recoveryChecks
  {
    HowIncidentsResolve(Run(Initial(binding), policies, es), policies, e, k);
    StreakIsHistory(policies, Initial(binding), es + [e]);
    assert (es + [e])[..|es|] == es;
  }

  // ---- Late evidence ---------------------------------------------------------------------------------------------

  /**
   New evidence starts the recovery count afresh exactly when it does not come from a late run, or
   there was nothing to reset: a late run opens its incidents but leaves the count as it was.
   */
  lemma NewEvidenceResetsIff(s: State, policies: Policies, e: Event)
    requires ValidPolicies(policies) && Step(s, policies, e).ledger.rows != s.ledger.rows
    ensures var earlier := if Rebinds(s, e) then 0 else s.health.streak;
            Step(s, policies, e).health.streak == 0 <==> !Late(s.health, e) || earlier == 0
  {
    StepStreak(s, policies, e);
    if e.Compare? {
      assert e.run.status == HealthyRun ==> RecordAll(s.ledger, policies(e.binding), e.binding, []).ledger == s.ledger;
    }
    hide RecordAll, Sighting, Record, Most, Prefer, Recoverable, Classes;
  }

  /** Two checks required: a divergence found late is resolved by the single next healthy run. */
  lemma LateFindingRecoversEarly(policies: Policies, late: FindingRow)
    requires ValidPolicies(policies) && policies(1).recoveryChecks == 2
    ensures var k := KeyFor(1, late);
            var es := [Compare(1, ComparisonRun(HealthyRun, 10, []), 100),
                       Compare(1, ComparisonRun(DivergentRun, 5, [late]), 101)];
            var e := Compare(1, ComparisonRun(HealthyRun, 11, []), 102);
            && IsUnresolved(Run(Initial(1), policies, es).ledger, k)
            && IsResolved(Step(Run(Initial(1), policies, es), policies, e).ledger, k)
  {
    var k := KeyFor(1, late);
    var e1 := Compare(1, ComparisonRun(HealthyRun, 10, []), 100);
    var e2 := Compare(1, ComparisonRun(DivergentRun, 5, [late]), 101);
    var e3 := Compare(1, ComparisonRun(HealthyRun, 11, []), 102);
    var s0 := Initial(1);
    var s1 := Step(s0, policies, e1);
    var s2 := Step(s1, policies, e2);
    RunSnoc(s0, policies, [], e1);
    RunSnoc(s0, policies, [e1], e2);
    assert [] + [e1] == [e1] && [e1] + [e2] == [e1, e2];
    FirstHealthyRun(policies);
    SingleFinding(s1.ledger, policies(1), late);
    assert k in Recoverable(s2.ledger, 1);
    RecoveryIff(s2, policies, e3, k);
  }

  lemma RunSnoc(s: State, policies: Policies, es: seq<Event>, e: Event)
    requires ValidPolicies(policies)
    ensures Run(s, policies, es + [e]) == Step(Run(s, policies, es), policies, e)
  {
    assert (es + [e])[..|es|] == es;
  }

  lemma FirstHealthyRun(policies: Policies)
    requires ValidPolicies(policies) && policies(1).recoveryChecks == 2
    ensures var s1 := Step(Initial(1), policies, Compare(1, ComparisonRun(HealthyRun, 10, []), 100));
            s1.ledger == EMPTY && s1.health.streak == 1 && s1.health.windowEnd == Some(10) && s1.health.binding == 1
  {
    assert RecordAll(EMPTY, policies(1), 1, []).ledger == EMPTY;
    assert Recoverable(EMPTY, 1) == {};
  }

  lemma SingleFinding(l: Ledger, p: Policy, f: FindingRow)
    requires ValidPolicy(p) && l == EMPTY
    ensures var after := RecordAll(l, p, 1, [f]).ledger; KeyFor(1, f) in Recoverable(after, 1)
  {
    assert [f][..0] == [];
    assert RecordAll(l, p, 1, []).ledger == l;
    assert !Known(l, KeyFor(1, f), OfFinding(f.finding));
  }

  // ---- The service in place ------------------------------------------------------------------------------------------

  lemma RecordAllSnoc(l: Ledger, p: Policy, binding: int, findings: seq<FindingRow>, i: nat)
    requires ValidPolicy(p) && i < |findings|
    ensures RecordAll(l, p, binding, findings[..i + 1]) ==
              RecordNext(RecordAll(l, p, binding, findings[..i]), p, binding, findings[i])
  {
    assert findings[..i + 1][..i] == findings[..i];
  }

  lemma RecordNone(l: Ledger, p: Policy, binding: int, findings: seq<FindingRow>)
    requires ValidPolicy(p)
    ensures RecordAll(l, p, binding, findings[..0]) == Progress(l, None, None)
    ensures findings[..|findings|] == findings
  {
    assert findings[..0] == [];
  }

  /** The incident tables and the health row of one activation, updated in place. */
  class Monitor {
    var incidents: map<Key, Incident>
    var rows: seq<Row>
    var health: Health

    function Stored(): State
      reads this
    {
      State(Ledger(incidents, rows), health)
    }

    constructor (binding: int)
      ensures Stored() == Initial(binding)
    {
      incidents, rows, health := map[], [], Health(binding, Unknown, None, 0, None, None);
    }

    /** Links one piece of evidence, creating, escalating or reopening its incident. */
    method Sight(p: Policy, key: Key, evidence: Evidence, observed: Severity)
      requires ValidPolicy(p)
      modifies `incidents, `rows
      ensures Ledger(incidents, rows) == Sighting(old(Ledger(incidents, rows)), p, key, evidence, observed)
    {
      if Known(Ledger(incidents, rows), key, evidence) {
        return;
      }
      hide Known;
      if key !in incidents {
        var severity := Worse(SeverityFor(p, CauseOf(key), 1), observed);
        incidents := incidents[key := Incident(severity, Open, 1)];
      } else {
        var incident := incidents[key];
        var count := incident.count + 1;
        var severity := Worse(incident.severity, Worse(SeverityFor(p, CauseOf(key), count), observed));
        var lifecycle := if incident.lifecycle == Resolved then Open else incident.lifecycle;
        incidents := incidents[key := Incident(severity, lifecycle, count)];
      }
      rows := rows + [Row(key, evidence)];
    }

    /** Records one finding and updates the two most actionable classes. */
    method RecordOne(p: Policy, binding: int, f: FindingRow, projection: Option<Class>, known: Option<Class>)
      returns (nextProjection: Option<Class>, nextKnown: Option<Class>)
      requires ValidPolicy(p)
      modifies `incidents, `rows
      ensures Progress(Ledger(incidents, rows), nextProjection, nextKnown) ==
                RecordNext(Progress(old(Ledger(incidents, rows)), projection, known), p, binding, f)
    {
      hide Sighting, Classified, Prefer;
      Sight(p, KeyFor(binding, f), OfFinding(f.finding), f.observed);
      var c := Classified(Ledger(incidents, rows), binding, f);
      nextProjection, nextKnown := Some(Prefer(projection, c)), known;
      if f.cause != Reference {
        nextKnown := Some(Prefer(known, c));
      }
    }

    /** Records a run's findings page by page, keeping the two most actionable classes. */
    method RecordFindings(p: Policy, binding: int, findings: seq<FindingRow>, pageSize: nat)
      returns (projection: Option<Class>, known: Option<Class>)
      requires ValidPolicy(p) && pageSize > 0
      modifies `incidents, `rows
      ensures Progress(Ledger(incidents, rows), projection, known) ==
                RecordAll(old(Ledger(incidents, rows)), p, binding, findings)
    {
      ghost var before := Ledger(incidents, rows);
      RecordNone(before, p, binding, findings);
      hide *;
      projection, known := None, None;
      var cursor := 0;
      while true
        invariant cursor <= |findings|
        invariant Progress(Ledger(incidents, rows), projection, known) == RecordAll(before, p, binding, findings[..cursor])
        decreases |findings| - cursor
      {
        var next := if cursor + pageSize < |findings| then cursor + pageSize else |findings|;
        if next == cursor {
          break;
        }
        for i := cursor to next
          invariant Progress(Ledger(incidents, rows), projection, known) == RecordAll(before, p, binding, findings[..i])
        {
          RecordAllSnoc(before, p, binding, findings, i);
          projection, known := RecordOne(p, binding, findings[i], projection, known);
        }
        var full := next - cursor == pageSize;
        cursor := next;
        if !full {
          break;
        }
      }
    }

    method RecordHealthyComparison(p: Policy, binding: int)
      requires ValidPolicy(p)
      modifies this
      ensures Stored() == HealthyCheck(old(Stored()), p, binding)
    {
      var ledger := Ledger(incidents, rows);
      health := health.(streak := health.streak + 1);
      var open := Recoverable(ledger, binding);
      if health.streak < p.recoveryChecks {
        var classes := Classes(ledger, open);
        if classes != {} {
          var recoveryCount := health.streak;
          health := SetDivergent(health, Most(classes));
          health := health.(streak := recoveryCount);
        } else {
          health := SetHealthy(health);
        }
        return;
      }
      incidents := SetLifecycle(ledger, open, Resolved).incidents;
      health := SetHealthy(health);
    }

    /** One comparison run; a contradictory one is refused and leaves everything as it was. */
    method ProcessComparisonRun(p: Policy, binding: int, run: ComparisonRun, now: int, pageSize: nat) returns (ok: bool)
      requires ValidPolicy(p) && pageSize > 0
      modifies this
      ensures ok <==> Wellformed(run)
      ensures Stored() == ProcessRun(old(Stored()), p, binding, run, now)
    {
      if !Wellformed(run) {
        return false;
      }
      ok := true;
      ghost var before := Stored();
      if health.binding != binding {
        health := SetUnknown(health.(binding := binding));
      }
      hide RecordAll, HealthyCheck;
      var projection, known := RecordFindings(p, binding, run.findings, pageSize);
      var current := health.windowEnd.None? || run.windowEnd >= health.windowEnd.value;
      if !current {
        return;
      }
      match run.status
      case HealthyRun =>
        health := Complete(health, run.windowEnd, now);
        RecordHealthyComparison(p, binding);
      case InsufficientRun =>
        if known.None? {
          health := SetUnknown(health);
        } else {
          health := SetDivergent(health, known.value);
        }
      case DivergentRun =>
        health := Complete(health, run.windowEnd, now);
        health := SetDivergent(health, if projection.Some? then projection.value else Class(Reference, Info));
    }

    method EvaluateStaleness(p: Policy, binding: int, baseline: int, now: int)
      requires ValidPolicy(p)
      modifies this
      ensures Stored() == CheckStaleness(old(Stored()), p, binding, baseline, now)
    {
      hide Sighting;
      if health.binding != binding {
        health := SetUnknown(health.(binding := binding));
      }
      if now - baseline >= p.staleAfter {
        Sight(p, StaleStateKey(binding), OfStaleState(baseline), Info);
        var severity := IncidentSeverity(Ledger(incidents, rows), StaleStateKey(binding));
        health := SetHealth(health, Stale, Class(Runtime, severity));
        return;
      }
      incidents := RecoverOne(Ledger(incidents, rows), StaleStateKey(binding)).incidents;
      if health.level == Stale {
        health := SetUnknown(health);
      }
    }

    method EvaluateComparisonFreshness(p: Policy, binding: int, registered: int, now: int)
      requires ValidPolicy(p)
      modifies this
      ensures Stored() == CheckFreshness(old(Stored()), p, binding, registered, now)
    {
      hide Sighting;
      if health.binding != binding {
        health := SetUnknown(health.(binding := binding));
      }
      var baseline := if health.comparedAt.Some? then health.comparedAt.value else registered;
      if now - baseline < p.comparisonStaleAfter {
        incidents := RecoverOne(Ledger(incidents, rows), StaleComparisonKey(binding)).incidents;
        return;
      }
      Sight(p, StaleComparisonKey(binding), OfStaleComparison(baseline, health.windowEnd), Info);
      var severity := IncidentSeverity(Ledger(incidents, rows), StaleComparisonKey(binding));
      health := SetDivergent(health, Prefer(health.shown, Class(Reference, severity)));
    }
  }
}
