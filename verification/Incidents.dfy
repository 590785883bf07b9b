/**
 The incident ledger of strategy monitoring: deduplicated incidents, their evidence rows, severity
 escalation, and the four recorders with acknowledge, resolve and recovery.
 */
module Incidents {
  import opened Wrappers

  datatype Severity = Info | Warning | Critical

  datatype Cause = DataQuality | Execution | StrategyBehavior | StrategyFailure | Reference | Runtime

  function Rank(s: Severity): nat {
    match s
    case Info => 0
    case Warning => 1
    case Critical => 2
  }

  /** The higher of two severities. */
  function Worse(a: Severity, b: Severity): (s: Severity)
    ensures Rank(s) >= Rank(a) && Rank(s) >= Rank(b) && (s == a || s == b)
  {
    if Rank(b) > Rank(a) then b else a
  }

  /** Baselines per cause, escalation counts, the recovery requirement and the freshness limits. */
  datatype Policy = Policy(
    baseline: map<Cause, Severity>,
    warningAfter: nat,
    criticalAfter: nat,
    recoveryChecks: nat,
    staleAfter: nat,
    comparisonStaleAfter: nat)

  predicate ValidPolicy(p: Policy) {
    && (forall c: Cause :: c in p.baseline)
    && 1 <= p.warningAfter <= p.criticalAfter
    && p.recoveryChecks >= 1
  }

  function Escalated(p: Policy, count: nat): Severity {
    if count >= p.criticalAfter then Critical
    else if count >= p.warningAfter then Warning
    else Info
  }

  function SeverityFor(p: Policy, cause: Cause, count: nat): Severity
    requires ValidPolicy(p)
  {
    if Rank(p.baseline[cause]) >= Rank(Escalated(p, count)) then p.baseline[cause] else Escalated(p, count)
  }

  /** The policy never asks for less when an incident recurs. */
  lemma SeverityIsMonotone(p: Policy, cause: Cause, count: nat, more: nat)
    requires ValidPolicy(p) && count <= more
    ensures Rank(SeverityFor(p, cause, count)) <= Rank(SeverityFor(p, cause, more))
    ensures Rank(p.baseline[cause]) <= Rank(SeverityFor(p, cause, count))
  {
  }

  /**
   What identifies an incident.  A binding fixes its reference and its policy; `discriminator`
   stands for the strategy, type, category, asset and stable values of a finding.
   */
  datatype Key =
    | FindingKey(binding: int, cause: Cause, discriminator: int)
    | RuntimeKey(binding: int)
    | StaleComparisonKey(binding: int)
    | StaleStateKey(binding: int)

  function CauseOf(key: Key): Cause {
    match key
    case FindingKey(_, cause, _) => cause
    case RuntimeKey(_) => Runtime
    case StaleComparisonKey(_) => Reference
    case StaleStateKey(_) => Runtime
  }

  datatype Evidence =
    | OfFinding(finding: int)
    | OfRuntime(status: int, error: int)
    | OfStaleComparison(baseline: int, windowEnd: Option<int>)
    | OfStaleState(lastEvaluated: int)

  datatype Lifecycle = Open | Acknowledged | Resolved

  datatype Incident = Incident(severity: Severity, lifecycle: Lifecycle, count: nat)

  datatype Row = Row(key: Key, evidence: Evidence)

  /** The incidents by key, and the append-only evidence table. */
  datatype Ledger = Ledger(incidents: map<Key, Incident>, rows: seq<Row>)

  /** A finding is linked once over all incidents; other evidence once per incident. */
  predicate Known(l: Ledger, key: Key, evidence: Evidence) {
    exists r :: r in l.rows && r.evidence == evidence && (evidence.OfFinding? || r.key == key)
  }

  /**
   One recorder: `first` is the severity of a new incident and `again` what a recurrence asks for.
   Known evidence changes nothing; new evidence reopens a resolved incident.
   */
  function Record(l: Ledger, key: Key, evidence: Evidence, first: Severity, again: Severity): Ledger {
    if Known(l, key, evidence) then l
    else if key !in l.incidents then
      Ledger(l.incidents[key := Incident(first, Open, 1)], l.rows + [Row(key, evidence)])
    else
      var stored := l.incidents[key];
      var lifecycle := if stored.lifecycle == Resolved then Open else stored.lifecycle;
      Ledger(l.incidents[key := Incident(Worse(stored.severity, again), lifecycle, stored.count + 1)],
             l.rows + [Row(key, evidence)])
  }

  /** The number of sightings an incident will have after the next one. */
  function NextCount(l: Ledger, key: Key): nat {
    if key in l.incidents then l.incidents[key].count + 1 else 1
  }

  /** A policy's demand for the next sighting, at least as high as what else was observed. */
  function Demand(p: Policy, l: Ledger, key: Key, observed: Severity): Severity
    requires ValidPolicy(p)
  {
    Worse(SeverityFor(p, CauseOf(key), NextCount(l, key)), observed)
  }

  /** A recorder under a trusted policy; findings also carry the comparison's own severity. */
  function Sighting(l: Ledger, p: Policy, key: Key, evidence: Evidence, observed: Severity): Ledger
    requires ValidPolicy(p)
  {
    Record(l, key, evidence, Demand(p, l, key, observed), Demand(p, l, key, observed))
  }

  function SetLifecycle(l: Ledger, keys: set<Key>, lifecycle: Lifecycle): Ledger {
    l.(incidents := map k | k in l.incidents :: if k in keys then l.incidents[k].(lifecycle := lifecycle) else l.incidents[k])
  }

  /** Open or acknowledged incidents of a binding. */
  function Unresolved(l: Ledger, binding: int): set<Key> {
    set k | k in l.incidents && k.binding == binding && l.incidents[k].lifecycle != Resolved
  }

  /** Those that healthy comparisons may resolve: all but the stale-runtime one. */
  function Recoverable(l: Ledger, binding: int): set<Key> {
    set k | k in Unresolved(l, binding) && !k.StaleStateKey?
  }

  // ---- Runs ---------------------------------------------------------------------------------------

  /** `trusted` says that the binding's stored policy could be validated. */
  datatype Event =
    | Finding(binding: int, cause: Cause, discriminator: int, finding: int, observed: Severity)
    | RuntimeFailure(binding: int, status: int, error: int, trusted: bool)
    | StaleComparison(binding: int, baseline: int, windowEnd: Option<int>)
    | StaleState(binding: int, lastEvaluated: int)
    | Acknowledge(key: Key)
    | Resolve(key: Key)
    | Recover(keys: set<Key>)

  type Policies = int -> Policy

  ghost predicate ValidPolicies(policies: Policies) {
    forall b: int :: ValidPolicy(policies(b))
  }

  function Step(l: Ledger, policies: Policies, e: Event): Ledger
    requires forall b: int :: ValidPolicy(policies(b))
  {
    match e
    case Finding(binding, cause, discriminator, finding, observed) =>
      Sighting(l, policies(binding), FindingKey(binding, cause, discriminator), OfFinding(finding), observed)
    case RuntimeFailure(binding, status, error, trusted) =>
      if trusted then Sighting(l, policies(binding), RuntimeKey(binding), OfRuntime(status, error), Info)
      else Record(l, RuntimeKey(binding), OfRuntime(status, error), Critical, Critical)
    case StaleComparison(binding, baseline, windowEnd) =>
      Sighting(l, policies(binding), StaleComparisonKey(binding), OfStaleComparison(baseline, windowEnd), Info)
    case StaleState(binding, lastEvaluated) =>
      Sighting(l, policies(binding), StaleStateKey(binding), OfStaleState(lastEvaluated), Info)
    case Acknowledge(key) =>
      if key in l.incidents && l.incidents[key].lifecycle == Open then SetLifecycle(l, {key}, Acknowledged) else l
    case Resolve(key) =>
      if key in l.incidents && l.incidents[key].lifecycle != Resolved then SetLifecycle(l, {key}, Resolved) else l
    case Recover(keys) => SetLifecycle(l, keys, Resolved)
  }

  function Run(l: Ledger, policies: Policies, es: seq<Event>): Ledger
    requires forall b: int :: ValidPolicy(policies(b))
  {
    if es == [] then l else Step(Run(l, policies, es[..|es| - 1]), policies, es[|es| - 1])
  }

  const EMPTY: Ledger := Ledger(map[], [])

  /** Evidence rows of an incident. */
  function Sightings(rows: seq<Row>, key: Key): nat {
    if rows == [] then 0
    else Sightings(rows[..|rows| - 1], key) + if rows[|rows| - 1].key == key then 1 else 0
  }

  // ---- What every run keeps ----------------------------------------------------------------------------

  ghost predicate Counted(l: Ledger) {
    && (forall k :: k in l.incidents ==> l.incidents[k].count == Sightings(l.rows, k) && l.incidents[k].count >= 1)
    && (forall r :: r in l.rows ==> r.key in l.incidents)
  }

  /** No row twice, and no finding in two rows. */
  ghost predicate LinkedOnce(l: Ledger) {
    forall i, j :: 0 <= i < j < |l.rows| ==>
      && l.rows[i] != l.rows[j]
      && (l.rows[i].evidence.OfFinding? ==> l.rows[i].evidence != l.rows[j].evidence)
  }

  ghost predicate SevereEnough(l: Ledger, policies: Policies)
    requires ValidPolicies(policies)
  {
    forall k :: k in l.incidents ==>
      Rank(l.incidents[k].severity) >= Rank(SeverityFor(policies(k.binding), CauseOf(k), l.incidents[k].count))
  }

  ghost predicate Good(l: Ledger, policies: Policies)
    requires ValidPolicies(policies)
  {
    Counted(l) && LinkedOnce(l) && SevereEnough(l, policies)
  }

  /** Incidents are never deleted and never become less severe or less frequent. */
  ghost predicate NeverLess(before: Ledger, after: Ledger) {
    && before.rows <= after.rows
    && forall k :: k in before.incidents ==>
         && k in after.incidents
         && Rank(after.incidents[k].severity) >= Rank(before.incidents[k].severity)
         && after.incidents[k].count >= before.incidents[k].count
  }

  lemma {:induction false} NoSightings(rows: seq<Row>, key: Key)
    requires forall r :: r in rows ==> r.key != key
    ensures Sightings(rows, key) == 0
  {
    if rows != [] {
      assert rows[|rows| - 1] in rows;
      NoSightings(rows[..|rows| - 1], key);
    }
  }

  lemma SightingsSnoc(rows: seq<Row>, r: Row, key: Key)
    ensures Sightings(rows + [r], key) == Sightings(rows, key) + if r.key == key then 1 else 0
  {
    assert (rows + [r])[..|rows|] == rows;
  }

  lemma RecordKeepsCounted(l: Ledger, key: Key, evidence: Evidence, first: Severity, again: Severity)
    requires Counted(l) && LinkedOnce(l)
    ensures Counted(Record(l, key, evidence, first, again)) && LinkedOnce(Record(l, key, evidence, first, again))
    ensures NeverLess(l, Record(l, key, evidence, first, again))
  {
    RecordCounts(l, key, evidence, first, again);
    RecordNeverLess(l, key, evidence, first, again);
    RecordLinksOnce(l, key, evidence, first, again);
  }

  lemma RecordCounts(l: Ledger, key: Key, evidence: Evidence, first: Severity, again: Severity)
    requires Counted(l)
    ensures Counted(Record(l, key, evidence, first, again))
  {
    var after := Record(l, key, evidence, first, again);
    forall k | k in after.incidents
      ensures after.incidents[k].count == Sightings(after.rows, k) && after.incidents[k].count >= 1
    {
      RecordCountsOne(l, key, evidence, first, again, k);
    }
    hide Sightings, Known;
  }

  lemma RecordCountsOne(l: Ledger, key: Key, evidence: Evidence, first: Severity, again: Severity, k: Key)
    requires Counted(l) && k in Record(l, key, evidence, first, again).incidents
    ensures var after := Record(l, key, evidence, first, again);
            after.incidents[k].count == Sightings(after.rows, k) && after.incidents[k].count >= 1
  {
    if k !in l.incidents {
      NoSightings(l.rows, k);
    }
    SightingsSnoc(l.rows, Row(key, evidence), k);
    hide Sightings, Known;
  }

  lemma RecordNeverLess(l: Ledger, key: Key, evidence: Evidence, first: Severity, again: Severity)
    ensures NeverLess(l, Record(l, key, evidence, first, again))
  {
    hide Known, Rank;
  }

  lemma RecordLinksOnce(l: Ledger, key: Key, evidence: Evidence, first: Severity, again: Severity)
    requires LinkedOnce(l)
    ensures LinkedOnce(Record(l, key, evidence, first, again))
  {
    if !Known(l, key, evidence) {
      forall i | 0 <= i < |l.rows|
        ensures l.rows[i] != Row(key, evidence)
        ensures l.rows[i].evidence.OfFinding? ==> l.rows[i].evidence != evidence
      {
        assert l.rows[i] in l.rows;
      }
    }
  }

  lemma RecordIsSevereEnough(l: Ledger, policies: Policies, key: Key, evidence: Evidence, demand: Severity)
    requires ValidPolicies(policies) && SevereEnough(l, policies)
    requires Rank(demand) >= Rank(SeverityFor(policies(key.binding), CauseOf(key), NextCount(l, key)))
    ensures SevereEnough(Record(l, key, evidence, demand, demand), policies)
  {
  }

  lemma LifecycleKeepsGood(l: Ledger, policies: Policies, keys: set<Key>, lifecycle: Lifecycle)
    requires ValidPolicies(policies) && Good(l, policies)
    ensures Good(SetLifecycle(l, keys, lifecycle), policies) && NeverLess(l, SetLifecycle(l, keys, lifecycle))
  {
  }

  lemma SightingKeepsGood(l: Ledger, policies: Policies, key: Key, evidence: Evidence, observed: Severity)
    requires ValidPolicies(policies) && Good(l, policies)
    ensures var after := Sighting(l, policies(key.binding), key, evidence, observed);
            Good(after, policies) && NeverLess(l, after)
  {
    var demand := Demand(policies(key.binding), l, key, observed);
    RecordKeepsCounted(l, key, evidence, demand, demand);
    RecordIsSevereEnough(l, policies, key, evidence, demand);
  }

  lemma NeverLessReflexive(l: Ledger)
    ensures NeverLess(l, l)
  {
  }

  lemma StepKeepsGood(l: Ledger, policies: Policies, e: Event)
    requires ValidPolicies(policies) && Good(l, policies)
    ensures Good(Step(l, policies, e), policies) && NeverLess(l, Step(l, policies, e))
  {
    NeverLessReflexive(l);
    hide Sighting, Record, SetLifecycle, Counted, LinkedOnce, SevereEnough, NeverLess;
    match e
    case Finding(binding, cause, discriminator, finding, observed) =>
      SightingKeepsGood(l, policies, FindingKey(binding, cause, discriminator), OfFinding(finding), observed);
    case RuntimeFailure(binding, status, error, trusted) =>
      if trusted {
        SightingKeepsGood(l, policies, RuntimeKey(binding), OfRuntime(status, error), Info);
      } else {
        RecordKeepsCounted(l, RuntimeKey(binding), OfRuntime(status, error), Critical, Critical);
        RecordIsSevereEnough(l, policies, RuntimeKey(binding), OfRuntime(status, error), Critical);
      }
    case StaleComparison(binding, baseline, windowEnd) =>
      SightingKeepsGood(l, policies, StaleComparisonKey(binding), OfStaleComparison(baseline, windowEnd), Info);
    case StaleState(binding, lastEvaluated) =>
      SightingKeepsGood(l, policies, StaleStateKey(binding), OfStaleState(lastEvaluated), Info);
    case Acknowledge(key) => LifecycleKeepsGood(l, policies, {key}, Acknowledged);
    case Resolve(key) => LifecycleKeepsGood(l, policies, {key}, Resolved);
    case Recover(keys) => LifecycleKeepsGood(l, policies, keys, Resolved);
  }

  /**
   In every run of the recorders with acknowledge, resolve and recovery: each incident's count is
   the number of its evidence rows, each finding is linked at most once, and the severity is at
   least what the policy asks for that count.
   */
  lemma {:induction false} RunKeepsGood(policies: Policies, es: seq<Event>)
    requires ValidPolicies(policies)
    ensures Good(Run(EMPTY, policies, es), policies)
  {
    if es != [] {
      RunKeepsGood(policies, es[..|es| - 1]);
      StepKeepsGood(Run(EMPTY, policies, es[..|es| - 1]), policies, es[|es| - 1]);
    }
  }

  /** Severity and count never fall and evidence is never rewritten, across resolve and reopen. */
  lemma {:induction false} SeverityNeverFalls(l: Ledger, policies: Policies, es: seq<Event>)
    requires ValidPolicies(policies) && Good(l, policies)
    ensures Good(Run(l, policies, es), policies) && NeverLess(l, Run(l, policies, es))
  {
    if es != [] {
      SeverityNeverFalls(l, policies, es[..|es| - 1]);
      StepKeepsGood(Run(l, policies, es[..|es| - 1]), policies, es[|es| - 1]);
    }
  }

  function KeyOf(e: Event): Key
    requires e.Finding? || e.RuntimeFailure? || e.StaleComparison? || e.StaleState?
  {
    match e
    case Finding(binding, cause, discriminator, _, _) => FindingKey(binding, cause, discriminator)
    case RuntimeFailure(binding, _, _, _) => RuntimeKey(binding)
    case StaleComparison(binding, _, _) => StaleComparisonKey(binding)
    case StaleState(binding, _) => StaleStateKey(binding)
  }

  function EvidenceOf(e: Event): Evidence
    requires e.Finding? || e.RuntimeFailure? || e.StaleComparison? || e.StaleState?
  {
    match e
    case Finding(_, _, _, finding, _) => OfFinding(finding)
    case RuntimeFailure(_, status, error, _) => OfRuntime(status, error)
    case StaleComparison(_, baseline, windowEnd) => OfStaleComparison(baseline, windowEnd)
    case StaleState(_, lastEvaluated) => OfStaleState(lastEvaluated)
  }

  // ---- What a recorder writes -------------------------------------------------------------------------

  /** The cause an incident is classified by. */
  function NamedCause(key: Key): Cause {
    if key.FindingKey? then key.cause else if key.StaleComparisonKey? then Reference else Runtime
  }

  /**
   The severity after a sighting: critical if the stored, the baseline or the observed severity is, or
   the count has reached the critical threshold; informational if all of them are and the count is
   below the warning threshold; a warning otherwise.
   */
  ghost predicate SeverityRule(l: Ledger, p: Policy, key: Key, observed: Severity, after: Incident)
    requires ValidPolicy(p)
  {
    var baseline := p.baseline[NamedCause(key)];
    && (after.severity == Critical <==>
          || (key in l.incidents && l.incidents[key].severity == Critical)
          || baseline == Critical || observed == Critical || after.count >= p.criticalAfter)
    && (after.severity == Info <==>
          && (key in l.incidents ==> l.incidents[key].severity == Info)
          && baseline == Info && observed == Info && after.count < p.warningAfter)
  }

  /** The finding, or for other evidence the same evidence of the same incident, is already in a row. */
  ghost predicate InRows(rows: seq<Row>, key: Key, evidence: Evidence) {
    if evidence.OfFinding? then exists k :: Row(k, evidence) in rows else Row(key, evidence) in rows
  }

  lemma KnownIff(l: Ledger, key: Key, evidence: Evidence)
    ensures Known(l, key, evidence) <==> InRows(l.rows, key, evidence)
  {
    if r :| r in l.rows && r.evidence == evidence && (evidence.OfFinding? || r.key == key) {
      assert r == Row(r.key, evidence);
    }
  }

  /** Everything new evidence leaves as it was, and the lifecycle and count of its own incident. */
  ghost predicate Recorded(l: Ledger, after: Ledger, key: Key, evidence: Evidence) {
    && after.rows == l.rows + [Row(key, evidence)]
    && after.incidents.Keys == l.incidents.Keys + {key}
    && (forall k :: k in l.incidents && k != key ==> after.incidents[k] == l.incidents[k])
    && after.incidents[key].count == (if key in l.incidents then l.incidents[key].count + 1 else 1)
    && after.incidents[key].lifecycle ==
         if key in l.incidents && l.incidents[key].lifecycle == Acknowledged then Acknowledged else Open
  }

  /** A sighting of known evidence changes nothing; one of new evidence is recorded by the severity rule. */
  lemma SightingDecides(l: Ledger, p: Policy, key: Key, evidence: Evidence, observed: Severity)
    requires ValidPolicy(p)
    ensures var after := Sighting(l, p, key, evidence, observed);
            if InRows(l.rows, key, evidence) then after == l
            else Recorded(l, after, key, evidence) && SeverityRule(l, p, key, observed, after.incidents[key])
  {
    KnownIff(l, key, evidence);
    hide Known, InRows;
  }

  /** Every recorder: what it writes, whatever the ledger was. */
  lemma RecorderDecides(l: Ledger, policies: Policies, e: Event)
    requires ValidPolicies(policies)
    requires e.Finding? || e.RuntimeFailure? || e.StaleComparison? || e.StaleState?
    ensures var key := KeyOf(e);
            var after := Step(l, policies, e);
            if InRows(l.rows, key, EvidenceOf(e)) then after == l
            else
              && Recorded(l, after, key, EvidenceOf(e))
              && if e.RuntimeFailure? && !e.trusted then after.incidents[key].severity == Critical
                 else SeverityRule(l, policies(e.binding), key, if e.Finding? then e.observed else Info, after.incidents[key])
  {
    KnownIff(l, KeyOf(e), EvidenceOf(e));
    SightingDecides(l, policies(e.binding), KeyOf(e), EvidenceOf(e), if e.Finding? then e.observed else Info);
    hide Known, InRows, Sighting, SeverityRule;
  }

  /** Acknowledging, resolving and recovering change lifecycles and nothing else. */
  lemma LifecycleDecides(l: Ledger, policies: Policies, e: Event)
    requires ValidPolicies(policies) && (e.Acknowledge? || e.Resolve? || e.Recover?)
    ensures var after := Step(l, policies, e);
            && after.rows == l.rows && after.incidents.Keys == l.incidents.Keys
            && forall k :: k in l.incidents ==>
                 && after.incidents[k].severity == l.incidents[k].severity
                 && after.incidents[k].count == l.incidents[k].count
                 && after.incidents[k].lifecycle ==
                      if e.Acknowledge? && k == e.key && l.incidents[k].lifecycle == Open then Acknowledged
                      else if (e.Resolve? && k == e.key) || (e.Recover? && k in e.keys) then Resolved
                      else l.incidents[k].lifecycle
  {
  }

  /**
   Delivering the same evidence again, at any later time and whatever happened in between, changes
   nothing: not the count, the severity, nor a resolution made meanwhile.
   */
  lemma RedeliveryChangesNothing(l: Ledger, policies: Policies, e: Event, between: seq<Event>)
    requires ValidPolicies(policies) && Good(l, policies)
    requires e.Finding? || e.RuntimeFailure? || e.StaleComparison? || e.StaleState?
    ensures var later := Run(Step(l, policies, e), policies, between);
            Step(later, policies, e) == later
  {
    var once := Step(l, policies, e);
    StepKeepsGood(l, policies, e);
    RecordedIsKnown(l, policies, e);
    SeverityNeverFalls(once, policies, between);
    KnownStaysKnown(once, Run(once, policies, between), KeyOf(e), EvidenceOf(e));
  }

  lemma RecordedIsKnown(l: Ledger, policies: Policies, e: Event)
    requires ValidPolicies(policies)
    requires e.Finding? || e.RuntimeFailure? || e.StaleComparison? || e.StaleState?
    ensures Known(Step(l, policies, e), KeyOf(e), EvidenceOf(e))
  {
    var after := Step(l, policies, e);
    if after != l {
      assert after.rows[|l.rows|] == Row(KeyOf(e), EvidenceOf(e));
      assert Row(KeyOf(e), EvidenceOf(e)) in after.rows;
    }
  }

  lemma KnownStaysKnown(before: Ledger, after: Ledger, key: Key, evidence: Evidence)
    requires Known(before, key, evidence) && before.rows <= after.rows
    ensures Known(after, key, evidence)
  {
    var r :| r in before.rows && r.evidence == evidence && (evidence.OfFinding? || r.key == key);
    assert r in after.rows;
  }

  /** New evidence for a resolved incident reopens it with its history: one more sighting. */
  lemma NewEvidenceReopens(l: Ledger, policies: Policies, e: Event)
    requires ValidPolicies(policies)
    requires e.Finding? || e.RuntimeFailure? || e.StaleComparison? || e.StaleState?
    requires !Known(l, KeyOf(e), EvidenceOf(e))
    ensures var after := Step(l, policies, e);
            && KeyOf(e) in after.incidents
            && after.incidents[KeyOf(e)].count == NextCount(l, KeyOf(e))
            && after.incidents[KeyOf(e)].lifecycle != Resolved
            && after.rows == l.rows + [Row(KeyOf(e), EvidenceOf(e))]
  {
  }
}
