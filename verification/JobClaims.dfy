/**
 One durable job row and the claims on it: aggregate refresh, gap repair, historical merge and
 export.  Workers may pause for any time and read any clock; every step below may be taken by
 any worker with any token ever issued, at any moment.
 */
module JobClaims {
  import opened Wrappers

  datatype Kind = Cagg | Gap | Merge | Export

  datatype Status = Pending | Processing | AwaitingMerge | Completed | Failed

  /** `count` is the retry count, or for exports the attempt count; `limit` is its maximum. */
  datatype Job = Job(
    status: Status,
    worker: Option<int>,
    token: Option<nat>,
    lease: Option<int>,
    nextAttempt: Option<int>,
    count: nat,
    limit: nat)

  predicate Active(job: Job) {
    job.status == Pending || job.status == Processing || job.status == AwaitingMerge
  }

  function Pow2(n: nat): (p: nat)
    ensures p >= 1
  {
    if n == 0 then 1 else 2 * Pow2(n - 1)
  }

  /** Bounded exponential backoff in seconds. */
  function RetryDelay(count: nat): (seconds: int)
    ensures 30 <= seconds <= 3600
  {
    var delay := 30 * Pow2(if count == 0 then 0 else count - 1);
    if delay < 3600 then delay else 3600
  }

  /** The expiry test of a claim: exports may be reclaimed at the deadline, the others after it. */
  predicate Expired(kind: Kind, job: Job, now: int) {
    && job.lease.Some?
    && (if kind == Export then job.lease.value <= now else job.lease.value < now)
  }

  predicate Ready(kind: Kind, job: Job, now: int, respectSchedule: bool) {
    && (kind == Export ==> job.count < job.limit)
    && ((job.status == Pending &&
         (respectSchedule ==> job.nextAttempt.None? || job.nextAttempt.value <= now))
        || (job.status == Processing && Expired(kind, job, now)))
  }

  /** The ownership predicate every later write of a claim repeats. */
  predicate Owns(job: Job, worker: int, token: nat, now: int) {
    && job.status == Processing
    && job.worker == Some(worker)
    && job.token == Some(token)
    && job.lease.Some? && job.lease.value > now
  }

  function Claimed(kind: Kind, job: Job, worker: int, token: nat, now: int, duration: int): Job {
    Job(Processing, Some(worker), Some(token), Some(now + duration), None,
        if kind == Export then job.count + 1 else job.count, job.limit)
  }

  function Finished(kind: Kind, job: Job): Job {
    var done := job.(status := Completed, token := None, lease := None, nextAttempt := None);
    if kind == Merge || kind == Export then done.(worker := None) else done
  }

  /** A failed attempt is rescheduled while the budget lasts. */
  function FailedAttempt(kind: Kind, job: Job, now: int, retryable: bool): Job {
    var count := if kind == Export then job.count else job.count + 1;
    var again := if kind == Export then count < job.limit else count <= job.limit;
    var open := Job(Pending, None, None, None, Some(now + RetryDelay(count)), count, job.limit);
    if again && (kind == Gap ==> retryable) then open else open.(status := Failed, nextAttempt := None)
  }

  function Parked(job: Job): Job {
    Job(AwaitingMerge, None, None, None, None, job.count, job.limit)
  }

  function Reopened(job: Job): Job {
    Job(Pending, None, None, None, None, job.count, job.limit)
  }

  function Reaped(job: Job): Job {
    Job(Failed, None, None, None, None, job.count, job.limit)
  }

  // ---- Runs --------------------------------------------------------------------------------

  datatype Event =
    | Claim(worker: int, now: int, duration: int, respectSchedule: bool)
    | Heartbeat(worker: int, token: nat, now: int, duration: int)
    | Complete(worker: int, token: nat, now: int)
    | Fail(worker: int, token: nat, now: int, retryable: bool)
    | Park(worker: int, token: nat, now: int)
    | Release(now: int)
    | Reopen
    | Reap(now: int)

  /**
   The row with its history: `issued` tokens 0..issued-1 have been handed out, `ended` lists the
   tokens that completed, failed or parked the job, `reopenedFailed` says whether a failed
   merge day was ever reopened.
   */
  datatype Sys = Sys(job: Job, issued: nat, ended: seq<nat>, claims: nat, reopenedFailed: bool)

  function Init(limit: nat): Sys {
    Sys(Job(Pending, None, None, None, None, 0, limit), 0, [], 0, false)
  }

  function Step(kind: Kind, s: Sys, e: Event): Sys {
    var job := s.job;
    match e
    case Claim(worker, now, duration, respect) =>
      if duration > 0 && Ready(kind, job, now, respect) then
        s.(job := Claimed(kind, job, worker, s.issued, now, duration), issued := s.issued + 1, claims := s.claims + 1)
      else s
    case Heartbeat(worker, token, now, duration) =>
      if Owns(job, worker, token, now) then s.(job := job.(lease := Some(now + duration))) else s
    case Complete(worker, token, now) =>
      if Owns(job, worker, token, now) then s.(job := Finished(kind, job), ended := s.ended + [token]) else s
    case Fail(worker, token, now, retryable) =>
      if Owns(job, worker, token, now) then
        s.(job := FailedAttempt(kind, job, now, retryable), ended := s.ended + [token])
      else s
    case Park(worker, token, now) =>
      if kind == Gap && Owns(job, worker, token, now) then
        s.(job := Parked(job), ended := s.ended + [token])
      else s
    case Release(now) =>
      if kind == Gap && job.status == AwaitingMerge then
        s.(job := job.(status := Pending, nextAttempt := Some(now)))
      else s
    case Reopen =>
      if kind == Merge && (job.status == Completed || job.status == Failed) then
        s.(job := Reopened(job), reopenedFailed := s.reopenedFailed || job.status == Failed)
      else s
    case Reap(now) =>
      if kind == Export && job.status == Processing && Expired(kind, job, now) && job.count >= job.limit then
        s.(job := Reaped(job))
      else s
  }

  function Run(kind: Kind, s: Sys, es: seq<Event>): Sys {
    if es == [] then s else Step(kind, Run(kind, s, es[..|es| - 1]), es[|es| - 1])
  }

  // ---- Fencing ----------------------------------------------------------------------------------

  ghost predicate Distinct(ts: seq<nat>) {
    forall i, j :: 0 <= i < j < |ts| ==> ts[i] != ts[j]
  }

  /** The row names at most the newest token, and no token that already ended the job. */
  ghost predicate Fenced(s: Sys) {
    && (s.job.token.Some? ==>
          && s.job.token.value + 1 == s.issued
          && s.job.token.value !in s.ended)
    && (forall t :: t in s.ended ==> t < s.issued)
    && Distinct(s.ended)
    && (s.job.status == Processing ==> s.job.token.Some? && s.job.worker.Some? && s.job.lease.Some?)
    && (s.job.status != Processing ==> s.job.token.None?)
  }

  lemma StepKeepsFenced(kind: Kind, s: Sys, e: Event)
    requires Fenced(s)
    ensures Fenced(Step(kind, s, e))
  {
  }

  lemma {:induction false} RunKeepsFenced(kind: Kind, limit: nat, es: seq<Event>)
    ensures Fenced(Run(kind, Init(limit), es))
  {
    if es != [] {
      RunKeepsFenced(kind, limit, es[..|es| - 1]);
      StepKeepsFenced(kind, Run(kind, Init(limit), es[..|es| - 1]), es[|es| - 1]);
    }
  }

  /** At any time at most one issued token owns the row, and it is the newest one. */
  lemma OneOwner(kind: Kind, limit: nat, es: seq<Event>, w1: int, t1: nat, n1: int, w2: int, t2: nat, n2: int)
    requires var job := Run(kind, Init(limit), es).job; Owns(job, w1, t1, n1) && Owns(job, w2, t2, n2)
    ensures t1 == t2 && w1 == w2 && t1 + 1 == Run(kind, Init(limit), es).issued
  {
    RunKeepsFenced(kind, limit, es);
  }

  /** A token that has lost the row never owns it again, whatever happens later. */
  lemma {:induction false} StaleTokenStaysStale(kind: Kind, s: Sys, es: seq<Event>, token: nat)
    requires Fenced(s) && token < s.issued && s.job.token != Some(token)
    ensures var after := Run(kind, s, es);
            Fenced(after) && token < after.issued && after.job.token != Some(token)
    ensures forall worker, now :: !Owns(Run(kind, s, es).job, worker, token, now)
  {
    if es != [] {
      StaleTokenStaysStale(kind, s, es[..|es| - 1], token);
      StepKeepsFenced(kind, Run(kind, s, es[..|es| - 1]), es[|es| - 1]);
    }
  }

  /** Each token ends the job at most once; the one that does is never accepted again. */
  lemma EachTokenEndsOnce(kind: Kind, limit: nat, es: seq<Event>, i: nat, j: nat)
    requires var ended := Run(kind, Init(limit), es).ended; i < j < |ended|
    ensures var s := Run(kind, Init(limit), es);
            s.ended[i] != s.ended[j] && s.job.token != Some(s.ended[i])
  {
    RunKeepsFenced(kind, limit, es);
  }

  /** A heartbeat or terminal step by anyone but the owner changes nothing, on any clock. */
  lemma NonOwnerChangesNothing(kind: Kind, s: Sys, worker: int, token: nat, now: int, duration: int, retryable: bool)
    requires !Owns(s.job, worker, token, now)
    ensures Step(kind, s, Heartbeat(worker, token, now, duration)) == s
    ensures Step(kind, s, Complete(worker, token, now)) == s
    ensures Step(kind, s, Fail(worker, token, now, retryable)) == s
    ensures Step(kind, s, Park(worker, token, now)) == s
  {
  }

  // ---- Every transition ------------------------------------------------------------------------------

  /** A claim is granted for a due pending job or an expired one, under a token never used before. */
  lemma ClaimIff(kind: Kind, s: Sys, e: Event)
    requires e.Claim?
    ensures var job := s.job;
            var due := job.status == Pending &&
                       (e.respectSchedule && job.nextAttempt.Some? ==> job.nextAttempt.value <= e.now);
            var expired := job.status == Processing && job.lease.Some? &&
                           (job.lease.value < e.now || (job.lease.value == e.now && kind == Export));
            var granted := e.duration > 0 && (due || expired) && (kind == Export ==> job.count < job.limit);
            Step(kind, s, e) ==
              if granted then
                Sys(Job(Processing, Some(e.worker), Some(s.issued), Some(e.now + e.duration), None,
                        job.count + (if kind == Export then 1 else 0), job.limit),
                    s.issued + 1, s.ended, s.claims + 1, s.reopenedFailed)
              else s
  {
  }

  /** A lease that is live on some clock cannot be claimed on that clock, whatever the kind of job. */
  lemma LiveLeaseIsNotClaimed(kind: Kind, s: Sys, e: Event)
    requires e.Claim? && s.job.status == Processing && s.job.lease.Some? && e.now < s.job.lease.value
    ensures Step(kind, s, e) == s
  {
  }

  /** What the owner's steps write; from anyone else they write nothing. */
  lemma OwnerIff(kind: Kind, s: Sys, e: Event)
    requires e.Heartbeat? || e.Complete? || e.Fail? || e.Park?
    ensures var job := s.job;
            var owner := job.status == Processing && job.worker == Some(e.worker) && job.token == Some(e.token) &&
                         job.lease.Some? && e.now < job.lease.value;
            && (!owner ==> Step(kind, s, e) == s)
            && (owner && e.Heartbeat? ==>
                  Step(kind, s, e) ==
                    s.(job := Job(Processing, job.worker, job.token, Some(e.now + e.duration), job.nextAttempt, job.count, job.limit)))
            && (owner && e.Complete? ==>
                  Step(kind, s, e) ==
                    s.(job := Job(Completed, if kind == Cagg || kind == Gap then job.worker else None, None, None, None, job.count, job.limit),
                       ended := s.ended + [e.token]))
            && (owner && e.Park? ==>
                  Step(kind, s, e) ==
                    if kind == Gap then
                      s.(job := Job(AwaitingMerge, None, None, None, None, job.count, job.limit), ended := s.ended + [e.token])
                    else s)
  {
  }

  /** A failure by the owner: rescheduled after the backoff while the budget lasts, final otherwise. */
  lemma FailureIff(kind: Kind, s: Sys, worker: int, token: nat, now: int, retryable: bool)
    requires Owns(s.job, worker, token, now)
    ensures var job := s.job;
            var count := job.count + if kind == Export then 0 else 1;
            var again := (count < job.limit || (count == job.limit && kind != Export)) && !(kind == Gap && !retryable);
            Step(kind, s, Fail(worker, token, now, retryable)) ==
              s.(job := Job(if again then Pending else Failed, None, None, None,
                            if again then Some(now + RetryDelay(count)) else None, count, job.limit),
                 ended := s.ended + [token])
  {
  }

  /** The backoff: thirty seconds at first, doubled with each further attempt, an hour at most. */
  lemma BackoffDoubles(count: nat)
    ensures RetryDelay(0) == RetryDelay(1) == 30
    ensures count > 0 ==>
              RetryDelay(count + 1) == if 2 * RetryDelay(count) < 3600 then 2 * RetryDelay(count) else 3600
  {
    assert Pow2(0) == 1;
    if count > 0 {
      assert Pow2(count) == 2 * Pow2(count - 1);
    }
  }

  /** The steps nobody has to own: release after a merge, reopening a day, reaping an exhausted export. */
  lemma ServiceStepsIff(kind: Kind, s: Sys, e: Event)
    requires e.Release? || e.Reopen? || e.Reap?
    ensures var job := s.job;
            && (e.Release? ==>
                  Step(kind, s, e) ==
                    if kind == Gap && job.status == AwaitingMerge then
                      s.(job := Job(Pending, job.worker, job.token, job.lease, Some(e.now), job.count, job.limit))
                    else s)
            && (e.Reopen? ==>
                  Step(kind, s, e) ==
                    if kind == Merge && (job.status == Completed || job.status == Failed) then
                      s.(job := Job(Pending, None, None, None, None, job.count, job.limit),
                         reopenedFailed := s.reopenedFailed || job.status == Failed)
                    else s)
            && (e.Reap? ==>
                  Step(kind, s, e) ==
                    if kind == Export && job.status == Processing && job.lease.Some? && job.lease.value <= e.now && job.limit <= job.count
                    then s.(job := Job(Failed, None, None, None, None, job.count, job.limit))
                    else s)
  {
  }

  // ---- Retry budgets --------------------------------------------------------------------------------

  ghost predicate WithinBudget(kind: Kind, s: Sys) {
    match kind
    case Cagg => Active(s.job) ==> s.job.count <= s.job.limit
    case Gap => Active(s.job) ==> s.job.count <= s.job.limit
    case Merge =>
      if s.reopenedFailed then s.job.count > s.job.limit
      else if s.job.status == Failed then s.job.count == s.job.limit + 1
      else s.job.count <= s.job.limit
    case Export =>
      && s.claims == s.job.count <= s.job.limit
      && (s.job.status == Pending ==> s.job.count < s.job.limit)
      && s.job.status != AwaitingMerge
  }

  lemma {:induction false} RunKeepsBudget(kind: Kind, limit: nat, es: seq<Event>)
    requires kind == Export ==> limit > 0
    ensures WithinBudget(kind, Run(kind, Init(limit), es))
    ensures Run(kind, Init(limit), es).job.limit == limit
    ensures kind == Cagg || kind == Merge ==> Run(kind, Init(limit), es).job.status != AwaitingMerge
  {
    if es != [] {
      RunKeepsBudget(kind, limit, es[..|es| - 1]);
      StepKeepsBudget(kind, Run(kind, Init(limit), es[..|es| - 1]), es[|es| - 1]);
      hide Step, WithinBudget;
    }
  }

  lemma StepKeepsBudget(kind: Kind, s: Sys, e: Event)
    requires WithinBudget(kind, s)
    requires kind == Cagg || kind == Merge ==> s.job.status != AwaitingMerge
    ensures WithinBudget(kind, Step(kind, s, e)) && Step(kind, s, e).job.limit == s.job.limit
    ensures kind == Cagg || kind == Merge ==> Step(kind, s, e).job.status != AwaitingMerge
  {
    hide RetryDelay;
  }

  /**
   A merge day stays within its retry budget exactly as long as no failed day has been reopened:
   reopening keeps the spent retry count.
   */
  lemma MergeBudgetIffNeverReopenedFailed(limit: nat, es: seq<Event>)
    requires Active(Run(Merge, Init(limit), es).job)
    ensures var s := Run(Merge, Init(limit), es);
            s.job.count <= s.job.limit <==> !s.reopenedFailed
  {
    RunKeepsBudget(Merge, limit, es);
  }

  /** Claimed once due and failed again, so many times: each round comes after the longest backoff. */
  function FailedRounds(n: nat): seq<Event> {
    if n == 0 then []
    else FailedRounds(n - 1) + [Claim(1, 4000 * n, 300, true)] + [Fail(1, n - 1, 4000 * n + 1, true)]
  }

  /** The row after `n` failed rounds: retries spent, and due again before the next round. */
  predicate Spent(s: Sys, limit: nat, n: nat) {
    && s.issued == n && s.job.count == n && s.job.limit == limit
    && (if n <= limit then s.job.status == Pending else s.job.status == Failed)
    && (s.job.nextAttempt.Some? ==> s.job.nextAttempt.value <= 4000 * n + 3601)
  }

  lemma OneRound(s: Sys, limit: nat, n: nat)
    requires 0 < n <= limit + 1 && Spent(s, limit, n - 1)
    ensures Spent(Step(Merge, Step(Merge, s, Claim(1, 4000 * n, 300, true)), Fail(1, n - 1, 4000 * n + 1, true)), limit, n)
  {
    hide RetryDelay;
  }

  lemma RoundsSnoc(limit: nat, n: nat)
    requires n > 0
    ensures Run(Merge, Init(limit), FailedRounds(n)) ==
              Step(Merge, Step(Merge, Run(Merge, Init(limit), FailedRounds(n - 1)), Claim(1, 4000 * n, 300, true)),
                   Fail(1, n - 1, 4000 * n + 1, true))
  {
    var before := FailedRounds(n - 1);
    RunSnoc(Merge, Init(limit), before, Claim(1, 4000 * n, 300, true));
    RunSnoc(Merge, Init(limit), before + [Claim(1, 4000 * n, 300, true)], Fail(1, n - 1, 4000 * n + 1, true));
    hide Run, Step;
  }

  lemma {:induction false} FailedRoundsSpend(limit: nat, n: nat)
    requires n <= limit + 1
    ensures Spent(Run(Merge, Init(limit), FailedRounds(n)), limit, n)
  {
    if n > 0 {
      hide *;
      FailedRoundsSpend(limit, n - 1);
      RoundsSnoc(limit, n);
      OneRound(Run(Merge, Init(limit), FailedRounds(n - 1)), limit, n);
    }
  }

  /** For every retry limit: a day that spent its retries and is reopened is active beyond them. */
  lemma ReopenedDayExceedsBudget(limit: nat)
    ensures var s := Run(Merge, Init(limit), FailedRounds(limit + 1) + [Reopen]);
            s.job.status == Pending && s.job.count == limit + 1 > s.job.limit
  {
    FailedRoundsSpend(limit, limit + 1);
    RunSnoc(Merge, Init(limit), FailedRounds(limit + 1), Reopen);
  }

  lemma RunSnoc(kind: Kind, s: Sys, es: seq<Event>, e: Event)
    ensures Run(kind, s, es + [e]) == Step(kind, Run(kind, s, es), e)
    ensures [] + [e] == [e]
  {
    assert (es + [e])[..|es|] == es;
  }

  /** From then on the first failure is final: there is no retry left. */
  lemma ReopenedDayGetsNoRetry(limit: nat, es: seq<Event>, worker: int, token: nat, now: int)
    requires Run(Merge, Init(limit), es).reopenedFailed
    requires Owns(Run(Merge, Init(limit), es).job, worker, token, now)
    ensures Step(Merge, Run(Merge, Init(limit), es), Fail(worker, token, now, true)).job.status == Failed
  {
    RunKeepsBudget(Merge, limit, es);
  }

  // ---- Exports are never stuck and never run forever ----------------------------------------------

  /** Claims made equal attempts counted, never above the maximum; a pending job has one left. */
  lemma ExportAttemptsAreClaims(limit: nat, es: seq<Event>)
    requires limit > 0
    ensures var s := Run(Export, Init(limit), es);
            && s.claims == s.job.count <= limit
            && (s.job.status == Pending ==> s.job.count < limit)
  {
    RunKeepsBudget(Export, limit, es);
  }

  /** A job that has not ended is claimable once due, owned by its live claim, or ready to be reaped. */
  lemma ExportNeverStuck(limit: nat, es: seq<Event>, now: int)
    requires limit > 0
    ensures var s := Run(Export, Init(limit), es);
            match s.job.status
            case Pending =>
              Ready(Export, s.job, if s.job.nextAttempt.Some? && s.job.nextAttempt.value > now then s.job.nextAttempt.value else now, true)
            case Processing =>
              && s.job.lease.Some? && s.job.worker.Some? && s.job.token.Some?
              && if s.job.lease.value > now then Owns(s.job, s.job.worker.value, s.job.token.value, now)
              else if s.job.count < limit then Ready(Export, s.job, now, true)
              else Step(Export, s, Reap(now)).job.status == Failed
            case AwaitingMerge => false
            case Completed => true
            case Failed => true
  {
    RunKeepsFenced(Export, limit, es);
    RunKeepsBudget(Export, limit, es);
  }

  /** Two per attempt left, plus one while a claim is open. */
  function Budget(job: Job): int {
    2 * (job.limit - job.count) + if job.status == Processing then 1 else 0
  }

  predicate Moves(s: Sys, after: Sys, e: Event) {
    !e.Heartbeat? && after.job != s.job
  }

  /** Number of claims, failures, completions and reaps that took effect. */
  function MoveCount(kind: Kind, s: Sys, es: seq<Event>): nat {
    if es == [] then 0
    else
      var before := Run(kind, s, es[..|es| - 1]);
      MoveCount(kind, s, es[..|es| - 1]) +
      if Moves(before, Step(kind, before, es[|es| - 1]), es[|es| - 1]) then 1 else 0
  }

  /** Every effective step except a heartbeat spends budget, and a heartbeat spends none. */
  lemma ExportStepSpends(s: Sys, e: Event)
    requires Fenced(s) && WithinBudget(Export, s)
    ensures var after := Step(Export, s, e);
            && (Moves(s, after, e) ==> Budget(after.job) < Budget(s.job))
            && (!Moves(s, after, e) ==> Budget(after.job) == Budget(s.job))
  {
  }

  /** So only heartbeats can repeat: at most two effective transitions per allowed attempt. */
  lemma {:induction false} ExportRunsAreBounded(limit: nat, es: seq<Event>)
    requires limit > 0
    ensures MoveCount(Export, Init(limit), es) + Budget(Run(Export, Init(limit), es).job) <= 2 * limit
    ensures MoveCount(Export, Init(limit), es) <= 2 * limit
  {
    if es != [] {
      var before := es[..|es| - 1];
      ExportRunsAreBounded(limit, before);
      RunKeepsFenced(Export, limit, before);
      RunKeepsBudget(Export, limit, before);
      ExportStepSpends(Run(Export, Init(limit), before), es[|es| - 1]);
    }
    RunKeepsBudget(Export, limit, es);
  }

  // ---- The row in place ---------------------------------------------------------------------------

  /** A job row and its transitions, each one short transaction. */
  class JobRow {
    const kind: Kind
    var status: Status
    var worker: Option<int>
    var token: Option<nat>
    var lease: Option<int>
    var nextAttempt: Option<int>
    var count: nat
    const limit: nat
    var issued: nat
    ghost var ended: seq<nat>
    ghost var claims: nat
    ghost var reopenedFailed: bool

    ghost function State(): Sys
      reads this
    {
      Sys(Row(), issued, ended, claims, reopenedFailed)
    }

    function Row(): Job
      reads this
    {
      Job(status, worker, token, lease, nextAttempt, count, limit)
    }

    constructor (kind: Kind, limit: nat)
      ensures this.kind == kind && State() == Init(limit)
    {
      this.kind, this.limit := kind, limit;
      status, worker, token, lease, nextAttempt, count := Pending, None, None, None, None, 0;
      issued, ended, claims, reopenedFailed := 0, [], 0, false;
    }

    /** Takes a due or expired job under a token never used before. */
    method ClaimJob(who: int, now: int, duration: int, respectSchedule: bool) returns (claim: Option<nat>)
      modifies this
      ensures State() == Step(kind, old(State()), Claim(who, now, duration, respectSchedule))
      ensures claim.Some? <==> State().claims == old(State()).claims + 1
      ensures claim.Some? ==> claim.value == old(issued) && token == claim && status == Processing
    {
      if duration <= 0 || !Ready(kind, Row(), now, respectSchedule) {
        return None;
      }
      claim := Some(issued);
      status := Processing;
      worker := Some(who);
      token := claim;
      lease := Some(now + duration);
      nextAttempt := None;
      if kind == Export {
        count := count + 1;
      }
      issued := issued + 1;
      claims := claims + 1;
    }

    method Renew(who: int, claim: nat, now: int, duration: int) returns (owned: bool)
      modifies `lease
      ensures owned <==> Owns(old(Row()), who, claim, now)
      ensures State() == Step(kind, old(State()), Heartbeat(who, claim, now, duration))
    {
      owned := Owns(Row(), who, claim, now);
      if owned {
        lease := Some(now + duration);
      }
    }

    method CompleteIfOwned(who: int, claim: nat, now: int) returns (owned: bool)
      modifies this
      ensures owned <==> Owns(old(Row()), who, claim, now)
      ensures State() == Step(kind, old(State()), Complete(who, claim, now))
    {
      owned := Owns(Row(), who, claim, now);
      if owned {
        status := Completed;
        token, lease, nextAttempt := None, None, None;
        if kind == Merge || kind == Export {
          worker := None;
        }
        ended := ended + [claim];
      }
    }

    method RecordFailureIfOwned(who: int, claim: nat, now: int, retryable: bool) returns (owned: bool)
      modifies this
      ensures owned <==> Owns(old(Row()), who, claim, now)
      ensures State() == Step(kind, old(State()), Fail(who, claim, now, retryable))
    {
      owned := Owns(Row(), who, claim, now);
      if !owned {
        return;
      }
      if kind != Export {
        count := count + 1;
      }
      worker, token, lease := None, None, None;
      var again := if kind == Export then count < limit else count <= limit;
      if again && (kind == Gap ==> retryable) {
        status := Pending;
        nextAttempt := Some(now + RetryDelay(count));
      } else {
        status := Failed;
        nextAttempt := None;
      }
      ended := ended + [claim];
    }

    method MarkAwaitingMergeIfOwned(who: int, claim: nat, now: int) returns (owned: bool)
      requires kind == Gap
      modifies this
      ensures owned <==> Owns(old(Row()), who, claim, now)
      ensures State() == Step(kind, old(State()), Park(who, claim, now))
    {
      owned := Owns(Row(), who, claim, now);
      if owned {
        status := AwaitingMerge;
        worker, token, lease, nextAttempt := None, None, None, None;
        ended := ended + [claim];
      }
    }

    /** Requeues a parked gap job. */
    method ReleaseParked(now: int)
      requires kind == Gap
      modifies this
      ensures State() == Step(kind, old(State()), Release(now))
    {
      if status == AwaitingMerge {
        status := Pending;
        nextAttempt := Some(now);
      }
    }

    /** Reopens an ended merge day for newly staged rows; the retry count is kept. */
    method ReopenDay()
      requires kind == Merge
      modifies this
      ensures State() == Step(kind, old(State()), Reopen)
    {
      if status == Completed || status == Failed {
        reopenedFailed := reopenedFailed || status == Failed;
        status := Pending;
        worker, token, lease, nextAttempt := None, None, None, None;
      }
    }

    /** Ends an export whose last allowed claim has expired. */
    method ReapIfExhausted(now: int) returns (reaped: bool)
      requires kind == Export
      modifies this
      ensures reaped <==> Step(kind, old(State()), Reap(now)).job != old(Row())
      ensures State() == Step(kind, old(State()), Reap(now))
    {
      reaped := status == Processing && Expired(kind, Row(), now) && count >= limit;
      if reaped {
        status := Failed;
        worker, token, lease, nextAttempt := None, None, None, None;
      }
    }
  }
}
