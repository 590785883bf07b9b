/**
 Ownership of one stream shard: a short Redis lease with a monotone counter, and the database
 fence row that each committed write is checked against.  A claim, once issued, may act again
 after any pause; the counter may be lost and restart.
 */
module ShardFencing {
  import opened Wrappers

  /** `fence` is the counter value the claim was given; `nonce` its unique claim token. */
  datatype Claim = Claim(worker: int, nonce: nat, fence: nat)

  datatype Lease = Lease(claim: Claim, expires: int)

  /** The counter and the lease key; an absent counter is zero. */
  datatype Redis = Redis(lease: Option<Lease>, counter: nat)

  predicate Live(lease: Option<Lease>, now: int) { lease.Some? && now < lease.value.expires }

  /** The acquire script: refuse while the key lives, otherwise count up and set it. */
  function AcquireScript(r: Redis, worker: int, nonce: nat, now: int, ttl: int): (Redis, Option<Claim>) {
    if Live(r.lease, now) then (r, None)
    else
      var claim := Claim(worker, nonce, r.counter + 1);
      (Redis(Some(Lease(claim, now + ttl)), r.counter + 1), Some(claim))
  }

  /** The scripts compare the claim token and the fencing token, not the worker. */
  predicate Matches(lease: Option<Lease>, claim: Claim, now: int) {
    && Live(lease, now)
    && lease.value.claim.nonce == claim.nonce
    && lease.value.claim.fence == claim.fence
  }

  function RenewScript(r: Redis, claim: Claim, now: int, ttl: int): Redis {
    if Matches(r.lease, claim, now) then r.(lease := Some(Lease(r.lease.value.claim, now + ttl))) else r
  }

  function ReleaseScript(r: Redis, claim: Claim, now: int): Redis {
    if Matches(r.lease, claim, now) then r.(lease := None) else r
  }

  /** The conflict clause of registration: a newer token, or the very same claim again. */
  predicate Admits(row: Option<Claim>, claim: Claim) {
    row.None? || row.value.fence < claim.fence || row.value == claim
  }

  function RegisterRow(row: Option<Claim>, claim: Claim): Option<Claim> {
    if Admits(row, claim) then Some(claim) else row
  }

  // ---- Runs ---------------------------------------------------------------------------------

  datatype Event =
    | Acquire(worker: int, now: int, ttl: int)
    | Renew(claim: Claim, now: int, ttl: int)
    | Release(claim: Claim, now: int)
    | RedisLoss(to: Redis)
    | Register(claim: Claim)
    | Write(claim: Claim)

  /** `rows` lists the claims that have held the fence row, `writes` the committed writes. */
  datatype Sys = Sys(
    redis: Redis, row: Option<Claim>, issued: seq<Claim>, rows: seq<Claim>, writes: seq<Claim>)

  const INIT := Sys(Redis(None, 0), None, [], [], [])

  /**
   Only claims that were issued can act; they may do so at any later time.  A loss of Redis may leave
   any keys behind: none after a restart, an older counter and lease after a failover.
   */
  function Step(s: Sys, e: Event): Sys {
    match e
    case Acquire(worker, now, ttl) =>
      var (redis, claim) := AcquireScript(s.redis, worker, |s.issued|, now, ttl);
      if claim.Some? then s.(redis := redis, issued := s.issued + [claim.value]) else s
    case Renew(claim, now, ttl) =>
      if claim in s.issued then s.(redis := RenewScript(s.redis, claim, now, ttl)) else s
    case Release(claim, now) =>
      if claim in s.issued then s.(redis := ReleaseScript(s.redis, claim, now)) else s
    case RedisLoss(to) => s.(redis := to)
    case Register(claim) =>
      if claim in s.issued && Admits(s.row, claim) then
        s.(row := RegisterRow(s.row, claim), rows := s.rows + [claim])
      else s
    case Write(claim) =>
      if claim in s.issued && s.row == Some(claim) then s.(writes := s.writes + [claim]) else s
  }

  function Run(s: Sys, es: seq<Event>): Sys {
    if es == [] then s else Step(Run(s, es[..|es| - 1]), es[|es| - 1])
  }

  // ---- Invariants -----------------------------------------------------------------------------

  /** Tokens never fall along the log, and an equal token is the same claim. */
  ghost predicate Monotone(log: seq<Claim>) {
    forall i, j :: 0 <= i < j < |log| ==>
      log[i].fence <= log[j].fence && (log[i].fence == log[j].fence ==> log[i] == log[j])
  }

  ghost predicate Below(log: seq<Claim>, claim: Claim) {
    forall c :: c in log ==> c.fence <= claim.fence && (c.fence == claim.fence ==> c == claim)
  }

  ghost predicate Safe(s: Sys) {
    && Monotone(s.rows)
    && Monotone(s.writes)
    && (s.row.None? ==> s.rows == [] && s.writes == [])
    && (s.row.Some? ==> Below(s.rows, s.row.value) && Below(s.writes, s.row.value))
    && (forall c :: c in s.writes ==> c in s.rows)
    && (s.row.Some? ==> s.row.value in s.rows)
    && (forall i :: 0 <= i < |s.issued| ==> s.issued[i].nonce == i && s.issued[i].fence > 0)
  }

  lemma StepKeepsSafe(s: Sys, e: Event)
    requires Safe(s)
    ensures Safe(Step(s, e))
  {
    hide Monotone, Below, AcquireScript, RenewScript, ReleaseScript;
    match e
    case Acquire(worker, now, ttl) =>
      IssuedIsFresh(s, worker, now, ttl);
    case Register(claim) =>
      if claim in s.issued && Admits(s.row, claim) { RegisterKeepsSafe(s, claim); }
    case Write(claim) =>
      if s.row == Some(claim) { MonotoneSnoc(s.writes, claim); }
    case _ =>
  }

  lemma IssuedIsFresh(s: Sys, worker: int, now: int, ttl: int)
    ensures var claim := AcquireScript(s.redis, worker, |s.issued|, now, ttl).1;
            claim.Some? ==> claim.value.nonce == |s.issued| && claim.value.fence > 0
  {
  }

  lemma MonotoneSnoc(log: seq<Claim>, claim: Claim)
    requires Monotone(log) && Below(log, claim)
    ensures Monotone(log + [claim]) && Below(log + [claim], claim)
  {
  }

  lemma RegisterKeepsSafe(s: Sys, claim: Claim)
    requires Safe(s) && claim in s.issued && Admits(s.row, claim)
    ensures Safe(Step(s, Register(claim)))
  {
    assert Below(s.rows, claim) && Below(s.writes, claim);
    MonotoneSnoc(s.rows, claim);
    hide Monotone, Below;
  }

  lemma {:induction false} RunKeepsSafe(s: Sys, es: seq<Event>)
    requires Safe(s)
    ensures Safe(Run(s, es))
  {
    if es != [] {
      RunKeepsSafe(s, es[..|es| - 1]);
      StepKeepsSafe(Run(s, es[..|es| - 1]), es[|es| - 1]);
    }
  }

  /** In every run the committed writes carry non-decreasing fencing tokens. */
  lemma WritesNeverRegress(es: seq<Event>, i: nat, j: nat)
    requires i <= j < |Run(INIT, es).writes|
    ensures var writes := Run(INIT, es).writes; writes[i].fence <= writes[j].fence
  {
    RunKeepsSafe(INIT, es);
  }

  /** The writes of one claim form one block: nobody else writes between two of them. */
  lemma WritesFormBlocks(es: seq<Event>, i: nat, j: nat, k: nat)
    requires i <= j <= k < |Run(INIT, es).writes|
    requires Run(INIT, es).writes[i] == Run(INIT, es).writes[k]
    ensures Run(INIT, es).writes[j] == Run(INIT, es).writes[i]
  {
    RunKeepsSafe(INIT, es);
  }

  /** A token in the fence row belongs to one claim for ever, even if the counter restarts. */
  lemma FenceTokenIsOneClaim(es: seq<Event>, c: Claim, d: Claim)
    requires c in Run(INIT, es).rows && d in Run(INIT, es).rows && c.fence == d.fence
    ensures c == d
  {
    RunKeepsSafe(INIT, es);
    var rows := Run(INIT, es).rows;
    var i :| 0 <= i < |rows| && rows[i] == c;
    var j :| 0 <= j < |rows| && rows[j] == d;
    assert i < j || j < i || i == j;
  }

  /** Every later write comes from the claim registered now or from a newer token. */
  lemma {:induction false} OlderClaimsNeverWriteAgain(s: Sys, es: seq<Event>)
    requires Safe(s) && s.row.Some?
    ensures var after := Run(s, es);
            && after.row.Some?
            && (after.row.value == s.row.value || after.row.value.fence > s.row.value.fence)
            && |s.writes| <= |after.writes| && after.writes[..|s.writes|] == s.writes
            && forall i :: |s.writes| <= i < |after.writes| ==>
                 after.writes[i] == s.row.value || after.writes[i].fence > s.row.value.fence
  {
    if es != [] {
      OlderClaimsNeverWriteAgain(s, es[..|es| - 1]);
      RunKeepsSafe(s, es[..|es| - 1]);
      var before, after := Run(s, es[..|es| - 1]), Run(s, es);
      assert after.writes[..|s.writes|] == before.writes[..|s.writes|];
    }
  }

  // ---- Every transition ---------------------------------------------------------------------------

  /** A claim holds a lease: same token, same fence, before the expiry; the worker is not compared. */
  predicate HeldBy(lease: Option<Lease>, claim: Claim, now: int) {
    && lease.Some? && now < lease.value.expires
    && lease.value.claim.nonce == claim.nonce && lease.value.claim.fence == claim.fence
  }

  /** What each step writes, and exactly when. */
  lemma StepIff(s: Sys, e: Event)
    ensures Step(s, e) ==
              match e
              case Acquire(worker, now, ttl) =>
                if s.redis.lease.Some? && now < s.redis.lease.value.expires then s
                else
                  var claim := Claim(worker, |s.issued|, s.redis.counter + 1);
                  s.(redis := Redis(Some(Lease(claim, now + ttl)), s.redis.counter + 1), issued := s.issued + [claim])
              case Renew(claim, now, ttl) =>
                if claim in s.issued && HeldBy(s.redis.lease, claim, now) then
                  s.(redis := Redis(Some(Lease(s.redis.lease.value.claim, now + ttl)), s.redis.counter))
                else s
              case Release(claim, now) =>
                if claim in s.issued && HeldBy(s.redis.lease, claim, now) then s.(redis := Redis(None, s.redis.counter)) else s
              case RedisLoss(to) => s.(redis := to)
              case Register(claim) =>
                if claim in s.issued && (s.row.None? || s.row.value.fence < claim.fence || s.row.value == claim) then
                  s.(row := Some(claim), rows := s.rows + [claim])
                else s
              case Write(claim) =>
                if claim in s.issued && s.row == Some(claim) then s.(writes := s.writes + [claim]) else s
  {
  }

  // ---- Leases -----------------------------------------------------------------------------------

  /** While a lease lives nobody else acquires, and a claim that does not hold it changes nothing. */
  lemma LiveLeaseIsExclusive(s: Sys, e: Event)
    requires s.redis.lease.Some? && !e.RedisLoss?
    requires e.Acquire? ==> Live(s.redis.lease, e.now)
    requires e.Renew? || e.Release? ==> !Matches(s.redis.lease, e.claim, e.now)
    ensures Step(s, e).redis == s.redis && Step(s, e).issued == s.issued
  {
  }

  predicate NoLoss(es: seq<Event>) {
    forall e :: e in es ==> !e.RedisLoss?
  }

  ghost predicate Counting(s: Sys) {
    && (forall i :: 0 <= i < |s.issued| ==> s.issued[i].fence == i + 1)
    && s.redis.counter == |s.issued|
    && (forall c :: c in s.rows ==> c in s.issued)
    && (s.row.Some? ==> s.row.value in s.rows)
  }

  /** While the counter survives, every new claim has a greater token than all before it. */
  lemma {:induction false} CounterOrdersClaims(es: seq<Event>)
    requires NoLoss(es)
    ensures Counting(Run(INIT, es))
  {
    if es != [] {
      assert es[|es| - 1] in es;
      CounterOrdersClaims(es[..|es| - 1]);
      var before, e := Run(INIT, es[..|es| - 1]), es[|es| - 1];
      if e.Register? {
        assert forall c :: c in Step(before, e).rows ==> c in before.rows || c == e.claim;
      }
    }
  }

  /** So a new lease holder can always register, and after that nobody older can. */
  lemma FreshHolderRegisters(es: seq<Event>, worker: int, now: int, ttl: int)
    requires NoLoss(es) && !Live(Run(INIT, es).redis.lease, now)
    ensures var s := Run(INIT, es);
            var claim := AcquireScript(s.redis, worker, |s.issued|, now, ttl).1.value;
            && Admits(s.row, claim)
            && forall c :: c in s.issued ==> !Admits(Some(claim), c)
  {
    CounterOrdersClaims(es);
  }

  /** In any state a new holder can register exactly when the counter has reached the row's token. */
  lemma HolderRegistersIff(es: seq<Event>, worker: int, now: int, ttl: int)
    requires !Live(Run(INIT, es).redis.lease, now)
    ensures var s := Run(INIT, es);
            var claim := AcquireScript(s.redis, worker, |s.issued|, now, ttl).1.value;
            Admits(s.row, claim) <==> s.row.None? || s.row.value.fence <= s.redis.counter
  {
    RunKeepsSafe(INIT, es);
    RowIsIssued(es);
  }

  lemma {:induction false} RowIsIssued(es: seq<Event>)
    ensures var s := Run(INIT, es); s.row.Some? ==> s.row.value in s.issued
  {
    if es != [] {
      RowIsIssued(es[..|es| - 1]);
    }
  }

  /** After the counter restarts, a lease holder may be unable to register. */
  lemma RestartBlocksNewHolder()
    ensures exists es, worker, now, ttl ::
              var s := Run(INIT, es);
              && !Live(s.redis.lease, now)
              && !Admits(s.row, AcquireScript(s.redis, worker, |s.issued|, now, ttl).1.value)
  {
    var first := Claim(1, 0, 1);
    var es := [Acquire(1, 0, 10), Register(first), RedisLoss(Redis(None, 0))];
    RunSnoc(INIT, [], es[0]);
    RunSnoc(INIT, [es[0]], es[1]);
    RunSnoc(INIT, [es[0], es[1]], es[2]);
    var s := Run(INIT, es);
    assert es == [es[0], es[1]] + [es[2]];
    assert s.row == Some(first) && s.redis.counter == 0;
    assert !Live(s.redis.lease, 0);
    assert !Admits(s.row, AcquireScript(s.redis, 2, |s.issued|, 0, 10).1.value);
  }

  lemma RunSnoc(s: Sys, es: seq<Event>, e: Event)
    ensures Run(s, es + [e]) == Step(Run(s, es), e)
    ensures [] + [e] == [e]
  {
    assert (es + [e])[..|es|] == es;
  }

  // ---- The stores in place ------------------------------------------------------------------------

  /** The two Redis keys of a shard. */
  class LeaseKeys {
    var lease: Option<Lease>
    var counter: nat

    function State(): Redis
      reads this
    {
      Redis(lease, counter)
    }

    constructor ()
      ensures State() == Redis(None, 0)
    {
      lease, counter := None, 0;
    }

    /** One atomic script: the counter advances only for a successful claim. */
    method Acquire(worker: int, nonce: nat, now: int, ttl: int) returns (claim: Option<Claim>)
      modifies this
      ensures (State(), claim) == AcquireScript(old(State()), worker, nonce, now, ttl)
      ensures claim.Some? <==> !Live(old(lease), now)
      ensures claim.Some? ==> claim.value.fence == old(counter) + 1
    {
      if Live(lease, now) {
        return None;
      }
      counter := counter + 1;
      claim := Some(Claim(worker, nonce, counter));
      lease := Some(Lease(claim.value, now + ttl));
    }

    method Renew(claim: Claim, now: int, ttl: int) returns (held: bool)
      modifies `lease
      ensures held <==> Matches(old(lease), claim, now)
      ensures State() == RenewScript(old(State()), claim, now, ttl)
    {
      held := Matches(lease, claim, now);
      if held {
        lease := Some(Lease(lease.value.claim, now + ttl));
      }
    }

    method Release(claim: Claim, now: int) returns (held: bool)
      modifies `lease
      ensures held <==> Matches(old(lease), claim, now)
      ensures State() == ReleaseScript(old(State()), claim, now)
    {
      held := Matches(lease, claim, now);
      if held {
        lease := None;
      }
    }
  }

  datatype FenceError = FenceLost

  /** The fence row of a shard. */
  class FenceRow {
    var row: Option<Claim>

    constructor ()
      ensures row == None
    {
      row := None;
    }

    /** One conditional upsert; true exactly when the row now is this claim. */
    method RegisterClaim(claim: Claim) returns (current: bool)
      modifies this
      ensures row == RegisterRow(old(row), claim)
      ensures current <==> Admits(old(row), claim)
      ensures current <==> row == Some(claim)
    {
      if Admits(row, claim) {
        row := Some(claim);
        return true;
      }
      return false;
    }

    /** Checked inside the write transaction, before any candle is written. */
    method AssertCurrent(claim: Claim) returns (r: Result<(), FenceError>)
      ensures r.Ok? <==> row == Some(claim)
    {
      return if row == Some(claim) then Ok(()) else Err(FenceLost);
    }
  }
}
