/**
 The shared request limiter: one Redis hash holding a token level and the time of its last
 write, evaluated atomically on Redis' own clock, with a key expiry.
 */
module TokenBucket {
  import opened Arithmetic
  import opened Wrappers

  /** The hash, and the instant at which its key expires. */
  datatype Bucket = Bucket(tokens: real, lastUpdate: real, deadline: real)

  /** Settings checked at start-up: a positive capacity and a positive refill rate. */
  datatype Limits = Limits(capacity: int, rate: real)

  predicate Positive(l: Limits) { l.capacity > 0 && l.rate > 0.0 }

  function Refilled(l: Limits, tokens: real, lastUpdate: real, now: real): real {
    MinReal(l.capacity as real, tokens + MaxReal(0.0, now - lastUpdate) * l.rate)
  }

  /** Tokens available at `now`, before any deduction; an absent key counts as full just now. */
  function Level(l: Limits, bucket: Option<Bucket>, now: real): (tokens: real)
    ensures bucket.None? ==> tokens == l.capacity as real
    ensures tokens <= l.capacity as real
  {
    if bucket.None? then Refilled(l, l.capacity as real, now, now)
    else Refilled(l, bucket.value.tokens, bucket.value.lastUpdate, now)
  }

  /** The script: an admitted request rewrites the hash and its expiry, a denied one writes nothing. */
  function Script(l: Limits, bucket: Option<Bucket>, now: real, requested: int): (Option<Bucket>, bool)
    requires Positive(l)
  {
    var tokens := Level(l, bucket, now);
    if tokens >= requested as real then
      var deadline := now + (Ceiling(l.capacity as real / l.rate) + 1) as real;
      (Some(Bucket(tokens - requested as real, now, deadline)), true)
    else (bucket, false)
  }

  /**
   A request at a Redis instant.  `gone` says that Redis has dropped the key by then: certain at
   the deadline, and possible up to one second before it, whatever its timer granularity.
   */
  datatype Request = Request(now: real, weight: int, gone: bool)

  predicate MayBeGone(bucket: Option<Bucket>, r: Request) {
    bucket.Some? ==>
      && (r.gone ==> r.now >= bucket.value.deadline - 1.0)
      && (r.now >= bucket.value.deadline ==> r.gone)
  }

  /** One call of the limiter; a weight that is not positive or can never fit is refused outright. */
  function Acquire(l: Limits, bucket: Option<Bucket>, r: Request): (Option<Bucket>, bool)
    requires Positive(l)
  {
    var seen := if r.gone then None else bucket;
    if r.weight <= 0 || r.weight > l.capacity then (seen, false) else Script(l, seen, r.now, r.weight)
  }

  /** One served request: the stored bucket before and after it, and the answer. */
  datatype Entry = Entry(request: Request, before: Option<Bucket>, after: Option<Bucket>, ok: bool)

  ghost predicate Served(l: Limits, e: Entry)
    requires Positive(l)
  {
    (e.after, e.ok) == Acquire(l, e.before, e.request)
  }

  /**
   A run from an unused key: every request served in turn on a non-decreasing clock, with key
   expiries only when they may happen.
   */
  ghost predicate Log(l: Limits, log: seq<Entry>)
    requires Positive(l)
  {
    && (forall k {:trigger Served(l, log[k])} :: 0 <= k < |log| ==>
          Served(l, log[k]) && MayBeGone(log[k].before, log[k].request))
    && (|log| > 0 ==> log[0].before == None)
    && (forall k :: 0 < k < |log| ==> log[k].before == log[k - 1].after)
    && (forall i, j :: 0 <= i < j < |log| ==> log[i].request.now <= log[j].request.now)
  }

  /** Total weight admitted by requests i..j-1. */
  function Weight(log: seq<Entry>, i: nat, j: nat): int
    requires i <= j <= |log|
  {
    if i == j then 0
    else Weight(log, i, j - 1) + if log[j - 1].ok then log[j - 1].request.weight else 0
  }

  /** What every stored bucket satisfies. */
  ghost predicate Sane(l: Limits, bucket: Option<Bucket>, now: real)
    requires Positive(l)
  {
    bucket.Some? ==>
      && bucket.value.tokens >= 0.0
      && bucket.value.lastUpdate <= now
      && bucket.value.deadline - 1.0 >= bucket.value.lastUpdate + l.capacity as real / l.rate
  }

  /** Refilled for a full cycle, a bucket is as good as an absent one. */
  lemma FullCycleRefills(l: Limits, bucket: Bucket, now: real)
    requires Positive(l) && bucket.tokens >= 0.0
    requires now >= bucket.lastUpdate + l.capacity as real / l.rate
    ensures Level(l, Some(bucket), now) == l.capacity as real
  {
    var cycle := l.capacity as real / l.rate;
    assert cycle * l.rate == l.capacity as real;
    ScaleMonotoneReal(cycle, now - bucket.lastUpdate, l.rate);
  }

  lemma AcquireKeepsSane(l: Limits, bucket: Option<Bucket>, r: Request, later: real)
    requires Positive(l) && Sane(l, bucket, r.now) && r.now <= later
    ensures Sane(l, Acquire(l, bucket, r).0, later)
  {
    CeilingBounds(l.capacity as real / l.rate);
  }

  lemma {:induction false} LogIsSane(l: Limits, log: seq<Entry>, k: nat)
    requires Positive(l) && Log(l, log) && k < |log|
    ensures Sane(l, log[k].before, if k == 0 then log[k].request.now else log[k - 1].request.now)
    ensures Sane(l, log[k].after, log[k].request.now)
  {
    if k > 0 {
      LogIsSane(l, log, k - 1);
    }
    assert Served(l, log[k]);
    AcquireKeepsSane(l, log[k].before, log[k].request, log[k].request.now);
  }

  // ---- The admission bound ------------------------------------------------------------------------

  lemma RefillGrowth(l: Limits, tokens: real, lastUpdate: real, before: real, now: real)
    requires Positive(l) && lastUpdate <= before <= now
    ensures Refilled(l, tokens, lastUpdate, now) <= Refilled(l, tokens, lastUpdate, before) + (now - before) * l.rate
  {
    SplitTime(now - before, before - lastUpdate, l.rate);
    ScaleMonotoneReal(0.0, now - before, l.rate);
    assert (now - before) + (before - lastUpdate) == now - lastUpdate;
    assert (now - lastUpdate) * l.rate == (now - before) * l.rate + (before - lastUpdate) * l.rate;
  }

  lemma SplitTime(x: real, y: real, rate: real)
    ensures (x + y) * rate == x * rate + y * rate
  {
  }

  /** Time adds at most `rate` tokens a second, and losing an expired key adds none. */
  lemma LevelGrowth(l: Limits, bucket: Option<Bucket>, r: Request, before: real)
    requires Positive(l) && Sane(l, bucket, before) && before <= r.now && MayBeGone(bucket, r)
    ensures Level(l, if r.gone then None else bucket, r.now) <= Level(l, bucket, before) + (r.now - before) * l.rate
    ensures Level(l, if r.gone then None else bucket, r.now) <= l.capacity as real
  {
    hide Refilled;
    if bucket.None? {
      ScaleMonotoneReal(0.0, r.now - before, l.rate);
    } else {
      RefillGrowth(l, bucket.value.tokens, bucket.value.lastUpdate, before, r.now);
      if r.gone {
        FullCycleRefills(l, bucket.value, r.now);
      }
    }
  }

  /** An admitted weight comes out of the level; a refused request leaves it. */
  lemma AcquireSpends(l: Limits, bucket: Option<Bucket>, r: Request)
    requires Positive(l)
    ensures var (after, ok) := Acquire(l, bucket, r);
            Level(l, after, r.now) + (if ok then r.weight as real else 0.0)
              == Level(l, if r.gone then None else bucket, r.now)
    ensures Acquire(l, bucket, r).1 ==> 0 < r.weight <= l.capacity
  {
  }

  /** What an entry admitted and what it left. */
  function Spent(e: Entry): real { if e.ok then e.request.weight as real else 0.0 }

  function Left(l: Limits, e: Entry): real { Level(l, e.after, e.request.now) }

  /** One request: what it admits, plus what is left, comes from what was there plus the refill. */
  lemma EntryPotential(l: Limits, e: Entry, before: real)
    requires Positive(l) && Served(l, e) && MayBeGone(e.before, e.request)
    requires Sane(l, e.before, before) && before <= e.request.now
    ensures Spent(e) + Left(l, e) <= l.capacity as real
    ensures Spent(e) + Left(l, e) <= Level(l, e.before, before) + (e.request.now - before) * l.rate
  {
    LevelGrowth(l, e.before, e.request, before);
    AcquireSpends(l, e.before, e.request);
  }

  lemma SplitRefill(a: real, b: real, rate: real)
    ensures (b - a) * rate == b * rate - a * rate
  {
  }

  /** The log as plain amounts: granted, left over, and refilled since the epoch. */
  datatype Tick = Tick(spent: real, left: real, refill: real)

  ghost predicate Metered(cap: real, ticks: seq<Tick>) {
    && (forall k :: 0 <= k < |ticks| ==> ticks[k].spent + ticks[k].left <= cap)
    && (forall k :: 0 < k < |ticks| ==> Follows(cap, ticks[k - 1].left, ticks[k - 1].refill, ticks[k]))
  }

  function Granted(ticks: seq<Tick>, i: nat, j: nat): real
    requires i <= j <= |ticks|
  {
    if i == j then 0.0 else Granted(ticks, i, j - 1) + ticks[j - 1].spent
  }

  lemma {:induction false} MeteredWindow(cap: real, ticks: seq<Tick>, i: nat, j: nat)
    requires Metered(cap, ticks) && i < j <= |ticks|
    ensures Granted(ticks, i, j) + ticks[j - 1].left <= cap + (ticks[j - 1].refill - ticks[i].refill)
    decreases j
  {
    if i < j - 1 {
      MeteredWindow(cap, ticks, i, j - 1);
    } else {
      assert Granted(ticks, i, i) == 0.0;
    }
  }

  function TickOf(l: Limits, e: Entry): Tick { Tick(Spent(e), Left(l, e), e.request.now * l.rate) }

  /** A tick stays within the capacity, and within what the previous one left plus the refill since. */
  ghost predicate Follows(cap: real, left: real, refill: real, t: Tick) {
    t.spent + t.left <= cap && t.spent + t.left <= left + (t.refill - refill)
  }

  lemma EntryTick(l: Limits, e: Entry, before: real)
    requires Positive(l) && Served(l, e) && MayBeGone(e.before, e.request)
    requires Sane(l, e.before, before) && before <= e.request.now
    ensures Follows(l.capacity as real, Level(l, e.before, before), before * l.rate, TickOf(l, e))
  {
    EntryPotential(l, e, before);
    SplitRefill(before, e.request.now, l.rate);
  }

  lemma LogTick(l: Limits, log: seq<Entry>, k: nat)
    requires Positive(l) && Log(l, log) && k < |log|
    ensures TickOf(l, log[k]).spent + TickOf(l, log[k]).left <= l.capacity as real
    ensures k > 0 ==> Follows(l.capacity as real, TickOf(l, log[k - 1]).left, TickOf(l, log[k - 1]).refill, TickOf(l, log[k]))
  {
    hide Level, Acquire, Sane, Served, MayBeGone;
    if k == 0 {
      EntryTick(l, log[0], log[0].request.now);
    } else {
      LogIsSane(l, log, k - 1);
      EntryTick(l, log[k], log[k - 1].request.now);
    }
  }

  lemma {:induction false} TicksOf(l: Limits, log: seq<Entry>, n: nat) returns (ticks: seq<Tick>)
    requires Positive(l) && Log(l, log) && n <= |log|
    ensures |ticks| == n && Metered(l.capacity as real, ticks)
    ensures forall k :: 0 <= k < n ==> ticks[k] == TickOf(l, log[k])
  {
    ticks := seq(n, k requires 0 <= k < n => TickOf(l, log[k]));
    forall k: nat | k < n
      ensures ticks[k].spent + ticks[k].left <= l.capacity as real
      ensures k > 0 ==> Follows(l.capacity as real, ticks[k - 1].left, ticks[k - 1].refill, ticks[k])
    {
      LogTick(l, log, k);
    }
  }

  lemma {:induction false} GrantedIsWeight(log: seq<Entry>, ticks: seq<Tick>, i: nat, j: nat)
    requires i <= j <= |ticks| <= |log|
    requires forall k :: 0 <= k < |ticks| ==> ticks[k].spent == Spent(log[k])
    ensures Granted(ticks, i, j) == Weight(log, i, j) as real
    decreases j
  {
    if i < j {
      GrantedIsWeight(log, ticks, i, j - 1);
    }
  }

  lemma SaneLevelNonNegative(l: Limits, bucket: Option<Bucket>, now: real)
    requires Positive(l) && Sane(l, bucket, now)
    ensures Level(l, bucket, now) >= 0.0
  {
    if bucket.Some? {
      ScaleMonotoneReal(0.0, now - bucket.value.lastUpdate, l.rate);
    }
  }

  /**
   Over any request sequence, denials included, the weight admitted between two requests is at
   most the capacity plus what the elapsed time refills.
   */
  lemma AdmittedWithinBound(l: Limits, log: seq<Entry>, i: nat, j: nat)
    requires Positive(l) && Log(l, log) && i < j <= |log|
    ensures Weight(log, i, j) as real
              <= l.capacity as real + (log[j - 1].request.now - log[i].request.now) * l.rate
  {
    hide Log, Weight, Left;
    WeightWithinTicks(l, log, i, j);
    FactorRefill(Weight(log, i, j) as real, l.capacity as real, l.rate,
                 log[i].request.now, log[j - 1].request.now,
                 TickOf(l, log[i]).refill, TickOf(l, log[j - 1]).refill);
  }

  lemma FactorRefill(weight: real, cap: real, rate: real, a: real, b: real, refillA: real, refillB: real)
    requires refillA == a * rate && refillB == b * rate
    requires weight <= cap + (refillB - refillA)
    ensures weight <= cap + (b - a) * rate
  {
    SplitRefill(a, b, rate);
  }

  lemma WeightWithinTicks(l: Limits, log: seq<Entry>, i: nat, j: nat)
    requires Positive(l) && Log(l, log) && i < j <= |log|
    ensures Weight(log, i, j) as real
              <= l.capacity as real + (TickOf(l, log[j - 1]).refill - TickOf(l, log[i]).refill)
  {
    var ticks := TicksOf(l, log, |log|);
    MeteredWindow(l.capacity as real, ticks, i, j);
    GrantedIsWeight(log, ticks, i, j);
    TickLeavesNonNegative(l, log, j - 1);
  }

  lemma TickLeavesNonNegative(l: Limits, log: seq<Entry>, k: nat)
    requires Positive(l) && Log(l, log) && k < |log|
    ensures TickOf(l, log[k]).left >= 0.0
  {
    LogIsSane(l, log, k);
    SaneLevelNonNegative(l, log[k].after, log[k].request.now);
  }

  /** A request is admitted exactly when its weight is valid and the refilled level covers it. */
  lemma AdmittedIff(l: Limits, bucket: Option<Bucket>, r: Request)
    requires Positive(l)
    ensures Acquire(l, bucket, r).1 <==>
              0 < r.weight <= l.capacity && Level(l, if r.gone then None else bucket, r.now) >= r.weight as real
  {
  }

  /** After one full refill cycle without a write any valid weight is admitted. */
  lemma IdleBucketAdmits(l: Limits, bucket: Option<Bucket>, r: Request)
    requires Positive(l) && 0 < r.weight <= l.capacity
    requires bucket.Some? ==>
               bucket.value.tokens >= 0.0 && r.now >= bucket.value.lastUpdate + l.capacity as real / l.rate
    ensures Acquire(l, bucket, r).1
  {
    AdmittedIff(l, bucket, r);
    if bucket.Some? && !r.gone {
      FullCycleRefills(l, bucket.value, r.now);
    }
    hide Level;
  }

  // ---- Expiry is unobservable ------------------------------------------------------------------------

  /** The two keys agree, or the expiring one is gone and the other is full again. */
  ghost predicate Agree(l: Limits, expiring: Option<Bucket>, kept: Option<Bucket>, now: real)
    requires Positive(l)
  {
    || expiring == kept
    || (expiring.None? && kept.Some? && kept.value.tokens >= 0.0 &&
        now >= kept.value.lastUpdate + l.capacity as real / l.rate)
  }

  lemma AgreeStep(l: Limits, e: Entry, k: Entry, before: real)
    requires Positive(l) && Served(l, e) && Served(l, k)
    requires k.request == e.request.(gone := false)
    requires Agree(l, e.before, k.before, before) && Sane(l, e.before, before)
    requires before <= e.request.now && MayBeGone(e.before, e.request)
    ensures e.ok == k.ok
    ensures Agree(l, e.after, k.after, e.request.now)
  {
    if k.before.Some? && (e.before != k.before || e.request.gone) {
      FullCycleRefills(l, k.before.value, e.request.now);
    }
  }

  /** The same requests, served by a key that never expires. */
  ghost predicate Unexpiring(l: Limits, log: seq<Entry>, kept: seq<Entry>)
    requires Positive(l)
  {
    && |kept| == |log|
    && (forall k :: 0 <= k < |log| ==> Served(l, kept[k]) && kept[k].request == log[k].request.(gone := false))
    && (|kept| > 0 ==> kept[0].before == None)
    && (forall k :: 0 < k < |kept| ==> kept[k].before == kept[k - 1].after)
  }

  lemma {:induction false} LogsAgree(l: Limits, log: seq<Entry>, kept: seq<Entry>, k: nat)
    requires Positive(l) && Log(l, log) && Unexpiring(l, log, kept) && k < |log|
    ensures log[k].ok == kept[k].ok
    ensures Agree(l, log[k].after, kept[k].after, log[k].request.now)
  {
    LogIsSane(l, log, k);
    if k > 0 {
      LogsAgree(l, log, kept, k - 1);
      AgreeStep(l, log[k], kept[k], log[k - 1].request.now);
    } else {
      AgreeStep(l, log[k], kept[k], log[k].request.now);
    }
  }

  /** A key with expiry admits exactly the requests that a key without expiry admits. */
  lemma ExpiryIsUnobservable(l: Limits, log: seq<Entry>, kept: seq<Entry>)
    requires Positive(l) && Log(l, log) && Unexpiring(l, log, kept)
    ensures forall k :: 0 <= k < |log| ==> log[k].ok == kept[k].ok
    ensures forall i: nat, j: nat :: i <= j <= |log| ==> Weight(log, i, j) == Weight(kept, i, j)
  {
    forall k: nat | k < |log| ensures log[k].ok == kept[k].ok {
      LogsAgree(l, log, kept, k);
    }
    forall i: nat, j: nat | i <= j <= |log| ensures Weight(log, i, j) == Weight(kept, i, j) {
      SameAnswersSameWeight(log, kept, i, j);
    }
  }

  lemma {:induction false} SameAnswersSameWeight(log: seq<Entry>, kept: seq<Entry>, i: nat, j: nat)
    requires |log| == |kept| && i <= j <= |log|
    requires forall k :: 0 <= k < |log| ==> log[k].ok == kept[k].ok && log[k].request.weight == kept[k].request.weight
    ensures Weight(log, i, j) == Weight(kept, i, j)
    decreases j
  {
    if i < j {
      SameAnswersSameWeight(log, kept, i, j - 1);
    }
  }

  // ---- The limiter in place -----------------------------------------------------------------------------

  class RateLimiter {
    const limits: Limits
    var bucket: Option<Bucket>

    constructor (limits: Limits)
      requires Positive(limits)
      ensures this.limits == limits && bucket == None
    {
      this.limits := limits;
      bucket := None;
    }

    /** Evaluates the script on the hash; only an admitted request writes. */
    method TryAcquire(r: Request) returns (ok: bool)
      requires Positive(limits)
      modifies this
      ensures (bucket, ok) == Acquire(limits, old(bucket), r)
      ensures !ok && !r.gone ==> bucket == old(bucket)
      ensures ok ==> 0 < r.weight <= limits.capacity
    {
      if r.gone {
        bucket := None;
      }
      if r.weight <= 0 || r.weight > limits.capacity {
        return false;
      }
      var tokens := limits.capacity as real;
      var lastUpdate := r.now;
      if bucket.Some? {
        tokens, lastUpdate := bucket.value.tokens, bucket.value.lastUpdate;
      }
      tokens := Refilled(limits, tokens, lastUpdate, r.now);
      assert tokens == Level(limits, bucket, r.now);
      if tokens < r.weight as real {
        return false;
      }
      tokens := tokens - r.weight as real;
      var expireTime := Ceiling(limits.capacity as real / limits.rate) + 1;
      bucket := Some(Bucket(tokens, r.now, r.now + expireTime as real));
      ok := true;
    }
  }
}
