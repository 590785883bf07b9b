/**
 Pairing of expected and observed points: chronological, first in first out within each stable
 identity.  A point's identity is its asset, its kind within the asset, and an optional signal.
 */
module Pairing {
  import opened Arithmetic
  import opened Wrappers
  import opened Sorting

  datatype Key = Key(asset: int, kind: int, signal: Option<int>)

  datatype PositionState = Flat | Long | Short

  /** What a point carries besides its identity and its time. */
  datatype Body =
    | SignalBody(position: Option<PositionState>, source: Option<int>)
    | CandleBody(open: real, high: real, low: real, close: real, volume: real, revision: Option<int>)
    | ExecutionBody(entry: bool, price: real, quantity: real, fees: Option<real>, slippage: Option<real>, source: Option<int>)
    | PositionBody(state: PositionState, exposure: Option<real>)

  datatype Point = Point(time: int, key: Key, body: Body)

  type Pair = (Point, Point)

  datatype Paired = Paired(pairs: seq<Pair>, expectedOnly: seq<Point>, observedOnly: seq<Point>)

  /** Sorting compares an absent signal with a present one and fails. */
  datatype PairingError = IncomparableSignals

  predicate SignalOrder(a: Option<int>, b: Option<int>) {
    a.None? || (b.Some? && a.value <= b.value)
  }

  predicate KeyOrder(a: Key, b: Key) {
    || a.asset < b.asset
    || (a.asset == b.asset && (a.kind < b.kind || (a.kind == b.kind && SignalOrder(a.signal, b.signal))))
  }

  /** By time, then by identity. */
  predicate InOrder(a: Point, b: Point) {
    a.time < b.time || (a.time == b.time && KeyOrder(a.key, b.key))
  }

  /** Two points whose sort keys tie up to the signal, one with a signal and one without. */
  predicate Clash(a: Point, b: Point) {
    && a.time == b.time && a.key.asset == b.key.asset && a.key.kind == b.key.kind
    && a.key.signal.None? && b.key.signal.Some?
  }

  predicate Comparable(points: seq<Point>) {
    forall a, b :: a in points && b in points ==> !Clash(a, b)
  }

  function Ordered(points: seq<Point>): seq<Point> { Sort(points, InOrder) }

  /** The points of one identity, in list order. */
  function Of(points: seq<Point>, key: Key): seq<Point> {
    if points == [] then []
    else if points[0].key == key then [points[0]] + Of(points[1..], key)
    else Of(points[1..], key)
  }

  /** Those among the first `n`. */
  function Upto(points: seq<Point>, n: nat, key: Key): seq<Point>
    requires n <= |points|
  {
    if n == 0 then []
    else if points[n - 1].key == key then Upto(points, n - 1, key) + [points[n - 1]]
    else Upto(points, n - 1, key)
  }

  /** How many earlier points share the identity of the one at `i`. */
  function Rank(points: seq<Point>, i: nat): nat
    requires i < |points|
  {
    |Upto(points, i, points[i].key)|
  }

  /** Of the first `n` ordered points, those with a partner, each with the partner of its rank. */
  function Matched(points: seq<Point>, others: seq<Point>, n: nat): seq<Pair>
    requires n <= |points|
  {
    if n == 0 then []
    else
      var p, candidates, earlier := points[n - 1], Of(others, points[n - 1].key), Matched(points, others, n - 1);
      if Rank(points, n - 1) < |candidates| then earlier + [(p, candidates[Rank(points, n - 1)])] else earlier
  }

  /** Those of the first `n` ordered points for which no partner is left. */
  function Unmatched(points: seq<Point>, others: seq<Point>, n: nat): seq<Point>
    requires n <= |points|
  {
    if n == 0 then []
    else
      var earlier := Unmatched(points, others, n - 1);
      if Rank(points, n - 1) < |Of(others, points[n - 1].key)| then earlier else earlier + [points[n - 1]]
  }

  /** What pairing must return. */
  function PairUp(expected: seq<Point>, observed: seq<Point>): Paired {
    var es, os := Ordered(expected), Ordered(observed);
    Paired(Matched(es, os, |es|), Unmatched(es, os, |es|), Unmatched(os, es, |os|))
  }

  // ---- Points of one identity --------------------------------------------------------------------

  lemma OrderIsTotal()
    ensures TotalPreorder(InOrder)
  {
  }

  lemma {:induction false} OfAppend(a: seq<Point>, b: seq<Point>, key: Key)
    ensures Of(a + b, key) == Of(a, key) + Of(b, key)
  {
    if a == [] {
      assert a + b == b;
    } else {
      OfAppend(a[1..], b, key);
      assert (a + b)[1..] == a[1..] + b;
    }
  }

  lemma OfPush(points: seq<Point>, p: Point, key: Key)
    ensures Of(points + [p], key) == if p.key == key then Of(points, key) + [p] else Of(points, key)
  {
    OfAppend(points, [p], key);
    assert Of([p][1..], key) == [];
  }

  lemma {:induction false} UptoIsOf(points: seq<Point>, n: nat, key: Key)
    requires n <= |points|
    ensures Upto(points, n, key) == Of(points[..n], key)
    ensures points[..|points|] == points
  {
    if n > 0 {
      UptoIsOf(points, n - 1, key);
      assert points[..n] == points[..n - 1] + [points[n - 1]];
      OfPush(points[..n - 1], points[n - 1], key);
    }
  }

  lemma {:induction false} OfElements(points: seq<Point>, key: Key, p: Point)
    ensures multiset(Of(points, key))[p] == if p.key == key then multiset(points)[p] else 0
  {
    if points != [] {
      OfElements(points[1..], key, p);
      assert points == [points[0]] + points[1..];
    }
  }

  lemma OfMember(points: seq<Point>, key: Key, p: Point)
    ensures p in Of(points, key) <==> p in points && p.key == key
  {
    OfElements(points, key, p);
    assert p in multiset(Of(points, key)) <==> p in Of(points, key);
    assert p in multiset(points) <==> p in points;
  }

  lemma SameElementsSameOf(a: seq<Point>, b: seq<Point>, key: Key)
    requires multiset(a) == multiset(b)
    ensures multiset(Of(a, key)) == multiset(Of(b, key))
    ensures |Of(a, key)| == |Of(b, key)|
  {
    forall p ensures multiset(Of(a, key))[p] == multiset(Of(b, key))[p] {
      OfElements(a, key, p);
      OfElements(b, key, p);
    }
    assert multiset(Of(a, key)) == multiset(Of(b, key));
    assert |multiset(Of(a, key))| == |Of(a, key)|;
  }

  lemma {:induction false} OfSorted(points: seq<Point>, key: Key)
    requires Sorted(points, InOrder)
    ensures Sorted(Of(points, key), InOrder)
  {
    if points != [] {
      OfSorted(points[1..], key);
      forall p | p in Of(points[1..], key) ensures InOrder(points[0], p) {
        OfMember(points[1..], key, p);
      }
    }
  }

  /** One list as a multiset, identity by identity. */
  lemma AssembledByKey(points: seq<Point>, a: seq<Point>, b: seq<Point>)
    requires forall key :: multiset(Of(points, key)) == multiset(Of(a, key)) + multiset(Of(b, key))
    ensures multiset(points) == multiset(a) + multiset(b)
  {
    forall p ensures multiset(points)[p] == multiset(a)[p] + multiset(b)[p] {
      OfElements(points, p.key, p);
      OfElements(a, p.key, p);
      OfElements(b, p.key, p);
    }
  }

  // ---- What the pairing is, identity by identity ----------------------------------------------------

  function Firsts(pairs: seq<Pair>): seq<Point> {
    if pairs == [] then [] else [pairs[0].0] + Firsts(pairs[1..])
  }

  function Seconds(pairs: seq<Pair>): seq<Point> {
    if pairs == [] then [] else [pairs[0].1] + Seconds(pairs[1..])
  }

  predicate SameKeys(pairs: seq<Pair>) {
    forall i :: 0 <= i < |pairs| ==> pairs[i].0.key == pairs[i].1.key
  }

  lemma {:induction false} FirstsSnoc(pairs: seq<Pair>, p: Pair)
    ensures Firsts(pairs + [p]) == Firsts(pairs) + [p.0]
    ensures Seconds(pairs + [p]) == Seconds(pairs) + [p.1]
  {
    if pairs != [] {
      FirstsSnoc(pairs[1..], p);
      assert (pairs + [p])[1..] == pairs[1..] + [p];
    }
  }

  predicate Prefix(taken: seq<Point>, all: seq<Point>, k: nat) { k <= |all| && taken == all[..k] }

  predicate Suffix(left: seq<Point>, all: seq<Point>, k: nat) { k <= |all| && left == all[k..] }

  /** Pushing a point for which a partner is left. */
  lemma PushMatched(taken: seq<Point>, left: seq<Point>, mine: seq<Point>, p: Point, bound: nat)
    requires |mine| < bound
    ensures Prefix(taken, mine, Min(|mine|, bound)) ==> Prefix(taken + [p], mine + [p], Min(|mine + [p]|, bound))
    ensures Suffix(left, mine, Min(|mine|, bound)) ==> Suffix(left, mine + [p], Min(|mine + [p]|, bound))
  {
  }

  /** Pushing a point for which none is. */
  lemma PushLeft(taken: seq<Point>, left: seq<Point>, mine: seq<Point>, p: Point, bound: nat)
    requires |mine| >= bound
    ensures Prefix(taken, mine, Min(|mine|, bound)) ==> Prefix(taken, mine + [p], Min(|mine + [p]|, bound))
    ensures Suffix(left, mine, Min(|mine|, bound)) ==> Suffix(left + [p], mine + [p], Min(|mine + [p]|, bound))
  {
  }

  lemma TakeOne(taken: seq<Point>, theirs: seq<Point>, count: nat)
    requires Prefix(taken, theirs, Min(count, |theirs|)) && count < |theirs|
    ensures Prefix(taken + [theirs[count]], theirs, Min(count + 1, |theirs|))
  {
  }

  lemma TakeNone(taken: seq<Point>, theirs: seq<Point>, count: nat)
    requires Prefix(taken, theirs, Min(count, |theirs|)) && count >= |theirs|
    ensures Prefix(taken, theirs, Min(count + 1, |theirs|))
  {
  }

  lemma {:induction false} MatchedSameKeys(points: seq<Point>, others: seq<Point>, n: nat)
    requires n <= |points|
    ensures SameKeys(Matched(points, others, n))
  {
    if n > 0 {
      MatchedSameKeys(points, others, n - 1);
      var candidates := Of(others, points[n - 1].key);
      if Rank(points, n - 1) < |candidates| {
        OfMember(others, points[n - 1].key, candidates[Rank(points, n - 1)]);
      }
    }
  }

  lemma {:induction false} FirstsByKey(points: seq<Point>, others: seq<Point>, n: nat, key: Key)
    requires n <= |points|
    ensures Prefix(Of(Firsts(Matched(points, others, n)), key), Upto(points, n, key),
                   Min(|Upto(points, n, key)|, |Of(others, key)|))
  {
    if n > 0 {
      FirstsByKey(points, others, n - 1, key);
      var p, before := points[n - 1], Matched(points, others, n - 1);
      var mine, bound := Upto(points, n - 1, key), |Of(others, key)|;
      if Rank(points, n - 1) < |Of(others, p.key)| {
        FirstsPush(before, p, Of(others, p.key)[Rank(points, n - 1)], key);
        assert Matched(points, others, n) == before + [(p, Of(others, p.key)[Rank(points, n - 1)])];
        hide Of, Firsts, Prefix, Min, Matched;
        if p.key == key {
          PushMatched(Of(Firsts(before), key), [], mine, p, bound);
        }
      } else if p.key == key {
        hide Of, Firsts, Prefix, Min;
        PushLeft(Of(Firsts(before), key), [], mine, p, bound);
      }
    }
  }

  lemma FirstsPush(before: seq<Pair>, p: Point, q: Point, key: Key)
    ensures Of(Firsts(before + [(p, q)]), key) ==
              if p.key == key then Of(Firsts(before), key) + [p] else Of(Firsts(before), key)
    ensures Of(Seconds(before + [(p, q)]), key) ==
              if q.key == key then Of(Seconds(before), key) + [q] else Of(Seconds(before), key)
  {
    FirstsSnoc(before, (p, q));
    OfPush(Firsts(before), p, key);
    OfPush(Seconds(before), q, key);
  }

  lemma SecondsPush(before: seq<Pair>, p: Point, others: seq<Point>, rank: nat, key: Key)
    requires rank < |Of(others, p.key)|
    ensures var q := Of(others, p.key)[rank];
            Of(Seconds(before + [(p, q)]), key) ==
              if p.key == key then Of(Seconds(before), key) + [q] else Of(Seconds(before), key)
  {
    OfMember(others, p.key, Of(others, p.key)[rank]);
    FirstsPush(before, p, Of(others, p.key)[rank], key);
  }

  lemma {:induction false} SecondsByKey(points: seq<Point>, others: seq<Point>, n: nat, key: Key)
    requires n <= |points|
    ensures Prefix(Of(Seconds(Matched(points, others, n)), key), Of(others, key),
                   Min(|Upto(points, n, key)|, |Of(others, key)|))
  {
    if n > 0 {
      SecondsByKey(points, others, n - 1, key);
      var p, before := points[n - 1], Matched(points, others, n - 1);
      var taken, theirs, count := Of(Seconds(before), key), Of(others, key), |Upto(points, n - 1, key)|;
      if Rank(points, n - 1) < |Of(others, p.key)| {
        SecondsPush(before, p, others, Rank(points, n - 1), key);
        assert Matched(points, others, n) == before + [(p, Of(others, p.key)[Rank(points, n - 1)])];
        hide Of, Seconds, Prefix, Min, Matched;
        if p.key == key {
          TakeOne(taken, theirs, count);
        }
      } else if p.key == key {
        hide Of, Seconds, Prefix, Min;
        TakeNone(taken, theirs, count);
      }
    }
  }

  lemma {:induction false} UnmatchedByKey(points: seq<Point>, others: seq<Point>, n: nat, key: Key)
    requires n <= |points|
    ensures Suffix(Of(Unmatched(points, others, n), key), Upto(points, n, key),
                   Min(|Upto(points, n, key)|, |Of(others, key)|))
  {
    if n > 0 {
      UnmatchedByKey(points, others, n - 1, key);
      var p, before := points[n - 1], Unmatched(points, others, n - 1);
      var mine, bound := Upto(points, n - 1, key), |Of(others, key)|;
      OfPush(before, p, key);
      hide Of, Suffix, Min;
      if p.key == key && |mine| < bound {
        PushMatched([], Of(before, key), mine, p, bound);
      } else if p.key == key {
        PushLeft([], Of(before, key), mine, p, bound);
      }
    }
  }

  lemma OrderedKeepsPoints(points: seq<Point>)
    ensures multiset(Ordered(points)) == multiset(points) && |Ordered(points)| == |points|
    ensures Sorted(Ordered(points), InOrder)
  {
    SortMultiset(points, InOrder);
    OrderIsTotal();
    SortSorted(points, InOrder);
  }

  /**
   For each identity the k-th earliest expected point is paired with the k-th earliest observed
   one, min(count, count) times, and what is left over is the rest of the longer list.
   */
  lemma PairsAreRankByRank(expected: seq<Point>, observed: seq<Point>, key: Key)
    ensures var r := PairUp(expected, observed);
            var es, os := Of(Ordered(expected), key), Of(Ordered(observed), key);
            var k := Min(|es|, |os|);
            && SameKeys(r.pairs)
            && Of(Firsts(r.pairs), key) == es[..k] && Of(Seconds(r.pairs), key) == os[..k]
            && Of(r.expectedOnly, key) == es[k..] && Of(r.observedOnly, key) == os[k..]
  {
    var es, os := Ordered(expected), Ordered(observed);
    UptoIsOf(es, |es|, key);
    UptoIsOf(os, |os|, key);
    MatchedSameKeys(es, os, |es|);
    FirstsByKey(es, os, |es|, key);
    SecondsByKey(es, os, |es|, key);
    UnmatchedByKey(es, os, |es|, key);
    UnmatchedByKey(os, es, |os|, key);
  }

  /** Each point is in exactly one pair or in exactly one leftover list. */
  lemma PairingIsExactPartition(expected: seq<Point>, observed: seq<Point>)
    ensures var r := PairUp(expected, observed);
            && multiset(expected) == multiset(Firsts(r.pairs)) + multiset(r.expectedOnly)
            && multiset(observed) == multiset(Seconds(r.pairs)) + multiset(r.observedOnly)
  {
    var r := PairUp(expected, observed);
    var es, os := Ordered(expected), Ordered(observed);
    hide PairUp, Ordered, Of, Firsts, Seconds;
    forall key
      ensures multiset(Of(es, key)) == multiset(Of(Firsts(r.pairs), key)) + multiset(Of(r.expectedOnly, key))
      ensures multiset(Of(os, key)) == multiset(Of(Seconds(r.pairs), key)) + multiset(Of(r.observedOnly, key))
    {
      PairsAreRankByRank(expected, observed, key);
      var k := Min(|Of(es, key)|, |Of(os, key)|);
      assert Of(es, key) == Of(es, key)[..k] + Of(es, key)[k..];
      assert Of(os, key) == Of(os, key)[..k] + Of(os, key)[k..];
    }
    AssembledByKey(es, Firsts(r.pairs), r.expectedOnly);
    AssembledByKey(os, Seconds(r.pairs), r.observedOnly);
    OrderedKeepsPoints(expected);
    OrderedKeepsPoints(observed);
  }

  // ---- Bottleneck optimality --------------------------------------------------------------------------

  predicate Near(a: Point, b: Point, tolerance: int) { -tolerance <= b.time - a.time <= tolerance }

  predicate WithinTolerance(pairs: seq<Pair>, tolerance: int) {
    forall i :: 0 <= i < |pairs| ==> Near(pairs[i].0, pairs[i].1, tolerance)
  }

  /** How many points are at or before an instant. */
  function AtMost(points: seq<Point>, t: int): nat {
    if points == [] then 0 else AtMost(points[1..], t) + if points[0].time <= t then 1 else 0
  }

  lemma {:induction false} AtMostWithout(points: seq<Point>, i: nat, t: int)
    requires i < |points|
    ensures AtMost(points, t) == AtMost(points[..i] + points[i + 1..], t) + if points[i].time <= t then 1 else 0
  {
    if i == 0 {
      assert points[..0] + points[1..] == points[1..];
    } else {
      AtMostWithout(points[1..], i - 1, t);
      assert (points[..i] + points[i + 1..])[1..] == points[1..][..i - 1] + points[1..][i..];
    }
  }

  lemma {:induction false} AtMostOfMultiset(a: seq<Point>, b: seq<Point>, t: int)
    requires multiset(a) == multiset(b)
    ensures AtMost(a, t) == AtMost(b, t)
  {
    if a == [] {
      assert |multiset(b)| == |b|;
    } else {
      var i := WithoutFirst(a, b);
      AtMostOfMultiset(a[1..], b[..i] + b[i + 1..], t);
      AtMostWithout(b, i, t);
    }
  }

  lemma WithoutFirst(a: seq<Point>, b: seq<Point>) returns (i: nat)
    requires a != [] && multiset(a) == multiset(b)
    ensures i < |b| && b[i] == a[0]
    ensures multiset(a[1..]) == multiset(b[..i] + b[i + 1..])
  {
    assert a[0] in multiset(b);
    i :| 0 <= i < |b| && b[i] == a[0];
    assert a == [a[0]] + a[1..];
    assert b == b[..i] + [b[i]] + b[i + 1..];
    assert multiset(b[..i] + b[i + 1..]) == multiset(b) - multiset{b[i]};
  }

  predicate InTimeOrder(points: seq<Point>) {
    forall i, j :: 0 <= i < j < |points| ==> points[i].time <= points[j].time
  }

  /** In time order the first k+1 points are at or before the k-th, and no others before it. */
  lemma {:induction false} SortedCounts(points: seq<Point>, k: nat, t: int)
    requires k < |points| && InTimeOrder(points)
    ensures t >= points[k].time ==> AtMost(points, t) >= k + 1
    ensures t < points[k].time ==> AtMost(points, t) <= k
  {
    if k > 0 {
      SortedCounts(points[1..], k - 1, t);
    } else if t < points[0].time {
      NoneBefore(points, t);
    }
  }

  lemma {:induction false} NoneBefore(points: seq<Point>, t: int)
    requires forall i :: 0 <= i < |points| ==> points[i].time > t
    ensures AtMost(points, t) == 0
  {
    if points != [] {
      NoneBefore(points[1..], t);
    }
  }

  /** Partners within the tolerance: what is early enough on one side is so on the other. */
  lemma {:induction false} PartnersCount(pairs: seq<Pair>, tolerance: int, t: int)
    requires WithinTolerance(pairs, tolerance)
    ensures AtMost(Firsts(pairs), t) <= AtMost(Seconds(pairs), t + tolerance)
    ensures AtMost(Seconds(pairs), t) <= AtMost(Firsts(pairs), t + tolerance)
  {
    if pairs != [] {
      PartnersCount(pairs[1..], tolerance, t);
      assert Near(pairs[0].0, pairs[0].1, tolerance);
    }
  }

  lemma {:induction false} PairCounts(pairs: seq<Pair>)
    ensures |Firsts(pairs)| == |pairs| == |Seconds(pairs)|
    ensures forall i :: 0 <= i < |pairs| ==> Firsts(pairs)[i] == pairs[i].0 && Seconds(pairs)[i] == pairs[i].1
  {
    if pairs != [] {
      PairCounts(pairs[1..]);
    }
  }

  /**
   Two lists in time order: if any complete pairing keeps every difference within a tolerance,
   pairing rank by rank does.
   */
  lemma RankByRankIsBottleneckOptimal(es: seq<Point>, os: seq<Point>, any: seq<Pair>, tolerance: int, k: nat)
    requires InTimeOrder(es) && InTimeOrder(os)
    requires multiset(Firsts(any)) == multiset(es) && multiset(Seconds(any)) == multiset(os)
    requires WithinTolerance(any, tolerance)
    requires k < |es|
    ensures |es| == |os| && Near(es[k], os[k], tolerance)
  {
    PairCounts(any);
    assert |multiset(es)| == |es| && |multiset(os)| == |os|;
    assert |multiset(Firsts(any))| == |any| && |multiset(Seconds(any))| == |any|;
    NotLater(es, os, any, tolerance, k);
    NotEarlier(es, os, any, tolerance, k);
  }

  lemma NotLater(es: seq<Point>, os: seq<Point>, any: seq<Pair>, tolerance: int, k: nat)
    requires InTimeOrder(es) && InTimeOrder(os) && WithinTolerance(any, tolerance)
    requires multiset(Firsts(any)) == multiset(es) && multiset(Seconds(any)) == multiset(os)
    requires k < |es| == |os|
    ensures os[k].time <= es[k].time + tolerance
  {
    hide InTimeOrder, AtMost, Firsts, Seconds, WithinTolerance;
    var e := es[k].time;
    PartnersCount(any, tolerance, e);
    AtMostOfMultiset(Firsts(any), es, e);
    AtMostOfMultiset(Seconds(any), os, e + tolerance);
    SortedCounts(es, k, e);
    SortedCounts(os, k, e + tolerance);
  }

  lemma NotEarlier(es: seq<Point>, os: seq<Point>, any: seq<Pair>, tolerance: int, k: nat)
    requires InTimeOrder(es) && InTimeOrder(os) && WithinTolerance(any, tolerance)
    requires multiset(Firsts(any)) == multiset(es) && multiset(Seconds(any)) == multiset(os)
    requires k < |es| == |os|
    ensures es[k].time <= os[k].time + tolerance
  {
    hide InTimeOrder, AtMost, Firsts, Seconds, WithinTolerance;
    var o := os[k].time;
    PartnersCount(any, tolerance, o);
    AtMostOfMultiset(Seconds(any), os, o);
    AtMostOfMultiset(Firsts(any), es, o + tolerance);
    SortedCounts(os, k, o);
    SortedCounts(es, k, o + tolerance);
  }

  /** A complete pairing that respects identities. */
  ghost predicate Complete(any: seq<Pair>, expected: seq<Point>, observed: seq<Point>) {
    && SameKeys(any)
    && multiset(Firsts(any)) == multiset(expected)
    && multiset(Seconds(any)) == multiset(observed)
  }

  function PairsOf(pairs: seq<Pair>, key: Key): seq<Pair> {
    if pairs == [] then []
    else if pairs[0].0.key == key then [pairs[0]] + PairsOf(pairs[1..], key)
    else PairsOf(pairs[1..], key)
  }

  lemma {:induction false} PairsOfKey(pairs: seq<Pair>, key: Key, tolerance: int)
    requires SameKeys(pairs)
    ensures Firsts(PairsOf(pairs, key)) == Of(Firsts(pairs), key)
    ensures Seconds(PairsOf(pairs, key)) == Of(Seconds(pairs), key)
    ensures WithinTolerance(pairs, tolerance) ==> WithinTolerance(PairsOf(pairs, key), tolerance)
  {
    if pairs != [] {
      PairsOfKey(pairs[1..], key, tolerance);
    }
  }

  lemma {:induction false} TimesSorted(points: seq<Point>)
    requires Sorted(points, InOrder)
    ensures InTimeOrder(points)
  {
    forall i, j | 0 <= i < j < |points| ensures points[i].time <= points[j].time {
      assert InOrder(points[i], points[j]);
    }
  }

  /**
   For one identity with equally many points on both sides: if some pairing of them keeps every
   difference within a tolerance, the pairs made here do.
   */
  lemma PairingIsBottleneckOptimal(expected: seq<Point>, observed: seq<Point>, key: Key, any: seq<Pair>, tolerance: int, k: nat)
    requires Complete(any, Of(expected, key), Of(observed, key)) && WithinTolerance(any, tolerance)
    requires k < |Of(expected, key)|
    ensures var es, os := Of(Ordered(expected), key), Of(Ordered(observed), key);
            && |es| == |os| == |Of(expected, key)|
            && Of(Firsts(PairUp(expected, observed).pairs), key) == es
            && Of(Seconds(PairUp(expected, observed).pairs), key) == os
            && Near(es[k], os[k], tolerance)
  {
    hide Ordered, Of, PairUp, InTimeOrder, Firsts, Seconds, WithinTolerance, Near;
    OrderedKeepsPoints(expected);
    OrderedKeepsPoints(observed);
    SameElementsSameOf(expected, Ordered(expected), key);
    SameElementsSameOf(observed, Ordered(observed), key);
    OfSorted(Ordered(expected), key);
    OfSorted(Ordered(observed), key);
    TimesSorted(Of(Ordered(expected), key));
    TimesSorted(Of(Ordered(observed), key));
    RankByRankIsBottleneckOptimal(Of(Ordered(expected), key), Of(Ordered(observed), key), any, tolerance, k);
    PairsAreRankByRank(expected, observed, key);
  }

  /** Everything is paired, and no pair is further apart than the tolerance. */
  predicate AllPairedWithin(r: Paired, tolerance: int) {
    r.expectedOnly == [] && r.observedOnly == [] && WithinTolerance(r.pairs, tolerance)
  }

  ghost predicate Matchable(expected: seq<Point>, observed: seq<Point>, tolerance: int) {
    exists any :: Complete(any, expected, observed) && WithinTolerance(any, tolerance)
  }

  /**
   The pairing leaves nothing over and nothing late exactly when some complete pairing that
   respects identities stays within the tolerance.
   */
  lemma PairedWithinIffMatchable(expected: seq<Point>, observed: seq<Point>, tolerance: int)
    ensures AllPairedWithin(PairUp(expected, observed), tolerance) <==> Matchable(expected, observed, tolerance)
  {
    var r := PairUp(expected, observed);
    PairingIsExactPartition(expected, observed);
    if AllPairedWithin(r, tolerance) {
      PairsAreRankByRank(expected, observed, Key(0, 0, None));
      assert multiset(expected) == multiset(Firsts(r.pairs)) + multiset{};
      assert Complete(r.pairs, expected, observed);
    }
    if Matchable(expected, observed, tolerance) {
      var any :| Complete(any, expected, observed) && WithinTolerance(any, tolerance);
      NothingLeftOver(expected, observed, any);
      forall i | 0 <= i < |r.pairs| ensures Near(r.pairs[i].0, r.pairs[i].1, tolerance) {
        PairWithin(expected, observed, any, tolerance, i);
      }
    }
  }

  lemma NothingLeftOver(expected: seq<Point>, observed: seq<Point>, any: seq<Pair>)
    requires Complete(any, expected, observed)
    ensures PairUp(expected, observed).expectedOnly == [] && PairUp(expected, observed).observedOnly == []
  {
    var r := PairUp(expected, observed);
    OrderedKeepsPoints(expected);
    OrderedKeepsPoints(observed);
    if r.expectedOnly != [] {
      var p := r.expectedOnly[0];
      LeftOverKey(expected, observed, any, p.key);
      OfMember(r.expectedOnly, p.key, p);
      assert false;
    }
    if r.observedOnly != [] {
      var p := r.observedOnly[0];
      LeftOverKey(expected, observed, any, p.key);
      OfMember(r.observedOnly, p.key, p);
      assert false;
    }
  }

  lemma LeftOverKey(expected: seq<Point>, observed: seq<Point>, any: seq<Pair>, key: Key)
    requires Complete(any, expected, observed)
    ensures Of(PairUp(expected, observed).expectedOnly, key) == []
    ensures Of(PairUp(expected, observed).observedOnly, key) == []
    ensures |Of(Ordered(expected), key)| == |Of(Ordered(observed), key)|
  {
    OrderedKeepsPoints(expected);
    OrderedKeepsPoints(observed);
    SameElementsSameOf(Firsts(any), Ordered(expected), key);
    SameElementsSameOf(Seconds(any), Ordered(observed), key);
    PairsOfKey(any, key, 0);
    PairCounts(PairsOf(any, key));
    PairsAreRankByRank(expected, observed, key);
  }

  lemma PairWithin(expected: seq<Point>, observed: seq<Point>, any: seq<Pair>, tolerance: int, i: nat)
    requires Complete(any, expected, observed) && WithinTolerance(any, tolerance)
    requires i < |PairUp(expected, observed).pairs|
    ensures var p := PairUp(expected, observed).pairs[i]; Near(p.0, p.1, tolerance)
  {
    var r := PairUp(expected, observed);
    var p := r.pairs[i];
    var key := p.0.key;
    PairsAreRankByRank(expected, observed, key);
    LeftOverKey(expected, observed, any, key);
    var k := PairPosition(r.pairs, i, key);
    OrderedKeepsPoints(expected);
    OrderedKeepsPoints(observed);
    OfSorted(Ordered(expected), key);
    OfSorted(Ordered(observed), key);
    TimesSorted(Of(Ordered(expected), key));
    TimesSorted(Of(Ordered(observed), key));
    SameElementsSameOf(Firsts(any), Ordered(expected), key);
    SameElementsSameOf(Seconds(any), Ordered(observed), key);
    PairsOfKey(any, key, tolerance);
    RankByRankIsBottleneckOptimal(Of(Ordered(expected), key), Of(Ordered(observed), key), PairsOf(any, key), tolerance, k);
  }

  /** Where a pair stands among the pairs of its identity. */
  lemma {:induction false} PairPosition(pairs: seq<Pair>, i: nat, key: Key) returns (k: nat)
    requires SameKeys(pairs) && i < |pairs| && pairs[i].0.key == key
    ensures k < |Of(Firsts(pairs), key)| && k < |Of(Seconds(pairs), key)|
    ensures Of(Firsts(pairs), key)[k] == pairs[i].0 && Of(Seconds(pairs), key)[k] == pairs[i].1
  {
    if i == 0 {
      return 0;
    }
    var rest := PairPosition(pairs[1..], i - 1, key);
    k := if pairs[0].0.key == key then rest + 1 else rest;
  }

  // ---- The order of a list is fixed by its identities ------------------------------------------------

  lemma {:induction false} OfInsert(p: Point, points: seq<Point>, key: Key)
    requires Sorted(points, InOrder)
    ensures Of(Insert(p, points, InOrder), key) ==
              if p.key == key then Insert(p, Of(points, key), InOrder) else Of(points, key)
  {
    if points != [] {
      if InOrder(p, points[0]) {
        assert ([p] + points)[1..] == points;
        OfSorted(points, key);
        forall q | q in Of(points, key) ensures InOrder(p, q) {
          OfMember(points, key, q);
          OrderIsTotal();
        }
      } else {
        OfInsert(p, points[1..], key);
        assert ([points[0]] + Insert(p, points[1..], InOrder))[1..] == Insert(p, points[1..], InOrder);
      }
    }
  }

  lemma {:induction false} OfOrdered(points: seq<Point>, key: Key)
    ensures Of(Ordered(points), key) == Ordered(Of(points, key))
  {
    if points != [] {
      OfOrdered(points[1..], key);
      OrderedKeepsPoints(points[1..]);
      OfInsert(points[0], Ordered(points[1..]), key);
    }
  }

  lemma {:induction false} OrderedIsStable(points: seq<Point>)
    requires Sorted(points, InOrder)
    ensures Ordered(points) == points
  {
    if points != [] {
      OrderedIsStable(points[1..]);
      assert |points| > 1 ==> InOrder(points[0], points[1]);
    }
  }

  lemma HeadIsOfItsKey(points: seq<Point>)
    requires points != []
    ensures Of(points, points[0].key) != [] && Of(points, points[0].key)[0] == points[0]
  {
  }

  /** Two ordered lists that agree identity by identity are equal. */
  lemma {:induction false} OrderedUnique(a: seq<Point>, b: seq<Point>)
    requires Sorted(a, InOrder) && Sorted(b, InOrder)
    requires forall key :: Of(a, key) == Of(b, key)
    ensures a == b
  {
    if a == [] {
      if b != [] {
        HeadIsOfItsKey(b);
        assert false;
      }
    } else {
      HeadIsOfItsKey(a);
      assert Of(b, a[0].key) != [];
      assert b != [];
      HeadFirst(a, b);
      HeadFirst(b, a);
      assert a[0].key == b[0].key;
      forall key ensures Of(a[1..], key) == Of(b[1..], key) {
        assert Of(a, key) == Of(b, key);
        TailOf(a, key);
        TailOf(b, key);
      }
      OrderedUnique(a[1..], b[1..]);
    }
  }

  lemma TailOf(points: seq<Point>, key: Key)
    requires points != []
    ensures Of(points[1..], key) == if points[0].key == key then Of(points, key)[1..] else Of(points, key)
  {
  }

  lemma HeadFirst(a: seq<Point>, b: seq<Point>)
    requires a != [] && b != [] && Sorted(b, InOrder)
    requires Of(a, a[0].key) == Of(b, a[0].key)
    ensures InOrder(b[0], a[0])
    ensures Of(b, a[0].key)[0] == a[0]
  {
    assert Of(a, a[0].key)[0] == a[0];
    OfMember(b, a[0].key, a[0]);
    var i :| 0 <= i < |b| && b[i] == a[0];
    if i > 0 {
      assert InOrder(b[0], b[i]);
    }
  }

  lemma {:induction false} UnmatchedSorted(points: seq<Point>, others: seq<Point>, n: nat)
    requires n <= |points| && Sorted(points, InOrder)
    ensures Sorted(Unmatched(points, others, n), InOrder)
    ensures forall p :: p in Unmatched(points, others, n) ==> p in points[..n]
  {
    if n > 0 {
      UnmatchedSorted(points, others, n - 1);
      assert points[..n] == points[..n - 1] + [points[n - 1]];
      var before, last := Unmatched(points, others, n - 1), points[n - 1];
      forall p | p in before ensures InOrder(p, last) {
        assert p in points[..n - 1];
        var i :| 0 <= i < n - 1 && points[i] == p;
      }
    }
  }

  // ---- Sorting that may fail ----------------------------------------------------------------------------

  /** Whether one sort key is at most another, component by component; a missing signal has no order. */
  function CompareKeys(a: Point, b: Point): Option<bool> {
    if a.time != b.time then Some(a.time < b.time)
    else if a.key.asset != b.key.asset then Some(a.key.asset < b.key.asset)
    else if a.key.kind != b.key.kind then Some(a.key.kind < b.key.kind)
    else if a.key.signal.None? && b.key.signal.None? then Some(true)
    else if a.key.signal.None? || b.key.signal.None? then None
    else Some(a.key.signal.value <= b.key.signal.value)
  }

  lemma ComparisonFailsIff(a: Point, b: Point)
    ensures CompareKeys(a, b) == if Clash(a, b) || Clash(b, a) then None else Some(InOrder(a, b))
  {
  }

  /** Inserts by comparing from the front; the first comparison that fails ends the sort. */
  function InsertOrFail(p: Point, points: seq<Point>): Option<seq<Point>> {
    if points == [] then Some([p])
    else
      match CompareKeys(p, points[0])
      case None => None
      case Some(true) => Some([p] + points)
      case Some(false) =>
        match InsertOrFail(p, points[1..])
        case None => None
        case Some(rest) => Some([points[0]] + rest)
  }

  function SortOrFail(points: seq<Point>): Option<seq<Point>> {
    if points == [] then Some([])
    else
      match SortOrFail(points[1..])
      case None => None
      case Some(rest) => InsertOrFail(points[0], rest)
  }

  predicate ClashesWith(p: Point, points: seq<Point>) {
    exists q :: q in points && (Clash(p, q) || Clash(q, p))
  }

  lemma {:induction false} InsertFailsIff(p: Point, points: seq<Point>)
    requires Sorted(points, InOrder) && Comparable(points)
    ensures InsertOrFail(p, points).None? <==> ClashesWith(p, points)
    ensures InsertOrFail(p, points).Some? ==> InsertOrFail(p, points).value == Insert(p, points, InOrder)
  {
    if points != [] {
      InsertFailsIff(p, points[1..]);
      assert points == [points[0]] + points[1..];
      ComparisonFailsIff(p, points[0]);
      if CompareKeys(p, points[0]) == Some(true) {
        forall q | q in points ensures !Clash(p, q) && !Clash(q, p) {
          TieInBetween(p, points, q);
        }
      }
    }
  }

  /** Whatever ties with a point put at the front ties with the old front too. */
  lemma TieInBetween(p: Point, points: seq<Point>, q: Point)
    requires Sorted(points, InOrder) && Comparable(points) && q in points
    requires CompareKeys(p, points[0]) == Some(true)
    ensures !Clash(p, q) && !Clash(q, p)
  {
    ComparisonFailsIff(p, points[0]);
    var i :| 0 <= i < |points| && points[i] == q;
    assert i > 0 ==> InOrder(points[0], q);
    assert points[0] in points;
  }

  lemma OrderedStaysComparable(points: seq<Point>)
    requires Comparable(points)
    ensures Comparable(Ordered(points))
  {
    forall p | p in Ordered(points) ensures p in points {
      SortElements(points, InOrder, p);
    }
  }

  /** Sorting fails exactly when two points tie up to one missing signal; otherwise it sorts. */
  lemma {:induction false} SortFailsIff(points: seq<Point>)
    ensures SortOrFail(points).None? <==> !Comparable(points)
    ensures SortOrFail(points).Some? ==> SortOrFail(points).value == Ordered(points)
  {
    if points != [] {
      var rest := points[1..];
      SortFailsIff(rest);
      assert points == [points[0]] + rest;
      if Comparable(rest) {
        OrderedKeepsPoints(rest);
        OrderedStaysComparable(rest);
        InsertFailsIff(points[0], Ordered(rest));
        SameClashes(points[0], rest);
        ComparableCons(points[0], rest);
      }
    }
  }

  lemma SameClashes(p: Point, points: seq<Point>)
    ensures ClashesWith(p, Ordered(points)) <==> ClashesWith(p, points)
  {
    forall q ensures q in Ordered(points) <==> q in points {
      SortElements(points, InOrder, q);
    }
  }

  lemma ComparableCons(p: Point, points: seq<Point>)
    requires Comparable(points)
    ensures Comparable([p] + points) <==> !ClashesWith(p, points)
  {
    assert forall q :: q in [p] + points <==> q == p || q in points;
  }

  /** Ordered as far as time, asset and kind go. */
  predicate TiesTogether(a: Point, b: Point) {
    || a.time < b.time
    || (a.time == b.time && (a.key.asset < b.key.asset || (a.key.asset == b.key.asset && a.key.kind <= b.key.kind)))
  }

  /**
   No sort can avoid the failing comparison: in every arrangement that is in order up to the
   signals, some two neighbours clash exactly when two points of the list do, and nothing but
   comparing neighbours decides their order.
   */
  lemma EveryArrangementMeetsAClash(points: seq<Point>, arranged: seq<Point>)
    requires multiset(arranged) == multiset(points) && Sorted(arranged, TiesTogether)
    ensures !Comparable(points) <==> exists i :: NeighboursClash(arranged, i)
  {
    forall p ensures p in arranged <==> p in points {
      assert p in multiset(arranged) <==> p in multiset(points);
    }
    if !Comparable(points) {
      var a, b :| a in points && b in points && Clash(a, b);
      var i :| 0 <= i < |arranged| && arranged[i] == a;
      var j :| 0 <= j < |arranged| && arranged[j] == b;
      var k := ClashBetween(arranged, if i < j then i else j, if i < j then j else i);
    }
    if i :| NeighboursClash(arranged, i) {
      assert arranged[i] in points && arranged[i + 1] in points;
    }
  }

  predicate NeighboursClash(points: seq<Point>, i: int) {
    0 <= i < |points| - 1 && (Clash(points[i], points[i + 1]) || Clash(points[i + 1], points[i]))
  }

  lemma {:induction false} ClashBetween(points: seq<Point>, i: nat, j: nat) returns (k: nat)
    requires Sorted(points, TiesTogether) && i < j < |points|
    requires Clash(points[i], points[j]) || Clash(points[j], points[i])
    ensures NeighboursClash(points, k)
    decreases j - i
  {
    k := i;
    if i + 1 < j {
      assert TiesTogether(points[i], points[i + 1]) && TiesTogether(points[i + 1], points[j]);
      if !NeighboursClash(points, i) {
        k := ClashBetween(points, i + 1, j);
      }
    }
  }

  /** Two points of one time, asset and kind, one without a signal: sorting them fails. */
  lemma MissingSignalFails(time: int, asset: int, kind: int, signal: int, body: Body)
    ensures SortOrFail([Point(time, Key(asset, kind, None), body), Point(time, Key(asset, kind, Some(signal)), body)]).None?
  {
    var a, b := Point(time, Key(asset, kind, None), body), Point(time, Key(asset, kind, Some(signal)), body);
    assert a in [a, b] && b in [a, b] && Clash(a, b);
    SortFailsIff([a, b]);
  }

  // ---- The algorithm ----------------------------------------------------------------------------------

  /** A dictionary of queues that answers an empty queue for a new identity. */
  function Queue(queues: map<Key, seq<Point>>, key: Key): seq<Point> {
    if key in queues then queues[key] else []
  }

  /** What the first `n` expected points leave in a queue. */
  function Remaining(es: seq<Point>, os: seq<Point>, n: nat, key: Key): seq<Point>
    requires n <= |es|
  {
    Of(os, key)[Min(|Upto(es, n, key)|, |Of(os, key)|)..]
  }

  /** The queues after `n` expected points have been served. */
  ghost predicate Served(queues: map<Key, seq<Point>>, es: seq<Point>, os: seq<Point>, n: nat)
    requires n <= |es|
  {
    forall key :: Queue(queues, key) == Remaining(es, os, n, key)
  }

  lemma RemainingStep(es: seq<Point>, os: seq<Point>, n: nat, key: Key)
    requires n < |es|
    ensures es[n].key != key ==> Remaining(es, os, n + 1, key) == Remaining(es, os, n, key)
    ensures var left := Remaining(es, os, n, es[n].key);
            if left == [] then Rank(es, n) >= |Of(os, es[n].key)| && Remaining(es, os, n + 1, es[n].key) == []
            else Rank(es, n) < |Of(os, es[n].key)| && left[0] == Of(os, es[n].key)[Rank(es, n)] &&
                 Remaining(es, os, n + 1, es[n].key) == left[1..]
  {
  }

  lemma NextQueues(es: seq<Point>, os: seq<Point>, i: nat, before: map<Key, seq<Point>>)
    requires i < |es|
    requires Served(before, es, os, i)
    ensures var left := Queue(before, es[i].key);
            if left == [] then
              && Matched(es, os, i + 1) == Matched(es, os, i)
              && Unmatched(es, os, i + 1) == Unmatched(es, os, i) + [es[i]]
              && Served(before[es[i].key := []], es, os, i + 1)
            else
              && Matched(es, os, i + 1) == Matched(es, os, i) + [(es[i], left[0])]
              && Unmatched(es, os, i + 1) == Unmatched(es, os, i)
              && Served(before[es[i].key := left[1..]], es, os, i + 1)
  {
    var left := Queue(before, es[i].key);
    var after := before[es[i].key := if left == [] then [] else left[1..]];
    forall key ensures Queue(after, key) == Remaining(es, os, i + 1, key) {
      RemainingStep(es, os, i, key);
      assert Queue(before, key) == Remaining(es, os, i, key);
    }
    RemainingStep(es, os, i, es[i].key);
  }

  method FillQueues(os: seq<Point>) returns (queues: map<Key, seq<Point>>)
    ensures forall key :: Queue(queues, key) == Of(os, key)
  {
    queues := map[];
    for i := 0 to |os|
      invariant forall key :: Queue(queues, key) == Upto(os, i, key)
    {
      queues := queues[os[i].key := Queue(queues, os[i].key) + [os[i]]];
    }
    forall key ensures Queue(queues, key) == Of(os, key) {
      UptoIsOf(os, |os|, key);
    }
  }

  lemma ServedAtStart(es: seq<Point>, os: seq<Point>, queues: map<Key, seq<Point>>)
    requires forall key :: Queue(queues, key) == Of(os, key)
    ensures Matched(es, os, 0) == [] && Unmatched(es, os, 0) == [] && Served(queues, es, os, 0)
  {
    forall key ensures Queue(queues, key) == Remaining(es, os, 0, key) {
      assert Queue(queues, key) == Of(os, key);
    }
  }

  /** Each expected point in order takes the oldest observed one left in its queue. */
  method MatchExpected(es: seq<Point>, os: seq<Point>, queues: map<Key, seq<Point>>)
    returns (pairs: seq<Pair>, expectedOnly: seq<Point>, left: map<Key, seq<Point>>)
    requires forall key :: Queue(queues, key) == Of(os, key)
    ensures pairs == Matched(es, os, |es|) && expectedOnly == Unmatched(es, os, |es|)
    ensures Served(left, es, os, |es|)
  {
    hide *;
    pairs, expectedOnly, left := [], [], queues;
    ServedAtStart(es, os, queues);
    for i := 0 to |es|
      invariant pairs == Matched(es, os, i) && expectedOnly == Unmatched(es, os, i)
      invariant Served(left, es, os, i)
    {
      NextQueues(es, os, i, left);
      var candidates := Queue(left, es[i].key);
      if candidates == [] {
        left, expectedOnly := left[es[i].key := []], expectedOnly + [es[i]];
      } else {
        left, pairs := left[es[i].key := candidates[1..]], pairs + [(es[i], candidates[0])];
      }
    }
  }

  lemma {:induction false} OfAll(points: seq<Point>, own: Key, key: Key)
    requires forall p :: p in points ==> p.key == own
    ensures Of(points, key) == if key == own then points else []
  {
    if points != [] {
      OfAll(points[1..], own, key);
    }
  }

  lemma QueuedOf(es: seq<Point>, os: seq<Point>, queues: map<Key, seq<Point>>, next: Key, key: Key)
    requires next in queues && Queue(queues, next) == Remaining(es, os, |es|, next)
    ensures Of(queues[next], key) == if key == next then queues[next] else []
  {
    forall p | p in queues[next] ensures p.key == next {
      OfMember(os, next, p);
    }
    OfAll(queues[next], next, key);
  }

  lemma DrainedKey(es: seq<Point>, os: seq<Point>, all: seq<Point>, key: Key)
    requires Sorted(os, InOrder) && Of(all, key) == Remaining(es, os, |es|, key)
    ensures Of(Ordered(all), key) == Of(Unmatched(os, es, |os|), key)
  {
    UptoIsOf(os, |os|, key);
    UnmatchedByKey(os, es, |os|, key);
    OfSorted(os, key);
    OfOrdered(all, key);
    UptoIsOf(es, |es|, key);
    OrderedIsStable(Of(all, key));
  }

  lemma DrainedIsUnmatched(es: seq<Point>, os: seq<Point>, queues: map<Key, seq<Point>>, all: seq<Point>)
    requires Sorted(os, InOrder) && Served(queues, es, os, |es|)
    requires Drained(queues, all, {})
    ensures Ordered(all) == Unmatched(os, es, |os|)
  {
    forall key ensures Of(Ordered(all), key) == Of(Unmatched(os, es, |os|), key) {
      assert Of(all, key) == Queue(queues, key);
      assert Queue(queues, key) == Remaining(es, os, |es|, key);
      DrainedKey(es, os, all, key);
    }
    UnmatchedSorted(os, es, |os|);
    OrderedKeepsPoints(all);
    hide Ordered, Of, Unmatched, Queue, Remaining, Served;
    OrderedUnique(Ordered(all), Unmatched(os, es, |os|));
  }

  lemma DrainedIsComparable(es: seq<Point>, os: seq<Point>, queues: map<Key, seq<Point>>, all: seq<Point>)
    requires Comparable(os) && Served(queues, es, os, |es|)
    requires Drained(queues, all, {})
    ensures Comparable(all)
  {
    forall p | p in all ensures p in os {
      OfMember(all, p.key, p);
      assert Of(all, p.key) == Queue(queues, p.key);
      assert Queue(queues, p.key) == Remaining(es, os, |es|, p.key);
      OfMember(os, p.key, p);
    }
  }

  /** The list holds every queue but those of the keys still to be visited. */
  ghost predicate Drained(queues: map<Key, seq<Point>>, all: seq<Point>, keys: set<Key>) {
    forall key :: Of(all, key) == if key in keys then [] else Queue(queues, key)
  }

  lemma NothingDrained(queues: map<Key, seq<Point>>)
    ensures Drained(queues, [], queues.Keys)
  {
  }

  lemma DrainOne(es: seq<Point>, os: seq<Point>, queues: map<Key, seq<Point>>, all: seq<Point>, keys: set<Key>, next: Key)
    requires Served(queues, es, os, |es|) && Drained(queues, all, keys) && keys <= queues.Keys && next in keys
    ensures Drained(queues, all + queues[next], keys - {next})
  {
    forall key ensures Of(all + queues[next], key) == if key in keys - {next} then [] else Queue(queues, key) {
      QueuedOf(es, os, queues, next, key);
      OfAppend(all, queues[next], key);
    }
  }

  /** Flattens what the queues still hold and puts it in order. */
  method DrainQueues(es: seq<Point>, os: seq<Point>, queues: map<Key, seq<Point>>) returns (observedOnly: seq<Point>)
    requires Sorted(os, InOrder)
    requires Served(queues, es, os, |es|) && Comparable(os)
    ensures observedOnly == Unmatched(os, es, |os|)
  {
    hide Drained, Served, Comparable, Sorted, SortOrFail, Ordered, Unmatched;
    var all: seq<Point> := [];
    var keys := queues.Keys;
    NothingDrained(queues);
    while keys != {}
      invariant keys <= queues.Keys && Drained(queues, all, keys)
      decreases keys
    {
      var next :| next in keys;
      DrainOne(es, os, queues, all, keys, next);
      all := all + queues[next];
      keys := keys - {next};
    }
    DrainedIsUnmatched(es, os, queues, all);
    DrainedIsComparable(es, os, queues, all);
    SortFailsIff(all);
    observedOnly := SortOrFail(all).value;
  }

  /** Pairs the two lists, or fails where sorting one of them does. */
  method PairPoints(expected: seq<Point>, observed: seq<Point>) returns (r: Result<Paired, PairingError>)
    ensures r.Err? <==> !Comparable(expected) || !Comparable(observed)
    ensures r.Ok? ==> r.value == PairUp(expected, observed)
  {
    SortFailsIff(observed);
    SortFailsIff(expected);
    hide SortOrFail, Comparable;
    var os := SortOrFail(observed);
    if os.None? {
      return Err(IncomparableSignals);
    }
    var queues := FillQueues(os.value);
    var es := SortOrFail(expected);
    if es.None? {
      return Err(IncomparableSignals);
    }
    OrderedKeepsPoints(observed);
    var pairs, expectedOnly, left := MatchExpected(es.value, os.value, queues);
    OrderedStaysComparable(observed);
    var observedOnly := DrainQueues(es.value, os.value, left);
    r := Ok(Paired(pairs, expectedOnly, observedOnly));
  }
}
