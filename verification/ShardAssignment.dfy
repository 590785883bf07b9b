/**
 Assignment of market symbols to a fixed set of stream shards: each symbol goes to its hash's home
 shard, or, once that is full, to the first shard with room in a symbol-specific order.
 */
module ShardAssignment {
  import opened Arithmetic
  import opened Wrappers
  import opened Sorting

  /** Normalisation (`None` for a blank symbol), the 64-bit hash, and the fallback digest. */
  datatype Hashing = Hashing(normalize: string -> Option<string>, hash: string -> nat, digest: (string, int) -> int)

  datatype ShardError = NonPositiveShards | NonPositiveCapacity | BlankSymbol | TooFewShards | NoRoomLeft

  type Buckets = seq<seq<string>>

  // ---- Symbols in code-point order -------------------------------------------------------------

  predicate Lex(a: string, b: string) {
    a == [] || (b != [] && (a[0] < b[0] || (a[0] == b[0] && Lex(a[1..], b[1..]))))
  }

  /** Code-point order: a prefix comes first, and otherwise the first differing character decides. */
  lemma {:induction false} LexIff(a: string, b: string)
    ensures Lex(a, b) <==> a <= b || exists i :: FirstDiffersBelow(a, b, i)
  {
    if a != [] && b != [] {
      if a[0] == b[0] {
        LexIff(a[1..], b[1..]);
        assert a == [a[0]] + a[1..] && b == [b[0]] + b[1..];
        if i :| FirstDiffersBelow(a[1..], b[1..], i) {
          assert a[..i + 1] == [a[0]] + a[1..][..i] && b[..i + 1] == [b[0]] + b[1..][..i];
          assert FirstDiffersBelow(a, b, i + 1);
        }
        if i :| FirstDiffersBelow(a, b, i) {
          assert a[1..][..i - 1] == a[..i][1..] && b[1..][..i - 1] == b[..i][1..];
          assert FirstDiffersBelow(a[1..], b[1..], i - 1);
        }
      } else if a[0] < b[0] {
        assert FirstDiffersBelow(a, b, 0);
      }
      forall i ensures i > 0 && FirstDiffersBelow(a, b, i) ==> a[0] == b[0] {
        HeadsAgree(a, b, i);
      }
    }
  }

  lemma HeadsAgree(a: string, b: string, i: int)
    ensures i > 0 && FirstDiffersBelow(a, b, i) ==> a[0] == b[0]
  {
    if i > 0 && FirstDiffersBelow(a, b, i) {
      assert a[..i][0] == b[..i][0];
    }
  }

  predicate FirstDiffersBelow(a: string, b: string, i: int) {
    0 <= i < |a| && i < |b| && a[..i] == b[..i] && a[i] < b[i]
  }

  lemma {:induction false} LexTotal(a: string, b: string)
    ensures Lex(a, b) || Lex(b, a)
    ensures Lex(a, b) && Lex(b, a) ==> a == b
  {
    if a != [] && b != [] && a[0] == b[0] {
      LexTotal(a[1..], b[1..]);
      assert a == [a[0]] + a[1..] && b == [b[0]] + b[1..];
    }
  }

  lemma {:induction false} LexTransitive(a: string, b: string, c: string)
    requires Lex(a, b) && Lex(b, c)
    ensures Lex(a, c)
  {
    if a != [] && a[0] == b[0] && b[0] == c[0] {
      LexTransitive(a[1..], b[1..], c[1..]);
    }
  }

  /** Each symbol before the next, none twice. */
  predicate InOrder(names: seq<string>) {
    forall i, j :: 0 <= i < j < |names| ==> Lex(names[i], names[j]) && names[i] != names[j]
  }

  function InsertNew(name: string, names: seq<string>): seq<string> {
    if names == [] then [name]
    else if names[0] == name then names
    else if Lex(name, names[0]) then [name] + names
    else [names[0]] + InsertNew(name, names[1..])
  }

  /** The distinct symbols in order. */
  function Distinct(names: seq<string>): seq<string> {
    if names == [] then [] else InsertNew(names[0], Distinct(names[1..]))
  }

  lemma {:induction false} InsertNewEffect(name: string, names: seq<string>)
    requires InOrder(names)
    ensures InOrder(InsertNew(name, names))
    ensures forall x :: x in InsertNew(name, names) <==> x == name || x in names
  {
    if names != [] && names[0] != name {
      if Lex(name, names[0]) {
        BeforeAll(name, names);
        ConsInOrder(name, names);
      } else {
        InsertNewEffect(name, names[1..]);
        LexTotal(name, names[0]);
        var rest := InsertNew(name, names[1..]);
        forall x | x in rest ensures Lex(names[0], x) && names[0] != x {
          if x != name {
            var i :| 0 <= i < |names[1..]| && names[1..][i] == x;
            assert names[i + 1] == x;
          }
        }
        ConsInOrder(names[0], rest);
        assert names == [names[0]] + names[1..];
      }
    }
  }

  lemma ConsInOrder(name: string, names: seq<string>)
    requires InOrder(names) && forall x :: x in names ==> Lex(name, x) && name != x
    ensures InOrder([name] + names)
  {
    var all := [name] + names;
    forall i, j | 0 <= i < j < |all| ensures Lex(all[i], all[j]) && all[i] != all[j] {
      assert all[j] == names[j - 1] && names[j - 1] in names;
      assert i > 0 ==> all[i] == names[i - 1];
    }
    hide Lex;
  }

  lemma BeforeAll(name: string, names: seq<string>)
    requires InOrder(names) && names != [] && Lex(name, names[0]) && name != names[0]
    ensures forall x :: x in names ==> Lex(name, x) && name != x
  {
    forall x | x in names ensures Lex(name, x) && name != x {
      if x != names[0] {
        var j :| 0 <= j < |names| && names[j] == x;
        assert Lex(names[0], x);
        LexTransitive(name, names[0], x);
        LexTotal(names[0], x);
      }
    }
  }

  lemma {:induction false} DistinctEffect(names: seq<string>)
    ensures InOrder(Distinct(names))
    ensures forall x :: x in Distinct(names) <==> x in names
  {
    if names != [] {
      DistinctEffect(names[1..]);
      InsertNewEffect(names[0], Distinct(names[1..]));
    }
  }

  lemma HeadIsMember(names: seq<string>)
    requires names != []
    ensures names[0] in names
  {
  }

  /** An increasing list is determined by its members. */
  lemma {:induction false} InOrderUnique(a: seq<string>, b: seq<string>)
    requires InOrder(a) && InOrder(b)
    requires forall x :: x in a <==> x in b
    ensures a == b
  {
    if a == [] {
      if b != [] {
        HeadIsMember(b);
        assert false;
      }
    } else {
      assert a[0] in b;
      assert b[0] in a;
      var i :| 0 <= i < |b| && b[i] == a[0];
      var j :| 0 <= j < |a| && a[j] == b[0];
      if i > 0 && j > 0 {
        assert Lex(b[0], b[i]) && Lex(a[0], a[j]);
        LexTotal(a[0], b[0]);
      }
      assert a[0] == b[0];
      forall x ensures x in a[1..] <==> x in b[1..] {
        InTail(a, x);
        InTail(b, x);
      }
      InOrderUnique(a[1..], b[1..]);
    }
  }

  lemma InTail(names: seq<string>, x: string)
    requires names != [] && InOrder(names)
    ensures x in names[1..] <==> x in names && x != names[0]
  {
    assert names == [names[0]] + names[1..];
    if x in names[1..] {
      var i :| 0 <= i < |names[1..]| && names[1..][i] == x;
      assert names[i + 1] == x && names[0] != names[i + 1];
    }
  }

  // ---- Shard orders ------------------------------------------------------------------------------

  function ShardsNeeded(n: nat, capacity: int): (q: nat)
    requires capacity > 0
  {
    (n + capacity - 1) / capacity
  }

  function Home(h: Hashing, name: string, shards: int): (home: int)
    requires shards > 0
    ensures 0 <= home < shards
  {
    h.hash(name) % shards
  }

  function Range(low: int, high: int): (r: seq<int>)
    ensures forall k :: k in r <==> low <= k < high
    decreases high - low
  {
    if low >= high then [] else [low] + Range(low + 1, high)
  }

  /** Home first, then the other shards by digest. */
  function FallbackShards(h: Hashing, name: string, shards: int): seq<int>
    requires shards > 0
  {
    var home := Home(h, name, shards);
    [home] + Sort(Filter(Range(0, shards), (k: int) => k != home), (a: int, b: int) => h.digest(name, a) <= h.digest(name, b))
  }

  /** The order starts at home and visits every shard exactly once. */
  lemma FallbackIsEveryShard(h: Hashing, name: string, shards: int)
    requires shards > 0
    ensures var order := FallbackShards(h, name, shards);
            && (forall k :: k in order <==> 0 <= k < shards)
            && (forall i, j :: 0 <= i < j < |order| ==> order[i] != order[j])
            && order[0] == Home(h, name, shards)
  {
    var order := FallbackShards(h, name, shards);
    FallbackOnce(h, name, shards);
    hide FallbackShards, Home;
    forall k ensures k in order <==> 0 <= k < shards {
      assert k in order <==> multiset(order)[k] > 0;
    }
    CountedOnce(order);
    FallbackStartsHome(h, name, shards);
  }

  lemma FallbackStartsHome(h: Hashing, name: string, shards: int)
    requires shards > 0
    ensures FallbackShards(h, name, shards) != [] && FallbackShards(h, name, shards)[0] == Home(h, name, shards)
  {
    hide Range, Filter, Sort;
  }

  lemma FallbackOnce(h: Hashing, name: string, shards: int)
    requires shards > 0
    ensures forall k: int :: multiset(FallbackShards(h, name, shards))[k] == if 0 <= k < shards then 1 else 0
  {
    var home, order := Home(h, name, shards), FallbackShards(h, name, shards);
    hide Range, Filter, Sort, Home;
    var others := Filter(Range(0, shards), (k: int) => k != home);
    var le := (a: int, b: int) => h.digest(name, a) <= h.digest(name, b);
    SortMultiset(others, le);
    assert order == [home] + Sort(others, le);
    forall k: int ensures multiset(order)[k] == if 0 <= k < shards then 1 else 0 {
      OthersOnce(shards, home, k);
    }
  }

  lemma {:induction false} RangeOnce(low: int, high: int, k: int)
    ensures multiset(Range(low, high))[k] == if low <= k < high then 1 else 0
    decreases high - low
  {
    if low < high {
      var rest := Range(low + 1, high);
      RangeOnce(low + 1, high, k);
      assert multiset([low] + rest) == multiset{low} + multiset(rest);
    }
  }

  lemma {:induction false} FilterCount(s: seq<int>, p: int -> bool, k: int)
    ensures multiset(Filter(s, p))[k] == if p(k) then multiset(s)[k] else 0
  {
    if s != [] {
      FilterCount(s[1..], p, k);
      assert s == [s[0]] + s[1..];
    }
  }

  lemma OthersOnce(shards: int, home: int, k: int)
    ensures multiset(Filter(Range(0, shards), (j: int) => j != home))[k] == if 0 <= k < shards && k != home then 1 else 0
  {
    RangeOnce(0, shards, k);
    FilterCount(Range(0, shards), (j: int) => j != home, k);
  }

  lemma OnlyOnce(s: seq<int>, x: int)
    requires forall k :: multiset(s)[k] <= 1
    ensures multiset(s)[x] <= 1
  {
  }

  lemma CountedOnce(s: seq<int>)
    requires forall k :: multiset(s)[k] <= 1
    ensures forall i, j :: 0 <= i < j < |s| ==> s[i] != s[j]
  {
    forall i, j | 0 <= i < j < |s| ensures s[i] != s[j] {
      assert s == s[..j] + [s[j]] + s[j + 1..];
      assert multiset(s) == multiset(s[..j]) + multiset([s[j]]) + multiset(s[j + 1..]);
      var last: int := s[j];
      OnlyOnce(s, last);
      assert multiset(s)[last] >= multiset(s[..j])[last] + 1;
      assert last !in s[..j];
      assert s[..j][i] in s[..j];
    }
  }

  /** The first shard of an order that has room. */
  function FirstFree(buckets: Buckets, order: seq<int>, capacity: int): Option<nat> {
    if order == [] then None
    else if 0 <= order[0] < |buckets| && |buckets[order[0]]| < capacity then Some(order[0])
    else FirstFree(buckets, order[1..], capacity)
  }

  /** Buckets after the first `n` symbols, if every one of them found room. */
  function Fill(h: Hashing, names: seq<string>, n: nat, shards: int, capacity: int): Option<Buckets>
    requires shards > 0 && n <= |names|
  {
    if n == 0 then Some(seq(shards, _ => []))
    else
      match Fill(h, names, n - 1, shards, capacity)
      case None => None
      case Some(buckets) =>
        match FirstFree(buckets, FallbackShards(h, names[n - 1], shards), capacity)
        case None => None
        case Some(k) => if k < |buckets| then Some(Push(buckets, k, names[n - 1])) else None
  }

  /** The symbols after normalisation; one blank symbol refuses the whole call. */
  function Normalized(h: Hashing, symbols: seq<string>): Option<seq<string>> {
    if symbols == [] then Some([])
    else
      match (h.normalize(symbols[0]), Normalized(h, symbols[1..]))
      case (Some(name), Some(rest)) => Some([name] + rest)
      case _ => None
  }

  function SortedBuckets(buckets: Buckets): (r: Buckets)
    ensures |r| == |buckets|
    ensures forall k :: 0 <= k < |buckets| ==> r[k] == Sort(buckets[k], Lex)
  {
    seq(|buckets|, k requires 0 <= k < |buckets| => Sort(buckets[k], Lex))
  }

  /** What assignment must return. */
  function Assign(h: Hashing, symbols: seq<string>, shards: int, capacity: int): Result<Buckets, ShardError> {
    if shards <= 0 then Err(NonPositiveShards)
    else if capacity <= 0 then Err(NonPositiveCapacity)
    else
      match Normalized(h, symbols)
      case None => Err(BlankSymbol)
      case Some(list) =>
        var names := Distinct(list);
        if ShardsNeeded(|names|, capacity) > shards then Err(TooFewShards)
        else
          match Fill(h, names, |names|, shards, capacity)
          case None => Err(NoRoomLeft)
          case Some(buckets) => Ok(SortedBuckets(buckets))
  }

  function RequiredShards(h: Hashing, symbols: seq<string>, capacity: int, minimum: int): Result<int, ShardError> {
    if capacity <= 0 then Err(NonPositiveCapacity)
    else if minimum <= 0 then Err(NonPositiveShards)
    else
      match Normalized(h, symbols)
      case None => Err(BlankSymbol)
      case Some(list) =>
        var needed := ShardsNeeded(|Distinct(list)|, capacity);
        Ok(if minimum < needed then needed else minimum)
  }

  // ---- Placement never gets stuck ------------------------------------------------------------------

  function Total(buckets: Buckets): nat {
    if buckets == [] then 0 else Total(buckets[..|buckets| - 1]) + |buckets[|buckets| - 1]|
  }

  lemma {:induction false} TotalOfFull(buckets: Buckets, capacity: int)
    requires capacity > 0 && forall k :: 0 <= k < |buckets| ==> |buckets[k]| >= capacity
    ensures Total(buckets) >= |buckets| * capacity
  {
    if buckets != [] {
      TotalOfFull(buckets[..|buckets| - 1], capacity);
      assert |buckets| * capacity == (|buckets| - 1) * capacity + capacity;
    }
  }

  lemma {:induction false} TotalAfterPush(buckets: Buckets, k: nat, name: string)
    requires k < |buckets|
    ensures Total(Push(buckets, k, name)) == Total(buckets) + 1
  {
    var after := Push(buckets, k, name);
    var n := |buckets| - 1;
    if k < n {
      TotalAfterPush(buckets[..n], k, name);
      assert after[..n] == Push(buckets[..n], k, name);
    } else {
      assert after[..n] == buckets[..n];
    }
  }

  lemma {:induction false} TotalOfEmpty(buckets: Buckets)
    requires forall k :: 0 <= k < |buckets| ==> buckets[k] == []
    ensures Total(buckets) == 0
  {
    if buckets != [] {
      TotalOfEmpty(buckets[..|buckets| - 1]);
    }
  }

  lemma CeilBounds(n: nat, capacity: int, shards: int)
    requires capacity > 0 && shards > 0
    ensures ShardsNeeded(n, capacity) <= shards <==> n <= shards * capacity
  {
    var q := ShardsNeeded(n, capacity);
    assert q * capacity <= n + capacity - 1 < q * capacity + capacity;
    if q <= shards {
      assert q * capacity <= shards * capacity by { ScaleMonotone(q, shards, capacity); }
    } else {
      assert (shards + 1) * capacity <= q * capacity by { ScaleMonotone(shards + 1, q, capacity); }
      assert (shards + 1) * capacity == shards * capacity + capacity;
    }
  }

  lemma {:induction false} FirstFreeIsFirst(buckets: Buckets, order: seq<int>, capacity: int)
    requires forall i :: 0 <= i < |order| ==> 0 <= order[i] < |buckets|
    ensures FirstFree(buckets, order, capacity).None? <==>
              forall i :: 0 <= i < |order| ==> |buckets[order[i]]| >= capacity
    ensures FirstFree(buckets, order, capacity).Some? ==>
              var k := FirstFree(buckets, order, capacity).value;
              && k in order && k < |buckets| && |buckets[k]| < capacity
              && (order[0] != k ==> |buckets[order[0]]| >= capacity)
  {
    if order != [] {
      FirstFreeIsFirst(buckets, order[1..], capacity);
      assert order == [order[0]] + order[1..];
    }
  }

  predicate InBucket(buckets: Buckets, k: int, x: string) { 0 <= k < |buckets| && x in buckets[k] }

  predicate InSome(buckets: Buckets, x: string) { exists k :: 0 <= k < |buckets| && InBucket(buckets, k, x) }

  /** Each of the symbols is in exactly one bucket, and nothing else is in any. */
  ghost predicate Partition(buckets: Buckets, names: seq<string>) {
    && (forall x :: InSome(buckets, x) <==> x in names)
    && (forall j, k, x :: InBucket(buckets, j, x) && InBucket(buckets, k, x) ==> j == k)
  }

  /** A symbol is away from home only if home is full. */
  ghost predicate HomeFirst(h: Hashing, buckets: Buckets, capacity: int) {
    forall k, x :: InBucket(buckets, k, x) && k != Home(h, x, |buckets|) ==> |buckets[Home(h, x, |buckets|)]| == capacity
  }

  predicate Bounded(buckets: Buckets, capacity: int) {
    forall k :: 0 <= k < |buckets| ==> |buckets[k]| <= capacity
  }

  predicate EachInOrder(buckets: Buckets) {
    forall k :: 0 <= k < |buckets| ==> InOrder(buckets[k])
  }

  /** What holds of the buckets after `n` symbols. */
  ghost predicate Placed(h: Hashing, names: seq<string>, n: nat, buckets: Buckets, shards: int, capacity: int)
    requires n <= |names|
  {
    && |buckets| == shards && Total(buckets) == n
    && Bounded(buckets, capacity)
    && Partition(buckets, names[..n])
    && HomeFirst(h, buckets, capacity)
    && EachInOrder(buckets)
  }

  function Push(buckets: Buckets, k: nat, name: string): Buckets
    requires k < |buckets|
  {
    buckets[k := buckets[k] + [name]]
  }

  lemma PushMember(buckets: Buckets, k: nat, name: string, j: int, x: string)
    requires k < |buckets|
    ensures InBucket(Push(buckets, k, name), j, x) <==> InBucket(buckets, j, x) || (j == k && x == name)
  {
  }

  lemma PushKeepsPartition(buckets: Buckets, k: nat, name: string, names: seq<string>)
    requires k < |buckets| && Partition(buckets, names) && name !in names
    ensures Partition(Push(buckets, k, name), names + [name])
  {
    var after := Push(buckets, k, name);
    forall x ensures InSome(after, x) <==> x in names + [name] {
      if InSome(after, x) {
        var j :| 0 <= j < |after| && InBucket(after, j, x);
        PushMember(buckets, k, name, j, x);
        assert InBucket(buckets, j, x) ==> InSome(buckets, x);
      }
      if x in names {
        assert InSome(buckets, x);
        var j :| 0 <= j < |buckets| && InBucket(buckets, j, x);
        PushMember(buckets, k, name, j, x);
      }
      if x == name {
        PushMember(buckets, k, name, k, x);
      }
    }
    forall i, j, x | InBucket(after, i, x) && InBucket(after, j, x) ensures i == j {
      PushMember(buckets, k, name, i, x);
      PushMember(buckets, k, name, j, x);
      assert InBucket(buckets, i, x) || InBucket(buckets, j, x) ==> InSome(buckets, x);
    }
  }

  lemma PushKeepsHomes(h: Hashing, buckets: Buckets, k: nat, name: string, capacity: int)
    requires k < |buckets| && HomeFirst(h, buckets, capacity) && |buckets[k]| < capacity
    requires Bounded(buckets, capacity)
    requires k != Home(h, name, |buckets|) ==> |buckets[Home(h, name, |buckets|)]| >= capacity
    ensures HomeFirst(h, Push(buckets, k, name), capacity)
  {
    var after := Push(buckets, k, name);
    forall j, x | InBucket(after, j, x) && j != Home(h, x, |after|)
      ensures |after[Home(h, x, |after|)]| == capacity
    {
      PushMember(buckets, k, name, j, x);
    }
  }

  /** One more symbol, in the first shard of its order that has room. */
  lemma NextPlaced(h: Hashing, names: seq<string>, n: nat, buckets: Buckets, shards: int, capacity: int, k: nat)
    requires shards > 0 && capacity > 0 && n < |names| && InOrder(names)
    requires Placed(h, names, n, buckets, shards, capacity)
    requires FirstFree(buckets, FallbackShards(h, names[n], shards), capacity) == Some(k)
    ensures k < shards && Placed(h, names, n + 1, Push(buckets, k, names[n]), shards, capacity)
  {
    var order, name := FallbackShards(h, names[n], shards), names[n];
    FallbackIsEveryShard(h, name, shards);
    forall i | 0 <= i < |order| ensures 0 <= order[i] < |buckets| {
      assert order[i] in order;
    }
    FirstFreeIsFirst(buckets, order, capacity);
    hide FallbackShards, FirstFree, Partition, HomeFirst;
    TotalAfterPush(buckets, k, name);
    forall x | x in names[..n] ensures Lex(x, name) && x != name {
      var i :| 0 <= i < n && names[i] == x;
    }
    assert names[..n + 1] == names[..n] + [name];
    PushKeepsPartition(buckets, k, name, names[..n]);
    PushKeepsHomes(h, buckets, k, name, capacity);
    BucketFromNames(buckets, k, names[..n]);
    PushInOrder(buckets[k], name, names[..n]);
  }

  lemma BucketFromNames(buckets: Buckets, k: nat, names: seq<string>)
    requires k < |buckets| && Partition(buckets, names)
    ensures forall x :: x in buckets[k] ==> x in names
  {
    forall x | x in buckets[k] ensures x in names {
      assert InBucket(buckets, k, x);
      assert InSome(buckets, x);
    }
  }

  lemma PushInOrder(bucket: seq<string>, name: string, earlier: seq<string>)
    requires InOrder(bucket) && forall x :: x in bucket ==> x in earlier
    requires forall x :: x in earlier ==> Lex(x, name) && x != name
    ensures InOrder(bucket + [name])
  {
    forall i | 0 <= i < |bucket| ensures Lex(bucket[i], name) && bucket[i] != name {
      assert bucket[i] in bucket;
    }
  }

  lemma StartPlaced(h: Hashing, names: seq<string>, shards: int, capacity: int)
    requires shards > 0 && capacity > 0
    ensures Placed(h, names, 0, seq(shards, _ => []), shards, capacity)
  {
    var empty: Buckets := seq(shards, _ => []);
    TotalOfEmpty(empty);
    forall x ensures !InSome(empty, x) {
    }
  }

  /** With enough shards every symbol finds room, so the defensive error is never reached. */
  lemma {:induction false} FillSucceeds(h: Hashing, names: seq<string>, n: nat, shards: int, capacity: int)
    requires shards > 0 && capacity > 0 && n <= |names| && InOrder(names)
    requires |names| <= shards * capacity
    ensures Fill(h, names, n, shards, capacity).Some?
    ensures Placed(h, names, n, Fill(h, names, n, shards, capacity).value, shards, capacity)
  {
    if n == 0 {
      StartPlaced(h, names, shards, capacity);
    } else {
      FillSucceeds(h, names, n - 1, shards, capacity);
      var buckets := Fill(h, names, n - 1, shards, capacity).value;
      RoomIsLeft(h, names[n - 1], buckets, shards, capacity);
      var k := FirstFree(buckets, FallbackShards(h, names[n - 1], shards), capacity).value;
      NextPlaced(h, names, n - 1, buckets, shards, capacity, k);
    }
  }

  /** Fewer symbols than places: some shard of any complete order has room. */
  lemma RoomIsLeft(h: Hashing, name: string, buckets: Buckets, shards: int, capacity: int)
    requires shards > 0 && capacity > 0 && |buckets| == shards
    requires Total(buckets) < shards * capacity
    ensures FirstFree(buckets, FallbackShards(h, name, shards), capacity).Some?
  {
    var order := FallbackShards(h, name, shards);
    FallbackIsEveryShard(h, name, shards);
    forall i | 0 <= i < |order| ensures 0 <= order[i] < |buckets| {
      assert order[i] in order;
    }
    FirstFreeIsFirst(buckets, order, capacity);
    if FirstFree(buckets, order, capacity).None? {
      forall k | 0 <= k < |buckets| ensures |buckets[k]| >= capacity {
        assert k in order;
      }
      TotalOfFull(buckets, capacity);
      assert false;
    }
  }

  // ---- The result ---------------------------------------------------------------------------------------

  lemma {:induction false} SortOfInOrder(names: seq<string>)
    requires InOrder(names)
    ensures Sort(names, Lex) == names
  {
    if names != [] {
      SortOfInOrder(names[1..]);
      assert |names| > 1 ==> Lex(names[0], names[1]);
    }
  }

  lemma SortedAlready(buckets: Buckets)
    requires EachInOrder(buckets)
    ensures SortedBuckets(buckets) == buckets
  {
    forall k | 0 <= k < |buckets| ensures Sort(buckets[k], Lex) == buckets[k] {
      SortOfInOrder(buckets[k]);
    }
  }

  /**
   For any hash, assignment succeeds exactly when the shards suffice for the distinct symbols;
   its last, defensive error never occurs.
   */
  lemma AssignSucceedsIff(h: Hashing, symbols: seq<string>, shards: int, capacity: int)
    requires shards > 0 && capacity > 0 && Normalized(h, symbols).Some?
    ensures Assign(h, symbols, shards, capacity).Ok? <==>
              ShardsNeeded(|Distinct(Normalized(h, symbols).value)|, capacity) <= shards
    ensures Assign(h, symbols, shards, capacity) != Err(NoRoomLeft)
  {
    var names := Distinct(Normalized(h, symbols).value);
    DistinctEffect(Normalized(h, symbols).value);
    CeilBounds(|names|, capacity, shards);
    if ShardsNeeded(|names|, capacity) <= shards {
      FillSucceeds(h, names, |names|, shards, capacity);
    }
  }

  /**
   A successful assignment puts each distinct symbol in exactly one of the shards, at most
   `capacity` to a shard and in order, away from home only where home is full.
   */
  lemma AssignmentIsExact(h: Hashing, symbols: seq<string>, shards: int, capacity: int)
    requires Assign(h, symbols, shards, capacity).Ok?
    ensures var buckets := Assign(h, symbols, shards, capacity).value;
            && |buckets| == shards
            && Bounded(buckets, capacity) && EachInOrder(buckets)
            && Partition(buckets, Normalized(h, symbols).value)
            && HomeFirst(h, buckets, capacity)
  {
    var list := Normalized(h, symbols).value;
    var names := Distinct(list);
    DistinctEffect(list);
    CeilBounds(|names|, capacity, shards);
    FillSucceeds(h, names, |names|, shards, capacity);
    var buckets := Fill(h, names, |names|, shards, capacity).value;
    SortedAlready(buckets);
    assert names[..|names|] == names;
    hide Fill;
    assert Partition(buckets, list);
  }

  /** The result depends only on the set of normalised symbols, not on their order or repetition. */
  lemma OrderAndDuplicatesDoNotMatter(h: Hashing, a: seq<string>, b: seq<string>, shards: int, capacity: int)
    requires Normalized(h, a).Some? && Normalized(h, b).Some?
    requires forall x :: x in Normalized(h, a).value <==> x in Normalized(h, b).value
    ensures Assign(h, a, shards, capacity) == Assign(h, b, shards, capacity)
  {
    DistinctEffect(Normalized(h, a).value);
    DistinctEffect(Normalized(h, b).value);
    InOrderUnique(Distinct(Normalized(h, a).value), Distinct(Normalized(h, b).value));
  }

  /** A blank symbol is refused, and otherwise each symbol is replaced by its normal form. */
  lemma {:induction false} NormalizedIff(h: Hashing, symbols: seq<string>)
    ensures Normalized(h, symbols).None? <==> Blank(h, symbols)
    ensures Normalized(h, symbols).Some? ==>
              && |Normalized(h, symbols).value| == |symbols|
              && forall k :: 0 <= k < |symbols| ==> h.normalize(symbols[k]) == Some(Normalized(h, symbols).value[k])
  {
    if symbols != [] {
      NormalizedIff(h, symbols[1..]);
    }
  }

  /** How many different names the symbols have once normalised. */
  function Different(h: Hashing, symbols: seq<string>): nat {
    |set x | x in symbols && h.normalize(x).Some? :: h.normalize(x).value|
  }

  lemma {:induction false} InOrderSize(names: seq<string>)
    requires InOrder(names)
    ensures |set x | x in names| == |names|
  {
    if names != [] {
      var rest := names[1..];
      InOrderSize(rest);
      assert (set x | x in names) == {names[0]} + set x | x in rest;
      assert names[0] !in rest;
    }
  }

  lemma DifferentAreDistinct(h: Hashing, symbols: seq<string>)
    requires Normalized(h, symbols).Some?
    ensures |Distinct(Normalized(h, symbols).value)| == Different(h, symbols)
  {
    var names := Normalized(h, symbols).value;
    NormalizedIff(h, symbols);
    DistinctEffect(names);
    InOrderSize(Distinct(names));
    hide Normalized, Distinct, InOrder;
    var different := set x | x in symbols && h.normalize(x).Some? :: h.normalize(x).value;
    forall y ensures y in different <==> y in Distinct(names) {
      if y in different {
        var x :| x in symbols && h.normalize(x) == Some(y);
        var k :| 0 <= k < |symbols| && symbols[k] == x;
        assert names[k] == y;
      }
      if y in names {
        var k :| 0 <= k < |names| && names[k] == y;
        assert symbols[k] in symbols && h.normalize(symbols[k]) == Some(y);
      }
    }
    assert different == set x | x in Distinct(names);
  }

  predicate Blank(h: Hashing, symbols: seq<string>) {
    exists k :: 0 <= k < |symbols| && h.normalize(symbols[k]).None?
  }

  /** Every outcome of an assignment but its placement: which error, and when there is none. */
  lemma AssignOutcome(h: Hashing, symbols: seq<string>, shards: int, capacity: int)
    ensures var r := Assign(h, symbols, shards, capacity);
            if shards <= 0 then r == Err(NonPositiveShards)
            else if capacity <= 0 then r == Err(NonPositiveCapacity)
            else if Blank(h, symbols) then r == Err(BlankSymbol)
            else if Different(h, symbols) > shards * capacity then r == Err(TooFewShards)
            else r.Ok?
  {
    NormalizedIff(h, symbols);
    if shards > 0 && capacity > 0 && Normalized(h, symbols).Some? {
      AssignSucceedsIff(h, symbols, shards, capacity);
      DifferentAreDistinct(h, symbols);
      CeilBounds(|Distinct(Normalized(h, symbols).value)|, capacity, shards);
    }
    hide Normalized, Distinct, Fill, SortedBuckets, Different, ShardsNeeded;
  }

  /** The computed count is the minimum asked for, or the least that holds all different symbols. */
  lemma RequiredShardsIs(h: Hashing, symbols: seq<string>, capacity: int, minimum: int)
    ensures var r := RequiredShards(h, symbols, capacity, minimum);
            if capacity <= 0 then r == Err(NonPositiveCapacity)
            else if minimum <= 0 then r == Err(NonPositiveShards)
            else if Blank(h, symbols) then r == Err(BlankSymbol)
            else
              && r.Ok? && minimum <= r.value && Different(h, symbols) <= r.value * capacity
              && (minimum < r.value ==> (r.value - 1) * capacity < Different(h, symbols))
  {
    NormalizedIff(h, symbols);
    if capacity > 0 && minimum > 0 && Normalized(h, symbols).Some? {
      DifferentAreDistinct(h, symbols);
      var value := RequiredShards(h, symbols, capacity, minimum).value;
      CeilBounds(Different(h, symbols), capacity, value);
      if minimum < value {
        CeilBounds(Different(h, symbols), capacity, value - 1);
      }
    }
    hide Normalized, Distinct, Different, ShardsNeeded;
  }

  /** Away from home the shards are tried by their digests. */
  lemma FallbackIsByDigest(h: Hashing, name: string, shards: int, i: int, j: int)
    requires shards > 0 && 0 < i < j < |FallbackShards(h, name, shards)|
    ensures var order := FallbackShards(h, name, shards); h.digest(name, order[i]) <= h.digest(name, order[j])
  {
    var home := Home(h, name, shards);
    var others := Filter(Range(0, shards), (k: int) => k != home);
    var le := (a: int, b: int) => h.digest(name, a) <= h.digest(name, b);
    hide Range, Filter, Sort, Home;
    SortSorted(others, le);
    assert FallbackShards(h, name, shards) == [home] + Sort(others, le);
    assert le(Sort(others, le)[i - 1], Sort(others, le)[j - 1]);
  }

  /** The computed shard count is always enough, and the ceiling is the least that is. */
  lemma RequiredShardsSuffice(h: Hashing, symbols: seq<string>, capacity: int, minimum: int)
    requires RequiredShards(h, symbols, capacity, minimum).Ok?
    ensures Assign(h, symbols, RequiredShards(h, symbols, capacity, minimum).value, capacity).Ok?
    ensures forall fewer :: minimum <= fewer < RequiredShards(h, symbols, capacity, minimum).value ==>
              Assign(h, symbols, fewer, capacity) == Err(TooFewShards)
  {
    AssignSucceedsIff(h, symbols, RequiredShards(h, symbols, capacity, minimum).value, capacity);
  }

  // ---- The algorithm -----------------------------------------------------------------------------------

  lemma {:induction false} StuckStaysStuck(h: Hashing, names: seq<string>, n: nat, m: nat, shards: int, capacity: int)
    requires shards > 0 && n <= m <= |names| && Fill(h, names, n, shards, capacity).None?
    ensures Fill(h, names, m, shards, capacity).None?
  {
    if n < m {
      StuckStaysStuck(h, names, n, m - 1, shards, capacity);
    }
  }

  method NormalizeAll(h: Hashing, symbols: seq<string>) returns (list: Option<seq<string>>)
    ensures list == Normalized(h, symbols)
  {
    var names: seq<string> := [];
    var i := |symbols|;
    while i > 0
      invariant 0 <= i <= |symbols|
      invariant Normalized(h, symbols[i..]) == Some(names)
    {
      i := i - 1;
      assert symbols[i..][0] == symbols[i] && symbols[i..][1..] == symbols[i + 1..];
      var name := h.normalize(symbols[i]);
      if name.None? {
        BlankRefusesAll(h, symbols, i);
        return None;
      }
      names := [name.value] + names;
    }
    list := Some(names);
  }

  lemma {:induction false} BlankRefusesAll(h: Hashing, symbols: seq<string>, i: nat)
    requires i < |symbols| && h.normalize(symbols[i]).None?
    ensures Normalized(h, symbols).None?
  {
    if i > 0 {
      BlankRefusesAll(h, symbols[1..], i - 1);
    }
  }

  /** Tries the shards of an order until one has room. */
  method TryShards(buckets: Buckets, order: seq<int>, capacity: int, name: string) returns (after: Buckets, placed: bool)
    ensures placed <==> FirstFree(buckets, order, capacity).Some?
    ensures placed ==> var k := FirstFree(buckets, order, capacity).value; k < |buckets| && after == Push(buckets, k, name)
    ensures !placed ==> after == buckets
  {
    after, placed := buckets, false;
    var j := 0;
    while j < |order|
      invariant j <= |order| && !placed && after == buckets
      invariant FirstFree(buckets, order, capacity) == FirstFree(buckets, order[j..], capacity)
    {
      var shard := order[j];
      assert order[j..][0] == shard && order[j..][1..] == order[j + 1..];
      if 0 <= shard < |buckets| && |after[shard]| < capacity {
        after := after[shard := after[shard] + [name]];
        placed := true;
        return;
      }
      j := j + 1;
    }
  }

  method AssignSymbolsToShards(h: Hashing, symbols: seq<string>, shards: int, capacity: int)
    returns (r: Result<Buckets, ShardError>)
    ensures r == Assign(h, symbols, shards, capacity)
  {
    if shards <= 0 {
      return Err(NonPositiveShards);
    }
    if capacity <= 0 {
      return Err(NonPositiveCapacity);
    }
    var list := NormalizeAll(h, symbols);
    if list.None? {
      return Err(BlankSymbol);
    }
    var names := Distinct(list.value);
    if ShardsNeeded(|names|, capacity) > shards {
      return Err(TooFewShards);
    }
    var buckets: Buckets := seq(shards, _ => []);
    for i := 0 to |names|
      invariant Fill(h, names, i, shards, capacity) == Some(buckets)
    {
      var after, placed := TryShards(buckets, FallbackShards(h, names[i], shards), capacity, names[i]);
      if !placed {
        StuckStaysStuck(h, names, i + 1, |names|, shards, capacity);
        return Err(NoRoomLeft);
      }
      buckets := after;
    }
    r := Ok(SortedBuckets(buckets));
  }

  /** One shard's symbols; an identifier outside the shard range is refused first. */
  method GetSymbolsForShard(h: Hashing, symbols: seq<string>, shard: int, shards: int, capacity: int)
    returns (r: Option<Result<seq<string>, ShardError>>)
    ensures r.None? <==> !(0 <= shard < shards)
    ensures r.Some? ==> (r.value.Ok? <==> Assign(h, symbols, shards, capacity).Ok?)
    ensures r.Some? && r.value.Ok? ==>
              |Assign(h, symbols, shards, capacity).value| == shards &&
              r.value.value == Assign(h, symbols, shards, capacity).value[shard]
  {
    if shard < 0 || shard >= shards {
      return None;
    }
    var assignment := AssignSymbolsToShards(h, symbols, shards, capacity);
    if assignment.Err? {
      return Some(Err(assignment.error));
    }
    AssignmentIsExact(h, symbols, shards, capacity);
    r := Some(Ok(assignment.value[shard]));
  }
}
