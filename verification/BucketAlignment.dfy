/**
 Alignment of a refresh range to aggregate buckets.  An instant is a number of microseconds
 since the epoch; a moment is the same instant broken into calendar fields.
 */
module BucketAlignment {
  import opened Arithmetic
  import opened Wrappers

  datatype Moment = Moment(day: int, hour: int, minute: int, second: int, micro: int)

  datatype Timeframe = M5 | M15 | H1 | H4 | Day

  const MINUTE: int := 60_000_000
  const HOUR: int := 3_600_000_000
  const DAY: int := 86_400_000_000

  function Size(tf: Timeframe): (size: int)
    ensures size > 0
  {
    match tf
    case M5 => 300_000_000
    case M15 => 900_000_000
    case H1 => 3_600_000_000
    case H4 => 14_400_000_000
    case Day => 86_400_000_000
  }

  predicate ValidMoment(m: Moment) {
    0 <= m.hour < 24 && 0 <= m.minute < 60 && 0 <= m.second < 60 && 0 <= m.micro < 1_000_000
  }

  function Instant(m: Moment): int {
    m.day * DAY + m.hour * HOUR + m.minute * MINUTE + m.second * 1_000_000 + m.micro
  }

  function Fields(t: int): (m: Moment)
    ensures ValidMoment(m) && Instant(m) == t
  {
    var inDay := t % DAY;
    var inHour := inDay % HOUR;
    var inMinute := inHour % MINUTE;
    Moment(t / DAY, inDay / HOUR, inHour / MINUTE, inMinute / 1_000_000, inMinute % 1_000_000)
  }

  /** Replaces the fields below the timeframe, the way the service truncates a datetime. */
  function Truncate(m: Moment, tf: Timeframe): Moment {
    match tf
    case M5 => m.(minute := m.minute / 5 * 5, second := 0, micro := 0)
    case M15 => m.(minute := m.minute / 15 * 15, second := 0, micro := 0)
    case H1 => m.(minute := 0, second := 0, micro := 0)
    case H4 => m.(hour := m.hour / 4 * 4, minute := 0, second := 0, micro := 0)
    case Day => m.(hour := 0, minute := 0, second := 0, micro := 0)
  }

  datatype AlignmentError = EmptyWindow | ReversedWindow

  /** Field-wise alignment of a window; an inclusive end is advanced by one microsecond first. */
  function Align(start: int, end: int, tf: Timeframe, endInclusive: bool): Result<(int, int), AlignmentError> {
    if endInclusive && start > end then Err(ReversedWindow)
    else if !endInclusive && start >= end then Err(EmptyWindow)
    else
      var last := if endInclusive then end + 1 else end;
      var alignedStart := Instant(Truncate(Fields(start), tf));
      var alignedEnd := Instant(Truncate(Fields(last), tf));
      Ok((alignedStart, if alignedEnd < last then alignedEnd + Size(tf) else alignedEnd))
  }

  // ---- Field-wise truncation is rounding down to the bucket --------------------------------

  predicate Boundary(t: int, size: int)
    requires size > 0
  {
    t % size == 0
  }

  lemma MultipleIsBoundary(k: int, size: int)
    requires size > 0
    ensures Boundary(k * size, size)
  {
    assert k * size % size == 0 by {
      QuotientIsUnique(k * size, k, 0, size);
    }
  }

  lemma QuotientIsUnique(t: int, k: int, rest: int, size: int)
    requires 0 <= rest < size && t == k * size + rest
    ensures t / size == k && t % size == rest
  {
    var q, r := t / size, t % size;
    assert t == q * size + r && 0 <= r < size;
    if q < k {
      assert (k - q) * size >= size by { ScaleUp(k - q, size); }
    } else if q > k {
      assert (q - k) * size >= size by { ScaleUp(q - k, size); }
    }
  }

  lemma ScaleUp(n: int, size: int)
    requires n >= 1 && size > 0
    ensures n * size >= size
  {
  }

  /** How many whole buckets precede a moment. */
  function Index(m: Moment, tf: Timeframe): int {
    match tf
    case M5 => m.day * 288 + m.hour * 12 + m.minute / 5
    case M15 => m.day * 96 + m.hour * 4 + m.minute / 15
    case H1 => m.day * 24 + m.hour
    case H4 => m.day * 6 + m.hour / 4
    case Day => m.day
  }

  lemma TruncateIsMultiple(m: Moment, tf: Timeframe)
    requires ValidMoment(m)
    ensures Instant(Truncate(m, tf)) == Index(m, tf) * Size(tf)
    ensures Instant(Truncate(m, tf)) <= Instant(m) < Instant(Truncate(m, tf)) + Size(tf)
  {
  }

  lemma TruncateIsFloor(t: int, tf: Timeframe)
    ensures Instant(Truncate(Fields(t), tf)) == t - t % Size(tf)
    ensures Boundary(Instant(Truncate(Fields(t), tf)), Size(tf))
  {
    var m := Fields(t);
    var low := Instant(Truncate(m, tf));
    TruncateIsMultiple(m, tf);
    QuotientIsUnique(t, Index(m, tf), t - low, Size(tf));
    MultipleIsBoundary(Index(m, tf), Size(tf));
  }

  lemma BoundariesApart(a: int, b: int, size: int)
    requires size > 0 && Boundary(a, size) && Boundary(b, size) && a < b
    ensures a + size <= b
  {
    assert a == a / size * size && b == b / size * size;
    if b / size <= a / size {
      ScaleMonotone(b / size, a / size, size);
    }
    ScaleUp(b / size - a / size, size);
  }

  lemma NextBoundary(a: int, size: int)
    requires size > 0 && Boundary(a, size)
    ensures Boundary(a + size, size)
  {
    assert a == a / size * size;
    MultipleIsBoundary(a / size + 1, size);
  }

  /** The window is covered by bucket boundaries, and no aligned window that covers it is smaller. */
  lemma AlignIsLeastCover(start: int, end: int, tf: Timeframe, endInclusive: bool)
    requires Align(start, end, tf, endInclusive).Ok?
    ensures var size := Size(tf);
            var (low, high) := Align(start, end, tf, endInclusive).value;
            && Boundary(low, size) && Boundary(high, size)
            && low <= start && low < high
            && (if endInclusive then end < high else end <= high)
            && (forall a :: Boundary(a, size) && a <= start ==> a <= low)
            && (forall b :: Boundary(b, size) && (if endInclusive then end < b else end <= b) ==> high <= b)
  {
    var size := Size(tf);
    var last := if endInclusive then end + 1 else end;
    var (low, high) := Align(start, end, tf, endInclusive).value;
    TruncateIsFloor(start, tf);
    TruncateIsFloor(last, tf);
    var floor := Instant(Truncate(Fields(last), tf));
    NextBoundary(floor, size);
    forall a | Boundary(a, size) && a <= start ensures a <= low {
      if low < a {
        BoundariesApart(low, a, size);
      }
    }
    forall b | Boundary(b, size) && last <= b ensures high <= b {
      if b < high {
        BoundariesApart(b, high, size);
      }
    }
  }

  /** Aligning an aligned window changes nothing. */
  lemma AlignIsIdempotent(start: int, end: int, tf: Timeframe, endInclusive: bool)
    requires Align(start, end, tf, endInclusive).Ok?
    ensures var aligned := Align(start, end, tf, endInclusive);
            Align(aligned.value.0, aligned.value.1, tf, false) == aligned
  {
    AlignIsLeastCover(start, end, tf, endInclusive);
    var (low, high) := Align(start, end, tf, endInclusive).value;
    TruncateIsFloor(low, tf);
    TruncateIsFloor(high, tf);
  }

  /** With an inclusive end the whole bucket of the last candle is refreshed, on a boundary too. */
  lemma InclusiveEndKeepsItsBucket(start: int, end: int, tf: Timeframe)
    requires start <= end
    ensures var (low, high) := Align(start, end, tf, true).value;
            low <= end - end % Size(tf) && end - end % Size(tf) + Size(tf) <= high
  {
    AlignIsLeastCover(start, end, tf, true);
    TruncateIsFloor(end, tf);
    var (low, high) := Align(start, end, tf, true).value;
    var bucket := end - end % Size(tf);
    BoundariesApart(bucket, high, Size(tf));
    if bucket < low {
      BoundariesApart(bucket, low, Size(tf));
    }
  }

  /** An exclusive end on a boundary leaves out the bucket that starts there. */
  lemma ExclusiveEndStopsAtBoundary(start: int, end: int, tf: Timeframe)
    requires start < end
    ensures Align(start, end, tf, false).value.1 == end <==> Boundary(end, Size(tf))
  {
    AlignIsLeastCover(start, end, tf, false);
    TruncateIsFloor(end, tf);
  }

  /** Day windows are whole buckets of every timeframe. */
  lemma DayWindowsFitEveryTimeframe(start: int, end: int, endInclusive: bool, tf: Timeframe)
    requires Align(start, end, Day, endInclusive).Ok?
    ensures var (low, high) := Align(start, end, Day, endInclusive).value;
            Boundary(low, Size(tf)) && Boundary(high, Size(tf))
  {
    AlignIsLeastCover(start, end, Day, endInclusive);
    var (low, high) := Align(start, end, Day, endInclusive).value;
    DayBoundary(low, tf);
    DayBoundary(high, tf);
  }

  lemma DayBoundary(t: int, tf: Timeframe)
    requires Boundary(t, DAY)
    ensures Boundary(t, Size(tf))
  {
    var days := t / DAY;
    var perDay := match tf case M5 => 288 case M15 => 96 case H1 => 24 case H4 => 6 case Day => 1;
    assert perDay * Size(tf) == DAY;
    assert t == days * perDay * Size(tf);
    MultipleIsBoundary(days * perDay, Size(tf));
  }
}
