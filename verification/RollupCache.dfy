/**
 The analytics rollup cache: trends served from stored bucket counts that are accepted on
 their number, their presence and their total only, over an append-only event log.
 */
module RollupCache {
  import opened Prelude
  import Sorting

  // Times are nanoseconds since the Unix epoch, in UTC.
  const HOUR := 3_600_000_000_000
  const DAY := 86_400_000_000_000

  datatype Bucket = Hourly | Daily

  datatype Metric = AuditTotal | AuthSecurity

  datatype Event = Event(at: int, action: string)

  datatype SeriesPoint = SeriesPoint(bucketStart: int, count: int)

  function StepOf(b: Bucket): (step: int)
    ensures step > 0
  {
    if b == Daily then DAY else HOUR
  }

  function BucketFloor(t: int, b: Bucket): int {
    match b
    case Hourly => t - t % HOUR
    case Daily => t - t % DAY
  }

  predicate Matches(metric: Metric, e: Event) {
    metric == AuditTotal || "auth." <= e.action || "security." <= e.action || "session." <= e.action
  }

  // ---------------------------------------------------------------- ranges

  datatype RangeSpec = RangeSpec(bucket: Bucket, start: int, points: seq<int>) {
    function Step(): int { StepOf(bucket) }
    function End(): int { if points == [] then start else points[|points| - 1] + Step() }
  }

  datatype RangeError = InvalidRange | InvalidBucket

  function PointsFrom(start: int, step: int, count: nat): seq<int> {
    seq(count, i requires 0 <= i < count => start + i * step)
  }

  method BuildRangeSpec(bucket: Bucket, start: int, count: nat) returns (spec: RangeSpec)
    ensures spec == RangeOf(bucket, start, count)
  {
    var points, current := [], start;
    for i := 0 to count
      invariant points == PointsFrom(start, StepOf(bucket), i)
      invariant current == start + i * StepOf(bucket)
    {
      points := points + [current];
      current := current + StepOf(bucket);
    }
    spec := RangeSpec(bucket, start, points);
  }

  function RangeOf(bucket: Bucket, start: int, count: nat): RangeSpec {
    RangeSpec(bucket, start, PointsFrom(start, StepOf(bucket), count))
  }

  function ResolveRange(now: int, key: string): Result<RangeSpec, RangeError> {
    if key == "24h" || key == "" then Ok(RangeOf(Hourly, BucketFloor(now, Hourly) - 23 * HOUR, 24))
    else if key == "7d" then Ok(RangeOf(Daily, BucketFloor(now, Daily) - 6 * DAY, 7))
    else if key == "30d" then Ok(RangeOf(Daily, BucketFloor(now, Daily) - 29 * DAY, 30))
    else Err(InvalidRange)
  }

  function ResolveAuditRange(now: int, key: string, bucket: string): Result<RangeSpec, RangeError> {
    var resolved := ResolveRange(now, key);
    if resolved.Err? || bucket == "" then resolved
    else if bucket == "day" then
      var start := BucketFloor(resolved.value.start, Daily);
      var days := (BucketFloor(now, Daily) - start) / DAY + 1;
      Ok(RangeOf(Daily, start, if days < 0 then 0 else days))
    else if bucket == "hour" && (key == "24h" || key == "") then resolved
    else Err(InvalidBucket)
  }

  /** A non-empty range of consecutive buckets that start on bucket boundaries. */
  ghost predicate Aligned(spec: RangeSpec) {
    && spec.points != []
    && BucketFloor(spec.start, spec.bucket) == spec.start
    && spec.points == PointsFrom(spec.start, spec.Step(), |spec.points|)
  }

  lemma FloorFacts(t: int, b: Bucket)
    ensures BucketFloor(t, b) <= t < BucketFloor(t, b) + StepOf(b)
    ensures BucketFloor(t, b) % StepOf(b) == 0
  {
  }

  lemma MultipleShift(t: int, step: int, k: int)
    requires step > 0 && t % step == 0
    ensures (t + k * step) % step == 0
  {
    var q := t / step;
    assert t + k * step == (q + k) * step;
    MultipleOf(q + k, step);
  }

  lemma MultipleOf(q: int, step: int)
    requires step > 0
    ensures (q * step) % step == 0
  {
    var d := (q * step) / step;
    assert (q - d) * step == (q * step) % step;
    if q - d >= 1 {
      MultipleBound(q - d, step);
      assert false;
    } else if q - d <= -1 {
      MultipleBound(d - q, step);
      assert false;
    }
  }

  lemma MultipleBound(q: int, step: int)
    requires q >= 1 && step > 0
    ensures q * step >= step
    ensures -q * step <= -step
  {
  }

  lemma RangeIsAligned(bucket: Bucket, start: int, count: nat)
    requires count > 0 && start % StepOf(bucket) == 0
    ensures Aligned(RangeOf(bucket, start, count))
    ensures RangeOf(bucket, start, count).End() == start + count * StepOf(bucket)
  {
    var step := StepOf(bucket);
    assert (count - 1) * step + step == count * step;
  }

  lemma RecentRange(now: int, bucket: Bucket, count: nat)
    requires count > 0
    ensures var r := RangeOf(bucket, BucketFloor(now, bucket) - (count - 1) * StepOf(bucket), count);
            Aligned(r) && r.start <= now < r.End()
  {
    var step := StepOf(bucket);
    FloorFacts(now, bucket);
    var start := BucketFloor(now, bucket) - (count - 1) * step;
    MultipleShift(BucketFloor(now, bucket), step, -(count - 1));
    assert start == BucketFloor(now, bucket) + -(count - 1) * step;
    RangeIsAligned(bucket, start, count);
    assert start + count * step == BucketFloor(now, bucket) + step;
    assert (count - 1) * step >= 0;
  }

  lemma FloorMonotone(a: int, b: int)
    requires a <= b
    ensures BucketFloor(a, Daily) <= BucketFloor(b, Daily)
  {
    assert BucketFloor(a, Daily) == DAY * (a / DAY) && BucketFloor(b, Daily) == DAY * (b / DAY);
  }

  lemma DayRange(now: int, from: int)
    requires from <= now
    ensures var start := BucketFloor(from, Daily);
            var days := (BucketFloor(now, Daily) - start) / DAY + 1;
            && days >= 1
            && Aligned(RangeOf(Daily, start, days))
            && start <= now < RangeOf(Daily, start, days).End()
  {
    FloorFacts(now, Daily);
    FloorFacts(from, Daily);
    var start, end := BucketFloor(from, Daily), BucketFloor(now, Daily);
    var days := (end - start) / DAY + 1;
    FloorMonotone(from, now);
    assert (days - 1) * DAY == end - start;
    RangeIsAligned(Daily, start, days);
  }

  /** Every range the service accepts consists of whole buckets and reaches past now. */
  lemma ResolvedRangesAreAligned(now: int, key: string)
    ensures var r := ResolveRange(now, key);
            r.Ok? ==> Aligned(r.value) && r.value.start <= now < r.value.End()
  {
    if key == "24h" || key == "" {
      RecentRange(now, Hourly, 24);
    } else if key == "7d" {
      RecentRange(now, Daily, 7);
    } else {
      RecentRange(now, Daily, 30);
    }
  }

  lemma {:induction false} ResolvedAuditRangesAreAligned(now: int, key: string, bucket: string)
    ensures var r := ResolveAuditRange(now, key, bucket);
            r.Ok? ==> Aligned(r.value) && r.value.start <= now < r.value.End()
  {
    ResolvedRangesAreAligned(now, key);
    if bucket == "day" && ResolveRange(now, key).Ok? {
      DayRange(now, ResolveRange(now, key).value.start);
    }
  }

  /** Which range a key stands for: 24 hours, or 7 or 30 days, the last one the one that now lies in. */
  lemma ResolvedRangeCovers(now: int, key: string)
    ensures ResolveRange(now, key).Ok? <==> key in ["", "24h", "7d", "30d"]
    ensures var r := ResolveRange(now, key);
            r.Ok? ==>
              && r.value.bucket == (if key == "7d" || key == "30d" then Daily else Hourly)
              && |r.value.points| == (if key == "7d" then 7 else if key == "30d" then 30 else 24)
              && r.value.points[|r.value.points| - 1] <= now < r.value.End()
  {
    ResolvedRangesAreAligned(now, key);
    if ResolveRange(now, key).Ok? {
      LastPointFloor(now, ResolveRange(now, key).value.bucket, |ResolveRange(now, key).value.points|);
    }
  }

  /**
   A bucket named in the request: whole days are counted for every range, from the day in which
   the range starts to today, and hours for the 24 hours only.
   */
  lemma AuditRangeCovers(now: int, key: string, bucket: string)
    ensures ResolveAuditRange(now, key, bucket).Ok? <==>
              key in ["", "24h", "7d", "30d"] && (bucket in ["", "day"] || (bucket == "hour" && key in ["", "24h"]))
    ensures var r, plain := ResolveAuditRange(now, key, bucket), ResolveRange(now, key);
            r.Ok? ==>
              && plain.Ok? && (bucket != "day" ==> r == plain)
              && (bucket == "day" ==>
                    && r.value.bucket == Daily && r.value.points != []
                    && r.value.points[0] <= plain.value.start < r.value.points[0] + DAY
                    && now < r.value.End() <= now + DAY)
  {
    ResolvedRangesAreAligned(now, key);
    var plain := ResolveRange(now, key);
    if plain.Ok? && bucket == "day" {
      DayRange(now, plain.value.start);
      FloorFacts(plain.value.start, Daily);
      DayRangeEnds(now, plain.value.start);
    }
  }

  /** A range of days up to today ends less than a day from now. */
  lemma DayRangeEnds(now: int, from: int)
    requires from <= now
    ensures var start := BucketFloor(from, Daily);
            var days := (BucketFloor(now, Daily) - start) / DAY + 1;
            days >= 1 && RangeOf(Daily, start, days).End() == BucketFloor(now, Daily) + DAY <= now + DAY
  {
    var start, end := BucketFloor(from, Daily), BucketFloor(now, Daily);
    var days := (end - start) / DAY + 1;
    FloorFacts(now, Daily);
    FloorMonotone(from, now);
    assert (days - 1) * DAY == end - start;
    RangeIsAligned(Daily, start, days);
  }

  lemma LastPointFloor(now: int, bucket: Bucket, count: nat)
    requires count > 0
    ensures var r := RangeOf(bucket, BucketFloor(now, bucket) - (count - 1) * StepOf(bucket), count);
            r.points[count - 1] == BucketFloor(now, bucket) <= now
  {
    FloorFacts(now, bucket);
  }

  // ---------------------------------------------------------------- counting the log

  function CountIn(log: seq<Event>, metric: Metric, lo: int, hi: int): nat {
    if log == [] then 0
    else CountIn(log[..|log| - 1], metric, lo, hi) +
         (var e := log[|log| - 1]; if lo <= e.at < hi && Matches(metric, e) then 1 else 0)
  }

  /** The trend a fresh aggregation of the whole log gives. */
  function TrueTrend(spec: RangeSpec, metric: Metric, log: seq<Event>): seq<SeriesPoint> {
    seq(|spec.points|, i requires 0 <= i < |spec.points| =>
      SeriesPoint(spec.points[i], CountIn(log, metric, spec.points[i], spec.points[i] + spec.Step())))
  }

  lemma {:induction false} CountInSplits(log: seq<Event>, metric: Metric, lo: int, mid: int, hi: int)
    requires lo <= mid <= hi
    ensures CountIn(log, metric, lo, hi) == CountIn(log, metric, lo, mid) + CountIn(log, metric, mid, hi)
  {
    if log != [] {
      CountInSplits(log[..|log| - 1], metric, lo, mid, hi);
    }
  }

  lemma CountInGrows(log: seq<Event>, e: Event, metric: Metric, lo: int, hi: int)
    ensures CountIn(log, metric, lo, hi) <= CountIn(log + [e], metric, lo, hi)
  {
    assert (log + [e])[..|log|] == log;
  }

  /** The actions that count as security events begin with one of these. */
  const SECURITY_PREFIXES := ["auth.", "security.", "session."]

  predicate SecurityAction(action: string) {
    exists p :: p in SECURITY_PREFIXES && p <= action
  }

  lemma SecurityActionIff(action: string)
    ensures SecurityAction(action) <==> "auth." <= action || "security." <= action || "session." <= action
  {
    assert SECURITY_PREFIXES[0] == "auth." && SECURITY_PREFIXES[1] == "security." && SECURITY_PREFIXES[2] == "session.";
    assert "auth." in SECURITY_PREFIXES && "security." in SECURITY_PREFIXES && "session." in SECURITY_PREFIXES;
  }

  /** What one more event adds to a count: one if it lies in the range and the metric counts its action. */
  lemma EventCountsIff(log: seq<Event>, e: Event, metric: Metric, lo: int, hi: int)
    ensures var counted := lo <= e.at < hi && (metric == AuditTotal || SecurityAction(e.action));
            CountIn(log + [e], metric, lo, hi) == CountIn(log, metric, lo, hi) + if counted then 1 else 0
  {
    assert (log + [e])[..|log|] == log;
    SecurityActionIff(e.action);
  }

  function Total(points: seq<SeriesPoint>): int {
    if points == [] then 0 else points[0].count + Total(points[1..])
  }

  lemma NextBucket(start: int, step: int, count: int)
    requires count > 0 && step > 0
    ensures start + step + (count - 1) * step == start + count * step
    ensures step <= count * step
  {
    assert (count - 1) * step >= 0;
  }

  lemma FirstBucket(log: seq<Event>, metric: Metric, bucket: Bucket, start: int, count: nat)
    requires count > 0
    ensures Total(TrueTrend(RangeOf(bucket, start, count), metric, log))
         == CountIn(log, metric, start, start + StepOf(bucket))
            + Total(TrueTrend(RangeOf(bucket, start + StepOf(bucket), count - 1), metric, log))
  {
    var step := StepOf(bucket);
    var r, tail := RangeOf(bucket, start, count), RangeOf(bucket, start + step, count - 1);
    forall i | 0 <= i < count - 1
      ensures r.points[i + 1] == tail.points[i]
    {
      assert start + (i + 1) * step == start + step + i * step;
    }
    assert r.points[0] == start + 0 * step;
    assert TrueTrend(r, metric, log)[1..] == TrueTrend(tail, metric, log);
  }

  /** The buckets partition the range: their true counts add up to the range's count. */
  lemma {:induction false} BucketsPartition(log: seq<Event>, metric: Metric, bucket: Bucket, start: int, count: nat)
    ensures Total(TrueTrend(RangeOf(bucket, start, count), metric, log))
         == CountIn(log, metric, start, start + count * StepOf(bucket))
    decreases count
  {
    var step := StepOf(bucket);
    if count == 0 {
      EmptyCount(log, metric, start);
    } else {
      BucketsPartition(log, metric, bucket, start + step, count - 1);
      FirstBucket(log, metric, bucket, start, count);
      NextBucket(start, step, count);
      CountInSplits(log, metric, start, start + step, start + count * step);
    }
  }

  lemma {:induction false} EmptyCount(log: seq<Event>, metric: Metric, at: int)
    ensures CountIn(log, metric, at, at) == 0
  {
    if log != [] {
      EmptyCount(log[..|log| - 1], metric, at);
    }
  }

  // ---------------------------------------------------------------- the cache as a value

  type Rollups = map<(Metric, Bucket, int), int>

  datatype Cache = Cache(log: seq<Event>, rollups: Rollups)

  function StartsIn(rollups: Rollups, metric: Metric, bucket: Bucket, lo: int, hi: int): set<int> {
    set k | k in rollups && k.0 == metric && k.1 == bucket && lo <= k.2 < hi :: k.2
  }

  lemma {:induction false} LeastExists(s: set<int>)
    requires s != {}
    ensures exists m :: m in s && forall x :: x in s ==> m <= x
  {
    var m := AnyElement(s);
    if s != {m} {
      LeastExists(s - {m});
      var least :| least in s - {m} && forall x :: x in s - {m} ==> least <= x;
      assert forall x :: x in s ==> x == m || x in s - {m};
      if m < least {
        assert forall x :: x in s ==> m <= x;
      } else {
        assert forall x :: x in s ==> least <= x;
      }
    }
  }

  ghost function Ascending(s: set<int>): (r: seq<int>)
    ensures forall x :: x in r <==> x in s
    ensures forall i, j :: 0 <= i < j < |r| ==> r[i] < r[j]
  {
    if s == {} then []
    else
      LeastExists(s);
      var m :| m in s && forall x :: x in s ==> m <= x;
      [m] + Ascending(s - {m})
  }

  lemma AscendingStep(s: set<int>, m: int)
    requires m in s && forall x :: x in s ==> m <= x
    ensures Ascending(s) == [m] + Ascending(s - {m})
  {
    var r := Ascending(s);
    assert r[0] in r && m in r;
    var i :| 0 <= i < |r| && r[i] == m;
    assert r[0] == m;
  }

  function Cell(rollups: Rollups, k: (Metric, Bucket, int)): int {
    if k in rollups then rollups[k] else 0
  }

  function RowsAt(rollups: Rollups, metric: Metric, bucket: Bucket, starts: seq<int>): seq<SeriesPoint> {
    seq(|starts|, i requires 0 <= i < |starts| => SeriesPoint(starts[i], Cell(rollups, (metric, bucket, starts[i]))))
  }

  /** The rows of a range in bucket order, as the SQL query returns them. */
  ghost function Rows(rollups: Rollups, metric: Metric, bucket: Bucket, lo: int, hi: int): (rows: seq<SeriesPoint>) {
    RowsAt(rollups, metric, bucket, Ascending(StartsIn(rollups, metric, bucket, lo, hi)))
  }

  predicate Present(rows: seq<SeriesPoint>, start: int) {
    rows != [] && (rows[|rows| - 1].bucketStart == start || Present(rows[..|rows| - 1], start))
  }

  lemma {:induction false} PresentAt(rows: seq<SeriesPoint>, start: int) returns (i: nat)
    requires Present(rows, start)
    ensures i < |rows| && rows[i].bucketStart == start
  {
    if rows[|rows| - 1].bucketStart == start {
      i := |rows| - 1;
    } else {
      i := PresentAt(rows[..|rows| - 1], start);
    }
  }

  ghost predicate Fresh(spec: RangeSpec, rows: seq<SeriesPoint>, expected: int) {
    && |rows| == |spec.points|
    && Total(rows) == expected
    && forall p :: p in spec.points ==> Present(rows, p)
  }

  /** Last value wins, and a bucket without a row counts zero. */
  function Lookup(rows: seq<SeriesPoint>, start: int): int {
    if rows == [] then 0
    else if rows[|rows| - 1].bucketStart == start then rows[|rows| - 1].count
    else Lookup(rows[..|rows| - 1], start)
  }

  function MappedSeries(spec: RangeSpec, rows: seq<SeriesPoint>): seq<SeriesPoint> {
    seq(|spec.points|, i requires 0 <= i < |spec.points| => SeriesPoint(spec.points[i], Lookup(rows, spec.points[i])))
  }

  function Replaced(rollups: Rollups, metric: Metric, bucket: Bucket, lo: int, hi: int, points: seq<SeriesPoint>): Rollups {
    var kept := map k | k in rollups && !(k.0 == metric && k.1 == bucket && lo <= k.2 < hi) :: rollups[k];
    Inserted(kept, metric, bucket, points)
  }

  function Inserted(rollups: Rollups, metric: Metric, bucket: Bucket, points: seq<SeriesPoint>): Rollups {
    if points == [] then rollups
    else Inserted(rollups, metric, bucket, points[..|points| - 1])
           [(metric, bucket, points[|points| - 1].bucketStart) := points[|points| - 1].count]
  }

  /** One request for a trend: what it answers and what it leaves in the table. */
  ghost function Query(c: Cache, spec: RangeSpec, metric: Metric): (Cache, seq<SeriesPoint>) {
    var rows := Rows(c.rollups, metric, spec.bucket, spec.start, spec.End());
    if Fresh(spec, rows, CountIn(c.log, metric, spec.start, spec.End())) then (c, MappedSeries(spec, rows))
    else
      var trend := TrueTrend(spec, metric, c.log);
      (c.(rollups := Replaced(c.rollups, metric, spec.bucket, spec.start, spec.End(), trend)), trend)
  }

  datatype Operation = Append(e: Event) | Ask(spec: RangeSpec, metric: Metric)

  ghost function Do(c: Cache, op: Operation): Cache {
    match op
    case Append(e) => c.(log := c.log + [e])
    case Ask(spec, metric) => if Aligned(spec) then Query(c, spec, metric).0 else c
  }

  ghost function DoAll(c: Cache, ops: seq<Operation>): Cache {
    if ops == [] then c else Do(DoAll(c, ops[..|ops| - 1]), ops[|ops| - 1])
  }

  /** The number of events that a cell stands for. */
  function CellCount(log: seq<Event>, k: (Metric, Bucket, int)): nat {
    CountIn(log, k.0, k.2, k.2 + StepOf(k.1))
  }

  /** No stored cell exceeds the number of events that are in its bucket now. */
  ghost predicate NeverAhead(c: Cache) {
    forall k :: k in c.rollups ==> c.rollups[k] <= CellCount(c.log, k)
  }

  // ---------------------------------------------------------------- why a fresh series is exact

  lemma SubsetSameSize<T>(a: set<T>, b: set<T>)
    requires a <= b && |a| == |b|
    ensures a == b
  {
    assert |b - a| == |b| - |a|;
  }

  lemma {:induction false} AscendingSize(s: seq<int>)
    requires forall i, j :: 0 <= i < j < |s| ==> s[i] < s[j]
    ensures |set x | x in s| == |s|
  {
    if s != [] {
      AscendingSize(s[1..]);
      assert s == [s[0]] + s[1..];
      assert (set x | x in s) == {s[0]} + (set x | x in s[1..]);
      assert s[0] !in s[1..];
    }
  }

  lemma PointsAscend(start: int, step: int, count: nat)
    requires step > 0
    ensures var p := PointsFrom(start, step, count); forall i, j :: 0 <= i < j < |p| ==> p[i] < p[j]
  {
    var p := PointsFrom(start, step, count);
    forall i, j | 0 <= i < j < |p|
      ensures p[i] < p[j]
    {
      assert (j - i) * step > 0;
    }
  }

  /** As many rows as points, with every point among them: the rows are the points. */
  lemma FreshRowsArePoints(spec: RangeSpec, starts: seq<int>)
    requires Aligned(spec) && |starts| == |spec.points|
    requires forall i, j :: 0 <= i < j < |starts| ==> starts[i] < starts[j]
    requires forall p :: p in spec.points ==> p in starts
    ensures starts == spec.points
  {
    PointsAscend(spec.start, StepOf(spec.bucket), |spec.points|);
    assert PointsFrom(spec.start, StepOf(spec.bucket), |spec.points|) == spec.points;
    AscendingSize(starts);
    AscendingSize(spec.points);
    var ours, theirs := set x | x in spec.points, set x | x in starts;
    SubsetSameSize(ours, theirs);
    forall x | x in starts
      ensures x in spec.points
    {
      assert x in theirs;
      assert x in ours;
    }
    var leq := (x: int, y: int) => x <= y;
    Sorting.SortedSetUnique(leq, starts, spec.points);
  }

  /** Cells that are nowhere above and in total equal are equal everywhere. */
  lemma {:induction false} EqualTotals(rows: seq<SeriesPoint>, trend: seq<SeriesPoint>)
    requires |rows| == |trend|
    requires forall i :: 0 <= i < |rows| ==> rows[i].bucketStart == trend[i].bucketStart && rows[i].count <= trend[i].count
    ensures Total(rows) <= Total(trend)
    ensures Total(rows) == Total(trend) ==> rows == trend
  {
    if rows != [] {
      EqualTotals(rows[1..], trend[1..]);
      assert rows == [rows[0]] + rows[1..] && trend == [trend[0]] + trend[1..];
    }
  }

  lemma {:induction false} LookupAt(rows: seq<SeriesPoint>, i: nat)
    requires i < |rows|
    requires forall j, k :: 0 <= j < k < |rows| ==> rows[j].bucketStart != rows[k].bucketStart
    ensures Lookup(rows, rows[i].bucketStart) == rows[i].count
  {
    if i < |rows| - 1 {
      LookupAt(rows[..|rows| - 1], i);
    }
  }

  lemma AlignedTotal(spec: RangeSpec, metric: Metric, log: seq<Event>)
    requires Aligned(spec)
    ensures Total(TrueTrend(spec, metric, log)) == CountIn(log, metric, spec.start, spec.End())
    ensures spec.End() == spec.start + |spec.points| * spec.Step()
  {
    var n := |spec.points|;
    BucketsPartition(log, metric, spec.bucket, spec.start, n);
    assert spec.start + (n - 1) * spec.Step() + spec.Step() == spec.start + n * spec.Step();
    assert spec == RangeOf(spec.bucket, spec.start, n);
  }

  lemma FreshRowsMatchTrend(c: Cache, spec: RangeSpec, metric: Metric, rows: seq<SeriesPoint>, expected: int)
    requires NeverAhead(c) && Aligned(spec)
    requires rows == Rows(c.rollups, metric, spec.bucket, spec.start, spec.End()) && Fresh(spec, rows, expected)
    ensures |rows| == |spec.points|
    ensures forall i :: 0 <= i < |rows| ==>
              && rows[i].bucketStart == spec.points[i]
              && rows[i].count <= CountIn(c.log, metric, spec.points[i], spec.points[i] + spec.Step())
  {
    var starts := Ascending(StartsIn(c.rollups, metric, spec.bucket, spec.start, spec.End()));
    forall p | p in spec.points
      ensures p in starts
    {
      var i := PresentAt(rows, p);
      assert starts[i] in starts;
    }
    FreshRowsArePoints(spec, starts);
    forall i | 0 <= i < |rows|
      ensures rows[i].bucketStart == spec.points[i]
      ensures rows[i].count <= CountIn(c.log, metric, spec.points[i], spec.points[i] + spec.Step())
    {
      assert starts[i] in starts;
      RowNotAhead(c, metric, spec.bucket, starts[i]);
    }
  }

  lemma RowNotAhead(c: Cache, metric: Metric, bucket: Bucket, start: int)
    requires NeverAhead(c) && (metric, bucket, start) in c.rollups
    ensures c.rollups[(metric, bucket, start)] <= CountIn(c.log, metric, start, start + StepOf(bucket))
  {
    var k := (metric, bucket, start);
    assert c.rollups[k] <= CellCount(c.log, k);
  }

  lemma MappedInOrder(spec: RangeSpec, rows: seq<SeriesPoint>)
    requires Aligned(spec) && |rows| == |spec.points|
    requires forall i :: 0 <= i < |rows| ==> rows[i].bucketStart == spec.points[i]
    ensures MappedSeries(spec, rows) == rows
  {
    PointsAscend(spec.start, StepOf(spec.bucket), |spec.points|);
    assert PointsFrom(spec.start, StepOf(spec.bucket), |spec.points|) == spec.points;
    forall i | 0 <= i < |rows|
      ensures Lookup(rows, spec.points[i]) == rows[i].count
    {
      LookupAt(rows, i);
    }
  }

  /** Whenever the stored series is accepted, it agrees with a fresh aggregation bucket by bucket. */
  lemma {:induction false} FreshSeriesIsExact(c: Cache, spec: RangeSpec, metric: Metric)
    requires NeverAhead(c) && Aligned(spec)
    requires Fresh(spec, Rows(c.rollups, metric, spec.bucket, spec.start, spec.End()),
                   CountIn(c.log, metric, spec.start, spec.End()))
    ensures MappedSeries(spec, Rows(c.rollups, metric, spec.bucket, spec.start, spec.End()))
         == TrueTrend(spec, metric, c.log)
  {
    var rows := Rows(c.rollups, metric, spec.bucket, spec.start, spec.End());
    FreshRowsMatchTrend(c, spec, metric, rows, CountIn(c.log, metric, spec.start, spec.End()));
    MappedInOrder(spec, rows);
    AlignedTotal(spec, metric, c.log);
    EqualTotals(rows, TrueTrend(spec, metric, c.log));
  }

  lemma {:induction false} InsertedCells(rollups: Rollups, metric: Metric, bucket: Bucket, points: seq<SeriesPoint>, k: (Metric, Bucket, int))
    requires k in Inserted(rollups, metric, bucket, points)
    ensures var cell := Inserted(rollups, metric, bucket, points)[k];
            || (k in rollups && cell == rollups[k])
            || (k.0 == metric && k.1 == bucket && SeriesPoint(k.2, cell) in points)
  {
    if points != [] {
      var last := points[|points| - 1];
      assert last in points;
      if k != (metric, bucket, last.bucketStart) {
        InsertedCells(rollups, metric, bucket, points[..|points| - 1], k);
        assert forall x :: x in points[..|points| - 1] ==> x in points;
      }
    }
  }

  lemma ReplacedCells(rollups: Rollups, metric: Metric, bucket: Bucket, lo: int, hi: int, points: seq<SeriesPoint>, k: (Metric, Bucket, int))
    requires k in Replaced(rollups, metric, bucket, lo, hi, points)
    ensures var cell := Replaced(rollups, metric, bucket, lo, hi, points)[k];
            || (k in rollups && cell == rollups[k])
            || (k.0 == metric && k.1 == bucket && SeriesPoint(k.2, cell) in points)
  {
    var kept := map k | k in rollups && !(k.0 == metric && k.1 == bucket && lo <= k.2 < hi) :: rollups[k];
    InsertedCells(kept, metric, bucket, points, k);
  }

  /** The stored cells after a rebuild: those outside the range as they were, and in it the given points alone. */
  lemma {:induction false} InsertedExactly(rollups: Rollups, metric: Metric, bucket: Bucket, points: seq<SeriesPoint>)
    requires forall i, j :: 0 <= i < j < |points| ==> points[i].bucketStart != points[j].bucketStart
    ensures var r := Inserted(rollups, metric, bucket, points);
            && (forall i :: 0 <= i < |points| ==>
                  var k := (metric, bucket, points[i].bucketStart); k in r && r[k] == points[i].count)
            && (forall k :: k in r ==> k in rollups || IsCellOf(k, metric, bucket, points))
            && (forall k :: k in rollups && !IsCellOf(k, metric, bucket, points) ==> k in r && r[k] == rollups[k])
  {
    if points != [] {
      var n := |points| - 1;
      var init, last := points[..n], points[n];
      InsertedExactly(rollups, metric, bucket, init);
      var before := Inserted(rollups, metric, bucket, init);
      assert Inserted(rollups, metric, bucket, points) == before[(metric, bucket, last.bucketStart) := last.count];
      assert forall i :: 0 <= i < n ==> init[i] == points[i];
      forall k
        ensures IsCellOf(k, metric, bucket, points) <==>
                IsCellOf(k, metric, bucket, init) || k == (metric, bucket, last.bucketStart)
      {
        CellOfLast(k, metric, bucket, points);
      }
    }
  }

  ghost predicate IsCellOf(k: (Metric, Bucket, int), metric: Metric, bucket: Bucket, points: seq<SeriesPoint>) {
    k.0 == metric && k.1 == bucket && exists i :: 0 <= i < |points| && points[i].bucketStart == k.2
  }

  lemma CellOfLast(k: (Metric, Bucket, int), metric: Metric, bucket: Bucket, points: seq<SeriesPoint>)
    requires points != []
    ensures var n := |points| - 1;
            IsCellOf(k, metric, bucket, points) <==>
            IsCellOf(k, metric, bucket, points[..n]) || k == (metric, bucket, points[n].bucketStart)
  {
    var n := |points| - 1;
    if IsCellOf(k, metric, bucket, points[..n]) {
      var i :| 0 <= i < n && points[..n][i].bucketStart == k.2;
      assert points[i].bucketStart == k.2;
    }
    if IsCellOf(k, metric, bucket, points) {
      var i :| 0 <= i < |points| && points[i].bucketStart == k.2;
      assert i < n ==> points[..n][i].bucketStart == k.2;
    }
  }

  /** What ReplaceRollupSeries leaves: in the range the given points and nothing else, outside it everything as it was. */
  lemma ReplacedExactly(rollups: Rollups, metric: Metric, bucket: Bucket, lo: int, hi: int, points: seq<SeriesPoint>)
    requires forall i, j :: 0 <= i < j < |points| ==> points[i].bucketStart != points[j].bucketStart
    requires forall i :: 0 <= i < |points| ==> lo <= points[i].bucketStart < hi
    ensures var r := Replaced(rollups, metric, bucket, lo, hi, points);
            && (forall i :: 0 <= i < |points| ==>
                  var k := (metric, bucket, points[i].bucketStart); k in r && r[k] == points[i].count)
            && (forall k :: k in r && InRange(k, metric, bucket, lo, hi) ==> IsCellOf(k, metric, bucket, points))
            && (forall k :: !InRange(k, metric, bucket, lo, hi) ==>
                  (k in r <==> k in rollups) && (k in rollups ==> r[k] == rollups[k]))
  {
    var kept := map k | k in rollups && !(k.0 == metric && k.1 == bucket && lo <= k.2 < hi) :: rollups[k];
    InsertedExactly(kept, metric, bucket, points);
    forall k | IsCellOf(k, metric, bucket, points)
      ensures InRange(k, metric, bucket, lo, hi)
    {
    }
  }

  predicate InRange(k: (Metric, Bucket, int), metric: Metric, bucket: Bucket, lo: int, hi: int) {
    k.0 == metric && k.1 == bucket && lo <= k.2 < hi
  }

  lemma AscendingIs(s: set<int>, r: seq<int>)
    requires forall i, j :: 0 <= i < j < |r| ==> r[i] < r[j]
    requires forall x :: x in r <==> x in s
    ensures Ascending(s) == r
  {
    var leq := (x: int, y: int) => x <= y;
    Sorting.SortedSetUnique(leq, Ascending(s), r);
  }

  lemma {:induction false} PresentIff(rows: seq<SeriesPoint>, i: nat)
    requires i < |rows|
    ensures Present(rows, rows[i].bucketStart)
  {
    if i < |rows| - 1 {
      PresentIff(rows[..|rows| - 1], i);
    }
  }

  /** The points of an aligned range ascend and lie within it. */
  lemma PointsWithin(spec: RangeSpec)
    requires Aligned(spec)
    ensures forall i, j :: 0 <= i < j < |spec.points| ==> spec.points[i] < spec.points[j]
    ensures forall i :: 0 <= i < |spec.points| ==> spec.start <= spec.points[i] < spec.End()
  {
    var n := |spec.points|;
    PointsAscend(spec.start, spec.Step(), n);
    assert PointsFrom(spec.start, spec.Step(), n) == spec.points;
    assert spec.points[0] == spec.start + 0 * spec.Step();
    assert spec.points[n - 1] < spec.End();
  }

  /** After a rebuild the rows of the range are the rebuilt trend. */
  lemma StoredTrendReadsBack(rollups: Rollups, metric: Metric, spec: RangeSpec, trend: seq<SeriesPoint>)
    requires Aligned(spec) && |trend| == |spec.points|
    requires forall i :: 0 <= i < |trend| ==> trend[i].bucketStart == spec.points[i]
    ensures Rows(Replaced(rollups, metric, spec.bucket, spec.start, spec.End(), trend), metric, spec.bucket, spec.start, spec.End()) == trend
  {
    PointsWithin(spec);
    ReplacedExactly(rollups, metric, spec.bucket, spec.start, spec.End(), trend);
    var r := Replaced(rollups, metric, spec.bucket, spec.start, spec.End(), trend);
    var starts := StartsIn(r, metric, spec.bucket, spec.start, spec.End());
    forall x
      ensures x in spec.points <==> x in starts
    {
      StartsAreCells(r, metric, spec.bucket, spec.start, spec.End(), x);
      if x in spec.points {
        var i :| 0 <= i < |spec.points| && spec.points[i] == x;
        assert trend[i].bucketStart == x;
      }
    }
    AscendingIs(starts, spec.points);
  }

  lemma StartsAreCells(rollups: Rollups, metric: Metric, bucket: Bucket, lo: int, hi: int, x: int)
    ensures x in StartsIn(rollups, metric, bucket, lo, hi) <==> lo <= x < hi && (metric, bucket, x) in rollups
  {
    if x in StartsIn(rollups, metric, bucket, lo, hi) {
      var k :| k in rollups && k.0 == metric && k.1 == bucket && lo <= k.2 < hi && k.2 == x;
      assert k == (metric, bucket, x);
    }
    if lo <= x < hi && (metric, bucket, x) in rollups {
      var k := (metric, bucket, x);
      assert k in rollups && k.2 == x;
    }
  }

  /**
   The cache works: asked again before another event is recorded, a request finds what the first
   one left, answers the same and rebuilds nothing.
   */
  lemma SecondRequestHits(c: Cache, spec: RangeSpec, metric: Metric)
    requires Aligned(spec)
    ensures Query(Query(c, spec, metric).0, spec, metric) == (Query(c, spec, metric).0, Query(c, spec, metric).1)
  {
    var rows := Rows(c.rollups, metric, spec.bucket, spec.start, spec.End());
    var total := CountIn(c.log, metric, spec.start, spec.End());
    if !Fresh(spec, rows, total) {
      var trend := TrueTrend(spec, metric, c.log);
      StoredTrendReadsBack(c.rollups, metric, spec, trend);
      AlignedTotal(spec, metric, c.log);
      forall p | p in spec.points
        ensures Present(trend, p)
      {
        var i :| 0 <= i < |spec.points| && spec.points[i] == p;
        PresentIff(trend, i);
      }
      MappedInOrder(spec, trend);
    }
  }

  /** The log only grows, and a request stores counts of the log it sees. */
  lemma DoKeepsNeverAhead(c: Cache, op: Operation)
    requires NeverAhead(c)
    ensures NeverAhead(Do(c, op))
  {
    match op
    case Append(e) => AppendKeepsNeverAhead(c, e);
    case Ask(spec, metric) =>
      if Aligned(spec) {
        AskKeepsNeverAhead(c, spec, metric);
      }
  }

  lemma AppendKeepsNeverAhead(c: Cache, e: Event)
    requires NeverAhead(c)
    ensures NeverAhead(c.(log := c.log + [e]))
  {
    forall k | k in c.rollups
      ensures c.rollups[k] <= CellCount(c.log + [e], k)
    {
      CountInGrows(c.log, e, k.0, k.2, k.2 + StepOf(k.1));
    }
  }

  lemma AskKeepsNeverAhead(c: Cache, spec: RangeSpec, metric: Metric)
    requires NeverAhead(c)
    ensures NeverAhead(Query(c, spec, metric).0)
  {
    var trend := TrueTrend(spec, metric, c.log);
    var replaced := Replaced(c.rollups, metric, spec.bucket, spec.start, spec.End(), trend);
    forall k | k in replaced
      ensures replaced[k] <= CellCount(c.log, k)
    {
      ReplacedCells(c.rollups, metric, spec.bucket, spec.start, spec.End(), trend, k);
    }
    assert NeverAhead(c.(rollups := replaced));
  }

  lemma QueryIsExact(c: Cache, spec: RangeSpec, metric: Metric)
    requires NeverAhead(c) && Aligned(spec)
    ensures NeverAhead(Query(c, spec, metric).0) && Query(c, spec, metric).1 == TrueTrend(spec, metric, c.log)
  {
    AskKeepsNeverAhead(c, spec, metric);
    if Fresh(spec, Rows(c.rollups, metric, spec.bucket, spec.start, spec.End()),
             CountIn(c.log, metric, spec.start, spec.End())) {
      FreshSeriesIsExact(c, spec, metric);
    }
  }

  lemma {:induction false} RunKeepsNeverAhead(c: Cache, ops: seq<Operation>)
    requires NeverAhead(c)
    ensures NeverAhead(DoAll(c, ops))
  {
    if ops != [] {
      RunKeepsNeverAhead(c, ops[..|ops| - 1]);
      DoKeepsNeverAhead(DoAll(c, ops[..|ops| - 1]), ops[|ops| - 1]);
    }
  }

  /**
   After any mix of appended events and earlier requests for whatever ranges and buckets,
   every request is answered with the trend of the current log: the cache is invisible.
   */
  lemma {:induction false} CacheIsTransparent(log: seq<Event>, ops: seq<Operation>, spec: RangeSpec, metric: Metric)
    requires Aligned(spec)
    ensures var c := DoAll(Cache(log, map[]), ops);
            Query(c, spec, metric).1 == TrueTrend(spec, metric, c.log)
  {
    var c := DoAll(Cache(log, map[]), ops);
    RunKeepsNeverAhead(Cache(log, map[]), ops);
    QueryIsExact(c, spec, metric);
  }

  // ---------------------------------------------------------------- the service

  /** The number of events at such times. */
  function CountSuch(events: seq<Event>, such: int -> bool): nat {
    if events == [] then 0
    else CountSuch(events[..|events| - 1], such) + if such(events[|events| - 1].at) then 1 else 0
  }

  /** The times whose bucket starts at p. */
  function StartsAt(p: int, bucket: Bucket): int -> bool {
    at => BucketFloor(at, bucket) == p
  }

  /** The events a rebuild works on: those of the metric since start. */
  function Selected(log: seq<Event>, metric: Metric, start: int): seq<Event> {
    if log == [] then []
    else
      var e := log[|log| - 1];
      Selected(log[..|log| - 1], metric, start) + if e.at >= start && Matches(metric, e) then [e] else []
  }

  /** The multiples of a positive step split the line into stretches of its length. */
  lemma FloorIff(at: int, p: int, step: int)
    requires step > 0 && p % step == 0
    ensures at - at % step == p <==> p <= at < p + step
  {
    var q, r := p / step, at / step;
    assert p == step * q && at == step * r + at % step;
    if p <= at < p + step {
      assert -step < step * r - step * q < step;
      if r > q {
        Ahead(q, r, step);
      } else if r < q {
        Ahead(r, q, step);
      }
    }
  }

  lemma Ahead(q: int, r: int, step: int)
    requires q < r && step > 0
    ensures step * r - step * q >= step
  {
    MultipleBound(r - q, step);
    assert step * r - step * q == (r - q) * step;
  }

  lemma FloorIffWithin(at: int, p: int, bucket: Bucket)
    requires BucketFloor(p, bucket) == p
    ensures BucketFloor(at, bucket) == p <==> p <= at < p + StepOf(bucket)
  {
    FloorIff(at, p, StepOf(bucket));
  }

  /** What the last event adds to the count of the selected ones. */
  lemma SelectedLast(log: seq<Event>, metric: Metric, start: int, such: int -> bool)
    requires log != []
    ensures var e := log[|log| - 1];
            CountSuch(Selected(log, metric, start), such)
            == CountSuch(Selected(log[..|log| - 1], metric, start), such)
               + if e.at >= start && Matches(metric, e) && such(e.at) then 1 else 0
  {
    var chosen, e := Selected(log[..|log| - 1], metric, start), log[|log| - 1];
    if e.at >= start && Matches(metric, e) {
      assert Selected(log, metric, start) == chosen + [e];
      assert (chosen + [e])[..|chosen|] == chosen;
    } else {
      assert Selected(log, metric, start) == chosen + [] == chosen;
    }
  }

  /** Counting the selected events of a stretch of time is counting the log between its bounds. */
  lemma {:induction false} SelectedSuch(log: seq<Event>, metric: Metric, start: int, lo: int, hi: int, such: int -> bool)
    requires start <= lo && forall at :: such(at) <==> lo <= at < hi
    ensures CountSuch(Selected(log, metric, start), such) == CountIn(log, metric, lo, hi)
  {
    if log != [] {
      var init, e := log[..|log| - 1], log[|log| - 1];
      SelectedSuch(init, metric, start, lo, hi, such);
      SelectedLast(log, metric, start, such);
    }
  }

  /** So the events a rebuild counts by bucket floor are those of the log between the bucket's bounds. */
  lemma SelectedCount(log: seq<Event>, metric: Metric, start: int, p: int, bucket: Bucket)
    requires start <= p && BucketFloor(p, bucket) == p
    ensures CountSuch(Selected(log, metric, start), StartsAt(p, bucket)) == CountIn(log, metric, p, p + StepOf(bucket))
  {
    forall at
      ensures StartsAt(p, bucket)(at) <==> p <= at < p + StepOf(bucket)
    {
      FloorIffWithin(at, p, bucket);
    }
    SelectedSuch(log, metric, start, p, p + StepOf(bucket), StartsAt(p, bucket));
  }

  lemma PointsAreFloors(spec: RangeSpec, i: nat)
    requires Aligned(spec) && i < |spec.points|
    ensures BucketFloor(spec.points[i], spec.bucket) == spec.points[i] && spec.start <= spec.points[i]
  {
    MultipleShift(spec.start, spec.Step(), i);
    assert i * spec.Step() >= 0;
  }

  /** aggregateTrend: one pass over the events through an index of the buckets. */
  method AggregateTrend(spec: RangeSpec, events: seq<Event>) returns (trend: seq<SeriesPoint>)
    requires Aligned(spec)
    ensures |trend| == |spec.points|
    ensures forall i :: 0 <= i < |trend| ==>
              trend[i] == SeriesPoint(spec.points[i], CountSuch(events, StartsAt(spec.points[i], spec.bucket)))
  {
    var indexByBucket: map<int, nat> := map[];
    trend := [];
    PointsAscend(spec.start, StepOf(spec.bucket), |spec.points|);
    for i := 0 to |spec.points|
      invariant |trend| == i
      invariant forall j :: 0 <= j < i ==> trend[j] == SeriesPoint(spec.points[j], 0)
      invariant forall p :: p in indexByBucket ==> indexByBucket[p] < i && spec.points[indexByBucket[p]] == p
      invariant forall j :: 0 <= j < i ==> spec.points[j] in indexByBucket
    {
      indexByBucket := indexByBucket[spec.points[i] := i];
      trend := trend + [SeriesPoint(spec.points[i], 0)];
    }
    for k := 0 to |events|
      invariant |trend| == |spec.points|
      invariant forall j :: 0 <= j < |trend| ==>
                  trend[j] == SeriesPoint(spec.points[j], CountSuch(events[..k], StartsAt(spec.points[j], spec.bucket)))
    {
      assert events[..k + 1][..k] == events[..k];
      var bucketStart := BucketFloor(events[k].at, spec.bucket);
      if bucketStart in indexByBucket {
        var idx := indexByBucket[bucketStart];
        trend := trend[idx := trend[idx].(count := trend[idx].count + 1)];
      }
    }
    assert events[..|events|] == events;
  }

  /** rollupSeriesFresh: length, total and the presence of every bucket. */
  method RollupSeriesFresh(spec: RangeSpec, rows: seq<SeriesPoint>, expected: int) returns (ok: bool)
    ensures ok <==> Fresh(spec, rows, expected)
  {
    if |rows| != |spec.points| {
      return false;
    }
    var starts: set<int> := {};
    var total := 0;
    for i := 0 to |rows|
      invariant forall p :: p in starts <==> Present(rows[..i], p)
      invariant total + Total(rows[i..]) == Total(rows)
    {
      assert rows[..i + 1][..i] == rows[..i];
      starts := starts + {rows[i].bucketStart};
      total := total + rows[i].count;
    }
    if total != expected {
      return false;
    }
    assert rows[..|rows|] == rows;
    for i := 0 to |spec.points|
      invariant forall j :: 0 <= j < i ==> spec.points[j] in starts
    {
      if spec.points[i] !in starts {
        assert spec.points[i] in spec.points && !Present(rows, spec.points[i]);
        return false;
      }
    }
    ok := true;
  }

  /** mapRollupSeries: the stored value of each bucket, in the order of the range. */
  method MapRollupSeries(spec: RangeSpec, rows: seq<SeriesPoint>) returns (out: seq<SeriesPoint>)
    ensures out == MappedSeries(spec, rows)
  {
    var values: map<int, int> := map[];
    for i := 0 to |rows|
      invariant forall p :: Lookup(rows[..i], p) == if p in values then values[p] else 0
    {
      assert rows[..i + 1][..i] == rows[..i];
      values := values[rows[i].bucketStart := rows[i].count];
    }
    assert rows[..|rows|] == rows;
    out := [];
    for i := 0 to |spec.points|
      invariant out == MappedSeries(spec, rows)[..i]
    {
      out := out + [SeriesPoint(spec.points[i], if spec.points[i] in values then values[spec.points[i]] else 0)];
    }
  }

  method PopLeast(s: set<int>) returns (m: int, rest: set<int>)
    requires s != {}
    ensures m in s && rest == s - {m} && |rest| < |s|
    ensures Ascending(s) == [m] + Ascending(rest)
  {
    LeastExists(s);
    m :| m in s && forall x :: x in s ==> m <= x;
    rest := s - {m};
    AscendingStep(s, m);
  }

  lemma RowsCons(rollups: Rollups, metric: Metric, bucket: Bucket, m: int, starts: seq<int>)
    ensures RowsAt(rollups, metric, bucket, [m] + starts)
         == [SeriesPoint(m, Cell(rollups, (metric, bucket, m)))] + RowsAt(rollups, metric, bucket, starts)
  {
  }

  /** ORDER BY bucket_start: the least remaining bucket first. */
  method RowsInOrder(rollups: Rollups, metric: Metric, bucket: Bucket, left: set<int>) returns (rows: seq<SeriesPoint>)
    ensures rows == RowsAt(rollups, metric, bucket, Ascending(left))
    decreases |left|
  {
    if left == {} {
      return [];
    }
    var m, rest := PopLeast(left);
    var later := RowsInOrder(rollups, metric, bucket, rest);
    rows := [SeriesPoint(m, Cell(rollups, (metric, bucket, m)))] + later;
    RowsCons(rollups, metric, bucket, m, Ascending(rest));
  }

  class AnalyticsService {
    var log: seq<Event>
    var rollups: Rollups

    ghost function View(): Cache
      reads this
    {
      Cache(log, rollups)
    }

    /** The append-only log's only operation. */
    method RecordEvent(e: Event)
      modifies this`log
      ensures View() == Do(old(View()), Append(e))
    {
      log := log + [e];
    }

    method CountAuditEvents(metric: Metric, lo: int, hi: int) returns (count: nat)
      ensures count == CountIn(log, metric, lo, hi)
    {
      count := 0;
      for i := 0 to |log|
        invariant count == CountIn(log[..i], metric, lo, hi)
      {
        assert log[..i + 1][..i] == log[..i];
        if lo <= log[i].at < hi && Matches(metric, log[i]) {
          count := count + 1;
        }
      }
      assert log[..|log|] == log;
    }

    /** LoadAuditEventsSince and the metric's filter. */
    method LoadSelectedEvents(metric: Metric, start: int) returns (events: seq<Event>)
      ensures events == Selected(log, metric, start)
    {
      events := [];
      for i := 0 to |log|
        invariant events == Selected(log[..i], metric, start)
      {
        assert log[..i + 1][..i] == log[..i];
        if log[i].at >= start && Matches(metric, log[i]) {
          events := events + [log[i]];
        }
      }
      assert log[..|log|] == log;
    }

    method LoadRollupSeries(metric: Metric, bucket: Bucket, lo: int, hi: int) returns (rows: seq<SeriesPoint>)
      ensures rows == Rows(rollups, metric, bucket, lo, hi)
    {
      rows := RowsInOrder(rollups, metric, bucket, StartsIn(rollups, metric, bucket, lo, hi));
    }

    method ReplaceRollupSeries(metric: Metric, bucket: Bucket, lo: int, hi: int, points: seq<SeriesPoint>)
      modifies this`rollups
      ensures rollups == Replaced(old(rollups), metric, bucket, lo, hi, points)
    {
      rollups := map k | k in rollups && !(k.0 == metric && k.1 == bucket && lo <= k.2 < hi) :: rollups[k];
      ghost var kept := rollups;
      for i := 0 to |points|
        invariant rollups == Inserted(kept, metric, bucket, points[..i])
      {
        assert points[..i + 1][..i] == points[..i];
        rollups := rollups[(metric, bucket, points[i].bucketStart) := points[i].count];
      }
      assert points[..|points|] == points;
    }

    method Rebuild(spec: RangeSpec, metric: Metric) returns (trend: seq<SeriesPoint>)
      requires Aligned(spec)
      ensures trend == TrueTrend(spec, metric, log)
    {
      var events := LoadSelectedEvents(metric, spec.start);
      trend := AggregateTrend(spec, events);
      forall i | 0 <= i < |trend|
        ensures trend[i] == TrueTrend(spec, metric, log)[i]
      {
        PointsAreFloors(spec, i);
        SelectedCount(log, metric, spec.start, spec.points[i], spec.bucket);
      }
    }

    /** loadOrBuildAuditTrend: whatever is stored, the answer is the trend of the log. */
    method LoadOrBuildAuditTrend(spec: RangeSpec, metric: Metric) returns (trend: seq<SeriesPoint>)
      requires Aligned(spec)
      modifies this`rollups
      ensures (View(), trend) == Query(old(View()), spec, metric)
      ensures NeverAhead(old(View())) ==> NeverAhead(View()) && trend == TrueTrend(spec, metric, log)
    {
      if NeverAhead(View()) {
        QueryIsExact(View(), spec, metric);
      }
      trend := LoadOrBuild(spec, metric);
    }

    method LoadOrBuild(spec: RangeSpec, metric: Metric) returns (trend: seq<SeriesPoint>)
      requires Aligned(spec)
      modifies this`rollups
      ensures (View(), trend) == Query(old(View()), spec, metric)
    {
      var rows, accepted := Consult(spec, metric);
      if accepted {
        trend := MapRollupSeries(spec, rows);
        return;
      }
      trend := RebuildAndStore(spec, metric);
    }

    /** The stored series of the range, and whether it is accepted. */
    method Consult(spec: RangeSpec, metric: Metric) returns (rows: seq<SeriesPoint>, accepted: bool)
      requires spec.points != []
      ensures rows == Rows(rollups, metric, spec.bucket, spec.start, spec.End())
      ensures accepted <==> Fresh(spec, rows, CountIn(log, metric, spec.start, spec.End()))
    {
      var end := spec.points[|spec.points| - 1] + spec.Step();
      var expected := CountAuditEvents(metric, spec.start, end);
      rows := LoadRollupSeries(metric, spec.bucket, spec.start, end);
      accepted := RollupSeriesFresh(spec, rows, expected);
    }

    method RebuildAndStore(spec: RangeSpec, metric: Metric) returns (trend: seq<SeriesPoint>)
      requires Aligned(spec)
      modifies this`rollups
      ensures trend == TrueTrend(spec, metric, log)
      ensures rollups == Replaced(old(rollups), metric, spec.bucket, spec.start, spec.End(), trend)
    {
      trend := Rebuild(spec, metric);
      ReplaceRollupSeries(metric, spec.bucket, spec.start, spec.End(), trend);
    }
  }
}
