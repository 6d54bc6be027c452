/** Chart sample reduction (Modules/lvs_chart_data.py), on exact numbers. */
module ChartData {
  import opened Options
  import opened PyNumbers

  datatype Point = Point(t: real, v: real)

  predicate SortedByTime(points: seq<Point>)
  {
    forall i, j :: 0 <= i < j < |points| ==> points[i].t <= points[j].t
  }

  // ----- sorting without duplicates

  predicate Less(p: Point, q: Point)
  {
    p.t < q.t || (p.t == q.t && p.v < q.v)
  }

  predicate Ordered(points: seq<Point>)
  {
    forall i, j :: 0 <= i < j < |points| ==> !Less(points[j], points[i])
  }

  predicate StrictlyOrdered(points: seq<Point>)
  {
    forall i, j :: 0 <= i < j < |points| ==> Less(points[i], points[j])
  }

  function Insert(p: Point, points: seq<Point>): (r: seq<Point>)
    requires Ordered(points)
    ensures Ordered(r) && |r| == |points| + 1
    ensures forall q :: q in r <==> q == p || q in points
  {
    if points == [] || !Less(points[0], p) then [p] + points
    else
      var rest := Insert(p, points[1..]);
      assert forall q :: q in points <==> q == points[0] || q in points[1..];
      assert forall q :: q in rest ==> !Less(q, points[0]);
      [points[0]] + rest
  }

  /** sorted(points, key=(t, v)). */
  function SortPoints(points: seq<Point>): (r: seq<Point>)
    ensures Ordered(r) && |r| == |points|
    ensures forall q :: q in r <==> q in points
  {
    if points == [] then []
    else
      assert forall q :: q in points <==> q == points[0] || q in points[1..];
      Insert(points[0], SortPoints(points[1..]))
  }

  /** _deduplicate: the points in strict order of time and value. */
  method Deduplicate(points: seq<Point>) returns (r: seq<Point>)
    ensures StrictlyOrdered(r) && |r| <= |points|
    ensures forall q :: q in r <==> q in points
  {
    var ordered, seen: set<Point> := SortPoints(points), {};
    r := [];
    for i := 0 to |ordered|
      invariant StrictlyOrdered(r) && |r| <= i
      invariant forall q :: q in r <==> q in seen
      invariant forall q :: q in seen <==> q in ordered[..i]
    {
      var point := ordered[i];
      assert ordered[..i + 1] == ordered[..i] + [point];
      if point !in seen {
        forall k | 0 <= k < |r| ensures Less(r[k], point) {
          assert r[k] in ordered[..i];
        }
        r, seen := r + [point], seen + {point};
      }
    }
    assert ordered[..|ordered|] == ordered;
  }

  // ----- extrema-preserving buckets

  /** Elapsed-time buckets; span is positive. */
  datatype Buckets = Buckets(start: real, span: real, count: nat)
  {
    predicate Valid() { span > 0.0 && count >= 1 }

    function IndexOf(t: real): int
      requires Valid()
    {
      Min(count - 1, Truncate(Position(t)))
    }

    /** The bucket that the index selects: a negative one counts from the end. */
    function SlotOf(t: real): (slot: int)
      requires Valid()
      ensures slot < count
    {
      if IndexOf(t) < 0 then count + IndexOf(t) else IndexOf(t)
    }

    function Position(t: real): real
      requires Valid()
    {
      Scaled(t) / span
    }

    function Scaled(t: real): real { (t - start) * (count as real) }
  }

  function BucketsFor(points: seq<Point>, budget: nat): (b: Buckets)
    requires points != []
    ensures b.Valid()
  {
    var span := points[|points| - 1].t - points[0].t;
    Buckets(points[0].t, if span < 0.000000000001 then 0.000000000001 else span, Max(1, budget / 4))
  }

  lemma {:induction false} ScaledIsMonotone(b: Buckets, t: real, u: real)
    requires t <= u
    ensures b.Scaled(t) <= b.Scaled(u)
  {
    NonNegativeProduct(u - t, b.count as real);
    assert b.Scaled(u) - b.Scaled(t) == (u - t) * (b.count as real);
  }

  /** A later point never gets an earlier index. */
  lemma {:induction false} IndexIsMonotone(b: Buckets, t: real, u: real)
    requires b.Valid() && t <= u
    ensures b.IndexOf(t) <= b.IndexOf(u)
  {
    ScaledIsMonotone(b, t, u);
    DivisionIsMonotone(b.Scaled(t), b.Scaled(u), b.span);
    TruncateIsMonotone(b.Position(t), b.Position(u));
  }

  lemma {:induction false} StartHasIndexZero(b: Buckets)
    requires b.Valid()
    ensures b.IndexOf(b.start) == 0
  {
    assert b.Scaled(b.start) == 0.0;
    DivisionUndone(0.0, b.span);
    FactorOrder(b.Position(b.start), 0.0, b.span);
    FactorOrder(0.0, b.Position(b.start), b.span);
  }

  /** From the first point on the index needs no counting from the end. */
  lemma {:induction false} IndexIsNatural(b: Buckets, t: real)
    requires b.Valid() && b.start <= t
    ensures 0 <= b.IndexOf(t) == b.SlotOf(t) < b.count
  {
    IndexIsMonotone(b, b.start, t);
    StartHasIndexZero(b);
  }

  /** A time n slices before the start is counted back from the last bucket: less than one slice is still in the first
      bucket, one to two are in the last one, and more slices than there are buckets are in none. */
  lemma {:induction false} EarlyTimesCountBack(b: Buckets, t: real, n: nat)
    requires b.Valid() && -(n as real) - 1.0 < b.Position(t) <= -(n as real)
    ensures b.SlotOf(t) == if n == 0 then 0 else b.count - n
  {
  }

  /** Every point has a bucket; otherwise the source raises an IndexError. */
  predicate AllFit(b: Buckets, points: seq<Point>)
    requires b.Valid()
  {
    forall i :: 0 <= i < |points| ==> b.SlotOf(points[i].t) >= 0
  }

  /** A time-sorted series always fits. */
  lemma {:induction false} SortedSeriesFits(points: seq<Point>, budget: nat)
    requires SortedByTime(points) && points != []
    ensures AllFit(BucketsFor(points, budget), points)
  {
    var b := BucketsFor(points, budget);
    forall i | 0 <= i < |points| ensures b.SlotOf(points[i].t) >= 0 {
      assert points[0].t <= points[i].t;
      IndexIsNatural(b, points[i].t);
    }
  }

  /** The points of one bucket, in their order. */
  function InBucket(b: Buckets, index: int, points: seq<Point>): (r: seq<Point>)
    requires b.Valid()
    ensures forall p :: p in r <==> p in points && b.SlotOf(p.t) == index
  {
    if points == [] then []
    else
      var front, last := InBucket(b, index, points[..|points| - 1]), points[|points| - 1];
      assert forall p :: p in points <==> p == last || p in points[..|points| - 1];
      if b.SlotOf(last.t) == index then front + [last] else front
  }

  /** The point at i is the first one of its value. */
  predicate IsFirst(points: seq<Point>, i: nat, m: Point)
  {
    i < |points| && points[i] == m && forall k :: 0 <= k < i ==> points[k].v != m.v
  }

  /** No other point of the same value comes before the first occurrence of m. */
  ghost predicate FirstOfItsValue(points: seq<Point>, m: Point)
  {
    exists i :: IsFirst(points, i, m)
  }

  lemma {:induction false} FirstStays(points: seq<Point>, m: Point)
    requires points != [] && FirstOfItsValue(points[..|points| - 1], m)
    ensures FirstOfItsValue(points, m)
  {
    var i :| IsFirst(points[..|points| - 1], i, m);
    assert IsFirst(points, i, m);
  }

  /** min(bucket, key=value): the first of the smallest. */
  function Lowest(points: seq<Point>): (m: Point)
    requires points != []
    ensures m in points && forall p :: p in points ==> m.v <= p.v
    ensures FirstOfItsValue(points, m)
  {
    var last := points[|points| - 1];
    assert forall p :: p in points <==> p == last || p in points[..|points| - 1];
    if |points| == 1 then
      assert IsFirst(points, 0, last);
      last
    else
      var m := Lowest(points[..|points| - 1]);
      FirstStays(points, m);
      if last.v < m.v then
        assert IsFirst(points, |points| - 1, last);
        last
      else m
  }

  /** max(bucket, key=value): the first of the largest. */
  function Highest(points: seq<Point>): (m: Point)
    requires points != []
    ensures m in points && forall p :: p in points ==> p.v <= m.v
    ensures FirstOfItsValue(points, m)
  {
    var last := points[|points| - 1];
    assert forall p :: p in points <==> p == last || p in points[..|points| - 1];
    if |points| == 1 then
      assert IsFirst(points, 0, last);
      last
    else
      var m := Highest(points[..|points| - 1]);
      FirstStays(points, m);
      if last.v > m.v then
        assert IsFirst(points, |points| - 1, last);
        last
      else m
  }

  function Candidates(bucket: seq<Point>): seq<Point>
    requires bucket != []
  {
    [bucket[0], Lowest(bucket), Highest(bucket), bucket[|bucket| - 1]]
  }

  /** The point is the first, lowest, highest or last one of its bucket. */
  ghost predicate Notable(b: Buckets, points: seq<Point>, p: Point)
    requires b.Valid()
  {
    var bucket := InBucket(b, b.SlotOf(p.t), points);
    bucket != [] && p in Candidates(bucket)
  }

  lemma {:induction false} CandidatesStayInBucket(b: Buckets, index: int, points: seq<Point>, p: Point)
    requires b.Valid() && InBucket(b, index, points) != [] && p in Candidates(InBucket(b, index, points))
    ensures p in points && b.SlotOf(p.t) == index && Notable(b, points, p)
  {
    assert p in InBucket(b, index, points);
  }

  /** extrema_reduce: exactly the notable points of every bucket, in strict order; None is the IndexError. */
  method ExtremaReduce(points: seq<Point>, budget: nat) returns (r: Option<seq<Point>>)
    ensures |points| <= budget ==> r == Some(points)
    ensures |points| > budget ==>
              && (r.Some? <==> AllFit(BucketsFor(points, budget), points))
              && (SortedByTime(points) ==> r.Some?)
              && (r.Some? ==> Reduction(points, budget, r.value) && |r.value| <= Max(4, budget))
              && (SortedByTime(points) ==> forall p :: p in points ==> BetweenNeighbours(points, budget, r.value, p))
  {
    if |points| <= budget {
      return Some(points);
    }
    var b := BucketsFor(points, budget);
    if SortedByTime(points) { SortedSeriesFits(points, budget); }
    var buckets := FillBuckets(b, points);
    if buckets.None? {
      return None;
    }
    var reduced := CollectNotable(b, points, buckets.value);
    forall p | Notable(b, points, p) ensures 0 <= b.SlotOf(p.t) < b.count {
      NotableFits(b, points, p);
    }
    var unique := Deduplicate(reduced);
    if SortedByTime(points) {
      forall p | p in points ensures BetweenNeighbours(points, budget, unique, p) {
        ReductionKeepsExtremesNearby(points, budget, unique, p);
      }
    }
    r := Some(unique);
  }

  lemma {:induction false} NotableFits(b: Buckets, points: seq<Point>, p: Point)
    requires b.Valid() && AllFit(b, points) && Notable(b, points, p)
    ensures b.SlotOf(p.t) >= 0
  {
    assert p in InBucket(b, b.SlotOf(p.t), points);
  }

  /** The notable points, bucket by bucket. */
  method CollectNotable(b: Buckets, points: seq<Point>, buckets: seq<seq<Point>>) returns (reduced: seq<Point>)
    requires b.Valid() && |buckets| == b.count
    requires forall k :: 0 <= k < b.count ==> buckets[k] == InBucket(b, k, points)
    ensures |reduced| <= 4 * b.count
    ensures forall p :: p in reduced <==> 0 <= b.SlotOf(p.t) && Notable(b, points, p)
  {
    reduced := [];
    for slot := 0 to b.count
      invariant |reduced| <= 4 * slot
      invariant forall p :: p in reduced <==> 0 <= b.SlotOf(p.t) < slot && Notable(b, points, p)
    {
      if buckets[slot] != [] {
        var kept := Deduplicate(Candidates(buckets[slot]));
        forall p ensures p in kept <==> b.SlotOf(p.t) == slot && Notable(b, points, p) {
          if p in kept { CandidatesStayInBucket(b, slot, points, p); }
        }
        reduced := reduced + kept;
      } else {
        forall p | Notable(b, points, p) ensures b.SlotOf(p.t) != slot { }
      }
    }
  }

  /** Appends every point to its bucket; None when a point has none. */
  method FillBuckets(b: Buckets, points: seq<Point>) returns (r: Option<seq<seq<Point>>>)
    requires b.Valid()
    ensures r.Some? <==> AllFit(b, points)
    ensures r.Some? ==> |r.value| == b.count && forall k :: 0 <= k < b.count ==> r.value[k] == InBucket(b, k, points)
  {
    var buckets := seq(b.count, _ => []);
    for i := 0 to |points|
      invariant |buckets| == b.count && AllFit(b, points[..i])
      invariant forall k :: 0 <= k < b.count ==> buckets[k] == InBucket(b, k, points[..i])
    {
      var slot := b.SlotOf(points[i].t);
      if slot < 0 {
        return None;
      }
      assert points[..i + 1][..i] == points[..i];
      buckets := buckets[slot := buckets[slot] + [points[i]]];
    }
    assert points[..|points|] == points;
    r := Some(buckets);
  }

  // ----- what the reduction keeps

  /** The result of a reduction that was necessary. */
  ghost predicate Reduction(points: seq<Point>, budget: nat, r: seq<Point>)
  {
    && |points| > budget && AllFit(BucketsFor(points, budget), points) && StrictlyOrdered(r)
    && forall p :: p in r <==> Notable(BucketsFor(points, budget), points, p)
  }

  /** Only measurements are returned. */
  lemma {:induction false} ReductionOnlySelects(points: seq<Point>, budget: nat, r: seq<Point>)
    requires Reduction(points, budget, r)
    ensures forall p :: p in r ==> p in points
  {
    var b := BucketsFor(points, budget);
    forall p | p in r ensures p in points {
      CandidatesStayInBucket(b, b.SlotOf(p.t), points, p);
    }
  }

  /** Every bucket keeps exactly its least and its greatest value. */
  lemma {:induction false} ReductionKeepsExtremes(points: seq<Point>, budget: nat, r: seq<Point>, p: Point)
    requires Reduction(points, budget, r) && p in points
    ensures var b := BucketsFor(points, budget);
            exists low, high :: low in r && high in r
              && b.SlotOf(low.t) == b.SlotOf(p.t) == b.SlotOf(high.t)
              && low.v <= p.v <= high.v
  {
    var b := BucketsFor(points, budget);
    var bucket := InBucket(b, b.SlotOf(p.t), points);
    var low, high := Lowest(bucket), Highest(bucket);
    assert Candidates(bucket)[1] == low && Candidates(bucket)[2] == high;
    CandidatesStayInBucket(b, b.SlotOf(p.t), points, low);
    CandidatesStayInBucket(b, b.SlotOf(p.t), points, high);
    assert low in r && high in r;
  }

  /** Two times are at most one of the max(1, budget // 4) slices of the series apart; a series of no duration is
      given one of 1e-12. */
  predicate OneSlice(points: seq<Point>, budget: nat, t: real, u: real)
    requires points != []
  {
    var duration := points[|points| - 1].t - points[0].t;
    var span := if duration < 0.000000000001 then 0.000000000001 else duration;
    Fits(t - u, if budget < 8 then 1 else budget / 4, span) && Fits(u - t, if budget < 8 then 1 else budget / 4, span)
  }

  predicate Fits(distance: real, times: nat, span: real) { distance * (times as real) <= span }

  /** The point lies between two of the kept ones that are at most one slice of time away from it. */
  ghost predicate BetweenNeighbours(points: seq<Point>, budget: nat, r: seq<Point>, p: Point)
    requires points != []
  {
    && (exists low :: low in r && low.v <= p.v && OneSlice(points, budget, low.t, p.t))
    && (exists high :: high in r && p.v <= high.v && OneSlice(points, budget, high.t, p.t))
  }

  lemma {:induction false} PositionScales(b: Buckets, t: real)
    requires b.Valid()
    ensures b.Position(t) * b.span == (t - b.start) * (b.count as real)
  {
    DivisionUndone(b.Scaled(t), b.span);
  }

  /** Slot k begins at position k, and all but the last one end at the next position. */
  lemma {:induction false} SlotBoundsPosition(b: Buckets, t: real)
    requires b.Valid() && b.start <= t
    ensures 0 <= b.SlotOf(t) < b.count && b.SlotOf(t) as real <= b.Position(t)
    ensures b.SlotOf(t) < b.count - 1 ==> b.Position(t) < b.SlotOf(t) as real + 1.0
  {
    IndexIsNatural(b, t);
    PositionScales(b, t);
    NonNegativeProduct(t - b.start, b.count as real);
    FactorOrder(0.0, b.Position(t), b.span);
  }

  lemma {:induction false} EndPosition(b: Buckets, t: real)
    requires b.Valid() && t - b.start <= b.span
    ensures b.Position(t) <= b.count as real
  {
    PositionScales(b, t);
    ScaleIsMonotone(t - b.start, b.span, b.count as real);
    FactorOrder(b.Position(t), b.count as real, b.span);
  }

  lemma {:induction false} PositionsApart(b: Buckets, t: real, u: real)
    requires b.Valid() && b.Position(u) - b.Position(t) <= 1.0
    ensures (u - t) * (b.count as real) <= b.span
  {
    PositionScales(b, t);
    PositionScales(b, u);
    DifferenceScaled(b.Position(u), b.Position(t), b.span);
    DifferenceScaled(u - b.start, t - b.start, b.count as real);
    ScaleIsMonotone(b.Position(u) - b.Position(t), 1.0, b.span);
    assert (u - b.start) - (t - b.start) == u - t;
  }

  lemma {:induction false} SameSlotIsNearby(b: Buckets, t: real, u: real)
    requires b.Valid() && b.start <= t <= u <= b.start + b.span && b.SlotOf(t) == b.SlotOf(u)
    ensures (u - t) * (b.count as real) <= b.span
  {
    SlotBoundsPosition(b, t);
    SlotBoundsPosition(b, u);
    EndPosition(b, u);
    PositionsApart(b, t, u);
  }

  lemma {:induction false} WithinSeries(points: seq<Point>, p: Point)
    requires SortedByTime(points) && p in points
    ensures points[0].t <= p.t <= points[|points| - 1].t
  {
  }

  lemma {:induction false} SameSlotIsOneSlice(points: seq<Point>, budget: nat, t: real, u: real)
    requires points != [] && points[0].t <= t <= u <= points[|points| - 1].t
    requires BucketsFor(points, budget).SlotOf(t) == BucketsFor(points, budget).SlotOf(u)
    ensures OneSlice(points, budget, t, u) && OneSlice(points, budget, u, t)
  {
    var b := BucketsFor(points, budget);
    SameSlotIsNearby(b, t, u);
    assert b.count == if budget < 8 then 1 else budget / 4;
    NonNegativeProduct(u - t, b.count as real);
    assert Fits(u - t, b.count, b.span) && Fits(t - u, b.count, b.span);
  }

  /** For a time-sorted series: no extreme is lost, and it is found next to where it was measured. */
  lemma {:induction false} ReductionKeepsExtremesNearby(points: seq<Point>, budget: nat, r: seq<Point>, p: Point)
    requires SortedByTime(points) && Reduction(points, budget, r) && p in points
    ensures BetweenNeighbours(points, budget, r, p)
  {
    var b := BucketsFor(points, budget);
    ReductionOnlySelects(points, budget, r);
    ReductionKeepsExtremes(points, budget, r, p);
    var low, high :| low in r && high in r && b.SlotOf(low.t) == b.SlotOf(p.t) == b.SlotOf(high.t)
                     && low.v <= p.v <= high.v;
    WithinSeries(points, p);
    WithinSeries(points, low);
    WithinSeries(points, high);
    if low.t < p.t { SameSlotIsOneSlice(points, budget, low.t, p.t); }
    else { SameSlotIsOneSlice(points, budget, p.t, low.t); }
    if high.t < p.t { SameSlotIsOneSlice(points, budget, high.t, p.t); }
    else { SameSlotIsOneSlice(points, budget, p.t, high.t); }
  }

  /** The first and the last measurement are kept. */
  lemma {:induction false} ReductionKeepsEnds(points: seq<Point>, budget: nat, r: seq<Point>)
    requires Reduction(points, budget, r)
    ensures points[0] in r && points[|points| - 1] in r
  {
    var b := BucketsFor(points, budget);
    var first, last := points[0], points[|points| - 1];
    FirstOfBucket(b, b.SlotOf(first.t), points);
    var bucket := InBucket(b, b.SlotOf(last.t), points);
    assert bucket[|bucket| - 1] == last;
    assert Candidates(InBucket(b, b.SlotOf(first.t), points))[0] == first && Candidates(bucket)[3] == last;
    CandidatesStayInBucket(b, b.SlotOf(first.t), points, first);
    CandidatesStayInBucket(b, b.SlotOf(last.t), points, last);
  }

  lemma {:induction false} FirstOfBucket(b: Buckets, index: int, points: seq<Point>)
    requires b.Valid() && points != [] && b.SlotOf(points[0].t) == index
    ensures InBucket(b, index, points) != [] && InBucket(b, index, points)[0] == points[0]
  {
    if |points| > 1 {
      assert points[..|points| - 1][0] == points[0];
      FirstOfBucket(b, index, points[..|points| - 1]);
    }
  }

  // ----- plateau runs

  /** A maximal stretch of samples with one value. */
  datatype Run = Run(start: real, end: real, value: real)

  /** `cuts` are the indices at which the runs begin, with the number of points at the end. */
  ghost predicate Partitions(points: seq<Point>, runs: seq<Run>, cuts: seq<nat>)
  {
    && |cuts| == |runs| + 1 && cuts[0] == 0 && cuts[|runs|] == |points|
    && (forall k :: 0 <= k < |runs| ==> IsRun(points, runs[k], cuts[k], cuts[k + 1]))
    && (forall k :: 0 < k < |runs| ==> runs[k - 1].value != runs[k].value)
  }

  ghost predicate IsRun(points: seq<Point>, run: Run, from: nat, to: nat)
  {
    && from < to <= |points| && run.start == points[from].t && run.end == points[to - 1].t
    && forall i :: from <= i < to ==> points[i].v == run.value
  }

  /** _runs: maximal runs that partition the series. */
  method Runs(points: seq<Point>) returns (runs: seq<Run>, ghost cuts: seq<nat>)
    ensures Partitions(points, runs, cuts)
    ensures points != [] ==>
              && runs != [] && runs[0].start == points[0].t && runs[|runs| - 1].end == points[|points| - 1].t
              && forall k :: 0 < k < |runs| ==> runs[k - 1].value != runs[k].value
  {
    runs, cuts := [], [0];
    if points == [] { return; }
    var runStart, runEnd, value := points[0].t, points[0].t, points[0].v;
    ghost var from := 0;
    for i := 1 to |points|
      invariant |cuts| == |runs| + 1 && cuts[0] == 0 && cuts[|runs|] == from < i
      invariant IsRun(points, Run(runStart, runEnd, value), from, i)
      invariant forall k :: 0 <= k < |runs| ==> IsRun(points, runs[k], cuts[k], cuts[k + 1])
      invariant forall k :: 0 < k < |runs| ==> runs[k - 1].value != runs[k].value
      invariant runs != [] ==> runs[|runs| - 1].value != value
    {
      if points[i].v == value {
        runEnd := points[i].t;
      } else {
        runs, cuts := runs + [Run(runStart, runEnd, value)], cuts + [i];
        runStart, runEnd, value, from := points[i].t, points[i].t, points[i].v, i;
      }
    }
    runs, cuts := runs + [Run(runStart, runEnd, value)], cuts + [|points|];
    assert IsRun(points, runs[0], cuts[0], cuts[1]);
  }

  function RunPoints(run: Run): seq<Point>
  {
    if run.end == run.start then [Point(run.start, run.value)]
    else [Point(run.start, run.value), Point(run.end, run.value)]
  }

  /** The decoded points of the first n runs. */
  function DecodedRuns(runs: seq<Run>, n: nat): (r: seq<Point>)
    requires n <= |runs|
    ensures n <= |r| <= 2 * n
  {
    if n == 0 then [] else DecodedRuns(runs, n - 1) + RunPoints(runs[n - 1])
  }

  /** The decoded series as a step function: the value of the last point that is not later than t. */
  function StepAt(decoded: seq<Point>, t: real): Option<real>
  {
    if decoded == [] then None
    else if decoded[|decoded| - 1].t <= t then Some(decoded[|decoded| - 1].v)
    else StepAt(decoded[..|decoded| - 1], t)
  }

  lemma {:induction false} StepPastLater(front: seq<Point>, run: Run, t: real)
    requires t < run.start <= run.end
    ensures StepAt(front + RunPoints(run), t) == StepAt(front, t)
  {
    var one := front + [Point(run.start, run.value)];
    assert one[..|one| - 1] == front;
    if run.end != run.start {
      var two := front + RunPoints(run);
      assert two[..|two| - 1] == one;
    }
  }

  lemma {:induction false} StepInside(front: seq<Point>, run: Run, t: real)
    requires run.start <= t
    ensures StepAt(front + RunPoints(run), t) == Some(run.value)
  {
    var one := front + [Point(run.start, run.value)];
    assert one[|one| - 1] == Point(run.start, run.value);
    if run.end != run.start {
      var two := front + RunPoints(run);
      assert two[|two| - 1] == Point(run.end, run.value) && two[..|two| - 1] == one;
    }
  }

  /** Samples at one time have one value. */
  predicate TiesAgree(points: seq<Point>)
  {
    forall i, j :: 0 <= i < j < |points| && points[i].t == points[j].t ==> points[i].v == points[j].v
  }

  /** The step function of the decoded series gives back every sample. */
  predicate Lossless(points: seq<Point>, decoded: seq<Point>)
  {
    forall i :: 0 <= i < |points| ==> StepAt(decoded, points[i].t) == Some(points[i].v)
  }

  lemma {:induction false} RunBounds(points: seq<Point>, runs: seq<Run>, cuts: seq<nat>, k: nat)
    requires SortedByTime(points) && Partitions(points, runs, cuts) && k < |runs|
    ensures cuts[k] < cuts[k + 1] <= |points|
    ensures runs[k].start == points[cuts[k]].t && runs[k].start <= runs[k].end
    ensures forall i :: cuts[k] <= i < cuts[k + 1] ==> runs[k].start <= points[i].t && points[i].v == runs[k].value
  {
    assert IsRun(points, runs[k], cuts[k], cuts[k + 1]);
  }

  lemma {:induction false} LaterRunStartsLater(points: seq<Point>, runs: seq<Run>, cuts: seq<nat>, i: nat, k: nat,
                                               m: nat)
    requires SortedByTime(points) && TiesAgree(points) && Partitions(points, runs, cuts)
    requires k < m < |runs| && cuts[k] <= i < cuts[k + 1] <= |points|
    ensures points[i].t < runs[m].start <= runs[m].end
  {
    CutsIncrease(points, runs, cuts, k + 1, m);
    NextRunIsLater(points, runs, cuts, i, k);
    RunBounds(points, runs, cuts, m);
  }

  /** A time inside run k is found there although later runs follow. */
  lemma {:induction false} TimeIsFound(runs: seq<Run>, t: real, k: nat, n: nat)
    requires k < n <= |runs| && runs[k].start <= t
    requires forall m :: k < m < |runs| ==> t < runs[m].start <= runs[m].end
    ensures StepAt(DecodedRuns(runs, n), t) == Some(runs[k].value)
  {
    if k == n - 1 {
      StepInside(DecodedRuns(runs, n - 1), runs[n - 1], t);
    } else {
      StepPastLater(DecodedRuns(runs, n - 1), runs[n - 1], t);
      TimeIsFound(runs, t, k, n - 1);
    }
  }

  lemma {:induction false} CutsIncrease(points: seq<Point>, runs: seq<Run>, cuts: seq<nat>, k: nat, m: nat)
    requires Partitions(points, runs, cuts) && k <= m <= |runs|
    ensures cuts[k] <= cuts[m]
  {
    if k < m {
      CutsIncrease(points, runs, cuts, k, m - 1);
      assert IsRun(points, runs[m - 1], cuts[m - 1], cuts[m]);
    }
  }

  lemma {:induction false} NextRunIsLater(points: seq<Point>, runs: seq<Run>, cuts: seq<nat>, i: nat, k: nat)
    requires SortedByTime(points) && TiesAgree(points) && Partitions(points, runs, cuts)
    requires k + 1 < |runs| && cuts[k] <= i < cuts[k + 1]
    ensures cuts[k + 1] < |points| && points[i].t < points[cuts[k + 1]].t
  {
    assert IsRun(points, runs[k], cuts[k], cuts[k + 1]) && IsRun(points, runs[k + 1], cuts[k + 1], cuts[k + 2]);
    assert runs[(k + 1) - 1].value != runs[k + 1].value;
  }

  lemma {:induction false} RunOfSample(points: seq<Point>, runs: seq<Run>, cuts: seq<nat>, i: nat, n: nat)
    returns (k: nat)
    requires Partitions(points, runs, cuts) && n <= |runs| && i < cuts[n]
    ensures k < n && cuts[k] <= i < cuts[k + 1]
  {
    if cuts[n - 1] <= i { k := n - 1; } else { k := RunOfSample(points, runs, cuts, i, n - 1); }
  }

  /** On a time-sorted series the runs are lossless exactly when samples at one time have one value. In
      particular they are lossless when the times strictly increase. */
  lemma {:induction false} RunsAreLosslessIffTiesAgree(points: seq<Point>, runs: seq<Run>, cuts: seq<nat>)
    requires SortedByTime(points) && Partitions(points, runs, cuts)
    ensures Lossless(points, DecodedRuns(runs, |runs|)) <==> TiesAgree(points)
  {
    if TiesAgree(points) {
      forall i | 0 <= i < |points| ensures StepAt(DecodedRuns(runs, |runs|), points[i].t) == Some(points[i].v) {
        var k := RunOfSample(points, runs, cuts, i, |runs|);
        RunBounds(points, runs, cuts, k);
        forall m | k < m < |runs| ensures points[i].t < runs[m].start <= runs[m].end {
          LaterRunStartsLater(points, runs, cuts, i, k, m);
        }
        TimeIsFound(runs, points[i].t, k, |runs|);
      }
    }
    if Lossless(points, DecodedRuns(runs, |runs|)) {
      forall i, j | 0 <= i < j < |points| && points[i].t == points[j].t ensures points[i].v == points[j].v {
        assert StepAt(DecodedRuns(runs, |runs|), points[i].t) == StepAt(DecodedRuns(runs, |runs|), points[j].t);
      }
    }
  }

  // ----- encodings

  datatype Encoded =
    | FullPoints(plotted: nat, data: seq<Point>)
    | PlateauRuns(plotted: nat, runs: seq<Run>)
    | ExtremaBuckets(plotted: nat, data: seq<Point>)

  /** decode_series_points. */
  method DecodeSeriesPoints(encoded: Encoded) returns (points: seq<Point>)
    ensures points == if encoded.PlateauRuns? then DecodedRuns(encoded.runs, |encoded.runs|) else encoded.data
  {
    if !encoded.PlateauRuns? { return encoded.data; }
    points := [];
    for i := 0 to |encoded.runs|
      invariant points == DecodedRuns(encoded.runs, i)
    {
      var run := encoded.runs[i];
      ghost var before := points;
      points := points + [Point(run.start, run.value)];
      if run.end != run.start {
        points := points + [Point(run.end, run.value)];
      }
      assert points == before + RunPoints(run);
    }
  }

  /** What encode_series promises about its result. */
  ghost predicate GoodEncoding(points: seq<Point>, budget: nat, encoded: Encoded, cuts: seq<nat>)
  {
    match encoded
    case FullPoints(plotted, data) => data == points && plotted == |points|
    case PlateauRuns(plotted, runs) =>
      Partitions(points, runs, cuts) && plotted == 2 * |runs| <= Min(|points|, budget)
    case ExtremaBuckets(plotted, data) =>
      && plotted == |data|
      && (if |points| <= budget then data == points else Reduction(points, budget, data) && |data| <= Max(4, budget))
      && exists runs :: Partitions(points, runs, cuts) && 2 * |runs| > Min(|points|, budget)
  }

  /** encode_series: everything, exact runs when they are short enough, or the extrema of time buckets; None is
      the IndexError of the reduction, which no time-sorted series raises. */
  method EncodeSeries(points: seq<Point>, fullSampleLimit: nat, budget: nat)
    returns (r: Option<Encoded>, ghost cuts: seq<nat>)
    ensures r.Some? ==> GoodEncoding(points, budget, r.value, cuts)
    ensures |points| <= fullSampleLimit <==> r.Some? && r.value.FullPoints?
    ensures r.None? ==> |points| > budget && !AllFit(BucketsFor(points, budget), points)
    ensures SortedByTime(points) ==> r.Some?
  {
    cuts := [];
    if |points| <= fullSampleLimit {
      return Some(FullPoints(|points|, points)), cuts;
    }
    var runs;
    runs, cuts := Runs(points);
    if 2 * |runs| <= Min(|points|, budget) {
      return Some(PlateauRuns(2 * |runs|, runs)), cuts;
    }
    var reduced := ExtremaReduce(points, budget);
    r := if reduced.Some? then Some(ExtremaBuckets(|reduced.value|, reduced.value)) else None;
  }

  /** What is decoded never exceeds the announced number of plotted points; all samples come back from the full
      encoding, and from the runs of a time-sorted series exactly when samples at one time agree. */
  method EncodeThenDecode(points: seq<Point>, fullSampleLimit: nat, budget: nat)
    returns (r: Option<Encoded>, decoded: seq<Point>)
    ensures SortedByTime(points) ==> r.Some?
    ensures r.Some? ==> |decoded| <= r.value.plotted
    ensures r.Some? && r.value.FullPoints? ==> decoded == points
    ensures r.Some? && r.value.PlateauRuns? && SortedByTime(points) ==>
              (Lossless(points, decoded) <==> TiesAgree(points))
    ensures r.Some? && r.value.ExtremaBuckets? ==> forall p :: p in decoded ==> p in points
  {
    ghost var cuts;
    r, cuts := EncodeSeries(points, fullSampleLimit, budget);
    decoded := [];
    if r.Some? {
      decoded := DecodeSeriesPoints(r.value);
      if r.value.PlateauRuns? && SortedByTime(points) {
        RunsAreLosslessIffTiesAgree(points, r.value.runs, cuts);
      }
      if r.value.ExtremaBuckets? && |points| > budget {
        ReductionOnlySelects(points, budget, decoded);
      }
    }
  }

  /** Two samples at one time with different values: their runs give back only the later one. */
  lemma {:induction false} TiesThatDisagreeAreLost()
    ensures var points := [Point(0.0, 1.0), Point(0.0, 2.0)];
      && SortedByTime(points) && !TiesAgree(points)
      && var runs := [Run(0.0, 0.0, 1.0), Run(0.0, 0.0, 2.0)];
      && Partitions(points, runs, [0, 1, 2])
      && StepAt(DecodedRuns(runs, 2), 0.0) == Some(2.0) && !Lossless(points, DecodedRuns(runs, 2))
  {
    var points, runs := [Point(0.0, 1.0), Point(0.0, 2.0)], [Run(0.0, 0.0, 1.0), Run(0.0, 0.0, 2.0)];
    assert points[0].t == points[1].t && points[0].v != points[1].v;
    assert IsRun(points, runs[0], 0, 1) && IsRun(points, runs[1], 1, 2);
    assert Partitions(points, runs, [0, 1, 2]);
    RunsAreLosslessIffTiesAgree(points, runs, [0, 1, 2]);
    StepInside(DecodedRuns(runs, 1), runs[1], 0.0);
  }
}
