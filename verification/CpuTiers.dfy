/**
 The neutral performance tiers of Modules/lvs_cpu_topology.py: clustering with drifting means over the
 descending values. Means are exact.
 */
module CpuTiers {
  import opened IntSets
  import opened Options
  import opened PyNumbers

  // ----- means

  function Total(vals: seq<int>, from: nat, to: nat): int
    requires from <= to <= |vals|
  {
    if from == to then 0 else Total(vals, from, to - 1) + vals[to - 1]
  }

  function Mean(vals: seq<int>, from: nat, to: nat): real
    requires from < to <= |vals|
  {
    Total(vals, from, to) as real / (to - from) as real
  }

  lemma {:induction false} MeanTimesCount(vals: seq<int>, from: nat, to: nat)
    requires from < to <= |vals|
    ensures Mean(vals, from, to) * (to - from) as real == Total(vals, from, to) as real
  {
    DivisionUndone(Total(vals, from, to) as real, (to - from) as real);
  }

  predicate Descending(vals: seq<int>)
  {
    (forall i :: 0 <= i < |vals| ==> vals[i] > 0) && (forall i, j :: 0 <= i < j < |vals| ==> vals[i] >= vals[j])
  }

  lemma {:induction false} TotalBounds(vals: seq<int>, from: nat, to: nat, low: int, high: int)
    requires from <= to <= |vals| && forall i :: from <= i < to ==> low <= vals[i] <= high
    ensures low * (to - from) <= Total(vals, from, to) <= high * (to - from)
  {
    if from < to {
      TotalBounds(vals, from, to - 1, low, high);
      assert low * (to - from) == low * (to - 1 - from) + low && high * (to - from) == high * (to - 1 - from) + high;
    }
  }

  lemma {:induction false} QuotientBounds(total: int, n: int, low: int, high: int, m: real)
    requires n > 0 && m * n as real == total as real && low * n <= total <= high * n
    ensures low as real <= m <= high as real
  {
    assert (low * n) as real == low as real * n as real && (high * n) as real == high as real * n as real;
    FactorOrder(low as real, m, n as real);
    FactorOrder(m, high as real, n as real);
  }

  /** The mean of a stretch of a descending list lies between its last and its first value. */
  lemma {:induction false} MeanBetween(vals: seq<int>, from: nat, to: nat)
    requires Descending(vals) && from < to <= |vals|
    ensures 0.0 < vals[to - 1] as real <= Mean(vals, from, to) <= vals[from] as real
  {
    TotalBounds(vals, from, to, vals[to - 1], vals[from]);
    MeanTimesCount(vals, from, to);
    QuotientBounds(Total(vals, from, to), to - from, vals[to - 1], vals[from], Mean(vals, from, to));
  }

  lemma {:induction false} DriftOfMean(m: real, m': real, n: real, value: real)
    requires n > 0.0 && m' * (n + 1.0) == m * n + value && value <= m
    ensures m' <= m
  {
    assert m * (n + 1.0) == m * n + m;
    FactorOrder(m', m, n + 1.0);
  }

  /** Appending a value that is no larger than the mean does not raise the mean. */
  lemma {:induction false} MeanDrifts(vals: seq<int>, from: nat, to: nat)
    requires from < to < |vals| && vals[to] as real <= Mean(vals, from, to)
    ensures Mean(vals, from, to + 1) <= Mean(vals, from, to)
  {
    MeanTimesCount(vals, from, to);
    MeanTimesCount(vals, from, to + 1);
    assert (to + 1 - from) as real == (to - from) as real + 1.0;
    assert Total(vals, from, to + 1) == Total(vals, from, to) + vals[to];
    DriftOfMean(Mean(vals, from, to), Mean(vals, from, to + 1), (to - from) as real, vals[to] as real);
  }

  // ----- the specification: join the last tier or open a new one

  /** Within 3 percent of a positive mean. */
  predicate Near(value: int, mean: real)
  {
    mean > 0.0 && -0.03 * mean <= value as real - mean <= 0.03 * mean
  }

  datatype Segment = Segment(from: nat, to: nat)

  function Segments(vals: seq<int>, n: nat): (segs: seq<Segment>)
    requires n <= |vals|
    ensures n > 0 ==> segs != [] && segs[|segs| - 1].to == n
    ensures forall k :: 0 <= k < |segs| ==> segs[k].from < segs[k].to <= n
  {
    if n == 0 then []
    else
      var before := Segments(vals, n - 1);
      var last := |before| - 1;
      if n > 1 && Near(vals[n - 1], Mean(vals, before[last].from, before[last].to))
      then before[last := before[last].(to := n)]
      else before + [Segment(n - 1, n)]
  }

  function SegmentMean(vals: seq<int>, s: Segment): real
    requires s.from < s.to <= |vals|
  {
    Mean(vals, s.from, s.to)
  }

  /** The segments follow each other without gaps from the first value to the last. */
  predicate Contiguous(segs: seq<Segment>, n: nat)
  {
    && (forall k :: 0 <= k < |segs| ==> segs[k].from < segs[k].to)
    && (forall k :: 0 < k < |segs| ==> segs[k].from == segs[k - 1].to)
    && (if n == 0 then segs == [] else segs != [] && segs[0].from == 0 && segs[|segs| - 1].to == n)
  }

  lemma {:induction false} SegmentsAreContiguous(vals: seq<int>, n: nat)
    requires n <= |vals|
    ensures Contiguous(Segments(vals, n), n)
  {
    if n > 0 { SegmentsAreContiguous(vals, n - 1); }
  }

  /** A tier begins below 97 percent of the mean that the tier before it has in the end. */
  predicate Apart(vals: seq<int>, a: Segment, b: Segment)
    requires a.from < a.to <= |vals| && b.from < |vals|
  {
    vals[b.from] as real < 0.97 * SegmentMean(vals, a)
  }

  lemma {:induction false} NotNearMeansFar(value: int, last: int, mean: real)
    requires 0 < value <= last && last as real <= mean && !Near(value, mean)
    ensures value as real < 0.97 * mean
  {
  }

  lemma {:induction false} NewTierIsApart(vals: seq<int>, n: nat, last: Segment)
    requires Descending(vals) && 0 < n <= |vals| && last.from < last.to < n
    requires !Near(vals[n - 1], SegmentMean(vals, last))
    ensures Apart(vals, last, Segment(n - 1, n))
  {
    MeanBetween(vals, last.from, last.to);
    NotNearMeansFar(vals[n - 1], vals[last.to - 1], SegmentMean(vals, last));
  }

  lemma {:induction false} TiersAreApart(vals: seq<int>, n: nat, k: nat)
    requires Descending(vals) && n <= |vals| && 0 < k < |Segments(vals, n)|
    ensures var segs := Segments(vals, n); Apart(vals, segs[k - 1], segs[k])
  {
    var before := Segments(vals, n - 1);
    if k < |before| {
      TiersAreApart(vals, n - 1, k);
    } else {
      NewTierIsApart(vals, n, before[|before| - 1]);
    }
  }

  lemma {:induction false} SegmentStarts(segs: seq<Segment>, n: nat, k: nat)
    requires Contiguous(segs, n) && k < |segs|
    ensures segs[k].from < n
    ensures forall m :: k < m < |segs| ==> segs[k].to <= segs[m].from
    decreases |segs| - k
  {
    if k + 1 < |segs| { SegmentStarts(segs, n, k + 1); }
  }

  /** No later value can join a tier that is not the last one, however far the last mean has drifted. */
  lemma {:induction false} EarlierTiersStayFar(vals: seq<int>, n: nat, k: nat)
    requires Descending(vals) && n < |vals| && k + 1 < |Segments(vals, n)|
    ensures !Near(vals[n], SegmentMean(vals, Segments(vals, n)[k]))
  {
    var segs := Segments(vals, n);
    TiersAreApart(vals, n, k + 1);
    SegmentsAreContiguous(vals, n);
    SegmentStarts(segs, n, k + 1);
    MeanBetween(vals, segs[k].from, segs[k].to);
    assert vals[n] <= vals[segs[k + 1].from];
  }

  /** The means of the tiers strictly decrease. */
  lemma {:induction false} MeansDecrease(vals: seq<int>, n: nat, j: nat, k: nat)
    requires Descending(vals) && n <= |vals| && j < k < |Segments(vals, n)|
    ensures SegmentMean(vals, Segments(vals, n)[j]) > SegmentMean(vals, Segments(vals, n)[k])
  {
    var segs := Segments(vals, n);
    TiersAreApart(vals, n, k);
    MeanBetween(vals, segs[k].from, segs[k].to);
    MeanBetween(vals, segs[k - 1].from, segs[k - 1].to);
    if j < k - 1 { MeansDecrease(vals, n, j, k - 1); }
  }

  /** The running mean of the last tier stays within reach of its last value. */
  lemma {:induction false} LastValueInReach(vals: seq<int>, n: nat)
    requires Descending(vals) && 0 < n <= |vals|
    ensures var segs := Segments(vals, n); 0.97 * SegmentMean(vals, segs[|segs| - 1]) <= vals[n - 1] as real
  {
    var before, segs := Segments(vals, n - 1), Segments(vals, n);
    var last := segs[|segs| - 1];
    MeanBetween(vals, last.from, last.to);
    if last.from < n - 1 {
      MeanBetween(vals, last.from, n - 1);
      assert vals[n - 1] <= vals[n - 2];
      MeanDrifts(vals, last.from, n - 1);
    }
  }

  /** Equal neighbours share a tier, so equal values never get different classes. */
  lemma {:induction false} EqualNeighboursShare(vals: seq<int>, n: nat)
    requires Descending(vals) && 0 < n < |vals| && vals[n] == vals[n - 1]
    ensures |Segments(vals, n + 1)| == |Segments(vals, n)|
  {
    var segs := Segments(vals, n);
    var last := segs[|segs| - 1];
    LastValueInReach(vals, n);
    MeanBetween(vals, last.from, last.to);
  }

  /** Positions with equal values share a tier. */
  lemma {:induction false} EqualRunShares(vals: seq<int>, i: nat, j: nat)
    requires Descending(vals) && i <= j < |vals| && vals[i] == vals[j]
    ensures |Segments(vals, i + 1)| == |Segments(vals, j + 1)|
    decreases j
  {
    if i < j {
      assert vals[j - 1] == vals[j];
      EqualRunShares(vals, i, j - 1);
      EqualNeighboursShare(vals, j);
    }
  }

  lemma {:induction false} TierCountGrows(vals: seq<int>, m: nat, n: nat)
    requires m <= n <= |vals|
    ensures |Segments(vals, m)| <= |Segments(vals, n)|
  {
    if m < n { TierCountGrows(vals, m, n - 1); }
  }

  lemma {:induction false} OnlyLastReachesEnd(segs: seq<Segment>, n: nat, t: nat)
    requires Contiguous(segs, n) && t < |segs| && segs[t].to >= n
    ensures t == |segs| - 1
  {
    SegmentStarts(segs, n, t);
    assert segs[|segs| - 1].from < n;
  }

  lemma {:induction false} TierBefore(vals: seq<int>, n: nat, t: nat, i: nat)
    requires 0 < n <= |vals| && t < |Segments(vals, n)| && i < n - 1
    requires Segments(vals, n)[t].from <= i < Segments(vals, n)[t].to
    ensures t < |Segments(vals, n - 1)|
    ensures Segments(vals, n - 1)[t].from <= i < Segments(vals, n - 1)[t].to
  {
  }

  lemma {:induction false} TierOfLast(vals: seq<int>, n: nat, t: nat)
    requires 0 < n <= |vals| && t < |Segments(vals, n)| && n - 1 < Segments(vals, n)[t].to
    ensures |Segments(vals, n)| == t + 1
  {
    SegmentsAreContiguous(vals, n);
    OnlyLastReachesEnd(Segments(vals, n), n, t);
  }

  /** Position i lies in the tier that was the last one when i was placed. */
  lemma {:induction false} TierOfPosition(vals: seq<int>, n: nat, t: nat, i: nat)
    requires n <= |vals| && t < |Segments(vals, n)|
    requires Segments(vals, n)[t].from <= i < Segments(vals, n)[t].to
    ensures i < n && |Segments(vals, i + 1)| == t + 1
  {
    assert Segments(vals, n)[t].to <= n;
    if i < n - 1 {
      TierBefore(vals, n, t, i);
      TierOfPosition(vals, n - 1, t, i);
    } else {
      TierOfLast(vals, n, t);
    }
  }

  /** How many of the first n values are at least x. */
  function AtLeast(vals: seq<int>, x: int, n: nat): (count: nat)
    requires n <= |vals|
    ensures count <= n
  {
    if n == 0 then 0 else AtLeast(vals, x, n - 1) + if vals[n - 1] >= x then 1 else 0
  }

  lemma {:induction false} AtLeastIsAPrefix(vals: seq<int>, x: int, n: nat)
    requires Descending(vals) && n <= |vals|
    ensures forall i :: 0 <= i < n ==> (vals[i] >= x <==> i < AtLeast(vals, x, n))
  {
    if n > 0 { AtLeastIsAPrefix(vals, x, n - 1); }
  }

  /** The tier of a value, counted from the highest one: it does not depend on how equal values were ordered. */
  function Rank(vals: seq<int>, x: int): int
  {
    |Segments(vals, AtLeast(vals, x, |vals|))| - 1
  }

  lemma {:induction false} RankOfPosition(vals: seq<int>, i: nat)
    requires Descending(vals) && i < |vals|
    ensures Rank(vals, vals[i]) == |Segments(vals, i + 1)| - 1
  {
    var count := AtLeast(vals, vals[i], |vals|);
    AtLeastIsAPrefix(vals, vals[i], |vals|);
    assert vals[count - 1] >= vals[i];
    EqualRunShares(vals, i, count - 1);
  }

  lemma {:induction false} FewerAreAtLeastMore(vals: seq<int>, x: int, y: int, n: nat)
    requires x >= y && n <= |vals|
    ensures AtLeast(vals, x, n) <= AtLeast(vals, y, n)
  {
    if n > 0 { FewerAreAtLeastMore(vals, x, y, n - 1); }
  }

  /** A larger capacity is never ranked below a smaller one. */
  lemma {:induction false} LargerIsNeverBelow(vals: seq<int>, x: int, y: int)
    requires x >= y
    ensures Rank(vals, x) <= Rank(vals, y)
  {
    FewerAreAtLeastMore(vals, x, y, |vals|);
    TierCountGrows(vals, AtLeast(vals, x, |vals|), AtLeast(vals, y, |vals|));
  }

  /** The name of a logical CPU, by which the records are keyed. */
  datatype CpuKey = CpuKey(name: string)

  // ----- the order in which the values are visited

  /** The keys in descending order of their values; keys with equal values come in any order. */
  predicate IsOrder(order: seq<CpuKey>, values: map<CpuKey, int>)
  {
    && (forall i :: 0 <= i < |order| ==> order[i] in values)
    && (forall key :: key in values ==> key in order)
    && (forall i, j :: 0 <= i < j < |order| ==> order[i] != order[j])
    && (forall i, j :: 0 <= i < j < |order| ==> values[order[i]] >= values[order[j]])
  }

  predicate AllPositive(values: map<CpuKey, int>)
  {
    forall key :: key in values ==> values[key] > 0
  }

  function Visited(order: seq<CpuKey>, values: map<CpuKey, int>): (vals: seq<int>)
    requires forall i :: 0 <= i < |order| ==> order[i] in values
    ensures |vals| == |order| && forall i :: 0 <= i < |vals| ==> vals[i] == values[order[i]]
  {
    seq(|order|, i requires 0 <= i < |order| => values[order[i]])
  }

  function Skip(at: nat, i: nat): nat { if i < at then i else i + 1 }

  lemma {:induction false} OrderWithout(order: seq<CpuKey>, values: map<CpuKey, int>, at: nat, rest: seq<CpuKey>)
    requires IsOrder(order, values) && at < |order| && |rest| == |order| - 1
    requires forall i :: 0 <= i < |rest| ==> rest[i] == order[Skip(at, i)]
    ensures IsOrder(rest, values - {order[at]})
  {
    var fewer := values - {order[at]};
    forall i | 0 <= i < |rest| ensures rest[i] in fewer {
      assert rest[i] == order[Skip(at, i)];
    }
    forall key | key in fewer ensures key in rest {
      FoundAgain(order, at, rest, key);
    }
    forall i, j | 0 <= i < j < |rest| ensures rest[i] != rest[j] && fewer[rest[i]] >= fewer[rest[j]] {
      var k, l := Skip(at, i), Skip(at, j);
      assert rest[i] == order[k] && rest[j] == order[l] && k < l;
    }
  }

  lemma {:induction false} FoundAgain(order: seq<CpuKey>, at: nat, rest: seq<CpuKey>, key: CpuKey)
    requires at < |order| && |rest| == |order| - 1 && key in order && key != order[at]
    requires forall i :: 0 <= i < |rest| ==> rest[i] == order[Skip(at, i)]
    ensures key in rest
  {
    var i :| 0 <= i < |order| && order[i] == key;
    var k := if i < at then i else i - 1;
    assert Skip(at, k) == i && rest[k] == order[Skip(at, k)];
  }

  lemma {:induction false} SameListAroundHead(a: seq<int>, b: seq<int>, at: nat)
    requires |a| == |b| && at < |b| && a[0] == b[0] == b[at]
    requires forall i, j :: 0 <= i < j < |b| ==> b[i] >= b[j]
    requires forall i :: 0 <= i < |a| - 1 ==> a[i + 1] == b[Skip(at, i)]
    ensures a == b
  {
    forall j | 0 < j < |a| ensures a[j] == b[j] {
      assert a[(j - 1) + 1] == b[Skip(at, j - 1)];
    }
  }

  lemma {:induction false} RemoveAt(order: seq<CpuKey>, values: map<CpuKey, int>, at: nat) returns (rest: seq<CpuKey>)
    requires IsOrder(order, values) && at < |order|
    ensures IsOrder(rest, values - {order[at]}) && |rest| == |order| - 1
    ensures forall i :: 0 <= i < |rest| ==> rest[i] == order[Skip(at, i)]
  {
    rest := order[..at] + order[at + 1..];
    OrderWithout(order, values, at, rest);
  }

  predicate IsHighest(highest: CpuKey, values: map<CpuKey, int>)
  {
    highest in values && forall key :: key in values ==> values[highest] >= values[key]
  }

  lemma {:induction false} HighestExists(values: map<CpuKey, int>) returns (highest: CpuKey)
    requires values.Keys != {}
    ensures IsHighest(highest, values)
    decreases |values|
  {
    var first := Pick(values.Keys);
    highest := first;
    var rest := values - {first};
    if rest.Keys != {} {
      var other := HighestExists(rest);
      highest := if values[first] >= values[other] then first else other;
    }
    forall key | key in values ensures values[highest] >= values[key] {
      assert key == first || key in rest;
    }
  }

  ghost function Highest(values: map<CpuKey, int>): (highest: CpuKey)
    requires values.Keys != {}
    ensures IsHighest(highest, values)
  {
    assert exists highest :: IsHighest(highest, values) by { var highest := HighestExists(values); }
    var highest :| IsHighest(highest, values);
    highest
  }

  /** The values in descending order. */
  ghost function Sorted(values: map<CpuKey, int>): seq<int>
    decreases |values|
  {
    if values.Keys == {} then [] else [values[Highest(values)]] + Sorted(values - {Highest(values)})
  }

  lemma {:induction false} Prepend(highest: CpuKey, others: seq<CpuKey>, values: map<CpuKey, int>)
    requires IsHighest(highest, values) && IsOrder(others, values - {highest})
    ensures IsOrder([highest] + others, values)
  {
    var order, fewer := [highest] + others, values - {highest};
    forall key | key in values ensures key in order {
      assert key == highest || key in fewer;
    }
    forall i | 0 <= i < |order| ensures order[i] in values {
      assert i == 0 || (order[i] == others[i - 1] && others[i - 1] in fewer);
    }
    forall i, j | 0 <= i < j < |order| ensures order[i] != order[j] && values[order[i]] >= values[order[j]] {
      PrependedPair(highest, others, values, i, j);
    }
  }

  lemma {:induction false} PrependedPair(highest: CpuKey, others: seq<CpuKey>, values: map<CpuKey, int>, i: nat, j: nat)
    requires IsHighest(highest, values) && IsOrder(others, values - {highest}) && i < j < 1 + |others|
    ensures var order := [highest] + others;
      order[i] in values && order[j] in values && order[i] != order[j] && values[order[i]] >= values[order[j]]
  {
    var fewer := values - {highest};
    assert others[j - 1] in fewer;
    if i > 0 { assert others[i - 1] in fewer && fewer[others[i - 1]] >= fewer[others[j - 1]]; }
  }

  lemma {:induction false} OrderExists(values: map<CpuKey, int>) returns (order: seq<CpuKey>)
    ensures IsOrder(order, values)
    decreases |values|
  {
    order := [];
    if values.Keys != {} {
      var highest := Highest(values);
      var others := OrderExists(values - {highest});
      order := [highest] + others;
      Prepend(highest, others, values);
    }
  }

  lemma {:induction false} VisitedAround(order: seq<CpuKey>, values: map<CpuKey, int>, at: nat, rest: seq<CpuKey>)
    requires (forall i :: 0 <= i < |order| ==> order[i] in values) && at < |order| && |rest| == |order| - 1
    requires forall i :: 0 <= i < |rest| ==> rest[i] == order[Skip(at, i)] && rest[i] in values - {order[at]}
    requires forall i, j :: 0 <= i < j < |order| ==> values[order[i]] >= values[order[j]]
    requires forall i :: 0 <= i < |order| ==> values[order[at]] >= values[order[i]]
    ensures Visited(order, values) == [values[order[at]]] + Visited(rest, values - {order[at]})
  {
    var a, b := [values[order[at]]] + Visited(rest, values - {order[at]}), Visited(order, values);
    forall i | 0 <= i < |a| - 1 ensures a[i + 1] == b[Skip(at, i)] {
      assert rest[i] == order[Skip(at, i)];
    }
    SameListAroundHead(a, b, at);
  }

  lemma {:induction false} FindHighest(order: seq<CpuKey>, values: map<CpuKey, int>) returns (at: nat)
    requires IsOrder(order, values) && values.Keys != {}
    ensures at < |order| && order[at] == Highest(values)
  {
    assert Highest(values) in order;
    at :| at < |order| && order[at] == Highest(values);
  }

  /** Every order visits the same values: how ties are broken has no effect. */
  lemma {:induction false} OrdersAgree(order: seq<CpuKey>, values: map<CpuKey, int>)
    requires IsOrder(order, values)
    ensures Visited(order, values) == Sorted(values)
    decreases |values|
  {
    if order == [] {
      assert values.Keys == {};
    } else {
      assert order[0] in values.Keys;
      var at := FindHighest(order, values);
      var rest := RemoveAt(order, values, at);
      OrdersAgree(rest, values - {order[at]});
      VisitedAround(order, values, at, rest);
    }
  }

  // ----- the clustering loop

  datatype Tier = Tier(mean: real, keys: seq<CpuKey>)

  function SumOf(keys: seq<CpuKey>, values: map<CpuKey, int>): int
    requires forall i :: 0 <= i < |keys| ==> keys[i] in values
  {
    if keys == [] then 0 else SumOf(keys[..|keys| - 1], values) + values[keys[|keys| - 1]]
  }

  lemma {:induction false} SumIsTotal(order: seq<CpuKey>, values: map<CpuKey, int>, from: nat, to: nat)
    requires (forall i :: 0 <= i < |order| ==> order[i] in values) && from <= to <= |order|
    ensures SumOf(order[from..to], values) == Total(Visited(order, values), from, to)
  {
    if from < to {
      SumIsTotal(order, values, from, to - 1);
      assert order[from..to][..to - 1 - from] == order[from..to - 1];
    }
  }

  /** The tier that holds the keys of a segment. */
  function TierOf(order: seq<CpuKey>, vals: seq<int>, s: Segment): Tier
    requires |order| == |vals| && s.from < s.to <= |order|
  {
    Tier(SegmentMean(vals, s), order[s.from..s.to])
  }

  /** The tiers built from the first n keys are exactly the segments of their values. */
  predicate Refines(tiers: seq<Tier>, order: seq<CpuKey>, vals: seq<int>, n: nat)
    requires |order| == |vals| && n <= |order|
  {
    var segs := Segments(vals, n);
    |tiers| == |segs| && forall k :: 0 <= k < |tiers| ==> tiers[k] == TierOf(order, vals, segs[k])
  }

  lemma {:induction false} OnlyTheLastTier(tiers: seq<Tier>, order: seq<CpuKey>, vals: seq<int>, n: nat, k: nat)
    requires |order| == |vals| && Descending(vals) && n < |order| && Refines(tiers, order, vals, n)
    requires k < |tiers| && Near(vals[n], tiers[k].mean)
    ensures k == |tiers| - 1
  {
    if k < |tiers| - 1 {
      EarlierTiersStayFar(vals, n, k);
      assert false;
    }
  }

  lemma {:induction false} JoinRefines(tiers: seq<Tier>, order: seq<CpuKey>, vals: seq<int>, n: nat)
    requires |order| == |vals| && 0 < n < |order| && Refines(tiers, order, vals, n)
    requires Near(vals[n], tiers[|tiers| - 1].mean)
    ensures var last := Segments(vals, n)[|tiers| - 1];
      Refines(tiers[|tiers| - 1 := TierOf(order, vals, Segment(last.from, n + 1))], order, vals, n + 1)
  {
  }

  lemma {:induction false} OneValueTier(order: seq<CpuKey>, vals: seq<int>, n: nat)
    requires |order| == |vals| && n < |order|
    ensures TierOf(order, vals, Segment(n, n + 1)) == Tier(vals[n] as real, [order[n]])
  {
    assert Total(vals, n, n + 1) == Total(vals, n, n) + vals[n] == vals[n];
    assert order[n..n + 1] == [order[n]];
  }

  lemma {:induction false} OpenRefines(tiers: seq<Tier>, order: seq<CpuKey>, vals: seq<int>, n: nat)
    requires |order| == |vals| && n < |order| && Refines(tiers, order, vals, n)
    requires n > 0 ==> !Near(vals[n], tiers[|tiers| - 1].mean)
    ensures Refines(tiers + [Tier(vals[n] as real, [order[n]])], order, vals, n + 1)
  {
    OneValueTier(order, vals, n);
  }

  lemma {:induction false} JoinedTier(order: seq<CpuKey>, values: map<CpuKey, int>, from: nat, n: nat,
                                      keys: seq<CpuKey>)
    requires forall i :: 0 <= i < |order| ==> order[i] in values
    requires from < n < |order| && keys == order[from..n] + [order[n]]
    ensures forall i :: 0 <= i < |keys| ==> keys[i] in values
    ensures Tier(SumOf(keys, values) as real / |keys| as real, keys)
         == TierOf(order, Visited(order, values), Segment(from, n + 1))
  {
    assert keys == order[from..n + 1];
    SumIsTotal(order, values, from, n + 1);
  }

  lemma {:induction false} JoinStep(tiers: seq<Tier>, order: seq<CpuKey>, values: map<CpuKey, int>, n: nat, k: nat)
    requires forall i :: 0 <= i < |order| ==> order[i] in values
    requires Descending(Visited(order, values)) && n < |order| && Refines(tiers, order, Visited(order, values), n)
    requires k < |tiers| && Near(values[order[n]], tiers[k].mean)
    ensures var keys := tiers[k].keys + [order[n]];
      && (forall i :: 0 <= i < |keys| ==> keys[i] in values)
      && Refines(tiers[k := Tier(SumOf(keys, values) as real / |keys| as real, keys)], order,
                 Visited(order, values), n + 1)
  {
    var vals := Visited(order, values);
    OnlyTheLastTier(tiers, order, vals, n, k);
    JoinRefines(tiers, order, vals, n);
    JoinedTier(order, values, Segments(vals, n)[k].from, n, tiers[k].keys + [order[n]]);
  }

  function Distance(a: real, b: real): real { if a < b then b - a else a - b }

  lemma {:induction false} QuotientAtMost(a: real, b: real, c: real)
    requires b > 0.0
    ensures a / b <= c <==> a <= c * b
  {
    var q := a / b;
    DivisionUndone(a, b);
    assert q * b == a;
    if q <= c {
      ScaleIsMonotone(q, c, b);
    } else {
      PositiveProduct(q - c, b);
      DifferenceScaled(q, c, b);
    }
  }

  /** Near is what the source decides by a quotient. */
  lemma {:induction false} NearByQuotient(value: int, mean: real)
    ensures Near(value, mean) <==> mean > 0.0 && Distance(value as real, mean) / mean <= 0.03
  {
    if mean > 0.0 { QuotientAtMost(Distance(value as real, mean), mean, 0.03); }
  }

  /** The index of the first tier near enough, or the number of tiers. */
  method FirstNear(tiers: seq<Tier>, value: int) returns (k: nat)
    ensures k <= |tiers| && (k < |tiers| ==> Near(value, tiers[k].mean))
    ensures forall j :: 0 <= j < k ==> !Near(value, tiers[j].mean)
  {
    k := 0;
    while k < |tiers|
      invariant k <= |tiers| && forall j :: 0 <= j < k ==> !Near(value, tiers[j].mean)
    {
      NearByQuotient(value, tiers[k].mean);
      if tiers[k].mean > 0.0 && Distance(value as real, tiers[k].mean) / tiers[k].mean <= 0.03 { break; }
      k := k + 1;
    }
  }

  /** Put the next key in the first tier that is near enough, or in a new one. */
  method PlaceKey(ghost order: seq<CpuKey>, values: map<CpuKey, int>, ghost n: nat, key: CpuKey, tiers: seq<Tier>)
    returns (grown: seq<Tier>)
    requires forall i :: 0 <= i < |order| ==> order[i] in values
    requires Descending(Visited(order, values)) && n < |order| && key == order[n]
    requires Refines(tiers, order, Visited(order, values), n)
    ensures Refines(grown, order, Visited(order, values), n + 1)
  {
    ghost var vals := Visited(order, values);
    var k := FirstNear(tiers, values[key]);
    if k < |tiers| {
      JoinStep(tiers, order, values, n, k);
      var keys := tiers[k].keys + [key];
      grown := tiers[k := Tier(SumOf(keys, values) as real / |keys| as real, keys)];
    } else {
      OpenRefines(tiers, order, vals, n);
      grown := tiers + [Tier(values[key] as real, [key])];
    }
  }

  method BuildTiers(values: map<CpuKey, int>, order: seq<CpuKey>) returns (tiers: seq<Tier>)
    requires (forall i :: 0 <= i < |order| ==> order[i] in values) && Descending(Visited(order, values))
    ensures Refines(tiers, order, Visited(order, values), |order|)
  {
    tiers := [];
    for n := 0 to |order|
      invariant Refines(tiers, order, Visited(order, values), n)
    {
      tiers := PlaceKey(order, values, n, order[n], tiers);
    }
  }

  // ----- classes

  datatype PerformanceClass = HigherCapacity | IntermediateCapacity | LowerCapacity | Unknown

  function ClassOfTier(t: int, count: nat): PerformanceClass
  {
    if t == 0 then HigherCapacity else if t == count - 1 then LowerCapacity else IntermediateCapacity
  }

  /** The class of the i-th key in a list of keys whose values are vals. */
  function ClassAt(vals: seq<int>, i: nat): PerformanceClass
    requires i < |vals|
  {
    ClassOfTier(|Segments(vals, i + 1)| - 1, |Segments(vals, |vals|)|)
  }

  function KeysOf(order: seq<CpuKey>, n: nat): (keys: set<CpuKey>)
    requires n <= |order|
    ensures forall i :: 0 <= i < n ==> order[i] in keys
  {
    if n == 0 then {} else KeysOf(order, n - 1) + {order[n - 1]}
  }

  lemma {:induction false} KeysOfAre(order: seq<CpuKey>, n: nat)
    requires n <= |order|
    ensures forall key :: key in KeysOf(order, n) ==> key in order
  {
    if n > 0 { KeysOfAre(order, n - 1); }
  }

  function ClassList(vals: seq<int>): (cs: seq<PerformanceClass>)
    ensures |cs| == |vals| && forall i :: 0 <= i < |cs| ==> cs[i] == ClassAt(vals, i)
  {
    seq(|vals|, i requires 0 <= i < |vals| => ClassAt(vals, i))
  }

  /** Exactly the first n keys are named. */
  predicate Named(classes: map<CpuKey, PerformanceClass>, order: seq<CpuKey>, cs: seq<PerformanceClass>, n: nat)
    requires |order| == |cs| && n <= |order|
  {
    classes.Keys == KeysOf(order, n) && forall i :: 0 <= i < n ==> classes[order[i]] == cs[i]
  }

  lemma {:induction false} NameNext(classes: map<CpuKey, PerformanceClass>, order: seq<CpuKey>,
                                    cs: seq<PerformanceClass>, n: nat)
    requires |order| == |cs| && n < |order| && Named(classes, order, cs, n)
    requires forall i, j :: 0 <= i < j < |order| ==> order[i] != order[j]
    ensures Named(classes[order[n] := cs[n]], order, cs, n + 1)
  {
  }

  method NameTier(tier: Tier, named: PerformanceClass, before: map<CpuKey, PerformanceClass>,
                  ghost order: seq<CpuKey>, ghost cs: seq<PerformanceClass>, ghost s: Segment)
    returns (classes: map<CpuKey, PerformanceClass>)
    requires |order| == |cs| && s.from < s.to <= |order| && tier.keys == order[s.from..s.to]
    requires forall i, j :: 0 <= i < j < |order| ==> order[i] != order[j]
    requires forall i :: s.from <= i < s.to ==> cs[i] == named
    requires Named(before, order, cs, s.from)
    ensures Named(classes, order, cs, s.to)
  {
    classes := before;
    for j := 0 to |tier.keys|
      invariant Named(classes, order, cs, s.from + j)
    {
      assert tier.keys[j] == order[s.from + j];
      NameNext(classes, order, cs, s.from + j);
      classes := classes[tier.keys[j] := named];
    }
  }

  method NameTiers(tiers: seq<Tier>, ghost order: seq<CpuKey>, ghost vals: seq<int>)
    returns (classes: map<CpuKey, PerformanceClass>)
    requires |order| == |vals| && Refines(tiers, order, vals, |order|) && tiers != []
    requires forall i, j :: 0 <= i < j < |order| ==> order[i] != order[j]
    ensures Named(classes, order, ClassList(vals), |order|)
  {
    ghost var segs := Segments(vals, |vals|);
    SegmentsAreContiguous(vals, |vals|);
    classes := map[];
    for t := 0 to |tiers|
      invariant Named(classes, order, ClassList(vals), if t == 0 then 0 else segs[t - 1].to)
    {
      forall i | segs[t].from <= i < segs[t].to ensures ClassList(vals)[i] == ClassOfTier(t, |tiers|) {
        TierOfPosition(vals, |vals|, t, i);
      }
      classes := NameTier(tiers[t], ClassOfTier(t, |tiers|), classes, order, ClassList(vals), segs[t]);
    }
  }

  // ----- the fields, in order of preference

  datatype CapacityField = CpuCapacity | CppcHighestPerf | CpuinfoMaxFreqKHz | BaseFrequencyKHz

  const FIELDS := [CpuCapacity, CppcHighestPerf, CpuinfoMaxFreqKHz, BaseFrequencyKHz]

  /** The numbers a CPU record holds; a field that is no integer is missing. */
  type CpuRecord = map<CapacityField, int>

  /** What is reported for one CPU: its class, the field that decided, and its value there. */
  datatype CpuVerdict = CpuVerdict(class_: PerformanceClass, source: Option<CapacityField>, capacity: Option<int>)

  const UNCLASSIFIED := CpuVerdict(Unknown, None, None)

  type Classification = map<CpuKey, CpuVerdict>

  function Positive(records: map<CpuKey, CpuRecord>, field: CapacityField): (values: map<CpuKey, int>)
    ensures AllPositive(values) && values.Keys <= records.Keys
    ensures forall key :: key in records && field in records[key] && records[key][field] >= 1 ==> key in values
    ensures forall key :: key in values ==>
              key in records && field in records[key] && 1 <= records[key][field] == values[key]
  {
    map key | key in records && field in records[key] && records[key][field] > 0 :: records[key][field]
  }

  /** The values fall into two or three tiers, the lowest under 85 percent of the highest. */
  ghost predicate Splits(values: map<CpuKey, int>)
  {
    |values| >= 2 && |values.Values| >= 2 && SplitsList(Sorted(values))
  }

  predicate SplitsList(vals: seq<int>)
  {
    var segs := Segments(vals, |vals|);
    2 <= |segs| <= 3 && SegmentMean(vals, segs[|segs| - 1]) < 0.85 * SegmentMean(vals, segs[0])
  }

  function Describe(records: map<CpuKey, CpuRecord>, values: map<CpuKey, int>, field: CapacityField,
                    classes: map<CpuKey, PerformanceClass>): Classification
    requires classes.Keys == values.Keys
  {
    map key | key in records ::
      if key in values then CpuVerdict(classes[key], Some(field), Some(values[key])) else UNCLASSIFIED
  }

  function Unclassified(records: map<CpuKey, CpuRecord>): (r: Classification)
    ensures r.Keys == records.Keys
  {
    map key | key in records :: UNCLASSIFIED
  }

  /** The class of a value depends on nothing but the value and the list of all values. */
  ghost function ClassOfValue(values: map<CpuKey, int>, x: int): PerformanceClass
  {
    ClassOfTier(Rank(Sorted(values), x), |Segments(Sorted(values), |Sorted(values)|)|)
  }

  ghost function ClassesByValue(values: map<CpuKey, int>): map<CpuKey, PerformanceClass>
  {
    map key | key in values :: ClassOfValue(values, values[key])
  }

  lemma {:induction false} QuotientBelow(a: real, b: real)
    requires b > 0.0
    ensures a / b < 0.85 <==> a < 0.85 * b
  {
    DivisionUndone(a, b);
    if a / b < 0.85 { PositiveProduct(0.85 - a / b, b); } else { NonNegativeProduct(a / b - 0.85, b); }
  }

  lemma {:induction false} VisitedIsDescending(order: seq<CpuKey>, values: map<CpuKey, int>)
    requires IsOrder(order, values) && AllPositive(values)
    ensures Descending(Visited(order, values))
  {
  }

  lemma {:induction false} ClassOfPosition(order: seq<CpuKey>, values: map<CpuKey, int>, i: nat)
    requires IsOrder(order, values) && AllPositive(values) && i < |order|
    ensures ClassAt(Visited(order, values), i) == ClassOfValue(values, values[order[i]])
  {
    VisitedIsDescending(order, values);
    OrdersAgree(order, values);
    RankOfPosition(Visited(order, values), i);
  }

  lemma {:induction false} SameOnOrder<T>(a: map<CpuKey, T>, b: map<CpuKey, T>, order: seq<CpuKey>)
    requires forall i :: 0 <= i < |order| ==> order[i] in a && order[i] in b && a[order[i]] == b[order[i]]
    requires forall key :: key in a || key in b ==> key in order
    ensures a == b
  {
    forall key | key in order ensures key in a && key in b && a[key] == b[key] {
      var i :| 0 <= i < |order| && order[i] == key;
    }
  }

  lemma {:induction false} NamedByValue(classes: map<CpuKey, PerformanceClass>, order: seq<CpuKey>, values: map<CpuKey,
                                        int>)
    requires IsOrder(order, values) && AllPositive(values)
    requires Named(classes, order, ClassList(Visited(order, values)), |order|)
    ensures classes == ClassesByValue(values)
  {
    KeysOfAre(order, |order|);
    forall i | 0 <= i < |order| ensures order[i] in classes && classes[order[i]] == ClassesByValue(values)[order[i]] {
      ClassOfPosition(order, values, i);
    }
    SameOnOrder(classes, ClassesByValue(values), order);
  }

  lemma {:induction false} SplitsByTiers(vals: seq<int>, order: seq<CpuKey>, tiers: seq<Tier>)
    requires |order| == |vals| && Descending(vals) && Refines(tiers, order, vals, |order|) && |tiers| >= 2
    ensures tiers[0].mean > 0.0
    ensures SplitsList(vals) <==> |tiers| <= 3 && tiers[|tiers| - 1].mean / tiers[0].mean < 0.85
  {
    var first := Segments(vals, |vals|)[0];
    MeanBetween(vals, first.from, first.to);
    QuotientBelow(tiers[|tiers| - 1].mean, tiers[0].mean);
  }

  /** One field: Some(classes) when it splits the CPUs. */
  method ClassifyBy(values: map<CpuKey, int>) returns (classes: Option<map<CpuKey, PerformanceClass>>)
    requires AllPositive(values)
    ensures classes == if Splits(values) then Some(ClassesByValue(values)) else None
  {
    classes := None;
    if |values| >= 2 && |values.Values| >= 2 {
      ghost var some := OrderExists(values);
      var order: seq<CpuKey> :| IsOrder(order, values);
      VisitedIsDescending(order, values);
      var tiers := BuildTiers(values, order);
      OrdersAgree(order, values);
      if |tiers| >= 2 {
        SplitsByTiers(Visited(order, values), order, tiers);
        if |tiers| <= 3 && tiers[|tiers| - 1].mean / tiers[0].mean < 0.85 {
          var named := NameTiers(tiers, order, Visited(order, values));
          NamedByValue(named, order, values);
          classes := Some(named);
        }
      }
    }
  }

  // ----- what the classes mean

  function Level(class_: PerformanceClass): int
  {
    match class_
    case HigherCapacity => 3
    case IntermediateCapacity => 2
    case LowerCapacity => 1
    case Unknown => 0
  }

  lemma {:induction false} PositionOf(values: map<CpuKey, int>, key: CpuKey) returns (i: nat)
    requires AllPositive(values) && key in values
    ensures Descending(Sorted(values)) && i < |Sorted(values)| && Sorted(values)[i] == values[key]
  {
    var order := OrderExists(values);
    VisitedIsDescending(order, values);
    OrdersAgree(order, values);
    i :| 0 <= i < |order| && order[i] == key;
  }

  lemma {:induction false} KeyOf(values: map<CpuKey, int>, i: nat) returns (key: CpuKey)
    requires i < |Sorted(values)|
    ensures key in values && values[key] == Sorted(values)[i]
  {
    var order := OrderExists(values);
    OrdersAgree(order, values);
    key := order[i];
  }

  lemma {:induction false} LevelFollowsRank(vals: seq<int>, i: nat, j: nat)
    requires Descending(vals) && i < |vals| && j < |vals| && vals[i] >= vals[j] && |Segments(vals, |vals|)| >= 2
    ensures var count := |Segments(vals, |vals|)|;
      Level(ClassOfTier(Rank(vals, vals[i]), count)) >= Level(ClassOfTier(Rank(vals, vals[j]), count)) >= 1
  {
    LargerIsNeverBelow(vals, vals[i], vals[j]);
    RankOfPosition(vals, i);
    RankOfPosition(vals, j);
    TierCountGrows(vals, j + 1, |vals|);
  }

  lemma {:induction false} LevelFollowsValue(values: map<CpuKey, int>, a: CpuKey, b: CpuKey)
    requires AllPositive(values) && Splits(values) && a in values && b in values && values[a] >= values[b]
    ensures Level(ClassOfValue(values, values[a])) >= Level(ClassOfValue(values, values[b])) >= 1
  {
    var i := PositionOf(values, a);
    var j := PositionOf(values, b);
    LevelFollowsRank(Sorted(values), i, j);
  }

  lemma {:induction false} FirstIsHigher(vals: seq<int>, i: nat)
    requires Descending(vals) && i < |vals| && vals[i] >= vals[0]
    ensures ClassOfTier(Rank(vals, vals[i]), |Segments(vals, |vals|)|) == HigherCapacity
  {
    assert vals[i] == vals[0];
    RankOfPosition(vals, 0);
  }

  lemma {:induction false} LastIsLower(vals: seq<int>, i: nat)
    requires Descending(vals) && i < |vals| && vals[i] <= vals[|vals| - 1] && |Segments(vals, |vals|)| >= 2
    ensures ClassOfTier(Rank(vals, vals[i]), |Segments(vals, |vals|)|) == LowerCapacity
  {
    assert vals[i] == vals[|vals| - 1];
    RankOfPosition(vals, |vals| - 1);
  }

  /** The classes follow the values: every value has one, a larger one never a lower one, the largest the highest
      and the smallest the lowest. */
  ghost predicate Faithful(values: map<CpuKey, int>, classes: map<CpuKey, PerformanceClass>)
  {
    && classes.Keys == values.Keys
    && (forall a :: a in values ==> Level(classes[a]) >= 1)
    && (forall a, b :: a in values && b in values && values[a] >= values[b] ==> Level(classes[a]) >= Level(classes[b]))
    && (forall a :: a in values && IsHighest(a, values) ==> classes[a] == HigherCapacity)
    && (forall a :: a in values && IsLowest(a, values) ==> classes[a] == LowerCapacity)
  }

  predicate IsLowest(lowest: CpuKey, values: map<CpuKey, int>)
  {
    lowest in values && forall key :: key in values ==> values[lowest] <= values[key]
  }

  lemma {:induction false} HighestIsHigher(values: map<CpuKey, int>, a: CpuKey)
    requires AllPositive(values) && IsHighest(a, values)
    ensures ClassOfValue(values, values[a]) == HigherCapacity
  {
    var i := PositionOf(values, a);
    var first := KeyOf(values, 0);
    FirstIsHigher(Sorted(values), i);
  }

  lemma {:induction false} LowestIsLower(values: map<CpuKey, int>, a: CpuKey)
    requires AllPositive(values) && Splits(values) && IsLowest(a, values)
    ensures ClassOfValue(values, values[a]) == LowerCapacity
  {
    var i := PositionOf(values, a);
    var last := KeyOf(values, |Sorted(values)| - 1);
    LastIsLower(Sorted(values), i);
  }

  /** Two values have the same class exactly when they are in the same tier. */
  lemma {:induction false} ClassesSeparateTiers(values: map<CpuKey, int>, a: CpuKey, b: CpuKey)
    requires AllPositive(values) && Splits(values) && a in values && b in values
    ensures ClassesByValue(values)[a] == ClassesByValue(values)[b]
       <==> Rank(Sorted(values), values[a]) == Rank(Sorted(values), values[b])
  {
    RankIsATier(values, a);
    RankIsATier(values, b);
  }

  lemma {:induction false} RankIsATier(values: map<CpuKey, int>, a: CpuKey)
    requires AllPositive(values) && a in values
    ensures 0 <= Rank(Sorted(values), values[a]) < |Segments(Sorted(values), |Sorted(values)|)|
  {
    var i := PositionOf(values, a);
    RankOfPosition(Sorted(values), i);
    TierCountGrows(Sorted(values), i + 1, |Sorted(values)|);
  }

  lemma {:induction false} ClassesFollowValues(values: map<CpuKey, int>, a: CpuKey, b: CpuKey)
    requires AllPositive(values) && Splits(values) && a in values && b in values && values[a] >= values[b]
    ensures Level(ClassesByValue(values)[a]) >= Level(ClassesByValue(values)[b]) >= 1
  {
    LevelFollowsValue(values, a, b);
  }

  lemma {:induction false} ExtremeClasses(values: map<CpuKey, int>, a: CpuKey)
    requires AllPositive(values) && Splits(values) && a in values
    ensures IsHighest(a, values) ==> ClassesByValue(values)[a] == HigherCapacity
    ensures IsLowest(a, values) ==> ClassesByValue(values)[a] == LowerCapacity
  {
    if IsHighest(a, values) { HighestIsHigher(values, a); }
    if IsLowest(a, values) { LowestIsLower(values, a); }
  }

  lemma {:induction false} FaithfulIfPointwise(values: map<CpuKey, int>, classes: map<CpuKey, PerformanceClass>)
    requires classes.Keys == values.Keys
    requires forall a, b :: a in values && b in values && values[a] >= values[b] ==>
               Level(classes[a]) >= Level(classes[b]) >= 1
    requires forall a :: a in values && IsHighest(a, values) ==> classes[a] == HigherCapacity
    requires forall a :: a in values && IsLowest(a, values) ==> classes[a] == LowerCapacity
    ensures Faithful(values, classes)
  {
    forall a | a in values ensures Level(classes[a]) >= 1 {
      assert values[a] >= values[a];
    }
  }

  lemma {:induction false} ClassesAreFaithful(values: map<CpuKey, int>)
    requires AllPositive(values) && Splits(values)
    ensures Faithful(values, ClassesByValue(values))
  {
    var classes := ClassesByValue(values);
    forall a, b | a in values && b in values && values[a] >= values[b]
      ensures Level(classes[a]) >= Level(classes[b]) >= 1
    {
      ClassesFollowValues(values, a, b);
    }
    forall a | a in values
      ensures IsHighest(a, values) ==> classes[a] == HigherCapacity
      ensures IsLowest(a, values) ==> classes[a] == LowerCapacity
    {
      ExtremeClasses(values, a);
    }
    FaithfulIfPointwise(values, classes);
  }

  // ----- the whole classification

  /** A field that splits the CPUs, their values in it, and the classes these get. */
  datatype Choice = Choice(field: CapacityField, values: map<CpuKey, int>, classes: map<CpuKey, PerformanceClass>)

  /** The choice is about these records, and its classes follow the values. */
  ghost predicate Admissible(records: map<CpuKey, CpuRecord>, choice: Option<Choice>)
  {
    choice.Some? ==>
      && choice.value.values == Positive(records, choice.value.field)
      && Faithful(choice.value.values, choice.value.classes)
  }

  ghost function ChoiceOf(records: map<CpuKey, CpuRecord>, field: CapacityField): Choice
  {
    Choice(field, Positive(records, field), ClassesByValue(Positive(records, field)))
  }

  /** The first of the fields that splits the CPUs. */
  ghost function Deciding(records: map<CpuKey, CpuRecord>, fields: seq<CapacityField>): (choice: Option<Choice>)
    ensures Admissible(records, choice)
  {
    if fields == [] then None
    else if Splits(Positive(records, fields[0])) then
      ClassesAreFaithful(Positive(records, fields[0]));
      Some(ChoiceOf(records, fields[0]))
    else Deciding(records, fields[1..])
  }

  /** The classification by a choice, or none. */
  function Outcome(records: map<CpuKey, CpuRecord>, choice: Option<Choice>): (r: Classification)
    requires choice.Some? ==> choice.value.classes.Keys == choice.value.values.Keys
    ensures r.Keys == records.Keys
  {
    if choice.None? then Unclassified(records)
    else Describe(records, choice.value.values, choice.value.field, choice.value.classes)
  }

  method ChooseField(records: map<CpuKey, CpuRecord>, field: CapacityField) returns (choice: Option<Choice>)
    ensures choice == if Splits(Positive(records, field)) then Some(ChoiceOf(records, field)) else None
  {
    var values := Positive(records, field);
    var classes := ClassifyBy(values);
    choice := if classes.Some? then Some(Choice(field, values, classes.value)) else None;
  }

  method ChooseFirst(records: map<CpuKey, CpuRecord>, fields: seq<CapacityField>) returns (choice: Option<Choice>)
    ensures choice == Deciding(records, fields)
  {
    var rest := fields;
    choice := None;
    while rest != [] && choice.None?
      invariant Deciding(records, fields) == if choice.Some? then choice else Deciding(records, rest)
      decreases |rest|
    {
      choice := ChooseField(records, rest[0]);
      rest := rest[1..];
    }
  }

  /** The field that decides: the kernel's capacity before the CPPC rating before the two frequencies. */
  ghost function Preferred(records: map<CpuKey, CpuRecord>): Option<CapacityField>
  {
    if Splits(Positive(records, CpuCapacity)) then Some(CpuCapacity)
    else if Splits(Positive(records, CppcHighestPerf)) then Some(CppcHighestPerf)
    else if Splits(Positive(records, CpuinfoMaxFreqKHz)) then Some(CpuinfoMaxFreqKHz)
    else if Splits(Positive(records, BaseFrequencyKHz)) then Some(BaseFrequencyKHz)
    else None
  }

  lemma {:induction false} FirstField(records: map<CpuKey, CpuRecord>, field: CapacityField, rest: seq<CapacityField>)
    ensures Deciding(records, [field] + rest)
         == if Splits(Positive(records, field)) then Some(ChoiceOf(records, field)) else Deciding(records, rest)
  {
    assert ([field] + rest)[1..] == rest;
  }

  lemma {:induction false} PreferredDecides(records: map<CpuKey, CpuRecord>)
    ensures Deciding(records, FIELDS)
         == if Preferred(records).Some? then Some(ChoiceOf(records, Preferred(records).value)) else None
  {
    var last := [BaseFrequencyKHz];
    FirstField(records, BaseFrequencyKHz, []);
    assert [BaseFrequencyKHz] + [] == last;
    FirstField(records, CpuinfoMaxFreqKHz, last);
    FirstField(records, CppcHighestPerf, [CpuinfoMaxFreqKHz] + last);
    FirstField(records, CpuCapacity, [CppcHighestPerf] + ([CpuinfoMaxFreqKHz] + last));
    assert FIELDS == [CpuCapacity] + ([CppcHighestPerf] + ([CpuinfoMaxFreqKHz] + last));
  }

  /** The verdict on one CPU names the deciding field and its own positive reading there, or says nothing. */
  ghost predicate ReportsReading(record: CpuRecord, decides: Option<CapacityField>, v: CpuVerdict)
  {
    if decides.Some? && decides.value in record && record[decides.value] >= 1
    then v.source == decides && v.capacity == Some(record[decides.value])
    else v == CpuVerdict(Unknown, None, None)
  }

  lemma {:induction false} OutcomeReportsReadings(records: map<CpuKey, CpuRecord>, a: CpuKey)
    requires a in records
    ensures ReportsReading(records[a], Preferred(records), Outcome(records, Deciding(records, FIELDS))[a])
  {
    PreferredDecides(records);
  }

  method ClassifyCpuPerformanceClasses(records: map<CpuKey, CpuRecord>) returns (r: Classification)
    ensures r == Outcome(records, Deciding(records, FIELDS)) && r.Keys == records.Keys
    ensures forall a :: a in records ==> ReportsReading(records[a], Preferred(records), r[a])
  {
    var choice := ChooseFirst(records, FIELDS);
    r := Outcome(records, choice);
    forall a | a in records ensures ReportsReading(records[a], Preferred(records), r[a]) {
      OutcomeReportsReadings(records, a);
    }
  }

  /** A CPU has a class exactly when it has a capacity. */
  lemma {:induction false} ClassedIffMeasured(records: map<CpuKey, CpuRecord>, choice: Option<Choice>, a: CpuKey)
    requires Admissible(records, choice) && a in records
    ensures var v := Outcome(records, choice)[a]; v.class_ == Unknown <==> v.capacity.None?
  {
    if choice.Some? && a in choice.value.values { assert Level(choice.value.classes[a]) >= 1; }
  }

  /** The classes never invert the capacities. */
  lemma {:induction false} ClassesFollowCapacities(records: map<CpuKey, CpuRecord>, choice: Option<Choice>,
                                                   a: CpuKey, b: CpuKey)
    requires Admissible(records, choice) && a in records && b in records
    ensures var r := Outcome(records, choice);
      r[a].capacity.Some? && r[b].capacity.Some? && r[a].capacity.value >= r[b].capacity.value ==>
        Level(r[a].class_) >= Level(r[b].class_)
  {
  }

  /** Equal capacities get the same class. */
  lemma {:induction false} EqualCapacitiesShareAClass(records: map<CpuKey, CpuRecord>, choice: Option<Choice>,
                                                      a: CpuKey, b: CpuKey)
    requires Admissible(records, choice) && a in records && b in records
    ensures var r := Outcome(records, choice); r[a].capacity == r[b].capacity ==> r[a].class_ == r[b].class_
  {
    ClassedIffMeasured(records, choice, a);
    ClassedIffMeasured(records, choice, b);
    ClassesFollowCapacities(records, choice, a, b);
    ClassesFollowCapacities(records, choice, b, a);
  }

  /** Extreme among the reported capacities is extreme among the values. */
  lemma {:induction false} ExtremesInValues(values: map<CpuKey, int>, r: Classification, a: CpuKey)
    requires a in values && forall key :: key in values ==> key in r && r[key].capacity == Some(values[key])
    ensures (forall key :: key in r && r[key].capacity.Some? ==> r[key].capacity.value <= values[a])
              ==> IsHighest(a, values)
    ensures (forall key :: key in r && r[key].capacity.Some? ==> r[key].capacity.value >= values[a])
              ==> IsLowest(a, values)
  {
  }

  /** Whenever classes are given, the largest capacity is a higher one and the smallest a lower one. */
  lemma {:induction false} ExtremesGetExtremeClasses(records: map<CpuKey, CpuRecord>, choice: Option<Choice>, a: CpuKey)
    requires Admissible(records, choice) && a in records
    ensures var r := Outcome(records, choice); r[a].capacity.Some? ==>
      && ((forall key :: key in r && r[key].capacity.Some? ==> r[key].capacity.value <= r[a].capacity.value)
            ==> r[a].class_ == HigherCapacity)
      && ((forall key :: key in r && r[key].capacity.Some? ==> r[key].capacity.value >= r[a].capacity.value)
            ==> r[a].class_ == LowerCapacity)
  {
    if choice.Some? && a in choice.value.values {
      var values, r := choice.value.values, Outcome(records, choice);
      forall key | key in values ensures key in r && r[key].capacity == Some(values[key]) {
        assert key in records;
      }
      ExtremesInValues(values, r, a);
    }
  }
}
