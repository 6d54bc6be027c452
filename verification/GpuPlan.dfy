/** The chunk planner of Modules/lvs_gpu_allocation_plan.py and its optimality. */
module GpuPlan {
  import opened PyNumbers
  import G = GpuGeometry

  /** The arguments of plan_gpu_allocation_chunks; a capability of zero or less is unknown. */
  datatype Request = Request(
    targetBytes: int, maxSingleAllocation: int, maxBufferOrObject: int,
    allocationGranularity: int, maxAllocationCount: int, practicalChunk: int)
  {
    function Target(): nat { Max(0, targetBytes) }

    function Granularity(): (g: nat)
      ensures g >= 1
    {
      Max(1, if allocationGranularity != 0 then allocationGranularity else 1)
    }

    function Caps(): seq<int> { [maxSingleAllocation, maxBufferOrObject, practicalChunk] }
  }

  datatype Plan = Plan(chunks: seq<int>, planned: int, legalChunkLimit: int)

  function Sum(chunks: seq<int>): int
  {
    if chunks == [] then 0 else Sum(chunks[..|chunks| - 1]) + chunks[|chunks| - 1]
  }

  /** _positive_min: the least positive value, or 0. */
  function PositiveMin(values: seq<int>): (m: int)
    ensures m >= 0
    ensures m > 0 ==> m in values && forall v :: v in values && v > 0 ==> m <= v
    ensures m == 0 ==> forall v :: v in values ==> v <= 0
  {
    if values == [] then 0
    else
      var rest := PositiveMin(values[1..]);
      assert forall v :: v in values <==> v == values[0] || v in values[1..];
      if values[0] > 0 && (rest == 0 || values[0] < rest) then values[0] else rest
  }

  /** A list of allocation requests that the API limits allow and the target can pay for. */
  ghost predicate Legal(q: Request, chunks: seq<int>)
  {
    && (forall k :: 0 <= k < |chunks| ==> LegalChunk(q, chunks[k]))
    && (q.maxAllocationCount > 0 ==> |chunks| <= q.maxAllocationCount)
    && Sum(chunks) <= Max(0, q.targetBytes)
  }

  /** A whole number of granules within every known limit; a granularity below one counts as one. */
  ghost predicate LegalChunk(q: Request, chunk: int)
  {
    && chunk > 0 && MultipleOf(chunk, if q.allocationGranularity > 1 then q.allocationGranularity else 1)
    && (q.maxSingleAllocation > 0 ==> chunk <= q.maxSingleAllocation)
    && (q.maxBufferOrObject > 0 ==> chunk <= q.maxBufferOrObject)
    && (q.practicalChunk > 0 ==> chunk <= q.practicalChunk)
  }

  /** The three limits are what the planner takes the least of. */
  lemma {:induction false} LegalChunkByCaps(q: Request, chunk: int)
    ensures LegalChunk(q, chunk) <==>
            && chunk > 0 && MultipleOf(chunk, q.Granularity())
            && forall cap :: cap in q.Caps() && cap > 0 ==> chunk <= cap
  {
    assert q.maxSingleAllocation in q.Caps() && q.maxBufferOrObject in q.Caps() && q.practicalChunk in q.Caps();
    assert forall cap :: cap in q.Caps() ==>
      cap == q.maxSingleAllocation || cap == q.maxBufferOrObject || cap == q.practicalChunk;
  }

  predicate Times(n: int, k: int, g: int) { n == k * g }

  ghost predicate MultipleOf(n: int, g: int) { exists k: int :: Times(n, k, g) }

  /** n - n % g. */
  function RoundDown(n: nat, g: nat): (r: nat)
    requires g >= 1
    ensures MultipleOf(r, g) && r <= n < r + g
  {
    assert Times(n / g * g, n / g, g);
    n / g * g
  }

  /** The largest chunk the limits allow; the whole target when no limit is known. */
  function ChunkLimit(q: Request): nat
  {
    var limit := PositiveMin(q.Caps());
    RoundDown(if limit <= 0 then q.Target() else limit, q.Granularity())
  }

  /** The planned bytes in closed form. */
  function BestTotal(q: Request): nat
  {
    var limit, whole := ChunkLimit(q), RoundDown(q.Target(), q.Granularity());
    if limit < q.Granularity() then 0
    else if q.maxAllocationCount > 0 then Min(whole, G.Product(q.maxAllocationCount, limit))
    else whole
  }

  lemma {:induction false} SumOfMultiples(a: int, b: int, g: int)
    requires MultipleOf(a, g) && MultipleOf(b, g)
    ensures MultipleOf(a + b, g)
  {
    var k: int :| Times(a, k, g);
    var l: int :| Times(b, l, g);
    assert Times(a + b, k + l, g);
  }

  /** A multiple of g at most n is at most n rounded down. */
  lemma {:induction false} MultipleBelow(m: int, n: nat, g: nat)
    requires g >= 1 && MultipleOf(m, g) && m <= n
    ensures m <= RoundDown(n, g)
  {
    var k: int :| Times(m, k, g);
    var r := RoundDown(n, g);
    var l: int :| Times(r, l, g);
    FactorsOrdered(k, l, g, n);
  }

  lemma {:induction false} FactorsOrdered(k: int, l: int, g: nat, n: int)
    requires g >= 1 && k * g <= n < l * g + g
    ensures k * g <= l * g
  {
    if k > l { MulMonotone(l + 1, k, g); }
    else { MulMonotone(k, l, g); }
  }

  lemma {:induction false} OneMoreFits(sum: int, chunk: int, n: nat, limit: int)
    requires sum <= n * limit && chunk <= limit
    ensures sum + chunk <= (n + 1) * limit
  {
    assert (n + 1) * limit == n * limit + limit;
  }

  lemma {:induction false} LegalSumIsBounded(q: Request, chunks: seq<int>)
    requires forall k :: 0 <= k < |chunks| ==> LegalChunk(q, chunks[k])
    requires PositiveMin(q.Caps()) > 0
    ensures Sum(chunks) <= |chunks| * ChunkLimit(q)
  {
    if chunks != [] {
      var front, last := chunks[..|chunks| - 1], chunks[|chunks| - 1];
      LegalSumIsBounded(q, front);
      assert LegalChunk(q, last);
      MultipleBelow(last, PositiveMin(q.Caps()), q.Granularity());
      OneMoreFits(Sum(front), last, |front|, ChunkLimit(q));
    }
  }

  lemma {:induction false} LegalSumIsMultiple(q: Request, chunks: seq<int>)
    requires forall k :: 0 <= k < |chunks| ==> LegalChunk(q, chunks[k])
    ensures MultipleOf(Sum(chunks), q.Granularity()) && Sum(chunks) >= |chunks|
  {
    assert Times(0, 0, q.Granularity());
    if chunks != [] {
      var front, last := chunks[..|chunks| - 1], chunks[|chunks| - 1];
      LegalSumIsMultiple(q, front);
      assert LegalChunk(q, last);
      SumOfMultiples(Sum(front), last, q.Granularity());
    }
  }

  /** No legal list plans more bytes than the closed form. */
  lemma {:induction false} NoLegalListPlansMore(q: Request, chunks: seq<int>)
    requires Legal(q, chunks)
    ensures Sum(chunks) <= BestTotal(q)
  {
    var g, limit := q.Granularity(), ChunkLimit(q);
    LegalSumIsMultiple(q, chunks);
    MultipleBelow(Sum(chunks), q.Target(), g);
    if limit < g { SmallLimitAllowsNothing(q, chunks); }
    if PositiveMin(q.Caps()) > 0 {
      LegalSumIsBounded(q, chunks);
      if q.maxAllocationCount > 0 { MulMonotone(|chunks|, q.maxAllocationCount, limit); }
    } else if q.maxAllocationCount > 0 {
      MulMonotone(1, q.maxAllocationCount, limit);
    }
  }

  lemma {:induction false} SmallLimitAllowsNothing(q: Request, chunks: seq<int>)
    requires Legal(q, chunks) && ChunkLimit(q) < q.Granularity()
    ensures Sum(chunks) <= 0
  {
    var g := q.Granularity();
    MultipleBelowOne(ChunkLimit(q), g);
    if PositiveMin(q.Caps()) > 0 {
      LegalSumIsBounded(q, chunks);
    } else {
      LegalSumIsMultiple(q, chunks);
      MultipleBelow(Sum(chunks), q.Target(), g);
    }
  }

  lemma {:induction false} MultipleBelowOne(n: nat, g: nat)
    requires g >= 1 && MultipleOf(n, g) && n < g
    ensures n == 0
  {
    var k: int :| Times(n, k, g);
    if k >= 1 { MulMonotone(1, k, g); } else { MulMonotone(k, 0, g); }
  }

  // ----- the greedy planner

  /** The state of the greedy loop after some full-size chunks. */
  ghost predicate GreedyState(q: Request, limit: nat, chunks: seq<int>, remaining: int)
  {
    && remaining == q.Target() - Sum(chunks) && remaining >= 0
    && (forall k :: 0 <= k < |chunks| ==> LegalChunk(q, chunks[k]))
    && (q.maxAllocationCount > 0 ==> |chunks| <= q.maxAllocationCount)
    && (remaining >= q.Granularity() ==> Sum(chunks) == G.Product(|chunks|, limit))
  }

  /** plan_gpu_allocation_chunks: a legal list that plans as many bytes as any legal list can. */
  method PlanGpuAllocationChunks(q: Request) returns (p: Plan)
    ensures Legal(q, p.chunks) && p.planned == Sum(p.chunks) == BestTotal(q)
    ensures forall other :: Legal(q, other) ==> Sum(other) <= p.planned
    ensures p.legalChunkLimit == ChunkLimit(q)
  {
    var target, granularity, limit := q.Target(), q.Granularity(), ChunkLimit(q);
    var chunks: seq<int>, remaining := [], target;
    while remaining >= granularity && limit >= granularity
      invariant GreedyState(q, limit, chunks, remaining)
      decreases remaining
    {
      if q.maxAllocationCount > 0 && |chunks| >= q.maxAllocationCount {
        break;
      }
      var chunk := RoundDown(Min(limit, remaining), granularity);
      if chunk < granularity {
        RoundDownReaches(Min(limit, remaining), granularity);
        assert false;
        break;
      }
      GreedyStep(q, limit, chunks, remaining, chunk);
      chunks, remaining := chunks + [chunk], remaining - chunk;
    }
    GreedyEnd(q, limit, chunks, remaining);
    p := Plan(chunks, target - remaining, limit);
    forall other | Legal(q, other) ensures Sum(other) <= p.planned {
      NoLegalListPlansMore(q, other);
    }
  }

  lemma {:induction false} RoundDownReaches(n: nat, g: nat)
    requires 1 <= g <= n
    ensures RoundDown(n, g) >= g
  {
    assert Times(g, 1, g);
    MultipleBelow(g, n, g);
  }

  /** A full-size chunk, or the last one: what then remains is smaller than the granularity. */
  lemma {:induction false} NextChunkIsLegal(q: Request, limit: nat, remaining: int, chunk: int)
    requires limit == ChunkLimit(q) && 0 < q.Granularity() <= remaining <= q.Target() && q.Granularity() <= limit
    requires chunk == RoundDown(Min(limit, remaining), q.Granularity()) && chunk >= q.Granularity()
    ensures LegalChunk(q, chunk) && chunk <= remaining
    ensures remaining - chunk >= q.Granularity() ==> chunk == limit
  {
    LimitIsLegal(q);
    LegalChunkByCaps(q, chunk);
    if limit <= remaining { MultipleBelow(limit, limit, q.Granularity()); }
  }

  lemma {:induction false} GreedyStep(q: Request, limit: nat, chunks: seq<int>, remaining: int, chunk: int)
    requires GreedyState(q, limit, chunks, remaining) && limit == ChunkLimit(q)
    requires remaining >= q.Granularity() && limit >= q.Granularity()
    requires q.maxAllocationCount > 0 ==> |chunks| < q.maxAllocationCount
    requires chunk == RoundDown(Min(limit, remaining), q.Granularity()) && chunk >= q.Granularity()
    ensures GreedyState(q, limit, chunks + [chunk], remaining - chunk)
  {
    var longer := chunks + [chunk];
    assert longer[..|longer| - 1] == chunks;
    LegalSumIsMultiple(q, chunks);
    NextChunkIsLegal(q, limit, remaining, chunk);
    OneMore(|chunks|, limit);
  }

  lemma {:induction false} OneMore(n: nat, limit: nat)
    ensures G.Product(n + 1, limit) == G.Product(n, limit) + limit
  {
  }

  lemma {:induction false} LimitIsLegal(q: Request)
    ensures MultipleOf(ChunkLimit(q), q.Granularity())
    ensures PositiveMin(q.Caps()) > 0 ==> forall cap :: cap in q.Caps() && cap > 0 ==> ChunkLimit(q) <= cap
    ensures ChunkLimit(q) <= q.Target() || PositiveMin(q.Caps()) > 0
  {
  }

  /** When the loop stops, the closed form has been reached. */
  lemma {:induction false} GreedyEnd(q: Request, limit: nat, chunks: seq<int>, remaining: int)
    requires GreedyState(q, limit, chunks, remaining) && limit == ChunkLimit(q)
    requires || remaining < q.Granularity() || limit < q.Granularity()
             || (q.maxAllocationCount > 0 && |chunks| >= q.maxAllocationCount)
    ensures Legal(q, chunks) && Sum(chunks) == BestTotal(q)
  {
    NoLegalListPlansMore(q, chunks);
    LegalSumIsMultiple(q, chunks);
    if limit >= q.Granularity() {
      if remaining < q.Granularity() {
        MultipleIsRoundDown(q, chunks, remaining);
      } else {
        assert Sum(chunks) == G.Product(q.maxAllocationCount, limit);
      }
    }
  }

  lemma {:induction false} MultipleIsRoundDown(q: Request, chunks: seq<int>, remaining: int)
    requires forall k :: 0 <= k < |chunks| ==> LegalChunk(q, chunks[k])
    requires 0 <= remaining < q.Granularity() && Sum(chunks) == q.Target() - remaining
    ensures Sum(chunks) == RoundDown(q.Target(), q.Granularity())
  {
    LegalSumIsMultiple(q, chunks);
    var g, whole := q.Granularity(), RoundDown(q.Target(), q.Granularity());
    MultipleBelow(Sum(chunks), q.Target(), g);
    var k: int :| Times(whole, k, g);
    var l: int :| Times(Sum(chunks), l, g);
    FactorsOrdered(k, l, g, q.Target());
  }

  // ----- agreement with the geometries

  function EglRequest(g: G.Geometry): Request
  {
    Request(g.target, g.objectBytes, 0, g.objectBytes, G.EGL_TEXTURE_OBJECT_BUDGET, 0)
  }

  /** Planning with one texture as chunk and granularity reproduces the EGL geometry. */
  lemma {:induction false} PlannerReproducesEgl(g: G.Geometry)
    requires g.objectBytes >= 1 && g.count == Min(G.EGL_TEXTURE_OBJECT_BUDGET, g.target / g.objectBytes)
    requires g.planned == g.count * g.objectBytes
    ensures BestTotal(EglRequest(g)) == g.planned
  {
    var q, size := EglRequest(g), g.objectBytes;
    assert q.Caps()[0] == size;
    assert PositiveMin(q.Caps()) == size;
    assert Times(size, 1, size);
    MultipleBelow(size, size, size);
    assert ChunkLimit(q) == size;
    var whole := g.target / size * size;
    assert RoundDown(g.target, size) == whole;
    if g.count == G.EGL_TEXTURE_OBJECT_BUDGET {
      MulMonotone(G.EGL_TEXTURE_OBJECT_BUDGET, g.target / size, size);
    } else {
      MulMonotone(g.target / size, G.EGL_TEXTURE_OBJECT_BUDGET, size);
    }
  }

  /** The EGL geometry and the planner, one after the other: they plan the same bytes. */
  method PlanEglTextures(targetBytes: int, sideHint: int, maxTextureSize: int) returns (g: G.Geometry, p: Plan)
    ensures p.planned == g.planned && g.target == Max(0, targetBytes)
    ensures Legal(EglRequest(g), p.chunks)
  {
    g := G.EglTextureGeometry(targetBytes, sideHint, maxTextureSize);
    MulMonotone(1, g.side, g.side);
    PlannerReproducesEgl(g);
    p := PlanGpuAllocationChunks(EglRequest(g));
  }

  function OpenClRequest(g: G.Geometry): Request
  {
    Request(g.target, g.objectBytes, 0, G.PAGE, g.count, 0)
  }

  lemma {:induction false} RequestLimit(q: Request, size: int)
    requires q.maxSingleAllocation == size && q.maxBufferOrObject == 0 && q.practicalChunk == 0
    ensures PositiveMin(q.Caps()) == Max(0, size)
  {
    assert q.Caps()[0] == size;
  }

  /** Planning with pages reproduces the OpenCL geometry, except when a negative API maximum makes the
      geometry plan nothing while the planner takes it for unknown. */
  lemma {:induction false} PlannerReproducesOpenCl(targetBytes: int, maxAlloc: int, discrete: bool, safe: bool)
    ensures var g := G.OpenClBufferGeometry(targetBytes, maxAlloc, discrete, safe);
            BestTotal(OpenClRequest(g)) == g.planned <==> maxAlloc >= 0 || g.target < G.PAGE
  {
    var g := G.OpenClBufferGeometry(targetBytes, maxAlloc, discrete, safe);
    var q := OpenClRequest(g);
    G.ChunkIsLegal(g.target, maxAlloc, discrete, safe);
    G.CountIsPositive(g.target, g.objectBytes, discrete, safe);
    RequestLimit(q, g.objectBytes);
    PagedRequest(q, g.objectBytes, g.count, g.planned);
  }

  /** The OpenCL geometry and the planner, one after the other. */
  method PlanOpenClBuffers(targetBytes: int, maxAlloc: int, discrete: bool, safe: bool) returns (g: G.Geometry, p: Plan)
    ensures g == G.OpenClBufferGeometry(targetBytes, maxAlloc, discrete, safe)
    ensures p.planned == g.planned <==> maxAlloc >= 0 || g.target < G.PAGE
  {
    g := G.OpenClBufferGeometry(targetBytes, maxAlloc, discrete, safe);
    PlannerReproducesOpenCl(targetBytes, maxAlloc, discrete, safe);
    p := PlanGpuAllocationChunks(OpenClRequest(g));
  }

  /** A negative API maximum and a target of one page: the geometry plans nothing, the planner the whole page. */
  lemma {:induction false} NegativeMaximumIsTakenForUnknown(discrete: bool, safe: bool)
    ensures var g := G.OpenClBufferGeometry(4096, -1, discrete, safe);
            g.planned == 0 && BestTotal(OpenClRequest(g)) == 4096
  {
    var g := G.OpenClBufferGeometry(4096, -1, discrete, safe);
    PlannerReproducesOpenCl(4096, -1, discrete, safe);
    G.ChunkIsLegal(4096, -1, discrete, safe);
    RequestLimit(OpenClRequest(g), g.objectBytes);
  }

  lemma {:induction false} PagedRequest(q: Request, chunk: int, count: int, planned: int)
    requires q == Request(q.targetBytes, chunk, 0, G.PAGE, count, 0) && q.targetBytes >= 0 && count >= 32
    requires PositiveMin(q.Caps()) == Max(0, chunk)
    requires chunk >= G.PAGE ==> chunk % G.PAGE == 0
    requires planned == if chunk >= G.PAGE then G.Rounded(Min(q.targetBytes, G.Product(chunk, count))) else 0
    ensures chunk > 0 || q.targetBytes < G.PAGE ==> BestTotal(q) == planned
    ensures chunk <= 0 && q.targetBytes >= G.PAGE ==> BestTotal(q) > planned
  {
    assert q.Target() == q.targetBytes && q.Granularity() == G.PAGE;
    if chunk >= G.PAGE {
      G.PagesOfProduct(chunk, count);
      RoundDownOfPages(q.targetBytes, G.Product(chunk, count));
      assert G.Product(count, chunk) == G.Product(chunk, count);
      assert ChunkLimit(q) == chunk;
    } else if chunk <= 0 {
      MulMonotone(1, count, ChunkLimit(q));
    }
  }

  lemma {:induction false} RoundDownOfPages(target: nat, total: nat)
    requires G.Rounded(total) == total
    ensures G.Rounded(Min(target, total)) == Min(G.Rounded(target), total)
  {
  }
}
