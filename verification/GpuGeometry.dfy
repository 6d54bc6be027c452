/** Object sizes and counts of the GPU allocation backends (Modules/lvs_gpu_allocation_geometry.py). */
module GpuGeometry {
  import opened PyNumbers

  const EGL_TEXTURE_OBJECT_BUDGET := 512
  const MIB := 1024 * 1024
  const PAGE := 4096

  datatype Status =
    | ConditionalRuntimeQuery | LimitedByObjectBudget | WholeObjectRounding
    | LimitedByGranularity | NominallyFeasible

  datatype Geometry = Geometry(
    target: nat, side: nat, objectBytes: int, count: nat, planned: nat, status: Status)

  // ----- EGL textures

  function TextureBytes(side: int): int { side * side * 4 }

  function EglLimit(sideHint: int, maxTextureSize: int): (limit: int)
    ensures limit >= 1
    ensures maxTextureSize > 0 ==> limit == maxTextureSize
    ensures maxTextureSize <= 0 && sideHint >= 1 ==> limit == sideHint
    ensures maxTextureSize <= 0 && sideHint < 1 ==> limit == 1
  {
    if maxTextureSize > 0 then maxTextureSize else Max(1, sideHint)
  }

  function EglStart(target: nat, sideHint: int, limit: int): (side: int)
    requires limit >= 1
    ensures 1 <= side <= limit
    ensures target >= 4 ==> TextureBytes(side) <= target
    ensures target < 4 ==> side == 1
    ensures side <= Max(1, sideHint)
    ensures target >= 4 && side < sideHint && side < limit ==> TextureBytes(side + 1) > target
  {
    var root := if target >= 4 then Isqrt(target / 4) else 1;
    var side := Max(1, Min(sideHint, Min(limit, root)));
    assert target >= 4 ==> 1 <= root && TextureBytes(side) <= target by {
      if target >= 4 { RootFits(target, root, side); }
    }
    assert target >= 4 && side == root ==> TextureBytes(side + 1) > target by {
      if target >= 4 && side == root { NextRootIsTooLarge(target, root); }
    }
    side
  }

  lemma {:induction false} NextRootIsTooLarge(target: nat, root: nat)
    requires target / 4 < (root + 1) * (root + 1)
    ensures TextureBytes(root + 1) > target
  {
    assert target < 4 * (target / 4) + 4;
  }

  lemma {:induction false} RootFits(target: nat, root: nat, side: nat)
    requires target >= 4 && root * root <= target / 4 < (root + 1) * (root + 1)
    requires root >= 1 ==> side <= root
    ensures root >= 1 && TextureBytes(side) <= target
  {
    assert root == 0 ==> (root + 1) * (root + 1) == 1;
    MulMonotone(side, root, side);
    MulMonotone(side, root, root);
    assert target / 4 * 4 <= target;
  }

  /** egl_texture_geometry. */
  method EglTextureGeometry(targetBytes: int, sideHint: int, maxTextureSize: int) returns (g: Geometry)
    ensures g.target == Max(0, targetBytes)
    ensures 1 <= g.side <= EglLimit(sideHint, maxTextureSize) && g.objectBytes == TextureBytes(g.side)
    // the texture count: as many whole textures as fit, within the budget
    ensures g.planned == g.count * g.objectBytes <= g.target && g.count <= EGL_TEXTURE_OBJECT_BUDGET
    ensures g.count < EGL_TEXTURE_OBJECT_BUDGET ==> g.target - g.planned < g.objectBytes
    ensures g.target >= 4 <==> g.count >= 1
    ensures g.count == Min(512, g.target / g.objectBytes)
    // the side grows only while the budget cannot reach the target, and stops as soon as it can
    ensures var start := EglStart(g.target, sideHint, EglLimit(sideHint, maxTextureSize));
            g.side != start ==>
              g.side > start && g.count >= 128
              && exists before :: start <= before < g.side == Min(EglLimit(sideHint, maxTextureSize), 2 * before)
                                  && TooSmall(before, g.target)
    ensures g.target > g.objectBytes * EGL_TEXTURE_OBJECT_BUDGET ==> g.side == EglLimit(sideHint, maxTextureSize)
    ensures g.target <= g.objectBytes * EGL_TEXTURE_OBJECT_BUDGET ==> g.target - g.planned < g.objectBytes
    ensures g.status == if maxTextureSize <= 0 then ConditionalRuntimeQuery
                        else if g.target > g.objectBytes * EGL_TEXTURE_OBJECT_BUDGET then LimitedByObjectBudget
                        else WholeObjectRounding
  {
    var target := Max(0, targetBytes);
    var limit := EglLimit(sideHint, maxTextureSize);
    var start := EglStart(target, sideHint, limit);
    ghost var before;
    var side;
    side, before := GrowSide(target, start, limit);
    var size, count := CountTextures(target, side);
    if side != start {
      GrownSideFacts(before, side, target, size);
    }
    var status := if maxTextureSize <= 0 then ConditionalRuntimeQuery
                  else if target > size * EGL_TEXTURE_OBJECT_BUDGET then LimitedByObjectBudget
                  else WholeObjectRounding;
    g := Geometry(target, side, size, count, count * size, status);
  }

  /** As many whole textures as fit in target and budget. */
  method CountTextures(target: nat, side: int) returns (size: int, count: nat)
    requires side >= 1 && (if target >= 4 then TextureBytes(side) <= target else side == 1)
    ensures 4 <= size == TextureBytes(side) && count == Min(EGL_TEXTURE_OBJECT_BUDGET, target / size)
    ensures count * size <= target && (target >= 4 <==> count >= 1)
    ensures count < EGL_TEXTURE_OBJECT_BUDGET || target <= size * EGL_TEXTURE_OBJECT_BUDGET ==>
              target - count * size < size
  {
    size := TextureBytes(side);
    MulMonotone(1, side, side);
    count := Min(EGL_TEXTURE_OBJECT_BUDGET, target / size);
    CountFacts(target, size, count);
  }

  /** The budget cannot reach the target with textures of this side. */
  predicate TooSmall(side: int, target: nat)
  {
    TextureBytes(side) * EGL_TEXTURE_OBJECT_BUDGET < target
  }

  /** The doubling loop. */
  method GrowSide(target: nat, start: int, limit: int) returns (side: int, ghost before: int)
    requires 1 <= start <= limit && (if target >= 4 then TextureBytes(start) <= target else start == 1)
    ensures start <= side <= limit && (if target >= 4 then TextureBytes(side) <= target else side == 1)
    ensures side < limit ==> !TooSmall(side, target)
    ensures side != start ==> start <= before < side == Min(limit, 2 * before) && TooSmall(before, target)
  {
    side, before := start, start;
    while side < limit && TextureBytes(side) * EGL_TEXTURE_OBJECT_BUDGET < target
      invariant start <= side <= limit && (if target >= 4 then TextureBytes(side) <= target else side == 1)
      invariant side != start ==> start <= before < side == Min(limit, 2 * before) && TooSmall(before, target)
      decreases limit - side
    {
      var candidate := Min(limit, side * 2);
      DoublingStaysBelow(side, candidate, target);
      if TextureBytes(candidate) > target {
        assert false;
        break;
      }
      before, side := side, candidate;
    }
  }

  /** A doubled side is far below the target, so the guard inside the loop never stops it. */
  lemma {:induction false} DoublingStaysBelow(side: int, candidate: int, target: int)
    requires 1 <= side <= candidate <= 2 * side && TextureBytes(side) * EGL_TEXTURE_OBJECT_BUDGET < target
    ensures TextureBytes(candidate) * 128 < target
  {
    MulMonotone(candidate, 2 * side, candidate);
    MulMonotone(candidate, 2 * side, 2 * side);
    assert candidate * candidate <= 4 * (side * side);
  }

  lemma {:induction false} CountFacts(target: nat, size: int, count: int)
    requires size >= 4 && count == Min(EGL_TEXTURE_OBJECT_BUDGET, target / size)
    requires target >= 4 ==> size <= target
    ensures 0 <= count && count * size <= target
    ensures count < EGL_TEXTURE_OBJECT_BUDGET ==> target - count * size < size
    ensures target <= size * EGL_TEXTURE_OBJECT_BUDGET ==> target - count * size < size
    ensures target >= 4 <==> count >= 1
  {
    var q := target / size;
    assert q * size <= target < q * size + size;
    MulMonotone(count, q, size);
    assert q == 0 ==> target < size;
    if count == EGL_TEXTURE_OBJECT_BUDGET { MulMonotone(1, size, count); }
  }

  lemma {:induction false} GrownSideFacts(before: int, side: int, target: int, size: int)
    requires 1 <= before < side <= 2 * before && TextureBytes(before) * EGL_TEXTURE_OBJECT_BUDGET < target
    requires size == TextureBytes(side) && size >= 4
    ensures target / size >= 128
  {
    DoublingStaysBelow(before, side, target);
    var q := target / size;
    assert target < q * size + size;
    if q < 128 { MulMonotone(q + 1, 128, size); }
  }

  // ----- OpenCL buffers

  function Rounded(n: nat): (r: nat)
    ensures r % PAGE == 0 && r <= n < r + PAGE
  {
    n / PAGE * PAGE
  }

  function RoundedUp(n: nat): (r: nat)
    ensures r % PAGE == 0 && n <= r < n + PAGE
  {
    (n + (PAGE - 1)) / PAGE * PAGE
  }

  function ObjectBudget(discrete: bool, safe: bool): int
  {
    if safe && discrete then 2048 else if safe then 1024 else 4096
  }

  function ChunkCap(discrete: bool, safe: bool): int
  {
    if discrete then (if safe then 128 else 512) * MIB else (if safe then 64 else 128) * MIB
  }

  /** opencl_buffer_count. */
  function OpenClBufferCount(target: nat, chunk: int, discrete: bool, safe: bool): int
  {
    var unit := Max(PAGE, chunk);
    var count := Max(32, (target + unit - 1) / unit + 8);
    if safe && discrete then Min(2048, Max(512, count))
    else if safe then Min(1024, Max(128, count))
    else Min(4096, count)
  }

  /** The chunk before it is grown to meet the object budget. */
  function InitialChunk(target: nat, maxAlloc: int, discrete: bool, safe: bool): int
  {
    var known := if maxAlloc != 0 then maxAlloc else target;
    var chunk := Min(known, Min(ChunkCap(discrete, safe), target));
    var paged := if chunk >= 0 then Rounded(chunk) else chunk - chunk % PAGE;
    if paged <= 0 then Min(known, Max(PAGE, target)) else paged
  }

  /** Grows a chunk towards the object budget, within a known API maximum. */
  function Grown(chunk: int, target: nat, maxAlloc: int, budget: int): int
    requires budget > 0
  {
    if maxAlloc > 0 && target > chunk * budget then
      Max(chunk, Min(RoundedUp((target + budget - 1) / budget), Min(Rounded(maxAlloc), Rounded(target))))
    else chunk
  }

  function Chunk(target: nat, maxAlloc: int, discrete: bool, safe: bool): int
  {
    Grown(InitialChunk(target, maxAlloc, discrete, safe), target, maxAlloc, ObjectBudget(discrete, safe))
  }

  /** opencl_buffer_geometry; `side` has no meaning for buffers. */
  function OpenClBufferGeometry(targetBytes: int, maxAlloc: int, discrete: bool, safe: bool): Geometry
  {
    var target := Max(0, targetBytes);
    var chunk := Chunk(target, maxAlloc, discrete, safe);
    var count := OpenClBufferCount(target, chunk, discrete, safe);
    CountIsPositive(target, chunk, discrete, safe);
    var planned := if chunk >= PAGE then Rounded(Min(target, Product(chunk, count))) else 0;
    Geometry(target, 0, chunk, count, planned,
             if chunk < PAGE && target != 0 then LimitedByGranularity
             else if target > chunk * count then LimitedByObjectBudget
             else NominallyFeasible)
  }

  /** The product of two counts. */
  function Product(a: int, b: int): (p: int)
    ensures a >= 0 && b >= 0 ==> p >= 0
  {
    a * b
  }

  lemma {:induction false} CountIsPositive(target: nat, chunk: int, discrete: bool, safe: bool)
    ensures 32 <= OpenClBufferCount(target, chunk, discrete, safe) <= ObjectBudget(discrete, safe)
  {
  }

  /** The floor of the buffer count. */
  function CountFloor(discrete: bool, safe: bool): int
  {
    if !safe then 32 else if discrete then 512 else 128
  }

  /** The rounded-up quotient is the least number of objects that reaches the target. */
  lemma {:induction false} CeilingIsLeast(target: nat, unit: nat)
    requires unit >= 1
    ensures var need := (target + unit - 1) / unit;
      Product(need - 1, unit) < target <= Product(need, unit)
  {
    var need := (target + unit - 1) / unit;
    assert need * unit <= target + unit - 1 < need * unit + unit;
    assert Product(need - 1, unit) == need * unit - unit;
  }

  lemma {:induction false} ProductIsMonotone(a: int, b: int, unit: nat)
    requires a <= b
    ensures Product(a, unit) <= Product(b, unit)
  {
    MulMonotone(a, b, unit);
  }

  /** Between its floor and the object budget, the count is eight more than what the target needs. */
  lemma {:induction false} CountIsEightSpare(target: nat, chunk: int, discrete: bool, safe: bool)
    ensures var count, unit := OpenClBufferCount(target, chunk, discrete, safe), Max(4096, chunk);
      && CountFloor(discrete, safe) <= count <= (if !safe then 4096 else if discrete then 2048 else 1024)
      && (CountFloor(discrete, safe) < count ==> Product(count - 9, unit) < target)
      && (count < (if !safe then 4096 else if discrete then 2048 else 1024) ==> target <= Product(count - 8, unit))
  {
    var unit := Max(4096, chunk);
    var need, count := (target + unit - 1) / unit, OpenClBufferCount(target, chunk, discrete, safe);
    CeilingIsLeast(target, unit);
    if CountFloor(discrete, safe) < count { ProductIsMonotone(count - 9, need - 1, unit); }
    if count < (if !safe then 4096 else if discrete then 2048 else 1024) { ProductIsMonotone(need, count - 8, unit); }
  }

  /** Before it is grown, the chunk is as many whole pages as API maximum, cap and target allow. */
  lemma {:induction false} InitialChunkIsLargest(target: nat, maxAlloc: int, discrete: bool, safe: bool)
    ensures maxAlloc < 0 ==> InitialChunk(target, maxAlloc, discrete, safe) == maxAlloc
    ensures maxAlloc >= 0 ==>
      var chunk, known := InitialChunk(target, maxAlloc, discrete, safe), if maxAlloc > 0 then maxAlloc else target;
      var cap := if discrete && safe then 134217728 else if discrete then 536870912
                 else if safe then 67108864 else 134217728;
      if Min(known, Min(cap, target)) >= PAGE
      then chunk % PAGE == 0 && chunk <= Min(known, Min(cap, target)) < chunk + PAGE
      else chunk == Min(known, Max(PAGE, target))
  {
  }

  lemma {:induction false} PageLessMisses(grown: int, target: nat, budget: int)
    requires budget > 0 && grown <= RoundedUp((target + budget - 1) / budget)
    ensures Product(grown - PAGE, budget) < target
  {
    CeilingIsLeast(target, budget);
    ProductIsMonotone(grown - PAGE, (target + budget - 1) / budget - 1, budget);
  }

  /** A chunk grows only as far as the object budget makes necessary. */
  lemma {:induction false} GrowthIsMinimal(chunk: int, target: nat, maxAlloc: int, budget: int)
    requires budget > 0
    ensures Grown(chunk, target, maxAlloc, budget) > chunk ==>
              && maxAlloc > 0 && Product(chunk, budget) < target
              && Product(Grown(chunk, target, maxAlloc, budget) - PAGE, budget) < target
  {
    var grown := Grown(chunk, target, maxAlloc, budget);
    if grown > chunk { PageLessMisses(grown, target, budget); }
  }

  predicate LegalChunk(chunk: int, target: nat, maxAlloc: int)
  {
    && (chunk >= PAGE ==> chunk % PAGE == 0)
    && (maxAlloc > 0 ==> 0 <= chunk <= maxAlloc)
    && (maxAlloc < 0 ==> chunk < 0)
    && (maxAlloc == 0 ==> 0 <= chunk <= target)
    && (maxAlloc >= PAGE ==> chunk >= PAGE)
  }

  lemma {:induction false} InitialChunkIsLegal(target: nat, maxAlloc: int, discrete: bool, safe: bool)
    ensures LegalChunk(InitialChunk(target, maxAlloc, discrete, safe), target, maxAlloc)
  {
  }

  lemma {:induction false} GrowthIsLegal(chunk: int, target: nat, maxAlloc: int, budget: int)
    requires LegalChunk(chunk, target, maxAlloc) && budget > 0
    ensures LegalChunk(Grown(chunk, target, maxAlloc, budget), target, maxAlloc)
    ensures Grown(chunk, target, maxAlloc, budget) >= chunk
  {
  }

  /** Every chunk that can be used is a whole number of pages within the API maximum, if one is known. */
  lemma {:induction false} ChunkIsLegal(target: nat, maxAlloc: int, discrete: bool, safe: bool)
    ensures LegalChunk(Chunk(target, maxAlloc, discrete, safe), target, maxAlloc)
  {
    InitialChunkIsLegal(target, maxAlloc, discrete, safe);
    GrowthIsLegal(InitialChunk(target, maxAlloc, discrete, safe), target, maxAlloc, ObjectBudget(discrete, safe));
  }

  /** The count reaches the target unless the object budget stops it. */
  lemma {:induction false} CountReachesTarget(target: nat, chunk: int, discrete: bool, safe: bool)
    requires chunk >= PAGE
    ensures var count := OpenClBufferCount(target, chunk, discrete, safe);
            count == ObjectBudget(discrete, safe) || target <= chunk * count
  {
    var need := (target + chunk - 1) / chunk;
    assert target + chunk - 1 < need * chunk + chunk;
    var count := OpenClBufferCount(target, chunk, discrete, safe);
    if count != ObjectBudget(discrete, safe) {
      assert need <= count;
      MulMonotone(need, count, chunk);
    }
  }

  /** Planned bytes never exceed the target, are whole pages, and miss it by less than a page unless the
      object budget or the allocation granularity limits the plan. */
  lemma {:induction false} OpenClPlanIsTight(targetBytes: int, maxAlloc: int, discrete: bool, safe: bool)
    ensures var g := OpenClBufferGeometry(targetBytes, maxAlloc, discrete, safe);
            && g.target == (if targetBytes > 0 then targetBytes else 0)
            && g.planned <= g.target && g.planned % PAGE == 0
            && (g.objectBytes >= 0 ==> g.planned <= g.objectBytes * g.count)
            && (g.status.NominallyFeasible? ==> g.target - g.planned < PAGE)
            && (g.status.LimitedByObjectBudget? && g.objectBytes >= 0 ==> g.planned == g.objectBytes * g.count)
            && (g.status.LimitedByGranularity? ==> g.planned == 0)
            && (g.status.LimitedByGranularity? <==> g.objectBytes < 4096 && targetBytes > 0)
            && (g.status.LimitedByObjectBudget? <==> g.target > g.objectBytes * g.count
                                                     && !g.status.LimitedByGranularity?)
            && (g.status.NominallyFeasible? <==> !g.status.LimitedByObjectBudget? && !g.status.LimitedByGranularity?)
  {
    var g := OpenClBufferGeometry(targetBytes, maxAlloc, discrete, safe);
    ChunkIsLegal(g.target, maxAlloc, discrete, safe);
    CountIsPositive(g.target, g.objectBytes, discrete, safe);
    if g.objectBytes >= PAGE {
      PagesOfProduct(g.objectBytes, g.count);
    } else if g.objectBytes >= 0 {
      MulMonotone(0, g.objectBytes, g.count);
    }
  }

  lemma {:induction false} PagesOfProduct(chunk: int, count: int)
    requires chunk % PAGE == 0 && chunk >= 0 && count >= 0
    ensures chunk * count % PAGE == 0 && Rounded(chunk * count) == chunk * count
  {
    var pages := chunk / PAGE;
    assert chunk * count == PAGE * (pages * count);
    assert (PAGE * (pages * count)) % PAGE == 0;
  }

  lemma {:induction false} GrownMisses(grown: int, target: nat, budget: int)
    requires budget >= 2 && grown >= PAGE && grown * budget < target
    ensures grown < RoundedUp((target + budget - 1) / budget) && grown < Rounded(target)
  {
    var required := RoundedUp((target + budget - 1) / budget);
    CeilingReaches(target, budget, required);
    SmallerFactor(grown, required, budget, target);
    TwicePages(grown, budget, target);
  }

  /** If a grown chunk still cannot reach the target within the budget, it is the API maximum. */
  lemma {:induction false} InsufficientGrowth(chunk: int, target: nat, maxAlloc: int, budget: int)
    requires LegalChunk(chunk, target, maxAlloc) && maxAlloc >= PAGE && budget >= 2
    requires target > Grown(chunk, target, maxAlloc, budget) * budget
    ensures Grown(chunk, target, maxAlloc, budget) == Rounded(maxAlloc)
  {
    var grown := Grown(chunk, target, maxAlloc, budget);
    assert grown >= chunk;
    MulMonotone(chunk, grown, budget);
    GrownMisses(grown, target, budget);
    PagesBelow(chunk, maxAlloc);
    BoundThatBinds(chunk, RoundedUp((target + budget - 1) / budget), Rounded(maxAlloc), Rounded(target));
  }

  lemma {:induction false} BoundThatBinds(chunk: int, required: int, api: int, target: int)
    requires chunk <= api
    requires Max(chunk, Min(required, Min(api, target))) < required
    requires Max(chunk, Min(required, Min(api, target))) < target
    ensures Max(chunk, Min(required, Min(api, target))) == api
  {
  }

  lemma {:induction false} SmallerFactor(a: int, b: int, c: int, n: int)
    requires a * c < n <= b * c && c > 0
    ensures a < b
  {
    if b <= a { MulMonotone(b, a, c); }
  }

  /** Two usable chunks exceed the rounded target by so much that they cover the target. */
  lemma {:induction false} TwicePages(chunk: int, budget: int, target: nat)
    requires chunk >= PAGE && budget >= 2 && chunk * budget < target
    ensures chunk < Rounded(target)
  {
    MulMonotone(2, budget, chunk);
  }

  /** With a known API maximum, the plan is limited by the object budget exactly when the maximum is at least a
      page and even chunks of that size could not reach the target; then the chunks are that large. */
  lemma {:induction false} BudgetLimitMeansLargestChunk(targetBytes: int, maxAlloc: int, discrete: bool, safe: bool)
    requires maxAlloc > 0
    ensures var g, budget := OpenClBufferGeometry(targetBytes, maxAlloc, discrete, safe), ObjectBudget(discrete, safe);
            && (g.status.LimitedByObjectBudget? <==> maxAlloc >= PAGE && g.target > Product(Rounded(maxAlloc), budget))
            && (g.status.LimitedByObjectBudget? ==> g.objectBytes == Rounded(maxAlloc) && g.count == budget)
  {
    var target, budget := Max(0, targetBytes), ObjectBudget(discrete, safe);
    var chunk := Chunk(target, maxAlloc, discrete, safe);
    var count := OpenClBufferCount(target, chunk, discrete, safe);
    ChunkIsLegal(target, maxAlloc, discrete, safe);
    CountIsPositive(target, chunk, discrete, safe);
    if maxAlloc >= PAGE {
      InitialChunkIsLegal(target, maxAlloc, discrete, safe);
      CountReachesTarget(target, chunk, discrete, safe);
      LargestChunkIffBudgetTooSmall(target, maxAlloc, chunk, count, budget,
                                    InitialChunk(target, maxAlloc, discrete, safe));
    } else {
      MulMonotone(0, chunk, count);
    }
  }

  lemma {:induction false} LargestChunkIffBudgetTooSmall(target: nat, maxAlloc: int, chunk: int, count: int,
                                                         budget: int, initial: int)
    requires maxAlloc >= PAGE && budget >= 2 && 0 <= count <= budget
    requires LegalChunk(initial, target, maxAlloc) && LegalChunk(chunk, target, maxAlloc)
    requires chunk == Grown(initial, target, maxAlloc, budget) && (count == budget || target <= chunk * count)
    ensures target > chunk * count <==> target > Product(Rounded(maxAlloc), budget)
    ensures target > chunk * count ==> chunk == Rounded(maxAlloc) && count == budget
  {
    if target > chunk * count {
      MulMonotone(0, chunk, count);
      InsufficientGrowth(initial, target, maxAlloc, budget);
    } else {
      PagesBelow(chunk, maxAlloc);
      MulMonotone(count, budget, chunk);
      MulMonotone(chunk, Rounded(maxAlloc), budget);
    }
  }

  lemma {:induction false} PagesBelow(chunk: int, n: nat)
    requires chunk <= n && chunk % PAGE == 0
    ensures chunk <= Rounded(n)
  {
  }

  lemma {:induction false} CeilingReaches(target: nat, budget: int, required: int)
    requires budget > 0 && required >= (target + budget - 1) / budget
    ensures required * budget >= target
  {
    var q := (target + budget - 1) / budget;
    assert target + budget - 1 < q * budget + budget;
    MulMonotone(q, required, budget);
  }
}
