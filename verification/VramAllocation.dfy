/**
 The VRAM allocation loop of the generated EGL worker (Modules/lvs_egl_gles_worker.py): textures, memory
 claims and geometry backoff. GL calls appear as their outcome only, which may be anything.
 */
module VramAllocation {
  import opened Options
  import opened PyNumbers
  import opened GpuGeometry

  datatype Backend = EglGles | OpenCl | VulkanCompute | VulkanTransfer | OtherBackend

  /** gpu_assignment_minimum_bytes. */
  function AssignmentMinimum(backend: Backend, vram: bool): nat
  {
    if vram && (backend.EglGles? || backend.OpenCl?) then 64 * MIB
    else if backend.VulkanCompute? then 8 * MIB
    else if backend.VulkanTransfer? then 16 * MIB
    else 0
  }

  /** validate_gpu_assignment; None stands for the raised ValueError. */
  function ValidateAssignment(backend: Backend, vram: bool, target: int): (r: Option<nat>)
    ensures r.Some? <==> target >= AssignmentMinimum(backend, vram)
    ensures vram && (backend.EglGles? || backend.OpenCl?) ==> (r.Some? <==> target >= 67108864)
    ensures backend.VulkanCompute? ==> (r.Some? <==> target >= 8388608)
    ensures backend.VulkanTransfer? ==> (r.Some? <==> target >= 16777216)
    ensures backend.OtherBackend? || (!vram && (backend.EglGles? || backend.OpenCl?)) ==> (r.Some? <==> target >= 0)
    ensures r.Some? ==> r.value == target
  {
    if target < AssignmentMinimum(backend, vram) then None else Some(target)
  }

  /** Per-process accounting of claimed system memory (Modules/lvs_runtime_memory_guard.py). */
  class RuntimeMemoryClaims {
    var outstanding: nat
    var cleanupFailed: bool  // the source keeps the message
    ghost var peak: nat  // the most that was ever outstanding

    constructor ()
      ensures outstanding == peak == 0 && !cleanupFailed
    {
      outstanding, peak, cleanupFailed := 0, 0, false;
    }

    /** `allowed` is the answer of the shared memory guard. */
    method Claim(amount: nat, shared: bool, allowed: bool)
      modifies this`outstanding, this`peak
      ensures outstanding == old(outstanding) + (if allowed && shared then amount else 0)
      ensures peak == Max(old(peak), outstanding)
    {
      if allowed && shared { outstanding := outstanding + amount; }
      peak := Max(peak, outstanding);
    }

    method Release(amount: nat, shared: bool)
      modifies this`outstanding
      ensures outstanding == old(outstanding) - (if shared then Min(old(outstanding), amount) else 0)
    {
      if shared { outstanding := outstanding - Min(outstanding, amount); }
    }

    /** The final release; `raises` says whether the shared guard raises. What could not be released stays charged. */
    method Close(raises: bool)
      modifies this`outstanding, this`cleanupFailed
      ensures cleanupFailed == (old(cleanupFailed) || (raises && old(outstanding) > 0))
      ensures outstanding == if raises then old(outstanding) else 0
    {
      if raises && outstanding > 0 {
        cleanupFailed := true;
      } else {
        Release(outstanding, true);
      }
    }
  }

  /** desired_texture_count for a load fraction: the nearest count to the load's share, within 1 and all of them. */
  function Desired(count: nat, load: real): (d: nat)
    ensures d >= 1
    ensures count >= 1 ==> d <= count
    ensures d as real <= Share(count, load) + 0.5 || d == 1
    ensures d as real >= Share(count, load) - 0.5 || d >= count
  {
    Max(1, Min(count, Round(Share(count, load))))
  }

  function Share(count: nat, load: real): real { count as real * load }

  lemma {:induction false} FullLoadWantsAll(count: nat)
    requires count >= 1
    ensures Desired(count, 1.0) == count
  {
    assert Share(count, 1.0) == count as real;
  }

  lemma {:induction false} DesiredFollowsLoad(count: nat, low: real, high: real)
    requires low <= high
    ensures Desired(count, low) <= Desired(count, high)
  {
    ScaleIsMonotone(low, high, count as real);
    RoundIsMonotone(Share(count, low), Share(count, high));
  }

  /** As many textures of a size as the target and the object budget afford. */
  function Affordable(target: nat, size: nat): int
    requires size > 0
  {
    Min(EGL_TEXTURE_OBJECT_BUDGET, target / size)
  }

  /** What n textures of a size take together. */
  function Bytes(n: nat, size: nat): nat
  {
    if n == 0 then 0 else Bytes(n - 1, size) + size
  }

  lemma {:induction false} BytesIsProduct(n: nat, size: nat)
    ensures Bytes(n, size) == n * size
  {
    if n > 0 { BytesIsProduct(n - 1, size); }
  }

  lemma {:induction false} FewerBytes(m: nat, n: nat, size: nat)
    requires m <= n
    ensures Bytes(m, size) <= Bytes(n, size)
  {
    if m < n { FewerBytes(m, n - 1, size); }
  }

  /** What the live textures of the given sides take together. */
  function Held(sides: seq<nat>): nat
  {
    if sides == [] then 0 else Held(sides[..|sides| - 1]) + TextureBytes(sides[|sides| - 1])
  }

  lemma {:induction false} HeldIsBytes(sides: seq<nat>, side: nat)
    requires forall k :: 0 <= k < |sides| ==> sides[k] == side
    ensures Held(sides) == Bytes(|sides|, TextureBytes(side))
  {
    if sides != [] { HeldIsBytes(sides[..|sides| - 1], side); }
  }

  /** What becomes of one attempt: the guard denies it, GL refuses it, or the texture is there. */
  datatype Attempt = Denied | GlFails | Allocated

  /** Why the growth of a frame ends: enough textures live, the guard denies one, GL refuses one at the smallest
      side or beside live ones, or the worker is told to stop. */
  datatype Ending = Reached | GuardDenied | GlExhausted | Stopped

  /** The history with one more side, cut to its last 32. */
  function Remember(history: seq<nat>, side: nat): (r: seq<nat>)
    ensures |r| == Min(32, |history| + 1) && r[|r| - 1] == side
    ensures forall k :: 0 <= k < |r| - 1 ==> r[k] == history[|history| + 1 - |r| + k]
  {
    var all := history + [side];
    if |all| > 32 then all[|all| - 32..] else all
  }

  /** How many of the first n attempts leave a texture. */
  function Successes(attempts: seq<Attempt>, n: nat): nat
    requires n <= |attempts|
  {
    if n == 0 then 0 else Successes(attempts, n - 1) + if attempts[n - 1].Allocated? then 1 else 0
  }

  /** Whether the growth goes on after an attempt. */
  function AfterAttempt(attempt: Attempt, exhausted: bool): Ending
  {
    match attempt
    case Denied => GuardDenied
    case GlFails => if exhausted then GlExhausted else Reached
    case Allocated => Reached
  }

  /** The geometry of an accepted target, as the worker uses it. */
  method PlannedTextures(target: nat, sideHint: int, maxTextureSize: int) returns (side: nat, size: nat, count: nat)
    requires target >= 4 && maxTextureSize > 0
    ensures EglStart(target, sideHint, maxTextureSize) <= side <= maxTextureSize
    ensures 0 < size == TextureBytes(side) && count == Affordable(target, size) >= 1 && Bytes(count, size) <= target
  {
    var g := EglTextureGeometry(target, sideHint, maxTextureSize);
    BytesIsProduct(g.count, g.objectBytes);
    MulMonotone(1, g.side, g.side);
    side, size, count := g.side, g.objectBytes, g.count;
  }

  class VramWorker {
    const shared: bool   // device memory counts against the system guard
    const target: nat
    const claims: RuntimeMemoryClaims
    var textures: seq<nat>  // the side of each live texture
    var texSide: nat
    var bytesPerTexture: nat
    var targetTextureCount: nat
    var allocatedBytes: nat
    var failures: nat
    var backoffs: seq<nat>  // the sides of the latest failed attempts
    var growthStopped: bool
    var exhausted: bool

    ghost predicate Valid()
      reads this, claims
    {
      && texSide >= 1 && 0 < bytesPerTexture == TextureBytes(texSide)
      && targetTextureCount == Affordable(target, bytesPerTexture) >= 1
      && Bytes(targetTextureCount, bytesPerTexture) <= target
      && |textures| <= targetTextureCount
      && (forall k :: 0 <= k < |textures| ==> textures[k] == texSide)
      && allocatedBytes == Bytes(|textures|, bytesPerTexture)
      && claims.outstanding == (if shared then Bytes(|textures|, bytesPerTexture) else 0)
      && claims.peak <= target
      && |backoffs| <= 32
    }

    /** What is accounted for is what the live textures take, and within the target. */
    lemma {:induction false} HeldIsAccounted()
      requires Valid()
      ensures allocatedBytes == Held(textures) <= target
      ensures claims.outstanding == if shared then Held(textures) else 0
    {
      HeldIsBytes(textures, texSide);
      FewerBytes(|textures|, targetTextureCount, bytesPerTexture);
    }

    /** The set-up of the VRAM mode, after validate_gpu_assignment has accepted the target. */
    constructor (target: nat, sideHint: int, maxTextureSize: int, shared: bool)
      requires ValidateAssignment(EglGles, true, target).Some? && maxTextureSize > 0
      ensures Valid() && fresh(claims) && this.target == target && this.shared == shared
      ensures textures == [] && texSide <= maxTextureSize
      ensures texSide >= EglStart(target, sideHint, maxTextureSize)
      ensures failures == 0 && backoffs == [] && !growthStopped && !exhausted
    {
      this.target, this.shared := target, shared;
      claims := new RuntimeMemoryClaims();
      var side, size, count := PlannedTextures(target, sideHint, maxTextureSize);
      textures, texSide, bytesPerTexture, targetTextureCount := [], side, size, count;
      allocatedBytes, failures, backoffs, growthStopped, exhausted := 0, 0, [], false, false;
    }

    /** A failed attempt, its claim already released: halve the side if nothing is allocated yet. */
    method BackOff()
      requires Valid()
      modifies this
      ensures Valid() && textures == old(textures) && growthStopped == old(growthStopped)
      ensures if old(textures) == [] && old(texSide) > 256
              then texSide == Max(256, old(texSide) / 2) && exhausted == old(exhausted)
              else texSide == old(texSide) && targetTextureCount == old(targetTextureCount) && exhausted
      ensures failures == old(failures) + 1
      ensures backoffs == Remember(old(backoffs), old(texSide))
    {
      failures := failures + 1;
      backoffs := Remember(backoffs, texSide);
      if textures == [] && texSide > 256 {
        var half := Max(256, texSide / 2);
        FewerBytes(1, targetTextureCount, bytesPerTexture);
        SmallerTextures(half, texSide, target);
        texSide := half;
        bytesPerTexture := texSide * texSide * 4;
        targetTextureCount := Min(EGL_TEXTURE_OBJECT_BUDGET, target / bytesPerTexture);
        CountFacts(target, bytesPerTexture, targetTextureCount);
        BytesIsProduct(targetTextureCount, bytesPerTexture);
      } else {
        exhausted := true;
      }
    }

    /** One pass of the inner loop: claim, allocate, and on failure release and perhaps fall back to half the side. */
    method AllocateOne(attempt: Attempt)
      requires Valid() && |textures| < targetTextureCount
      modifies this, claims
      ensures Valid()
      ensures attempt.Denied? ==>
                && growthStopped && textures == old(textures) && texSide == old(texSide)
                && targetTextureCount == old(targetTextureCount) && exhausted == old(exhausted)
      ensures attempt.Allocated? ==>
                && textures == old(textures) + [texSide] && texSide == old(texSide)
                && targetTextureCount == old(targetTextureCount) && growthStopped == old(growthStopped)
                && exhausted == old(exhausted)
      ensures attempt.GlFails? ==>
                && textures == old(textures) && claims.outstanding == old(claims.outstanding)
                && growthStopped == old(growthStopped)
                && if old(textures) == [] && old(texSide) > 256
                   then texSide == Max(256, old(texSide) / 2) && exhausted == old(exhausted)
                   else texSide == old(texSide) && targetTextureCount == old(targetTextureCount) && exhausted
    {
      FewerBytes(|textures| + 1, targetTextureCount, bytesPerTexture);
      claims.Claim(bytesPerTexture, shared, !attempt.Denied?);
      match attempt {
        case Denied =>
          growthStopped := true;
        case GlFails =>
          claims.Release(bytesPerTexture, shared);
          BackOff();
        case Allocated =>
          textures := textures + [texSide];
          BytesIsProduct(|textures|, bytesPerTexture);
          allocatedBytes := |textures| * bytesPerTexture;
      }
    }

    /** One attempt of a frame, while fewer textures live than the load wants. */
    method GrowOnce(load: real, attempt: Attempt) returns (ending: Ending)
      requires Valid() && |textures| < Desired(targetTextureCount, load)
      modifies this, claims
      ensures Valid() && old(textures) <= textures && texSide <= old(texSide)
      ensures |textures| == |old(textures)| + if attempt.Allocated? then 1 else 0
      ensures old(textures) != [] ==> texSide == old(texSide) && targetTextureCount == old(targetTextureCount)
      ensures |textures| <= Max(|old(textures)|, Desired(targetTextureCount, load))
      ensures growthStopped == (old(growthStopped) || attempt.Denied?)
      ensures ending.Reached? || attempt.Allocated? ==> exhausted == old(exhausted)
      ensures match attempt
              case Denied => ending.GuardDenied? && exhausted == old(exhausted)
              case GlFails => if exhausted then ending.GlExhausted? else ending.Reached? && old(textures) == []
              case Allocated => ending.Reached?
    {
      AllocateOne(attempt);
      ending := AfterAttempt(attempt, exhausted);
    }

    /** The growth of one frame, for as many attempts as there are before a signal stops the worker; `used` of them
        are made. */
    method GrowTextures(load: real, attempts: seq<Attempt>) returns (ending: Ending, used: nat)
      requires Valid()
      modifies this, claims
      ensures Valid() && used <= |attempts|
      ensures old(textures) <= textures && texSide <= old(texSide)
      ensures |textures| == |old(textures)| + Successes(attempts, used)
      ensures old(textures) != [] ==> texSide == old(texSide) && targetTextureCount == old(targetTextureCount)
      ensures allocatedBytes == Held(textures) <= target
      ensures claims.outstanding == if shared then Held(textures) else 0
      ensures |textures| <= Max(|old(textures)|, Desired(targetTextureCount, load))
      ensures ending.Reached? ==> |textures| == Max(|old(textures)|, Desired(targetTextureCount, load))
      ensures ending.GuardDenied? ==> growthStopped && used > 0 && attempts[used - 1].Denied?
      ensures ending.GlExhausted? ==> exhausted && used > 0 && attempts[used - 1].GlFails?
      ensures !ending.GuardDenied? ==> growthStopped == old(growthStopped)
      ensures !ending.GlExhausted? ==> exhausted == old(exhausted)
      ensures forall k :: 0 <= k < used - 1 ==> !attempts[k].Denied? && (old(textures) == [] || attempts[k].Allocated?)
      ensures ending.Stopped? ==> used == |attempts|
    {
      var desired := Desired(targetTextureCount, load);
      ending, used := Reached, 0;
      while ending.Reached? && |textures| < desired
        invariant Valid() && used <= |attempts| && |textures| == |old(textures)| + Successes(attempts, used)
        invariant desired == Desired(targetTextureCount, load) <= targetTextureCount
        invariant old(textures) <= textures && texSide <= old(texSide)
        invariant old(textures) != [] ==> texSide == old(texSide) && targetTextureCount == old(targetTextureCount)
        invariant |textures| <= Max(|old(textures)|, desired)
        invariant forall k :: 0 <= k < (if ending.Reached? then used else used - 1) ==>
                    !attempts[k].Denied? && (old(textures) == [] || attempts[k].Allocated?)
        invariant !ending.GuardDenied? ==> growthStopped == old(growthStopped)
        invariant !ending.GlExhausted? ==> exhausted == old(exhausted)
        invariant match ending
                  case Reached => true
                  case GuardDenied => growthStopped && used > 0 && attempts[used - 1].Denied?
                  case GlExhausted => exhausted && used > 0 && attempts[used - 1].GlFails?
                  case Stopped => used == |attempts|
        decreases |attempts| - used, ending.Reached?
      {
        if used == |attempts| {
          ending := Stopped;
        } else {
          ending := GrowOnce(load, attempts[used]);
          used := used + 1;
          desired := Desired(targetTextureCount, load);
        }
      }
      HeldIsAccounted();
    }

    /** Any number of frames at any loads; `endings` tells how the growth of each frame ended. */
    method RunFrames(loads: seq<real>, attempts: seq<seq<Attempt>>) returns (endings: seq<Ending>)
      requires Valid() && |attempts| == |loads|
      modifies this, claims
      ensures Valid() && old(textures) <= textures && texSide <= old(texSide)
      ensures |endings| <= |loads| && (|endings| < |loads| ==> endings != [] && endings[|endings| - 1].Stopped?)
      ensures |textures| <= 512 && allocatedBytes == Held(textures) <= target && claims.peak <= target
      ensures forall k :: 0 <= k < |endings| && endings[k].Reached? && loads[k] >= 1.0 ==>
                |textures| == targetTextureCount
    {
      endings := [];
      while |endings| < |loads| && !(endings != [] && endings[|endings| - 1].Stopped?)
        invariant Valid() && old(textures) <= textures && texSide <= old(texSide) && |endings| <= |loads|
        invariant forall k :: 0 <= k < |endings| && endings[k].Reached? && loads[k] >= 1.0 ==>
                    |textures| == targetTextureCount
        decreases |loads| - |endings|
      {
        var load := loads[|endings|];
        var ending, used := GrowTextures(load, attempts[|endings|]);
        if load >= 1.0 {
          FullLoadWantsAll(targetTextureCount);
          DesiredFollowsLoad(targetTextureCount, 1.0, load);
        }
        endings := endings + [ending];
      }
      HeldIsAccounted();
    }

    /** The final cleanup gives back what is outstanding, or leaves exactly the live textures charged. */
    method Close(raises: bool)
      requires Valid()
      modifies claims
      ensures claims.outstanding == if raises && shared then Held(textures) else 0
    {
      HeldIsAccounted();
      claims.Close(raises);
    }
  }

  lemma {:induction false} SmallerTextures(half: nat, side: nat, target: nat)
    requires 256 <= half <= side && TextureBytes(side) <= target
    ensures 4 <= half * half * 4 <= target && half * half * 4 == TextureBytes(half)
  {
    MulMonotone(half, side, half);
    MulMonotone(half, side, side);
    MulMonotone(1, half, half);
  }

  lemma {:induction false} RequestFits(desired: nat, count: nat, size: nat, target: nat)
    requires 1 <= desired && size >= 4 && count * size <= target && (target >= 4 <==> count >= 1)
    requires count >= 1 ==> desired <= count
    ensures desired * size <= target <==> target >= 4
  {
    if count >= 1 { MulMonotone(desired, count, size); } else { MulMonotone(1, desired, size); }
  }

  /** The 64 MiB floor is more than enough, but some floor is needed: the loop asks for at least one
      texture, and the planned geometry has room for one exactly when the target is at least four bytes. */
  method FirstTextureFitsIff(target: nat, sideHint: int, maxTextureSize: int, load: real) returns (fits: bool)
    ensures fits <==> target >= 4
  {
    var g := EglTextureGeometry(target, sideHint, maxTextureSize);
    var desired := Desired(g.count, load);
    fits := desired * g.objectBytes <= target;
    MulMonotone(1, g.side, g.side);
    RequestFits(desired, g.count, g.objectBytes, target);
  }
}
