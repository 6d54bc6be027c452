/**
 The process supervisor that Modules/lvs_external_gpu_supervisor.py generates: children are launched up to a
 target that grows while the load ramps up, and are counted as failures when they exit early.
 */
module GpuSupervisor {
  import opened PyNumbers

  // ----- settings and ramp

  datatype Settings = Settings(compatibility: bool, target: nat, ramp: real, start: real)

  /** The settings as they are built into the script. */
  function BuildSettings(compatibility: bool, targetProcessCount: int, rampStepSeconds: real,
                         startLoadFraction: real): (s: Settings)
    ensures Legal(s) && s.compatibility == compatibility
    ensures s.target == (if targetProcessCount >= 1 then targetProcessCount else 1)
    ensures s.ramp == (if rampStepSeconds >= 0.0 then rampStepSeconds else 0.0)
    ensures 0.15 <= startLoadFraction <= 1.0 ==> s.start == startLoadFraction
    ensures startLoadFraction < 0.15 ==> s.start == 0.15
    ensures startLoadFraction > 1.0 ==> s.start == 1.0
  {
    Settings(compatibility, Max(1, targetProcessCount), MaxReal(0.0, rampStepSeconds),
             MaxReal(0.15, MinReal(1.0, startLoadFraction)))
  }

  predicate Legal(s: Settings)
  {
    s.target >= 1 && s.ramp >= 0.0 && 0.15 <= s.start <= 1.0
  }

  function MaxReal(a: real, b: real): real { if b > a then b else a }

  function MinReal(a: real, b: real): real { if b < a then b else a }

  function MaxChildFailures(s: Settings): nat { if s.compatibility then 1 else 3 }

  /** The fraction of the ramp that has passed. */
  function Progress(s: Settings, passed: real): real
    requires Legal(s)
  {
    MinReal(1.0, MaxReal(0.0, passed) / MaxReal(0.001, s.ramp * 3.0))
  }

  function Blend(start: real, progress: real): real { start + (1.0 - start) * progress }

  function LoadFraction(s: Settings, passed: real): real
    requires Legal(s)
  {
    if s.ramp <= 0.0 then 1.0 else MinReal(1.0, Blend(s.start, Progress(s, passed)))
  }

  function Scaled(target: nat, fraction: real): real { target as real * fraction }

  function DesiredProcessCount(s: Settings, passed: real): int
    requires Legal(s)
  {
    Max(1, Min(s.target, Round(Scaled(s.target, LoadFraction(s, passed)))))
  }

  lemma {:induction false} BlendIsMonotone(start: real, early: real, late: real)
    requires early <= late && start <= 1.0
    ensures Blend(start, early) <= Blend(start, late)
  {
    ScaleIsMonotone(early, late, 1.0 - start);
  }

  lemma {:induction false} ScaledIsMonotone(target: nat, early: real, late: real)
    requires early <= late
    ensures Scaled(target, early) <= Scaled(target, late)
  {
    ScaleIsMonotone(early, late, target as real);
  }

  lemma {:induction false} FractionIsMonotone(s: Settings, early: real, late: real)
    requires Legal(s) && early <= late
    ensures LoadFraction(s, early) <= LoadFraction(s, late)
  {
    DivisionIsMonotone(MaxReal(0.0, early), MaxReal(0.0, late), MaxReal(0.001, s.ramp * 3.0));
    BlendIsMonotone(s.start, Progress(s, early), Progress(s, late));
  }

  /** The desired number of processes never falls as time passes. */
  lemma {:induction false} DesiredIsMonotone(s: Settings, early: real, late: real)
    requires Legal(s) && early <= late
    ensures 1 <= DesiredProcessCount(s, early) <= DesiredProcessCount(s, late) <= s.target
  {
    FractionIsMonotone(s, early, late);
    ScaledIsMonotone(s.target, LoadFraction(s, early), LoadFraction(s, late));
    RoundIsMonotone(Scaled(s.target, LoadFraction(s, early)), Scaled(s.target, LoadFraction(s, late)));
  }

  lemma {:induction false} QuotientAtLeastOne(a: real, b: real)
    requires a >= b > 0.0
    ensures a / b >= 1.0
  {
    DivisionIsMonotone(b, a, b);
    assert b / b == 1.0;
  }

  lemma {:induction false} RoundOfInteger(n: int)
    ensures Round(n as real) == n
  {
  }

  /** After three ramp steps the full target is wanted. */
  lemma {:induction false} FullTargetAfterRamp(s: Settings, passed: real)
    requires Legal(s) && passed >= MaxReal(0.001, s.ramp * 3.0)
    ensures DesiredProcessCount(s, passed) == s.target
  {
    QuotientAtLeastOne(passed, MaxReal(0.001, s.ramp * 3.0));
    assert Progress(s, passed) == 1.0;
    assert LoadFraction(s, passed) == 1.0;
    assert Scaled(s.target, 1.0) == s.target as real;
    RoundOfInteger(s.target);
  }

  /** The ramp lasts three steps, and at least a millisecond. */
  function RampLength(s: Settings): real { if 3.0 * s.ramp < 0.001 then 0.001 else 3.0 * s.ramp }

  lemma {:induction false} BlendScaled(start: real, progress: real, length: real)
    ensures Blend(start, progress) * length == start * length + (1.0 - start) * (progress * length)
  {
  }

  lemma {:induction false} BlendInside(s: Settings, passed: real)
    requires Legal(s) && s.ramp > 0.0 && 0.0 <= passed <= RampLength(s)
    ensures Progress(s, passed) * RampLength(s) == passed
    ensures LoadFraction(s, passed) == Blend(s.start, Progress(s, passed))
  {
    var length := RampLength(s);
    assert MaxReal(0.001, s.ramp * 3.0) == length;
    DivisionUndone(passed, length);
    DivisionIsMonotone(passed, length, length);
    DivisionUndone(length, length);
    BlendIsMonotone(s.start, passed / length, 1.0);
  }

  /** The load runs on a straight line from the start fraction to one; without a ramp it is one at once. */
  lemma {:induction false} RampIsLinear(s: Settings, passed: real)
    requires Legal(s)
    ensures s.ramp == 0.0 || passed >= RampLength(s) ==> LoadFraction(s, passed) == 1.0
    ensures s.ramp > 0.0 && passed <= 0.0 ==> LoadFraction(s, passed) == s.start
    ensures s.ramp > 0.0 && 0.0 <= passed <= RampLength(s) ==>
              LoadFraction(s, passed) * RampLength(s) == s.start * RampLength(s) + (1.0 - s.start) * passed
  {
    var length := RampLength(s);
    assert MaxReal(0.001, s.ramp * 3.0) == length;
    if s.ramp > 0.0 {
      if passed >= length {
        QuotientAtLeastOne(passed, length);
      } else if passed <= 0.0 {
        assert 0.0 / length == 0.0;
      }
      if 0.0 <= passed <= length {
        BlendInside(s, passed);
        BlendScaled(s.start, Progress(s, passed), length);
      }
    }
  }

  /** The number of processes follows the load: the nearest integer, the even one of two, but never none. */
  lemma {:induction false} DesiredFollowsLoad(s: Settings, passed: real)
    requires Legal(s)
    ensures var share, desired := s.target as real * LoadFraction(s, passed), DesiredProcessCount(s, passed);
      && 1 <= desired <= s.target && share <= desired as real + 0.5
      && (desired as real - 0.5 <= share || desired == 1)
      && (share == desired as real + 0.5 || share == desired as real - 0.5 ==> desired % 2 == 0 || desired == 1)
  {
    DesiredIsMonotone(s, passed, passed);
    ScaledIsMonotone(s.target, LoadFraction(s, passed), 1.0);
    RoundIsMonotone(Scaled(s.target, LoadFraction(s, passed)), s.target as real);
    RoundOfInteger(s.target);
  }

  // ----- counting

  /** The children that have not exited, among the first n. */
  function Alive(children: seq<nat>, exited: set<nat>, n: nat): (alive: seq<nat>)
    requires n <= |children|
    ensures |alive| <= n
  {
    if n == 0 then []
    else Alive(children, exited, n - 1) + if children[n - 1] in exited then [] else [children[n - 1]]
  }

  /** The children are launched processes, each listed once; every other launched process is a failure. */
  predicate Accounted(s: Settings, children: seq<nat>, launched: nat, failures: nat)
  {
    && (forall i :: 0 <= i < |children| ==> children[i] < launched)
    && (forall i, j :: 0 <= i < j < |children| ==> children[i] < children[j])
    && launched == |children| + failures
    && |children| <= s.target
    && launched <= s.target + MaxChildFailures(s) - 1
  }

  lemma {:induction false} AliveIsASublist(children: seq<nat>, exited: set<nat>, n: nat, bound: nat)
    requires n <= |children| && forall i, j :: 0 <= i < j < |children| ==> children[i] < children[j]
    requires forall i :: 0 <= i < n ==> children[i] < bound
    ensures var alive := Alive(children, exited, n);
      && (forall i, j :: 0 <= i < j < |alive| ==> alive[i] < alive[j])
      && (forall i :: 0 <= i < |alive| ==> alive[i] !in exited && alive[i] in children && alive[i] < bound)
      && (forall i :: 0 <= i < n && children[i] !in exited ==> children[i] in alive)
  {
    if n > 0 { AliveIsASublist(children, exited, n - 1, children[n - 1]); }
  }

  lemma {:induction false} ReapKeepsAccount(s: Settings, children: seq<nat>, exited: set<nat>, launched: nat,
                                            failures: nat)
    requires Accounted(s, children, launched, failures)
    ensures var alive := Alive(children, exited, |children|);
      Accounted(s, alive, launched, failures + |children| - |alive|)
  {
    AliveIsASublist(children, exited, |children|, launched);
  }

  lemma {:induction false} LaunchKeepsAccount(s: Settings, children: seq<nat>, launched: nat, failures: nat)
    requires Accounted(s, children, launched, failures) && |children| < s.target && failures < MaxChildFailures(s)
    ensures Accounted(s, children + [launched], launched + 1, failures)
  {
  }

  // ----- the supervisor

  datatype Status = Ok | Warning | Error

  /** What one round of the loop sees: the children whose poll returns a code, and the clock. */
  datatype Observation = Observation(exited: set<nat>, passed: real)

  class Supervisor {
    const settings: Settings
    var children: seq<nat>
    var running: bool
    var launched: nat
    var failures: nat
    var errors: nat
    var status: Status
    var active: nat
    var frames: nat

    ghost predicate Valid()
      reads this
    {
      && Legal(settings)
      && Accounted(settings, children, launched, failures)
      && (running ==> failures < MaxChildFailures(settings) && errors == failures)
      && failures <= errors <= failures + 1
      && status == (if errors == 0 then Ok else if settings.compatibility then Warning else Error)
    }

    constructor (settings: Settings)
      requires Legal(settings)
      ensures Valid() && running && this.settings == settings
      ensures children == [] && launched == failures == errors == active == frames == 0
    {
      this.settings := settings;
      children, running, launched, failures, errors, status, active, frames := [], true, 0, 0, 0, Ok, 0, 0;
    }

    /** A signal may arrive at any time; it takes effect where the flag is read next. */
    method Signal()
      modifies `running
      ensures running ==> old(running)
    {
      if * { running := false; }
    }

    method RecordError()
      modifies `errors, `status
      ensures errors == old(errors) + 1 && status == if settings.compatibility then Warning else Error
    {
      errors := errors + 1;
      status := if settings.compatibility then Warning else Error;
    }

    method ReapChildren(exited: set<nat>)
      requires Valid() && running
      modifies `children, `running, `failures, `errors, `status
      ensures Valid()
      ensures children == Alive(old(children), exited, |old(children)|)
      ensures failures == old(failures) + |old(children)| - |children|
      ensures running == (failures < if settings.compatibility then 1 else 3) && errors == failures
    {
      var active: seq<nat>, k := [], 0;
      while k < |children|
        invariant k <= |children| && children == old(children)
        invariant active == Alive(children, exited, k)
        invariant failures == old(failures) + k - |active| && errors == failures
        invariant running == (failures < MaxChildFailures(settings))
        invariant status == (if errors == 0 then Ok else if settings.compatibility then Warning else Error)
      {
        if children[k] in exited {
          failures := failures + 1;
          RecordError();
          if failures >= MaxChildFailures(settings) { running := false; }
        } else {
          active := active + [children[k]];
        }
        k := k + 1;
      }
      ReapKeepsAccount(settings, children, exited, launched, old(failures));
      children := active;
    }

    /** Popen either starts a process or raises. */
    method SpawnChild() returns (started: bool)
      requires Valid() && running && |children| < settings.target
      modifies `children, `launched
      ensures Valid()
      ensures if started then children == old(children) + [old(launched)] && launched == old(launched) + 1
              else children == old(children) && launched == old(launched)
    {
      started := *;
      if started {
        LaunchKeepsAccount(settings, children, launched, failures);
        children := children + [launched];
        launched := launched + 1;
      }
    }

    /** Launch until enough children run, a launch fails or a signal arrives. */
    method LaunchUpTo(desired: int) returns (ghost failed: bool)
      requires Valid() && desired <= settings.target
      modifies `children, `running, `launched, `errors, `status
      ensures Valid() && failures == old(failures) && old(launched) <= launched
      ensures running ==> old(running) && !failed && |children| == Max(|old(children)|, desired)
      ensures errors == old(errors) + if failed then 1 else 0
      ensures |children| == |old(children)| + launched - old(launched) <= Max(|old(children)|, desired)
      ensures children[..|old(children)|] == old(children)
      ensures forall i :: |old(children)| <= i < |children| ==> children[i] == old(launched) + i - |old(children)|
    {
      var go := true;
      failed := false;
      Signal();
      while running && |children| < desired && go
        invariant Valid() && failures == old(failures) && old(launched) <= launched
        invariant running ==> old(running) && go
        invariant errors == old(errors) + (if failed then 1 else 0) && failed == !go
        invariant |children| == |old(children)| + launched - old(launched) <= Max(|old(children)|, desired)
        invariant children[..|old(children)|] == old(children)
        invariant forall i :: |old(children)| <= i < |children| ==> children[i] == old(launched) + i - |old(children)|
        decreases desired - |children|, go
      {
        var started := SpawnChild();
        failed := !started;
        if !started {
          RecordError();
          running, go := false, false;
        } else {
          Signal();
        }
      }
    }

    /** One round of the main loop. */
    method RunRound(seen: Observation)
      requires Valid() && running
      modifies `children, `running, `launched, `failures, `errors, `status, `active, `frames
      ensures Valid() && old(launched) <= launched && old(failures) <= failures
      ensures var alive := Alive(old(children), seen.exited, |old(children)|);
        && |alive| <= |children| && children[..|alive|] == alive
        && launched - old(launched) == |children| - |alive|
        && (running ==> |children| == Max(|alive|, DesiredProcessCount(settings, seen.passed))
                        && active == |children| && frames == old(frames) + 1)
        && (old(failures) + |old(children)| - |alive| >= (if settings.compatibility then 1 else 3) ==>
              !running && children == alive && active == old(active) && frames == old(frames))
    {
      ReapChildren(seen.exited);
      Signal();
      if running {
        DesiredIsMonotone(settings, seen.passed, seen.passed);
        var _ := LaunchUpTo(DesiredProcessCount(settings, seen.passed));
        active := |children|;
        frames := frames + 1;
      }
    }

    method StopChildren()
      modifies `children
      ensures children == []
    {
      children := [];
    }

    /** The loop, for as long as it is observed, and the shutdown after it. */
    method Supervise(seen: seq<Observation>) returns (ghost peak: nat)
      requires Valid() && running
      modifies `children, `running, `launched, `failures, `errors, `status, `active, `frames
      ensures children == [] && peak <= settings.target
      ensures failures <= launched <= settings.target + if settings.compatibility then 0 else 2
      ensures failures <= errors <= failures + 1
      ensures running ==> failures < if settings.compatibility then 1 else 3
      ensures running ==> errors == failures && frames == old(frames) + |seen|
    {
      var k := 0;
      peak := |children|;
      Signal();
      while running && k < |seen|
        invariant k <= |seen| && Valid() && |children| <= peak <= settings.target
        invariant running ==> frames == old(frames) + k
        decreases |seen| - k
      {
        RunRound(seen[k]);
        peak := Max(peak, |children|);
        k := k + 1;
        Signal();
      }
      StopChildren();
    }
  }
}
