/**
 The maintenance lease of lvs_environment_manager.py: an exclusive file lock that an installer child
 inherits with the descriptor. Managers, their installers and their deaths interleave freely.

 A lock belongs to an open file description, and the kernel drops it when the last process that has
 the description open closes it or dies.
 */
module MaintenanceLease {
  import opened Options

  type Pid = nat
  type Description = nat  // an open file description of the lock file

  /** Where a manager is: not in an operation; lock file opened but not yet locked; in the lease but not
      (or no longer) cleared for work; in the lease after its pending-operation check. */
  datatype Phase = Outside | Opened(file: Description) | Holding(file: Description) | Working(file: Description)
  {
    predicate Inside() { Holding? || Working? }
  }

  /** The status of the durable operation record, as far as the checks look at it. */
  datatype Status = Closed | Running | CleanupUnconfirmed

  datatype State = State(
    managers: map<Pid, Phase>,
    installers: map<Pid, Pid>,                 // live installers and the manager that started each
    openers: map<Description, set<Pid>>,       // who has a description open
    lock: Option<Description>,
    status: Status,
    moves: nat, launches: nat)                 // paths moved and installers started so far

  datatype Step =
    | Start(pid: Pid)                          // a new manager process
    | Open(pid: Pid, file: Description)
    | TryLock(pid: Pid)
    | Check(pid: Pid)                          // check_pending_operation, or the checks of recover_interrupted
    | Move(pid: Pid)
    | Launch(pid: Pid, child: Pid)             // an installer that inherits the descriptor
    | Save(pid: Pid, status: Status)
    | Close(pid: Pid)                          // leaving the operation, normally or by an exception
    | Die(pid: Pid)                            // any process, manager or installer

  predicate IsNew(s: State, pid: Pid)
  {
    pid !in s.managers && pid !in s.installers && forall f :: f in s.openers ==> pid !in s.openers[f]
  }

  predicate Enabled(s: State, step: Step)
  {
    match step
    case Start(p) => IsNew(s, p)
    case Open(p, f) => p in s.managers && s.managers[p].Outside? && f !in s.openers
    case TryLock(p) => p in s.managers && s.managers[p].Opened?
    case Check(p) => p in s.managers && s.managers[p].Holding?
    case Move(p) => p in s.managers && s.managers[p].Working?
    case Launch(p, c) => p in s.managers && s.managers[p].Working? && s.managers[p].file in s.openers && IsNew(s, c)
    case Save(p, _) => p in s.managers && s.managers[p].Working?
    case Close(p) => p in s.managers && s.managers[p].Inside()
    case Die(p) => p in s.managers || p in s.installers
  }

  /** Removes a process from every description and lets the kernel drop an unreferenced lock. */
  function WithoutDescriptor(s: State, pid: Pid): State
  {
    var openers := map f | f in s.openers :: s.openers[f] - {pid};
    s.(openers := openers,
       lock := if s.lock.Some? && s.lock.value in openers && openers[s.lock.value] == {} then None else s.lock)
  }

  function Apply(s: State, step: Step): State
    requires Enabled(s, step)
  {
    match step
    case Start(p) => s.(managers := s.managers[p := Outside])
    case Open(p, f) => s.(managers := s.managers[p := Opened(f)], openers := s.openers[f := {p}])
    case TryLock(p) =>
      if s.lock.None?
      then s.(managers := s.managers[p := Holding(s.managers[p].file)], lock := Some(s.managers[p].file))
      else WithoutDescriptor(s.(managers := s.managers[p := Outside]), p)
    case Check(p) =>
      if s.status.CleanupUnconfirmed? then s else s.(managers := s.managers[p := Working(s.managers[p].file)])
    case Move(p) => s.(moves := s.moves + 1)
    case Launch(p, c) =>
      var f := s.managers[p].file;
      s.(installers := s.installers[c := p], openers := s.openers[f := s.openers[f] + {c}], launches := s.launches + 1)
    case Save(p, status) =>
      s.(status := status,
         managers := if status.CleanupUnconfirmed? then s.managers[p := Holding(s.managers[p].file)] else s.managers)
    case Close(p) => WithoutDescriptor(s.(managers := s.managers[p := Outside]), p)
    case Die(p) => WithoutDescriptor(s.(managers := s.managers - {p}, installers := s.installers - {p}), p)
  }

  const INITIAL := State(map[], map[], map[], None, Closed, 0, 0)

  // ----- the invariant

  predicate SameFile(a: Phase, b: Phase)
  {
    !a.Outside? && !b.Outside? && a.file == b.file
  }

  /** Each manager with a descriptor is the only manager on its description. */
  predicate OwnDescription(s: State)
  {
    && (forall p :: p in s.managers && !s.managers[p].Outside? ==>
          s.managers[p].file in s.openers && p in s.openers[s.managers[p].file])
    && (forall p, q :: p in s.managers && q in s.managers && SameFile(s.managers[p], s.managers[q]) ==> p == q)
  }

  /** Being inside the lease, or being an installer, means holding the locked description open. */
  predicate LeaseHeld(s: State)
  {
    && (forall p :: p in s.managers && s.managers[p].Inside() ==> s.lock == Some(s.managers[p].file))
    && (forall c :: c in s.installers ==> s.lock.Some? && s.lock.value in s.openers && c in s.openers[s.lock.value])
    && (s.lock.Some? ==> s.lock.value in s.openers && s.openers[s.lock.value] != {})
    && (forall p :: p in s.managers && s.managers[p].Opened? ==> s.lock != Some(s.managers[p].file))
  }

  /** All live installers were started by one manager: by the one inside the lease, if there is one. */
  predicate OneTree(s: State)
  {
    && (forall p, c :: p in s.managers && s.managers[p].Inside() && c in s.installers ==> s.installers[c] == p)
    && (forall c, d :: c in s.installers && d in s.installers ==> s.installers[c] == s.installers[d])
    && (forall c :: c in s.installers ==> c !in s.managers)
  }

  /** Nobody is cleared for work once a cleanup is unconfirmed. */
  predicate Latched(s: State)
  {
    s.status.CleanupUnconfirmed? ==> (forall p :: p in s.managers ==> !s.managers[p].Working?)
  }

  /** Whoever has a description open is a manager on that description or an installer. */
  predicate OpenersKnown(s: State)
  {
    forall f, x :: f in s.openers && x in s.openers[f] ==>
      (x in s.managers && !s.managers[x].Outside? && s.managers[x].file == f) || x in s.installers
  }

  predicate Inv(s: State)
  {
    OwnDescription(s) && OpenersKnown(s) && LeaseHeld(s) && OneTree(s) && Latched(s)
  }

  lemma {:induction false} StepKeepsOwnDescription(s: State, step: Step)
    requires Inv(s) && Enabled(s, step)
    ensures OwnDescription(Apply(s, step))
  {
  }

  lemma {:induction false} StepKeepsOpenersKnown(s: State, step: Step)
    requires Inv(s) && Enabled(s, step)
    ensures OpenersKnown(Apply(s, step))
  {
  }

  lemma {:induction false} OthersKeepTheLock(s: State, pid: Pid, other: Pid)
    requires s.lock.Some? && s.lock.value in s.openers && other in s.openers[s.lock.value] && other != pid
    ensures var t := WithoutDescriptor(s, pid); t.lock == s.lock && other in t.openers[s.lock.value]
  {
    assert other in s.openers[s.lock.value] - {pid};
  }

  /** A process that no longer takes part leaves its description, and everybody else keeps the lock. */
  lemma {:induction false} LeavingKeepsLeaseHeld(left: State, pid: Pid)
    requires LeaseHeld(left) && pid !in left.installers && (pid in left.managers ==> left.managers[pid].Outside?)
    requires forall p :: p in left.managers && left.managers[p].Inside() ==>
               left.managers[p].file in left.openers && p in left.openers[left.managers[p].file]
    ensures LeaseHeld(WithoutDescriptor(left, pid))
  {
    forall p | p in left.managers && left.managers[p].Inside()
      ensures WithoutDescriptor(left, pid).lock == Some(left.managers[p].file)
    {
      OthersKeepTheLock(left, pid, p);
    }
    forall c | c in left.installers
      ensures var t := WithoutDescriptor(left, pid);
              t.lock.Some? && t.lock.value in t.openers && c in t.openers[t.lock.value]
    {
      OthersKeepTheLock(left, pid, c);
    }
  }

  /** The state in which the process has given up its part but not yet its description. */
  function GivenUp(s: State, step: Step): State
    requires Enabled(s, step) && (step.TryLock? || step.Close? || step.Die?)
  {
    if step.Die? then s.(managers := s.managers - {step.pid}, installers := s.installers - {step.pid})
    else s.(managers := s.managers[step.pid := Outside])
  }

  predicate Leaves(s: State, step: Step) { (step.TryLock? && s.lock.Some?) || step.Close? || step.Die? }

  lemma {:induction false} LeavingStepKeepsLeaseHeld(s: State, step: Step)
    requires Inv(s) && Enabled(s, step) && Leaves(s, step)
    ensures LeaseHeld(Apply(s, step))
  {
    var left := GivenUp(s, step);
    assert forall p :: p in left.managers && left.managers[p].Inside() ==> s.managers[p] == left.managers[p];
    LeavingKeepsLeaseHeld(left, step.pid);
  }

  lemma {:induction false} StayingStepKeepsLeaseHeld(s: State, step: Step)
    requires Inv(s) && Enabled(s, step) && !Leaves(s, step)
    ensures LeaseHeld(Apply(s, step))
  {
  }

  lemma {:induction false} StepKeepsLeaseHeld(s: State, step: Step)
    requires Inv(s) && Enabled(s, step)
    ensures LeaseHeld(Apply(s, step))
  {
    if Leaves(s, step) { LeavingStepKeepsLeaseHeld(s, step); } else { StayingStepKeepsLeaseHeld(s, step); }
  }

  lemma {:induction false} InsideIsUnique(s: State, p: Pid, q: Pid)
    requires OwnDescription(s) && LeaseHeld(s)
    requires p in s.managers && q in s.managers && s.managers[p].Inside() && s.managers[q].Inside()
    ensures p == q
  {
    assert SameFile(s.managers[p], s.managers[q]);
  }

  lemma {:induction false} StepKeepsOneTree(s: State, step: Step)
    requires Inv(s) && Enabled(s, step)
    ensures OneTree(Apply(s, step))
  {
    if step.Launch? {
      forall q | q in s.managers && s.managers[q].Inside() ensures q == step.pid { InsideIsUnique(s, step.pid, q); }
      assert forall c :: c in s.installers ==> s.installers[c] == step.pid;
    }
  }

  lemma {:induction false} StepKeepsLatch(s: State, step: Step)
    requires Inv(s) && Enabled(s, step)
    ensures Latched(Apply(s, step))
    ensures s.status.CleanupUnconfirmed? ==>
              && Apply(s, step).status.CleanupUnconfirmed?
              && Apply(s, step).moves == s.moves && Apply(s, step).launches == s.launches
  {
    if step.Save? {
      forall q | q in s.managers && s.managers[q].Working? ensures q == step.pid { InsideIsUnique(s, step.pid, q); }
    }
  }

  // ----- runs

  /** All states that a sequence of steps goes through. */
  ghost predicate IsRun(states: seq<State>, steps: seq<Step>)
  {
    && |states| == |steps| + 1 && states[0] == INITIAL
    && forall i :: 0 <= i < |steps| ==> Enabled(states[i], steps[i]) && states[i + 1] == Apply(states[i], steps[i])
  }

  lemma {:induction false} EveryStateIsInv(states: seq<State>, steps: seq<Step>, n: nat)
    requires IsRun(states, steps) && n < |states|
    ensures Inv(states[n])
  {
    if n > 0 {
      EveryStateIsInv(states, steps, n - 1);
      var s, step := states[n - 1], steps[n - 1];
      StepKeepsOwnDescription(s, step);
      StepKeepsLeaseHeld(s, step);
      StepKeepsOpenersKnown(s, step);
      StepKeepsOneTree(s, step);
      StepKeepsLatch(s, step);
    }
  }

  /** A process that takes part in the maintenance of the environment: a manager in the lease or an installer. */
  predicate TakesPart(s: State, pid: Pid)
  {
    (pid in s.managers && s.managers[pid].Inside()) || pid in s.installers
  }

  /** The process tree of a participant, named by its manager, which may be dead by now. */
  function Root(s: State, pid: Pid): Pid
  {
    if pid in s.installers then s.installers[pid] else pid
  }

  /** In every interleaving, all participants belong to one process tree, and only one of them is a manager. */
  lemma {:induction false} OneTreeHoldsTheLease(states: seq<State>, steps: seq<Step>, n: nat, p: Pid, q: Pid)
    requires IsRun(states, steps) && n < |states| && TakesPart(states[n], p) && TakesPart(states[n], q)
    ensures Root(states[n], p) == Root(states[n], q)
    ensures p in states[n].managers && q in states[n].managers ==> p == q
  {
    EveryStateIsInv(states, steps, n);
    var s := states[n];
    if p in s.managers && q in s.managers { assert SameFile(s.managers[p], s.managers[q]); }
  }

  /** The lock never goes stale: it is taken exactly while somebody takes part. */
  lemma {:induction false} LockedIffSomebodyTakesPart(states: seq<State>, steps: seq<Step>, n: nat)
    requires IsRun(states, steps) && n < |states|
    ensures states[n].lock.Some? <==> exists pid :: TakesPart(states[n], pid)
  {
    EveryStateIsInv(states, steps, n);
    var s := states[n];
    if s.lock.Some? {
      var x :| x in s.openers[s.lock.value];
      assert TakesPart(s, x);
    }
  }

  /** An installer that outlives its manager keeps every other manager out of the lease. */
  lemma {:induction false} OrphanKeepsOthersOut(states: seq<State>, steps: seq<Step>, n: nat, orphan: Pid)
    requires IsRun(states, steps) && n < |steps| && orphan in states[n].installers
    requires states[n].installers[orphan] !in states[n].managers
    ensures !steps[n].Move? && !steps[n].Launch? && !steps[n].Save?
    ensures forall p :: p in states[n].managers ==> !states[n].managers[p].Inside()
  {
    EveryStateIsInv(states, steps, n);
    var s := states[n];
    forall p | p in s.managers ensures !s.managers[p].Inside() {
      if s.managers[p].Inside() { OneTreeHoldsTheLease(states, steps, n, p, orphan); }
    }
    assert Enabled(s, steps[n]);
  }

  /** Once the record says that a cleanup is unconfirmed, it keeps saying so, no path is moved and no
      installer is started, whatever managers and installers do. */
  lemma {:induction false} UnconfirmedCleanupIsLatched(states: seq<State>, steps: seq<Step>, n: nat, m: nat)
    requires IsRun(states, steps) && n <= m < |states| && states[n].status.CleanupUnconfirmed?
    ensures states[m].status.CleanupUnconfirmed?
    ensures states[m].moves == states[n].moves && states[m].launches == states[n].launches
  {
    if n < m {
      UnconfirmedCleanupIsLatched(states, steps, n, m - 1);
      EveryStateIsInv(states, steps, m - 1);
      StepKeepsLatch(states[m - 1], steps[m - 1]);
    }
  }

  // ----- what the lease does not prevent

  /** Everybody except one process is left as it was. */
  ghost predicate OthersStay(s: State, t: State, pid: Pid)
  {
    && (forall q :: q != pid ==> (q in s.managers <==> q in t.managers) && (q in s.installers <==> q in t.installers))
    && (forall q :: q != pid && q in s.managers ==> t.managers[q] == s.managers[q])
    && (forall q :: q != pid && q in s.installers ==> t.installers[q] == s.installers[q])
  }

  /** A manager that has opened the lock file enters the lease exactly when nobody takes part; otherwise it is
      outside again and nothing has changed for anybody else. */
  lemma {:induction false} LockGrantedIffFree(states: seq<State>, steps: seq<Step>, n: nat, p: Pid)
    requires IsRun(states, steps) && n < |states| && p in states[n].managers && states[n].managers[p].Opened?
    ensures Enabled(states[n], TryLock(p))
    ensures var t := Apply(states[n], TryLock(p));
      && p in t.managers && OthersStay(states[n], t, p) && t.status == states[n].status
      && (TakesPart(t, p) <==> !exists q :: TakesPart(states[n], q))
      && (!TakesPart(t, p) ==> t.managers[p].Outside? && t.lock == states[n].lock)
  {
    EveryStateIsInv(states, steps, n);
    LockedIffSomebodyTakesPart(states, steps, n);
    var s := states[n];
    assert p !in s.installers;
    if s.lock.Some? {
      var x :| x in s.openers[s.lock.value];
      OthersKeepTheLock(s.(managers := s.managers[p := Outside]), p, x);
    }
  }

  /** A manager in the lease is cleared for work exactly when no cleanup is unconfirmed, and may then move paths, start
      installers that join its tree, and record any status; only an unconfirmed cleanup ends its clearance. */
  lemma {:induction false} ClearedManagerMayWork(states: seq<State>, steps: seq<Step>, n: nat, p: Pid, c: Pid,
                                                 status: Status)
    requires IsRun(states, steps) && n < |states| && p in states[n].managers
    requires c !in states[n].managers && c !in states[n].installers
    ensures var s := states[n];
      && (s.managers[p].Holding? ==>
            Enabled(s, Check(p)) && (Apply(s, Check(p)).managers[p].Working? <==> !s.status.CleanupUnconfirmed?))
      && (s.managers[p].Working? ==>
            && Enabled(s, Move(p)) && Apply(s, Move(p)) == s.(moves := s.moves + 1)
            && Enabled(s, Save(p, status)) && Apply(s, Save(p, status)).status == status
            && (Apply(s, Save(p, status)).managers[p].Working? <==> !status.CleanupUnconfirmed?)
            && Enabled(s, Launch(p, c)) && TakesPart(Apply(s, Launch(p, c)), c)
            && Root(Apply(s, Launch(p, c)), c) == p && Apply(s, Launch(p, c)).launches == s.launches + 1)
  {
    EveryStateIsInv(states, steps, n);
  }

  /** Any process may die at any time, and any new one may start; either concerns only itself. */
  lemma {:induction false} ProcessesComeAndGo(states: seq<State>, steps: seq<Step>, n: nat, pid: Pid)
    requires IsRun(states, steps) && n < |states|
    ensures var s := states[n];
      if pid in s.managers || pid in s.installers
      then Enabled(s, Die(pid)) && !TakesPart(Apply(s, Die(pid)), pid) && OthersStay(s, Apply(s, Die(pid)), pid)
      else Enabled(s, Start(pid)) && Apply(s, Start(pid)).managers == s.managers[pid := Outside]
  {
    EveryStateIsInv(states, steps, n);
  }

  /** The steps lead from one state to another. */
  predicate Leads(s: State, steps: seq<Step>, t: State)
    decreases |steps|
  {
    if steps == [] then s == t else Enabled(s, steps[0]) && Leads(Apply(s, steps[0]), steps[1..], t)
  }

  lemma {:induction false} RunGrows(states: seq<State>, steps: seq<Step>, step: Step)
    requires IsRun(states, steps) && Enabled(states[|steps|], step)
    ensures IsRun(states + [Apply(states[|steps|], step)], steps + [step])
  {
    var more, all := states + [Apply(states[|steps|], step)], steps + [step];
    forall i | 0 <= i < |all| ensures Enabled(more[i], all[i]) && more[i + 1] == Apply(more[i], all[i]) {
      if i < |steps| { assert more[i] == states[i] && more[i + 1] == states[i + 1]; }
    }
  }

  lemma {:induction false} RunContinues(states: seq<State>, steps: seq<Step>, next: seq<Step>, t: State)
    returns (more: seq<State>)
    requires IsRun(states, steps) && Leads(states[|steps|], next, t)
    ensures IsRun(more, steps + next) && more[|steps + next|] == t && states <= more
    decreases |next|
  {
    if next == [] {
      more := states;
      assert steps + next == steps;
    } else {
      RunGrows(states, steps, next[0]);
      var grown := states + [Apply(states[|steps|], next[0])];
      more := RunContinues(grown, steps + [next[0]], next[1..], t);
      assert steps + next == steps + [next[0]] + next[1..];
    }
  }

  const BOTH_STARTED := State(map[1 := Outside, 2 := Outside], map[], map[], None, Closed, 0, 0)

  const FIRST_WORKS := State(map[1 := Working(0), 2 := Outside], map[], map[0 := {1}], Some(0), Closed, 0, 0)

  const INSTALLER_RUNS :=
    State(map[1 := Working(0), 2 := Outside], map[3 := 1], map[0 := {1, 3}], Some(0), Running, 1, 1)

  const ORPHANED := State(map[2 := Outside], map[3 := 1], map[0 := {3}], Some(0), Running, 1, 1)

  const REFUSED := State(map[2 := Outside], map[3 := 1], map[0 := {3}, 1 := {}], Some(0), Running, 1, 1)

  const RELEASED := State(map[2 := Outside], map[], map[0 := {}, 1 := {}], None, Running, 1, 1)

  const SECOND_INSIDE :=
    State(map[2 := Holding(2)], map[], map[0 := {}, 1 := {}, 2 := {2}], Some(2), Running, 1, 1)

  lemma {:induction false} FirstManagerWorks()
    ensures Leads(INITIAL, [Start(1), Start(2)], BOTH_STARTED)
    ensures Leads(BOTH_STARTED, [Open(1, 0), TryLock(1), Check(1)], FIRST_WORKS)
  {
    assert Apply(INITIAL, Start(1)) == INITIAL.(managers := map[1 := Outside]);
    assert Apply(INITIAL.(managers := map[1 := Outside]), Start(2)) == BOTH_STARTED;
  }

  lemma {:induction false} FirstManagerLaunches()
    ensures Leads(FIRST_WORKS, [Save(1, Running), Move(1), Launch(1, 3)], INSTALLER_RUNS)
  {
    var saved := FIRST_WORKS.(status := Running);
    assert Apply(FIRST_WORKS, Save(1, Running)) == saved;
    assert Apply(saved, Move(1)) == saved.(moves := 1);
    assert {1} + {3} == {1, 3};
    assert Apply(saved.(moves := 1), Launch(1, 3)) == INSTALLER_RUNS;
  }

  /** The description that the installer has inherited stays open and locked. */
  lemma {:induction false} FirstManagerDies()
    ensures Leads(INSTALLER_RUNS, [Die(1)], ORPHANED)
  {
    var t := Apply(INSTALLER_RUNS, Die(1));
    assert {1, 3} - {1} == {3};
    assert t.openers == ORPHANED.openers && t.managers == ORPHANED.managers && t.installers == ORPHANED.installers;
  }

  lemma {:induction false} SecondManagerIsRefused()
    ensures Leads(ORPHANED, [Open(2, 1), TryLock(2)], REFUSED)
  {
    var trying := ORPHANED.(managers := map[2 := Opened(1)], openers := map[0 := {3}, 1 := {2}]);
    assert Apply(ORPHANED, Open(2, 1)) == trying;
    var t := Apply(trying, TryLock(2));
    assert {3} - {2} == {3} && {2} - {2} == {};
    assert t.openers == REFUSED.openers && t.managers == REFUSED.managers;
  }

  lemma {:induction false} InstallerEnds()
    ensures Leads(REFUSED, [Die(3)], RELEASED)
  {
    var t := Apply(REFUSED, Die(3));
    assert {3} - {3} == {} && {} - {3} == {};
    assert t.openers == RELEASED.openers && t.managers == RELEASED.managers && t.installers == RELEASED.installers;
  }

  lemma {:induction false} SecondManagerEnters()
    ensures Leads(RELEASED, [Open(2, 2), TryLock(2)], SECOND_INSIDE)
  {
    var again := RELEASED.(managers := map[2 := Opened(2)], openers := map[0 := {}, 1 := {}, 2 := {2}]);
    assert Apply(RELEASED, Open(2, 2)) == again;
    assert Apply(again, TryLock(2)) == SECOND_INSIDE;
  }

  /** A run in which manager 1 dies while its installer 3 lives: manager 2 is refused, waits, and enters the lease
      once the installer is gone. */
  lemma {:induction false} OrphanIsWaitedFor() returns (states: seq<State>, steps: seq<Step>, refused: nat)
    ensures IsRun(states, steps) && refused < |steps|
    ensures 1 !in states[refused].managers && states[refused].installers == map[3 := 1]
    ensures states[refused].managers == map[2 := Outside]
    ensures states[|steps|].managers == map[2 := Holding(2)] && states[|steps|].installers == map[]
    ensures states[|steps|].moves == 1 && states[|steps|].launches == 1
  {
    FirstManagerWorks();
    FirstManagerLaunches();
    FirstManagerDies();
    SecondManagerIsRefused();
    InstallerEnds();
    SecondManagerEnters();
    states, steps := [INITIAL], [];
    states := RunContinues(states, steps, [Start(1), Start(2)], BOTH_STARTED);
    steps := steps + [Start(1), Start(2)];
    states := RunContinues(states, steps, [Open(1, 0), TryLock(1), Check(1)], FIRST_WORKS);
    steps := steps + [Open(1, 0), TryLock(1), Check(1)];
    states := RunContinues(states, steps, [Save(1, Running), Move(1), Launch(1, 3)], INSTALLER_RUNS);
    steps := steps + [Save(1, Running), Move(1), Launch(1, 3)];
    states := RunContinues(states, steps, [Die(1)], ORPHANED);
    steps := steps + [Die(1)];
    states := RunContinues(states, steps, [Open(2, 1), TryLock(2)], REFUSED);
    steps := steps + [Open(2, 1), TryLock(2)];
    refused := |steps|;
    states := RunContinues(states, steps, [Die(3)], RELEASED);
    steps := steps + [Die(3)];
    states := RunContinues(states, steps, [Open(2, 2), TryLock(2)], SECOND_INSIDE);
    steps := steps + [Open(2, 2), TryLock(2)];
  }
}
