/**
 The streaming checker of Modules/lvs_cpu_verified_progress.py: one pass over the records, keeping one
 earlier snapshot and one account per CPU, ending in a verdict that is exactly the whole-log specification.
 */
module ProgressChecker {
  import opened Options
  import opened ProgressLog
  import opened ProgressSpec
  import opened ProgressRecord

  // ----- the whole log

  datatype Quality = NotAssessed | Invalid | Insufficient | Sufficient

  datatype ThreadResult = ThreadResult(cpu: int, stats: Stats, coverage: real, rate: Option<real>)

  datatype Result = Result(
    quality: Quality, reasons: seq<Reason>, threads: seq<ThreadResult>, snapshots: nat,
    aggregateRate: Option<real>, intervalRates: RateSummary, averageRate: Option<real>)

  ghost predicate AllGood(w: Worker, log: seq<Option<Row>>)
  {
    forall i :: 0 <= i < |log| ==> log[i].Some? && GoodRow(w, log[i].value)
  }

  ghost function Snapshots(w: Worker, log: seq<Option<Row>>): (snaps: seq<Snapshot>)
    requires AllGood(w, log)
    ensures |snaps| == |log|
  {
    seq(|log|, i requires 0 <= i < |log| => SnapshotOf(log[i].value))
  }

  ghost predicate WellCovered(win: Window, s: Stats)
    requires win.start < win.end
  {
    s.intervals >= 2 && Quotient(s.seconds, win.end - win.start) >= 0.8 && s.stalls == 0
  }

  /** Everything that has nothing to do with single records. */
  predicate GoodCircumstances(w: Worker, win: Window)
  {
    && w.contractRecognized && win.start < win.end && !w.persistenceError && ValidTargets(w)
    && w.vectorGeometryValid && w.laneGeometryValid
    && w.verificationSatisfied && AsInteger(w.exitCode) == Some(0)
    && (win.minimumUsable.Some? ==> win.end - win.start >= win.minimumUsable.value)
    && win.telemetrySufficient
  }

  /** Some snapshot has this state. */
  predicate Occurs(state: State, snaps: seq<Snapshot>)
  {
    exists i :: 0 <= i < |snaps| && snaps[i].state == state
  }

  /** The whole-log meaning of the verdict. */
  ghost predicate SufficientLog(w: Worker, win: Window, log: seq<Option<Row>>, tail: Tail)
  {
    && GoodCircumstances(w, win) && tail.Clean? && AllGood(w, log)
    && var snaps := Snapshots(w, log);
    && WholeLog(win, Targets(w), snaps)
    && Occurs(Initial, snaps)
    && snaps != [] && snaps[|snaps| - 1].state.FinalComplete?
    && (w.snapshotCount.Some? ==> AsInteger(w.snapshotCount.value) == Some(|snaps|))
    && (forall cpu :: cpu in Targets(w) ==> WellCovered(win, Account(win, snaps, cpu, |snaps|)))
  }

  /** The tracker after a clean prefix of the log. */
  ghost predicate Tracks(win: Window, snaps: seq<Snapshot>, tr: Tracker)
  {
    && tr.previous == (if snaps == [] then None else Some(snaps[|snaps| - 1]))
    && tr.lastState == (if snaps == [] then None else Some(snaps[|snaps| - 1].state))
    && tr.snapshots == |snaps|
    && (tr.initialSeen <==> Occurs(Initial, snaps))
    && (tr.finalComplete <==> Occurs(FinalComplete, snaps))
    && (forall cpu :: cpu in tr.stats ==> tr.stats[cpu] == Account(win, snaps, cpu, |snaps|))
  }

  // What the loop has done after any log, clean or corrupt.

  function Front(log: seq<Option<Row>>): seq<Option<Row>>
    requires log != []
  {
    log[..|log| - 1]
  }

  function Last(log: seq<Option<Row>>): Option<Row>
    requires log != []
  {
    log[|log| - 1]
  }

  ghost function MemoryAfter(w: Worker, log: seq<Option<Row>>): Memory
  {
    if log == [] then NOTHING else NextMemory(w, MemoryAfter(w, Front(log)), Last(log))
  }

  ghost function AcceptedCount(w: Worker, log: seq<Option<Row>>): nat
  {
    if log == [] then 0
    else AcceptedCount(w, Front(log)) + if Accepted(w, MemoryAfter(w, Front(log)), Last(log)) then 1 else 0
  }

  ghost predicate SawInitial(w: Worker, log: seq<Option<Row>>)
  {
    log != [] && (SawInitial(w, Front(log)) || SeesInitial(w, MemoryAfter(w, Front(log)), Last(log)))
  }

  ghost predicate SawFinal(w: Worker, log: seq<Option<Row>>)
  {
    log != [] && (SawFinal(w, Front(log)) || SeesFinal(w, MemoryAfter(w, Front(log)), Last(log)))
  }

  /** The account of a CPU: the fold of what each record credits over the accepted record just before it. */
  ghost function AccountAfter(w: Worker, win: Window, log: seq<Option<Row>>, cpu: int): Stats
  {
    if log == [] then EMPTY_STATS
    else NextAccount(w, win, MemoryAfter(w, Front(log)), Last(log), cpu, AccountAfter(w, win, Front(log), cpu))
  }

  /** The interval rates: one summand for every record that credits all of its CPUs. */
  ghost function RatesAfter(w: Worker, win: Window, log: seq<Option<Row>>): RateSummary
  {
    if log == [] then NO_RATES
    else NextRates(w, win, MemoryAfter(w, Front(log)), Last(log), RatesAfter(w, win, Front(log)))
  }

  lemma {:induction false} FrontAndLast(log: seq<Option<Row>>, line: Option<Row>)
    ensures Front(log + [line]) == log && Last(log + [line]) == line
  {
  }

  /** What is remembered is the last line of the log, so only adjacent records are ever compared. */
  lemma {:induction false} MemoryIsTheLastLine(w: Worker, log: seq<Option<Row>>)
    ensures var m := MemoryAfter(w, log); m.previous.Some? ==>
              && log != [] && Last(log).Some? && GoodRow(w, Last(log).value)
              && m.previous.value == SnapshotOf(Last(log).value) && m.previous.value.mapping.Keys == Targets(w)
  {
    if log != [] && Accepted(w, MemoryAfter(w, Front(log)), Last(log)) {
      GoodRowCoversTargets(w, Last(log).value);
    }
  }

  /** Corrupt or missing evidence is never bridged: the record after a rejected one credits nothing. */
  lemma {:induction false} RejectionIsNeverBridged(w: Worker, win: Window, log: seq<Option<Row>>, rejected: Option<Row>,
                                                   after: Option<Row>, cpu: int)
    requires !Accepted(w, MemoryAfter(w, log), rejected)
    ensures AccountAfter(w, win, log + [rejected] + [after], cpu) == AccountAfter(w, win, log + [rejected], cpu)
    ensures RatesAfter(w, win, log + [rejected] + [after]) == RatesAfter(w, win, log + [rejected])
  {
    FrontAndLast(log, rejected);
    FrontAndLast(log + [rejected], after);
  }

  /** A line that is no record credits nothing at all. */
  lemma {:induction false} UnreadableLineCreditsNothing(w: Worker, win: Window, log: seq<Option<Row>>, cpu: int)
    ensures AccountAfter(w, win, log + [None], cpu) == AccountAfter(w, win, log, cpu)
    ensures AcceptedCount(w, log + [None]) == AcceptedCount(w, log)
  {
    FrontAndLast(log, None);
  }

  /** The tracker is what the loop does to an empty one on this log. */
  ghost predicate Replays(w: Worker, win: Window, log: seq<Option<Row>>, tr: Tracker)
  {
    && tr.Remembers() == MemoryAfter(w, log) && tr.snapshots == AcceptedCount(w, log)
    && tr.initialSeen == SawInitial(w, log) && tr.finalComplete == SawFinal(w, log)
    && tr.rates == RatesAfter(w, win, log)
    && forall cpu :: cpu in tr.stats ==> tr.stats[cpu] == AccountAfter(w, win, log, cpu)
  }

  lemma {:induction false} ReplayGrows(w: Worker, win: Window, log: seq<Option<Row>>, line: Option<Row>,
                                       tr: Tracker, next: Tracker)
    requires Replays(w, win, log, tr) && Steps(w, win, tr, line, next)
    ensures Replays(w, win, log + [line], next)
  {
    FrontAndLast(log, line);
  }

  lemma {:induction false} AccountOfPrefix(win: Window, snaps: seq<Snapshot>, last: Snapshot, cpu: int, n: nat)
    requires n <= |snaps|
    ensures Account(win, snaps + [last], cpu, n) == Account(win, snaps, cpu, n)
  {
    if n > 1 { AccountOfPrefix(win, snaps, last, cpu, n - 1); }
  }

  lemma {:induction false} CleanLogGrows(win: Window, cpus: set<int>, snaps: seq<Snapshot>, last: Snapshot)
    ensures CleanLog(win, cpus, snaps + [last]) <==>
            && CleanLog(win, cpus, snaps)
            && Errorless(cpus, last)
            && (snaps == [] ==> last.state.Startup? && last.sequence == 0)
            && (snaps != [] ==>
                  Follows(cpus, snaps[|snaps| - 1], last) && Contiguous(win, cpus, snaps[|snaps| - 1], last))
  {
    var longer := snaps + [last];
    assert CleanLog(win, cpus, longer) ==> CleanAt(win, cpus, longer, |snaps|);
    forall i | 0 <= i < |snaps| ensures CleanAt(win, cpus, longer, i) <==> CleanAt(win, cpus, snaps, i) {
    }
    if CleanLog(win, cpus, longer) {
      assert forall i :: 0 <= i < |snaps| ==> CleanAt(win, cpus, longer, i);
    }
  }

  ghost predicate CleanPrefix(w: Worker, win: Window, log: seq<Option<Row>>)
  {
    AllGood(w, log) && CleanLog(win, Targets(w), Snapshots(w, log))
  }

  lemma {:induction false} AllGoodGrows(w: Worker, log: seq<Option<Row>>, line: Option<Row>)
    ensures AllGood(w, log + [line]) <==> AllGood(w, log) && line.Some? && GoodRow(w, line.value)
    ensures AllGood(w, log + [line]) ==> Snapshots(w, log + [line]) == Snapshots(w, log) + [SnapshotOf(line.value)]
  {
    var longer := log + [line];
    assert longer[|log|] == line && forall i :: 0 <= i < |log| ==> longer[i] == log[i];
  }

  /** After a clean log the loop remembers its last snapshot and has accepted every record. */
  lemma {:induction false} CleanMemory(w: Worker, win: Window, log: seq<Option<Row>>)
    requires CleanPrefix(w, win, log)
    ensures var snaps := Snapshots(w, log);
            MemoryAfter(w, log) == (if snaps == [] then NOTHING else Remembering(snaps[|snaps| - 1]))
    ensures AcceptedCount(w, log) == |log|
  {
    if log != [] {
      CleanFront(w, win, log);
      CleanMemory(w, win, Front(log));
      CleanNext(w, win, Front(log), Last(log));
    }
  }

  lemma {:induction false} CleanFront(w: Worker, win: Window, log: seq<Option<Row>>)
    requires CleanPrefix(w, win, log) && log != []
    ensures log == Front(log) + [Last(log)]
    ensures CleanPrefix(w, win, Front(log)) && Last(log).Some? && GoodRow(w, Last(log).value)
    ensures Snapshots(w, log) == Snapshots(w, Front(log)) + [SnapshotOf(Last(log).value)]
  {
    assert log == Front(log) + [Last(log)];
    AllGoodGrows(w, Front(log), Last(log));
    CleanLogGrows(win, Targets(w), Snapshots(w, Front(log)), SnapshotOf(Last(log).value));
  }

  /** One more good record keeps a clean log clean exactly when it is admitted after what is remembered. */
  lemma {:induction false} CleanNext(w: Worker, win: Window, log: seq<Option<Row>>, line: Option<Row>)
    requires CleanPrefix(w, win, log) && line.Some? && GoodRow(w, line.value)
    ensures var snaps := Snapshots(w, log);
            CleanPrefix(w, win, log + [line]) <==>
            Admitted(w, win, if snaps == [] then NOTHING else Remembering(snaps[|snaps| - 1]), snaps == [], line)
  {
    AllGoodGrows(w, log, line);
    CleanLogGrows(win, Targets(w), Snapshots(w, log), SnapshotOf(line.value));
  }

  lemma {:induction false} AcceptedIsGood(w: Worker, m: Memory, line: Option<Row>)
    requires Accepted(w, m, line)
    ensures GoodRow(w, line.value)
  {
  }

  /** One more record keeps a clean log clean exactly when the checker admits it. */
  lemma {:induction false} AdmissionIsCleanliness(w: Worker, win: Window, log: seq<Option<Row>>, line: Option<Row>)
    ensures CleanPrefix(w, win, log + [line]) <==>
            CleanPrefix(w, win, log) && Admitted(w, win, MemoryAfter(w, log), AcceptedCount(w, log) == 0, line)
  {
    if CleanPrefix(w, win, log + [line]) {
      FrontAndLast(log, line);
      CleanFront(w, win, log + [line]);
    }
    if CleanPrefix(w, win, log) && line.Some? {
      CleanMemory(w, win, log);
      if Admitted(w, win, MemoryAfter(w, log), AcceptedCount(w, log) == 0, line) {
        AcceptedIsGood(w, MemoryAfter(w, log), line);
      }
      if GoodRow(w, line.value) { CleanNext(w, win, log, line); }
    }
  }

  /** The last record of a clean log, seen from the ones before it. */
  lemma {:induction false} CleanLast(w: Worker, win: Window, log: seq<Option<Row>>)
    requires CleanPrefix(w, win, log) && log != []
    ensures CleanPrefix(w, win, Front(log))
    ensures Admitted(w, win, MemoryAfter(w, Front(log)), |log| == 1, Last(log))
    ensures Snapshots(w, log) == Snapshots(w, Front(log)) + [SnapshotOf(Last(log).value)]
    ensures MemoryAfter(w, Front(log)).previous ==
            if |log| == 1 then None else Some(Snapshots(w, Front(log))[|log| - 2])
  {
    CleanFront(w, win, log);
    CleanMemory(w, win, Front(log));
    AdmissionIsCleanliness(w, win, Front(log), Last(log));
  }

  lemma {:induction false} OccursGrows(state: State, snaps: seq<Snapshot>, last: Snapshot)
    ensures Occurs(state, snaps + [last]) <==> Occurs(state, snaps) || last.state == state
  {
    var longer := snaps + [last];
    assert longer[|snaps|] == last && forall i :: 0 <= i < |snaps| ==> longer[i] == snaps[i];
    if i :| 0 <= i < |snaps| && snaps[i].state == state { assert longer[i].state == state; }
  }

  lemma {:induction false} CleanFlags(w: Worker, win: Window, log: seq<Option<Row>>)
    requires CleanPrefix(w, win, log)
    ensures SawInitial(w, log) <==> Occurs(Initial, Snapshots(w, log))
    ensures SawFinal(w, log) <==> Occurs(FinalComplete, Snapshots(w, log))
  {
    if log != [] {
      CleanLast(w, win, log);
      CleanFlags(w, win, Front(log));
      OccursGrows(Initial, Snapshots(w, Front(log)), SnapshotOf(Last(log).value));
      OccursGrows(FinalComplete, Snapshots(w, Front(log)), SnapshotOf(Last(log).value));
    }
  }

  /** On a clean log what the loop credits is the account of the specification. */
  lemma {:induction false} CleanAccount(w: Worker, win: Window, log: seq<Option<Row>>, cpu: int)
    requires CleanPrefix(w, win, log) && cpu in Targets(w)
    ensures AccountAfter(w, win, log, cpu) == Account(win, Snapshots(w, log), cpu, |log|)
  {
    if log != [] {
      CleanLast(w, win, log);
      CleanAccount(w, win, Front(log), cpu);
      var before, cur := Snapshots(w, Front(log)), SnapshotOf(Last(log).value);
      AccountOfPrefix(win, before, cur, cpu, |before|);
      if |log| > 1 {
        WholeRowIsCredited(w, win, before[|before| - 1], Last(log).value, cpu, AccountAfter(w, win, Front(log), cpu));
      }
    }
  }

  /** A record contiguous with the one before it credits every counted interval. */
  lemma {:induction false} WholeRowIsCredited(w: Worker, win: Window, prev: Snapshot, row: Row, cpu: int, s: Stats)
    requires GoodRow(w, row) && AllCoherent(Targets(w), prev, SnapshotOf(row)) && cpu in Targets(w)
    requires Contiguous(win, Targets(w), prev, SnapshotOf(row))
    ensures RowCredit(win, Order(row.threads.value, |row.threads.value|), prev, SnapshotOf(row), cpu, s)
         == WithInterval(win, s, prev, SnapshotOf(row), cpu)
  {
    var order, cur := Order(row.threads.value, |row.threads.value|), SnapshotOf(row);
    OrderEnumeratesTargets(w, row.threads.value, Number(row.monotonic).value);
    WholeRowIsAllCpus(win, order, Targets(w), prev, cur);
    CoherentCountMeaning(order, |order|, prev, cur);
    assert order[..|order|] == order;
    ContiguousCredit(win, Targets(w), s, prev, cur, cpu);
  }

  lemma {:induction false} CleanReplayTracks(w: Worker, win: Window, log: seq<Option<Row>>, tr: Tracker)
    requires CleanPrefix(w, win, log) && Replays(w, win, log, tr) && tr.stats.Keys == Targets(w)
    ensures Tracks(win, Snapshots(w, log), tr)
  {
    CleanMemory(w, win, log);
    CleanFlags(w, win, log);
    forall cpu | cpu in tr.stats ensures tr.stats[cpu] == Account(win, Snapshots(w, log), cpu, |log|) {
      CleanAccount(w, win, log, cpu);
    }
  }

  /** No complaint was made exactly when the log so far is clean. */
  ghost predicate Reflects(w: Worker, win: Window, log: seq<Option<Row>>, tr: Tracker)
  {
    tr.reasons == [] <==> !w.persistenceError && CleanPrefix(w, win, log)
  }

  lemma {:induction false} RecordKeepsReflection(w: Worker, win: Window, log: seq<Option<Row>>, line: Option<Row>,
                                                 tr: Tracker, next: Tracker)
    requires Replays(w, win, log, tr) && Steps(w, win, tr, line, next) && Reflects(w, win, log, tr)
    requires next.reasons == [] <==> tr.reasons == [] && Admitted(w, win, tr.Remembers(), tr.snapshots == 0, line)
    ensures Replays(w, win, log + [line], next) && Reflects(w, win, log + [line], next)
  {
    ReplayGrows(w, win, log, line, tr, next);
    AdmissionIsCleanliness(w, win, log, line);
  }

  /** The loop over the records. */
  method ObserveLog(w: Worker, win: Window, log: seq<Option<Row>>) returns (tr: Tracker)
    ensures Consistent(w, tr) && Replays(w, win, log, tr) && Reflects(w, win, log, tr)
  {
    var reasons := if w.persistenceError then [PersistenceFailed] else [];
    assert NO_RATES == Summarize([]);
    tr := Tracker(None, None, false, false, 0, map cpu | cpu in Targets(w) :: EMPTY_STATS, NO_RATES, reasons);
    for i := 0 to |log|
      invariant Consistent(w, tr) && Replays(w, win, log[..i], tr) && Reflects(w, win, log[..i], tr)
    {
      var next := ObserveRecord(w, win, tr, log[i]);
      assert log[..i + 1] == log[..i] + [log[i]];
      RecordKeepsReflection(w, win, log[..i], log[i], tr, next);
      tr := next;
    }
    assert log[..|log|] == log;
  }

  /** One good result for each of the first n targeted CPUs, in their order, carrying the account of that CPU. */
  ghost predicate ResultsOf(w: Worker, win: Window, stats: map<int, Stats>, threads: seq<ThreadResult>, n: nat)
    requires win.start < win.end && n <= |w.targets|
  {
    |threads| == n && forall k :: 0 <= k < n ==>
      && threads[k].cpu == Cpus(w)[k] && threads[k].cpu in stats && threads[k].stats == stats[threads[k].cpu]
      && GoodThreadResult(win, threads[k])
  }

  /** The sum of the rates, when every CPU has one. */
  ghost predicate IsAggregate(threads: seq<ThreadResult>, aggregate: Option<real>)
  {
    && (aggregate.Some? <==> forall k :: 0 <= k < |threads| ==> threads[k].rate.Some?)
    && (aggregate.Some? ==> aggregate.value == SumOfRates(threads))
  }

  lemma {:induction false} ResultsGrow(w: Worker, win: Window, stats: map<int, Stats>, threads: seq<ThreadResult>,
                                       n: nat, r: ThreadResult)
    requires win.start < win.end && n < |w.targets| && ResultsOf(w, win, stats, threads, n)
    requires r.cpu == Cpus(w)[n] && r.cpu in stats && r.stats == stats[r.cpu] && GoodThreadResult(win, r)
    ensures ResultsOf(w, win, stats, threads + [r], n + 1)
    ensures AllWellCovered(win, threads + [r]) <==> AllWellCovered(win, threads) && WellCovered(win, r.stats)
  {
    var longer := threads + [r];
    assert longer[n] == r && forall k :: 0 <= k < n ==> longer[k] == threads[k];
  }

  lemma {:induction false} AggregateGrows(threads: seq<ThreadResult>, aggregate: Option<real>, r: ThreadResult)
    requires IsAggregate(threads, aggregate)
    ensures IsAggregate(threads + [r],
                        if aggregate.Some? && r.rate.Some? then Some(aggregate.value + r.rate.value) else None)
  {
    var longer := threads + [r];
    assert longer[|threads|] == r;
    if aggregate.None? {
      var k :| 0 <= k < |threads| && threads[k].rate.None?;
      assert longer[k].rate.None?;
    } else if r.rate.Some? {
      RatesGrow(threads, r);
    }
  }

  lemma {:induction false} RatesGrow(threads: seq<ThreadResult>, r: ThreadResult)
    requires r.rate.Some? && forall k :: 0 <= k < |threads| ==> threads[k].rate.Some?
    ensures SumOfRates(threads + [r]) == SumOfRates(threads) + r.rate.value
  {
    var rates := seq(|threads|, k requires 0 <= k < |threads| => threads[k].rate.value);
    var longer := threads + [r];
    assert seq(|longer|, k requires 0 <= k < |longer| => longer[k].rate.value) == rates + [r.rate.value];
    SumOfOne(r.rate.value);
    SumOfBoth(rates, [r.rate.value]);
  }

  /** The per-thread part of the verdict. */
  method SummarizeThreads(w: Worker, win: Window, stats: map<int, Stats>, reasons: seq<Reason>)
    returns (threads: seq<ThreadResult>, aggregate: Option<real>, reasons': seq<Reason>)
    requires win.start < win.end && stats.Keys == Targets(w) && w.targets != []
    requires forall cpu :: cpu in stats ==> Bracketed(stats[cpu])
    ensures ResultsOf(w, win, stats, threads, |w.targets|) && IsAggregate(threads, aggregate)
    ensures reasons' == [] <==> reasons == [] && w.laneGeometryValid && AllWellCovered(win, threads)
  {
    var cpus := Cpus(w);
    threads, aggregate, reasons' := [], Some(0.0), reasons;
    for k := 0 to |cpus|
      invariant ResultsOf(w, win, stats, threads, k) && IsAggregate(threads, aggregate)
      invariant reasons' == [] <==> reasons == [] && (k > 0 ==> w.laneGeometryValid) && AllWellCovered(win, threads)
    {
      var cpu := cpus[k];
      assert cpu in Targets(w);
      var result;
      result, reasons' := SummarizeThread(w, win, cpu, stats[cpu], reasons');
      ResultsGrow(w, win, stats, threads, k, result);
      AggregateGrows(threads, aggregate, result);
      threads := threads + [result];
      aggregate := if aggregate.Some? && result.rate.Some? then Some(aggregate.value + result.rate.value) else None;
    }
  }

  /** The sum of the rates of all CPUs. */
  ghost function SumOfRates(threads: seq<ThreadResult>): real
    requires forall k :: 0 <= k < |threads| ==> threads[k].rate.Some?
  {
    Sum(seq(|threads|, k requires 0 <= k < |threads| => threads[k].rate.value))
  }

  /** What a thread result always satisfies, also for a corrupt log. */
  ghost predicate GoodThreadResult(win: Window, r: ThreadResult)
    requires win.start < win.end
  {
    && var covered := Quotient(r.stats.seconds, win.end - win.start);
    && r.coverage == (if covered < 1.0 then covered else 1.0)
    && (r.rate.Some? <==> r.stats.intervals > 0)
    && (r.rate.Some? ==>
          && r.stats.seconds != 0.0 && r.rate.value == Quotient(r.stats.blocks as real, r.stats.seconds)
          && r.stats.minRate.Some? && r.stats.maxRate.Some?
          && r.stats.minRate.value <= r.rate.value <= r.stats.maxRate.value)
  }

  method SummarizeThread(w: Worker, win: Window, cpu: int, stats: Stats, reasons: seq<Reason>)
    returns (r: ThreadResult, reasons': seq<Reason>)
    requires win.start < win.end && Bracketed(stats)
    ensures r.cpu == cpu && r.stats == stats && GoodThreadResult(win, r)
    ensures reasons' == [] <==> reasons == [] && w.laneGeometryValid && WellCovered(win, stats)
  {
    reasons' := reasons;
    var covered := Divide(stats.seconds, win.end - win.start);
    var coverage, rate := if covered < 1.0 then covered else 1.0, None;
    if stats.seconds != 0.0 {
      var overall := Divide(stats.blocks as real, stats.seconds);
      OverallRateIsBetweenExtremes(stats);
      rate := Some(overall);
    }
    if !w.laneGeometryValid {
      reasons' := Issue(reasons', BadLanes);
    }
    if stats.intervals < 2 || coverage < 0.8 {
      reasons' := Issue(reasons', InsufficientCoverage(cpu));
    }
    if stats.stalls > 0 {
      reasons' := Issue(reasons', StalledWork(cpu));
    }
    r := ThreadResult(cpu, stats, coverage, rate);
  }

  /** What the numbers of a result mean, whatever the log was. */
  ghost predicate GoodNumbers(win: Window, r: Result)
  {
    && (r.threads != [] ==> win.start < win.end)
    && (forall k :: 0 <= k < |r.threads| ==> GoodThreadResult(win, r.threads[k]))
    && (r.aggregateRate.Some? ==>
          && (forall k :: 0 <= k < |r.threads| ==> r.threads[k].rate.Some?)
          && r.aggregateRate.value == SumOfRates(r.threads))
    && (r.threads != [] && (forall k :: 0 <= k < |r.threads| ==> r.threads[k].rate.Some?) ==> r.aggregateRate.Some?)
    && (r.averageRate.Some? <==> r.intervalRates.count > 0)
    && (r.averageRate.Some? ==>
          && r.intervalRates.count > 0 && r.intervalRates.minimum.Some? && r.intervalRates.maximum.Some?
          && r.averageRate.value == Quotient(r.intervalRates.sum, r.intervalRates.count as real)
          && r.intervalRates.minimum.value <= r.averageRate.value <= r.intervalRates.maximum.value)
  }

  function Verdict(quality: Quality, reasons: seq<Reason>): Result
  {
    Result(quality, reasons, [], 0, None, NO_RATES, None)
  }

  lemma {:induction false} TerminalIsLast(win: Window, cpus: set<int>, snaps: seq<Snapshot>)
    requires WholeLog(win, cpus, snaps)
    ensures Occurs(FinalComplete, snaps) <==>
            snaps != [] && snaps[|snaps| - 1].state.FinalComplete?
  {
    forall i | 0 <= i < |snaps| - 1 ensures !snaps[i].state.FinalComplete? {
      assert Before(cpus, snaps[i], snaps[|snaps| - 1]);
    }
  }

  /** The numbers reported for a log, clean or corrupt: each account is the fold of what the records credit. */
  ghost predicate Reported(w: Worker, win: Window, log: seq<Option<Row>>, r: Result)
  {
    && |r.threads| == |w.targets|
    && (forall k :: 0 <= k < |r.threads| ==>
          && r.threads[k].cpu == Cpus(w)[k]
          && r.threads[k].stats == AccountAfter(w, win, log, r.threads[k].cpu))
    && r.snapshots == AcceptedCount(w, log) && r.intervalRates == RatesAfter(w, win, log)
  }

  /** The circumstances under which the log is not read at all. */
  predicate Unread(w: Worker, win: Window)
  {
    !w.contractRecognized || win.end <= win.start || !ValidTargets(w) || !w.vectorGeometryValid
  }

  /** analyze_verified_progress: the verdict is sufficient exactly when the whole log is. */
  method AnalyzeVerifiedProgress(w: Worker, win: Window, log: seq<Option<Row>>, tail: Tail) returns (r: Result)
    ensures r.quality.Sufficient? <==> SufficientLog(w, win, log, tail)
    ensures r.quality.Sufficient? ==> r.reasons == [] && |r.threads| == |w.targets| && r.snapshots == |log|
    ensures r.quality.Sufficient? ==> AllGood(w, log) && ExactAccounts(w, win, Snapshots(w, log), r.threads)
    ensures r.quality.NotAssessed? <==> !w.contractRecognized
    ensures r.quality.Invalid? <==> w.contractRecognized && win.end <= win.start
    ensures r.quality.Sufficient? <==> r.reasons == []
    ensures if Unread(w, win) then r.threads == [] && r.snapshots == 0 && r.intervalRates == NO_RATES
            else Reported(w, win, log, r)
    ensures GoodNumbers(win, r)
  {
    if !w.contractRecognized {
      return Verdict(NotAssessed, [ContractUnrecognized]);
    }
    if win.end <= win.start {
      return Verdict(Invalid, [InvalidInterval]);
    }
    var reasons: seq<Reason> := if w.persistenceError then [PersistenceFailed] else [];
    if w.targets == [] || (exists k :: 0 <= k < |w.targets| && (!w.targets[k].Whole? || w.targets[k].i < 0))
       || (exists j, k :: 0 <= j < k < |w.targets| && w.targets[j] == w.targets[k]) {
      return Verdict(Insufficient, Issue(reasons, BadTargets));
    }
    if !w.vectorGeometryValid {
      return Verdict(Insufficient, Issue(reasons, BadVectorGeometry));
    }
    r := AssessLog(w, win, log, tail);
  }

  /** The part of the analysis that reads the log. */
  method AssessLog(w: Worker, win: Window, log: seq<Option<Row>>, tail: Tail) returns (r: Result)
    requires !Unread(w, win)
    ensures if r.reasons == [] then r.quality.Sufficient? else r.quality.Insufficient?
    ensures r.quality.Sufficient? <==> SufficientLog(w, win, log, tail)
    ensures r.quality.Sufficient? ==> r.reasons == [] && |r.threads| == |w.targets| && r.snapshots == |log|
    ensures r.quality.Sufficient? ==> AllGood(w, log) && ExactAccounts(w, win, Snapshots(w, log), r.threads)
    ensures Reported(w, win, log, r) && GoodNumbers(win, r)
  {
    var tr := ObserveLog(w, win, log);
    var reasons := CloseLog(w, win, tail, tr);
    var threads, aggregate;
    threads, aggregate, reasons := SummarizeThreads(w, win, tr.stats, reasons);
    var average := None;
    if tr.rates.count > 0 {
      MeanIsBetweenExtremes(tr.rates);
      var mean := Divide(tr.rates.sum, tr.rates.count as real);
      average := Some(mean);
    }
    if !win.telemetrySufficient {
      reasons := Issue(reasons, TelemetryInsufficient);
    }
    r := Result(if reasons == [] then Sufficient else Insufficient, reasons, threads, tr.snapshots,
                aggregate, tr.rates, average);
    if tr.reasons == [] { CleanReplayTracks(w, win, log, tr); }
    VerdictIsWholeLog(w, win, log, tail, tr, threads);
  }

  /** The complaints about the log as a whole, before the per-CPU summary. */
  method CloseLog(w: Worker, win: Window, tail: Tail, tr: Tracker) returns (reasons: seq<Reason>)
    ensures reasons == [] <==> tr.reasons == [] && ClosedWell(w, win, tail, tr)
  {
    reasons := tr.reasons;
    match tail {
      case Clean =>
      case Truncated => reasons := Issue(reasons, TruncatedRecord);
      case Unreadable => reasons := Issue(reasons, Unavailable);
    }
    if !tr.initialSeen {
      reasons := Issue(reasons, MissingInitial);
    }
    if tr.lastState != Some(FinalComplete) || !tr.finalComplete {
      reasons := Issue(reasons, MissingFinal);
    }
    if w.snapshotCount.Some? && AsInteger(w.snapshotCount.value) != Some(tr.snapshots) {
      reasons := Issue(reasons, SnapshotCountDiffers);
    }
    if !w.verificationSatisfied || AsInteger(w.exitCode) != Some(0) {
      reasons := Issue(reasons, WorkerNotVerified);
    }
    if win.minimumUsable.Some? && win.end - win.start < win.minimumUsable.value {
      reasons := Issue(reasons, BelowDuration);
    }
  }

  predicate ClosedWell(w: Worker, win: Window, tail: Tail, tr: Tracker)
  {
    && tail.Clean? && tr.initialSeen && tr.lastState == Some(FinalComplete) && tr.finalComplete
    && (w.snapshotCount.Some? ==> AsInteger(w.snapshotCount.value) == Some(tr.snapshots))
    && w.verificationSatisfied && AsInteger(w.exitCode) == Some(0)
    && (win.minimumUsable.Some? ==> win.end - win.start >= win.minimumUsable.value)
  }

  ghost predicate AllWellCovered(win: Window, threads: seq<ThreadResult>)
    requires win.start < win.end
  {
    forall k :: 0 <= k < |threads| ==> WellCovered(win, threads[k].stats)
  }

  /** Each thread result carries the account of its CPU over the whole log, and its coverage needed no cap. */
  ghost predicate ExactAccounts(w: Worker, win: Window, snaps: seq<Snapshot>, threads: seq<ThreadResult>)
    requires win.start < win.end && |threads| == |w.targets|
  {
    forall k :: 0 <= k < |threads| ==>
      && threads[k].cpu == Cpus(w)[k]
      && threads[k].stats == Account(win, snaps, threads[k].cpu, |snaps|)
      && threads[k].coverage == Quotient(threads[k].stats.seconds, win.end - win.start)
  }

  lemma {:induction false} CoverageOfTargets(w: Worker, win: Window, snaps: seq<Snapshot>, tr: Tracker,
                                             threads: seq<ThreadResult>)
    requires win.start < win.end && tr.stats.Keys == Targets(w)
    requires WholeLog(win, Targets(w), snaps) && Tracks(win, snaps, tr)
    requires ResultsOf(w, win, tr.stats, threads, |w.targets|)
    ensures AllWellCovered(win, threads) <==>
            forall cpu :: cpu in Targets(w) ==> WellCovered(win, Account(win, snaps, cpu, |snaps|))
    ensures ExactAccounts(w, win, snaps, threads)
  {
    forall k | 0 <= k < |threads|
      ensures threads[k].stats == Account(win, snaps, threads[k].cpu, |snaps|)
      ensures threads[k].coverage == Quotient(threads[k].stats.seconds, win.end - win.start)
    {
      ObservedTimeFitsTheWindow(win, Targets(w), snaps, threads[k].cpu);
    }
    forall cpu | cpu in Targets(w)
      ensures AllWellCovered(win, threads) ==> WellCovered(win, Account(win, snaps, cpu, |snaps|))
    {
      var k :| 0 <= k < |threads| && Cpus(w)[k] == cpu;
      assert threads[k].cpu == cpu;
    }
  }

  /** What the end of a clean log says about its snapshots. */
  lemma {:induction false} ClosedWellMeans(w: Worker, win: Window, log: seq<Option<Row>>, tail: Tail, tr: Tracker)
    requires CleanPrefix(w, win, log) && Tracks(win, Snapshots(w, log), tr)
    ensures var snaps := Snapshots(w, log);
      ClosedWell(w, win, tail, tr) <==>
        && tail.Clean?
        && Occurs(Initial, snaps)
        && snaps != [] && snaps[|snaps| - 1].state.FinalComplete?
        && (w.snapshotCount.Some? ==> AsInteger(w.snapshotCount.value) == Some(|snaps|))
        && w.verificationSatisfied && AsInteger(w.exitCode) == Some(0)
        && (win.minimumUsable.Some? ==> win.end - win.start >= win.minimumUsable.value)
  {
    NeighbourChecksAreWholeLog(win, Targets(w), Snapshots(w, log));
    TerminalIsLast(win, Targets(w), Snapshots(w, log));
  }

  lemma {:induction false} SufficientMeansClean(w: Worker, win: Window, log: seq<Option<Row>>, tail: Tail)
    requires SufficientLog(w, win, log, tail)
    ensures CleanPrefix(w, win, log)
  {
    NeighbourChecksAreWholeLog(win, Targets(w), Snapshots(w, log));
  }

  lemma {:induction false} CleanVerdict(w: Worker, win: Window, log: seq<Option<Row>>, tail: Tail, tr: Tracker,
                                        threads: seq<ThreadResult>)
    requires !Unread(w, win) && !w.persistenceError && tr.stats.Keys == Targets(w)
    requires CleanPrefix(w, win, log) && Tracks(win, Snapshots(w, log), tr)
    requires ResultsOf(w, win, tr.stats, threads, |w.targets|)
    ensures SufficientLog(w, win, log, tail) <==>
            && ClosedWell(w, win, tail, tr) && w.laneGeometryValid && win.telemetrySufficient
            && AllWellCovered(win, threads)
    ensures ExactAccounts(w, win, Snapshots(w, log), threads)
  {
    NeighbourChecksAreWholeLog(win, Targets(w), Snapshots(w, log));
    ClosedWellMeans(w, win, log, tail, tr);
    CoverageOfTargets(w, win, Snapshots(w, log), tr, threads);
  }

  /** Collects what an empty list of reasons amounts to. */
  lemma {:induction false} VerdictIsWholeLog(w: Worker, win: Window, log: seq<Option<Row>>, tail: Tail, tr: Tracker,
                                             threads: seq<ThreadResult>)
    requires !Unread(w, win) && tr.stats.Keys == Targets(w)
    requires tr.reasons == [] <==> !w.persistenceError && CleanPrefix(w, win, log)
    requires tr.reasons == [] ==> Tracks(win, Snapshots(w, log), tr)
    requires ResultsOf(w, win, tr.stats, threads, |w.targets|)
    ensures SufficientLog(w, win, log, tail) <==>
            && tr.reasons == [] && ClosedWell(w, win, tail, tr)
            && w.laneGeometryValid && win.telemetrySufficient && AllWellCovered(win, threads)
    ensures SufficientLog(w, win, log, tail) ==>
              ExactAccounts(w, win, Snapshots(w, log), threads) && tr.snapshots == |log|
  {
    if SufficientLog(w, win, log, tail) { SufficientMeansClean(w, win, log, tail); }
    if tr.reasons == [] { CleanVerdict(w, win, log, tail, tr, threads); }
  }

  /** What a sufficient result reports for a CPU is the work between its first and its last publication inside
      the trimmed window: nothing is counted twice, lost, or bridged. */
  lemma {:induction false} ReportedWorkIsLastMinusFirst(w: Worker, win: Window, log: seq<Option<Row>>, tail: Tail,
                                                        threads: seq<ThreadResult>, k: nat)
    returns (first: int, last: int)
    requires SufficientLog(w, win, log, tail) && k < |threads| == |w.targets|
    requires ExactAccounts(w, win, Snapshots(w, log), threads)
    ensures 0 <= first <= last < |log|
    ensures var snaps, cpu, s := Snapshots(w, log), threads[k].cpu, threads[k].stats;
      && Inside(win, snaps[first], cpu) && Inside(win, snaps[last], cpu)
      && (forall i :: 0 <= i < |snaps| && Inside(win, snaps[i], cpu) ==> first <= i <= last)
      && s.blocks == At(snaps[last], cpu).blocks - At(snaps[first], cpu).blocks
      && s.seconds == At(snaps[last], cpu).published - At(snaps[first], cpu).published
  {
    var snaps, cpu := Snapshots(w, log), threads[k].cpu;
    assert cpu == Cpus(w)[k] && cpu in Targets(w);
    first, last := FirstAndLastInside(win, snaps, cpu, |snaps|);
    assert WellCovered(win, Account(win, snaps, cpu, |snaps|));
    if first > last {
      NoInsideNoWork(win, snaps, cpu, |snaps|);
      assert false;
    }
    AccountIsLastMinusFirst(win, Targets(w), snaps, cpu, first, last);
  }

  /** In a sufficient log every record's aggregate is the sum over its CPUs. */
  lemma {:induction false} AggregatesAddUp(w: Worker, win: Window, log: seq<Option<Row>>, tail: Tail, i: nat)
    requires SufficientLog(w, win, log, tail) && i < |log|
    ensures log[i].value.aggregate == Whole(BlocksOver(Snapshots(w, log)[i].mapping))
    ensures Snapshots(w, log)[i].mapping.Keys == Targets(w)
  {
    assert GoodRow(w, log[i].value);
    AggregateIsTheSum(w, log[i].value);
    GoodRowCoversTargets(w, log[i].value);
  }
}
